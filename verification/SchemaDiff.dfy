/** Two live schemas compared by name, and the status of every table and member. */
module SchemaDiff {
  import opened Common
  import opened Names

  datatype ColumnMetadata = ColumnMetadata(
    name: string, dataType: string, nullable: bool, isPrimaryKey: bool, autoIncrement: bool,
    defaultValue: Option<string>)

  datatype IndexMetadata = IndexMetadata(
    name: string, columns: seq<string>, isUnique: bool, isPrimary: bool, accessMethod: string, definition: string)

  datatype ForeignKeyMetadata = ForeignKeyMetadata(
    constraintName: string, columns: seq<string>, referencedSchema: Option<string>, referencedTable: string,
    referencedColumns: seq<string>, onDelete: Option<string>, onUpdate: Option<string>)

  datatype ResolvedTable = ResolvedTable(
    name: string, columns: seq<ColumnMetadata>, indexes: seq<IndexMetadata>, foreignKeys: seq<ForeignKeyMetadata>)

  datatype DiffStatus = Added | Removed | Changed | Unchanged

  datatype Side = Left | Right

  datatype SchemaRef = SchemaRef(connectionId: string, schema: string)

  datatype KeyedDiff<T> = KeyedDiff(key: string, status: DiffStatus, left: Option<T>, right: Option<T>)

  datatype TableDiff = TableDiff(
    name: string, status: DiffStatus, existsLeft: bool, existsRight: bool, columns: seq<KeyedDiff<ColumnMetadata>>,
    indexes: seq<KeyedDiff<IndexMetadata>>, foreignKeys: seq<KeyedDiff<ForeignKeyMetadata>>)

  datatype SchemaDiff = SchemaDiff(left: SchemaRef, right: SchemaRef, tables: seq<TableDiff>)

  // ---- equality of members -----------------------------------------------------------------------------------

  predicate ColumnsEqual(a: ColumnMetadata, b: ColumnMetadata) {
    && a.dataType == b.dataType && a.nullable == b.nullable && a.isPrimaryKey == b.isPrimaryKey
    && a.autoIncrement == b.autoIncrement && a.defaultValue == b.defaultValue
  }

  predicate IndexesEqual(a: IndexMetadata, b: IndexMetadata) {
    a.isUnique == b.isUnique && a.isPrimary == b.isPrimary && a.accessMethod == b.accessMethod && a.columns == b.columns
  }

  predicate ForeignKeysEqual(a: ForeignKeyMetadata, b: ForeignKeyMetadata) {
    && a.referencedSchema == b.referencedSchema && a.referencedTable == b.referencedTable && a.columns == b.columns
    && a.referencedColumns == b.referencedColumns && a.onDelete == b.onDelete && a.onUpdate == b.onUpdate
  }

  function ColumnKey(c: ColumnMetadata): string { c.name }
  function IndexKey(i: IndexMetadata): string { i.name }
  function ForeignKeyKey(f: ForeignKeyMetadata): string { f.constraintName }
  function TableKey(t: ResolvedTable): string { t.name }

  // ---- keyed comparison --------------------------------------------------------------------------------------

  /** `new Map(items.map(...))`: a later item replaces an earlier one of the same name. */
  function MapOf<T>(items: seq<T>, keyOf: T -> string): (m: map<string, T>)
    ensures forall k :: k in m <==> k in KeysOf(items, keyOf)
    ensures forall k :: k in m ==> keyOf(m[k]) == k
  {
    if items == [] then map[]
    else
      assert KeysOf(items, keyOf) == [keyOf(items[0])] + KeysOf(items[1..], keyOf);
      map[keyOf(items[0]) := items[0]] + MapOf(items[1..], keyOf)
  }

  function KeysOf<T>(items: seq<T>, keyOf: T -> string): seq<string> {
    seq(|items|, i requires 0 <= i < |items| => keyOf(items[i]))
  }

  function UnionKeys<T>(left: seq<T>, right: seq<T>, keyOf: T -> string): seq<string> {
    SortUnique(KeysOf(left, keyOf) + KeysOf(right, keyOf))
  }

  function EntryStatus<T>(left: Option<T>, right: Option<T>, equal: (T, T) -> bool): DiffStatus {
    if left.Some? && right.Some? then (if equal(left.value, right.value) then Unchanged else Changed)
    else if left.Some? then Removed else Added
  }

  function DiffByKey<T>(left: seq<T>, right: seq<T>, keyOf: T -> string, equal: (T, T) -> bool): seq<KeyedDiff<T>> {
    var l, r, keys := MapOf(left, keyOf), MapOf(right, keyOf), UnionKeys(left, right, keyOf);
    seq(|keys|, i requires 0 <= i < |keys| =>
      var a, b := Lookup(l, keys[i]), Lookup(r, keys[i]);
      KeyedDiff(keys[i], EntryStatus(a, b, equal), a, b))
  }

  function ColumnsOf(t: Option<ResolvedTable>): seq<ColumnMetadata> { if t.Some? then t.value.columns else [] }
  function IndexesOf(t: Option<ResolvedTable>): seq<IndexMetadata> { if t.Some? then t.value.indexes else [] }
  function ForeignKeysOf(t: Option<ResolvedTable>): seq<ForeignKeyMetadata> {
    if t.Some? then t.value.foreignKeys else []
  }

  predicate AnyChange<T>(ds: seq<KeyedDiff<T>>) {
    exists i :: 0 <= i < |ds| && ds[i].status != Unchanged
  }

  function DiffTable(name: string, left: Option<ResolvedTable>, right: Option<ResolvedTable>): TableDiff {
    var columns := DiffByKey(ColumnsOf(left), ColumnsOf(right), ColumnKey, ColumnsEqual);
    var indexes := DiffByKey(IndexesOf(left), IndexesOf(right), IndexKey, IndexesEqual);
    var foreignKeys := DiffByKey(ForeignKeysOf(left), ForeignKeysOf(right), ForeignKeyKey, ForeignKeysEqual);
    var memberChange := AnyChange(columns) || AnyChange(indexes) || AnyChange(foreignKeys);
    var status :=
      if left.None? then Added else if right.None? then Removed else if memberChange then Changed else Unchanged;
    TableDiff(name, status, left.Some?, right.Some?, columns, indexes, foreignKeys)
  }

  function BuildSchemaDiff(
    left: SchemaRef, leftTables: seq<ResolvedTable>, right: SchemaRef, rightTables: seq<ResolvedTable>): SchemaDiff
  {
    var l, r := MapOf(leftTables, TableKey), MapOf(rightTables, TableKey);
    var names := UnionKeys(leftTables, rightTables, TableKey);
    SchemaDiff(left, right,
               seq(|names|, i requires 0 <= i < |names| =>
                 DiffTable(names[i], Lookup(l, names[i]), Lookup(r, names[i]))))
  }

  // ---- what the diff says --------------------------------------------------------------------------------------

  /** The names of either side, once each and in order. */
  lemma UnionKeysOrder<T>(left: seq<T>, right: seq<T>, keyOf: T -> string)
    ensures Ascending(UnionKeys(left, right, keyOf))
    ensures forall k :: k in UnionKeys(left, right, keyOf) <==> k in MapOf(left, keyOf) || k in MapOf(right, keyOf)
    ensures UnionKeys(left, right, keyOf) == UnionKeys(right, left, keyOf)
  {
    hide Ascending, Insert;
    SortUniqueAscending(KeysOf(left, keyOf) + KeysOf(right, keyOf));
    SortUniqueAscending(KeysOf(right, keyOf) + KeysOf(left, keyOf));
    AscendingUnique(UnionKeys(left, right, keyOf), UnionKeys(right, left, keyOf));
  }

  function MirrorStatus(s: DiffStatus): DiffStatus {
    match s case Added => Removed case Removed => Added case _ => s
  }

  function MirrorEntries<T>(ds: seq<KeyedDiff<T>>): seq<KeyedDiff<T>> {
    seq(|ds|, i requires 0 <= i < |ds| => KeyedDiff(ds[i].key, MirrorStatus(ds[i].status), ds[i].right, ds[i].left))
  }

  function MirrorTable(t: TableDiff): TableDiff {
    TableDiff(t.name, MirrorStatus(t.status), t.existsRight, t.existsLeft,
              MirrorEntries(t.columns), MirrorEntries(t.indexes), MirrorEntries(t.foreignKeys))
  }

  function Mirror(d: SchemaDiff): SchemaDiff {
    SchemaDiff(d.right, d.left, seq(|d.tables|, i requires 0 <= i < |d.tables| => MirrorTable(d.tables[i])))
  }

  lemma DiffByKeyMirror<T(!new)>(left: seq<T>, right: seq<T>, keyOf: T -> string, equal: (T, T) -> bool)
    requires forall a, b :: equal(a, b) == equal(b, a)
    ensures DiffByKey(right, left, keyOf, equal) == MirrorEntries(DiffByKey(left, right, keyOf, equal))
    ensures AnyChange(DiffByKey(right, left, keyOf, equal)) == AnyChange(DiffByKey(left, right, keyOf, equal))
  {
    hide UnionKeys, MapOf;
    UnionKeysOrder(left, right, keyOf);
    var ds, es := DiffByKey(left, right, keyOf, equal), DiffByKey(right, left, keyOf, equal);
    forall i | 0 <= i < |ds|
      ensures es[i] == KeyedDiff(ds[i].key, MirrorStatus(ds[i].status), ds[i].right, ds[i].left)
    {
    }
    assert forall i :: 0 <= i < |ds| ==> (ds[i].status == Unchanged <==> es[i].status == Unchanged);
  }

  lemma DiffTableMirror(name: string, left: Option<ResolvedTable>, right: Option<ResolvedTable>)
    requires left.Some? || right.Some?
    ensures DiffTable(name, right, left) == MirrorTable(DiffTable(name, left, right))
  {
    hide DiffByKey, MirrorEntries, AnyChange;
    DiffByKeyMirror(ColumnsOf(left), ColumnsOf(right), ColumnKey, ColumnsEqual);
    DiffByKeyMirror(IndexesOf(left), IndexesOf(right), IndexKey, IndexesEqual);
    DiffByKeyMirror(ForeignKeysOf(left), ForeignKeysOf(right), ForeignKeyKey, ForeignKeysEqual);
  }

  /** Comparing the other way round swaps the sides, and nothing else. */
  lemma DiffMirror(left: SchemaRef, leftTables: seq<ResolvedTable>, right: SchemaRef, rightTables: seq<ResolvedTable>)
    ensures BuildSchemaDiff(right, rightTables, left, leftTables)
            == Mirror(BuildSchemaDiff(left, leftTables, right, rightTables))
  {
    hide UnionKeys, MapOf, DiffTable, MirrorTable;
    UnionKeysOrder(leftTables, rightTables, TableKey);
    var names := UnionKeys(leftTables, rightTables, TableKey);
    var l, r := MapOf(leftTables, TableKey), MapOf(rightTables, TableKey);
    forall i | 0 <= i < |names|
      ensures DiffTable(names[i], Lookup(r, names[i]), Lookup(l, names[i])) ==
              MirrorTable(DiffTable(names[i], Lookup(l, names[i]), Lookup(r, names[i])))
    {
      assert names[i] in names;
      DiffTableMirror(names[i], Lookup(l, names[i]), Lookup(r, names[i]));
    }
  }

  /** The same names on both sides, with equal members. */
  ghost predicate Agree<T>(left: map<string, T>, right: map<string, T>, equal: (T, T) -> bool) {
    left.Keys == right.Keys && forall k :: k in left ==> equal(left[k], right[k])
  }

  lemma NoChangeMeansAgreement<T>(left: seq<T>, right: seq<T>, keyOf: T -> string, equal: (T, T) -> bool)
    ensures !AnyChange(DiffByKey(left, right, keyOf, equal)) <==> Agree(MapOf(left, keyOf), MapOf(right, keyOf), equal)
  {
    hide UnionKeys, MapOf, Ascending;
    UnionKeysOrder(left, right, keyOf);
    var ds, keys := DiffByKey(left, right, keyOf, equal), UnionKeys(left, right, keyOf);
    var l, r := MapOf(left, keyOf), MapOf(right, keyOf);
    if !AnyChange(ds) {
      forall k | k in keys ensures k in l && k in r && equal(l[k], r[k]) {
        var i :| 0 <= i < |keys| && keys[i] == k;
        assert ds[i].status == Unchanged;
      }
    } else {
      var i :| 0 <= i < |ds| && ds[i].status != Unchanged;
      assert keys[i] in keys;
    }
  }

  /** Each name of either side has one entry, in order, with what each side has, and its status says which that is. */
  lemma EntriesMeaning<T>(left: seq<T>, right: seq<T>, keyOf: T -> string, equal: (T, T) -> bool)
    ensures var ds, l, r := DiffByKey(left, right, keyOf, equal), MapOf(left, keyOf), MapOf(right, keyOf);
            && (forall i, j :: 0 <= i < j < |ds| ==> Precedes(ds[i].key, ds[j].key))
            && (forall k :: k in l || k in r ==> exists i :: 0 <= i < |ds| && ds[i].key == k)
            && forall i :: 0 <= i < |ds| ==>
                 var d := ds[i];
                 && (d.key in l || d.key in r) && d.left == Lookup(l, d.key) && d.right == Lookup(r, d.key)
                 && (d.status == Removed <==> d.key !in r) && (d.status == Added <==> d.key !in l)
                 && (d.status == Unchanged <==> d.key in l && d.key in r && equal(l[d.key], r[d.key]))
  {
    hide UnionKeys, MapOf, Precedes;
    UnionKeysOrder(left, right, keyOf);
    var ds, keys := DiffByKey(left, right, keyOf, equal), UnionKeys(left, right, keyOf);
    var l, r := MapOf(left, keyOf), MapOf(right, keyOf);
    forall i | 0 <= i < |ds| ensures ds[i].key == keys[i] && (keys[i] in l || keys[i] in r) {
      assert keys[i] in keys;
    }
    forall k | k in l || k in r ensures exists i :: 0 <= i < |ds| && ds[i].key == k {
      var i :| 0 <= i < |keys| && keys[i] == k;
      assert ds[i].key == k;
    }
  }

  /** Of items with one name, the last counts. */
  lemma {:induction false} LastCounts<T>(items: seq<T>, keyOf: T -> string, i: nat)
    requires i < |items| && forall j :: i < j < |items| ==> keyOf(items[j]) != keyOf(items[i])
    ensures Lookup(MapOf(items, keyOf), keyOf(items[i])) == Some(items[i])
  {
    if i > 0 {
      LastCounts(items[1..], keyOf, i - 1);
    } else {
      assert forall j :: 0 <= j < |items[1..]| ==> KeysOf(items[1..], keyOf)[j] == keyOf(items[j + 1]);
    }
  }

  /** The members of two tables agree name by name. */
  ghost predicate TablesAgree(left: ResolvedTable, right: ResolvedTable) {
    && Agree(MapOf(left.columns, ColumnKey), MapOf(right.columns, ColumnKey), ColumnsEqual)
    && Agree(MapOf(left.indexes, IndexKey), MapOf(right.indexes, IndexKey), IndexesEqual)
    && Agree(MapOf(left.foreignKeys, ForeignKeyKey), MapOf(right.foreignKeys, ForeignKeyKey), ForeignKeysEqual)
  }

  lemma MemberChange(name: string, left: ResolvedTable, right: ResolvedTable)
    ensures DiffTable(name, Some(left), Some(right)).status == if TablesAgree(left, right) then Unchanged else Changed
  {
    hide DiffByKey, AnyChange, Agree, MapOf;
    NoChangeMeansAgreement(left.columns, right.columns, ColumnKey, ColumnsEqual);
    NoChangeMeansAgreement(left.indexes, right.indexes, IndexKey, IndexesEqual);
    NoChangeMeansAgreement(left.foreignKeys, right.foreignKeys, ForeignKeyKey, ForeignKeysEqual);
  }

  /** Every table of either side is listed, and its status says where it is and whether its members agree. */
  lemma TableStatusMeaning(
      left: SchemaRef, leftTables: seq<ResolvedTable>, right: SchemaRef, rightTables: seq<ResolvedTable>)
    ensures var diff := BuildSchemaDiff(left, leftTables, right, rightTables);
            var l, r := MapOf(leftTables, TableKey), MapOf(rightTables, TableKey);
            && (forall name :: name in l || name in r <==>
                  exists i :: 0 <= i < |diff.tables| && diff.tables[i].name == name)
            && forall i :: 0 <= i < |diff.tables| ==>
                 var t := diff.tables[i];
                 && t.existsLeft == (t.name in l) && t.existsRight == (t.name in r)
                 && (t.status == Added <==> t.name !in l && t.name in r)
                 && (t.status == Removed <==> t.name in l && t.name !in r)
                 && (t.status == Changed <==> t.name in l && t.name in r && !TablesAgree(l[t.name], r[t.name]))
                 && (t.status == Unchanged <==> t.name in l && t.name in r && TablesAgree(l[t.name], r[t.name]))
  {
    hide UnionKeys, MapOf, TablesAgree, DiffByKey, AnyChange, Ascending;
    UnionKeysOrder(leftTables, rightTables, TableKey);
    var names := UnionKeys(leftTables, rightTables, TableKey);
    var diff := BuildSchemaDiff(left, leftTables, right, rightTables);
    var l, r := MapOf(leftTables, TableKey), MapOf(rightTables, TableKey);
    forall name | name in l || name in r ensures exists i :: 0 <= i < |diff.tables| && diff.tables[i].name == name {
      var i :| 0 <= i < |names| && names[i] == name;
      assert diff.tables[i].name == name;
    }
    forall i | 0 <= i < |diff.tables|
      ensures diff.tables[i].name == names[i] && (names[i] in l || names[i] in r)
      ensures names[i] in l && names[i] in r ==>
              diff.tables[i].status == if TablesAgree(l[names[i]], r[names[i]]) then Unchanged else Changed
    {
      assert names[i] in names;
      if names[i] in l && names[i] in r {
        MemberChange(names[i], l[names[i]], r[names[i]]);
      }
    }
  }
}
