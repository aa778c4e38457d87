/** The order in which a migration lists its operations. */
module MigrationOrder {
  import opened Common
  import opened Names
  import opened SchemaDiff
  import opened LiveSchema
  import opened Migration
  import opened MigrationConverges
  import opened MigrationTheorems
  import opened MigrationColumns

  // ---- the order of the list -------------------------------------------------------------------------------------

  /** Within a table: the table itself, then columns, then indexes, then foreign keys. */
  function Phase(c: Change): nat {
    if c.CreateTable? || c.DropTable? then 0 else if !OnMember(c) then 1 else if !c.AlterTable? then 2 else 3
  }

  function MemberName(c: Change): string {
    match c
    case CreateTable(_, _, _) => ""
    case DropTable(_, _) => ""
    case CreateIndex(_, _, name, _, _, _) => name
    case DropIndex(_, _, name) => name
    case AlterTable(_, _, op) =>
      if op.AddColumn? then op.newColumn.name
      else if op.AddForeignKey? || op.DropForeignKey? then op.constraintName
      else op.column
  }

  /** For one member: drop before create, and nullability before default before type. */
  function Step(c: Change): nat {
    match c
    case AlterTable(_, _, op) =>
      (match op
       case SetDefault(_, _) => 2
       case ChangeType(_, _) => 3
       case DropColumn(_) => 0
       case DropForeignKey(_) => 0
       case _ => 1)
    case DropIndex(_, _, _) => 0
    case _ => 1
  }

  predicate Before(a: Change, b: Change) {
    || Precedes(a.table, b.table)
    || (a.table == b.table
        && (|| Phase(a) < Phase(b)
            || (Phase(a) == Phase(b)
                && (|| Precedes(MemberName(a), MemberName(b))
                    || (MemberName(a) == MemberName(b) && Step(a) < Step(b))))))
  }

  /** By table name, then phase, then member name, then step; no operation occurs twice. */
  ghost predicate InOrder(cs: seq<Change>) {
    forall i, j :: 0 <= i < j < |cs| ==> Before(cs[i], cs[j])
  }

  lemma InOrderAppend(a: seq<Change>, b: seq<Change>)
    requires InOrder(a) && InOrder(b) && forall i, j :: 0 <= i < |a| && 0 <= j < |b| ==> Before(a[i], b[j])
    ensures InOrder(a + b)
  {
    hide Before;
  }

  /** All on one table, in one phase, for members among `keys`. */
  ghost predicate InPhase(cs: seq<Change>, table: string, phase: nat, keys: set<string>) {
    forall i :: 0 <= i < |cs| ==> cs[i].table == table && Phase(cs[i]) == phase && MemberName(cs[i]) in keys
  }

  ghost predicate KeysAscend<T>(es: seq<Entry<T>>) {
    forall i, j :: 0 <= i < j < |es| ==> Precedes(es[i].key, es[j].key)
  }

  function KeySet<T>(es: seq<Entry<T>>): set<string> {
    set i | 0 <= i < |es| :: es[i].key
  }

  lemma LaterKeys<T>(es: seq<Entry<T>>)
    requires es != [] && KeysAscend(es)
    ensures es[0].key in KeySet(es) && KeysAscend(es[1..])
    ensures forall k :: k in KeySet(es[1..]) ==> k in KeySet(es) && Precedes(es[0].key, k)
  {
    hide Precedes;
    forall k | k in KeySet(es[1..]) ensures k in KeySet(es) && Precedes(es[0].key, k) {
      var i :| 0 <= i < |es[1..]| && es[1..][i].key == k;
      assert es[i + 1].key == k;
    }
  }

  /** The changes of one entry, before those of entries with later names. */
  lemma OneThenRest<T>(es: seq<Entry<T>>, table: string, phase: nat, first: seq<Change>, rest: seq<Change>)
    requires es != [] && KeysAscend(es) && InPhase(first, table, phase, {es[0].key})
    requires InPhase(rest, table, phase, KeySet(es[1..])) && InOrder(first) && InOrder(rest)
    ensures InPhase(first + rest, table, phase, KeySet(es)) && InOrder(first + rest)
  {
    hide Precedes, Phase, MemberName, Step, KeySet;
    LaterKeys(es);
    InOrderAppend(first, rest);
  }

  lemma {:induction false} ColumnsInOrder(schema: string, table: string, es: seq<Entry<ColumnMetadata>>)
    requires KeysAscend(es) && forall i :: 0 <= i < |es| ==> Named(es[i], ColumnKey)
    ensures var cs := AllColumnChanges(schema, table, es); InPhase(cs, table, 1, KeySet(es)) && InOrder(cs)
    decreases es
  {
    hide Precedes, Before, ColumnChanges;
    if es != [] {
      ColumnsInOrder(schema, table, es[1..]);
      ColumnInPhase(schema, table, es[0]);
      hide KeysAscend, InPhase, InOrder;
      OneThenRest(es, table, 1, ColumnChanges(schema, table, es[0]), AllColumnChanges(schema, table, es[1..]));
    }
  }

  lemma ColumnInPhase(schema: string, table: string, e: Entry<ColumnMetadata>)
    requires Named(e, ColumnKey)
    ensures InPhase(ColumnChanges(schema, table, e), table, 1, {e.key}) && InOrder(ColumnChanges(schema, table, e))
  {
    var cs := ColumnChanges(schema, table, e);
    assert InPhase(cs, table, 1, {e.key});
    assert forall i, j :: 0 <= i < j < |cs| ==> Step(cs[i]) < Step(cs[j]);
    hide ColumnChanges, Phase, MemberName, Step, Precedes;
  }

  lemma IndexInPhase(schema: string, table: string, e: Entry<IndexMetadata>)
    requires Named(e, IndexKey)
    ensures InPhase(IndexChanges(schema, table, e), table, 2, {e.key}) && InOrder(IndexChanges(schema, table, e))
  {
  }

  lemma ForeignKeyInPhase(schema: string, table: string, e: Entry<ForeignKeyMetadata>)
    requires Named(e, ForeignKeyKey)
    ensures InPhase(ForeignKeyChanges(schema, table, e), table, 3, {e.key})
    ensures InOrder(ForeignKeyChanges(schema, table, e))
  {
  }

  lemma {:induction false} IndexesInOrder(schema: string, table: string, es: seq<Entry<IndexMetadata>>)
    requires KeysAscend(es) && forall i :: 0 <= i < |es| ==> Named(es[i], IndexKey)
    ensures var cs := AllIndexChanges(schema, table, es); InPhase(cs, table, 2, KeySet(es)) && InOrder(cs)
    decreases es
  {
    hide Precedes, Before, IndexChanges;
    if es != [] {
      IndexesInOrder(schema, table, es[1..]);
      IndexInPhase(schema, table, es[0]);
      hide KeysAscend, InPhase, InOrder;
      OneThenRest(es, table, 2, IndexChanges(schema, table, es[0]), AllIndexChanges(schema, table, es[1..]));
    }
  }

  lemma {:induction false} ForeignKeysInOrder(schema: string, table: string, es: seq<Entry<ForeignKeyMetadata>>)
    requires KeysAscend(es) && forall i :: 0 <= i < |es| ==> Named(es[i], ForeignKeyKey)
    ensures var cs := AllForeignKeyChanges(schema, table, es); InPhase(cs, table, 3, KeySet(es)) && InOrder(cs)
    decreases es
  {
    hide Precedes, Before, ForeignKeyChanges;
    if es != [] {
      ForeignKeysInOrder(schema, table, es[1..]);
      ForeignKeyInPhase(schema, table, es[0]);
      hide KeysAscend, InPhase, InOrder;
      OneThenRest(es, table, 3, ForeignKeyChanges(schema, table, es[0]), AllForeignKeyChanges(schema, table, es[1..]));
    }
  }

  lemma PhasesApart(a: seq<Change>, b: seq<Change>, table: string, earlier: nat, later: nat)
    requires InOrder(a) && InOrder(b) && earlier < later
    requires forall i :: 0 <= i < |a| ==> a[i].table == table && Phase(a[i]) <= earlier
    requires forall i :: 0 <= i < |b| ==> b[i].table == table && Phase(b[i]) >= later
    ensures InOrder(a + b)
  {
    hide Phase, Precedes, MemberName, Step;
    InOrderAppend(a, b);
  }

  lemma EntriesAscend<T>(
      left: seq<T>, right: seq<T>, keyOf: T -> string, equal: (T, T) -> bool, side: Side, creating: bool)
    ensures var es := Oriented(DiffByKey(left, right, keyOf, equal), side, creating);
            KeysAscend(es) && forall i :: 0 <= i < |es| ==> Named(es[i], keyOf)
  {
    hide UnionKeys, MapOf, EntryStatus, Precedes;
    UnionKeysOrder(left, right, keyOf);
    var l, r := MapOf(left, keyOf), MapOf(right, keyOf);
  }

  lemma TableInOrder(
      schema: string, name: string, left: Option<ResolvedTable>, right: Option<ResolvedTable>, side: Side)
    ensures InOrder(TableChanges(schema, DiffTable(name, left, right), side))
  {
    hide DiffByKey, AnyChange, Oriented, AllColumnChanges, AllIndexChanges, AllForeignKeyChanges, SourceColumns;
    hide InOrder, KeysAscend;
    var d := DiffTable(name, left, right);
    var creating := ExistsOn(d, side) && !ExistsOn(d, Other(side));
    var cs, ix, fs := Oriented(d.columns, side, creating), Oriented(d.indexes, side, creating),
      Oriented(d.foreignKeys, side, creating);
    EntriesAscend(ColumnsOf(left), ColumnsOf(right), ColumnKey, ColumnsEqual, side, creating);
    EntriesAscend(IndexesOf(left), IndexesOf(right), IndexKey, IndexesEqual, side, creating);
    EntriesAscend(ForeignKeysOf(left), ForeignKeysOf(right), ForeignKeyKey, ForeignKeysEqual, side, creating);
    ColumnsInOrder(schema, name, cs);
    IndexesInOrder(schema, name, ix);
    ForeignKeysInOrder(schema, name, fs);
    PhasesApart(AllIndexChanges(schema, name, ix), AllForeignKeyChanges(schema, name, fs), name, 2, 3);
    var members := MemberChanges(schema, d, side, creating);
    PhasesApart(AllColumnChanges(schema, name, cs), members, name, 1, 2);
    var create := CreateTable(schema, name, SourceColumns(cs));
    OneInOrder(create);
    OneInOrder(DropTable(schema, name));
    PhasesApart([create], members, name, 0, 2);
    NoneInOrder();
  }

  /** A new table gets its columns by name. */
  predicate ColumnsByName(c: Change) {
    c.CreateTable? ==> forall i, j :: 0 <= i < j < |c.columns| ==> Precedes(c.columns[i].name, c.columns[j].name)
  }

  lemma {:induction false} SourceColumnsByName(schema: string, table: string, es: seq<Entry<ColumnMetadata>>)
    requires KeysAscend(es) && forall i :: 0 <= i < |es| ==> Named(es[i], ColumnKey)
    ensures ColumnsByName(CreateTable(schema, table, SourceColumns(es)))
    ensures forall i :: 0 <= i < |SourceColumns(es)| ==> SourceColumns(es)[i].name in KeySet(es)
    decreases es
  {
    hide Precedes;
    if es != [] {
      SourceColumnsByName(schema, table, es[1..]);
      LaterKeys(es);
      hide KeySet, KeysAscend;
    }
  }

  lemma TableByName(schema: string, name: string, left: Option<ResolvedTable>, right: Option<ResolvedTable>, side: Side)
    ensures forall i :: 0 <= i < |TableChanges(schema, DiffTable(name, left, right), side)| ==>
              ColumnsByName(TableChanges(schema, DiffTable(name, left, right), side)[i])
  {
    hide DiffByKey, AnyChange, Oriented, AllColumnChanges, MemberChanges, SourceColumns, KeysAscend, Precedes;
    var d := DiffTable(name, left, right);
    EntriesAscend(ColumnsOf(left), ColumnsOf(right), ColumnKey, ColumnsEqual, side, true);
    SourceColumnsByName(schema, name, Oriented(d.columns, side, true));
    AllOnMembers(schema, d, side, true);
    AllOnMembers(schema, d, side, false);
    NoMemberInColumns(schema, name, Oriented(d.columns, side, false));
  }

  lemma {:induction false} TablesByName(schema: string, ds: seq<TableDiff>, side: Side)
    requires forall i :: 0 <= i < |ds| ==>
               forall n :: 0 <= n < |TableChanges(schema, ds[i], side)| ==>
                 ColumnsByName(TableChanges(schema, ds[i], side)[n])
    ensures forall n :: 0 <= n < |AllTableChanges(schema, ds, side)| ==>
              ColumnsByName(AllTableChanges(schema, ds, side)[n])
    decreases ds
  {
    hide TableChanges, ColumnsByName;
    if ds != [] {
      TablesByName(schema, ds[1..], side);
    }
  }

  lemma OneInOrder(c: Change)
    ensures InOrder([c])
  {
  }

  lemma NoneInOrder()
    ensures InOrder([])
  {
  }

  function TableNames(ds: seq<TableDiff>): set<string> {
    set k | 0 <= k < |ds| :: ds[k].name
  }

  lemma FirstTable(ds: seq<TableDiff>)
    requires ds != [] && forall i, j :: 0 <= i < j < |ds| ==> Precedes(ds[i].name, ds[j].name)
    ensures TableNames(ds) == {ds[0].name} + TableNames(ds[1..])
    ensures forall name :: name in TableNames(ds[1..]) ==> Precedes(ds[0].name, name)
  {
    hide Precedes;
    assert forall k :: 0 < k < |ds| ==> ds[k] == ds[1..][k - 1];
    assert forall k :: 0 <= k < |ds| - 1 ==> ds[1..][k] == ds[k + 1];
  }

  lemma {:induction false} TablesInOrder(schema: string, ds: seq<TableDiff>, side: Side)
    requires forall i, j :: 0 <= i < j < |ds| ==> Precedes(ds[i].name, ds[j].name)
    requires forall i :: 0 <= i < |ds| ==> InOrder(TableChanges(schema, ds[i], side))
    ensures InOrder(AllTableChanges(schema, ds, side))
    ensures var cs := AllTableChanges(schema, ds, side);
            forall i :: 0 <= i < |cs| ==> cs[i].table in TableNames(ds)
    decreases ds
  {
    if ds != [] {
      hide TableChanges, Precedes, Phase, MemberName, Step, InOrder, TableNames;
      var first, rest := TableChanges(schema, ds[0], side), AllTableChanges(schema, ds[1..], side);
      TablesInOrder(schema, ds[1..], side);
      TableChangesOn(schema, ds[0], side);
      FirstTable(ds);
      InOrderAppend(first, rest);
    }
  }

  /** The list goes by table, and within a table by columns, indexes and foreign keys, each by name. */
  lemma CandidatesInOrder(
      left: SchemaRef, leftTables: seq<ResolvedTable>, right: SchemaRef, rightTables: seq<ResolvedTable>, side: Side)
    ensures var cs := Candidates(BuildSchemaDiff(left, leftTables, right, rightTables), side);
            InOrder(cs) && forall n :: 0 <= n < |cs| ==> ColumnsByName(cs[n])
  {
    hide MapOf, UnionKeys, DiffTable, TableChanges, InOrder, Precedes, ColumnsByName;
    var diff := BuildSchemaDiff(left, leftTables, right, rightTables);
    var l, r := MapOf(leftTables, TableKey), MapOf(rightTables, TableKey);
    var names := UnionKeys(leftTables, rightTables, TableKey);
    UnionKeysOrder(leftTables, rightTables, TableKey);
    var schema := TargetRef(diff, side).schema;
    forall i | 0 <= i < |diff.tables|
      ensures diff.tables[i].name == names[i] && InOrder(TableChanges(schema, diff.tables[i], side))
      ensures forall n :: 0 <= n < |TableChanges(schema, diff.tables[i], side)| ==>
                ColumnsByName(TableChanges(schema, diff.tables[i], side)[n])
    {
      TableByName(schema, names[i], Lookup(l, names[i]), Lookup(r, names[i]), side);
      DiffTableName(names[i], Lookup(l, names[i]), Lookup(r, names[i]));
      TableInOrder(schema, names[i], Lookup(l, names[i]), Lookup(r, names[i]), side);
    }
    TablesInOrder(schema, diff.tables, side);
    TablesByName(schema, diff.tables, side);
  }
}
