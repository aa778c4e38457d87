/** Running the candidates on the target succeeds and gives the target the source's shape. */
module MigrationConverges {
  import opened Common
  import opened Names
  import opened SchemaDiff
  import opened LiveSchema
  import opened Migration

  // ---- entries that cover two keyed collections ------------------------------------------------------------------

  ghost predicate DistinctKeys<T>(es: seq<Entry<T>>) {
    forall i, j :: 0 <= i < j < |es| ==> es[i].key != es[j].key
  }

  ghost predicate Covers<T>(es: seq<Entry<T>>, source: map<string, T>, target: map<string, T>) {
    && DistinctKeys(es)
    && (forall i :: 0 <= i < |es| ==> es[i] == EntryAt(source, target, es[i].key))
    && (forall i :: 0 <= i < |es| ==> es[i].key in source || es[i].key in target)
    && (forall k :: k in source || k in target ==> exists i :: 0 <= i < |es| && es[i].key == k)
  }

  lemma DiffCovers<T>(
      left: seq<T>, right: seq<T>, keyOf: T -> string, equal: (T, T) -> bool, side: Side, creating: bool)
    requires creating ==> (if side.Left? then right else left) == []
    ensures var source, target := if side.Left? then left else right, if side.Left? then right else left;
            Covers(Oriented(DiffByKey(left, right, keyOf, equal), side, creating), MapOf(source, keyOf),
                   MapOf(target, keyOf))
  {
    hide UnionKeys, Ascending, MapOf, EntryStatus, Covers;
    UnionKeysOrder(left, right, keyOf);
    var keys := UnionKeys(left, right, keyOf);
    var l, r := MapOf(left, keyOf), MapOf(right, keyOf);
    var source, target := if side.Left? then l else r, if side.Left? then r else l;
    var es := Oriented(DiffByKey(left, right, keyOf, equal), side, creating);
    MapOfNothing(keyOf);
    forall i | 0 <= i < |es| ensures es[i] == EntryAt(source, target, keys[i]) {
    }
    NamesCover(keys, es, source, target);
  }

  /** One entry per name, in order, covers both sides. */
  lemma NamesCover<T>(names: seq<string>, es: seq<Entry<T>>, source: map<string, T>, target: map<string, T>)
    requires Ascending(names) && forall k :: k in names <==> k in source || k in target
    requires |es| == |names| && forall i :: 0 <= i < |es| ==> es[i] == EntryAt(source, target, names[i])
    ensures Covers(es, source, target)
  {
    hide Ascending;
    AscendingDistinct(names);
    assert forall i :: 0 <= i < |names| ==> names[i] in names && es[i].key == names[i];
    forall k | k in source || k in target ensures exists i :: 0 <= i < |es| && es[i].key == k {
      var i :| 0 <= i < |names| && names[i] == k;
      assert es[i].key == k;
    }
  }

  lemma MapOfNothing<T>(keyOf: T -> string)
    ensures MapOf([], keyOf) == map[]
  {
  }

  lemma AscendingDistinct(names: seq<string>)
    requires Ascending(names)
    ensures forall i, j :: 0 <= i < j < |names| ==> names[i] != names[j]
  {
    hide Precedes;
    forall i, j | 0 <= i < j < |names| ensures names[i] != names[j] {
      Trichotomy(names[i], names[j]);
    }
  }

  /** Each entry's goal, written over `m`. */
  function SetAll<T, V>(m: map<string, V>, es: seq<Entry<T>>, goal: Entry<T> -> Option<V>): map<string, V>
    decreases es
  {
    if es == [] then m else SetAll(SetAt(m, es[0].key, goal(es[0])), es[1..], goal)
  }

  lemma {:induction false} SetAllAt<T, V>(m: map<string, V>, es: seq<Entry<T>>, goal: Entry<T> -> Option<V>, k: string)
    requires DistinctKeys(es)
    ensures forall i :: 0 <= i < |es| && es[i].key == k ==> Lookup(SetAll(m, es, goal), k) == goal(es[i])
    ensures (forall i :: 0 <= i < |es| ==> es[i].key != k) ==> Lookup(SetAll(m, es, goal), k) == Lookup(m, k)
    decreases es
  {
    if es != [] {
      var next := SetAt(m, es[0].key, goal(es[0]));
      assert Lookup(next, k) == if es[0].key == k then goal(es[0]) else Lookup(m, k);
      SetAllAt(next, es[1..], goal, k);
      assert forall i :: 0 < i < |es| ==> es[i] == es[1..][i - 1];
      assert forall i :: 0 <= i < |es| - 1 ==> es[1..][i] == es[i + 1];
    }
  }

  /** The collection in which every name has reached its goal. */
  ghost function Reconciled<T, V>(
      source: map<string, T>, target: map<string, T>, goal: Entry<T> -> Option<V>): map<string, V> {
    map k | k in source.Keys + target.Keys && goal(EntryAt(source, target, k)).Some? ::
      goal(EntryAt(source, target, k)).value
  }

  function EntryAt<T>(source: map<string, T>, target: map<string, T>, k: string): Entry<T> {
    Entry(k, Lookup(source, k), Lookup(target, k))
  }

  lemma SetAllReconciles<T, V>(
    m: map<string, V>, es: seq<Entry<T>>, goal: Entry<T> -> Option<V>, source: map<string, T>, target: map<string, T>)
    requires Covers(es, source, target)
    requires forall k :: k !in source && k !in target ==> k !in m
    ensures SetAll(m, es, goal) == Reconciled(source, target, goal)
  {
    hide SetAll;
    forall k
      ensures Lookup(SetAll(m, es, goal), k) == Lookup(Reconciled(source, target, goal), k)
    {
      SetAllAt(m, es, goal, k);
      if k in source || k in target {
        var i :| 0 <= i < |es| && es[i].key == k;
        assert es[i] == EntryAt(source, target, k);
      }
    }
    SameMap(SetAll(m, es, goal), Reconciled(source, target, goal));
  }

  // ---- goals of members --------------------------------------------------------------------------------------------

  /** The source's column; one that both sides have keeps the target's key and auto-increment flags. */
  function ColumnGoal(e: Entry<ColumnMetadata>): Option<ColumnState> {
    match (e.source, e.target)
    case (None, _) => None
    case (Some(s), None) => Some(ColumnStateOf(s))
    case (Some(s), Some(t)) => Some(KeepingFlags(s, t))
  }

  function KeepingFlags(s: ColumnMetadata, t: ColumnMetadata): ColumnState {
    ColumnStateOf(s).(isPrimaryKey := t.isPrimaryKey, autoIncrement := t.autoIncrement)
  }

  function StateOf<T, V>(m: Option<T>, state: T -> V): Option<V> {
    if m.Some? then Some(state(m.value)) else None
  }

  /** The source's index, unless the name is a primary index on either side: then whatever the target has. */
  function IndexGoal(e: Entry<IndexMetadata>): Option<IndexState> {
    StateOf(if PrimaryEntry(e) then e.target else e.source, IndexStateOf)
  }

  function ForeignKeyGoal(e: Entry<ForeignKeyMetadata>): Option<ForeignKeyState> {
    StateOf(e.source, ForeignKeyStateOf)
  }

  // ---- running the operations of one entry -------------------------------------------------------------------------

  predicate Named<T>(e: Entry<T>, keyOf: T -> string) {
    && (e.source.Some? ==> keyOf(e.source.value) == e.key)
    && (e.target.Some? ==> keyOf(e.target.value) == e.key)
  }

  lemma ColumnStep(t: TableState, schema: string, table: string, e: Entry<ColumnMetadata>)
    requires Named(e, ColumnKey) && Lookup(t.columns, e.key) == StateOf(e.target, ColumnStateOf)
    ensures RunTable(Some(t), ColumnChanges(schema, table, e)) ==
            Some(Some(t.(columns := SetAt(t.columns, e.key, ColumnGoal(e)))))
  {
    match (e.source, e.target)
    case (Some(s), None) => RunOne(Some(t), AlterTable(schema, table, AddColumn(NewColumnOf(s))));
    case (None, Some(o)) => RunOne(Some(t), AlterTable(schema, table, DropColumn(o.name)));
    case (None, None) => assert t.columns - {e.key} == t.columns;
    case (Some(s), Some(o)) => ColumnAlterations(t, schema, table, s, o);
  }

  lemma RunOne(t: Option<TableState>, c: Change)
    ensures RunTable(t, [c]) == ApplyToTable(t, c)
  {
    hide ApplyToTable;
    assert [c][1..] == [];
  }

  lemma ColumnAlterations(t: TableState, schema: string, table: string, s: ColumnMetadata, o: ColumnMetadata)
    requires s.name == o.name && Lookup(t.columns, s.name) == Some(ColumnStateOf(o))
    ensures RunTable(Some(t), ColumnChanges(schema, table, Entry(s.name, Some(s), Some(o)))) ==
            Some(Some(With(t, s.name, KeepingFlags(s, o))))
  {
    hide ApplyToTable, RunTable, ColumnChanges, Altered, InPlace, ColumnStateOf, With;
    var n := s.name;
    var c0, c1, c2, c3 := Altering(s, o);
    WithItself(t, n, c0);
    var o1 := MaybeAlter(t, schema, table, s.nullable != o.nullable, SetNotNull(n, !s.nullable), c0, c1);
    var o2 := MaybeAlter(t, schema, table, s.defaultValue != o.defaultValue, SetDefault(n, s.defaultValue), c1, c2);
    var o3 := MaybeAlter(t, schema, table, s.dataType != o.dataType, ChangeType(n, s.dataType), c2, c3);
    RunThree(Some(t), o1, o2, o3);
    AlterationsAre(schema, table, s, o);
  }

  lemma RunThree(t: Option<TableState>, a: seq<Change>, b: seq<Change>, c: seq<Change>)
    requires RunTable(t, a).Some? && RunTable(RunTable(t, a).value, b).Some?
    ensures RunTable(t, a + b + c) == RunTable(RunTable(RunTable(t, a).value, b).value, c)
  {
    hide RunTable, ApplyToTable;
    RunTableAppend(t, a + b, c);
    RunTableAppend(t, a, b);
  }

  /** The column before, between and after its alterations. */
  lemma Altering(s: ColumnMetadata, o: ColumnMetadata)
    returns (c0: ColumnState, c1: ColumnState, c2: ColumnState, c3: ColumnState)
    ensures InPlace(SetNotNull(s.name, !s.nullable)) && c1 == Altered(c0, SetNotNull(s.name, !s.nullable))
    ensures InPlace(SetDefault(s.name, s.defaultValue)) && c2 == Altered(c1, SetDefault(s.name, s.defaultValue))
    ensures InPlace(ChangeType(s.name, s.dataType)) && c3 == Altered(c2, ChangeType(s.name, s.dataType))
    ensures c0 == ColumnStateOf(o) && c3 == KeepingFlags(s, o)
    ensures (s.nullable == o.nullable ==> c0 == c1) && (s.defaultValue == o.defaultValue ==> c1 == c2)
    ensures s.dataType == o.dataType ==> c2 == c3
  {
    c0 := ColumnStateOf(o);
    c1 := c0.(nullable := s.nullable);
    c2 := c1.(defaultValue := s.defaultValue);
    c3 := c2.(dataType := s.dataType);
  }

  function With(t: TableState, name: string, c: ColumnState): TableState {
    t.(columns := t.columns[name := c])
  }

  lemma WithItself(t: TableState, name: string, c: ColumnState)
    requires Lookup(t.columns, name) == Some(c)
    ensures With(t, name, c) == t
  {
    assert t.columns[name := c] == t.columns;
  }

  lemma AlterationsAre(schema: string, table: string, s: ColumnMetadata, o: ColumnMetadata)
    ensures ColumnChanges(schema, table, Entry(s.name, Some(s), Some(o))) ==
            (if s.nullable != o.nullable then [AlterTable(schema, table, SetNotNull(s.name, !s.nullable))] else [])
            + (if s.defaultValue != o.defaultValue then [AlterTable(schema, table, SetDefault(s.name, s.defaultValue))]
               else [])
            + (if s.dataType != o.dataType then [AlterTable(schema, table, ChangeType(s.name, s.dataType))] else [])
  {
  }

  predicate InPlace(op: AlterTableOperation) {
    op.SetNotNull? || op.SetDefault? || op.ChangeType?
  }

  function Altered(c: ColumnState, op: AlterTableOperation): ColumnState
    requires InPlace(op)
  {
    match op
    case SetNotNull(_, notNull) => c.(nullable := !notNull)
    case SetDefault(_, d) => c.(defaultValue := d)
    case ChangeType(_, ty) => c.(dataType := ty)
  }

  /** An alteration that is emitted only when it changes something takes the column from `from` to `to`. */
  lemma MaybeAlter(
      t: TableState, schema: string, table: string, emitted: bool, op: AlterTableOperation, from: ColumnState,
      to: ColumnState)
    returns (cs: seq<Change>)
    requires InPlace(op) && to == Altered(from, op)
    requires !emitted ==> from == to
    ensures cs == if emitted then [AlterTable(schema, table, op)] else []
    ensures RunTable(Some(With(t, op.column, from)), cs) == Some(Some(With(t, op.column, to)))
  {
    if emitted {
      cs := [AlterTable(schema, table, op)];
      RunOne(Some(With(t, op.column, from)), cs[0]);
      assert t.columns[op.column := from][op.column := to] == t.columns[op.column := to];
    } else {
      cs := [];
    }
  }

  lemma IndexStep(t: TableState, schema: string, table: string, e: Entry<IndexMetadata>)
    requires Named(e, IndexKey) && Lookup(t.indexes, e.key) == StateOf(e.target, IndexStateOf)
    ensures RunTable(Some(t), IndexChanges(schema, table, e)) ==
            Some(Some(t.(indexes := SetAt(t.indexes, e.key, IndexGoal(e)))))
  {
    assert SetAt(t.indexes, e.key, Lookup(t.indexes, e.key)) == t.indexes;
    if !PrimaryEntry(e) {
      var drop := if e.target.Some? then [DropIndex(schema, table, e.target.value.name)] else [];
      var create := if e.source.Some? then [CreateIndexOf(schema, table, e.source.value)] else [];
      RunTableAppend(Some(t), drop, create);
      var bare := t.indexes - {e.key};
      assert e.target.None? ==> bare == t.indexes;
      assert RunTable(Some(t), drop) == Some(Some(t.(indexes := bare))) by {
        if e.target.Some? { RunOne(Some(t), drop[0]); }
      }
      if e.source.Some? {
        RunOne(Some(t.(indexes := bare)), create[0]);
        assert bare[e.key := IndexStateOf(e.source.value)] == t.indexes[e.key := IndexStateOf(e.source.value)];
      }
    }
  }

  lemma ForeignKeyStep(t: TableState, schema: string, table: string, e: Entry<ForeignKeyMetadata>)
    requires Named(e, ForeignKeyKey) && Lookup(t.foreignKeys, e.key) == StateOf(e.target, ForeignKeyStateOf)
    ensures RunTable(Some(t), ForeignKeyChanges(schema, table, e)) ==
            Some(Some(t.(foreignKeys := SetAt(t.foreignKeys, e.key, ForeignKeyGoal(e)))))
  {
    var drop := if e.target.Some? then [AlterTable(schema, table, DropForeignKey(e.target.value.constraintName))]
                else [];
    var add := if e.source.Some? then [AlterTable(schema, table, AddForeignKeyOf(e.source.value))] else [];
    RunTableAppend(Some(t), drop, add);
    var bare := t.foreignKeys - {e.key};
    assert e.target.None? ==> bare == t.foreignKeys;
    assert RunTable(Some(t), drop) == Some(Some(t.(foreignKeys := bare))) by {
      if e.target.Some? { RunOne(Some(t), drop[0]); }
    }
    if e.source.Some? {
      RunOne(Some(t.(foreignKeys := bare)), add[0]);
      assert bare[e.key := ForeignKeyStateOf(e.source.value)]
             == t.foreignKeys[e.key := ForeignKeyStateOf(e.source.value)];
    }
  }

  // ---- running the operations of one table -------------------------------------------------------------------------

  /** The live members are the targets of the entries. */
  ghost predicate Tracks<T, V>(m: map<string, V>, es: seq<Entry<T>>, keyOf: T -> string, state: T -> V) {
    DistinctKeys(es) && forall i :: 0 <= i < |es| ==>
      Named(es[i], keyOf) && Lookup(m, es[i].key) == StateOf(es[i].target, state)
  }

  lemma TracksRest<T, V>(m: map<string, V>, es: seq<Entry<T>>, keyOf: T -> string, state: T -> V, v: Option<V>)
    requires es != [] && Tracks(m, es, keyOf, state)
    ensures Tracks(SetAt(m, es[0].key, v), es[1..], keyOf, state)
  {
  }

  lemma {:induction false} ColumnsPhase(t: TableState, schema: string, table: string, es: seq<Entry<ColumnMetadata>>)
    requires Tracks(t.columns, es, ColumnKey, ColumnStateOf)
    ensures RunTable(Some(t), AllColumnChanges(schema, table, es)) ==
            Some(Some(t.(columns := SetAll(t.columns, es, ColumnGoal))))
    decreases es
  {
    if es != [] {
      hide ColumnChanges, ColumnGoal, ApplyToTable;
      var columns := SetAt(t.columns, es[0].key, ColumnGoal(es[0]));
      ColumnStep(t, schema, table, es[0]);
      RunTableAppend(Some(t), ColumnChanges(schema, table, es[0]), AllColumnChanges(schema, table, es[1..]));
      TracksRest(t.columns, es, ColumnKey, ColumnStateOf, ColumnGoal(es[0]));
      ColumnsPhase(t.(columns := columns), schema, table, es[1..]);
    }
  }

  lemma {:induction false} IndexesPhase(t: TableState, schema: string, table: string, es: seq<Entry<IndexMetadata>>)
    requires Tracks(t.indexes, es, IndexKey, IndexStateOf)
    ensures RunTable(Some(t), AllIndexChanges(schema, table, es)) ==
            Some(Some(t.(indexes := SetAll(t.indexes, es, IndexGoal))))
    decreases es
  {
    if es != [] {
      hide IndexChanges, IndexGoal, ApplyToTable;
      var indexes := SetAt(t.indexes, es[0].key, IndexGoal(es[0]));
      IndexStep(t, schema, table, es[0]);
      RunTableAppend(Some(t), IndexChanges(schema, table, es[0]), AllIndexChanges(schema, table, es[1..]));
      TracksRest(t.indexes, es, IndexKey, IndexStateOf, IndexGoal(es[0]));
      IndexesPhase(t.(indexes := indexes), schema, table, es[1..]);
    }
  }

  lemma {:induction false} ForeignKeysPhase(
      t: TableState, schema: string, table: string, es: seq<Entry<ForeignKeyMetadata>>)
    requires Tracks(t.foreignKeys, es, ForeignKeyKey, ForeignKeyStateOf)
    ensures RunTable(Some(t), AllForeignKeyChanges(schema, table, es)) ==
            Some(Some(t.(foreignKeys := SetAll(t.foreignKeys, es, ForeignKeyGoal))))
    decreases es
  {
    if es != [] {
      hide ForeignKeyChanges, ForeignKeyGoal, ApplyToTable;
      var foreignKeys := SetAt(t.foreignKeys, es[0].key, ForeignKeyGoal(es[0]));
      ForeignKeyStep(t, schema, table, es[0]);
      RunTableAppend(Some(t), ForeignKeyChanges(schema, table, es[0]), AllForeignKeyChanges(schema, table, es[1..]));
      TracksRest(t.foreignKeys, es, ForeignKeyKey, ForeignKeyStateOf, ForeignKeyGoal(es[0]));
      ForeignKeysPhase(t.(foreignKeys := foreignKeys), schema, table, es[1..]);
    }
  }

  /** A new table gets its columns from its creation. */
  lemma {:induction false} CreatedColumns(es: seq<Entry<ColumnMetadata>>, k: string)
    requires DistinctKeys(es) && forall i :: 0 <= i < |es| ==> Named(es[i], ColumnKey) && es[i].target.None?
    ensures forall i :: 0 <= i < |es| && es[i].key == k ==>
            Lookup(ColumnsFrom(SourceColumns(es)), k) == ColumnGoal(es[i])
    ensures (forall i :: 0 <= i < |es| ==> es[i].key != k) ==> k !in ColumnsFrom(SourceColumns(es))
    decreases es
  {
    hide ColumnsFrom, SourceColumns;
    if es == [] {
      NoColumns();
    } else {
      CreatedColumns(es[1..], k);
      assert forall i :: 0 < i < |es| ==> es[i] == es[1..][i - 1];
      assert forall i :: 0 <= i < |es| - 1 ==> es[1..][i] == es[i + 1];
      FirstCreated(es);
    }
  }

  lemma NoColumns()
    ensures ColumnsFrom(SourceColumns([])) == map[]
  {
  }

  lemma FirstCreated(es: seq<Entry<ColumnMetadata>>)
    requires es != [] && Named(es[0], ColumnKey) && es[0].target.None?
    ensures var rest, goal := ColumnsFrom(SourceColumns(es[1..])), ColumnGoal(es[0]);
            ColumnsFrom(SourceColumns(es)) == (if goal.Some? then map[es[0].key := goal.value] else map[]) + rest
  {
    hide ColumnsFrom;
    if es[0].source.Some? {
      ColumnsMore(NewColumnOf(es[0].source.value), SourceColumns(es[1..]));
    } else {
      assert [] + SourceColumns(es[1..]) == SourceColumns(es[1..]);
    }
  }

  lemma ColumnsMore(c: NewColumn, rest: seq<NewColumn>)
    ensures ColumnsFrom([c] + rest) == map[c.name := ColumnFrom(c)] + ColumnsFrom(rest)
  {
    assert ([c] + rest)[0] == c && ([c] + rest)[1..] == rest;
  }

  /** The table after the migration. */
  ghost function TableGoal(e: Entry<ResolvedTable>): Option<TableState> {
    if e.source.None? then None
    else
      Some(TableState(
             Reconciled(MapOf(e.source.value.columns, ColumnKey), MapOf(ColumnsOf(e.target), ColumnKey), ColumnGoal),
             Reconciled(MapOf(e.source.value.indexes, IndexKey), MapOf(IndexesOf(e.target), IndexKey), IndexGoal),
             Reconciled(MapOf(e.source.value.foreignKeys, ForeignKeyKey), MapOf(ForeignKeysOf(e.target), ForeignKeyKey),
                        ForeignKeyGoal)))
  }

  lemma CoversTracks<T, V>(
      m: map<string, V>, es: seq<Entry<T>>, source: map<string, T>, target: map<string, T>,
      keyOf: T -> string, state: T -> V)
    requires Covers(es, source, target) && m == MapStates(target, state)
    requires (forall k :: k in source ==> keyOf(source[k]) == k) && (forall k :: k in target ==> keyOf(target[k]) == k)
    ensures Tracks(m, es, keyOf, state)
  {
    forall i | 0 <= i < |es|
      ensures Named(es[i], keyOf) && Lookup(m, es[i].key) == StateOf(es[i].target, state)
    {
      assert es[i] == EntryAt(source, target, es[i].key);
    }
  }

  /** Indexes and foreign keys of one table reach their goals. */
  lemma MembersPhase(t: TableState, schema: string, d: TableDiff, side: Side, creating: bool,
                     source: ResolvedTable, target: Option<ResolvedTable>)
    requires t.indexes == MapStates(MapOf(IndexesOf(target), IndexKey), IndexStateOf)
    requires t.foreignKeys == MapStates(MapOf(ForeignKeysOf(target), ForeignKeyKey), ForeignKeyStateOf)
    requires CoversMembers(d, side, creating, source, target)
    ensures RunTable(Some(t), MemberChanges(schema, d, side, creating)) ==
            Some(Some(t.(indexes := Reconciled(MapOf(source.indexes, IndexKey), MapOf(IndexesOf(target), IndexKey),
                                               IndexGoal),
                         foreignKeys := Reconciled(MapOf(source.foreignKeys, ForeignKeyKey),
                                                   MapOf(ForeignKeysOf(target), ForeignKeyKey), ForeignKeyGoal))))
  {
    var ix, fs := Oriented(d.indexes, side, creating), Oriented(d.foreignKeys, side, creating);
    var si, ti := MapOf(source.indexes, IndexKey), MapOf(IndexesOf(target), IndexKey);
    var sf, tf := MapOf(source.foreignKeys, ForeignKeyKey), MapOf(ForeignKeysOf(target), ForeignKeyKey);
    hide MapOf, Oriented, RunTable, AllIndexChanges, AllForeignKeyChanges, Covers, Reconciled, SetAll;
    CoversTracks(t.indexes, ix, si, ti, IndexKey, IndexStateOf);
    CoversTracks(t.foreignKeys, fs, sf, tf, ForeignKeyKey, ForeignKeyStateOf);
    SetAllReconciles(t.indexes, ix, IndexGoal, si, ti);
    SetAllReconciles(t.foreignKeys, fs, ForeignKeyGoal, sf, tf);
    IndexesPhase(t, schema, d.name, ix);
    var t' := t.(indexes := SetAll(t.indexes, ix, IndexGoal));
    ForeignKeysPhase(t', schema, d.name, fs);
    RunTableAppend(Some(t), AllIndexChanges(schema, d.name, ix), AllForeignKeyChanges(schema, d.name, fs));
  }

  lemma MembersCovered(
      name: string, left: Option<ResolvedTable>, right: Option<ResolvedTable>, side: Side, creating: bool)
    requires creating ==> (if side.Left? then right else left).None?
    ensures var source, target := if side.Left? then left else right, if side.Left? then right else left;
            var d := DiffTable(name, left, right);
            source.Some? ==>
              CoversColumns(d, side, creating, source.value, target)
                && CoversMembers(d, side, creating, source.value, target)
  {
    hide Covers, DiffByKey, Oriented, AnyChange, MapOf;
    DiffCovers(ColumnsOf(left), ColumnsOf(right), ColumnKey, ColumnsEqual, side, creating);
    DiffCovers(IndexesOf(left), IndexesOf(right), IndexKey, IndexesEqual, side, creating);
    DiffCovers(ForeignKeysOf(left), ForeignKeysOf(right), ForeignKeyKey, ForeignKeysEqual, side, creating);
  }

  lemma CreatedColumnsReconcile(es: seq<Entry<ColumnMetadata>>, source: map<string, ColumnMetadata>)
    requires Covers(es, source, map[]) && forall k :: k in source ==> source[k].name == k
    ensures ColumnsFrom(SourceColumns(es)) == Reconciled(source, map[], ColumnGoal)
  {
    hide ColumnsFrom, SourceColumns, ColumnGoal, Covers, Reconciled;
    forall k ensures Lookup(ColumnsFrom(SourceColumns(es)), k) == Lookup(Reconciled(source, map[], ColumnGoal), k) {
      CreatedGoal(es, source, k);
    }
    SameMap(ColumnsFrom(SourceColumns(es)), Reconciled(source, map[], ColumnGoal));
  }

  lemma CreatedGoal(es: seq<Entry<ColumnMetadata>>, source: map<string, ColumnMetadata>, k: string)
    requires Covers(es, source, map[]) && forall k :: k in source ==> source[k].name == k
    ensures Lookup(ColumnsFrom(SourceColumns(es)), k) == Lookup(Reconciled(source, map[], ColumnGoal), k)
  {
    hide ColumnsFrom, SourceColumns, ColumnGoal, Named;
    CreatedNamed(es, source);
    CreatedColumns(es, k);
    if k in source {
      var i :| 0 <= i < |es| && es[i].key == k;
      assert es[i] == EntryAt(source, map[], k);
    }
  }

  lemma CreatedNamed(es: seq<Entry<ColumnMetadata>>, source: map<string, ColumnMetadata>)
    requires Covers(es, source, map[]) && forall k :: k in source ==> source[k].name == k
    ensures forall i :: 0 <= i < |es| ==> Named(es[i], ColumnKey) && es[i].target.None?
  {
    forall i | 0 <= i < |es| ensures Named(es[i], ColumnKey) && es[i].target.None? {
      assert es[i] == EntryAt(source, map[], es[i].key);
    }
  }

  ghost predicate CoversColumns(
      d: TableDiff, side: Side, creating: bool, source: ResolvedTable, target: Option<ResolvedTable>) {
    Covers(Oriented(d.columns, side, creating), MapOf(source.columns, ColumnKey), MapOf(ColumnsOf(target), ColumnKey))
  }

  ghost predicate CoversMembers(
      d: TableDiff, side: Side, creating: bool, source: ResolvedTable, target: Option<ResolvedTable>) {
    && Covers(Oriented(d.indexes, side, creating), MapOf(source.indexes, IndexKey), MapOf(IndexesOf(target), IndexKey))
    && Covers(Oriented(d.foreignKeys, side, creating), MapOf(source.foreignKeys, ForeignKeyKey),
              MapOf(ForeignKeysOf(target), ForeignKeyKey))
  }

  /** The operations for one table, run on that table. */
  lemma TableRuns(schema: string, name: string, left: Option<ResolvedTable>, right: Option<ResolvedTable>, side: Side)
    requires left.Some? || right.Some?
    ensures var source, target := if side.Left? then left else right, if side.Left? then right else left;
            RunTable(StateOf(target, TableStateOf), TableChanges(schema, DiffTable(name, left, right), side))
            == Some(TableGoal(Entry(name, source, target)))
  {
    hide DiffByKey, AnyChange, MapOf, Covers, Oriented, MemberChanges, AllColumnChanges, SourceColumns, Reconciled,
      TableStateOf;
    var source, target := if side.Left? then left else right, if side.Left? then right else left;
    if source.None? {
      RunOne(StateOf(target, TableStateOf), DropTable(schema, name));
    } else {
      MembersCovered(name, left, right, side, target.None?);
      if target.None? {
        NewTableRuns(schema, DiffTable(name, left, right), side, source.value);
      } else {
        SharedTableRuns(schema, DiffTable(name, left, right), side, source.value, target.value);
      }
    }
  }

  lemma NewTableRuns(schema: string, d: TableDiff, side: Side, source: ResolvedTable)
    requires CoversColumns(d, side, true, source, None) && CoversMembers(d, side, true, source, None)
    ensures var create := CreateTable(schema, d.name, SourceColumns(Oriented(d.columns, side, true)));
            RunTable(None, [create] + MemberChanges(schema, d, side, true))
              == Some(TableGoal(Entry(d.name, Some(source), None)))
  {
    var es := Oriented(d.columns, side, true);
    NoMembers();
    hide Covers, Oriented, MapOf, MemberChanges, SourceColumns, ColumnsFrom, Reconciled, RunTable;
    CreatedColumnsReconcile(es, MapOf(source.columns, ColumnKey));
    var create := CreateTable(schema, d.name, SourceColumns(es));
    var t := TableState(ColumnsFrom(SourceColumns(es)), map[], map[]);
    RunOne(None, create);
    RunTableAppend(None, [create], MemberChanges(schema, d, side, true));
    MembersPhase(t, schema, d, side, true, source, None);
  }

  lemma NoMembers()
    ensures MapOf(ColumnsOf(None), ColumnKey) == map[]
    ensures MapOf(IndexesOf(None), IndexKey) == map[]
    ensures MapOf(ForeignKeysOf(None), ForeignKeyKey) == map[]
  {
  }

  lemma SharedTableRuns(schema: string, d: TableDiff, side: Side, source: ResolvedTable, target: ResolvedTable)
    requires CoversColumns(d, side, false, source, Some(target)) && CoversMembers(d, side, false, source, Some(target))
    ensures RunTable(Some(TableStateOf(target)),
                     AllColumnChanges(schema, d.name, Oriented(d.columns, side, false))
                       + MemberChanges(schema, d, side, false))
            == Some(TableGoal(Entry(d.name, Some(source), Some(target))))
  {
    var es := Oriented(d.columns, side, false);
    var t := TableStateOf(target);
    var s, o := MapOf(source.columns, ColumnKey), MapOf(target.columns, ColumnKey);
    hide Covers, Oriented, MapOf, MemberChanges, AllColumnChanges, Reconciled, RunTable, SetAll;
    CoversTracks(t.columns, es, s, o, ColumnKey, ColumnStateOf);
    SetAllReconciles(t.columns, es, ColumnGoal, s, o);
    ColumnsPhase(t, schema, d.name, es);
    var t' := t.(columns := SetAll(t.columns, es, ColumnGoal));
    RunTableAppend(Some(t), AllColumnChanges(schema, d.name, es), MemberChanges(schema, d, side, false));
    MembersPhase(t', schema, d, side, false, source, Some(target));
  }
}
