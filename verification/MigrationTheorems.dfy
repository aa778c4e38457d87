/** What the migration promises: it converges, it is idempotent, and it does not depend on which side is called left. */
module MigrationTheorems {
  import opened Common
  import opened Names
  import opened SchemaDiff
  import opened LiveSchema
  import opened Migration
  import opened MigrationConverges

  // ---- convergence ------------------------------------------------------------------------------------------------

  const NO_TABLE := TableState(map[], map[], map[])

  /** The data shape of a column; its key and auto-increment flags are compared apart. */
  predicate SameShape(a: ColumnState, b: ColumnState) {
    a.dataType == b.dataType && a.nullable == b.nullable && a.defaultValue == b.defaultValue
  }

  predicate SameFlags(a: ColumnState, b: ColumnState) {
    a.isPrimaryKey == b.isPrimaryKey && a.autoIncrement == b.autoIncrement
  }

  predicate PrimaryIn(indexes: map<string, IndexState>, name: string) {
    name in indexes && indexes[name].primary
  }

  /** The source's columns; a column that was there before keeps its flags. */
  ghost predicate ColumnsConverged(
      source: map<string, ColumnState>, before: map<string, ColumnState>, after: map<string, ColumnState>) {
    && after.Keys == source.Keys
    && forall c :: c in source ==>
         && SameShape(after[c], source[c])
         && SameFlags(after[c], if c in before then before[c] else source[c])
  }

  /** The source's indexes; a name that is a primary index on either side is left as it was. */
  ghost predicate IndexesConverged(
      source: map<string, IndexState>, before: map<string, IndexState>, after: map<string, IndexState>) {
    forall i :: Lookup(after, i) ==
      if PrimaryIn(source, i) || PrimaryIn(before, i) then Lookup(before, i) else Lookup(source, i)
  }

  ghost predicate TableConverged(source: TableState, before: TableState, after: TableState) {
    && ColumnsConverged(source.columns, before.columns, after.columns)
    && IndexesConverged(source.indexes, before.indexes, after.indexes)
    && after.foreignKeys == source.foreignKeys
  }

  ghost predicate Converged(source: Live, before: Live, after: Live) {
    && after.name == before.name
    && after.tables.Keys == source.tables.Keys
    && forall t :: t in source.tables ==>
         TableConverged(source.tables[t], if t in before.tables then before.tables[t] else NO_TABLE, after.tables[t])
  }

  lemma ColumnsOn(schema: string, table: string, es: seq<Entry<ColumnMetadata>>)
    ensures AllOn(AllColumnChanges(schema, table, es), schema, table)
  {
  }

  lemma IndexesOn(schema: string, table: string, es: seq<Entry<IndexMetadata>>)
    ensures AllOn(AllIndexChanges(schema, table, es), schema, table)
  {
  }

  lemma ForeignKeysOn(schema: string, table: string, es: seq<Entry<ForeignKeyMetadata>>)
    ensures AllOn(AllForeignKeyChanges(schema, table, es), schema, table)
  {
  }

  /** Every operation for a table names that table. */
  lemma TableChangesOn(schema: string, d: TableDiff, side: Side)
    ensures AllOn(TableChanges(schema, d, side), schema, d.name)
  {
    hide AllColumnChanges, AllIndexChanges, AllForeignKeyChanges, Oriented, SourceColumns;
    ColumnsOn(schema, d.name, Oriented(d.columns, side, false));
    IndexesOn(schema, d.name, Oriented(d.indexes, side, true));
    IndexesOn(schema, d.name, Oriented(d.indexes, side, false));
    ForeignKeysOn(schema, d.name, Oriented(d.foreignKeys, side, true));
    ForeignKeysOn(schema, d.name, Oriented(d.foreignKeys, side, false));
  }

  lemma {:induction false} TablesPhase(
      live: Live, schema: string, ds: seq<TableDiff>, es: seq<Entry<ResolvedTable>>, side: Side)
    requires live.name == schema && |ds| == |es| && Tracks(live.tables, es, TableKey, TableStateOf)
    requires forall i :: 0 <= i < |ds| ==> ds[i].name == es[i].key
    requires forall i :: 0 <= i < |ds| ==>
               RunTable(StateOf(es[i].target, TableStateOf), TableChanges(schema, ds[i], side))
                 == Some(TableGoal(es[i]))
    ensures Run(live, AllTableChanges(schema, ds, side)) == Some(live.(tables := SetAll(live.tables, es, TableGoal)))
    decreases ds
  {
    if ds != [] {
      hide TableChanges, TableGoal, TableStateOf, RunTable;
      var tables := SetAt(live.tables, es[0].key, TableGoal(es[0]));
      TableChangesOn(schema, ds[0], side);
      RunOnOneTable(live, ds[0].name, TableChanges(schema, ds[0], side));
      RunAppend(live, TableChanges(schema, ds[0], side), AllTableChanges(schema, ds[1..], side));
      TracksRest(live.tables, es, TableKey, TableStateOf, TableGoal(es[0]));
      TablesPhase(live.(tables := tables), schema, ds[1..], es[1..], side);
    }
  }

  /** The run succeeds, and its result is the reconciled schema. */
  lemma MigrationRuns(
      left: SchemaRef, leftTables: seq<ResolvedTable>, right: SchemaRef, rightTables: seq<ResolvedTable>, side: Side)
    ensures var diff := BuildSchemaDiff(left, leftTables, right, rightTables);
            var source := if side.Left? then leftTables else rightTables;
            var target := if side.Left? then rightTables else leftTables;
            var live := LiveOf(TargetRef(diff, side), target);
            Run(live, Candidates(diff, side))
            == Some(live.(tables := Reconciled(MapOf(source, TableKey), MapOf(target, TableKey), TableGoal)))
  {
    hide MapOf, UnionKeys, Ascending, DiffTable, TableChanges, TableGoal, TableStateOf, SetAll, Reconciled, RunTable,
      Run, AllTableChanges, Covers;
    var diff := BuildSchemaDiff(left, leftTables, right, rightTables);
    var l, r := MapOf(leftTables, TableKey), MapOf(rightTables, TableKey);
    var source, target := if side.Left? then l else r, if side.Left? then r else l;
    var live := LiveOf(TargetRef(diff, side), if side.Left? then rightTables else leftTables);
    var names := UnionKeys(leftTables, rightTables, TableKey);
    UnionKeysOrder(leftTables, rightTables, TableKey);
    var es := seq(|names|, i requires 0 <= i < |names| => EntryAt(source, target, names[i]));
    NamesCover(names, es, source, target);
    CoversTracks(live.tables, es, source, target, TableKey, TableStateOf);
    SetAllReconciles(live.tables, es, TableGoal, source, target);
    forall i | 0 <= i < |names|
      ensures diff.tables[i].name == es[i].key
      ensures RunTable(StateOf(es[i].target, TableStateOf), TableChanges(live.name, diff.tables[i], side))
              == Some(TableGoal(es[i]))
    {
      assert names[i] in names;
      DiffTableName(names[i], Lookup(l, names[i]), Lookup(r, names[i]));
      TableRuns(live.name, names[i], Lookup(l, names[i]), Lookup(r, names[i]), side);
    }
    TablesPhase(live, live.name, diff.tables, es, side);
  }

  lemma DiffTableName(name: string, left: Option<ResolvedTable>, right: Option<ResolvedTable>)
    ensures DiffTable(name, left, right).name == name
  {
    hide DiffByKey, AnyChange;
  }

  lemma ReconciledTable(e: Entry<ResolvedTable>)
    requires e.source.Some?
    ensures TableGoal(e).Some?
    ensures TableConverged(TableStateOf(e.source.value),
                           if e.target.Some? then TableStateOf(e.target.value) else NO_TABLE,
                           TableGoal(e).value)
  {
    var s, t := e.source.value, e.target;
    NoMembers();
    ReconciledForeignKeys(MapOf(s.foreignKeys, ForeignKeyKey), MapOf(ForeignKeysOf(t), ForeignKeyKey));
    ReconciledIndexes(MapOf(s.indexes, IndexKey), MapOf(IndexesOf(t), IndexKey));
    ReconciledColumns(MapOf(s.columns, ColumnKey), MapOf(ColumnsOf(t), ColumnKey));
    NoStates();
    hide MapOf, Reconciled, ColumnsConverged, IndexesConverged, MapStates;
  }

  lemma NoStates()
    ensures MapStates(map[], ColumnStateOf) == map[] && MapStates(map[], IndexStateOf) == map[]
  {
  }

  lemma ReconciledForeignKeys(s: map<string, ForeignKeyMetadata>, t: map<string, ForeignKeyMetadata>)
    ensures Reconciled(s, t, ForeignKeyGoal) == MapStates(s, ForeignKeyStateOf)
  {
    hide ForeignKeyStateOf;
  }

  lemma ReconciledIndexes(s: map<string, IndexMetadata>, t: map<string, IndexMetadata>)
    ensures IndexesConverged(MapStates(s, IndexStateOf), MapStates(t, IndexStateOf), Reconciled(s, t, IndexGoal))
  {
  }

  lemma ReconciledColumns(s: map<string, ColumnMetadata>, t: map<string, ColumnMetadata>)
    ensures ColumnsConverged(MapStates(s, ColumnStateOf), MapStates(t, ColumnStateOf), Reconciled(s, t, ColumnGoal))
  {
  }

  lemma ReconciledSchema(
      source: map<string, ResolvedTable>, target: map<string, ResolvedTable>, sourceName: string, targetName: string)
    ensures Converged(Live(sourceName, MapStates(source, TableStateOf)),
                      Live(targetName, MapStates(target, TableStateOf)),
                      Live(targetName, Reconciled(source, target, TableGoal)))
  {
    hide TableGoal, TableStateOf, TableConverged;
    forall t | t in source
      ensures TableGoal(EntryAt(source, target, t)).Some?
      ensures TableConverged(TableStateOf(source[t]),
                             if t in target then TableStateOf(target[t]) else NO_TABLE,
                             TableGoal(EntryAt(source, target, t)).value)
    {
      ReconciledTable(EntryAt(source, target, t));
    }
    forall t | t !in source ensures TableGoal(EntryAt(source, target, t)).None? {
      NoGoal(EntryAt(source, target, t));
    }
  }

  /** For any two schemas, whichever side is authoritative, the candidates run on the target and it converges. */
  lemma MigrationReachesSource(
      left: SchemaRef, leftTables: seq<ResolvedTable>, right: SchemaRef, rightTables: seq<ResolvedTable>, side: Side)
    ensures var diff := BuildSchemaDiff(left, leftTables, right, rightTables);
            var l, r := LiveOf(left, leftTables), LiveOf(right, rightTables);
            var source, target := if side.Left? then l else r, if side.Left? then r else l;
            var run := Run(target, Candidates(diff, side));
            run.Some? && Converged(source, target, run.value)
  {
    MigrationRuns(left, leftTables, right, rightTables, side);
    hide MapOf, Run, Candidates, TableGoal, TableStateOf, Converged, Reconciled, MapStates;
    var l, r := MapOf(leftTables, TableKey), MapOf(rightTables, TableKey);
    if side.Left? {
      ReconciledSchema(l, r, left.schema, right.schema);
    } else {
      ReconciledSchema(r, l, right.schema, left.schema);
    }
  }

  lemma NoGoal(e: Entry<ResolvedTable>)
    requires e.source.None?
    ensures TableGoal(e).None?
  {
  }

  // ---- a converged target stays as it is --------------------------------------------------------------------------

  lemma TableConvergedUnique(source: TableState, before: TableState, a: TableState, b: TableState)
    requires TableConverged(source, before, a) && TableConverged(source, before, b)
    ensures a == b
  {
    hide PrimaryIn;
    forall i ensures Lookup(a.indexes, i) == Lookup(b.indexes, i) {
    }
    SameMap(a.indexes, b.indexes);
    forall c | c in source.columns ensures a.columns[c] == b.columns[c] {
    }
    assert a.columns == b.columns;
  }

  lemma TableStays(source: TableState, before: TableState, after: TableState)
    requires TableConverged(source, before, after)
    ensures TableConverged(source, after, after)
  {
    forall i
      ensures Lookup(after.indexes, i) ==
              if PrimaryIn(source.indexes, i) || PrimaryIn(after.indexes, i) then Lookup(after.indexes, i)
                else Lookup(source.indexes, i)
    {
      assert Lookup(after.indexes, i) ==
             if PrimaryIn(source.indexes, i) || PrimaryIn(before.indexes, i) then Lookup(before.indexes, i)
                                         else Lookup(source.indexes, i);
    }
  }

  /** Convergence leaves no freedom, and converging twice is converging once. */
  lemma ConvergedStays(source: Live, before: Live, after: Live)
    requires Converged(source, before, after)
    ensures Converged(source, after, after)
    ensures forall other :: Converged(source, after, other) ==> other == after
  {
    hide TableConverged;
    forall t | t in source.tables ensures TableConverged(source.tables[t], after.tables[t], after.tables[t]) {
      TableStays(source.tables[t], if t in before.tables then before.tables[t] else NO_TABLE, after.tables[t]);
    }
    forall other | Converged(source, after, other) ensures other == after {
      forall t | t in source.tables ensures other.tables[t] == after.tables[t] {
        TableConvergedUnique(source.tables[t], after.tables[t], other.tables[t], after.tables[t]);
      }
    }
  }

  /** A list of drops, each followed at once by the creation of what it dropped. */
  predicate OnlyRebuilds(cs: seq<Change>) {
    cs == [] || (|cs| >= 2 && Rebuilds(cs[0], cs[1]) && OnlyRebuilds(cs[2..]))
  }

  predicate Rebuilds(drop: Change, create: Change) {
    && drop.schema == create.schema && drop.table == create.table
    && (|| (drop.DropIndex? && create.CreateIndex? && drop.name == create.name)
        || (drop.AlterTable? && create.AlterTable? && drop.operation.DropForeignKey? && create.operation.AddForeignKey?
            && drop.operation.constraintName == create.operation.constraintName))
  }

  lemma {:induction false} RebuildsAppend(a: seq<Change>, b: seq<Change>)
    requires OnlyRebuilds(a) && OnlyRebuilds(b)
    ensures OnlyRebuilds(a + b)
    decreases a
  {
    hide Rebuilds;
    if a == [] {
      assert a + b == b;
    } else {
      assert (a + b)[2..] == a[2..] + b;
      RebuildsAppend(a[2..], b);
    }
  }

  lemma {:induction false} ColumnsAtRest(schema: string, table: string, es: seq<Entry<ColumnMetadata>>)
    requires forall i :: 0 <= i < |es| ==>
               && es[i].source.Some? && es[i].target.Some?
               && SameShape(ColumnStateOf(es[i].source.value), ColumnStateOf(es[i].target.value))
    ensures AllColumnChanges(schema, table, es) == []
  {
    if es != [] {
      ColumnsAtRest(schema, table, es[1..]);
    }
  }

  lemma {:induction false} IndexesAtRest(schema: string, table: string, es: seq<Entry<IndexMetadata>>)
    requires forall i :: 0 <= i < |es| ==>
             Named(es[i], IndexKey) && (PrimaryEntry(es[i]) || (es[i].source.Some? <==> es[i].target.Some?))
    ensures OnlyRebuilds(AllIndexChanges(schema, table, es))
  {
    if es != [] {
      IndexesAtRest(schema, table, es[1..]);
      var first := IndexChanges(schema, table, es[0]);
      assert OnlyRebuilds(first) by {
        if first != [] { assert first[2..] == []; }
      }
      RebuildsAppend(first, AllIndexChanges(schema, table, es[1..]));
    }
  }

  lemma {:induction false} ForeignKeysAtRest(schema: string, table: string, es: seq<Entry<ForeignKeyMetadata>>)
    requires forall i :: 0 <= i < |es| ==> Named(es[i], ForeignKeyKey) && (es[i].source.Some? <==> es[i].target.Some?)
    ensures OnlyRebuilds(AllForeignKeyChanges(schema, table, es))
  {
    if es != [] {
      ForeignKeysAtRest(schema, table, es[1..]);
      var first := ForeignKeyChanges(schema, table, es[0]);
      assert OnlyRebuilds(first) by {
        if first != [] { assert first[2..] == []; }
      }
      RebuildsAppend(first, AllForeignKeyChanges(schema, table, es[1..]));
    }
  }

  lemma TableAtRest(schema: string, d: TableDiff, side: Side, source: ResolvedTable, target: ResolvedTable)
    requires CoversColumns(d, side, false, source, Some(target)) && CoversMembers(d, side, false, source, Some(target))
    requires TableConverged(TableStateOf(source), TableStateOf(target), TableStateOf(target))
    ensures AllColumnChanges(schema, d.name, Oriented(d.columns, side, false)) == []
    ensures OnlyRebuilds(MemberChanges(schema, d, side, false))
  {
    hide Oriented, MapOf, AllColumnChanges, AllIndexChanges, AllForeignKeyChanges, OnlyRebuilds;
    var cs, ix, fs := Oriented(d.columns, side, false), Oriented(d.indexes, side, false),
      Oriented(d.foreignKeys, side, false);
    ColumnEntriesAtRest(cs, MapOf(source.columns, ColumnKey), MapOf(target.columns, ColumnKey));
    IndexEntriesAtRest(ix, MapOf(source.indexes, IndexKey), MapOf(target.indexes, IndexKey));
    ForeignKeyEntriesAtRest(fs, MapOf(source.foreignKeys, ForeignKeyKey), MapOf(target.foreignKeys, ForeignKeyKey));
    ColumnsAtRest(schema, d.name, cs);
    IndexesAtRest(schema, d.name, ix);
    ForeignKeysAtRest(schema, d.name, fs);
    RebuildsAppend(AllIndexChanges(schema, d.name, ix), AllForeignKeyChanges(schema, d.name, fs));
  }

  lemma ColumnEntriesAtRest(
      es: seq<Entry<ColumnMetadata>>, s: map<string, ColumnMetadata>, t: map<string, ColumnMetadata>)
    requires Covers(es, s, t)
    requires ColumnsConverged(MapStates(s, ColumnStateOf), MapStates(t, ColumnStateOf), MapStates(t, ColumnStateOf))
    ensures forall i :: 0 <= i < |es| ==>
              && es[i].source.Some? && es[i].target.Some?
              && SameShape(ColumnStateOf(es[i].source.value), ColumnStateOf(es[i].target.value))
  {
    assert MapStates(s, ColumnStateOf).Keys == s.Keys && MapStates(t, ColumnStateOf).Keys == t.Keys;
    forall i | 0 <= i < |es|
      ensures es[i].source.Some? && es[i].target.Some?
      ensures SameShape(ColumnStateOf(es[i].source.value), ColumnStateOf(es[i].target.value))
    {
      assert es[i] == EntryAt(s, t, es[i].key);
      assert es[i].key in MapStates(s, ColumnStateOf);
    }
  }

  lemma IndexEntriesAtRest(es: seq<Entry<IndexMetadata>>, s: map<string, IndexMetadata>, t: map<string, IndexMetadata>)
    requires Covers(es, s, t) && (forall k :: k in s ==> s[k].name == k) && (forall k :: k in t ==> t[k].name == k)
    requires IndexesConverged(MapStates(s, IndexStateOf), MapStates(t, IndexStateOf), MapStates(t, IndexStateOf))
    ensures forall i :: 0 <= i < |es| ==>
            Named(es[i], IndexKey) && (PrimaryEntry(es[i]) || (es[i].source.Some? <==> es[i].target.Some?))
  {
    forall i | 0 <= i < |es|
      ensures Named(es[i], IndexKey) && (PrimaryEntry(es[i]) || (es[i].source.Some? <==> es[i].target.Some?))
    {
      var k := es[i].key;
      assert es[i] == EntryAt(s, t, k);
      assert Lookup(MapStates(t, IndexStateOf), k) ==
             if PrimaryIn(MapStates(s, IndexStateOf), k) || PrimaryIn(MapStates(t, IndexStateOf), k)
               then Lookup(MapStates(t, IndexStateOf), k)
             else Lookup(MapStates(s, IndexStateOf), k);
    }
  }

  lemma ForeignKeyEntriesAtRest(
      es: seq<Entry<ForeignKeyMetadata>>, s: map<string, ForeignKeyMetadata>, t: map<string, ForeignKeyMetadata>)
    requires Covers(es, s, t) && (forall k :: k in s ==> s[k].constraintName == k)
             && (forall k :: k in t ==> t[k].constraintName == k)
    requires MapStates(t, ForeignKeyStateOf) == MapStates(s, ForeignKeyStateOf)
    ensures forall i :: 0 <= i < |es| ==> Named(es[i], ForeignKeyKey) && (es[i].source.Some? <==> es[i].target.Some?)
  {
    assert MapStates(s, ForeignKeyStateOf).Keys == s.Keys && MapStates(t, ForeignKeyStateOf).Keys == t.Keys;
    forall i | 0 <= i < |es|
      ensures Named(es[i], ForeignKeyKey) && (es[i].source.Some? <==> es[i].target.Some?)
    {
      assert es[i] == EntryAt(s, t, es[i].key);
    }
  }

  lemma {:induction false} TablesAtRest(schema: string, ds: seq<TableDiff>, side: Side)
    requires forall i :: 0 <= i < |ds| ==> OnlyRebuilds(TableChanges(schema, ds[i], side))
    ensures OnlyRebuilds(AllTableChanges(schema, ds, side))
    decreases ds
  {
    if ds != [] {
      hide TableChanges, OnlyRebuilds;
      TablesAtRest(schema, ds[1..], side);
      RebuildsAppend(TableChanges(schema, ds[0], side), AllTableChanges(schema, ds[1..], side));
    }
  }

  lemma SharedTableAtRest(schema: string, name: string, left: ResolvedTable, right: ResolvedTable, side: Side)
    requires var l, r := TableStateOf(left), TableStateOf(right);
             var source, target := if side.Left? then l else r, if side.Left? then r else l;
             TableConverged(source, target, target)
    ensures OnlyRebuilds(TableChanges(schema, DiffTable(name, left := Some(left), right := Some(right)), side))
  {
    hide TableConverged, TableStateOf, DiffByKey, Covers, MapOf, Oriented, AllColumnChanges, MemberChanges, AnyChange,
      OnlyRebuilds;
    var source, target := if side.Left? then left else right, if side.Left? then right else left;
    var d := DiffTable(name, Some(left), Some(right));
    MembersCovered(name, Some(left), Some(right), side, false);
    TableAtRest(schema, d, side, source, target);
    assert [] + MemberChanges(schema, d, side, false) == MemberChanges(schema, d, side, false);
  }

  /** Comparing with a target that has converged asks only for rebuilds. */
  lemma AtRestOnlyRebuilds(
      left: SchemaRef, leftTables: seq<ResolvedTable>, right: SchemaRef, rightTables: seq<ResolvedTable>, side: Side)
    requires var l, r := LiveOf(left, leftTables), LiveOf(right, rightTables);
             var source, target := if side.Left? then l else r, if side.Left? then r else l;
             Converged(source, target, target)
    ensures OnlyRebuilds(Candidates(BuildSchemaDiff(left, leftTables, right, rightTables), side))
  {
    hide MapOf, UnionKeys, DiffTable, TableChanges, TableConverged, TableStateOf, OnlyRebuilds, Ascending;
    var diff := BuildSchemaDiff(left, leftTables, right, rightTables);
    var l, r := MapOf(leftTables, TableKey), MapOf(rightTables, TableKey);
    var names := UnionKeys(leftTables, rightTables, TableKey);
    UnionKeysOrder(leftTables, rightTables, TableKey);
    assert MapStates(l, TableStateOf).Keys == l.Keys && MapStates(r, TableStateOf).Keys == r.Keys;
    var schema := TargetRef(diff, side).schema;
    forall i | 0 <= i < |diff.tables| ensures OnlyRebuilds(TableChanges(schema, diff.tables[i], side)) {
      var name := names[i];
      assert name in names;
      assert name in MapStates(l, TableStateOf) && name in MapStates(r, TableStateOf);
      SharedTableAtRest(schema, name, l[name], r[name], side);
    }
    TablesAtRest(schema, diff.tables, side);
  }

  /** Migrating again: only rebuilds are proposed, and running them changes nothing. */
  lemma MigrationFixpoint(
      left: SchemaRef, leftTables: seq<ResolvedTable>, right: SchemaRef, rightTables: seq<ResolvedTable>, side: Side,
      reread: seq<ResolvedTable>)
    requires var diff := BuildSchemaDiff(left, leftTables, right, rightTables);
             var ref := TargetRef(diff, side);
             Run(LiveOf(ref, if side.Left? then rightTables else leftTables), Candidates(diff, side))
               == Some(LiveOf(ref, reread))
    ensures var again := if side.Left? then BuildSchemaDiff(left, leftTables, right, reread)
                         else BuildSchemaDiff(left, reread, right, rightTables);
            var live := LiveOf(TargetRef(again, side), reread);
            OnlyRebuilds(Candidates(again, side)) && Run(live, Candidates(again, side)) == Some(live)
  {
    hide Run, Candidates, LiveOf, Converged, OnlyRebuilds;
    var l, r := LiveOf(left, leftTables), LiveOf(right, rightTables);
    MigrationReachesSource(left, leftTables, right, rightTables, side);
    if side.Left? {
      var after := LiveOf(right, reread);
      ConvergedStays(l, r, after);
      MigrationReachesSource(left, leftTables, right, reread, side);
      AtRestOnlyRebuilds(left, leftTables, right, reread, side);
    } else {
      var after := LiveOf(left, reread);
      ConvergedStays(r, l, after);
      MigrationReachesSource(left, reread, right, rightTables, side);
      AtRestOnlyRebuilds(left, reread, right, rightTables, side);
    }
  }

  // ---- what an unchanged table is --------------------------------------------------------------------------------

  lemma AgreeInState<T(!new), V>(l: map<string, T>, r: map<string, T>, equal: (T, T) -> bool, state: T -> V)
    requires forall a, b :: equal(a, b) <==> state(a) == state(b)
    ensures Agree(l, r, equal) <==> MapStates(l, state) == MapStates(r, state)
  {
    var x, y := MapStates(l, state), MapStates(r, state);
    assert x.Keys == l.Keys && y.Keys == r.Keys;
    if x == y {
      forall k | k in l ensures equal(l[k], r[k]) {
        assert x[k] == y[k];
      }
    }
  }

  /** Foreign keys of one name spell a missing action alike: not given, or given as an empty text. */
  ghost predicate SameSpelling(l: map<string, ForeignKeyMetadata>, r: map<string, ForeignKeyMetadata>) {
    forall k :: k in l && k in r ==>
      (l[k].onDelete == Some("") <==> r[k].onDelete == Some(""))
        && (l[k].onUpdate == Some("") <==> r[k].onUpdate == Some(""))
  }

  lemma ForeignKeysAgree(l: map<string, ForeignKeyMetadata>, r: map<string, ForeignKeyMetadata>)
    ensures Agree(l, r, ForeignKeysEqual) <==>
              MapStates(l, ForeignKeyStateOf) == MapStates(r, ForeignKeyStateOf) && SameSpelling(l, r)
  {
    var x, y := MapStates(l, ForeignKeyStateOf), MapStates(r, ForeignKeyStateOf);
    assert x.Keys == l.Keys && y.Keys == r.Keys;
    if x == y && SameSpelling(l, r) {
      forall k | k in l ensures ForeignKeysEqual(l[k], r[k]) {
        assert x[k] == y[k];
      }
    }
  }

  /** The members of two tables agree exactly when the engine would hold the same table, and missing actions are spelt
      alike. */
  lemma AgreeExactly(left: ResolvedTable, right: ResolvedTable)
    ensures TablesAgree(left, right) <==>
              && TableStateOf(left) == TableStateOf(right)
              && SameSpelling(MapOf(left.foreignKeys, ForeignKeyKey), MapOf(right.foreignKeys, ForeignKeyKey))
  {
    AgreeInState(MapOf(left.columns, ColumnKey), MapOf(right.columns, ColumnKey), ColumnsEqual, ColumnStateOf);
    AgreeInState(MapOf(left.indexes, IndexKey), MapOf(right.indexes, IndexKey), IndexesEqual, IndexStateOf);
    ForeignKeysAgree(MapOf(left.foreignKeys, ForeignKeyKey), MapOf(right.foreignKeys, ForeignKeyKey));
    hide MapOf, MapStates, Agree, SameSpelling;
  }

  /** A table of both sides is unchanged exactly when both engines hold the same, but for the spelling of no action. */
  lemma UnchangedExactly(
      left: SchemaRef, leftTables: seq<ResolvedTable>, right: SchemaRef, rightTables: seq<ResolvedTable>, i: nat)
    requires i < |BuildSchemaDiff(left, leftTables, right, rightTables).tables|
    ensures var t := BuildSchemaDiff(left, leftTables, right, rightTables).tables[i];
            var l, r := MapOf(leftTables, TableKey), MapOf(rightTables, TableKey);
            t.status == Unchanged <==>
              && t.name in l && t.name in r && TableStateOf(l[t.name]) == TableStateOf(r[t.name])
              && SameSpelling(MapOf(l[t.name].foreignKeys, ForeignKeyKey), MapOf(r[t.name].foreignKeys, ForeignKeyKey))
  {
    hide BuildSchemaDiff, MapOf, TablesAgree, TableStateOf, SameSpelling;
    TableStatusMeaning(left, leftTables, right, rightTables);
    var t := BuildSchemaDiff(left, leftTables, right, rightTables).tables[i];
    var l, r := MapOf(leftTables, TableKey), MapOf(rightTables, TableKey);
    if t.name in l && t.name in r {
      AgreeExactly(l[t.name], r[t.name]);
    }
  }

  // ---- left and right are only names ------------------------------------------------------------------------------

  lemma OrientedMirror<T>(ds: seq<KeyedDiff<T>>, side: Side, creating: bool)
    ensures Oriented(MirrorEntries(ds), Other(side), creating) == Oriented(ds, side, creating)
  {
  }

  lemma TableChangesMirror(schema: string, d: TableDiff, side: Side)
    ensures TableChanges(schema, MirrorTable(d), Other(side)) == TableChanges(schema, d, side)
  {
    hide Oriented, MirrorEntries, AllColumnChanges, AllIndexChanges, AllForeignKeyChanges, SourceColumns;
    OrientedMirror(d.columns, side, true);
    OrientedMirror(d.columns, side, false);
    OrientedMirror(d.indexes, side, true);
    OrientedMirror(d.indexes, side, false);
    OrientedMirror(d.foreignKeys, side, true);
    OrientedMirror(d.foreignKeys, side, false);
  }

  lemma {:induction false} AllTableChangesMirror(schema: string, ds: seq<TableDiff>, side: Side)
    ensures AllTableChanges(schema, seq(|ds|, i requires 0 <= i < |ds| => MirrorTable(ds[i])), Other(side))
            == AllTableChanges(schema, ds, side)
    decreases ds
  {
    hide MirrorTable, TableChanges;
    if ds != [] {
      var ms := seq(|ds|, i requires 0 <= i < |ds| => MirrorTable(ds[i]));
      assert ms[1..] == seq(|ds[1..]|, i requires 0 <= i < |ds[1..]| => MirrorTable(ds[1..][i]));
      TableChangesMirror(schema, ds[0], side);
      AllTableChangesMirror(schema, ds[1..], side);
    }
  }

  /** The same source gives the same operations, in the same order, whichever side it was passed on. */
  lemma CandidatesMirror(
      left: SchemaRef, leftTables: seq<ResolvedTable>, right: SchemaRef, rightTables: seq<ResolvedTable>, side: Side)
    ensures Candidates(BuildSchemaDiff(right, rightTables, left, leftTables), Other(side))
         == Candidates(BuildSchemaDiff(left, leftTables, right, rightTables), side)
  {
    hide AllTableChanges, BuildSchemaDiff, MirrorTable;
    var diff := BuildSchemaDiff(left, leftTables, right, rightTables);
    DiffMirror(left, leftTables, right, rightTables);
    var ds := diff.tables;
    AllTableChangesMirror(TargetRef(diff, side).schema, ds, side);
    assert Mirror(diff).tables == seq(|ds|, i requires 0 <= i < |ds| => MirrorTable(ds[i]));
  }

  // ---- destructive operations -------------------------------------------------------------------------------------

  /** Unchecked by default in the change set. */
  predicate IsDestructive(c: Change) {
    c.DropTable? || c.DropIndex? || (c.AlterTable? && (c.operation.DropColumn? || c.operation.DropForeignKey?))
  }

  datatype Thing = Table(table: string) | Column(table: string, name: string) | Index(table: string, name: string)
    | ForeignKey(table: string, name: string)

  predicate Has(live: Live, thing: Thing) {
    && thing.table in live.tables
    && var t := live.tables[thing.table];
       match thing
       case Table(_) => true
       case Column(_, n) => n in t.columns
       case Index(_, n) => n in t.indexes
       case ForeignKey(_, n) => n in t.foreignKeys
  }

  /** An operation is flagged destructive exactly when it removes something that was there. */
  lemma DestructiveMeansRemoval(live: Live, c: Change)
    requires Apply(live, c).Some?
    ensures IsDestructive(c) <==> exists thing :: Has(live, thing) && !Has(Apply(live, c).value, thing)
  {
    var after := Apply(live, c).value;
    if IsDestructive(c) {
      var thing := match c
        case DropTable(_, t) => Table(t)
        case DropIndex(_, t, n) => Index(t, n)
        case AlterTable(_, t, op) => if op.DropColumn? then Column(t, op.column) else ForeignKey(t, op.constraintName)
        case _ => Table("");
      assert Has(live, thing) && !Has(after, thing);
    } else {
      forall thing | Has(live, thing) ensures Has(after, thing) {
        KeepsThing(live, c, thing);
      }
    }
  }

  lemma KeepsThing(live: Live, c: Change, thing: Thing)
    requires Apply(live, c).Some? && !IsDestructive(c) && Has(live, thing)
    ensures Has(Apply(live, c).value, thing)
  {
  }

  /** A change set without its destructive operations never loses a table, column, index or foreign key. */
  lemma {:induction false} HarmlessRun(live: Live, cs: seq<Change>, thing: Thing)
    requires Run(live, cs).Some? && Has(live, thing)
    requires forall i :: 0 <= i < |cs| ==> !IsDestructive(cs[i])
    ensures Has(Run(live, cs).value, thing)
    decreases cs
  {
    hide Apply, Has, IsDestructive;
    if cs != [] {
      KeepsThing(live, cs[0], thing);
      HarmlessRun(Apply(live, cs[0]).value, cs[1..], thing);
    }
  }
}
