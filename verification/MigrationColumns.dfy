/** No operation of a migration names a column before it is there. */
module MigrationColumns {
  import opened Common
  import opened Names
  import opened SchemaDiff
  import opened LiveSchema
  import opened Migration
  import opened MigrationConverges
  import opened MigrationTheorems

  // ---- columns that an operation names ---------------------------------------------------------------------------

  predicate AllIn(columns: seq<string>, known: set<string>) {
    forall i :: 0 <= i < |columns| ==> columns[i] in known
  }

  /** The columns that an index or a foreign key is created on are there. */
  predicate ColumnsThere(t: Option<TableState>, c: Change) {
    match c
    case CreateIndex(_, _, _, columns, _, _) => t.Some? && AllIn(columns, t.value.columns.Keys)
    case AlterTable(_, _, op) => op.AddForeignKey? ==> t.Some? && AllIn(op.columns, t.value.columns.Keys)
    case _ => true
  }

  /** Run from `live`, every operation finds the columns it names, in the state that those before it left. */
  ghost predicate ColumnsAtHand(live: Live, cs: seq<Change>) {
    forall n :: 0 <= n < |cs| ==>
      Run(live, cs[..n]).Some? && ColumnsThere(Lookup(Run(live, cs[..n]).value.tables, cs[n].table), cs[n])
  }

  ghost predicate AtHandIn(t: Option<TableState>, cs: seq<Change>) {
    forall n :: 0 <= n < |cs| ==> RunTable(t, cs[..n]).Some? && ColumnsThere(RunTable(t, cs[..n]).value, cs[n])
  }

  lemma AtHandAppend(t: Option<TableState>, a: seq<Change>, b: seq<Change>)
    requires RunTable(t, a).Some?
    ensures AtHandIn(t, a + b) <==> AtHandIn(t, a) && AtHandIn(RunTable(t, a).value, b)
  {
    hide RunTable, ColumnsThere;
    var cs := a + b;
    forall n | 0 <= n < |a| ensures cs[..n] == a[..n] && cs[n] == a[n] {
    }
    forall n | 0 <= n < |b|
      ensures RunTable(t, cs[..|a| + n]) == RunTable(RunTable(t, a).value, b[..n]) && cs[|a| + n] == b[n]
    {
      assert cs[..|a| + n] == a + b[..n];
      RunTableAppend(t, a, b[..n]);
    }
    if AtHandIn(t, cs) {
      forall n | 0 <= n < |b|
        ensures RunTable(RunTable(t, a).value, b[..n]).Some?
        ensures ColumnsThere(RunTable(RunTable(t, a).value, b[..n]).value, b[n])
      {
        assert RunTable(t, cs[..|a| + n]).Some? && ColumnsThere(RunTable(t, cs[..|a| + n]).value, cs[|a| + n]);
      }
    } else {
      var n :| 0 <= n < |cs| && !(RunTable(t, cs[..n]).Some? && ColumnsThere(RunTable(t, cs[..n]).value, cs[n]));
      if n >= |a| {
        assert cs[..|a| + (n - |a|)] == cs[..n] && b[n - |a|] == cs[n];
      }
    }
  }

  lemma LiveAppend(live: Live, a: seq<Change>, b: seq<Change>)
    requires Run(live, a).Some?
    ensures ColumnsAtHand(live, a + b) <==> ColumnsAtHand(live, a) && ColumnsAtHand(Run(live, a).value, b)
  {
    hide Run, ColumnsThere;
    var cs, mid := a + b, Run(live, a).value;
    forall n | 0 <= n < |a| ensures cs[..n] == a[..n] && cs[n] == a[n] {
    }
    forall n | 0 <= n < |b| ensures Run(live, cs[..|a| + n]) == Run(mid, b[..n]) && cs[|a| + n] == b[n] {
      assert cs[..|a| + n] == a + b[..n];
      RunAppend(live, a, b[..n]);
    }
    if ColumnsAtHand(live, cs) {
      forall n | 0 <= n < |b|
        ensures Run(mid, b[..n]).Some? && ColumnsThere(Lookup(Run(mid, b[..n]).value.tables, b[n].table), b[n])
      {
        assert Run(live, cs[..|a| + n]).Some?;
      }
    } else {
      var n :| 0 <= n < |cs| && !(Run(live, cs[..n]).Some?
                 && ColumnsThere(Lookup(Run(live, cs[..n]).value.tables, cs[n].table), cs[n]));
      if n >= |a| {
        assert cs[..|a| + (n - |a|)] == cs[..n] && b[n - |a|] == cs[n];
      }
    }
  }

  /** For operations on one table it is a matter of that table. */
  lemma AtHandOnOneTable(live: Live, table: string, cs: seq<Change>)
    requires AllOn(cs, live.name, table)
    ensures ColumnsAtHand(live, cs) <==> AtHandIn(Lookup(live.tables, table), cs)
  {
    hide Run, RunTable, ColumnsThere;
    var t := Lookup(live.tables, table);
    forall n | 0 <= n < |cs|
      ensures Run(live, cs[..n]).Some? <==> RunTable(t, cs[..n]).Some?
      ensures Run(live, cs[..n]).Some? ==> Lookup(Run(live, cs[..n]).value.tables, table) == RunTable(t, cs[..n]).value
    {
      RunOnOneTable(live, table, cs[..n]);
    }
  }

  // ---- one table -------------------------------------------------------------------------------------------------

  /** An operation on an index or a foreign key. */
  predicate OnMember(c: Change) {
    || c.CreateIndex? || c.DropIndex?
    || (c.AlterTable? && (c.operation.AddForeignKey? || c.operation.DropForeignKey?))
  }

  lemma PrefixRuns(t: Option<TableState>, cs: seq<Change>, n: nat)
    requires RunTable(t, cs).Some? && n <= |cs|
    ensures RunTable(t, cs[..n]).Some?
  {
    hide RunTable;
    RunTableAppend(t, cs[..n], cs[n..]);
    assert cs[..n] + cs[n..] == cs;
  }

  lemma {:induction false} MembersKeepColumns(t: TableState, cs: seq<Change>)
    requires RunTable(Some(t), cs).Some? && forall i :: 0 <= i < |cs| ==> OnMember(cs[i])
    ensures RunTable(Some(t), cs).value.Some? && RunTable(Some(t), cs).value.value.columns == t.columns
    decreases cs
  {
    if cs != [] {
      MembersKeepColumns(ApplyToTable(Some(t), cs[0]).value.value, cs[1..]);
    }
  }

  lemma MembersAtHand(t: TableState, cs: seq<Change>)
    requires RunTable(Some(t), cs).Some? && forall i :: 0 <= i < |cs| ==> OnMember(cs[i])
    ensures AtHandIn(Some(t), cs) <==> forall n :: 0 <= n < |cs| ==> ColumnsThere(Some(t), cs[n])
  {
    hide RunTable, OnMember;
    forall n | 0 <= n < |cs|
      ensures RunTable(Some(t), cs[..n]).Some?
      ensures ColumnsThere(RunTable(Some(t), cs[..n]).value, cs[n]) <==> ColumnsThere(Some(t), cs[n])
    {
      PrefixRuns(Some(t), cs, n);
      MembersKeepColumns(t, cs[..n]);
    }
  }

  lemma OthersAtHand(t: Option<TableState>, cs: seq<Change>)
    requires RunTable(t, cs).Some? && forall i :: 0 <= i < |cs| ==> !OnMember(cs[i])
    ensures AtHandIn(t, cs)
  {
    hide RunTable;
    forall n | 0 <= n < |cs| ensures RunTable(t, cs[..n]).Some? {
      PrefixRuns(t, cs, n);
    }
  }

  lemma NoMemberInColumns(schema: string, table: string, es: seq<Entry<ColumnMetadata>>)
    ensures forall i :: 0 <= i < |AllColumnChanges(schema, table, es)| ==>
              !OnMember(AllColumnChanges(schema, table, es)[i]) && AllColumnChanges(schema, table, es)[i].AlterTable?
  {
  }

  /** The columns of a source index that is created are the table's own; likewise for a foreign key. */
  predicate IndexOwn(columns: set<string>, e: Entry<IndexMetadata>) {
    e.source.Some? && !PrimaryEntry(e) ==> AllIn(e.source.value.columns, columns)
  }

  predicate ForeignKeyOwn(columns: set<string>, e: Entry<ForeignKeyMetadata>) {
    e.source.Some? ==> AllIn(e.source.value.columns, columns)
  }

  predicate AllThere(t: TableState, cs: seq<Change>) {
    forall n :: 0 <= n < |cs| ==> ColumnsThere(Some(t), cs[n])
  }

  lemma AllThereAppend(t: TableState, a: seq<Change>, b: seq<Change>)
    ensures AllThere(t, a + b) <==> AllThere(t, a) && AllThere(t, b)
  {
    hide ColumnsThere;
    assert forall n :: 0 <= n < |a| ==> (a + b)[n] == a[n];
    assert forall n :: 0 <= n < |b| ==> (a + b)[|a| + n] == b[n];
    if AllThere(t, a) && AllThere(t, b) {
      forall n | 0 <= n < |a + b| ensures ColumnsThere(Some(t), (a + b)[n]) {
        assert n >= |a| ==> (a + b)[n] == b[n - |a|];
      }
    }
  }

  lemma {:induction false} IndexesThere(t: TableState, schema: string, table: string, es: seq<Entry<IndexMetadata>>)
    ensures var cs := AllIndexChanges(schema, table, es);
            && (forall i :: 0 <= i < |cs| ==> OnMember(cs[i]))
            && (AllThere(t, cs) <==> forall i :: 0 <= i < |es| ==> IndexOwn(t.columns.Keys, es[i]))
  {
    if es != [] {
      IndexesThere(t, schema, table, es[1..]);
      AllThereAppend(t, IndexChanges(schema, table, es[0]), AllIndexChanges(schema, table, es[1..]));
      IndexThere(t, schema, table, es[0]);
      hide AllThere, IndexOwn, IndexChanges;
      assert forall i :: 0 < i < |es| ==> es[i] == es[1..][i - 1];
      assert forall i :: 0 <= i < |es| - 1 ==> es[1..][i] == es[i + 1];
    }
  }

  lemma IndexThere(t: TableState, schema: string, table: string, e: Entry<IndexMetadata>)
    ensures forall i :: 0 <= i < |IndexChanges(schema, table, e)| ==> OnMember(IndexChanges(schema, table, e)[i])
    ensures AllThere(t, IndexChanges(schema, table, e)) <==> IndexOwn(t.columns.Keys, e)
  {
    var cs := IndexChanges(schema, table, e);
    if e.source.Some? && !PrimaryEntry(e) {
      assert cs[|cs| - 1] == CreateIndexOf(schema, table, e.source.value);
    }
  }

  lemma {:induction false} ForeignKeysThere(
      t: TableState, schema: string, table: string, es: seq<Entry<ForeignKeyMetadata>>)
    ensures var cs := AllForeignKeyChanges(schema, table, es);
            && (forall i :: 0 <= i < |cs| ==> OnMember(cs[i]))
            && (AllThere(t, cs) <==> forall i :: 0 <= i < |es| ==> ForeignKeyOwn(t.columns.Keys, es[i]))
  {
    if es != [] {
      ForeignKeysThere(t, schema, table, es[1..]);
      AllThereAppend(t, ForeignKeyChanges(schema, table, es[0]), AllForeignKeyChanges(schema, table, es[1..]));
      ForeignKeyThere(t, schema, table, es[0]);
      hide AllThere, ForeignKeyOwn, ForeignKeyChanges;
      assert forall i :: 0 < i < |es| ==> es[i] == es[1..][i - 1];
      assert forall i :: 0 <= i < |es| - 1 ==> es[1..][i] == es[i + 1];
    }
  }

  lemma ForeignKeyThere(t: TableState, schema: string, table: string, e: Entry<ForeignKeyMetadata>)
    ensures forall i :: 0 <= i < |ForeignKeyChanges(schema, table, e)| ==>
              OnMember(ForeignKeyChanges(schema, table, e)[i])
    ensures AllThere(t, ForeignKeyChanges(schema, table, e)) <==> ForeignKeyOwn(t.columns.Keys, e)
  {
    var cs := ForeignKeyChanges(schema, table, e);
    if e.source.Some? {
      assert cs[|cs| - 1] == AlterTable(schema, table, AddForeignKeyOf(e.source.value));
    }
  }

  /**
   * The indexes and foreign keys of a source table name columns of that table; an index whose name is primary on either
   * side is not created and does not matter.
   */
  predicate OwnColumns(source: ResolvedTable, target: Option<ResolvedTable>) {
    var columns := MapOf(source.columns, ColumnKey);
    var indexes, others := MapOf(source.indexes, IndexKey), MapOf(IndexesOf(target), IndexKey);
    var foreignKeys := MapOf(source.foreignKeys, ForeignKeyKey);
    && (forall k :: k in indexes && !indexes[k].isPrimary && !(k in others && others[k].isPrimary) ==>
          AllIn(indexes[k].columns, columns.Keys))
    && (forall k :: k in foreignKeys ==> AllIn(foreignKeys[k].columns, columns.Keys))
  }

  /** On a table with the source's columns, the operations on its members find theirs exactly in that case. */
  lemma MembersOwn(t: TableState, schema: string, d: TableDiff, side: Side, creating: bool,
                   source: ResolvedTable, target: Option<ResolvedTable>)
    requires CoversMembers(d, side, creating, source, target)
    requires t.columns.Keys == MapOf(source.columns, ColumnKey).Keys
    requires RunTable(Some(t), MemberChanges(schema, d, side, creating)).Some?
    ensures AtHandIn(Some(t), MemberChanges(schema, d, side, creating)) <==> OwnColumns(source, target)
  {
    hide RunTable, AtHandIn, MapOf, Oriented, AllIndexChanges, AllForeignKeyChanges, OnMember, AllThere;
    var ix, fs := Oriented(d.indexes, side, creating), Oriented(d.foreignKeys, side, creating);
    IndexesThere(t, schema, d.name, ix);
    ForeignKeysThere(t, schema, d.name, fs);
    AllThereAppend(t, AllIndexChanges(schema, d.name, ix), AllForeignKeyChanges(schema, d.name, fs));
    MembersThere(t, MemberChanges(schema, d, side, creating));
    IndexesOwn(t.columns.Keys, ix, MapOf(source.indexes, IndexKey), MapOf(IndexesOf(target), IndexKey));
    ForeignKeysOwn(t.columns.Keys, fs, MapOf(source.foreignKeys, ForeignKeyKey),
                   MapOf(ForeignKeysOf(target), ForeignKeyKey));
  }

  lemma MembersThere(t: TableState, cs: seq<Change>)
    requires RunTable(Some(t), cs).Some? && forall i :: 0 <= i < |cs| ==> OnMember(cs[i])
    ensures AtHandIn(Some(t), cs) <==> AllThere(t, cs)
  {
    hide RunTable, OnMember;
    MembersAtHand(t, cs);
  }

  lemma CoveredEntry<T>(es: seq<Entry<T>>, s: map<string, T>, t: map<string, T>, k: string) returns (i: nat)
    requires Covers(es, s, t) && k in s
    ensures i < |es| && es[i] == EntryAt(s, t, k)
  {
    i :| 0 <= i < |es| && es[i].key == k;
  }

  lemma IndexesOwn(
      columns: set<string>, es: seq<Entry<IndexMetadata>>, s: map<string, IndexMetadata>, t: map<string, IndexMetadata>)
    requires Covers(es, s, t)
    ensures (forall i :: 0 <= i < |es| ==> IndexOwn(columns, es[i])) <==>
              forall k :: k in s && !s[k].isPrimary && !(k in t && t[k].isPrimary) ==> AllIn(s[k].columns, columns)
  {
    hide AllIn;
    assert forall i :: 0 <= i < |es| ==> es[i] == EntryAt(s, t, es[i].key);
    hide Covers;
    if forall i :: 0 <= i < |es| ==> IndexOwn(columns, es[i]) {
      forall k | k in s && !s[k].isPrimary && !(k in t && t[k].isPrimary) ensures AllIn(s[k].columns, columns) {
        var i := CoveredEntry(es, s, t, k);
        assert IndexOwn(columns, es[i]);
      }
    }
  }

  lemma ForeignKeysOwn(
      columns: set<string>, es: seq<Entry<ForeignKeyMetadata>>, s: map<string, ForeignKeyMetadata>,
      t: map<string, ForeignKeyMetadata>)
    requires Covers(es, s, t)
    ensures (forall i :: 0 <= i < |es| ==> ForeignKeyOwn(columns, es[i])) <==>
              forall k :: k in s ==> AllIn(s[k].columns, columns)
  {
    hide AllIn;
    assert forall i :: 0 <= i < |es| ==> es[i] == EntryAt(s, t, es[i].key);
    hide Covers;
    if forall i :: 0 <= i < |es| ==> ForeignKeyOwn(columns, es[i]) {
      forall k | k in s ensures AllIn(s[k].columns, columns) {
        var i := CoveredEntry(es, s, t, k);
        assert ForeignKeyOwn(columns, es[i]);
      }
    }
  }

  /** One table's operations find their columns exactly when the source table's indexes and foreign keys name its
      own. */
  lemma TableAtHand(schema: string, name: string, left: Option<ResolvedTable>, right: Option<ResolvedTable>, side: Side)
    requires left.Some? || right.Some?
    ensures var source, target := if side.Left? then left else right, if side.Left? then right else left;
            AtHandIn(StateOf(target, TableStateOf), TableChanges(schema, DiffTable(name, left, right), side))
            <==> (source.Some? ==> OwnColumns(source.value, target))
  {
    hide DiffByKey, AnyChange, MapOf, Covers, Oriented, MemberChanges, AllColumnChanges, SourceColumns, OwnColumns,
      TableStateOf, RunTable, AtHandIn, TableGoal;
    var source, target := if side.Left? then left else right, if side.Left? then right else left;
    TableRuns(schema, name, left, right, side);
    if source.None? {
      assert AtHandIn(StateOf(target, TableStateOf), [DropTable(schema, name)]) by {
        OthersAtHand(StateOf(target, TableStateOf), [DropTable(schema, name)]);
      }
    } else {
      var d := DiffTable(name, left, right);
      MembersCovered(name, left, right, side, target.None?);
      GoalColumns(Entry(name, source, target));
      var t := StateOf(target, TableStateOf);
      var first := if target.None? then [CreateTable(schema, name, SourceColumns(Oriented(d.columns, side, true)))]
                   else AllColumnChanges(schema, name, Oriented(d.columns, side, false));
      NoMemberInColumns(schema, name, Oriented(d.columns, side, false));
      RunTableAppend(t, first, MemberChanges(schema, d, side, target.None?));
      StillThere(t, first);
      MembersLast(t, first, schema, d, side, target.None?, source.value, target);
    }
  }

  /** A run without a drop that begins with a table, or with its creation, ends with one. */
  lemma {:induction false} StillThere(t: Option<TableState>, cs: seq<Change>)
    requires RunTable(t, cs).Some? && (forall i :: 0 <= i < |cs| ==> !cs[i].DropTable?)
    requires t.Some? || (cs != [] && cs[0].CreateTable?)
    ensures RunTable(t, cs).value.Some?
    decreases cs
  {
    if cs != [] {
      StillThere(ApplyToTable(t, cs[0]).value, cs[1..]);
    }
  }

  /** The members come after the columns, whichever way those came about. */
  lemma MembersLast(t: Option<TableState>, first: seq<Change>, schema: string, d: TableDiff, side: Side, creating: bool,
                    source: ResolvedTable, target: Option<ResolvedTable>)
    requires CoversMembers(d, side, creating, source, target) && forall i :: 0 <= i < |first| ==> !OnMember(first[i])
    requires RunTable(t, first).Some? && RunTable(t, first).value.Some?
    requires var r := RunTable(t, first + MemberChanges(schema, d, side, creating));
             r.Some? && r.value.Some? && r.value.value.columns.Keys == MapOf(source.columns, ColumnKey).Keys
    ensures AtHandIn(t, first + MemberChanges(schema, d, side, creating)) <==> OwnColumns(source, target)
  {
    hide RunTable, AtHandIn, MapOf, OnMember, OwnColumns, MemberChanges, Covers;
    var mid, cs := RunTable(t, first).value.value, MemberChanges(schema, d, side, creating);
    RunTableAppend(t, first, cs);
    AllOnMembers(schema, d, side, creating);
    MembersKeepColumns(mid, cs);
    OthersAtHand(t, first);
    AtHandAppend(t, first, cs);
    MembersOwn(mid, schema, d, side, creating, source, target);
  }

  lemma AllOnMembers(schema: string, d: TableDiff, side: Side, creating: bool)
    ensures forall i :: 0 <= i < |MemberChanges(schema, d, side, creating)| ==>
              OnMember(MemberChanges(schema, d, side, creating)[i])
  {
    hide OnMember, Oriented, AllIndexChanges, AllForeignKeyChanges;
    IndexesThere(NO_TABLE, schema, d.name, Oriented(d.indexes, side, creating));
    ForeignKeysThere(NO_TABLE, schema, d.name, Oriented(d.foreignKeys, side, creating));
  }

  lemma GoalColumns(e: Entry<ResolvedTable>)
    requires e.source.Some?
    ensures TableGoal(e).Some? && TableGoal(e).value.columns.Keys == MapOf(e.source.value.columns, ColumnKey).Keys
  {
    hide MapOf;
  }

  // ---- the whole list --------------------------------------------------------------------------------------------

  lemma {:induction false} TablesAtHand(
      live: Live, schema: string, ds: seq<TableDiff>, es: seq<Entry<ResolvedTable>>, side: Side)
    requires live.name == schema && |ds| == |es| && Tracks(live.tables, es, TableKey, TableStateOf)
    requires forall i :: 0 <= i < |ds| ==> ds[i].name == es[i].key
    requires forall i :: 0 <= i < |ds| ==>
               RunTable(StateOf(es[i].target, TableStateOf), TableChanges(schema, ds[i], side))
                 == Some(TableGoal(es[i]))
    ensures ColumnsAtHand(live, AllTableChanges(schema, ds, side)) <==> EachAtHand(schema, ds, es, side)
    decreases ds
  {
    if ds != [] {
      hide TableChanges, TableGoal, TableStateOf, RunTable, AtHandIn, Run, ColumnsAtHand, EachAtHand;
      var first := TableChanges(schema, ds[0], side);
      var tables := SetAt(live.tables, es[0].key, TableGoal(es[0]));
      TableChangesOn(schema, ds[0], side);
      RunOnOneTable(live, ds[0].name, first);
      AtHandOnOneTable(live, ds[0].name, first);
      LiveAppend(live, first, AllTableChanges(schema, ds[1..], side));
      TracksRest(live.tables, es, TableKey, TableStateOf, TableGoal(es[0]));
      TablesAtHand(live.(tables := tables), schema, ds[1..], es[1..], side);
      FirstAndOthers(schema, ds, es, side);
    }
  }

  ghost predicate EachAtHand(schema: string, ds: seq<TableDiff>, es: seq<Entry<ResolvedTable>>, side: Side)
    requires |ds| == |es|
  {
    forall i :: 0 <= i < |ds| ==> AtHandIn(StateOf(es[i].target, TableStateOf), TableChanges(schema, ds[i], side))
  }

  lemma FirstAndOthers(schema: string, ds: seq<TableDiff>, es: seq<Entry<ResolvedTable>>, side: Side)
    requires |ds| == |es| && ds != []
    ensures EachAtHand(schema, ds, es, side) <==>
              && AtHandIn(StateOf(es[0].target, TableStateOf), TableChanges(schema, ds[0], side))
              && EachAtHand(schema, ds[1..], es[1..], side)
  {
    hide TableChanges, TableStateOf, AtHandIn;
    assert forall i :: 0 < i < |ds| ==> ds[i] == ds[1..][i - 1] && es[i] == es[1..][i - 1];
    assert forall i :: 0 <= i < |ds| - 1 ==> ds[1..][i] == ds[i + 1] && es[1..][i] == es[i + 1];
  }

  /**
   * Run on the target, no operation of the migration creates an index or a foreign key on a column that is not there at
   * that point, exactly when no index or foreign key of the source itself names a column that its table lacks.
   */
  lemma ColumnsAtHandExactly(
      left: SchemaRef, leftTables: seq<ResolvedTable>, right: SchemaRef, rightTables: seq<ResolvedTable>, side: Side)
    ensures var diff := BuildSchemaDiff(left, leftTables, right, rightTables);
            var source := MapOf(if side.Left? then leftTables else rightTables, TableKey);
            var target := MapOf(if side.Left? then rightTables else leftTables, TableKey);
            var live := LiveOf(TargetRef(diff, side), if side.Left? then rightTables else leftTables);
            ColumnsAtHand(live, Candidates(diff, side))
            <==> forall name :: name in source ==> OwnColumns(source[name], Lookup(target, name))
  {
    hide MapOf, UnionKeys, Ascending, DiffTable, TableChanges, TableGoal, TableStateOf, RunTable, Covers, OwnColumns,
      AllTableChanges, ColumnsAtHand, AtHandIn, EachAtHand;
    var diff := BuildSchemaDiff(left, leftTables, right, rightTables);
    var l, r := MapOf(leftTables, TableKey), MapOf(rightTables, TableKey);
    var source, target := if side.Left? then l else r, if side.Left? then r else l;
    var live := LiveOf(TargetRef(diff, side), if side.Left? then rightTables else leftTables);
    var names := UnionKeys(leftTables, rightTables, TableKey);
    UnionKeysOrder(leftTables, rightTables, TableKey);
    var es := seq(|names|, i requires 0 <= i < |names| => EntryAt(source, target, names[i]));
    NamesCover(names, es, source, target);
    CoversTracks(live.tables, es, source, target, TableKey, TableStateOf);
    forall i | 0 <= i < |names|
      ensures diff.tables[i].name == es[i].key
      ensures RunTable(StateOf(es[i].target, TableStateOf), TableChanges(live.name, diff.tables[i], side))
              == Some(TableGoal(es[i]))
      ensures AtHandIn(StateOf(es[i].target, TableStateOf), TableChanges(live.name, diff.tables[i], side))
              <==> (names[i] in source ==> OwnColumns(source[names[i]], Lookup(target, names[i])))
    {
      assert names[i] in names;
      DiffTableName(names[i], Lookup(l, names[i]), Lookup(r, names[i]));
      TableRuns(live.name, names[i], Lookup(l, names[i]), Lookup(r, names[i]), side);
      TableAtHand(live.name, names[i], Lookup(l, names[i]), Lookup(r, names[i]), side);
    }
    TablesAtHand(live, live.name, diff.tables, es, side);
    AllOwn(live.name, diff.tables, es, side, names, source, target);
  }

  lemma AllOwn(schema: string, ds: seq<TableDiff>, es: seq<Entry<ResolvedTable>>, side: Side, names: seq<string>,
               source: map<string, ResolvedTable>, target: map<string, ResolvedTable>)
    requires |ds| == |es| == |names| && forall name :: name in source ==> name in names
    requires forall i :: 0 <= i < |names| ==>
               (AtHandIn(StateOf(es[i].target, TableStateOf), TableChanges(schema, ds[i], side))
                <==> (names[i] in source ==> OwnColumns(source[names[i]], Lookup(target, names[i]))))
    ensures EachAtHand(schema, ds, es, side) <==>
              forall name :: name in source ==> OwnColumns(source[name], Lookup(target, name))
  {
    hide OwnColumns, AtHandIn, TableChanges, TableStateOf;
    if EachAtHand(schema, ds, es, side) {
      forall name | name in source ensures OwnColumns(source[name], Lookup(target, name)) {
        var i :| 0 <= i < |names| && names[i] == name;
        assert AtHandIn(StateOf(es[i].target, TableStateOf), TableChanges(schema, ds[i], side));
      }
    }
  }
}
