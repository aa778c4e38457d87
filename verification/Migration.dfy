/** The operations that reconcile one schema with the other. */
module Migration {
  import opened Common
  import opened SchemaDiff
  import opened LiveSchema

  /** One named thing, seen from the authoritative side. */
  datatype Entry<T> = Entry(key: string, source: Option<T>, target: Option<T>)

  /** `creating` is set for a table that the target lacks: its members are created, whatever the diff says of the
      target. */
  function Orient<T>(d: KeyedDiff<T>, side: Side, creating: bool): Entry<T> {
    var target := if side.Left? then d.right else d.left;
    Entry(d.key, if side.Left? then d.left else d.right, if creating then None else target)
  }

  function Oriented<T>(ds: seq<KeyedDiff<T>>, side: Side, creating: bool): seq<Entry<T>> {
    seq(|ds|, i requires 0 <= i < |ds| => Orient(ds[i], side, creating))
  }

  function NewColumnOf(c: ColumnMetadata): NewColumn {
    NewColumn(c.name, c.dataType, c.nullable, c.isPrimaryKey, c.autoIncrement, c.defaultValue)
  }

  function AddForeignKeyOf(f: ForeignKeyMetadata): AlterTableOperation {
    AddForeignKey(f.constraintName, f.columns, f.referencedSchema, f.referencedTable, f.referencedColumns,
                  if f.onDelete == Some("") then None else f.onDelete,
                  if f.onUpdate == Some("") then None else f.onUpdate)
  }

  function CreateIndexOf(schema: string, table: string, i: IndexMetadata): Change {
    CreateIndex(schema, table, i.name, i.columns, i.isUnique, i.accessMethod)
  }

  // ---- what each entry contributes -----------------------------------------------------------------------------

  function ColumnChanges(schema: string, table: string, e: Entry<ColumnMetadata>): seq<Change> {
    match (e.source, e.target)
    case (Some(s), None) => [AlterTable(schema, table, AddColumn(NewColumnOf(s)))]
    case (None, Some(t)) => [AlterTable(schema, table, DropColumn(t.name))]
    case (Some(s), Some(t)) =>
      (if s.nullable != t.nullable then [AlterTable(schema, table, SetNotNull(s.name, !s.nullable))] else [])
      + (if s.defaultValue != t.defaultValue then [AlterTable(schema, table, SetDefault(s.name, s.defaultValue))]
         else [])
      + (if s.dataType != t.dataType then [AlterTable(schema, table, ChangeType(s.name, s.dataType))] else [])
    case (None, None) => []
  }

  predicate PrimaryEntry(e: Entry<IndexMetadata>) {
    (e.source.Some? && e.source.value.isPrimary) || (e.target.Some? && e.target.value.isPrimary)
  }

  function IndexChanges(schema: string, table: string, e: Entry<IndexMetadata>): seq<Change> {
    if PrimaryEntry(e) then []
    else
      (if e.target.Some? then [DropIndex(schema, table, e.target.value.name)] else [])
      + (if e.source.Some? then [CreateIndexOf(schema, table, e.source.value)] else [])
  }

  function ForeignKeyChanges(schema: string, table: string, e: Entry<ForeignKeyMetadata>): seq<Change> {
    (if e.target.Some? then [AlterTable(schema, table, DropForeignKey(e.target.value.constraintName))] else [])
    + (if e.source.Some? then [AlterTable(schema, table, AddForeignKeyOf(e.source.value))] else [])
  }

  function AllColumnChanges(schema: string, table: string, es: seq<Entry<ColumnMetadata>>): seq<Change> {
    if es == [] then [] else ColumnChanges(schema, table, es[0]) + AllColumnChanges(schema, table, es[1..])
  }

  function AllIndexChanges(schema: string, table: string, es: seq<Entry<IndexMetadata>>): seq<Change> {
    if es == [] then [] else IndexChanges(schema, table, es[0]) + AllIndexChanges(schema, table, es[1..])
  }

  function AllForeignKeyChanges(schema: string, table: string, es: seq<Entry<ForeignKeyMetadata>>): seq<Change> {
    if es == [] then [] else ForeignKeyChanges(schema, table, es[0]) + AllForeignKeyChanges(schema, table, es[1..])
  }

  function SourceColumns(es: seq<Entry<ColumnMetadata>>): seq<NewColumn> {
    if es == [] then []
    else (if es[0].source.Some? then [NewColumnOf(es[0].source.value)] else []) + SourceColumns(es[1..])
  }

  // ---- a table, and the schema ---------------------------------------------------------------------------------

  predicate ExistsOn(t: TableDiff, side: Side) {
    if side.Left? then t.existsLeft else t.existsRight
  }

  function Other(side: Side): Side {
    if side.Left? then Right else Left
  }

  function MemberChanges(schema: string, t: TableDiff, side: Side, creating: bool): seq<Change> {
    AllIndexChanges(schema, t.name, Oriented(t.indexes, side, creating))
    + AllForeignKeyChanges(schema, t.name, Oriented(t.foreignKeys, side, creating))
  }

  /** The operations for one table: its creation with all members, its removal, or its members one by one. */
  function TableChanges(schema: string, t: TableDiff, side: Side): seq<Change> {
    if ExistsOn(t, side) && !ExistsOn(t, Other(side)) then
      [CreateTable(schema, t.name, SourceColumns(Oriented(t.columns, side, true)))]
        + MemberChanges(schema, t, side, true)
    else if ExistsOn(t, Other(side)) && !ExistsOn(t, side) then [DropTable(schema, t.name)]
    else if !ExistsOn(t, side) then []
    else AllColumnChanges(schema, t.name, Oriented(t.columns, side, false)) + MemberChanges(schema, t, side, false)
  }

  function AllTableChanges(schema: string, ts: seq<TableDiff>, side: Side): seq<Change> {
    if ts == [] then [] else TableChanges(schema, ts[0], side) + AllTableChanges(schema, ts[1..], side)
  }

  function TargetRef(d: SchemaDiff, side: Side): SchemaRef {
    if side.Left? then d.right else d.left
  }

  function Candidates(d: SchemaDiff, side: Side): seq<Change> {
    AllTableChanges(TargetRef(d, side).schema, d.tables, side)
  }

  // ---- the loops ---------------------------------------------------------------------------------------------------

  /** What is still to come for the entries from `k` on. */
  lemma NextEntry(schema: string, t: TableDiff, side: Side, creating: bool, k: nat)
    ensures k < |t.columns| ==>
              var es := Oriented(t.columns, side, creating);
              && AllColumnChanges(schema, t.name, es[k..])
                 == ColumnChanges(schema, t.name, es[k]) + AllColumnChanges(schema, t.name, es[k + 1..])
              && SourceColumns(es[k..])
                 == (if es[k].source.Some? then [NewColumnOf(es[k].source.value)] else []) + SourceColumns(es[k + 1..])
    ensures k < |t.indexes| ==>
              var es := Oriented(t.indexes, side, creating);
              AllIndexChanges(schema, t.name, es[k..])
              == IndexChanges(schema, t.name, es[k]) + AllIndexChanges(schema, t.name, es[k + 1..])
    ensures k < |t.foreignKeys| ==>
              var es := Oriented(t.foreignKeys, side, creating);
              AllForeignKeyChanges(schema, t.name, es[k..])
              == ForeignKeyChanges(schema, t.name, es[k]) + AllForeignKeyChanges(schema, t.name, es[k + 1..])
  {
    hide ColumnChanges, IndexChanges, ForeignKeyChanges;
  }

  lemma NoEntries(schema: string, t: TableDiff, side: Side, creating: bool)
    ensures var es := Oriented(t.columns, side, creating);
            es[0..] == es && AllColumnChanges(schema, t.name, es[|es|..]) == []
    ensures var es := Oriented(t.indexes, side, creating);
            es[0..] == es && AllIndexChanges(schema, t.name, es[|es|..]) == []
    ensures var es := Oriented(t.foreignKeys, side, creating);
            es[0..] == es && AllForeignKeyChanges(schema, t.name, es[|es|..]) == []
  {
  }

  /** One turn of the outer loop. */
  method ReconcileTable(schema: string, table: TableDiff, source: Side) returns (changes: seq<Change>)
    ensures changes == TableChanges(schema, table, source)
  {
    hide AllColumnChanges, AllIndexChanges, AllForeignKeyChanges, SourceColumns, Oriented;
    var existsInSource := if source.Left? then table.existsLeft else table.existsRight;
    var existsInTarget := if source.Left? then table.existsRight else table.existsLeft;
    changes := [];

    if existsInSource && !existsInTarget {
      changes := changes + [CreateTable(schema, table.name, SourceColumns(Oriented(table.columns, source, true)))];
      changes := CreateIndexes(schema, table, source, changes);
      changes := CreateForeignKeys(schema, table, source, changes);
      return;
    }

    if !existsInSource && existsInTarget {
      changes := changes + [DropTable(schema, table.name)];
      return;
    }

    if !existsInSource && !existsInTarget {
      return;
    }

    changes := ReconcileColumns(schema, table, source, changes);
    changes := ReconcileIndexes(schema, table, source, changes);
    changes := ReconcileForeignKeys(schema, table, source, changes);
  }

  method BuildMigrationCandidates(diff: SchemaDiff, source: Side) returns (changes: seq<Change>)
    ensures changes == Candidates(diff, source)
  {
    hide AllColumnChanges, AllIndexChanges, AllForeignKeyChanges, SourceColumns, MemberChanges;
    var targetSchema := if source.Left? then diff.right.schema else diff.left.schema;
    changes := [];
    assert diff.tables[0..] == diff.tables;
    for i := 0 to |diff.tables|
      invariant changes + AllTableChanges(targetSchema, diff.tables[i..], source) == Candidates(diff, source)
    {
      var table := diff.tables[i];
      assert diff.tables[i..][1..] == diff.tables[i + 1..];
      var more := ReconcileTable(targetSchema, table, source);
      changes := changes + more;
    }
    assert diff.tables[|diff.tables|..] == [];
  }

  method CreateIndexes(schema: string, table: TableDiff, source: Side, pushed: seq<Change>)
    returns (changes: seq<Change>)
    ensures changes == pushed + AllIndexChanges(schema, table.name, Oriented(table.indexes, source, true))
  {
    hide AllIndexChanges, CreateIndexOf;
    changes := pushed;
    NoEntries(schema, table, source, true);
    ghost var es := Oriented(table.indexes, source, true);
    for k := 0 to |table.indexes|
      invariant changes + AllIndexChanges(schema, table.name, es[k..])
                == pushed + AllIndexChanges(schema, table.name, es)
    {
      NextEntry(schema, table, source, true, k);
      var src := if source.Left? then table.indexes[k].left else table.indexes[k].right;
      ghost var here, rest := IndexChanges(schema, table.name, es[k]), AllIndexChanges(schema, table.name, es[k + 1..]);
      assert changes + (here + rest) == (changes + here) + rest;
      if src.Some? && !src.value.isPrimary {
        assert here == [CreateIndexOf(schema, table.name, src.value)];
        changes := changes + [CreateIndexOf(schema, table.name, src.value)];
      } else {
        assert here == [] && changes + here == changes;
      }
    }
  }

  method CreateForeignKeys(schema: string, table: TableDiff, source: Side, pushed: seq<Change>)
    returns (changes: seq<Change>)
    ensures changes == pushed + AllForeignKeyChanges(schema, table.name, Oriented(table.foreignKeys, source, true))
  {
    hide AllForeignKeyChanges, AddForeignKeyOf;
    changes := pushed;
    NoEntries(schema, table, source, true);
    ghost var es := Oriented(table.foreignKeys, source, true);
    for k := 0 to |table.foreignKeys|
      invariant changes + AllForeignKeyChanges(schema, table.name, es[k..])
                == pushed + AllForeignKeyChanges(schema, table.name, es)
    {
      NextEntry(schema, table, source, true, k);
      var src := if source.Left? then table.foreignKeys[k].left else table.foreignKeys[k].right;
      if src.Some? {
        changes := changes + [AlterTable(schema, table.name, AddForeignKeyOf(src.value))];
      }
    }
  }

  method ReconcileColumns(schema: string, table: TableDiff, source: Side, pushed: seq<Change>)
    returns (changes: seq<Change>)
    ensures changes == pushed + AllColumnChanges(schema, table.name, Oriented(table.columns, source, false))
  {
    hide AllColumnChanges, ColumnChanges;
    changes := pushed;
    NoEntries(schema, table, source, false);
    ghost var es := Oriented(table.columns, source, false);
    for k := 0 to |table.columns|
      invariant changes + AllColumnChanges(schema, table.name, es[k..])
                == pushed + AllColumnChanges(schema, table.name, es)
    {
      NextEntry(schema, table, source, false, k);
      var src := if source.Left? then table.columns[k].left else table.columns[k].right;
      var tgt := if source.Left? then table.columns[k].right else table.columns[k].left;
      changes := ReconcileColumn(schema, table.name, Entry(table.columns[k].key, src, tgt), changes);
    }
  }

  method ReconcileColumn(schema: string, table: string, e: Entry<ColumnMetadata>, pushed: seq<Change>)
    returns (changes: seq<Change>)
    ensures changes == pushed + ColumnChanges(schema, table, e)
  {
    hide NewColumnOf;
    changes := pushed;
    var src, tgt := e.source, e.target;
    if src.Some? && tgt.None? {
      changes := changes + [AlterTable(schema, table, AddColumn(NewColumnOf(src.value)))];
    } else if src.None? && tgt.Some? {
      changes := changes + [AlterTable(schema, table, DropColumn(tgt.value.name))];
    } else if src.Some? && tgt.Some? {
      if src.value.nullable != tgt.value.nullable {
        changes := changes + [AlterTable(schema, table, SetNotNull(src.value.name, !src.value.nullable))];
      }
      if src.value.defaultValue != tgt.value.defaultValue {
        changes := changes + [AlterTable(schema, table, SetDefault(src.value.name, src.value.defaultValue))];
      }
      if src.value.dataType != tgt.value.dataType {
        changes := changes + [AlterTable(schema, table, ChangeType(src.value.name, src.value.dataType))];
      }
    }
  }

  method ReconcileIndexes(schema: string, table: TableDiff, source: Side, pushed: seq<Change>)
    returns (changes: seq<Change>)
    ensures changes == pushed + AllIndexChanges(schema, table.name, Oriented(table.indexes, source, false))
  {
    hide AllIndexChanges, CreateIndexOf;
    changes := pushed;
    NoEntries(schema, table, source, false);
    ghost var es := Oriented(table.indexes, source, false);
    for k := 0 to |table.indexes|
      invariant changes + AllIndexChanges(schema, table.name, es[k..])
                == pushed + AllIndexChanges(schema, table.name, es)
    {
      NextEntry(schema, table, source, false, k);
      ghost var before := changes;
      ghost var here, rest := IndexChanges(schema, table.name, es[k]), AllIndexChanges(schema, table.name, es[k + 1..]);
      assert changes + (here + rest) == (changes + here) + rest;
      var src := if source.Left? then table.indexes[k].left else table.indexes[k].right;
      var tgt := if source.Left? then table.indexes[k].right else table.indexes[k].left;
      if (src.Some? && src.value.isPrimary) || (tgt.Some? && tgt.value.isPrimary) {
        assert here == [] && changes + here == changes;
        continue;
      }
      if src.Some? && tgt.None? {
        changes := changes + [CreateIndexOf(schema, table.name, src.value)];
      } else if src.None? && tgt.Some? {
        changes := changes + [DropIndex(schema, table.name, tgt.value.name)];
      } else if src.Some? && tgt.Some? {
        changes := changes + [DropIndex(schema, table.name, tgt.value.name)];
        changes := changes + [CreateIndexOf(schema, table.name, src.value)];
      }
      assert changes == before + here;
    }
  }

  method ReconcileForeignKeys(schema: string, table: TableDiff, source: Side, pushed: seq<Change>)
    returns (changes: seq<Change>)
    ensures changes == pushed + AllForeignKeyChanges(schema, table.name, Oriented(table.foreignKeys, source, false))
  {
    hide AllForeignKeyChanges, AddForeignKeyOf;
    changes := pushed;
    NoEntries(schema, table, source, false);
    ghost var es := Oriented(table.foreignKeys, source, false);
    for k := 0 to |table.foreignKeys|
      invariant changes + AllForeignKeyChanges(schema, table.name, es[k..])
                == pushed + AllForeignKeyChanges(schema, table.name, es)
    {
      NextEntry(schema, table, source, false, k);
      ghost var before := changes;
      var src := if source.Left? then table.foreignKeys[k].left else table.foreignKeys[k].right;
      var tgt := if source.Left? then table.foreignKeys[k].right else table.foreignKeys[k].left;
      if src.Some? && tgt.None? {
        changes := changes + [AlterTable(schema, table.name, AddForeignKeyOf(src.value))];
      } else if src.None? && tgt.Some? {
        changes := changes + [AlterTable(schema, table.name, DropForeignKey(tgt.value.constraintName))];
      } else if src.Some? && tgt.Some? {
        changes := changes + [AlterTable(schema, table.name, DropForeignKey(tgt.value.constraintName))];
        changes := changes + [AlterTable(schema, table.name, AddForeignKeyOf(src.value))];
      }
      assert changes == before + ForeignKeyChanges(schema, table.name, es[k]);
    }
  }
}
