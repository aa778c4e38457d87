/** A schema as the engine holds it, and the effect of one DDL operation: each has a precondition that can fail. */
module LiveSchema {
  import opened Common
  import opened SchemaDiff

  datatype ColumnState = ColumnState(
    dataType: string, nullable: bool, isPrimaryKey: bool, autoIncrement: bool, defaultValue: Option<string>)

  datatype IndexState = IndexState(columns: seq<string>, unique: bool, primary: bool, accessMethod: string)

  datatype ForeignKeyState = ForeignKeyState(
    columns: seq<string>, referencedSchema: Option<string>, referencedTable: string, referencedColumns: seq<string>,
    onDelete: Option<string>, onUpdate: Option<string>)

  datatype TableState = TableState(
    columns: map<string, ColumnState>, indexes: map<string, IndexState>, foreignKeys: map<string, ForeignKeyState>)

  datatype Live = Live(name: string, tables: map<string, TableState>)

  // ---- the operations a migration is made of -------------------------------------------------------------------

  datatype NewColumn = NewColumn(
    name: string, columnType: string, nullable: bool, isPrimaryKey: bool, autoIncrement: bool,
    defaultExpr: Option<string>)

  datatype AlterTableOperation =
    | AddColumn(newColumn: NewColumn)
    | DropColumn(column: string)
    | SetNotNull(column: string, notNull: bool)
    | SetDefault(column: string, defaultExpr: Option<string>)
    | ChangeType(column: string, columnType: string)
    | AddForeignKey(constraintName: string, columns: seq<string>, referencedSchema: Option<string>,
                    referencedTable: string, referencedColumns: seq<string>, onDelete: Option<string>,
                    onUpdate: Option<string>)
    | DropForeignKey(constraintName: string)

  datatype Change =
    | CreateTable(schema: string, table: string, columns: seq<NewColumn>)
    | DropTable(schema: string, table: string)
    | AlterTable(schema: string, table: string, operation: AlterTableOperation)
    | CreateIndex(schema: string, table: string, name: string, indexColumns: seq<string>, unique: bool,
                  accessMethod: string)
    | DropIndex(schema: string, table: string, name: string)

  // ---- effects ---------------------------------------------------------------------------------------------------

  function SetAt<V>(m: map<string, V>, k: string, v: Option<V>): map<string, V> {
    if v.None? then m - {k} else m[k := v.value]
  }

  function ColumnFrom(c: NewColumn): ColumnState {
    ColumnState(c.columnType, c.nullable, c.isPrimaryKey, c.autoIncrement, c.defaultExpr)
  }

  function NewColumnKey(c: NewColumn): string { c.name }

  function ColumnsFrom(columns: seq<NewColumn>): map<string, ColumnState> {
    var m := MapOf(columns, NewColumnKey);
    map k | k in m :: ColumnFrom(m[k])
  }

  function AlterColumns(t: TableState, op: AlterTableOperation): Option<TableState>
    requires !op.AddForeignKey? && !op.DropForeignKey?
  {
    var name := if op.AddColumn? then op.newColumn.name else op.column;
    if op.AddColumn? then
      (if name in t.columns then None else Some(t.(columns := t.columns[name := ColumnFrom(op.newColumn)])))
    else if name !in t.columns then None
    else
      var c := t.columns[name];
      match op
      case DropColumn(_) => Some(t.(columns := t.columns - {name}))
      case SetNotNull(_, notNull) => Some(t.(columns := t.columns[name := c.(nullable := !notNull)]))
      case SetDefault(_, d) => Some(t.(columns := t.columns[name := c.(defaultValue := d)]))
      case ChangeType(_, ty) => Some(t.(columns := t.columns[name := c.(dataType := ty)]))
  }

  function AlterForeignKeys(t: TableState, op: AlterTableOperation): Option<TableState>
    requires op.AddForeignKey? || op.DropForeignKey?
  {
    match op
    case AddForeignKey(n, columns, schema, table, referenced, onDelete, onUpdate) =>
      if n in t.foreignKeys then None
      else
        var key := ForeignKeyState(columns, schema, table, referenced, onDelete, onUpdate);
        Some(t.(foreignKeys := t.foreignKeys[n := key]))
    case DropForeignKey(n) =>
      if n !in t.foreignKeys then None else Some(t.(foreignKeys := t.foreignKeys - {n}))
  }

  /** Effect on the one table the operation names; `None` outside means that the engine refuses. */
  function ApplyToTable(t: Option<TableState>, c: Change): Option<Option<TableState>> {
    match c
    case CreateTable(_, _, columns) =>
      if t.Some? then None else Some(Some(TableState(ColumnsFrom(columns), map[], map[])))
    case DropTable(_, _) => if t.None? then None else Some(None)
    case AlterTable(_, _, op) =>
      if t.None? then None
      else
        var r := if op.AddForeignKey? || op.DropForeignKey? then AlterForeignKeys(t.value, op)
                 else AlterColumns(t.value, op);
        if r.None? then None else Some(r)
    case CreateIndex(_, _, name, columns, unique, accessMethod) =>
      if t.None? || name in t.value.indexes then None
      else Some(Some(t.value.(indexes := t.value.indexes[name := IndexState(columns, unique, false, accessMethod)])))
    case DropIndex(_, _, name) =>
      if t.None? || name !in t.value.indexes then None
      else Some(Some(t.value.(indexes := t.value.indexes - {name})))
  }

  function Apply(live: Live, c: Change): Option<Live> {
    if c.schema != live.name then None
    else
      var t := ApplyToTable(Lookup(live.tables, c.table), c);
      if t.None? then None else Some(live.(tables := SetAt(live.tables, c.table, t.value)))
  }

  /** The operations in order; the first that is refused fails the run. */
  function Run(live: Live, cs: seq<Change>): Option<Live>
    decreases cs
  {
    if cs == [] then Some(live)
    else
      var next := Apply(live, cs[0]);
      if next.None? then None else Run(next.value, cs[1..])
  }

  function RunTable(t: Option<TableState>, cs: seq<Change>): Option<Option<TableState>>
    decreases cs
  {
    if cs == [] then Some(t)
    else
      var next := ApplyToTable(t, cs[0]);
      if next.None? then None else RunTable(next.value, cs[1..])
  }

  // ---- the state that metadata describes ---------------------------------------------------------------------------

  function ColumnStateOf(c: ColumnMetadata): ColumnState {
    ColumnState(c.dataType, c.nullable, c.isPrimaryKey, c.autoIncrement, c.defaultValue)
  }

  function IndexStateOf(i: IndexMetadata): IndexState {
    IndexState(i.columns, i.isUnique, i.isPrimary, i.accessMethod)
  }

  /** An empty referential action is no action. */
  function ActionOf(action: Option<string>): Option<string> {
    if action == Some("") then None else action
  }

  function ForeignKeyStateOf(f: ForeignKeyMetadata): ForeignKeyState {
    ForeignKeyState(f.columns, f.referencedSchema, f.referencedTable, f.referencedColumns, ActionOf(f.onDelete),
                    ActionOf(f.onUpdate))
  }

  function MapStates<T, V>(m: map<string, T>, state: T -> V): map<string, V> {
    map k | k in m :: state(m[k])
  }

  function TableStateOf(t: ResolvedTable): TableState {
    TableState(MapStates(MapOf(t.columns, ColumnKey), ColumnStateOf),
               MapStates(MapOf(t.indexes, IndexKey), IndexStateOf),
               MapStates(MapOf(t.foreignKeys, ForeignKeyKey), ForeignKeyStateOf))
  }

  function LiveOf(schema: SchemaRef, tables: seq<ResolvedTable>): Live {
    Live(schema.schema, MapStates(MapOf(tables, TableKey), TableStateOf))
  }

  // ---- facts about running -----------------------------------------------------------------------------------------

  lemma {:induction false} RunAppend(live: Live, a: seq<Change>, b: seq<Change>)
    ensures Run(live, a + b) == match Run(live, a) case None => None case Some(mid) => Run(mid, b)
    decreases a
  {
    hide Apply;
    if a == [] {
      assert a + b == b;
    } else {
      assert (a + b)[1..] == a[1..] + b;
      var next := Apply(live, a[0]);
      if next.Some? { RunAppend(next.value, a[1..], b); }
    }
  }

  lemma {:induction false} RunTableAppend(t: Option<TableState>, a: seq<Change>, b: seq<Change>)
    ensures RunTable(t, a + b) == match RunTable(t, a) case None => None case Some(mid) => RunTable(mid, b)
    decreases a
  {
    hide ApplyToTable;
    if a == [] {
      assert a + b == b;
    } else {
      assert (a + b)[1..] == a[1..] + b;
      var next := ApplyToTable(t, a[0]);
      if next.Some? { RunTableAppend(next.value, a[1..], b); }
    }
  }

  predicate AllOn(cs: seq<Change>, schema: string, table: string) {
    forall i :: 0 <= i < |cs| ==> cs[i].schema == schema && cs[i].table == table
  }

  /** Operations on one table leave every other table alone. */
  lemma {:induction false} RunOnOneTable(live: Live, table: string, cs: seq<Change>)
    requires AllOn(cs, live.name, table)
    ensures Run(live, cs) == match RunTable(Lookup(live.tables, table), cs)
                             case None => None
                             case Some(t) => Some(live.(tables := SetAt(live.tables, table, t)))
    decreases cs
  {
    hide ApplyToTable;
    var t := Lookup(live.tables, table);
    if cs == [] {
      assert SetAt(live.tables, table, t) == live.tables;
    } else {
      var next := ApplyToTable(t, cs[0]);
      if next.Some? {
        var live' := live.(tables := SetAt(live.tables, table, next.value));
        assert Lookup(live'.tables, table) == next.value;
        RunOnOneTable(live', table, cs[1..]);
        var last := RunTable(next.value, cs[1..]);
        if last.Some? {
          assert SetAt(live'.tables, table, last.value) == SetAt(live.tables, table, last.value);
        }
      }
    }
  }

  lemma SameMap<V>(a: map<string, V>, b: map<string, V>)
    requires forall k :: Lookup(a, k) == Lookup(b, k)
    ensures a == b
  {
    forall k ensures k in a <==> k in b {
      assert Lookup(a, k) == Lookup(b, k);
    }
    forall k | k in a ensures a[k] == b[k] {
      assert Lookup(a, k) == Lookup(b, k);
    }
  }
}
