/** Compiling a row filter to a parameterised WHERE clause. */
module RowFilter {
  import opened Common
  import opened LikePattern
  import opened SchemaDiff
  import Text

  // ---- which operators a column allows -----------------------------------------------------------------------

  datatype TypeFamily = TextFamily | NumericFamily | DatetimeFamily | BooleanFamily | OtherFamily

  datatype FilterOperator =
    | Eq | Neq | Lt | Lte | Gt | Gte
    | Contains | NotContains | StartsWith | NotStartsWith | EndsWith | NotEndsWith
    | IsNull | IsNotNull | In | NotIn

  const TEXT_TYPES := {
    "text", "character varying", "character", "name", "citext", "varchar", "char", "bpchar",
    "tinytext", "mediumtext", "longtext", "enum", "set", "text/blob" }

  const NUMERIC_TYPES := {
    "integer", "bigint", "smallint", "int", "int2", "int4", "int8", "tinyint", "mediumint",
    "real", "double precision", "double", "float4", "float8", "numeric", "decimal", "dec", "fixed", "money" }

  const DATETIME_TYPES := {
    "date", "datetime", "year", "timestamp without time zone", "timestamp with time zone", "timestamp", "timestamptz",
    "time without time zone", "time with time zone", "time", "timetz", "interval" }

  predicate HasPrefix(s: string, p: string) {
    |p| <= |s| && s[..|p|] == p
  }

  function TypeFamilyOf(dataType: string): TypeFamily {
    var t := Text.Lower(dataType);
    if t in TEXT_TYPES then TextFamily
    else if t in NUMERIC_TYPES then NumericFamily
    else if HasPrefix(t, "timestamp") || HasPrefix(t, "time") || t in DATETIME_TYPES then DatetimeFamily
    else if t == "boolean" || t == "bool" then BooleanFamily
    else OtherFamily
  }

  predicate Allowed(family: TypeFamily, op: FilterOperator) {
    match op
    case Eq | Neq | IsNull | IsNotNull => true
    case Lt | Lte | Gt | Gte => family.TextFamily? || family.NumericFamily? || family.DatetimeFamily?
    case In | NotIn => family.TextFamily? || family.NumericFamily?
    case _ => family.TextFamily?
  }

  /** What may be asked of a column: everything of text, order and lists of numbers, order of dates, equality of the
      rest. */
  lemma OperatorsExactly(op: FilterOperator)
    ensures Allowed(TextFamily, op)
    ensures Allowed(NumericFamily, op) <==> op in {Eq, Neq, Lt, Lte, Gt, Gte, IsNull, IsNotNull, In, NotIn}
    ensures Allowed(DatetimeFamily, op) <==> op in {Eq, Neq, Lt, Lte, Gt, Gte, IsNull, IsNotNull}
    ensures Allowed(BooleanFamily, op) <==> op in {Eq, Neq, IsNull, IsNotNull}
    ensures Allowed(OtherFamily, op) <==> op in {Eq, Neq, IsNull, IsNotNull}
  {
  }

  /** A type is a date or time exactly when its name begins with `time`, in any case, or is one of four others. */
  lemma DatetimeExactly(dataType: string)
    ensures var t := Text.Lower(dataType);
            TypeFamilyOf(dataType).DatetimeFamily? <==>
              HasPrefix(t, "time") || t in {"date", "datetime", "year", "interval"}
  {
    hide TEXT_TYPES, NUMERIC_TYPES, DATETIME_TYPES, Text.Lower;
    var t := Text.Lower(dataType);
    TimePrefix(t, "time");
    TimePrefix(t, "timestamp");
    OthersNotOfTime(t);
    DatetimeTypes(t);
  }

  lemma OthersNotOfTime(t: string)
    ensures t in TEXT_TYPES || t in NUMERIC_TYPES ==>
              !BeginsWithTim(t) && t !in {"date", "datetime", "year", "interval"}
  {
  }

  lemma DatetimeTypes(t: string)
    ensures t in {"date", "datetime", "year", "interval"} ==> t in DATETIME_TYPES
    ensures t in DATETIME_TYPES ==> HasPrefix(t, "time") || t in {"date", "datetime", "year", "interval"}
  {
    var others := DATETIME_TYPES - {"date", "datetime", "year", "interval"};
    if t in others {
      assert |t| >= 4 && t[0] == 't' && t[1] == 'i' && t[2] == 'm' && t[3] == 'e';
      assert t[..4] == "time";
    }
  }

  predicate BeginsWithTim(s: string) {
    |s| >= 3 && s[0] == 't' && s[1] == 'i' && s[2] == 'm'
  }

  lemma TimePrefix(s: string, p: string)
    requires HasPrefix("timestamp", p) && |p| >= 4
    ensures HasPrefix(s, p) ==> BeginsWithTim(s) && HasPrefix(s, "time")
  {
    if HasPrefix(s, p) {
      assert forall i :: 0 <= i < |p| ==> s[i] == s[..|p|][i] == "timestamp"[i];
      assert s[..4] == "timestamp"[..4] == "time";
    }
  }

  // ---- the clause and its meaning ----------------------------------------------------------------------------

  datatype Value = Null | Text(text: string) | Number(n: int)

  /** What is bound to one placeholder: a value, or an array of them. */
  datatype Param = One(value: Value) | Many(values: seq<Value>)

  datatype ColumnFilter = ColumnFilter(column: string, operator: FilterOperator, value: Value, values: seq<Value>)

  /** One condition of the clause; numbers are placeholder numbers. */
  datatype Fragment =
    | Compare(column: string, operator: FilterOperator, ph: nat)
    | Like(column: string, negated: bool, ph: nat)
    | NullTest(column: string, negated: bool)
    | InArray(column: string, negated: bool, ph: nat)
    | InList(column: string, negated: bool, phs: seq<nat>)
    | Constant(holds: bool)

  /** Set membership with one array parameter, or with one parameter per value. */
  datatype Dialect = ArrayDialect | ListDialect

  datatype Tri = True | False | Unknown

  function TriOf(b: bool): Tri {
    if b then True else False
  }

  function TriNot(a: Tri): Tri {
    match a
    case True => False
    case False => True
    case Unknown => Unknown
  }

  function TriAnd(a: Tri, b: Tri): Tri {
    if a.False? || b.False? then False else if a.True? && b.True? then True else Unknown
  }

  function TriOr(a: Tri, b: Tri): Tri {
    TriNot(TriAnd(TriNot(a), TriNot(b)))
  }

  /** How the engine compares values that are not NULL, and characters in a pattern; `show` is how a value reads as
      text. */
  datatype Engine = Engine(
    same: (Value, Value) -> bool, less: (Value, Value) -> bool, sameChar: (char, char) -> bool, show: Value -> string)

  function Equal(e: Engine, x: Value, v: Value): Tri {
    if x.Null? || v.Null? then Unknown else TriOf(e.same(x, v))
  }

  function Compared(e: Engine, op: FilterOperator, x: Value, v: Value): Tri {
    if x.Null? || v.Null? then Unknown
    else
      match op
      case Eq => TriOf(e.same(x, v))
      case Neq => TriOf(!e.same(x, v))
      case Lt => TriOf(e.less(x, v))
      case Lte => TriOf(e.less(x, v) || e.same(x, v))
      case Gt => TriOf(e.less(v, x))
      case Gte => TriOf(e.less(v, x) || e.same(x, v))
      case _ => Unknown
  }

  function Liked(e: Engine, x: Value, pattern: Value): Tri {
    if x.Null? || pattern.Null? then Unknown else TriOf(LikeMatch(e.show(pattern), e.show(x), e.sameChar))
  }

  /** `x = ANY (vs)`. */
  function AnyEqual(e: Engine, x: Value, vs: seq<Value>): Tri {
    if vs == [] then False else TriOr(AnyEqual(e, x, vs[..|vs| - 1]), Equal(e, x, vs[|vs| - 1]))
  }

  /** `x <> ALL (vs)`. */
  function AllDifferent(e: Engine, x: Value, vs: seq<Value>): Tri {
    if vs == [] then True else TriAnd(AllDifferent(e, x, vs[..|vs| - 1]), TriNot(Equal(e, x, vs[|vs| - 1])))
  }

  type Row = string -> Value

  function BoundOne(bound: seq<Param>, ph: nat): Value {
    if 0 < ph <= |bound| && bound[ph - 1].One? then bound[ph - 1].value else Null
  }

  function BoundAll(bound: seq<Param>, phs: seq<nat>): seq<Value> {
    seq(|phs|, i requires 0 <= i < |phs| => BoundOne(bound, phs[i]))
  }

  /** A condition under the bound parameters, placeholder `k` taking the `k`-th. */
  function Evaluate(e: Engine, f: Fragment, bound: seq<Param>, row: Row): Tri {
    match f
    case Compare(column, op, ph) => Compared(e, op, row(column), BoundOne(bound, ph))
    case Like(column, negated, ph) =>
      var liked := Liked(e, row(column), BoundOne(bound, ph));
      if negated then TriNot(liked) else liked
    case NullTest(column, negated) => TriOf(row(column).Null? != negated)
    case InArray(column, negated, ph) =>
      if 0 < ph <= |bound| && bound[ph - 1].Many?
      then if negated then AllDifferent(e, row(column), bound[ph - 1].values)
        else AnyEqual(e, row(column), bound[ph - 1].values)
      else Unknown
    case InList(column, negated, phs) =>
      var found := AnyEqual(e, row(column), BoundAll(bound, phs));
      if negated then TriNot(found) else found
    case Constant(holds) => TriOf(holds)
  }

  /** The clause: its conditions under AND or OR, from the left. */
  function EvaluateAll(e: Engine, fs: seq<Fragment>, or: bool, bound: seq<Param>, row: Row): Tri {
    if fs == [] then TriOf(!or)
    else
      var before, last := EvaluateAll(e, fs[..|fs| - 1], or, bound, row), Evaluate(e, fs[|fs| - 1], bound, row);
      if or then TriOr(before, last) else TriAnd(before, last)
  }

  /** What a condition asks of a row, with no clause and no parameters. */
  function Meaning(e: Engine, c: ColumnFilter, row: Row): Tri {
    var x := row(c.column);
    match c.operator
    case IsNull => TriOf(x.Null?)
    case IsNotNull => TriOf(!x.Null?)
    case In => AnyEqual(e, x, c.values)
    case NotIn => TriNot(AnyEqual(e, x, c.values))
    case Contains => if x.Null? then Unknown else TriOf(LikeMatch("%" + e.show(c.value) + "%", e.show(x), e.sameChar))
    case NotContains => if x.Null? then Unknown
      else TriOf(!LikeMatch("%" + e.show(c.value) + "%", e.show(x), e.sameChar))
    case StartsWith => if x.Null? then Unknown else TriOf(LikeMatch(e.show(c.value) + "%", e.show(x), e.sameChar))
    case NotStartsWith => if x.Null? then Unknown else TriOf(!LikeMatch(e.show(c.value) + "%", e.show(x), e.sameChar))
    case EndsWith => if x.Null? then Unknown else TriOf(LikeMatch("%" + e.show(c.value), e.show(x), e.sameChar))
    case NotEndsWith => if x.Null? then Unknown else TriOf(!LikeMatch("%" + e.show(c.value), e.show(x), e.sameChar))
    case _ => Compared(e, c.operator, x, c.value)
  }

  /** A conjunction holds when all do and fails when one does; a disjunction the other way round. */
  predicate Combines(rs: seq<Tri>, or: bool, r: Tri) {
    var (hit, miss) := if or then (True, False) else (False, True);
    && (r == hit <==> exists i :: 0 <= i < |rs| && rs[i] == hit)
    && (r == miss <==> forall i :: 0 <= i < |rs| ==> rs[i] == miss)
  }

  // ---- compiling ---------------------------------------------------------------------------------------------

  function Numbered(first: nat, count: nat): seq<nat> {
    seq(count, i requires 0 <= i < count => first + i)
  }

  function Ones(values: seq<Value>): seq<Param> {
    seq(|values|, i requires 0 <= i < |values| => One(values[i]))
  }

  function InListOf(
      column: string, values: seq<Value>, negated: bool, firstIndex: nat, dialect: Dialect): (Fragment, seq<Param>) {
    match dialect
    case ArrayDialect => (InArray(column, negated, firstIndex), [Many(values)])
    case ListDialect =>
      if values == [] then (Constant(negated), [])
      else (InList(column, negated, Numbered(firstIndex, |values|)), Ones(values))
  }

  function CompileSingleCondition(c: ColumnFilter, paramIndex: nat, dialect: Dialect, show: Value -> string)
    : (Fragment, seq<Param>)
  {
    match c.operator
    case Contains => (Like(c.column, false, paramIndex), [One(Text("%" + show(c.value) + "%"))])
    case NotContains => (Like(c.column, true, paramIndex), [One(Text("%" + show(c.value) + "%"))])
    case StartsWith => (Like(c.column, false, paramIndex), [One(Text(show(c.value) + "%"))])
    case NotStartsWith => (Like(c.column, true, paramIndex), [One(Text(show(c.value) + "%"))])
    case EndsWith => (Like(c.column, false, paramIndex), [One(Text("%" + show(c.value)))])
    case NotEndsWith => (Like(c.column, true, paramIndex), [One(Text("%" + show(c.value)))])
    case IsNull => (NullTest(c.column, false), [])
    case IsNotNull => (NullTest(c.column, true), [])
    case In => InListOf(c.column, c.values, false, paramIndex, dialect)
    case NotIn => InListOf(c.column, c.values, true, paramIndex, dialect)
    case _ => (Compare(c.column, c.operator, paramIndex), [One(c.value)])
  }

  function Compiled(
      cs: seq<ColumnFilter>, offset: nat, dialect: Dialect, show: Value -> string): (seq<Fragment>, seq<Param>) {
    if cs == [] then ([], [])
    else
      var (fs, ps) := Compiled(cs[..|cs| - 1], offset, dialect, show);
      var (f, more) := CompileSingleCondition(cs[|cs| - 1], offset + |ps| + 1, dialect, show);
      (fs + [f], ps + more)
  }

  lemma CompiledNothing(offset: nat, dialect: Dialect, show: Value -> string)
    ensures Compiled([], offset, dialect, show) == ([], [])
  {
  }

  lemma CompiledNext(cs: seq<ColumnFilter>, i: nat, offset: nat, dialect: Dialect, show: Value -> string)
    requires i < |cs|
    ensures var (fs, ps) := Compiled(cs[..i], offset, dialect, show);
            var (f, more) := CompileSingleCondition(cs[i], offset + |ps| + 1, dialect, show);
            Compiled(cs[..i + 1], offset, dialect, show) == (fs + [f], ps + more)
  {
    hide CompileSingleCondition;
    assert cs[..i + 1][..i] == cs[..i];
  }

  datatype Clause = NoClause | Where(or: bool, fragments: seq<Fragment>)

  datatype FilterError = UnknownColumn(column: string) | InvalidOperator(operator: FilterOperator, column: string)

  datatype Column = Column(name: string, dataType: string)

  /** The column is known, and its type takes the operator. */
  predicate Fits(c: ColumnFilter, columns: map<string, Column>) {
    c.column in columns && Allowed(TypeFamilyOf(columns[c.column].dataType), c.operator)
  }

  /** The first condition that does not fit the columns decides the error. */
  method CompileWhere(
      cs: seq<ColumnFilter>, or: bool, columns: seq<Column>, paramOffset: nat, dialect: Dialect, show: Value -> string)
    returns (r: Result<(Clause, seq<Param>), FilterError>)
    ensures var known := MapOf(columns, (c: Column) => c.name);
            && (r.Ok? <==> forall i :: 0 <= i < |cs| ==> Fits(cs[i], known))
            && (r.Ok? ==>
                  var (fs, ps) := Compiled(cs, paramOffset, dialect, show);
                  r.value == (if cs == [] then NoClause else Where(or, fs), ps))
            && (r.Err? ==>
                  exists i :: (&& 0 <= i < |cs| && !Fits(cs[i], known)
                               && (forall j :: 0 <= j < i ==> Fits(cs[j], known))
                               && r.error == if cs[i].column !in known then UnknownColumn(cs[i].column)
                                             else InvalidOperator(cs[i].operator, cs[i].column)))
  {
    hide TypeFamilyOf, Allowed, CompileSingleCondition, MapOf, Compiled;
    assert Compiled(cs[..0], paramOffset, dialect, show) == ([], []) by {
      CompiledNothing(paramOffset, dialect, show);
    }
    if |cs| == 0 {
      return Ok((NoClause, []));
    }
    var columnMap := MapOf(columns, (c: Column) => c.name);
    var fragments: seq<Fragment>, params: seq<Param> := [], [];
    for i := 0 to |cs|
      invariant (fragments, params) == Compiled(cs[..i], paramOffset, dialect, show)
      invariant forall j :: 0 <= j < i ==> Fits(cs[j], columnMap)
    {
      var condition := cs[i];
      CompiledNext(cs, i, paramOffset, dialect, show);
      if condition.column !in columnMap {
        return Err(UnknownColumn(condition.column));
      }
      var family := TypeFamilyOf(columnMap[condition.column].dataType);
      if !Allowed(family, condition.operator) {
        return Err(InvalidOperator(condition.operator, condition.column));
      }
      var paramIndex := paramOffset + |params| + 1;
      var (fragment, condParams) := CompileSingleCondition(condition, paramIndex, dialect, show);
      fragments := fragments + [fragment];
      params := params + condParams;
    }
    assert cs[..|cs|] == cs;
    return Ok((Where(or, fragments), params));
  }
}
