/** How a statement is classified for the read-only gate, and how it is executed. */
module QueryStatements {
  import opened Common
  import opened Text

  /** A parsed statement: an object with its `type` when that is a string, an array (no type), or a plain value. */
  datatype Ast = Leaf | Node(kind: Option<string>, children: seq<Ast>)

  /** A statement as the lexical checks and the parser see it: `explain` holds whether ANALYZE is among its options. */
  datatype Statement = Statement(text: string, explain: Option<bool>, ast: Option<Ast>, looksLikeSelect: bool)

  datatype Access = Read | Write

  datatype Route = PlanRoute | RowsRoute | CommandRoute

  const WRITE_STATEMENT_TYPES := {"insert", "update", "delete", "replace"}

  predicate IsWriteNode(n: Ast) {
    n.Node? && n.kind.Some? && Lower(n.kind.value) in WRITE_STATEMENT_TYPES
  }

  predicate ContainsWrite(n: Ast) {
    n.Node? && (IsWriteNode(n) || AnyContainsWrite(n.children))
  }

  predicate AnyContainsWrite(ns: seq<Ast>) {
    ns != [] && (ContainsWrite(ns[0]) || AnyContainsWrite(ns[1..]))
  }

  /** `m` is `n` or lies somewhere below it. */
  ghost predicate Within(m: Ast, n: Ast)
    decreases n
  {
    m == n || (n.Node? && exists i :: 0 <= i < |n.children| && Within(m, n.children[i]))
  }

  lemma {:induction false} AnyIsSome(ns: seq<Ast>)
    ensures AnyContainsWrite(ns) <==> exists i :: 0 <= i < |ns| && ContainsWrite(ns[i])
  {
    if ns != [] {
      AnyIsSome(ns[1..]);
      if i :| 0 <= i < |ns| && ContainsWrite(ns[i]) {
        assert i > 0 ==> ns[1..][i - 1] == ns[i];
      }
      if AnyContainsWrite(ns[1..]) {
        var i :| 0 <= i < |ns[1..]| && ContainsWrite(ns[1..][i]);
        assert ns[i + 1] == ns[1..][i];
      }
    }
  }

  /** The scan finds a write exactly when some node at any depth is one. */
  lemma {:induction false} ContainsWriteExactly(n: Ast)
    ensures ContainsWrite(n) <==> exists m :: Within(m, n) && IsWriteNode(m)
    decreases n
  {
    if n.Node? {
      AnyIsSome(n.children);
      forall i | 0 <= i < |n.children|
        ensures ContainsWrite(n.children[i]) <==> exists m :: Within(m, n.children[i]) && IsWriteNode(m)
      {
        ContainsWriteExactly(n.children[i]);
      }
      if ContainsWrite(n) && !IsWriteNode(n) {
        var i :| 0 <= i < |n.children| && ContainsWrite(n.children[i]);
        var m :| Within(m, n.children[i]) && IsWriteNode(m);
        assert Within(m, n);
      }
      if IsWriteNode(n) {
        assert Within(n, n);
      }
    }
  }

  predicate IsSelect(s: Statement) {
    s.ast.Some? && s.ast.value.Node? && s.ast.value.kind == Some("select")
  }

  predicate IsUnparsedSelect(s: Statement) {
    s.ast.None? && s.looksLikeSelect
  }

  /** The executor's own choice. */
  function RouteOf(s: Statement): Route {
    if s.explain.Some? then PlanRoute
    else if IsSelect(s) || IsUnparsedSelect(s) then RowsRoute
    else CommandRoute
  }

  function ClassifyStatement(s: Statement): Access {
    if s.explain.Some? then if s.explain.value then Write else Read
    else if s.ast.None? then if s.looksLikeSelect then Read else Write
    else if IsSelect(s) then if ContainsWrite(s.ast.value) then Write else Read
    else Write
  }

  /** Classification and execution agree: what is run as a command is a write, and a read is a plain plan or a pure
      SELECT. */
  lemma ReadExactly(s: Statement)
    ensures ClassifyStatement(s) == Read <==>
              match RouteOf(s)
              case CommandRoute => false
              case PlanRoute => !s.explain.value
              case RowsRoute => s.ast.Some? ==> forall m :: Within(m, s.ast.value) ==> !IsWriteNode(m)
  {
    if s.ast.Some? {
      ContainsWriteExactly(s.ast.value);
    }
  }
}
