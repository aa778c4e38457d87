/** Cutting a query plan down to a bounded number of nodes for the prompt. */
module PlanPruning {
  import opened Driver

  const PLAN_MAX_NODES := 60
  const PLAN_MAX_DEPTH := 12

  datatype Tree<T> = Node(data: T, children: seq<Tree<T>>)

  /** Without everything below the depth limit. */
  function Cut<T>(t: Tree<T>, depth: nat): Tree<T>
    decreases t
  {
    Node(t.data, if depth < PLAN_MAX_DEPTH then CutAll(t.children, depth + 1) else [])
  }

  function CutAll<T>(ts: seq<Tree<T>>, depth: nat): seq<Tree<T>>
    decreases ts
  {
    if ts == [] then [] else [Cut(ts[0], depth)] + CutAll(ts[1..], depth)
  }

  /** The nodes in preorder, each with its depth. */
  function Preorder<T>(t: Tree<T>, depth: nat): seq<(nat, T)>
    decreases t
  {
    [(depth, t.data)] + PreorderAll(t.children, depth + 1)
  }

  function PreorderAll<T>(ts: seq<Tree<T>>, depth: nat): seq<(nat, T)>
    decreases ts
  {
    if ts == [] then [] else Preorder(ts[0], depth) + PreorderAll(ts[1..], depth)
  }

  /** The walk as it threads the budget: what it keeps of a node and of a list of siblings, and the budget left. */
  function Walked<A, B>(t: Tree<A>, depth: nat, budget: int, strip: A -> B): (Tree<B>, int)
    decreases t
  {
    if depth < PLAN_MAX_DEPTH then
      var (children, left) := WalkedAll(t.children, depth + 1, budget - 1, strip);
      (Node(strip(t.data), children), left)
    else (Node(strip(t.data), []), budget - 1)
  }

  function WalkedAll<A, B>(ts: seq<Tree<A>>, depth: nat, budget: int, strip: A -> B): (seq<Tree<B>>, int)
    decreases ts
  {
    if ts == [] || budget <= 0 then ([], budget)
    else
      var (first, left) := Walked(ts[0], depth, budget, strip);
      var (others, last) := WalkedAll(ts[1..], depth, left, strip);
      ([first] + others, last)
  }

  lemma WalkedNone<A, B>(depth: nat, strip: A -> B)
    ensures forall budget: int :: WalkedAll([], depth, budget, strip) == ([], budget)
  {
  }

  lemma WalkedNext<A, B>(ts: seq<Tree<A>>, i: nat, depth: nat, budget: int, strip: A -> B)
    requires i < |ts|
    ensures WalkedAll(ts[i..], depth, budget, strip) ==
            if budget <= 0 then ([], budget)
            else
              var (first, left) := Walked(ts[i], depth, budget, strip);
              var (others, last) := WalkedAll(ts[i + 1..], depth, left, strip);
              ([first] + others, last)
  {
    hide Walked;
    assert ts[i..][0] == ts[i] && ts[i..][1..] == ts[i + 1..];
  }

  /** The walk with its shared budget. */
  class Sanitizer {
    var budget: int

    constructor ()
      ensures budget == PLAN_MAX_NODES
    {
      budget := PLAN_MAX_NODES;
    }

    /** `strip` keeps a node's type, its redacted detail, its costs and its row counts. */
    method Walk<A, B>(node: Tree<A>, depth: nat, strip: A -> B) returns (out: Tree<B>)
      modifies this
      ensures (out, budget) == Walked(node, depth, old(budget), strip)
      decreases node
    {
      hide WalkedAll;
      budget := budget - 1;
      var children: seq<Tree<B>> := [];
      if depth < PLAN_MAX_DEPTH {
        assert node.children[0..] == node.children;
        WalkedNone<A, B>(depth + 1, strip);
        ghost var all := WalkedAll(node.children, depth + 1, budget, strip).0;
        assert [] + all == all;
        for i := 0 to |node.children|
          invariant var (rest, left) := WalkedAll(node.children[i..], depth + 1, budget, strip);
                    (children + rest, left) == WalkedAll(node.children, depth + 1, old(budget) - 1, strip)
        {
          WalkedNext(node.children, i, depth + 1, budget, strip);
          if budget <= 0 {
            break;
          }
          var child := Walk(node.children[i], depth + 1, strip);
          ghost var rest := WalkedAll(node.children[i + 1..], depth + 1, budget, strip).0;
          assert children + ([child] + rest) == (children + [child]) + rest;
          children := children + [child];
        }
        assert node.children[|node.children|..] == [] && children + [] == children;
      }
      return Node(strip(node.data), children);
    }
  }

  function Stripped<A, B>(ns: seq<(nat, A)>, strip: A -> B): (r: seq<(nat, B)>)
    ensures |r| == |ns|
  {
    seq(|ns|, i requires 0 <= i < |ns| => (ns[i].0, strip(ns[i].1)))
  }

  /** The first `budget` nodes, stripped. */
  function FirstOf<A, B>(ns: seq<(nat, A)>, budget: nat, strip: A -> B): seq<(nat, B)> {
    Stripped(ns[..Min(budget, |ns|)], strip)
  }

  lemma FirstOfCons<A, B>(n: (nat, A), ns: seq<(nat, A)>, budget: nat, strip: A -> B)
    requires budget > 0
    ensures FirstOf([n] + ns, budget, strip) == [(n.0, strip(n.1))] + FirstOf(ns, budget - 1, strip)
  {
    assert ([n] + ns)[..Min(budget, |ns| + 1)] == [n] + ns[..Min(budget - 1, |ns|)];
  }

  lemma FirstOfSum<A, B>(a: seq<(nat, A)>, b: seq<(nat, A)>, budget: nat, strip: A -> B)
    ensures FirstOf(a + b, budget, strip) == FirstOf(a, budget, strip) + FirstOf(b, budget - Min(budget, |a|), strip)
  {
    if budget <= |a| {
      assert (a + b)[..budget] == a[..budget];
    } else {
      assert (a + b)[..Min(budget, |a| + |b|)] == a + b[..Min(budget - |a|, |b|)];
      assert a[..|a|] == a;
    }
  }

  /** The walk keeps the first nodes of the cut subtree, as many as the budget allows, and takes them off the budget. */
  lemma {:induction false} WalkPrefix<A, B>(t: Tree<A>, depth: nat, budget: nat, strip: A -> B)
    requires budget > 0
    ensures var (out, left) := Walked(t, depth, budget, strip);
            && Preorder(out, depth) == FirstOf(Preorder(Cut(t, depth), depth), budget, strip)
            && left == budget - Min(budget, |Preorder(Cut(t, depth), depth)|)
    decreases t
  {
    hide FirstOf;
    if depth < PLAN_MAX_DEPTH {
      var below := PreorderAll(CutAll(t.children, depth + 1), depth + 1);
      WalkAllPrefix(t.children, depth + 1, budget - 1, strip);
      FirstOfCons((depth, t.data), below, budget, strip);
    } else {
      FirstOfCons((depth, t.data), [], budget, strip);
      assert FirstOf([], budget - 1, strip) == [] by { FirstOfNone(budget - 1, strip); }
    }
  }

  lemma FirstOfNone<A, B>(budget: nat, strip: A -> B)
    ensures FirstOf([], budget, strip) == []
  {
  }

  lemma FirstOfZero<A, B>(ns: seq<(nat, A)>, strip: A -> B)
    ensures FirstOf(ns, 0, strip) == []
  {
  }

  lemma {:induction false} WalkAllPrefix<A, B>(ts: seq<Tree<A>>, depth: nat, budget: nat, strip: A -> B)
    ensures var (out, left) := WalkedAll(ts, depth, budget, strip);
            && PreorderAll(out, depth) == FirstOf(PreorderAll(CutAll(ts, depth), depth), budget, strip)
            && left == budget - Min(budget, |PreorderAll(CutAll(ts, depth), depth)|)
    decreases ts
  {
    hide FirstOf;
    if ts == [] {
      FirstOfNone(budget, strip);
    } else if budget == 0 {
      FirstOfZero(PreorderAll(CutAll(ts, depth), depth), strip);
    } else {
      var first := Preorder(Cut(ts[0], depth), depth);
      var others := PreorderAll(CutAll(ts[1..], depth), depth);
      assert CutAll(ts, depth)[1..] == CutAll(ts[1..], depth);
      WalkPrefix(ts[0], depth, budget, strip);
      WalkAllPrefix(ts[1..], depth, budget - Min(budget, |first|), strip);
      FirstOfSum(first, others, budget, strip);
      var (out, left) := WalkedAll(ts, depth, budget, strip);
      assert out[1..] == WalkedAll(ts[1..], depth, budget - Min(budget, |first|), strip).0;
    }
  }

  lemma {:induction false} DepthsBelow<T>(ts: seq<Tree<T>>, depth: nat)
    ensures forall i :: 0 <= i < |PreorderAll(ts, depth)| ==> PreorderAll(ts, depth)[i].0 >= depth
    decreases ts
  {
    if ts != [] {
      DepthsBelow(ts[0].children, depth + 1);
      DepthsBelow(ts[1..], depth);
      var below := PreorderAll(ts[0].children, depth + 1);
      assert Preorder(ts[0], depth) == [(depth, ts[0].data)] + below;
      assert forall i :: 0 <= i < |Preorder(ts[0], depth)| ==> Preorder(ts[0], depth)[i].0 >= depth;
    }
  }

  /** The nodes no deeper than `limit`. */
  function UpTo<T>(ns: seq<(nat, T)>, limit: nat): seq<(nat, T)> {
    if ns == [] then [] else OneUpTo(ns[0], limit) + UpTo(ns[1..], limit)
  }

  function OneUpTo<T>(n: (nat, T), limit: nat): seq<(nat, T)> {
    if n.0 <= limit then [n] else []
  }

  lemma {:induction false} UpToAppend<T>(a: seq<(nat, T)>, b: seq<(nat, T)>, limit: nat)
    ensures UpTo(a + b, limit) == UpTo(a, limit) + UpTo(b, limit)
  {
    hide OneUpTo;
    if a == [] {
      assert a + b == b;
    } else {
      assert (a + b)[1..] == a[1..] + b && (a + b)[0] == a[0];
      UpToAppend(a[1..], b, limit);
      var x, y, z := OneUpTo(a[0], limit), UpTo(a[1..], limit), UpTo(b, limit);
      assert x + (y + z) == (x + y) + z;
    }
  }

  lemma {:induction false} UpToNone<T>(ns: seq<(nat, T)>, limit: nat)
    requires forall i :: 0 <= i < |ns| ==> ns[i].0 > limit
    ensures UpTo(ns, limit) == []
  {
    if ns != [] {
      UpToNone(ns[1..], limit);
    }
  }

  /** Cutting a plan drops exactly the nodes below the depth limit. */
  lemma {:induction false} CutKeeps<T>(t: Tree<T>, depth: nat)
    requires depth <= PLAN_MAX_DEPTH
    ensures Preorder(Cut(t, depth), depth) == UpTo(Preorder(t, depth), PLAN_MAX_DEPTH)
    decreases t
  {
    var below := PreorderAll(t.children, depth + 1);
    UpToAppend([(depth, t.data)], below, PLAN_MAX_DEPTH);
    assert UpTo([(depth, t.data)], PLAN_MAX_DEPTH) == [(depth, t.data)] + UpTo([], PLAN_MAX_DEPTH);
    if depth < PLAN_MAX_DEPTH {
      CutAllKeeps(t.children, depth + 1);
    } else {
      DepthsBelow(t.children, depth + 1);
      UpToNone(below, PLAN_MAX_DEPTH);
    }
  }

  lemma {:induction false} CutAllKeeps<T>(ts: seq<Tree<T>>, depth: nat)
    requires depth <= PLAN_MAX_DEPTH
    ensures PreorderAll(CutAll(ts, depth), depth) == UpTo(PreorderAll(ts, depth), PLAN_MAX_DEPTH)
    decreases ts
  {
    if ts != [] {
      CutKeeps(ts[0], depth);
      CutAllKeeps(ts[1..], depth);
      UpToAppend(Preorder(ts[0], depth), PreorderAll(ts[1..], depth), PLAN_MAX_DEPTH);
      assert CutAll(ts, depth)[1..] == CutAll(ts[1..], depth);
    }
  }

  /** The sanitised plan lists in preorder, with their depths, the first 60 of the plan's nodes that are no deeper than
      12. */
  lemma PlanIsPreorderPrefix<A, B>(root: Tree<A>, strip: A -> B)
    ensures Preorder(Walked(root, 0, PLAN_MAX_NODES, strip).0, 0) == FirstOf(UpTo(Preorder(root, 0), 12), 60, strip)
  {
    WalkPrefix(root, 0, PLAN_MAX_NODES, strip);
    CutKeeps(root, 0);
  }

  method SanitizePlanForPrompt<A, B>(root: Tree<A>, strip: A -> B) returns (out: Tree<B>)
    ensures out == Walked(root, 0, PLAN_MAX_NODES, strip).0
    ensures Preorder(out, 0) == FirstOf(UpTo(Preorder(root, 0), 12), 60, strip)
  {
    PlanIsPreorderPrefix(root, strip);
    var sanitizer := new Sanitizer();
    out := sanitizer.Walk(root, 0, strip);
  }

  lemma NotBefore<T>(a: seq<(nat, T)>, b: seq<(nat, T)>, c: seq<(nat, T)>, d: seq<(nat, T)>, depth: nat)
    requires a + b == c + d && a != []
    requires (b != [] ==> b[0].0 == depth) && forall i :: 0 < i < |c| ==> c[i].0 > depth
    ensures |a| >= |c|
  {
    assert forall i :: 0 <= i < |c| ==> (c + d)[i] == c[i];
    assert b != [] ==> (a + b)[|a|] == b[0];
  }

  /** Where the first subtree ends: at the next node of its own depth. */
  lemma SubtreeEnds<T>(t: Tree<T>, rest: seq<Tree<T>>, u: Tree<T>, more: seq<Tree<T>>, depth: nat)
    requires Preorder(t, depth) + PreorderAll(rest, depth) == Preorder(u, depth) + PreorderAll(more, depth)
    ensures Preorder(t, depth) == Preorder(u, depth) && PreorderAll(rest, depth) == PreorderAll(more, depth)
  {
    hide Preorder;
    var a, b, c, d := Preorder(t, depth), PreorderAll(rest, depth), Preorder(u, depth), PreorderAll(more, depth);
    SubtreeShape(t, depth);
    SubtreeShape(u, depth);
    FirstDepth(rest, depth);
    FirstDepth(more, depth);
    NotBefore(a, b, c, d, depth);
    NotBefore(c, d, a, b, depth);
    var s := a + b;
    assert a == s[..|a|] && b == s[|a|..] && c == (c + d)[..|c|] && d == (c + d)[|c|..];
  }

  lemma SubtreeShape<T>(t: Tree<T>, depth: nat)
    ensures Preorder(t, depth) != [] && Preorder(t, depth)[0] == (depth, t.data)
    ensures forall i :: 0 < i < |Preorder(t, depth)| ==> Preorder(t, depth)[i].0 > depth
  {
    DepthsBelow(t.children, depth + 1);
  }

  lemma FirstDepth<T>(ts: seq<Tree<T>>, depth: nat)
    ensures ts != [] ==> PreorderAll(ts, depth) != [] && PreorderAll(ts, depth)[0].0 == depth
  {
  }

  /** Preorder with depths fixes the tree, so the prefix above keeps every parent edge and every sibling order. */
  lemma {:induction false} PreorderFixesTree<T>(t: Tree<T>, u: Tree<T>, depth: nat)
    requires Preorder(t, depth) == Preorder(u, depth)
    ensures t == u
    decreases t
  {
    var a, b := Preorder(t, depth), Preorder(u, depth);
    assert a[0] == (depth, t.data) && b[0] == (depth, u.data);
    assert a[1..] == PreorderAll(t.children, depth + 1) && b[1..] == PreorderAll(u.children, depth + 1);
    PreorderFixesTrees(t.children, u.children, depth + 1);
  }

  lemma {:induction false} PreorderFixesTrees<T>(ts: seq<Tree<T>>, us: seq<Tree<T>>, depth: nat)
    requires PreorderAll(ts, depth) == PreorderAll(us, depth)
    ensures ts == us
    decreases ts
  {
    FirstDepth(ts, depth);
    FirstDepth(us, depth);
    if ts != [] && us != [] {
      SubtreeEnds(ts[0], ts[1..], us[0], us[1..], depth);
      PreorderFixesTree(ts[0], us[0], depth);
      PreorderFixesTrees(ts[1..], us[1..], depth);
      assert ts == [ts[0]] + ts[1..] && us == [us[0]] + us[1..];
    }
  }
}
