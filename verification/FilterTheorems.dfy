/** A compiled filter means what its conditions mean. */
module FilterTheorems {
  import opened RowFilter
  import L = LikePattern

  function Placeholders(f: Fragment): seq<nat> {
    match f
    case Compare(_, _, ph) => [ph]
    case Like(_, _, ph) => [ph]
    case InArray(_, _, ph) => [ph]
    case InList(_, _, phs) => phs
    case NullTest(_, _) => []
    case Constant(_) => []
  }

  /** The placeholders of the clause, in the order they are written. */
  function AllPlaceholders(fs: seq<Fragment>): seq<nat> {
    if fs == [] then [] else AllPlaceholders(fs[..|fs| - 1]) + Placeholders(fs[|fs| - 1])
  }

  lemma SinglePlaceholders(c: ColumnFilter, index: nat, dialect: Dialect, show: Value -> string)
    ensures var (f, ps) := CompileSingleCondition(c, index, dialect, show); Placeholders(f) == Numbered(index, |ps|)
  {
  }

  /** In both dialects the placeholders count up from the offset, one for each parameter. */
  lemma {:induction false} PlaceholdersConsecutive(
      cs: seq<ColumnFilter>, offset: nat, dialect: Dialect, show: Value -> string)
    ensures var (fs, ps) := Compiled(cs, offset, dialect, show);
            |fs| == |cs| && AllPlaceholders(fs) == Numbered(offset + 1, |ps|)
  {
    hide CompileSingleCondition, Placeholders;
    if cs != [] {
      var init, c := cs[..|cs| - 1], cs[|cs| - 1];
      var (fs, ps) := Compiled(init, offset, dialect, show);
      var (f, more) := CompileSingleCondition(c, offset + |ps| + 1, dialect, show);
      PlaceholdersConsecutive(init, offset, dialect, show);
      SinglePlaceholders(c, offset + |ps| + 1, dialect, show);
      assert (fs + [f])[..|fs|] == fs;
    }
  }

  /** A value that is already text reads as itself. */
  ghost predicate ShowsText(show: Value -> string) {
    forall s: string :: show(Text(s)) == s
  }

  lemma {:induction false} NotAny(e: Engine, x: Value, vs: seq<Value>)
    ensures AllDifferent(e, x, vs) == TriNot(AnyEqual(e, x, vs))
  {
    if vs != [] {
      NotAny(e, x, vs[..|vs| - 1]);
    }
  }

  lemma BoundList(bound: seq<Param>, index: nat, values: seq<Value>)
    requires 0 < index && index - 1 + |values| <= |bound| && bound[index - 1..index - 1 + |values|] == Ones(values)
    ensures BoundAll(bound, Numbered(index, |values|)) == values
  {
    forall i | 0 <= i < |values|
      ensures BoundOne(bound, index + i) == values[i]
    {
      assert bound[index - 1 + i] == bound[index - 1..index - 1 + |values|][i];
    }
  }

  /** One condition, wherever its parameters are bound. */
  lemma SingleMeaning(e: Engine, c: ColumnFilter, index: nat, dialect: Dialect, bound: seq<Param>, row: Row)
    requires ShowsText(e.show) && 0 < index
    requires BoundAt(bound, index - 1, CompileSingleCondition(c, index, dialect, e.show).1)
    ensures Evaluate(e, CompileSingleCondition(c, index, dialect, e.show).0, bound, row) == Meaning(e, c, row)
  {
    hide L.LikeMatch, AnyEqual, AllDifferent;
    var (f, ps) := CompileSingleCondition(c, index, dialect, e.show);
    if |ps| == 1 {
      assert bound[index - 1] == bound[index - 1..index - 1 + |ps|][0] == ps[0];
    }
    if c.operator.In? || c.operator.NotIn? {
      NotAny(e, row(c.column), c.values);
      if dialect.ListDialect? {
        if c.values == [] {
          assert AnyEqual(e, row(c.column), []) == False by { NoneEqual(e, row(c.column)); }
        } else {
          BoundList(bound, index, c.values);
        }
      }
    }
  }

  lemma NoneEqual(e: Engine, x: Value)
    ensures AnyEqual(e, x, []) == False
  {
  }

  function Meanings(e: Engine, cs: seq<ColumnFilter>, row: Row): seq<Tri> {
    seq(|cs|, i requires 0 <= i < |cs| => Meaning(e, cs[i], row))
  }

  /** What the filter asks of a row: its conditions' meanings under AND or OR. */
  function MeaningAll(rs: seq<Tri>, or: bool): Tri {
    if rs == [] then TriOf(!or)
    else
      var before := MeaningAll(rs[..|rs| - 1], or);
      if or then TriOr(before, rs[|rs| - 1]) else TriAnd(before, rs[|rs| - 1])
  }

  lemma {:induction false} FoldCombines(rs: seq<Tri>, or: bool)
    ensures Combines(rs, or, MeaningAll(rs, or))
  {
    if rs != [] {
      var init := rs[..|rs| - 1];
      FoldCombines(init, or);
      var (hit, miss) := if or then (True, False) else (False, True);
      if i :| 0 <= i < |init| && init[i] == hit {
        assert rs[i] == hit;
      }
      assert forall i :: 0 <= i < |init| ==> init[i] == rs[i];
    }
  }

  predicate BoundAt(bound: seq<Param>, offset: nat, ps: seq<Param>) {
    offset + |ps| <= |bound| && bound[offset..offset + |ps|] == ps
  }

  lemma BoundParts(bound: seq<Param>, offset: nat, ps: seq<Param>, more: seq<Param>)
    requires BoundAt(bound, offset, ps + more)
    ensures BoundAt(bound, offset, ps) && BoundAt(bound, offset + |ps|, more)
  {
    var all := bound[offset..offset + |ps| + |more|];
    assert all[..|ps|] == bound[offset..offset + |ps|] && (ps + more)[..|ps|] == ps;
    assert all[|ps|..] == bound[offset + |ps|..offset + |ps| + |more|] && (ps + more)[|ps|..] == more;
  }

  lemma MeaningSnoc(e: Engine, cs: seq<ColumnFilter>, or: bool, row: Row)
    requires cs != []
    ensures var before, last := MeaningAll(Meanings(e, cs[..|cs| - 1], row), or), Meaning(e, cs[|cs| - 1], row);
            MeaningAll(Meanings(e, cs, row), or) == if or then TriOr(before, last) else TriAnd(before, last)
  {
    hide Meaning, TriOr, TriAnd;
    assert Meanings(e, cs, row)[..|cs| - 1] == Meanings(e, cs[..|cs| - 1], row);
  }

  lemma EvaluateSnoc(e: Engine, fs: seq<Fragment>, f: Fragment, or: bool, bound: seq<Param>, row: Row)
    ensures var before, last := EvaluateAll(e, fs, or, bound, row), Evaluate(e, f, bound, row);
            EvaluateAll(e, fs + [f], or, bound, row) == if or then TriOr(before, last) else TriAnd(before, last)
  {
    hide Evaluate, TriOr, TriAnd;
    assert (fs + [f])[..|fs|] == fs;
  }

  lemma {:induction false} ClauseUnder(
    e: Engine, cs: seq<ColumnFilter>, or: bool, dialect: Dialect, offset: nat, bound: seq<Param>, row: Row)
    requires ShowsText(e.show) && BoundAt(bound, offset, Compiled(cs, offset, dialect, e.show).1)
    ensures EvaluateAll(e, Compiled(cs, offset, dialect, e.show).0, or, bound, row)
            == MeaningAll(Meanings(e, cs, row), or)
    decreases |cs|
  {
    hide CompileSingleCondition, Evaluate, Meaning, ShowsText, TriOr, TriAnd, BoundAt;
    if cs != [] {
      var init, c := cs[..|cs| - 1], cs[|cs| - 1];
      var (fs, ps) := Compiled(init, offset, dialect, e.show);
      var index := offset + |ps| + 1;
      var (f, more) := CompileSingleCondition(c, index, dialect, e.show);
      BoundParts(bound, offset, ps, more);
      ClauseUnder(e, init, or, dialect, offset, bound, row);
      SingleMeaning(e, c, index, dialect, bound, row);
      EvaluateSnoc(e, fs, f, or, bound, row);
      MeaningSnoc(e, cs, or, row);
    }
  }

  /**
   * The clause, evaluated in three-valued logic with other parameters bound before and after its own, combines the
   * conditions' meanings, for both ways of binding a list.
   */
  lemma ClauseMeaning(
    e: Engine, cs: seq<ColumnFilter>, or: bool, dialect: Dialect, before: seq<Param>, after: seq<Param>, row: Row)
    requires ShowsText(e.show)
    ensures var (fs, ps) := Compiled(cs, |before|, dialect, e.show);
            Combines(Meanings(e, cs, row), or, EvaluateAll(e, fs, or, before + ps + after, row))
  {
    hide Compiled, EvaluateAll, Meanings, Combines, ShowsText;
    var ps := Compiled(cs, |before|, dialect, e.show).1;
    assert (before + ps + after)[|before|..|before| + |ps|] == ps;
    ClauseUnder(e, cs, or, dialect, |before|, before + ps + after, row);
    FoldCombines(Meanings(e, cs, row), or);
  }

  /** For a value free of pattern characters, `contains`, `startsWith` and `endsWith` mean substring, prefix and
      suffix. */
  lemma PlainMeaning(e: Engine, c: ColumnFilter, row: Row)
    requires L.Plain(e.show(c.value)) && row(c.column).Text? && ShowsText(e.show)
    ensures var x, v := row(c.column).text, e.show(c.value);
            && (c.operator.Contains? ==> Meaning(e, c, row) == TriOf(L.Contains(x, v, e.sameChar)))
            && (c.operator.NotContains? ==> Meaning(e, c, row) == TriOf(!L.Contains(x, v, e.sameChar)))
            && (c.operator.StartsWith? ==> Meaning(e, c, row) == TriOf(L.StartsWith(x, v, e.sameChar)))
            && (c.operator.NotStartsWith? ==> Meaning(e, c, row) == TriOf(!L.StartsWith(x, v, e.sameChar)))
            && (c.operator.EndsWith? ==> Meaning(e, c, row) == TriOf(L.EndsWith(x, v, e.sameChar)))
            && (c.operator.NotEndsWith? ==> Meaning(e, c, row) == TriOf(!L.EndsWith(x, v, e.sameChar)))
  {
    hide L.LikeMatch, L.Contains, L.StartsWith, L.EndsWith, L.Plain;
    L.PlainPatterns(e.show(c.value), row(c.column).text, e.sameChar);
  }
}
