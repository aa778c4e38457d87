/** SQL LIKE patterns, and what a value becomes when it is put into one. */
module LikePattern {
  import Text

  /** `%` matches any text, `_` any character, and a backslash takes the next character literally; `same` compares
      characters. */
  predicate LikeMatch(p: string, x: string, same: (char, char) -> bool)
    decreases |p| + |x|
  {
    if p == "" then x == ""
    else if p[0] == '%' then LikeMatch(p[1..], x, same) || (x != "" && LikeMatch(p, x[1..], same))
    else if p[0] == '_' then x != "" && LikeMatch(p[1..], x[1..], same)
    else if p[0] == '\\' then |p| >= 2 && x != "" && same(p[1], x[0]) && LikeMatch(p[2..], x[1..], same)
    else x != "" && same(p[0], x[0]) && LikeMatch(p[1..], x[1..], same)
  }

  predicate IsSpecial(c: char) {
    c == '%' || c == '_' || c == '\\'
  }

  /** Free of pattern characters. */
  predicate Plain(v: string) {
    forall i :: 0 <= i < |v| ==> !IsSpecial(v[i])
  }

  /** `v` stands at position `k` of `x`. */
  predicate StandsAt(v: string, x: string, k: nat, same: (char, char) -> bool) {
    k + |v| <= |x| && forall i :: 0 <= i < |v| ==> same(v[i], x[k + i])
  }

  predicate Contains(x: string, v: string, same: (char, char) -> bool) {
    exists k :: 0 <= k <= |x| && StandsAt(v, x, k, same)
  }

  predicate StartsWith(x: string, v: string, same: (char, char) -> bool) {
    StandsAt(v, x, 0, same)
  }

  predicate EndsWith(x: string, v: string, same: (char, char) -> bool) {
    |v| <= |x| && StandsAt(v, x, |x| - |v|, same)
  }

  /** A leading `%` skips any number of characters. */
  lemma {:induction false} SkipAny(q: string, x: string, same: (char, char) -> bool)
    ensures LikeMatch("%" + q, x, same) <==> exists k :: 0 <= k <= |x| && LikeMatch(q, x[k..], same)
    decreases |x|
  {
    var p := "%" + q;
    assert p[1..] == q && x[0..] == x;
    if x != "" {
      SkipAny(q, x[1..], same);
      if LikeMatch(p, x[1..], same) {
        var k :| 0 <= k <= |x[1..]| && LikeMatch(q, x[1..][k..], same);
        assert x[1..][k..] == x[k + 1..];
      }
      if k :| 0 < k <= |x| && LikeMatch(q, x[k..], same) {
        assert x[1..][k - 1..] == x[k..];
      }
    }
  }

  /** Plain text in a pattern matches itself. */
  lemma {:induction false} PlainThen(v: string, q: string, x: string, same: (char, char) -> bool)
    requires Plain(v)
    ensures LikeMatch(v + q, x, same) <==> StandsAt(v, x, 0, same) && LikeMatch(q, x[|v|..], same)
    decreases |v|
  {
    if v == "" {
      assert v + q == q && x[0..] == x;
    } else {
      assert !IsSpecial(v[0]) && (v + q)[0] == v[0] && (v + q)[1..] == v[1..] + q;
      if x != "" {
        PlainThen(v[1..], q, x[1..], same);
        assert |v| <= |x| ==> x[1..][|v[1..]|..] == x[|v|..];
        assert StandsAt(v, x, 0, same) <==> same(v[0], x[0]) && StandsAt(v[1..], x[1..], 0, same) by {
          StandsTail(v, x, same);
        }
      }
    }
  }

  lemma StandsTail(v: string, x: string, same: (char, char) -> bool)
    requires v != "" && x != ""
    ensures StandsAt(v, x, 0, same) <==> same(v[0], x[0]) && StandsAt(v[1..], x[1..], 0, same)
  {
    if StandsAt(v, x, 0, same) {
      assert same(v[0], x[0 + 0]);
      forall i | 0 <= i < |v[1..]|
        ensures same(v[1..][i], x[1..][0 + i])
      {
        assert same(v[i + 1], x[0 + (i + 1)]);
      }
    }
    if same(v[0], x[0]) && StandsAt(v[1..], x[1..], 0, same) {
      forall i | 0 <= i < |v|
        ensures same(v[i], x[0 + i])
      {
        assert i > 0 ==> same(v[1..][i - 1], x[1..][0 + (i - 1)]);
      }
    }
  }

  lemma AnyTail(x: string, same: (char, char) -> bool)
    ensures LikeMatch("%", x, same)
  {
    SkipAny("", x, same);
    assert "%" + "" == "%" && x[|x|..] == "";
  }

  lemma StandsShift(v: string, x: string, k: nat, same: (char, char) -> bool)
    requires k <= |x|
    ensures StandsAt(v, x[k..], 0, same) <==> StandsAt(v, x, k, same)
  {
  }

  /** For plain values the three patterns mean substring, prefix and suffix, whatever counts as the same character. */
  lemma PlainPatterns(v: string, x: string, same: (char, char) -> bool)
    requires Plain(v)
    ensures LikeMatch("%" + v + "%", x, same) <==> Contains(x, v, same)
    ensures LikeMatch(v + "%", x, same) <==> StartsWith(x, v, same)
    ensures LikeMatch("%" + v, x, same) <==> EndsWith(x, v, same)
  {
    hide LikeMatch, StandsAt, Plain;
    forall k | 0 <= k <= |x|
      ensures LikeMatch(v + "%", x[k..], same) <==> StandsAt(v, x, k, same)
    {
      PlainThen(v, "%", x[k..], same);
      StandsShift(v, x, k, same);
      StandsLength(v, x, k, same);
      if StandsAt(v, x, k, same) {
        AnyTail(x[k..][|v|..], same);
      }
    }
    assert x[0..] == x;
    assert "%" + v + "%" == "%" + (v + "%");
    SkipAny(v + "%", x, same);
    SkipAny(v, x, same);
    forall k | 0 <= k <= |x|
      ensures LikeMatch(v, x[k..], same) <==> StandsAt(v, x, k, same) && k + |v| == |x|
    {
      assert v + "" == v;
      PlainThen(v, "", x[k..], same);
      StandsShift(v, x, k, same);
      StandsLength(v, x, k, same);
      EmptyPattern(same);
    }
  }

  lemma StandsLength(v: string, x: string, k: nat, same: (char, char) -> bool)
    ensures StandsAt(v, x, k, same) ==> k + |v| <= |x|
  {
  }

  lemma EmptyPattern(same: (char, char) -> bool)
    ensures forall x :: LikeMatch("", x, same) <==> x == ""
  {
  }

  /** A text the pattern matches: nothing for `%`, an `a` for `_`, and the escaped characters. */
  function Instance(p: string): string {
    if p == "" then ""
    else if p[0] == '%' then Instance(p[1..])
    else if p[0] == '_' then "a" + Instance(p[1..])
    else if p[0] == '\\' then if |p| >= 2 then [p[1]] + Instance(p[2..]) else ""
    else [p[0]] + Instance(p[1..])
  }

  /** The pattern ends in the middle of an escape. */
  predicate Dangling(p: string) {
    p != "" && if p[0] == '\\' then |p| == 1 || Dangling(p[2..]) else Dangling(p[1..])
  }

  /** Every character matches itself, and a pattern character, taken literally, nothing else; ignoring case is such a
      relation. */
  ghost predicate Sensible(same: (char, char) -> bool) {
    (forall c :: same(c, c)) && forall c, d :: IsSpecial(c) && same(c, d) ==> d == c
  }

  lemma {:induction false} InstanceMatches(p: string, same: (char, char) -> bool)
    requires !Dangling(p) && Sensible(same)
    ensures LikeMatch(p, Instance(p), same)
    decreases |p|
  {
    if p != "" {
      if p[0] == '\\' {
        InstanceMatches(p[2..], same);
        assert Instance(p)[1..] == Instance(p[2..]);
      } else {
        InstanceMatches(p[1..], same);
        assert p[0] != '%' ==> Instance(p)[1..] == Instance(p[1..]);
      }
    }
  }

  lemma {:induction false} DanglingNever(p: string, x: string, same: (char, char) -> bool)
    requires Dangling(p)
    ensures !LikeMatch(p, x, same)
    decreases |p| + |x|
  {
    if p[0] == '%' {
      DanglingNever(p[1..], x, same);
      if x != "" {
        DanglingNever(p, x[1..], same);
      }
    } else if x != "" {
      if p[0] != '\\' {
        DanglingNever(p[1..], x[1..], same);
      } else if |p| >= 2 {
        DanglingNever(p[2..], x[1..], same);
      }
    }
  }

  lemma {:induction false} ClosedByPercent(v: string)
    ensures !Dangling(v + "%")
    decreases |v|
  {
    var p := v + "%";
    if v == "" {
      assert p[1..] == "";
    } else if v[0] == '\\' {
      if |v| >= 2 {
        assert p[2..] == v[2..] + "%";
        ClosedByPercent(v[2..]);
      } else {
        assert p[2..] == "";
      }
    } else {
      assert p[1..] == v[1..] + "%";
      ClosedByPercent(v[1..]);
    }
  }

  /** The instance is no longer than the value, and the value can only stand there if that is plain. */
  lemma {:induction false} InstanceShort(v: string, q: string, same: (char, char) -> bool)
    requires (q == "" || q == "%") && Sensible(same)
    ensures |Instance(v + q)| <= |v| && (StandsAt(v, Instance(v + q), 0, same) ==> Plain(v))
    decreases |v|
  {
    hide Sensible;
    var p, x := v + q, Instance(v + q);
    if v == "" {
      assert p == q;
      if q == "%" {
        assert q[1..] == "";
      }
    } else if v[0] == '\\' {
      if |v| >= 2 {
        assert p[2..] == v[2..] + q;
        InstanceShort(v[2..], q, same);
      } else {
        LoneEscape(v, q, same);
      }
    } else {
      assert p[1..] == v[1..] + q;
      InstanceShort(v[1..], q, same);
      if v[0] != '%' {
        assert x[1..] == Instance(p[1..]);
        if StandsAt(v, x, 0, same) {
          StandsTail(v, x, same);
          NotUnderscore(v, x, same);
        }
      }
    }
  }

  lemma LoneEscape(v: string, q: string, same: (char, char) -> bool)
    requires v == "\\" && (q == "" || q == "%") && Sensible(same)
    ensures |Instance(v + q)| <= 1 && !StandsAt(v, Instance(v + q), 0, same)
  {
    var x := Instance(v + q);
    if q == "%" {
      assert (v + q)[2..] == "" && x == "%" + Instance("") && x[0 + 0] == '%';
    }
  }

  lemma NotUnderscore(v: string, x: string, same: (char, char) -> bool)
    requires Sensible(same) && v != "" && x != "" && same(v[0], x[0]) && Plain(v[1..]) && v[0] != '%' && v[0] != '\\'
    requires v[0] == '_' ==> x[0] == 'a'
    ensures Plain(v)
  {
    assert forall i :: 1 <= i < |v| ==> v[i] == v[1..][i - 1];
  }

  lemma StandsItself(v: string, same: (char, char) -> bool)
    requires Sensible(same)
    ensures StandsAt(v, v, 0, same)
  {
  }

  /** Each pattern means what its operator is named after exactly for the values that are plain, also when case is
      ignored. */
  lemma PatternsExactly(v: string, same: (char, char) -> bool)
    requires Sensible(same)
    ensures (forall x :: LikeMatch("%" + v + "%", x, same) <==> Contains(x, v, same)) <==> Plain(v)
    ensures (forall x :: LikeMatch(v + "%", x, same) <==> StartsWith(x, v, same)) <==> Plain(v)
    ensures (forall x :: LikeMatch("%" + v, x, same) <==> EndsWith(x, v, same)) <==> Plain(v)
  {
    hide LikeMatch, StandsAt, Plain, Instance, Dangling, Sensible;
    if Plain(v) {
      forall x {
        PlainPatterns(v, x, same);
      }
    } else {
      NotSubstring(v, same);
      NotSuffix(v, same);
    }
  }

  lemma NotSubstring(v: string, same: (char, char) -> bool)
    requires !Plain(v) && Sensible(same)
    ensures exists x :: LikeMatch("%" + v + "%", x, same) && !Contains(x, v, same)
    ensures exists x :: LikeMatch(v + "%", x, same) && !StartsWith(x, v, same)
  {
    hide LikeMatch, StandsAt, Plain, Instance, Dangling, Sensible;
    var x := Instance(v + "%");
    ClosedByPercent(v);
    InstanceMatches(v + "%", same);
    InstanceShort(v, "%", same);
    SkipAny(v + "%", x, same);
    assert x[0..] == x && "%" + v + "%" == "%" + (v + "%");
    forall k | 0 <= k <= |x| && StandsAt(v, x, k, same)
      ensures k == 0
    {
      StandsLength(v, x, k, same);
    }
  }

  lemma NotSuffix(v: string, same: (char, char) -> bool)
    requires !Plain(v) && Sensible(same)
    ensures exists x :: LikeMatch("%" + v, x, same) != EndsWith(x, v, same)
  {
    hide LikeMatch, StandsAt, Plain, Instance, Dangling, Sensible;
    if Dangling(v) {
      SkipAny(v, v, same);
      forall k | 0 <= k <= |v|
        ensures !LikeMatch(v, v[k..], same)
      {
        DanglingNever(v, v[k..], same);
      }
      StandsItself(v, same);
      assert EndsWith(v, v, same);
    } else {
      var x := Instance(v);
      assert v + "" == v;
      InstanceMatches(v, same);
      InstanceShort(v, "", same);
      SkipAny(v, x, same);
      assert x[0..] == x;
      assert !EndsWith(x, v, same);
    }
  }

  lemma IgnoringCaseIsSensible()
    ensures Sensible((c, d) => Text.LowerChar(c) == Text.LowerChar(d))
  {
  }
}
