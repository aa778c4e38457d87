/** The string operations the program takes from its runtime: `trim`, `indexOf`, `split`, `join`. */
module Text {
  import opened Common

  /** The white space and line terminators that `String.prototype.trim` removes. */
  predicate IsWhitespace(c: char) {
    || '\t' <= c <= '\r'
    || c in {' ', '\U{00A0}', '\U{1680}', '\U{2028}', '\U{2029}', '\U{202F}', '\U{205F}', '\U{3000}', '\U{FEFF}'}
    || '\U{2000}' <= c <= '\U{200A}'
  }

  predicate Blank(s: string) {
    forall i :: 0 <= i < |s| ==> IsWhitespace(s[i])
  }

  function TrimStart(s: string): (r: string)
    ensures r != "" ==> !IsWhitespace(r[0])
    ensures |r| <= |s| && r == s[|s| - |r|..] && Blank(s[..|s| - |r|])
  {
    hide IsWhitespace;
    if s != "" && IsWhitespace(s[0]) then
      var r := TrimStart(s[1..]);
      assert s[..|s| - |r|] == [s[0]] + s[1..][..|s| - 1 - |r|];
      r
    else s
  }

  function TrimEnd(s: string): (r: string)
    ensures r != "" ==> !IsWhitespace(r[|r| - 1])
    ensures |r| <= |s| && r == s[..|r|] && Blank(s[|r|..])
  {
    hide IsWhitespace;
    if s != "" && IsWhitespace(s[|s| - 1]) then
      var r := TrimEnd(s[..|s| - 1]);
      assert s[|r|..] == s[..|s| - 1][|r|..] + [s[|s| - 1]];
      r
    else s
  }

  function Trim(s: string): string {
    TrimEnd(TrimStart(s))
  }

  /** No white space at either end. */
  predicate Trimmed(s: string) {
    s != "" ==> !IsWhitespace(s[0]) && !IsWhitespace(s[|s| - 1])
  }

  /** `Trim` removes exactly a blank prefix and a blank suffix. */
  lemma TrimParts(s: string) returns (before: string, after: string)
    ensures s == before + Trim(s) + after
    ensures Blank(before) && Blank(after) && Trimmed(Trim(s))
  {
    hide IsWhitespace, TrimStart, TrimEnd;
    var t := TrimStart(s);
    var r := TrimEnd(t);
    before, after := s[..|s| - |t|], t[|r|..];
    assert r != "" ==> r[0] == t[0];
  }

  lemma TrimBlank(s: string)
    ensures Trim(s) == "" <==> Blank(s)
  {
    hide IsWhitespace, Trim;
    var before, after := TrimParts(s);
    if Trim(s) == "" {
      assert s == before + after;
    } else {
      assert s[|before|] == Trim(s)[0];
    }
  }

  /** The trimmed text is determined by what it is padded with. */
  lemma TrimUnique(before: string, t: string, after: string)
    requires Blank(before) && Blank(after) && Trimmed(t)
    ensures Trim(before + t + after) == t
  {
    hide IsWhitespace, Trim;
    var s := before + t + after;
    var b, a := TrimParts(s);
    var u := Trim(s);
    if t == "" {
      assert s == before + after;
      BlankBoth(before, after);
      TrimBlank(s);
    } else {
      PaddedText(before, t, after);
      assert u != "" by { TrimBlank(s); }
      PaddedText(b, u, a);
      assert |b| == |before| && |a| == |after|;
      assert u == s[|b|..|s| - |a|] == t;
    }
  }

  lemma BlankBoth(a: string, b: string)
    requires Blank(a) && Blank(b)
    ensures Blank(a + b)
  {
    hide IsWhitespace;
  }

  /** Where the text begins and ends. */
  lemma PaddedText(before: string, t: string, after: string)
    requires Blank(before) && Blank(after) && Trimmed(t) && t != ""
    ensures var s, last := before + t + after, |before| + |t| - 1;
            && !IsWhitespace(s[|before|]) && !IsWhitespace(s[last]) && !Blank(s)
            && (forall i :: 0 <= i < |before| ==> IsWhitespace(s[i]))
            && (forall i :: last < i < |s| ==> IsWhitespace(s[i]))
  {
    hide IsWhitespace;
    var s := before + t + after;
    assert s[|before|] == t[0] && s[|before| + |t| - 1] == t[|t| - 1];
    assert forall i :: 0 <= i < |after| ==> s[|before| + |t| + i] == after[i];
    assert forall i :: |before| + |t| <= i < |s| ==> s[i] == after[i - |before| - |t|];
  }

  /** `p` occurs in `s` at position `k`. */
  predicate OccursAt(s: string, p: string, k: nat) {
    k + |p| <= |s| && s[k..k + |p|] == p
  }

  /** `s.indexOf(p, from)`: the first occurrence at or after `from`. */
  function IndexOf(s: string, p: string, from: nat): (r: Option<nat>)
    ensures r.Some? ==> from <= r.value && OccursAt(s, p, r.value)
    ensures r.Some? ==> forall k :: from <= k < r.value ==> !OccursAt(s, p, k)
    ensures r.None? ==> forall k :: from <= k ==> !OccursAt(s, p, k)
    decreases |s| - from
  {
    if from + |p| > |s| then None
    else if s[from..from + |p|] == p then Some(from)
    else IndexOf(s, p, from + 1)
  }

  /** Any first occurrence is the one `IndexOf` finds. */
  lemma IndexOfIs(s: string, p: string, from: nat, k: nat)
    requires from <= k && OccursAt(s, p, k)
    requires forall j :: from <= j < k ==> !OccursAt(s, p, j)
    ensures IndexOf(s, p, from) == Some(k)
  {
    var r := IndexOf(s, p, from);
    assert r.Some?;
  }

  function Join(parts: seq<string>, sep: string): string {
    if parts == [] then ""
    else if |parts| == 1 then parts[0]
    else parts[0] + sep + Join(parts[1..], sep)
  }

  // Of the letters outside ASCII none becomes a letter of the words that are looked up.
  function LowerChar(c: char): char {
    if 'A' <= c <= 'Z' then c - 'A' + 'a' else c
  }

  function Lower(s: string): string {
    seq(|s|, i requires 0 <= i < |s| => LowerChar(s[i]))
  }

  predicate IsCapital(c: char) {
    'A' <= c <= 'Z'
  }

  /** No capital is left, and each became the small letter at its place in the alphabet. */
  lemma LowerExactly(s: string)
    ensures |Lower(s)| == |s|
    ensures forall i :: 0 <= i < |s| ==>
              && !IsCapital(Lower(s)[i])
              && (if IsCapital(s[i]) then 'a' <= Lower(s)[i] <= 'z' && Lower(s)[i] - 'a' == s[i] - 'A'
                  else Lower(s)[i] == s[i])
  {
    hide IsCapital;
    forall i | 0 <= i < |s|
      ensures !IsCapital(Lower(s)[i])
      ensures if IsCapital(s[i]) then 'a' <= Lower(s)[i] <= 'z' && Lower(s)[i] - 'a' == s[i] - 'A'
              else Lower(s)[i] == s[i]
    {
      LowerOne(s[i]);
    }
  }

  lemma LowerOne(c: char)
    ensures !IsCapital(LowerChar(c))
    ensures if IsCapital(c) then 'a' <= LowerChar(c) <= 'z' && LowerChar(c) - 'a' == c - 'A' else LowerChar(c) == c
  {
  }
}
