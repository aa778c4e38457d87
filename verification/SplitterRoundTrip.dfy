/** What splitting promises: each statement splits to itself, and the list can be joined and split again. */
module SplitterRoundTrip {
  import opened Common
  import opened Text
  import opened StatementLexer

  // ---- the machine over a prefix -----------------------------------------------------------------------------

  ghost function After(mode: Mode, s: string, n: nat): Mode
    requires n <= |s|
    decreases n
  {
    if n == 0 then mode else After(Next(mode, s), s[1..], n - 1)
  }

  /** No semicolon among the first `n` characters ends a statement. */
  ghost predicate NoCut(mode: Mode, s: string, n: nat)
    requires n <= |s|
    decreases n
  {
    n == 0 || (!(s[0] == ';' && AtTop(mode)) && NoCut(Next(mode, s), s[1..], n - 1))
  }

  lemma {:induction false} Compose(mode: Mode, s: string, m: nat, n: nat)
    requires m + n <= |s|
    ensures After(mode, s, m + n) == After(After(mode, s, m), s[m..], n)
    ensures NoCut(mode, s, m + n) <==> NoCut(mode, s, m) && NoCut(After(mode, s, m), s[m..], n)
    decreases m
  {
    hide Next;
    if m == 0 {
      assert s[0..] == s;
    } else {
      Compose(Next(mode, s), s[1..], m - 1, n);
      assert s[1..][m - 1..] == s[m..];
    }
  }

  lemma {:induction false} PiecesSkip(mode: Mode, s: string, n: nat)
    requires n <= |s| && NoCut(mode, s, n)
    ensures Pieces(mode, s) == Glue(s[..n], Pieces(After(mode, s, n), s[n..]))
    decreases n
  {
    hide Next;
    if n == 0 {
      GlueNothing(Pieces(mode, s));
      assert s[0..] == s;
    } else {
      var next := Next(mode, s);
      PiecesSkip(next, s[1..], n - 1);
      var rest := Pieces(After(mode, s, n), s[n..]);
      assert s[1..][n - 1..] == s[n..];
      GlueGlue(s[..1], s[1..][..n - 1], rest);
      assert s[..1] + s[1..][..n - 1] == s[..n];
    }
  }

  /** A prefix without a cut is followed by the end of the script or by a cut. */
  lemma {:induction false} FirstCut(mode: Mode, s: string) returns (n: nat)
    ensures n <= |s| && NoCut(mode, s, n) && (n < |s| ==> s[n] == ';' && AtTop(After(mode, s, n)))
    decreases s
  {
    hide Next, AtTop;
    if s == "" || (s[0] == ';' && AtTop(mode)) {
      n := 0;
    } else {
      n := FirstCut(Next(mode, s), s[1..]);
      n := n + 1;
    }
  }

  /** The first piece is such a prefix. */
  lemma FirstPiece(mode: Mode, s: string) returns (n: nat)
    ensures n <= |s| && NoCut(mode, s, n) && Pieces(mode, s)[0] == s[..n]
    ensures n == |s| ==> Pieces(mode, s) == [s]
    ensures n < |s| ==> s[n] == ';' && AtTop(After(mode, s, n)) && Pieces(mode, s) == [s[..n]] + Pieces(Top, s[n + 1..])
  {
    hide Next, AtTop, After, NoCut;
    n := FirstCut(mode, s);
    PiecesSkip(mode, s, n);
    assert s[..n] + "" == s[..n];
    if n < |s| {
      assert s[n..][1..] == s[n + 1..];
    } else {
      assert s[n..] == "" && s[..n] == s;
    }
  }

  // ---- dollar literals ---------------------------------------------------------------------------------------

  /** The shape of `$tag$`. */
  predicate IsDelimiter(d: string) {
    && |d| >= 2 && d[0] == '$' && d[|d| - 1] == '$'
    && (forall i :: 1 <= i < |d| - 1 ==> IsTagChar(d[i]))
    && (|d| > 2 ==> IsTagStart(d[1]))
  }

  lemma {:induction false} TagRunIs(s: string, n: nat)
    requires n < |s| && (forall i :: 0 <= i < n ==> IsTagChar(s[i])) && !IsTagChar(s[n])
    ensures TagRun(s) == n
    decreases n
  {
    if n > 0 {
      TagRunIs(s[1..], n - 1);
    }
  }

  lemma DelimiterIs(s: string, d: string)
    ensures Delimiter(s) == Some(d) <==> IsDelimiter(d) && d <= s
  {
    hide IsTagStart;
    if IsDelimiter(d) && d <= s {
      DelimiterFound(s, d);
    }
    if Delimiter(s) == Some(d) {
      assert d == s[..|d|];
      forall i | 1 <= i < |d| - 1 ensures IsTagChar(d[i]) {
        assert d[i] == s[1..][i - 1];
      }
      assert |d| > 2 ==> d[1] == s[1] && IsTagStart(s[1]);
    }
  }

  lemma DelimiterFound(s: string, d: string)
    requires IsDelimiter(d) && d <= s
    ensures Delimiter(s) == Some(d)
  {
    hide IsTagStart;
    var n := |d| - 2;
    assert !IsTagStart('$') && !IsTagChar('$') by { DollarIsNoTag(); }
    forall i | 0 <= i < |d| ensures s[i] == d[i] {}
    if n > 0 {
      forall i | 0 <= i < n ensures IsTagChar(s[1..][i]) { assert s[1..][i] == d[i + 1]; }
      assert s[1..][n] == d[n + 1];
      TagRunIs(s[1..], n);
    }
    assert s[..n + 2] == d;
  }

  lemma DollarIsNoTag()
    ensures !IsTagStart('$') && !IsTagChar('$')
  {
  }

  /** `d` opens a literal at the start of `s` and closes it at `k`. */
  predicate Closes(s: string, d: string, k: nat) {
    IsDelimiter(d) && d <= s && |d| <= k && OccursAt(s, d, k)
  }

  lemma DollarSome(s: string, d: string, k: nat)
    requires Closes(s, d, k)
    ensures DollarLength(s).Some? && DollarLength(s).value <= k + |d|
  {
    hide IsDelimiter, Delimiter;
    DelimiterIs(s, d);
  }

  lemma DollarParts(s: string) returns (d: string, k: nat)
    requires DollarLength(s).Some?
    ensures Closes(s, d, k) && DollarLength(s) == Some(k + |d|)
    ensures forall j :: |d| <= j < k ==> !OccursAt(s, d, j)
  {
    hide IsDelimiter, Delimiter;
    d := Delimiter(s).value;
    DelimiterIs(s, d);
    k := IndexOf(s, d, |d|).value;
  }

  /** A literal that ends within `u` does not depend on what follows `u`. */
  lemma DollarLocal(u: string, r: string, r': string)
    requires DollarLength(u + r).Some? && DollarLength(u + r).value <= |u|
    ensures DollarLength(u + r') == DollarLength(u + r)
  {
    hide IsDelimiter, DollarLength, OccursAt;
    var s, s' := u + r, u + r';
    var d, k := DollarParts(s);
    forall j: nat | j <= k ensures OccursAt(s, d, j) == OccursAt(s', d, j) {
      OccursBefore(d, u, r, r', j);
    }
    assert d == s[..|d|] == u[..|d|] == s'[..|d|];
    DollarSome(s', d, k);
    var d', k' := DollarParts(s');
    DelimiterIs(s', d);
    DelimiterIs(s', d');
  }

  lemma OccursBefore(d: string, u: string, r: string, r': string, j: nat)
    requires j + |d| <= |u|
    ensures OccursAt(u + r, d, j) == OccursAt(u + r', d, j)
  {
    assert (u + r)[j..j + |d|] == u[j..j + |d|] == (u + r')[j..j + |d|];
  }

  // ---- a mode of a dollar literal always ends at a dollar ------------------------------------------------------

  ghost predicate Sound(mode: Mode, s: string) {
    mode.Body? ==> 0 < mode.left <= |s| && s[mode.left - 1] == '$'
  }

  lemma {:induction false} AfterSound(mode: Mode, s: string, n: nat)
    requires n <= |s| && Sound(mode, s)
    ensures Sound(After(mode, s, n), s[n..])
    decreases n
  {
    if n == 0 {
      assert s[0..] == s;
    } else {
      NextSound(mode, s);
      AfterSound(Next(mode, s), s[1..], n - 1);
      assert s[1..][n - 1..] == s[n..];
    }
  }

  lemma NextSound(mode: Mode, s: string)
    requires s != "" && Sound(mode, s)
    ensures Sound(Next(mode, s), s[1..])
  {
    hide DollarLength;
    if FromTop(s).Body? {
      assert s[1..][FromTop(s).left - 1] == s[FromTop(s).left];
    }
  }

  lemma {:induction false} BodyLasts(left: nat, s: string, n: nat)
    requires n <= |s| && n < left
    ensures After(Body(left), s, n) == Body(left - n)
    decreases n
  {
    if n > 0 {
      BodyLasts(left - 1, s[1..], n - 1);
    }
  }

  // ---- the same prefix in another text ---------------------------------------------------------------------------

  /** Changing what follows `u` from `r` to `r'` closes no dollar literal that was open. */
  ghost predicate OpensNothing(u: string, r: string, r': string) {
    forall i :: 0 <= i < |u| ==> DollarLength(u[i..] + r).None? ==> DollarLength(u[i..] + r').None?
  }

  lemma {:induction false} Transplant(mode: Mode, u: string, r: string, r': string)
    requires !After(mode, u + r, |u|).Body? && OpensNothing(u, r, r')
    ensures After(mode, u + r', |u|) == After(mode, u + r, |u|)
    ensures NoCut(mode, u + r', |u|) <==> NoCut(mode, u + r, |u|)
    decreases u
  {
    hide Next, DollarLength;
    if u != "" {
      var s, s' := u + r, u + r';
      var v := u[1..];
      assert s[1..] == v + r && s'[1..] == v + r';
      assert u[0..] == u;
      assert Next(mode, s) == Next(mode, s') by {
        SameNext(mode, u, r, r');
      }
      forall i | 0 <= i < |v| ensures DollarLength(v[i..] + r).None? ==> DollarLength(v[i..] + r').None? {
        assert v[i..] == u[i + 1..];
      }
      Transplant(Next(mode, s), v, r, r');
    }
  }

  lemma SameNext(mode: Mode, u: string, r: string, r': string)
    requires u != "" && !After(mode, u + r, |u|).Body?
    requires DollarLength(u + r).None? ==> DollarLength(u + r').None?
    ensures Next(mode, u + r) == Next(mode, u + r')
  {
    hide DollarLength;
    var s, s' := u + r, u + r';
    assert s[0] == s'[0] == u[0];
    if Next(mode, s) != Next(mode, s') {
      assert s[0] == '$' && Next(mode, s) == FromTop(s);
      var n := DollarLength(s).value;
      if n <= |u| {
        DollarLocal(u, r, r');
      } else {
        BodyLasts(n - 1, s[1..], |u| - 1);
      }
      assert false;
    }
  }

  // ---- white space -------------------------------------------------------------------------------------------------

  lemma WhitespaceIsPlain(c: char)
    requires IsWhitespace(c)
    ensures c !in {'-', '/', '*', '\'', '"', '$', ';'} && !IsTagChar(c)
  {
  }

  lemma {:induction false} BlankAtTop(w: string, r: string)
    requires Blank(w)
    ensures NoCut(Top, w + r, |w|) && After(Top, w + r, |w|) == Top
    decreases w
  {
    hide IsWhitespace;
    if w != "" {
      WhitespaceIsPlain(w[0]);
      assert (w + r)[1..] == w[1..] + r;
      BlankAtTop(w[1..], r);
    }
  }

  /** A comment or a literal that white space cannot end. */
  predicate Stuck(mode: Mode) {
    mode.Block? || mode.BlockSlash? || mode.BlockStar? || (mode.Quote? && mode.mark in {'\'', '"'})
  }

  lemma {:induction false} BlankStuck(mode: Mode, w: string, r: string)
    requires Blank(w) && Stuck(mode)
    ensures Stuck(After(mode, w + r, |w|))
    decreases w
  {
    hide IsWhitespace;
    if w != "" {
      WhitespaceIsPlain(w[0]);
      assert (w + r)[1..] == w[1..] + r;
      BlankStuck(Next(mode, w + r), w[1..], r);
    }
  }

  /** Quotation marks are the only marks. */
  predicate Proper(mode: Mode) {
    (mode.Quote? || mode.QuoteMark?) ==> mode.mark in {'\'', '"'}
  }

  lemma {:induction false} AfterProper(mode: Mode, s: string, n: nat)
    requires n <= |s| && Proper(mode)
    ensures Proper(After(mode, s, n))
    decreases n
  {
    hide DollarLength;
    if n > 0 {
      AfterProper(Next(mode, s), s[1..], n - 1);
    }
  }

  /** White space does not end a dollar literal, which ends at a dollar. */
  lemma BlankBody(mode: Mode, w: string, r: string)
    requires mode.Body? && Sound(mode, w + r) && Blank(w)
    ensures r != "" && After(mode, w + r, |w|).Body?
  {
    hide IsWhitespace;
    if mode.left <= |w| {
      assert (w + r)[mode.left - 1] == w[mode.left - 1];
      WhitespaceIsPlain(w[mode.left - 1]);
      assert false;
    }
    BodyLasts(mode.left, w + r, |w|);
  }

  // ---- one trimmed piece -------------------------------------------------------------------------------------------

  /** A piece is a trimmed text in white space; `r` is what follows the text, `mode` the mode the text ends in. */
  lemma TrimmedPiece(s: string, n: nat) returns (before: string, t: string, r: string, mode: Mode)
    requires n <= |s| && NoCut(Top, s, n)
    requires n < |s| ==> AtTop(After(Top, s, n))
    ensures t == Trim(s[..n]) && Trimmed(t)
    ensures s == before + (t + r) && |before| + |t| <= n
    ensures NoCut(Top, t + r, |t|) && mode == After(Top, t + r, |t|) && Proper(mode) && !mode.Body?
    ensures n < |s| ==> AtTop(mode) || mode.Line?
  {
    hide IsWhitespace, Next, Trim, AtTop, Proper, Trimmed, Blank, After, NoCut;
    var after;
    before, t, after := Decompose(s, n);
    r := after + s[n..];
    mode := After(Top, t + r, |t|);
    PieceModes(before, t, after, s[n..]);
  }

  lemma Decompose(s: string, n: nat) returns (before: string, t: string, after: string)
    requires n <= |s|
    ensures t == Trim(s[..n]) && Trimmed(t) && Blank(before) && Blank(after)
    ensures s == before + (t + (after + s[n..])) && |before| + |t| + |after| == n
  {
    hide IsWhitespace, Trim, Trimmed, Blank;
    before, after := TrimParts(s[..n]);
    t := Trim(s[..n]);
    assert s == s[..n] + s[n..];
  }

  lemma PieceModes(before: string, t: string, after: string, tail: string)
    requires Blank(before) && Blank(after)
    requires var s, n := before + (t + (after + tail)), |before| + |t| + |after|;
             NoCut(Top, s, n) && (tail != "" ==> AtTop(After(Top, s, n)))
    ensures var u := t + (after + tail);
            var mode := After(Top, u, |t|);
            && NoCut(Top, u, |t|) && Proper(mode) && !mode.Body?
            && (tail != "" ==> AtTop(mode) || mode.Line?)
  {
    hide IsWhitespace, Next, AtTop, Proper, Sound, Blank, After, NoCut;
    var r := after + tail;
    SkipBefore(before, t, after, tail);
    SoundTop(t + r);
    AfterSound(Top, t + r, |t|);
    ProperTop();
    AfterProper(Top, t + r, |t|);
    assert (t + r)[|t|..] == r;
    EndOfPiece(After(Top, t + r, |t|), after, tail);
  }

  lemma SoundTop(s: string)
    ensures Sound(Top, s)
  {
  }

  lemma ProperTop()
    ensures Proper(Top)
  {
  }

  /** White space before a piece leaves the machine at the top level. */
  lemma SkipBefore(before: string, t: string, after: string, tail: string)
    requires Blank(before)
    requires var s := before + (t + (after + tail)); NoCut(Top, s, |before| + |t| + |after|)
    ensures var u, r := t + (after + tail), after + tail;
            && NoCut(Top, u, |t|)
            && After(Top, before + u, |before| + |t| + |after|) == After(After(Top, u, |t|), r, |after|)
  {
    hide IsWhitespace, Next, AtTop, Blank;
    var r := after + tail;
    var u := t + r;
    var s := before + u;
    BlankAtTop(before, u);
    assert s[|before|..] == u && u[|t|..] == r;
    Compose(Top, s, |before|, |t| + |after|);
    Compose(Top, u, |t|, |after|);
  }

  /** The modes a trimmed piece can end in. */
  lemma EndOfPiece(mode: Mode, after: string, tail: string)
    requires Sound(mode, after + tail) && Proper(mode) && Blank(after)
    requires tail != "" ==> AtTop(After(mode, after + tail, |after|))
    ensures !mode.Body? && (tail != "" ==> AtTop(mode) || mode.Line?)
  {
    hide IsWhitespace, Next, Blank;
    if mode.Body? {
      BlankBody(mode, after, tail);
      assert false;
    }
    if tail != "" && Stuck(mode) {
      BlankStuck(mode, after, tail);
      assert false;
    }
  }

  lemma EndOpensNothing(t: string, r: string)
    ensures OpensNothing(t, r, "")
  {
    hide IsDelimiter, DollarLength;
    forall i | 0 <= i < |t| ensures DollarLength(t[i..] + r).None? ==> DollarLength(t[i..] + "").None? {
      var v := t[i..];
      assert v + "" == v;
      if DollarLength(v).Some? {
        var d, k := DollarParts(v);
        assert (v + r)[k..k + |d|] == v[k..k + |d|];
        DollarSome(v + r, d, k);
      }
    }
  }

  /** A statement taken from a script splits to itself alone. */
  lemma AloneFromPiece(t: string, r: string)
    requires t != "" && Trimmed(t)
    requires NoCut(Top, t + r, |t|) && !After(Top, t + r, |t|).Body?
    ensures Split(t) == [t]
  {
    hide IsWhitespace, Next, DollarLength, Trim, Pieces;
    EndOpensNothing(t, r);
    Transplant(Top, t, r, "");
    assert t + "" == t;
    PiecesSkip(Top, t, |t|);
    assert t[|t|..] == "" && t[..|t|] == t;
    TrimUnique("", t, "");
    assert "" + t + "" == t;
    assert Pieces(After(Top, t, |t|), "") == [""] by { PiecesOfNothing(After(Top, t, |t|)); }
    assert Statements([t][1..]) == [];
  }

  lemma PiecesOfNothing(mode: Mode)
    ensures Pieces(mode, "") == [""]
  {
  }

  // ---- the list of statements -------------------------------------------------------------------------------------

  /** What one raw piece contributes to the list. */
  function Kept(piece: string): seq<string> {
    if Trim(piece) == "" then [] else [Trim(piece)]
  }

  lemma SplitHead(s: string) returns (n: nat)
    ensures n <= |s| && NoCut(Top, s, n)
    ensures n < |s| ==> s[n] == ';' && AtTop(After(Top, s, n))
    ensures Split(s) == Kept(s[..n]) + (if n < |s| then Split(s[n + 1..]) else [])
  {
    hide Next, Trim, NoCut, After;
    n := FirstPiece(Top, s);
    if n < |s| {
      assert ([s[..n]] + Pieces(Top, s[n + 1..]))[1..] == Pieces(Top, s[n + 1..]);
    } else {
      assert s[..n] == s && [s][1..] == [];
      assert Statements([s]) == Kept(s) + Statements([]);
    }
  }

  /** A text whose first top-level semicolon comes after `piece`. */
  lemma SplitAt(piece: string, tail: string)
    requires var s := piece + ";" + tail; NoCut(Top, s, |piece|) && AtTop(After(Top, s, |piece|))
    ensures Split(piece + ";" + tail) == Kept(piece) + Split(tail)
  {
    hide Next, Trim, NoCut, After;
    var s := piece + ";" + tail;
    PiecesSkip(Top, s, |piece|);
    var rest := s[|piece|..];
    assert rest[0] == ';' && rest[1..] == tail && s[..|piece|] == piece;
    var pieces := Glue(piece, [""] + Pieces(Top, tail));
    assert piece + "" == piece;
    assert pieces == [piece] + Pieces(Top, tail);
    assert pieces[1..] == Pieces(Top, tail);
  }

  lemma TrimOfTrimmed(t: string)
    requires Trimmed(t)
    ensures Trim(t) == t && Trim(t + "\n") == t
  {
    hide Trim, Trimmed;
    assert t == "" + t + "" && t + "\n" == "" + t + "\n";
    TrimUnique("", t, "");
    TrimUnique("", t, "\n");
  }

  /** Every statement of a script, split on its own, is that one statement. */
  lemma {:induction false} EachAlone(s: string)
    ensures forall k :: 0 <= k < |Split(s)| ==> Split(Split(s)[k]) == [Split(s)[k]]
    decreases s
  {
    hide Split, Next, Trim, NoCut, After, Trimmed;
    var n := SplitHead(s);
    var before, t, r, mode := TrimmedPiece(s, n);
    if t != "" {
      AloneFromPiece(t, r);
    }
    if n < |s| {
      EachAlone(s[n + 1..]);
    }
  }

  // ---- joining the list again -------------------------------------------------------------------------------------

  ghost predicate Inside(d: string, s: string) {
    exists k: nat :: OccursAt(s, d, k)
  }

  lemma InsideAround(d: string, before: string, s: string, after: string)
    requires Inside(d, s)
    ensures Inside(d, before + s + after)
  {
    var k: nat :| OccursAt(s, d, k);
    var whole := before + s + after;
    assert whole[|before| + k..|before| + k + |d|] == s[k..k + |d|];
    assert OccursAt(whole, d, |before| + k);
  }

  predicate IsJoiner(sep: string) {
    sep == ";" || sep == "\n;"
  }

  /** A delimiter contains no joiner character, so it cannot straddle one. */
  lemma DelimiterBeside(d: string, a: string, sep: string, b: string, k: nat)
    requires IsDelimiter(d) && IsJoiner(sep) && OccursAt(a + sep + b, d, k)
    ensures k + |d| <= |a| || |a| + |sep| <= k
  {
    hide IsTagChar;
    var s := a + sep + b;
    JoinerIsNoTag();
    var i := if k <= |a| then |a| - k else 0;
    assert i < |d| ==> d[i] == s[k..k + |d|][i] == s[k + i];
    assert |a| <= k + i < |a| + |sep| ==> s[k + i] == sep[k + i - |a|];
  }

  lemma JoinerIsNoTag()
    ensures !IsTagChar(';') && !IsTagChar('\n')
  {
  }

  lemma JoinCons(t: string, rest: seq<string>, sep: string)
    ensures Join([t] + rest, sep) == if rest == [] then t else t + sep + Join(rest, sep)
  {
    assert ([t] + rest)[1..] == rest;
  }

  /** The first statement of a script, and the script that holds the others. */
  lemma FirstAndRest(s: string) returns (before: string, t: string, r: string, tail: string, rest: seq<string>)
    ensures s == before + t + r && Split(s) == (if t == "" then [] else [t]) + rest
    ensures rest == [] || (rest == Split(tail) && |tail| < |s| && s == s[..|s| - |tail|] + tail + "")
  {
    hide Split, Next, Trim, NoCut, After, Trimmed, AtTop;
    var n := SplitHead(s);
    var mode;
    before, t, r, mode := TrimmedPiece(s, n);
    tail := if n < |s| then s[n + 1..] else "";
    rest := if n < |s| then Split(tail) else [];
    if n < |s| {
      Ending(s, n + 1);
    }
  }

  lemma Ending(s: string, k: nat)
    requires k <= |s|
    ensures var tail := s[k..]; |s| - |tail| == k && s == s[..k] + tail + ""
  {
  }

  /** Joining the statements of a script brings no new delimiter about. */
  lemma {:induction false} DelimiterInJoin(s: string, sep: string, d: string)
    requires IsDelimiter(d) && IsJoiner(sep) && Inside(d, Join(Split(s), sep))
    ensures Inside(d, s)
    decreases |s|
  {
    hide Split, IsDelimiter, IsJoiner, Inside, Join;
    var before, t, r, tail, rest := FirstAndRest(s);
    InsideFirst(d, t, sep, rest);
    if Inside(d, Join(rest, sep)) {
      NotInNothing(d, sep);
      DelimiterInJoin(tail, sep, d);
      InsideAround(d, s[..|s| - |tail|], tail, "");
    } else {
      InsideAround(d, before, t, r);
    }
  }

  lemma NotInNothing(d: string, sep: string)
    requires IsDelimiter(d)
    ensures !Inside(d, Join([], sep))
  {
    hide IsDelimiter;
    DelimiterNotEmpty(d);
  }

  lemma InsideFirst(d: string, t: string, sep: string, rest: seq<string>)
    requires IsDelimiter(d) && IsJoiner(sep)
    requires Inside(d, Join((if t == "" then [] else [t]) + rest, sep))
    ensures Inside(d, t) || Inside(d, Join(rest, sep))
  {
    hide IsJoiner, IsDelimiter, Join, Inside;
    JoinCons(t, rest, sep);
    assert [] + rest == rest;
    if t != "" && rest != [] {
      InsideEither(d, t, sep, Join(rest, sep));
    }
  }

  lemma InsideEither(d: string, t: string, sep: string, j: string)
    requires IsDelimiter(d) && IsJoiner(sep) && Inside(d, t + sep + j)
    ensures Inside(d, t) || Inside(d, j)
  {
    hide IsJoiner, IsDelimiter;
    var x := t + sep + j;
    var k: nat :| OccursAt(x, d, k);
    DelimiterBeside(d, t, sep, j, k);
    if k + |d| <= |t| {
      assert x[k..k + |d|] == t[k..k + |d|];
      assert OccursAt(t, d, k);
    } else {
      var m := k - |t| - |sep|;
      assert x[k..k + |d|] == j[m..m + |d|];
      assert OccursAt(j, d, m);
    }
  }

  /** The joiner and the other statements close no literal that was open in `t`. */
  lemma JoinOpensNothing(t: string, r: string, sep: string, j: string)
    requires IsJoiner(sep)
    requires forall d :: IsDelimiter(d) && Inside(d, j) ==> Inside(d, r)
    ensures OpensNothing(t, r, sep + j)
  {
    hide IsDelimiter, DollarLength, IsJoiner;
    forall i | 0 <= i < |t|
      ensures DollarLength(t[i..] + r).None? ==> DollarLength(t[i..] + (sep + j)).None?
    {
      var v := t[i..];
      if DollarLength(v + (sep + j)).Some? {
        StillCloses(v, r, sep, j);
      }
    }
  }

  lemma StillCloses(v: string, r: string, sep: string, j: string)
    requires v != "" && IsJoiner(sep) && DollarLength(v + (sep + j)).Some?
    requires forall d :: IsDelimiter(d) && Inside(d, j) ==> Inside(d, r)
    ensures DollarLength(v + r).Some?
  {
    hide IsDelimiter, DollarLength, IsJoiner, OccursAt, Inside;
    var x := v + sep + j;
    assert v + (sep + j) == x;
    var d, k := DollarParts(x);
    StaysOpen(d, v, r, sep, j);
    if k + |d| <= |v| {
      OccursWithin(d, v, sep + j, r, k);
      DollarSome(v + r, d, k);
    } else {
      ClosedLater(d, v, sep, j, k);
      var p := InsideAfter(d, v, r);
      DollarSome(v + r, d, p);
    }
  }

  /** The opening delimiter lies within `v`. */
  lemma StaysOpen(d: string, v: string, r: string, sep: string, j: string)
    requires v != "" && IsJoiner(sep) && IsDelimiter(d) && d <= v + sep + j
    ensures d <= v && d <= v + r
  {
    hide IsDelimiter, IsJoiner;
    var x := v + sep + j;
    assert OccursAt(x, d, 0) && |d| > 0 by { DelimiterNotEmpty(d); }
    DelimiterBeside(d, v, sep, j, 0);
    assert d == x[..|d|] == v[..|d|];
  }

  lemma OccursWithin(d: string, v: string, after: string, r: string, k: nat)
    requires OccursAt(v + after, d, k) && k + |d| <= |v|
    ensures OccursAt(v + r, d, k)
  {
    assert (v + after)[k..k + |d|] == v[k..k + |d|] == (v + r)[k..k + |d|];
  }

  /** A closing delimiter that is not within `v` lies beyond the joiner. */
  lemma ClosedLater(d: string, v: string, sep: string, j: string, k: nat)
    requires IsJoiner(sep) && IsDelimiter(d) && OccursAt(v + sep + j, d, k) && k + |d| > |v|
    ensures Inside(d, j)
  {
    hide IsDelimiter, IsJoiner;
    DelimiterBeside(d, v, sep, j, k);
    var m := k - |v| - |sep|;
    assert (v + sep + j)[k..k + |d|] == j[m..m + |d|];
    assert OccursAt(j, d, m);
  }

  lemma InsideAfter(d: string, v: string, r: string) returns (k: nat)
    requires Inside(d, r)
    ensures |v| <= k && OccursAt(v + r, d, k)
  {
    var p: nat :| OccursAt(r, d, p);
    k := |v| + p;
    assert (v + r)[k..k + |d|] == r[p..p + |d|];
  }

  lemma DelimiterNotEmpty(d: string)
    requires IsDelimiter(d)
    ensures |d| > 0
  {
  }

  /** Where a statement ends, whatever the list is joined with. */
  lemma JoinedHead(s: string, sep: string) returns (n: nat, t: string, mode: Mode)
    requires IsJoiner(sep)
    ensures n <= |s| && t == Trim(s[..n]) && Trimmed(t) && Proper(mode)
    ensures Split(s) == (if t == "" then [] else [t]) + (if n < |s| then Split(s[n + 1..]) else [])
    ensures mode == After(Top, t, |t|) && (t != "" ==> Split(t) == [t])
    ensures n < |s| ==> AtTop(mode) || mode.Line?
    ensures n < |s| ==>
              var x := t + (sep + Join(Split(s[n + 1..]), sep));
              NoCut(Top, x, |t|) && After(Top, x, |t|) == mode
  {
    hide Split, Next, Trim, NoCut, After, Trimmed, IsDelimiter, IsJoiner, AtTop, DollarLength;
    n := SplitHead(s);
    var before, r;
    before, t, r, mode := TrimmedPiece(s, n);
    if t != "" { AloneFromPiece(t, r); }
    EndOpensNothing(t, r);
    Transplant(Top, t, r, "");
    assert t + "" == t;
    if n < |s| {
      var tail := s[n + 1..];
      var j := Join(Split(tail), sep);
      forall d | IsDelimiter(d) && Inside(d, j) ensures Inside(d, r) {
        DelimiterInJoin(tail, sep, d);
        var m := |r| - |tail|;
        assert r == r[..m] + tail + "" by { assert s[|before| + |t|..] == r; }
        InsideAround(d, r[..m], tail, "");
      }
      JoinOpensNothing(t, r, sep, j);
      Transplant(Top, t, r, sep + j);
    }
  }

  /** Joining with a line feed and a semicolon loses nothing: the list splits back to itself. */
  lemma {:induction false} SplitOfJoin(s: string)
    ensures Split(Join(Split(s), "\n;")) == Split(s)
    decreases s
  {
    hide Split, Next, Trim, NoCut, After, Trimmed, AtTop;
    var n, t, mode := JoinedHead(s, "\n;");
    if n == |s| {
      if t == "" { SplitNothing(); }
    } else {
      var tail := s[n + 1..];
      SplitOfJoin(tail);
      JoinCons(t, Split(tail), "\n;");
      assert [] + Split(tail) == Split(tail) && [t] + [] == [t];
      if t != "" && Split(tail) != [] {
        var j := Join(Split(tail), "\n;");
        JoinedByLineFeed(t, mode, j);
      }
    }
  }

  lemma SplitNothing()
    ensures Split("") == []
  {
    assert Statements([""][1..]) == [];
  }

  lemma JoinedByLineFeed(t: string, mode: Mode, j: string)
    requires t != "" && Trimmed(t) && (AtTop(mode) || mode.Line?) && Proper(mode)
    requires var x := t + ("\n;" + j); NoCut(Top, x, |t|) && After(Top, x, |t|) == mode
    ensures Split(t + "\n;" + j) == [t] + Split(j)
  {
    hide Split, Trim, Trimmed, NoCut, After;
    var x := t + ("\n;" + j);
    assert x == (t + "\n") + ";" + j == t + "\n;" + j;
    OneStep(mode, x[|t|..]);
    Compose(Top, x, |t|, 1);
    assert Next(mode, x[|t|..]) == Top;
    SplitAt(t + "\n", j);
    TrimOfTrimmed(t);
  }

  lemma OneStep(mode: Mode, s: string)
    requires s != ""
    ensures After(mode, s, 1) == Next(mode, s) && (NoCut(mode, s, 1) <==> !(s[0] == ';' && AtTop(mode)))
  {
    hide Next;
    assert After(Next(mode, s), s[1..], 0) == Next(mode, s);
  }

  /** The statement ends inside a line comment. */
  ghost predicate EndsInLineComment(t: string) {
    After(Top, t, |t|).Line?
  }

  /** A bare semicolon joins the list without loss exactly when only its last statement may end in a line comment. */
  lemma {:induction false} BareJoiner(s: string)
    ensures Split(Join(Split(s), ";")) == Split(s) <==> CommentsEndWithin(Split(s))
    decreases s
  {
    hide Split, Next, Trim, NoCut, After, Trimmed, Join, Proper, CommentsEndWithin, EndsInLineComment;
    var n, t, mode := JoinedHead(s, ";");
    JoinedAlone(t);
    assert [t] + [] == [t];
    if n < |s| {
      var rest := Split(s[n + 1..]);
      BareJoiner(s[n + 1..]);
      assert [] + rest == rest;
      if t != "" && rest != [] {
        JoinCons(t, rest, ";");
        OnlyLastMayEndInComment(t, rest);
        BareStep(t, mode, rest, Join(rest, ";"));
      }
    }
  }

  /** A list of at most one statement joins to itself. */
  lemma JoinedAlone(t: string)
    ensures Join([t], ";") == t && Join([], ";") == "" && Split("") == []
    ensures CommentsEndWithin([t]) && CommentsEndWithin([])
  {
    hide Split, EndsInLineComment;
    SplitNothing();
  }

  lemma BareStep(t: string, mode: Mode, rest: seq<string>, j: string)
    requires t != "" && Trimmed(t) && (AtTop(mode) || mode.Line?)
    requires var x := t + (";" + j); NoCut(Top, x, |t|) && After(Top, x, |t|) == mode
    ensures Split(t + ";" + j) == [t] + rest <==> !mode.Line? && Split(j) == rest
  {
    hide Split, Next, Trim, NoCut, After, Trimmed;
    assert t + ";" + j == t + (";" + j);
    if mode.Line? {
      Swallowed(t, j);
    } else {
      SplitAt(t, j);
      TrimOfTrimmed(t);
      assert ([t] + Split(j))[1..] == Split(j) && ([t] + rest)[1..] == rest;
    }
  }

  /** No statement but the last ends in a line comment. */
  ghost predicate CommentsEndWithin(list: seq<string>) {
    forall k :: 0 <= k < |list| - 1 ==> !EndsInLineComment(list[k])
  }

  lemma OnlyLastMayEndInComment(t: string, rest: seq<string>)
    requires rest != []
    ensures CommentsEndWithin([t] + rest) <==> !After(Top, t, |t|).Line? && CommentsEndWithin(rest)
  {
    assert EndsInLineComment(t) <==> After(Top, t, |t|).Line?;
    hide EndsInLineComment, After;
    var list := [t] + rest;
    assert list[0] == t;
    if CommentsEndWithin(list) {
      forall k | 0 <= k < |rest| - 1 ensures !EndsInLineComment(rest[k]) {
        assert rest[k] == list[k + 1];
      }
    }
  }

  lemma HeadOf(a: string, b: string)
    ensures a != "" ==> (a + b)[0] == a[0]
  {
  }

  lemma SemicolonIsPlain()
    ensures !IsWhitespace(';')
  {
  }

  /** A semicolon after a line comment belongs to the comment. */
  lemma Swallowed(t: string, j: string)
    requires t != "" && Trimmed(t)
    requires var x := t + ";" + j; NoCut(Top, x, |t|) && After(Top, x, |t|).Line?
    ensures var split := Split(t + ";" + j); split == [] || split[0] != t
  {
    hide Split, Next, IsWhitespace, Trim, NoCut, After, Trimmed;
    var x := t + ";" + j;
    var n := SplitHead(x);
    BeyondComment(x, |t|, n);
    assert x[..n] == (t + ";") + x[|t| + 1..n];
    LongerThan(t, x[|t| + 1..n]);
  }

  lemma BeyondComment(x: string, m: nat, n: nat)
    requires m < |x| && n <= |x| && x[m] == ';' && NoCut(Top, x, m) && After(Top, x, m).Line?
    requires n < |x| ==> x[n] == ';' && AtTop(After(Top, x, n))
    ensures n > m
  {
    hide Next;
    if n < m {
      Compose(Top, x, n, m - n);
    }
  }

  lemma LongerThan(t: string, rest: string)
    requires t != "" && Trimmed(t)
    ensures var piece := (t + ";") + rest; Trim(piece) != "" && Trim(piece) != t
  {
    hide IsWhitespace, Trim;
    var piece := (t + ";") + rest;
    assert piece[0] == t[0] && piece[|t|] == ';';
    assert !Blank(piece);
    TrimBlank(piece);
    var b, a := TrimParts(piece);
    if Trim(piece) == t {
      HeadOf(b, t + a);
      assert b + (t + a) == piece;
      SemicolonIsPlain();
      assert false;
    }
  }

  /** A script whose list a bare semicolon does not rejoin. */
  lemma BareJoinerFails()
    ensures Split("--\n;a") == ["--", "a"]
    ensures Split("--;a") != ["--", "a"]
  {
    SplitOneLetter();
    CommentModes("\n;a");
    CommentModes(";a");
    PlainCharacters();
    LineFeedEndsComment();
    hide Split, IsWhitespace, Trim, After, NoCut, Next;
    assert "--\n;a" == "--" + "\n;a" == "--\n" + ";" + "a" && "--;a" == "--" + ";a" == "--" + ";" + "a";
    OneStep(Line, "\n;a");
    Compose(Top, "--\n;a", 2, 1);
    assert "--\n;a"[2..] == "\n;a";
    SplitAt("--\n", "a");
    TrimOfTrimmed("--");
    assert "--" + "\n" == "--\n";
    Swallowed("--", "a");
  }

  lemma LineFeedEndsComment()
    ensures Next(Line, "\n;a") == Top
  {
  }

  lemma CommentModes(r: string)
    ensures NoCut(Top, "--" + r, 2) && After(Top, "--" + r, 2) == Line
  {
    hide DollarLength;
    var s := "--" + r;
    assert s[1..][0] == '-' && s[0] == '-';
    OneStep(Top, s);
    OneStep(Dash, s[1..]);
    Compose(Top, s, 1, 1);
  }

  lemma SplitOneLetter()
    ensures Split("a") == ["a"]
  {
    hide IsWhitespace, Trim;
    PlainCharacters();
    TrimOfTrimmed("a");
    PiecesOfNothing(Top);
    assert "a"[1..] == "" && "a"[..1] + "" == "a";
    assert Pieces(Top, "a") == Glue("a"[..1], Pieces(Top, ""));
    assert Statements(["a"][1..]) == [];
  }

  lemma PlainCharacters()
    ensures !IsWhitespace('a') && !IsWhitespace('-')
  {
  }
}
