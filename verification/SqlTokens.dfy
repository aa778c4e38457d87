/** A script as a list of tokens, and splitting as cutting that list at its semicolons. */
module SqlTokens {
  import opened Common
  import opened Text
  import opened StatementLexer
  import opened SplitterRoundTrip

  // ---- tokens ----------------------------------------------------------------------------------------------------

  /** What a block comment is made of: marks that nest, and characters in between. */
  datatype Bit = Char(c: char) | Opening | Closing

  /** A literal or comment that is not closed goes on to the end of the script. */
  datatype Token =
    | Semicolon
    | Plain(c: char)                                  // a character that begins nothing
    | Quoted(mark: char, text: string, closed: bool)  // `text` is what is quoted, with no mark doubled
    | LineComment(text: string, closed: bool)
    | BlockComment(bits: seq<Bit>, closed: bool)
    | DollarQuoted(tag: string, body: string)

  predicate IsLetter(c: char) {
    'A' <= c <= 'Z' || 'a' <= c <= 'z' || c == '_'
  }

  predicate IsDigit(c: char) {
    '0' <= c <= '9'
  }

  /** Nothing, or a letter or underscore with letters, digits and underscores after it. */
  predicate IsTag(tag: string) {
    tag != "" ==> IsLetter(tag[0]) && forall i :: 0 <= i < |tag| ==> IsLetter(tag[i]) || IsDigit(tag[i])
  }

  function Fence(tag: string): string {
    "$" + tag + "$"
  }

  function DoubledBy(mark: char, text: string): string {
    if text == "" then "" else (if text[0] == mark then [mark, mark] else [text[0]]) + DoubledBy(mark, text[1..])
  }

  function BitText(b: Bit): string {
    match b case Char(c) => [c] case Opening => "/*" case Closing => "*/"
  }

  function BitsText(bits: seq<Bit>): string {
    if bits == [] then "" else BitText(bits[0]) + BitsText(bits[1..])
  }

  function TokenText(t: Token): string {
    match t
    case Semicolon => ";"
    case Plain(c) => [c]
    case Quoted(mark, text, closed) => [mark] + DoubledBy(mark, text) + if closed then [mark] else ""
    case LineComment(text, closed) => "--" + text + if closed then "\n" else ""
    case BlockComment(bits, _) => "/*" + BitsText(bits)
    case DollarQuoted(tag, body) => Fence(tag) + body + Fence(tag)
  }

  function Script(ts: seq<Token>): string {
    if ts == [] then "" else TokenText(ts[0]) + Script(ts[1..])
  }

  predicate Begins(s: string, c: char) {
    s != "" && s[0] == c
  }

  // ---- which lists are scripts -----------------------------------------------------------------------------------

  /** How deep comments nest after a bit. */
  function Deeper(depth: nat, b: Bit): nat
    requires depth > 0
  {
    match b case Char(_) => depth case Opening => depth + 1 case Closing => depth - 1
  }

  /** The comment ends with the mark that closes it, or goes on to the end. */
  predicate Nests(bits: seq<Bit>, depth: nat, closed: bool) {
    if depth == 0 then closed && bits == []
    else if bits == [] then !closed
    else Nests(bits[1..], Deeper(depth, bits[0]), closed)
  }

  /** No character makes a mark with the one after it. */
  predicate NoMarkMissed(bits: seq<Bit>) {
    bits != [] ==>
      && NoMarkMissed(bits[1..])
      && (bits[0] == Char('/') ==> !Begins(BitsText(bits[1..]), '*'))
      && (bits[0] == Char('*') ==> !Begins(BitsText(bits[1..]), '/'))
  }

  /** A `$` before `rest` begins a literal: a tag and a `$` follow, and the same fence comes again later. */
  ghost predicate OpensDollar(rest: string) {
    exists tag, k: nat ::
      IsTag(tag) && OccursAt(rest, tag + "$", 0) && |tag| + 1 <= k && OccursAt(rest, Fence(tag), k)
  }

  /** The token stands before `rest` as itself. */
  ghost predicate Fits(t: Token, rest: string) {
    match t
    case Semicolon => true
    case Plain(c) =>
      && c !in {';', '\'', '"'} && (c == '-' ==> !Begins(rest, '-')) && (c == '/' ==> !Begins(rest, '*'))
      && (c == '$' ==> !OpensDollar(rest))
    case Quoted(mark, _, closed) => mark in {'\'', '"'} && if closed then !Begins(rest, mark) else rest == ""
    case LineComment(text, closed) => '\n' !in text && (closed || rest == "")
    case BlockComment(bits, closed) => Nests(bits, 1, closed) && NoMarkMissed(bits) && (closed || rest == "")
    case DollarQuoted(tag, body) =>
      IsTag(tag) && forall k :: 0 <= k < |body| ==> !OccursAt(body + Fence(tag), Fence(tag), k)
  }

  ghost predicate AllFit(ts: seq<Token>) {
    ts != [] ==> Fits(ts[0], Script(ts[1..])) && AllFit(ts[1..])
  }

  /** The texts between the semicolons of the list. */
  function Segments(ts: seq<Token>): (r: seq<string>)
    ensures r != []
  {
    if ts == [] then [""]
    else if ts[0].Semicolon? then [""] + Segments(ts[1..])
    else [TokenText(ts[0]) + Segments(ts[1..])[0]] + Segments(ts[1..])[1..]
  }

  // ---- reading one token -----------------------------------------------------------------------------------------

  /** The machine goes on from `mode` as it would from the top level. */
  predicate LikeTop(mode: Mode, rest: string) {
    rest == "" || (AtTop(mode) && Next(mode, rest) == Next(Top, rest))
  }

  /** Reading `u` before `rest` cuts nothing and leads back to the top level. */
  ghost predicate Passes(u: string, rest: string) {
    NoCut(Top, u + rest, |u|) && LikeTop(After(Top, u + rest, |u|), rest)
  }

  lemma PassedPieces(u: string, rest: string)
    requires Passes(u, rest)
    ensures Pieces(Top, u + rest) == Glue(u, Pieces(Top, rest))
  {
    hide Next, NoCut, After;
    var s := u + rest;
    PiecesSkip(Top, s, |u|);
    assert s[..|u|] == u && s[|u|..] == rest;
  }

  /** Reading in two parts. */
  lemma InTwo(mode: Mode, a: string, b: string, rest: string)
    ensures var s := a + b + rest;
            && After(mode, s, |a| + |b|) == After(After(mode, a + (b + rest), |a|), b + rest, |b|)
            && (NoCut(mode, s, |a| + |b|) <==>
                NoCut(mode, a + (b + rest), |a|) && NoCut(After(mode, a + (b + rest), |a|), b + rest, |b|))
  {
    hide Next, NoCut, After;
    var s := a + b + rest;
    assert s == a + (b + rest) && s[|a|..] == b + rest;
    Compose(mode, s, |a|, |b|);
  }

  lemma {:induction false} QuotePasses(mark: char, text: string, rest: string)
    requires mark in {'\'', '"'}
    ensures var u := DoubledBy(mark, text);
            NoCut(Quote(mark), u + rest, |u|) && After(Quote(mark), u + rest, |u|) == Quote(mark)
    decreases text
  {
    if text != "" {
      var head := if text[0] == mark then [mark, mark] else [text[0]];
      QuotePasses(mark, text[1..], rest);
      InTwo(Quote(mark), head, DoubledBy(mark, text[1..]), rest);
      QuoteHead(mark, head, DoubledBy(mark, text[1..]) + rest);
    }
  }

  lemma QuoteHead(mark: char, head: string, r: string)
    requires mark in {'\'', '"'} && (head == [mark, mark] || (|head| == 1 && head[0] != mark))
    ensures NoCut(Quote(mark), head + r, |head|) && After(Quote(mark), head + r, |head|) == Quote(mark)
  {
    var s := head + r;
    assert s[0] == head[0];
    if |head| == 2 {
      assert s[1..][0] == mark;
    }
  }

  lemma {:induction false} LinePasses(text: string, rest: string)
    requires '\n' !in text
    ensures NoCut(Line, text + rest, |text|) && After(Line, text + rest, |text|) == Line
    decreases text
  {
    if text != "" {
      assert (text + rest)[0] == text[0] && (text + rest)[1..] == text[1..] + rest;
      LinePasses(text[1..], rest);
    }
  }

  /** In a comment, after a character that could have begun a mark but did not. */
  predicate InComment(mode: Mode, depth: nat, rest: string) {
    || mode == Block(depth)
    || (mode == BlockSlash(depth) && !Begins(rest, '*'))
    || (mode == BlockStar(depth) && !Begins(rest, '/'))
  }

  function AfterClosing(depth: nat): Mode {
    if depth == 0 then Top else Block(depth)
  }

  lemma {:induction false} CommentPasses(mode: Mode, depth: nat, bits: seq<Bit>, closed: bool, rest: string)
    requires depth > 0 && Nests(bits, depth, closed) && NoMarkMissed(bits)
    requires InComment(mode, depth, BitsText(bits) + rest) && (closed || rest == "")
    ensures NoCut(mode, BitsText(bits) + rest, |BitsText(bits)|)
    ensures closed ==> After(mode, BitsText(bits) + rest, |BitsText(bits)|) == Top
    decreases bits
  {
    if bits != [] {
      var head, tail := BitText(bits[0]), BitsText(bits[1..]);
      var next := After(mode, head + (tail + rest), |head|);
      InTwo(mode, head, tail, rest);
      BitPasses(mode, depth, bits[0], tail + rest);
      if Deeper(depth, bits[0]) > 0 {
        CommentGoesOn(bits, closed, rest);
        CommentPasses(next, Deeper(depth, bits[0]), bits[1..], closed, rest);
      } else {
        assert tail == "";
      }
    }
  }

  lemma CommentGoesOn(bits: seq<Bit>, closed: bool, rest: string)
    requires bits != [] && NoMarkMissed(bits) && (closed || rest == "")
    requires closed ==> bits[1..] != []
    ensures bits[0] == Char('/') ==> !Begins(BitsText(bits[1..]) + rest, '*')
    ensures bits[0] == Char('*') ==> !Begins(BitsText(bits[1..]) + rest, '/')
  {
    if bits[1..] != [] {
      assert BitsText(bits[1..]) != "";
      assert (BitsText(bits[1..]) + rest)[0] == BitsText(bits[1..])[0];
    }
  }

  lemma BitPasses(mode: Mode, depth: nat, b: Bit, r: string)
    requires depth > 0 && InComment(mode, depth, BitText(b) + r)
    ensures var u := BitText(b); var after := After(mode, u + r, |u|);
            && NoCut(mode, u + r, |u|)
            && (b.Char? && (b.c == '/' ==> !Begins(r, '*')) && (b.c == '*' ==> !Begins(r, '/')) ==>
                  InComment(after, depth, r))
            && (!b.Char? ==> after == AfterClosing(Deeper(depth, b)))
  {
    var s := BitText(b) + r;
    match b
    case Char(c) => assert s[0] == c;
    case Opening => assert s[0] == '/' && s[1..][0] == '*';
    case Closing => assert s[0] == '*' && s[1..][0] == '/';
  }

  // ---- dollar literals -------------------------------------------------------------------------------------------

  /** The delimiters of the machine are the fences of tags. */
  lemma FenceIsDelimiter(tag: string)
    ensures IsDelimiter(Fence(tag)) <==> IsTag(tag)
  {
    var d := Fence(tag);
    assert |d| == |tag| + 2 && forall i :: 0 <= i < |tag| ==> d[i + 1] == tag[i];
    if IsDelimiter(d) {
      forall i | 0 <= i < |tag| ensures IsTagChar(tag[i]) {
        assert d[i + 1] == tag[i];
      }
    }
  }

  lemma DelimiterIsFence(d: string) returns (tag: string)
    requires IsDelimiter(d)
    ensures d == Fence(tag) && IsTag(tag)
  {
    hide IsTagChar, IsTagStart;
    tag := d[1..|d| - 1];
    FenceIsDelimiter(tag);
  }

  /** A literal begins exactly when the fence that follows comes again. */
  lemma OpensExactly(rest: string)
    ensures DollarLength("$" + rest).Some? <==> OpensDollar(rest)
  {
    hide DollarLength, IsTag, IsDelimiter;
    var s := "$" + rest;
    if DollarLength(s).Some? {
      var d, k := DollarParts(s);
      var tag := DelimiterIsFence(d);
      FenceAhead(tag, rest);
      assert s[k..k + |d|] == rest[k - 1..k - 1 + |d|];
      assert OccursAt(rest, Fence(tag), k - 1);
    }
    if OpensDollar(rest) {
      var tag, k: nat :|
        IsTag(tag) && OccursAt(rest, tag + "$", 0) && |tag| + 1 <= k && OccursAt(rest, Fence(tag), k);
      FenceIsDelimiter(tag);
      FenceAhead(tag, rest);
      assert s[k + 1..k + 1 + |Fence(tag)|] == rest[k..k + |Fence(tag)|];
      DollarSome(s, Fence(tag), k + 1);
    }
  }

  lemma FenceAhead(tag: string, rest: string)
    ensures Fence(tag) <= "$" + rest <==> OccursAt(rest, tag + "$", 0)
  {
    var d, s := Fence(tag), "$" + rest;
    assert d[1..] == tag + "$";
    if d <= s {
      assert rest[..|d| - 1] == s[1..|d|] == d[1..];
    }
    if OccursAt(rest, tag + "$", 0) {
      assert s[..|d|] == "$" + rest[..|d| - 1];
    }
  }

  /** A literal closes at the first fence after the one that opens it. */
  lemma DollarReads(tag: string, body: string, rest: string)
    requires Fits(DollarQuoted(tag, body), rest)
    ensures DollarLength(Fence(tag) + body + Fence(tag) + rest) == Some(2 * |Fence(tag)| + |body|)
  {
    hide IsTag, IsDelimiter, Delimiter, OccursAt, IndexOf, Fence;
    var d := Fence(tag);
    var s := d + body + d + rest;
    FenceIsDelimiter(tag);
    assert d <= s;
    DelimiterIs(s, d);
    ClosingFence(d, body, rest);
    IndexOfIs(s, d, |d|, |d| + |body|);
  }

  lemma ClosingFence(d: string, body: string, rest: string)
    requires forall k :: 0 <= k < |body| ==> !OccursAt(body + d, d, k)
    ensures var s := d + body + d + rest;
            OccursAt(s, d, |d| + |body|) && forall j :: |d| <= j < |d| + |body| ==> !OccursAt(s, d, j)
  {
    var s := d + body + d + rest;
    assert s[|d| + |body|..2 * |d| + |body|] == d;
    forall j | |d| <= j < |d| + |body| ensures !OccursAt(s, d, j) {
      assert s[j..j + |d|] == (body + d)[j - |d|..j];
      assert !OccursAt(body + d, d, j - |d|);
    }
  }

  lemma {:induction false} BodyPasses(left: nat, s: string)
    requires 0 < left <= |s|
    ensures NoCut(Body(left), s, left) && After(Body(left), s, left) == Top
    decreases left
  {
    if left > 1 {
      BodyPasses(left - 1, s[1..]);
    }
  }

  // ---- reading a script ------------------------------------------------------------------------------------------

  lemma TokenPasses(t: Token, rest: string)
    requires Fits(t, rest) && !t.Semicolon?
    ensures Passes(TokenText(t), rest)
  {
    hide DollarLength, Nests, NoMarkMissed, OpensDollar, IsTag;
    var s := TokenText(t) + rest;
    match t
    case Plain(c) =>
      assert s[0] == c && s[1..] == rest && s == [c] + rest;
      PlainPasses(c, rest);
    case Quoted(mark, text, closed) =>
      QuotedPasses(mark, text, closed, rest);
    case LineComment(text, closed) =>
      LineCommentPasses(text, closed, rest);
    case BlockComment(bits, closed) =>
      BlockCommentPasses(bits, closed, rest);
    case DollarQuoted(tag, body) =>
      DollarPasses(tag, body, rest);
  }

  lemma PlainPasses(c: char, rest: string)
    requires Fits(Plain(c), rest)
    ensures Passes([c], rest)
  {
    hide DollarLength, OpensDollar;
    var s := [c] + rest;
    assert s[0] == c && s[1..] == rest;
    if c == '$' {
      assert s == "$" + rest;
      OpensExactly(rest);
    }
  }

  lemma QuotedPasses(mark: char, text: string, closed: bool, rest: string)
    requires Fits(Quoted(mark, text, closed), rest)
    ensures Passes(TokenText(Quoted(mark, text, closed)), rest)
  {
    hide DollarLength;
    var inner := DoubledBy(mark, text);
    var u, tail := [mark] + inner, if closed then [mark] else "";
    assert TokenText(Quoted(mark, text, closed)) == u + tail;
    InTwo(Top, u, tail, rest);
    InTwo(Top, [mark], inner, tail + rest);
    assert ([mark] + (inner + (tail + rest)))[1..] == inner + (tail + rest);
    QuotePasses(mark, text, tail + rest);
    if closed {
      assert (tail + rest)[0] == mark && (tail + rest)[1..] == rest;
    }
  }

  lemma LineCommentPasses(text: string, closed: bool, rest: string)
    requires Fits(LineComment(text, closed), rest)
    ensures Passes(TokenText(LineComment(text, closed)), rest)
  {
    hide DollarLength;
    var u, tail := "--" + text, if closed then "\n" else "";
    assert TokenText(LineComment(text, closed)) == u + tail;
    InTwo(Top, u, tail, rest);
    InTwo(Top, "--", text, tail + rest);
    var s := "--" + (text + (tail + rest));
    assert s[0] == '-' && s[1..][0] == '-';
    LinePasses(text, tail + rest);
    if closed {
      assert (tail + rest)[0] == '\n' && (tail + rest)[1..] == rest;
    }
  }

  lemma BlockCommentPasses(bits: seq<Bit>, closed: bool, rest: string)
    requires Fits(BlockComment(bits, closed), rest)
    ensures Passes(TokenText(BlockComment(bits, closed)), rest)
  {
    hide DollarLength, Nests, NoMarkMissed;
    InTwo(Top, "/*", BitsText(bits), rest);
    var s := "/*" + (BitsText(bits) + rest);
    assert s[0] == '/' && s[1..][0] == '*';
    CommentPasses(Block(1), 1, bits, closed, rest);
  }

  lemma DollarPasses(tag: string, body: string, rest: string)
    requires Fits(DollarQuoted(tag, body), rest)
    ensures Passes(TokenText(DollarQuoted(tag, body)), rest)
  {
    hide DollarLength, IsTag;
    var u := Fence(tag) + body + Fence(tag);
    var s := u + rest;
    DollarReads(tag, body, rest);
    assert s[0] == '$' && s[1..][..|u| - 1] == u[1..];
    BodyPasses(|u| - 1, s[1..]);
  }

  /** The raw pieces of a script are the texts between its semicolon tokens. */
  lemma {:induction false} PiecesOfTokens(ts: seq<Token>)
    requires AllFit(ts)
    ensures Pieces(Top, Script(ts)) == Segments(ts)
    decreases ts
  {
    hide Fits, Passes;
    if ts != [] {
      PiecesOfTokens(ts[1..]);
      var rest := Script(ts[1..]);
      if ts[0].Semicolon? {
        assert (";" + rest)[0] == ';' && (";" + rest)[1..] == rest;
      } else {
        TokenPasses(ts[0], rest);
        PassedPieces(TokenText(ts[0]), rest);
      }
    }
  }

  /** Splitting a script is cutting its tokens at the semicolons, and dropping what is blank. */
  lemma SplitOfTokens(ts: seq<Token>)
    requires AllFit(ts)
    ensures Split(Script(ts)) == Statements(Segments(ts))
  {
    PiecesOfTokens(ts);
  }

  // ---- every script is a list of tokens --------------------------------------------------------------------------

  lemma {:induction false} ReadQuoted(mark: char, s: string) returns (text: string, closed: bool, rest: string)
    ensures s == DoubledBy(mark, text) + (if closed then [mark] else "") + rest
    ensures if closed then !Begins(rest, mark) else rest == ""
    decreases s
  {
    if s == "" {
      text, closed, rest := "", false, "";
    } else if s[0] == mark && !Begins(s[1..], mark) {
      text, closed, rest := "", true, s[1..];
    } else {
      var n := if s[0] == mark then 2 else 1;
      var more;
      more, closed, rest := ReadQuoted(mark, s[n..]);
      text := [s[0]] + more;
      assert text[1..] == more && s == s[..n] + s[n..];
    }
  }

  lemma ReadLine(s: string) returns (text: string, closed: bool, rest: string)
    ensures s == text + (if closed then "\n" else "") + rest && '\n' !in text && (closed || rest == "")
  {
    match IndexOf(s, "\n", 0)
    case None =>
      assert forall i :: 0 <= i < |s| && s[i] == '\n' ==> OccursAt(s, "\n", i);
      text, closed, rest := s, false, "";
    case Some(k) =>
      assert forall i :: 0 <= i < k && s[i] == '\n' ==> OccursAt(s, "\n", i);
      text, closed, rest := s[..k], true, s[k + 1..];
      assert s == s[..k] + s[k..k + 1] + s[k + 1..];
  }

  /** The next bit of a comment. */
  function FirstBit(s: string): Bit
    requires s != ""
  {
    if s[0] == '/' && Begins(s[1..], '*') then Opening
    else if s[0] == '*' && Begins(s[1..], '/') then Closing
    else Char(s[0])
  }

  lemma FirstBitReads(s: string)
    requires s != ""
    ensures var u := BitText(FirstBit(s)); |u| <= |s| && s == u + s[|u|..]
  {
    if !FirstBit(s).Char? {
      assert s == [s[0], s[1]] + s[2..];
    }
  }

  lemma {:induction false} ReadComment(depth: nat, s: string) returns (bits: seq<Bit>, closed: bool, rest: string)
    requires depth > 0
    ensures s == BitsText(bits) + rest && Nests(bits, depth, closed) && NoMarkMissed(bits) && (closed || rest == "")
    decreases s
  {
    if s == "" {
      bits, closed, rest := [], false, "";
    } else {
      var b := FirstBit(s);
      var u := BitText(b);
      FirstBitReads(s);
      var more: seq<Bit> := [];
      closed, rest := true, s[|u|..];
      if Deeper(depth, b) > 0 {
        more, closed, rest := ReadComment(Deeper(depth, b), s[|u|..]);
      }
      bits := [b] + more;
      assert bits[1..] == more;
      BitBeforeBits(s, b, more, rest);
    }
  }

  lemma BitBeforeBits(s: string, b: Bit, more: seq<Bit>, rest: string)
    requires s != "" && b == FirstBit(s) && s[|BitText(b)|..] == BitsText(more) + rest
    ensures b == Char('/') ==> !Begins(BitsText(more), '*')
    ensures b == Char('*') ==> !Begins(BitsText(more), '/')
  {
    if BitsText(more) != "" {
      assert (BitsText(more) + rest)[0] == BitsText(more)[0];
    }
  }

  /** The first token of a script, and the script after it. */
  lemma FirstToken(s: string) returns (t: Token, rest: string)
    requires s != ""
    ensures s == TokenText(t) + rest && Fits(t, rest)
  {
    hide DollarLength, OpensDollar, Nests, NoMarkMissed, IsTag, DoubledBy;
    var tail := s[1..];
    assert s == [s[0]] + tail;
    if s[0] == ';' {
      t, rest := Semicolon, tail;
    } else if s[0] in {'\'', '"'} {
      var text, closed;
      text, closed, rest := ReadQuoted(s[0], tail);
      t := Quoted(s[0], text, closed);
    } else if s[0] == '-' && Begins(tail, '-') {
      var text, closed;
      text, closed, rest := ReadLine(s[2..]);
      t := LineComment(text, closed);
      assert s == "--" + s[2..];
    } else if s[0] == '/' && Begins(tail, '*') {
      var bits, closed;
      bits, closed, rest := ReadComment(1, s[2..]);
      t := BlockComment(bits, closed);
      assert s == "/*" + s[2..];
    } else if s[0] == '$' && DollarLength(s).Some? {
      t, rest := FirstDollar(s);
    } else {
      t, rest := Plain(s[0]), tail;
      if s[0] == '$' {
        OpensExactly(tail);
      }
    }
  }

  lemma FirstDollar(s: string) returns (t: Token, rest: string)
    requires DollarLength(s).Some?
    ensures s == TokenText(t) + rest && Fits(t, rest)
  {
    hide DollarLength, IsDelimiter, IsTag;
    var d, k := DollarParts(s);
    var tag := DelimiterIsFence(d);
    var body := s[|d|..k];
    t, rest := DollarQuoted(tag, body), s[k + |d|..];
    BodyBetween(s, d, k);
  }

  lemma BodyBetween(s: string, d: string, k: nat)
    requires d <= s && |d| <= k && OccursAt(s, d, k) && forall j :: |d| <= j < k ==> !OccursAt(s, d, j)
    ensures var body := s[|d|..k];
            && s == d + body + d + s[k + |d|..]
            && forall j :: 0 <= j < |body| ==> !OccursAt(body + d, d, j)
  {
    var body := s[|d|..k];
    assert s == s[..|d|] + s[|d|..k] + s[k..k + |d|] + s[k + |d|..];
    assert body + d == s[|d|..k + |d|];
    forall j | 0 <= j < |body| ensures !OccursAt(body + d, d, j) {
      SliceOfSlice(s, |d|, k + |d|, j, j + |d|);
      assert !OccursAt(s, d, |d| + j);
    }
  }

  lemma SliceOfSlice(s: string, a: nat, b: nat, i: nat, j: nat)
    requires a <= b <= |s| && i <= j <= b - a
    ensures s[a..b][i..j] == s[a + i..a + j]
  {
    assert forall k :: 0 <= k < j - i ==> s[a..b][i..j][k] == s[a + i..a + j][k];
  }

  /** Every script is the text of a list of tokens; splitting cuts that list at its semicolons. */
  lemma {:induction false} TokensOf(s: string) returns (ts: seq<Token>)
    ensures AllFit(ts) && Script(ts) == s && Split(s) == Statements(Segments(ts))
    decreases |s|
  {
    hide Fits, Segments, Split;
    if s == "" {
      ts := [];
    } else {
      var t, rest := FirstToken(s);
      assert TokenText(t) != "";
      var more := TokensOf(rest);
      ts := [t] + more;
      assert ts[1..] == more;
    }
    SplitOfTokens(ts);
  }

  // ---- dollar literals, on their own -----------------------------------------------------------------------------

  lemma TrimmedFence(tag: string, middle: string)
    ensures var s := Fence(tag) + middle + Fence(tag); Trimmed(s) && s != "" && Trim(s) == s
    ensures Trimmed(Fence(tag)) && Trim(Fence(tag)) == Fence(tag)
  {
    hide IsWhitespace, Trim;
    var s := Fence(tag) + middle + Fence(tag);
    assert s[0] == '$' && s[|s| - 1] == '$' && !IsWhitespace('$') by { DollarIsNoBlank(); }
    assert Fence(tag)[0] == '$' && Fence(tag)[|Fence(tag)| - 1] == '$';
    TrimUnique("", s, "");
    assert "" + s + "" == s;
    TrimUnique("", Fence(tag), "");
    assert "" + Fence(tag) + "" == Fence(tag);
  }

  lemma DollarIsNoBlank()
    ensures !IsWhitespace('$')
  {
  }

  /** Whatever semicolons are in it, a dollar literal is one statement. */
  lemma DollarLiteralAlone(tag: string, body: string)
    requires IsTag(tag)
    requires forall k :: 0 <= k < |body| ==> !OccursAt(body + Fence(tag), Fence(tag), k)
    ensures var s := Fence(tag) + body + Fence(tag); Split(s) == [s]
  {
    hide Trim, Trimmed;
    var s := Fence(tag) + body + Fence(tag);
    var ts := [DollarQuoted(tag, body)];
    assert ts[1..] == [] && Script(ts) == s + "" == s;
    SplitOfTokens(ts);
    assert Segments(ts) == [s];
    TrimmedFence(tag, body);
    assert [s][1..] == [];
  }

  lemma PassesTwo(a: string, b: string, rest: string)
    requires Passes(a, b + rest) && Passes(b, rest) && b != ""
    ensures Passes(a + b, rest)
  {
    InTwo(Top, a, b, rest);
    hide Next;
    var mode := After(Top, a + (b + rest), |a|);
    assert After(mode, b + rest, |b|) == After(Top, b + rest, |b|);
  }

  /** Characters that begin nothing, whatever follows. */
  predicate Harmless(s: string) {
    forall i :: 0 <= i < |s| ==> s[i] !in {'$', ';', '\'', '"', '-', '/'}
  }

  lemma {:induction false} HarmlessPasses(s: string, rest: string)
    requires Harmless(s)
    ensures Passes(s, rest)
    decreases s
  {
    hide DollarLength;
    if s == "" {
      assert "" + rest == rest;
    } else {
      PlainPasses(s[0], s[1..] + rest);
      HarmlessPasses(s[1..], rest);
      assert s == [s[0]] + s[1..];
      hide Passes;
      if s[1..] == "" {
        assert s[1..] + rest == rest && s == [s[0]];
      } else {
        PassesTwo([s[0]], s[1..], rest);
      }
    }
  }

  lemma NoDollarOpens(tag: string, rest: string)
    requires Harmless(tag) && !IsTag(tag) && (rest == "" || rest[0] == ';')
    ensures !OpensDollar(tag + "$" + rest) && !OpensDollar(rest)
  {
    forall other: string | IsTag(other)
      ensures !OccursAt(tag + "$" + rest, other + "$", 0) && !OccursAt(rest, other + "$", 0)
    {
      TagEnds(other, tag, rest);
      TagStarts(other, rest);
    }
  }

  lemma TagEnds(other: string, tag: string, rest: string)
    requires '$' !in tag && '$' !in other
    ensures OccursAt(tag + "$" + rest, other + "$", 0) ==> other == tag
  {
    var s := tag + "$" + rest;
    assert s[|tag|] == '$' && forall i :: 0 <= i < |tag| ==> s[i] == tag[i];
    if OccursAt(s, other + "$", 0) {
      assert forall i :: 0 <= i <= |other| ==> s[i] == (other + "$")[i];
      assert s[|other|] == '$';
      assert |other| == |tag|;
      assert other == (other + "$")[..|other|] == s[..|tag|] == tag;
    }
  }

  lemma TagStarts(other: string, rest: string)
    requires IsTag(other)
    ensures OccursAt(rest, other + "$", 0) ==> rest != "" && (rest[0] == '$' || IsLetter(rest[0]))
  {
    if OccursAt(rest, other + "$", 0) {
      assert rest[0] == (other + "$")[0];
    }
  }

  /** What is no tag makes no fence. */
  lemma PlainFence(tag: string, rest: string)
    requires Harmless(tag) && !IsTag(tag) && (rest == "" || rest[0] == ';')
    ensures Passes(Fence(tag), rest)
  {
    hide Passes, IsTag, OpensDollar;
    NoDollarOpens(tag, rest);
    PlainPasses('$', tag + "$" + rest);
    PlainPasses('$', rest);
    HarmlessPasses(tag, "$" + rest);
    assert tag + "$" + rest == tag + ("$" + rest) && "$" + tag + "$" == "$" + (tag + "$");
    PassesTwo(tag, "$", rest);
    PassesTwo("$", tag + "$", rest);
  }

  lemma FencesCut(tag: string)
    requires Passes(Fence(tag), ";" + Fence(tag)) && Passes(Fence(tag), "")
    ensures Split(Fence(tag) + ";" + Fence(tag)) == [Fence(tag), Fence(tag)]
  {
    hide Trim, Passes, Next;
    var f := Fence(tag);
    PassedPieces(f, ";" + f);
    PassedPieces(f, "");
    assert f + "" == f && f + (";" + f) == f + ";" + f && (";" + f)[1..] == f;
    assert Pieces(Top, f) == [f];
    assert Pieces(Top, f + ";" + f) == [f, f];
    TrimmedFence(tag, "");
    assert [f, f][1..] == [f] && [f][1..] == [] && Statements([]) == [];
    assert Statements([f]) == [f];
  }

  /** Two fences with a semicolon between them are one statement exactly when what they enclose is a tag. */
  lemma FencesExactly(tag: string)
    requires Harmless(tag)
    ensures var s := Fence(tag) + ";" + Fence(tag);
            Split(s) == if IsTag(tag) then [s] else [Fence(tag), Fence(tag)]
  {
    hide IsTag, Trim, Trimmed, Passes;
    if IsTag(tag) {
      forall k | 0 <= k < 1 ensures !OccursAt(";" + Fence(tag), Fence(tag), k) {
        assert (";" + Fence(tag))[0] == ';';
      }
      DollarLiteralAlone(tag, ";");
    } else {
      PlainFence(tag, ";" + Fence(tag));
      PlainFence(tag, "");
      FencesCut(tag);
    }
  }
}
