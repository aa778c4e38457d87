/**
 * What a SQL script means to the splitter, as a machine that reads one character at a time. The only look-ahead is
 * the one the language needs: `$tag$` opens a literal only when the same `$tag$` closes it later.
 */
module StatementLexer {
  import opened Common
  import opened Text

  datatype Mode =
    | Top
    | Dash                    // top level, just after a `-`
    | Slash                   // top level, just after a `/`
    | Line                    // in a line comment
    | Block(depth: nat)       // in a block comment
    | BlockSlash(depth: nat)  // in a block comment, just after an unused `/`
    | BlockStar(depth: nat)   // in a block comment, just after an unused `*`
    | Quote(mark: char)       // in a string or a quoted identifier
    | QuoteMark(mark: char)   // just after a mark that closes the literal unless it is doubled
    | Body(left: nat)         // in a dollar-quoted literal with `left` characters to go

  predicate IsTagStart(c: char) {
    'A' <= c <= 'Z' || 'a' <= c <= 'z' || c == '_'
  }

  predicate IsTagChar(c: char) {
    IsTagStart(c) || '0' <= c <= '9'
  }

  /** Length of the longest run of tag characters at the start of `s`. */
  function TagRun(s: string): (n: nat)
    ensures n <= |s| && (forall i :: 0 <= i < n ==> IsTagChar(s[i]))
    ensures n < |s| ==> !IsTagChar(s[n])
  {
    if s != "" && IsTagChar(s[0]) then 1 + TagRun(s[1..]) else 0
  }

  /** The delimiter `$tag$` at the start of `s`; the tag may be empty and may not begin with a digit. */
  function Delimiter(s: string): (d: Option<string>)
    ensures d.Some? ==> 2 <= |d.value| <= |s| && d.value == s[..|d.value|]
    ensures d.Some? ==> d.value[0] == '$' && d.value[|d.value| - 1] == '$'
    ensures d.Some? ==> forall i :: 0 <= i < |d.value| ==> d.value[i] == '$' || IsTagChar(d.value[i])
  {
    if s == "" || s[0] != '$' then None
    else
      var n := if |s| > 1 && IsTagStart(s[1]) then TagRun(s[1..]) else 0;
      if n + 1 < |s| && s[n + 1] == '$' then Some(s[..n + 2]) else None
  }

  /** Length of the dollar-quoted literal at the start of `s`, from its opening to its closing delimiter. */
  function DollarLength(s: string): (n: Option<nat>)
    ensures n.Some? ==> 2 <= n.value <= |s| && s[n.value - 1] == '$'
  {
    match Delimiter(s)
    case None => None
    case Some(d) =>
      match IndexOf(s, d, |d|)
      case None => None
      case Some(k) => Some(k + |d|)
  }

  /** Mode after reading `s[0]` at top level. */
  function FromTop(s: string): Mode
    requires s != ""
  {
    match s[0]
    case '-' => Dash
    case '/' => Slash
    case '\'' => Quote('\'')
    case '"' => Quote('"')
    case '$' => (match DollarLength(s) case Some(n) => Body(n - 1) case None => Top)
    case _ => Top
  }

  /** Mode after reading `s[0]` in `mode`; `s` is the rest of the script. */
  function Next(mode: Mode, s: string): Mode
    requires s != ""
  {
    var c := s[0];
    match mode
    case Top => FromTop(s)
    case Dash => if c == '-' then Line else FromTop(s)
    case Slash => if c == '*' then Block(1) else FromTop(s)
    case Line => if c == '\n' then Top else Line
    case Block(d) => if c == '/' then BlockSlash(d) else if c == '*' then BlockStar(d) else Block(d)
    case BlockSlash(d) => if c == '*' then Block(d + 1) else if c == '/' then BlockSlash(d) else Block(d)
    case BlockStar(d) =>
      if c == '/' then (if d <= 1 then Top else Block(d - 1)) else if c == '*' then BlockStar(d) else Block(d)
    case Quote(q) => if c == q then QuoteMark(q) else Quote(q)
    case QuoteMark(q) => if c == q then Quote(q) else FromTop(s)
    case Body(n) => if n <= 1 then Top else Body(n - 1)
  }

  /** A semicolon read now would end the statement. */
  predicate AtTop(mode: Mode) {
    mode.Top? || mode.Dash? || mode.Slash? || mode.QuoteMark?
  }

  function Glue(prefix: string, pieces: seq<string>): (r: seq<string>)
    requires pieces != []
    ensures |r| == |pieces|
  {
    [prefix + pieces[0]] + pieces[1..]
  }

  /** The raw pieces between top-level semicolons. */
  function Pieces(mode: Mode, s: string): (r: seq<string>)
    ensures r != []
    decreases s
  {
    if s == "" then [""]
    else if s[0] == ';' && AtTop(mode) then [""] + Pieces(Top, s[1..])
    else Glue(s[..1], Pieces(Next(mode, s), s[1..]))
  }

  /** The pieces that are not blank, trimmed. */
  function Statements(pieces: seq<string>): seq<string> {
    if pieces == [] then []
    else (if Trim(pieces[0]) == "" then [] else [Trim(pieces[0])]) + Statements(pieces[1..])
  }

  function Split(script: string): seq<string> {
    Statements(Pieces(Top, script))
  }

  lemma GlueGlue(a: string, b: string, pieces: seq<string>)
    requires pieces != []
    ensures Glue(a, Glue(b, pieces)) == Glue(a + b, pieces)
  {
    assert a + (b + pieces[0]) == (a + b) + pieces[0];
  }

  lemma GlueNothing(pieces: seq<string>)
    requires pieces != []
    ensures Glue("", pieces) == pieces
  {
    assert "" + pieces[0] == pieces[0];
  }

  /** Nothing is lost: the raw pieces rejoined with `;` are the script. */
  lemma {:induction false} PiecesRejoin(mode: Mode, s: string)
    ensures Join(Pieces(mode, s), ";") == s
    decreases s
  {
    if s == "" {
    } else if s[0] == ';' && AtTop(mode) {
      PiecesRejoin(Top, s[1..]);
      assert ([""] + Pieces(Top, s[1..]))[1..] == Pieces(Top, s[1..]);
      assert s == [s[0]] + s[1..];
    } else {
      PiecesRejoin(Next(mode, s), s[1..]);
      JoinGlued(s[..1], Pieces(Next(mode, s), s[1..]));
      assert s == s[..1] + s[1..];
    }
  }

  /** Text before the first piece is text before the whole. */
  lemma JoinGlued(a: string, pieces: seq<string>)
    requires pieces != []
    ensures Join(Glue(a, pieces), ";") == a + Join(pieces, ";")
  {
    assert Glue(a, pieces)[1..] == pieces[1..];
    if |pieces| > 1 {
      assert a + (pieces[0] + ";" + Join(pieces[1..], ";")) == (a + pieces[0]) + ";" + Join(pieces[1..], ";");
    }
  }
}
