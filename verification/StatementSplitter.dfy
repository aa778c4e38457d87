/** The index-jumping scanner, proved to compute what the character machine says. */
module StatementSplitter {
  import opened Common
  import opened Text
  import opened StatementLexer

  function Slice(s: string, from: nat, to: nat): string
    requires from <= to && from <= |s|
  {
    if to <= |s| then s[from..to] else s[from..]
  }

  /** The statements still to come when the scanner is at `i` in `mode` and the current piece began at `start`. */
  ghost function Rest(mode: Mode, sql: string, start: nat, i: nat): seq<string>
    requires start <= i <= |sql|
  {
    Statements(Glue(sql[start..i], Pieces(mode, sql[i..])))
  }

  /** Past the end of the block comment whose body begins at `from`; comments nest. */
  method SkipBlock(sql: string, ghost start: nat, from: nat) returns (i: nat)
    requires start <= from <= |sql|
    ensures from <= i <= |sql| && Rest(Block(1), sql, start, from) == Rest(Top, sql, start, i)
  {
    hide Rest;
    var depth := 1;
    i := from;
    while i < |sql| && depth > 0
      invariant from <= i <= |sql| && 0 <= depth
      invariant Rest(Block(1), sql, start, from) == Rest(InBlock(depth), sql, start, i)
      decreases |sql| - i
    {
      BlockStep(depth, sql, start, i);
      var pair := Slice(sql, i, i + 2);
      if pair == "/*" {
        depth := depth + 1;
        i := i + 2;
      } else if pair == "*/" {
        depth := depth - 1;
        i := i + 2;
      } else {
        i := i + 1;
      }
    }
    if depth > 0 {
      ModeAtEnd(InBlock(depth), Top, sql, start);
    }
  }

  /** Past the end of the literal whose body begins at `from`; a doubled mark does not end it. */
  method SkipQuote(sql: string, ghost start: nat, from: nat, mark: char) returns (i: nat)
    requires start <= from <= |sql| && mark != ';'
    ensures from <= i <= |sql| && Rest(Quote(mark), sql, start, from) == Rest(Top, sql, start, i)
  {
    hide Rest;
    i := from;
    while i < |sql|
      invariant from <= i <= |sql| && Rest(Quote(mark), sql, start, from) == Rest(Quote(mark), sql, start, i)
    {
      QuoteStep(mark, sql, start, i);
      if sql[i] == mark {
        if i + 1 < |sql| && sql[i + 1] == mark {
          i := i + 2;
          continue;
        }
        return i + 1;
      }
      i := i + 1;
    }
    ModeAtEnd(Quote(mark), Top, sql, start);
  }

  method SplitStatements(sql: string) returns (statements: seq<string>)
    ensures statements == Split(sql)
  {
    hide Rest, Split, Trim, Delimiter, IndexOf;
    statements := [];
    var start, i := 0, 0;
    var n := |sql|;
    Start(sql);

    while i < n
      invariant 0 <= start <= i <= n
      invariant Split(sql) == statements + Rest(Top, sql, start, i)
    {
      var two := Slice(sql, i, i + 2);

      if two == "--" {
        SkipLine(sql, start, i);
        var nl := IndexOf(sql, "\n", i + 2);
        i := if nl.None? then n else nl.value + 1;
        continue;
      }

      if two == "/*" {
        OpenBlock(sql, start, i);
        i := SkipBlock(sql, start, i + 2);
        continue;
      }

      var ch := sql[i];

      if ch == '\'' || ch == '"' {
        Plain(sql, start, i);
        i := SkipQuote(sql, start, i + 1, ch);
        continue;
      }

      if ch == '$' {
        DollarStep(sql, start, i);
        var tagMatch := Delimiter(sql[i..]);
        if tagMatch.Some? {
          var delimiter := tagMatch.value;
          var closeIndex := IndexOf(sql, delimiter, i + |delimiter|);
          if closeIndex.Some? {
            i := closeIndex.value + |delimiter|;
            continue;
          }
        }
        i := i + 1;
        continue;
      }

      if ch == ';' {
        Cut(sql, start, i);
        var segment := Trim(sql[start..i]);
        Append(statements, segment, Rest(Top, sql, i + 1, i + 1));
        if |segment| > 0 {
          statements := statements + [segment];
        }
        start := i + 1;
        i := i + 1;
        continue;
      }

      Plain(sql, start, i);
      i := i + 1;
    }

    Finish(sql, start);
    var last := Trim(sql[start..]);
    if |last| > 0 {
      statements := statements + [last];
    }
  }

  lemma Append(statements: seq<string>, segment: string, rest: seq<string>)
    ensures statements + ((if segment == "" then [] else [segment]) + rest)
         == (if |segment| > 0 then statements + [segment] else statements) + rest
  {
  }

  lemma Start(sql: string)
    ensures Split(sql) == Rest(Top, sql, 0, 0)
  {
    GlueNothing(Pieces(Top, sql));
  }

  lemma Finish(sql: string, start: nat)
    requires start <= |sql|
    ensures var last := Trim(sql[start..]);
            Rest(Top, sql, start, |sql|) == if last == "" then [] else [last]
  {
    hide Trim;
    assert sql[|sql|..] == "";
    assert sql[start..|sql|] + "" == sql[start..];
    assert Glue(sql[start..|sql|], [""]) == [sql[start..]];
    assert Statements([sql[start..]][1..]) == [];
  }

  /** Reading one character that does not end the piece. */
  lemma Advance(mode: Mode, sql: string, start: nat, i: nat)
    requires start <= i < |sql|
    requires !(sql[i] == ';' && AtTop(mode))
    ensures Rest(mode, sql, start, i) == Rest(Next(mode, sql[i..]), sql, start, i + 1)
  {
    hide Statements, Next;
    var s := sql[i..];
    var rest := Pieces(Next(mode, s), s[1..]);
    assert s[1..] == sql[i + 1..];
    GlueGlue(sql[start..i], s[..1], rest);
    assert sql[start..i] + s[..1] == sql[start..i + 1];
  }

  /** A top-level semicolon ends the piece that began at `start`. */
  lemma Cut(sql: string, start: nat, i: nat)
    requires start <= i < |sql| && sql[i] == ';'
    ensures var segment := Trim(sql[start..i]);
            Rest(Top, sql, start, i) == (if segment == "" then [] else [segment]) + Rest(Top, sql, i + 1, i + 1)
  {
    hide Trim;
    var s := sql[i..];
    var rest := Pieces(Top, s[1..]);
    assert s[1..] == sql[i + 1..];
    var glued := Glue(sql[start..i], [""] + rest);
    assert sql[start..i] + "" == sql[start..i];
    assert glued[1..] == rest && glued[0] == sql[start..i];
    GlueNothing(rest);
    assert sql[i + 1..i + 1] == "";
  }

  /** A `-`, `/`, `*` or closing mark that the next character does not complete counts for nothing. */
  lemma Unpaired(mode: Mode, plain: Mode, sql: string, start: nat, i: nat)
    requires start <= i <= |sql|
    requires
      || mode == plain
      || (mode.Dash? && plain.Top? && (i == |sql| || sql[i] != '-'))
      || (mode.Slash? && plain.Top? && (i == |sql| || sql[i] != '*'))
      || (mode.QuoteMark? && plain.Top? && (i == |sql| || sql[i] != mode.mark))
      || (mode.BlockSlash? && plain == Block(mode.depth) && (i == |sql| || sql[i] != '*'))
      || (mode.BlockStar? && plain == Block(mode.depth) && (i == |sql| || sql[i] != '/'))
    ensures Rest(mode, sql, start, i) == Rest(plain, sql, start, i)
  {
    hide Statements, FromTop;
  }

  /** A character that opens nothing, or a quotation mark. */
  lemma Plain(sql: string, start: nat, i: nat)
    requires start <= i < |sql| && sql[i] !in {'$', ';'}
    requires i + 1 < |sql| ==> sql[i..i + 2] !in {"--", "/*"}
    ensures var quoted := sql[i] in {'\'', '"'};
            Rest(Top, sql, start, i) == Rest(if quoted then Quote(sql[i]) else Top, sql, start, i + 1)
  {
    hide Rest;
    var next := FromTop(sql[i..]);
    if i + 1 < |sql| { assert sql[i..i + 2] == [sql[i], sql[i + 1]]; }
    AdvanceTo(Top, next, sql, start, i);
    if !next.Quote? {
      Unpaired(next, Top, sql, start, i + 1);
    }
  }

  function InBlock(depth: nat): Mode {
    if depth == 0 then Top else Block(depth)
  }

  lemma OpenBlock(sql: string, start: nat, i: nat)
    requires start <= i <= |sql| - 2 && sql[i] == '/' && sql[i + 1] == '*'
    ensures Rest(Top, sql, start, i) == Rest(Block(1), sql, start, i + 2)
  {
    hide Rest;
    AdvanceTo(Top, Slash, sql, start, i);
    AdvanceTo(Slash, Block(1), sql, start, i + 1);
  }

  lemma PairIs(sql: string, i: nat)
    requires i < |sql|
    ensures forall a, b :: Slice(sql, i, i + 2) == [a, b] <==> i + 1 < |sql| && sql[i] == a && sql[i + 1] == b
  {
  }

  lemma BlockStep(depth: nat, sql: string, start: nat, i: nat)
    requires start <= i < |sql| && depth > 0
    ensures var pair := Slice(sql, i, i + 2);
            Rest(Block(depth), sql, start, i) ==
            if pair == "/*" then Rest(Block(depth + 1), sql, start, i + 2)
            else if pair == "*/" then Rest(InBlock(depth - 1), sql, start, i + 2)
            else Rest(Block(depth), sql, start, i + 1)
  {
    hide Rest, Slice, FromTop;
    PairIs(sql, i);
    var pair := Slice(sql, i, i + 2);
    var next := Next(Block(depth), sql[i..]);
    AdvanceTo(Block(depth), next, sql, start, i);
    if pair == "/*" || pair == "*/" {
      AdvanceTo(next, Next(next, sql[i + 1..]), sql, start, i + 1);
    } else {
      Unpaired(next, Block(depth), sql, start, i + 1);
    }
  }

  lemma QuoteStep(mark: char, sql: string, start: nat, i: nat)
    requires start <= i < |sql| && mark != ';'
    ensures Rest(Quote(mark), sql, start, i) ==
            if sql[i] != mark then Rest(Quote(mark), sql, start, i + 1)
            else if i + 1 < |sql| && sql[i + 1] == mark then Rest(Quote(mark), sql, start, i + 2)
            else Rest(Top, sql, start, i + 1)
  {
    hide Rest, FromTop;
    if sql[i] != mark {
      AdvanceTo(Quote(mark), Quote(mark), sql, start, i);
    } else {
      AdvanceTo(Quote(mark), QuoteMark(mark), sql, start, i);
      if i + 1 < |sql| && sql[i + 1] == mark {
        AdvanceTo(QuoteMark(mark), Quote(mark), sql, start, i + 1);
      } else {
        Unpaired(QuoteMark(mark), Top, sql, start, i + 1);
      }
    }
  }

  /** A dollar opens a literal exactly when its delimiter occurs again. */
  lemma DollarStep(sql: string, start: nat, i: nat)
    requires start <= i < |sql| && sql[i] == '$'
    ensures var d := Delimiter(sql[i..]);
            var close := if d.Some? then IndexOf(sql, d.value, i + |d.value|) else None;
            Rest(Top, sql, start, i) ==
            Rest(Top, sql, start, if close.Some? then close.value + |d.value| else i + 1)
  {
    hide Rest, Delimiter, IndexOf;
    AdvanceTo(Top, FromTop(sql[i..]), sql, start, i);
    var d := Delimiter(sql[i..]);
    if d.Some? {
      IndexOfShift(sql, d.value, i, |d.value|);
      var close := IndexOf(sql, d.value, i + |d.value|);
      if close.Some? {
        SkipBody(close.value + |d.value| - i - 1, sql, start, i + 1);
      }
    }
  }

  lemma ModeAtEnd(mode: Mode, other: Mode, sql: string, start: nat)
    requires start <= |sql|
    ensures Rest(mode, sql, start, |sql|) == Rest(other, sql, start, |sql|)
  {
    hide Statements;
    assert sql[|sql|..] == "";
  }

  lemma AdvanceTo(mode: Mode, next: Mode, sql: string, start: nat, i: nat)
    requires start <= i < |sql|
    requires (sql[i] != ';' || !AtTop(mode)) && Next(mode, sql[i..]) == next
    ensures Rest(mode, sql, start, i) == Rest(next, sql, start, i + 1)
  {
    hide Rest, Next;
    Advance(mode, sql, start, i);
  }

  /** A line comment runs to its line feed, or to the end of the script. */
  lemma SkipLine(sql: string, start: nat, i: nat)
    requires start <= i <= |sql| - 2 && sql[i] == '-' && sql[i + 1] == '-'
    ensures var nl := IndexOf(sql, "\n", i + 2);
            Rest(Top, sql, start, i) == Rest(Top, sql, start, if nl.None? then |sql| else nl.value + 1)
  {
    hide Rest;
    AdvanceTo(Top, Dash, sql, start, i);
    AdvanceTo(Dash, Line, sql, start, i + 1);
    var nl := IndexOf(sql, "\n", i + 2);
    var end := if nl.None? then |sql| else nl.value;
    forall k | i + 2 <= k < end ensures sql[k] != '\n' {
      assert !OccursAt(sql, "\n", k);
      assert sql[k..k + 1] == [sql[k]];
    }
    SkipChars(sql, start, i + 2, end);
    if nl.None? {
      ModeAtEnd(Line, Top, sql, start);
    } else {
      assert sql[end] == '\n' by { assert sql[end..end + 1][0] == '\n'; }
      AdvanceTo(Line, Top, sql, start, end);
    }
  }

  lemma {:induction false} SkipChars(sql: string, start: nat, i: nat, end: nat)
    requires start <= i <= end <= |sql|
    requires forall k :: i <= k < end ==> sql[k] != '\n'
    ensures Rest(Line, sql, start, i) == Rest(Line, sql, start, end)
    decreases end - i
  {
    hide Rest;
    if i < end {
      AdvanceTo(Line, Line, sql, start, i);
      SkipChars(sql, start, i + 1, end);
    }
  }

  lemma {:induction false} SkipBody(left: nat, sql: string, start: nat, i: nat)
    requires start <= i && 0 < left && i + left <= |sql|
    ensures Rest(Body(left), sql, start, i) == Rest(Top, sql, start, i + left)
    decreases left
  {
    hide Rest;
    if left == 1 {
      AdvanceTo(Body(left), Top, sql, start, i);
    } else {
      AdvanceTo(Body(left), Body(left - 1), sql, start, i);
      SkipBody(left - 1, sql, start, i + 1);
    }
  }

  /** Searching the rest of a text is searching the text. */
  lemma IndexOfShift(s: string, p: string, i: nat, from: nat)
    requires i + from <= |s|
    ensures IndexOf(s, p, i + from) == match IndexOf(s[i..], p, from) case None => None case Some(k) => Some(i + k)
  {
    hide OccursAt;
    var t := s[i..];
    forall k: nat | i <= k
      ensures OccursAt(s, p, k) == OccursAt(t, p, k - i)
    {
      OccursShift(s, p, i, k);
    }
    match IndexOf(t, p, from)
    case Some(k) =>
      forall j: nat | i + from <= j < i + k ensures !OccursAt(s, p, j) {
        assert OccursAt(s, p, j) == OccursAt(t, p, j - i);
      }
      IndexOfIs(s, p, i + from, i + k);
    case None =>
  }

  lemma OccursShift(s: string, p: string, i: nat, k: nat)
    requires i <= k && i <= |s|
    ensures OccursAt(s, p, k) == OccursAt(s[i..], p, k - i)
  {
    if k + |p| <= |s| {
      assert s[k..k + |p|] == s[i..][k - i..k - i + |p|];
    }
  }
}
