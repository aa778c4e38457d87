/** The server's event frames, and what the reader makes of them. */
module SseRoundTrip {
  import opened Common
  import opened SseReader
  import opened Text

  datatype TokenUsage = TokenUsage(promptTokens: int, completionTokens: int, totalTokens: int)

  /** The payload encodings the server uses, and the client's parser. */
  datatype Json = Json(
    delta: string -> string,
    usage: TokenUsage -> string,
    error: string -> string,
    parse: JsonParse)

  /** What the model's stream does: it yields deltas, then ends (with a usage if one was reported) or fails. */
  datatype Stream = Stream(deltas: seq<string>, usage: Option<TokenUsage>, failure: Option<string>)

  /** An encoding fills one line, without blanks around it. */
  predicate OneLine(s: string) {
    Trimmed(s) && '\n' !in s
  }

  /** JSON as the program uses it: one line that parses back to what was written. */
  ghost predicate Faithful(json: Json) {
    && (forall d: string ::
        OneLine(json.delta(d)) && json.parse(json.delta(d)) == Some(Message(Some(d), None, None, None, None)))
    && (forall m: string ::
        OneLine(json.error(m)) && json.parse(json.error(m)) == Some(Message(None, Some(m), None, None, None)))
    && (forall u: TokenUsage :: OneLine(json.usage(u)) && json.parse(json.usage(u))
          == Some(Message(None, None, Some(u.promptTokens), Some(u.completionTokens), Some(u.totalTokens))))
  }

  function DeltaFrame(json: Json, d: string): string {
    "data: " + json.delta(d) + "\n\n"
  }

  function DeltaFrames(json: Json, deltas: seq<string>): string {
    if deltas == [] then "" else DeltaFrame(json, deltas[0]) + DeltaFrames(json, deltas[1..])
  }

  function UsageFrame(json: Json, u: TokenUsage): string {
    "event: usage\ndata: " + json.usage(u) + "\n\n"
  }

  function ErrorFrame(json: Json, message: string): string {
    "event: error\ndata: " + json.error(message) + "\n\n"
  }

  const DONE_FRAME := "event: done\ndata: {}\n\n"

  /** What follows the deltas. */
  function LastFrames(json: Json, s: Stream): string {
    if s.failure.Some? then ErrorFrame(json, s.failure.value)
    else (if s.usage.Some? then UsageFrame(json, s.usage.value) else "") + DONE_FRAME
  }

  lemma {:induction false} DeltaFramesSnoc(json: Json, deltas: seq<string>, d: string)
    ensures DeltaFrames(json, deltas + [d]) == DeltaFrames(json, deltas) + DeltaFrame(json, d)
  {
    hide DeltaFrame;
    if deltas == [] {
      assert ([d])[1..] == [];
    } else {
      assert (deltas + [d])[1..] == deltas[1..] + [d];
      DeltaFramesSnoc(json, deltas[1..], d);
    }
  }

  /** The response the server writes to. */
  class Response {
    var body: string

    constructor ()
      ensures body == ""
    {
      body := "";
    }

    method Write(s: string)
      modifies this
      ensures body == old(body) + s
    {
      body := body + s;
    }
  }

  method ChatStream(json: Json, s: Stream, res: Response)
    modifies res
    ensures res.body == old(res.body) + DeltaFrames(json, s.deltas) + LastFrames(json, s)
  {
    hide DeltaFrames;
    ghost var start := res.body;
    assert start + DeltaFrames(json, s.deltas[..0]) == start by { NoDeltas(json); }
    for i := 0 to |s.deltas|
      invariant res.body == start + DeltaFrames(json, s.deltas[..i])
    {
      DeltaFramesSnoc(json, s.deltas[..i], s.deltas[i]);
      assert s.deltas[..i + 1] == s.deltas[..i] + [s.deltas[i]];
      res.Write("data: " + json.delta(s.deltas[i]) + "\n\n");
    }
    assert s.deltas[..|s.deltas|] == s.deltas;
    if s.failure.Some? {
      res.Write("event: error\ndata: " + json.error(s.failure.value) + "\n\n");
    } else {
      if s.usage.Some? {
        res.Write("event: usage\ndata: " + json.usage(s.usage.value) + "\n\n");
      }
      res.Write("event: done\ndata: {}\n\n");
    }
  }

  lemma NoDeltas(json: Json)
    ensures DeltaFrames(json, []) == ""
  {
  }

  // Reading one frame.

  /** A frame without a blank line in it, and not ending in a line end, stops at its own boundary. */
  lemma FirstBoundary(frame: string, later: string)
    requires frame != "" && frame[|frame| - 1] != '\n'
    requires forall i :: 0 <= i < |frame| - 1 ==> !(frame[i] == '\n' && frame[i + 1] == '\n')
    ensures var s := frame + "\n\n" + later;
            IndexOf(s, BOUNDARY, 0) == Some(|frame|) && s[..|frame|] == frame && s[|frame| + 2..] == later
  {
    var s := frame + "\n\n" + later;
    assert s[|frame|..|frame| + 2] == BOUNDARY;
    forall j | 0 <= j < |frame|
      ensures !OccursAt(s, BOUNDARY, j)
    {
      assert s[j..j + 2] == [s[j], s[j + 1]];
    }
    IndexOfIs(s, BOUNDARY, 0, |frame|);
  }

  lemma OneLineOnly(s: string)
    requires '\n' !in s
    ensures Lines(s) == [s]
  {
    forall k: nat | k < |s|
      ensures !OccursAt(s, "\n", k)
    {
      assert s[k..k + 1][0] == s[k];
    }
  }

  lemma TwoLines(a: string, b: string)
    requires '\n' !in a && '\n' !in b
    ensures Lines(a + "\n" + b) == [a, b]
  {
    var s := a + "\n" + b;
    assert s[|a|..|a| + 1] == "\n";
    forall j | 0 <= j < |a|
      ensures !OccursAt(s, "\n", j)
    {
      assert s[j..j + 1] == [a[j]];
    }
    IndexOfIs(s, "\n", 0, |a|);
    assert s[..|a|] == a && s[|a| + 1..] == b;
    OneLineOnly(b);
  }

  /** The value of a field line: what was written after its name and a space. */
  lemma FieldValue(x: string)
    requires Trimmed(x)
    ensures Trim(" " + x) == x
  {
    assert Blank(" ") && Blank("");
    TrimUnique(" ", x, "");
    assert " " + x + "" == " " + x;
  }

  lemma DataFrame(x: string)
    requires OneLine(x)
    ensures FrameOf("data: " + x) == ("message", x)
  {
    hide Trim, Trimmed;
    var line := "data: " + x;
    OneLineOnly(line);
    FieldValue(x);
    assert line[..5] == "data:" && line[5..] == " " + x;
    NoLines();
    LineByLine([line], 0);
    assert [line][..1] == [line] && |[line][..0]| == 0;
    assert EventOf([line]) == "message" && DataLines([line]) == [x];
  }

  lemma EventFrame(name: string, x: string)
    requires OneLine(name) && OneLine(x)
    ensures FrameOf("event: " + name + "\ndata: " + x) == (name, x)
  {
    hide Trim, Trimmed, Lines, EventOf, DataLines;
    var a, b := "event: " + name, "data: " + x;
    assert "event: " + name + "\ndata: " + x == a + "\n" + b;
    TwoLines(a, b);
    assert a == "event:" + " " + name && b == "data:" + " " + x;
    FieldLine("event:", name);
    FieldLine("data:", x);
    TwoFields(a, b);
    assert Join([x], "\n") == x;
  }

  lemma FieldLine(field: string, x: string)
    requires Trimmed(x)
    ensures var line := field + " " + x; StartsWith(line, field) && Trim(line[|field|..]) == x
  {
    hide Trim, Trimmed;
    FieldValue(x);
    assert (field + " " + x)[|field|..] == " " + x;
  }

  /** An event line and a data line. */
  lemma TwoFields(a: string, b: string)
    requires StartsWith(a, "event:") && StartsWith(b, "data:")
    ensures EventOf([a, b]) == Trim(a[6..]) && DataLines([a, b]) == [Trim(b[5..])]
  {
    hide Trim, StartsWith, EventOf, DataLines;
    LineByLine([a, b], 0);
    LineByLine([b], 0);
    NotBoth(b);
    LineByLine([a, b], 1);
    assert [a, b][..2] == [a, b] && [a, b][..1] == [a] && [a, b][..0] == [];
    NoLines();
  }

  lemma NotBoth(line: string)
    requires StartsWith(line, "data:")
    ensures !StartsWith(line, "event:") && |line| >= 5
  {
    assert line[..5][0] == 'd';
    assert line[0] == 'd';
  }

  /** A frame the server writes is one step of the reader. */
  lemma FrameStep(frame: string, later: string, json: Json, wantsUsage: bool)
    requires frame != "" && frame[|frame| - 1] != '\n'
    requires forall i :: 0 <= i < |frame| - 1 ==> !(frame[i] == '\n' && frame[i + 1] == '\n')
    ensures Interp(frame + "\n\n" + later, json.parse, wantsUsage)
         == After(EffectOf(frame, json.parse, wantsUsage), Interp(later, json.parse, wantsUsage))
  {
    hide EffectOf, IndexOf;
    FirstBoundary(frame, later);
  }

  lemma DeltaStep(json: Json, d: string, later: string, wantsUsage: bool)
    requires Faithful(json)
    ensures Interp(DeltaFrame(json, d) + later, json.parse, wantsUsage)
         == Before(if d == "" then [] else [Delta(d)], Interp(later, json.parse, wantsUsage))
  {
    hide Interp, FrameOf;
    var x := json.delta(d);
    DataFrame(x);
    assert DeltaFrame(json, d) + later == "data: " + x + "\n\n" + later;
    FrameStep("data: " + x, later, json, wantsUsage);
  }

  lemma NamedStep(name: string, x: string, later: string, json: Json, wantsUsage: bool)
    requires OneLine(name) && OneLine(x)
    ensures var frame := "event: " + name + "\ndata: " + x;
            && FrameOf(frame) == (name, x)
            && Interp(frame + "\n\n" + later, json.parse, wantsUsage)
            == After(EffectOf(frame, json.parse, wantsUsage), Interp(later, json.parse, wantsUsage))
  {
    hide Interp, FrameOf, EffectOf;
    EventFrame(name, x);
    var a, b := "event: " + name, "data: " + x;
    var frame := "event: " + name + "\ndata: " + x;
    assert frame == a + "\n" + b;
    forall i | 0 <= i < |frame| - 1
      ensures !(frame[i] == '\n' && frame[i + 1] == '\n')
    {
      assert frame[i] == '\n' ==> i == |a|;
    }
    FrameStep(frame, later, json, wantsUsage);
  }

  function NonEmpty(deltas: seq<string>): seq<Dispatch> {
    if deltas == [] then [] else (if deltas[0] == "" then [] else [Delta(deltas[0])]) + NonEmpty(deltas[1..])
  }

  lemma {:induction false} DeltasRead(json: Json, deltas: seq<string>, later: string, wantsUsage: bool)
    requires Faithful(json)
    ensures Interp(DeltaFrames(json, deltas) + later, json.parse, wantsUsage)
         == Before(NonEmpty(deltas), Interp(later, json.parse, wantsUsage))
  {
    hide Interp, Faithful, DeltaFrame;
    if deltas == [] {
      assert "" + later == later;
    } else {
      var tail := DeltaFrames(json, deltas[1..]) + later;
      assert DeltaFrames(json, deltas) + later == DeltaFrame(json, deltas[0]) + tail;
      DeltaStep(json, deltas[0], tail, wantsUsage);
      DeltasRead(json, deltas[1..], later, wantsUsage);
      BeforeMore(if deltas[0] == "" then [] else [Delta(deltas[0])], NonEmpty(deltas[1..]),
                 Interp(later, json.parse, wantsUsage));
    }
  }

  /** What the reader of a whole server response sees. */
  function Seen(s: Stream, wantsUsage: bool): Outcome {
    if s.failure.Some? then Outcome(NonEmpty(s.deltas), Errored(s.failure.value))
    else
      var u := if s.usage.Some? && wantsUsage
               then [Usage(s.usage.value.promptTokens, s.usage.value.completionTokens, s.usage.value.totalTokens)]
                 else [];
      Outcome(NonEmpty(s.deltas) + u, Completed)
  }

  lemma DoneRead(json: Json, after: string, wantsUsage: bool)
    ensures Interp(DONE_FRAME + after, json.parse, wantsUsage) == Outcome([], Completed)
  {
    hide Interp, FrameOf, IndexOf;
    assert DONE_FRAME + after == "event: done\ndata: {}" + "\n\n" + after;
    assert "event: " + "done" + "\ndata: " + "{}" == "event: done\ndata: {}";
    NamedStep("done", "{}", after, json, wantsUsage);
  }

  lemma ErrorRead(json: Json, message: string, after: string, wantsUsage: bool)
    requires Faithful(json)
    ensures Interp(ErrorFrame(json, message) + after, json.parse, wantsUsage) == Outcome([], Errored(message))
  {
    hide Interp, FrameOf, Faithful, OneLine;
    var x := json.error(message);
    Encoded(json, message, TokenUsage(0, 0, 0));
    assert OneLine("error") by { NameOneLine(); }
    assert ErrorFrame(json, message) + after == "event: " + "error" + "\ndata: " + x + "\n\n" + after;
    NamedStep("error", x, after, json, wantsUsage);
  }

  lemma UsageRead(json: Json, u: TokenUsage, later: string, wantsUsage: bool)
    requires Faithful(json)
    ensures Interp(UsageFrame(json, u) + later, json.parse, wantsUsage)
         == Before(if wantsUsage then [Usage(u.promptTokens, u.completionTokens, u.totalTokens)] else [],
                   Interp(later, json.parse, wantsUsage))
  {
    hide Interp, FrameOf, Faithful, OneLine;
    var x := json.usage(u);
    Encoded(json, "", u);
    assert OneLine("usage") by { NameOneLine(); }
    assert UsageFrame(json, u) + later == "event: " + "usage" + "\ndata: " + x + "\n\n" + later;
    NamedStep("usage", x, later, json, wantsUsage);
  }

  lemma NameOneLine()
    ensures OneLine("error") && OneLine("usage")
  {
  }

  lemma LastRead(json: Json, s: Stream, after: string, wantsUsage: bool)
    requires Faithful(json)
    ensures Interp(LastFrames(json, s) + after, json.parse, wantsUsage) == Seen(s.(deltas := []), wantsUsage)
  {
    hide Interp, Faithful, ErrorFrame, UsageFrame;
    DoneRead(json, after, wantsUsage);
    if s.failure.Some? {
      ErrorRead(json, s.failure.value, after, wantsUsage);
    } else if s.usage.Some? {
      UsageRead(json, s.usage.value, DONE_FRAME + after, wantsUsage);
      assert LastFrames(json, s) + after == UsageFrame(json, s.usage.value) + (DONE_FRAME + after);
    } else {
      assert LastFrames(json, s) == DONE_FRAME;
    }
  }

  lemma Encoded(json: Json, m: string, u: TokenUsage)
    requires Faithful(json)
    ensures OneLine(json.error(m)) && json.parse(json.error(m)) == Some(Message(None, Some(m), None, None, None))
    ensures OneLine(json.usage(u)) && json.parse(json.usage(u))
              == Some(Message(None, None, Some(u.promptTokens), Some(u.completionTokens), Some(u.totalTokens)))
  {
  }

  /**
   * The reader inverts the writer, however the response is cut into chunks and whatever follows it: the non-empty
   * deltas in order, then the usage, then completion; or the deltas and the error.
   */
  lemma ReaderInvertsWriter(json: Json, s: Stream, chunks: seq<string>, after: string, wantsUsage: bool)
    requires Faithful(json)
    requires Flatten(chunks) == DeltaFrames(json, s.deltas) + LastFrames(json, s) + after
    ensures Interp(Flatten(chunks), json.parse, wantsUsage) == Seen(s, wantsUsage)
  {
    hide Interp, Faithful, DeltaFrames, LastFrames, Flatten;
    assert Flatten(chunks) == DeltaFrames(json, s.deltas) + (LastFrames(json, s) + after);
    DeltasRead(json, s.deltas, LastFrames(json, s) + after, wantsUsage);
    LastRead(json, s, after, wantsUsage);
    assert NonEmpty([]) == [];
  }
}
