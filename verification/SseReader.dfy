/** Reading the assistant's event stream from chunks cut anywhere. */
module SseReader {
  import opened Common
  import opened Text

  /** What the reader looks at in a parsed payload. */
  datatype Message = Message(
    delta: Option<string>, message: Option<string>,
    promptTokens: Option<int>, completionTokens: Option<int>, totalTokens: Option<int>)

  datatype Dispatch = Delta(text: string) | Usage(promptTokens: int, completionTokens: int, totalTokens: int)

  /** How reading ended: told that all is done, told of an error, or left with an unfinished stream. */
  datatype End = Completed | Errored(message: string) | Closed

  datatype Outcome = Outcome(events: seq<Dispatch>, end: End)

  /** What one frame does: dispatch, or end the reading. */
  datatype Effect = Go(events: seq<Dispatch>) | Stop(end: End)

  /** `JSON.parse`, `None` for text that is not JSON and for a falsy value. */
  type JsonParse = string -> Option<Message>

  const BOUNDARY := "\n\n"

  function Lines(s: string): seq<string>
    decreases |s|
  {
    match IndexOf(s, "\n", 0)
    case None => [s]
    case Some(k) => [s[..k]] + Lines(s[k + 1..])
  }

  predicate StartsWith(s: string, p: string) {
    |p| <= |s| && s[..|p|] == p
  }

  /** The last event line names the event. */
  function EventOf(lines: seq<string>): string {
    if lines == [] then "message"
    else
      var line := lines[|lines| - 1];
      if StartsWith(line, "event:") then Trim(line[6..]) else EventOf(lines[..|lines| - 1])
  }

  function DataLines(lines: seq<string>): seq<string> {
    if lines == [] then []
    else
      var line := lines[|lines| - 1];
      DataLines(lines[..|lines| - 1]) + if StartsWith(line, "data:") then [Trim(line[5..])] else []
  }

  function FrameOf(frame: string): (string, string) {
    (EventOf(Lines(frame)), Join(DataLines(Lines(frame)), "\n"))
  }

  function OrElse<T>(o: Option<T>, other: T): T {
    if o.Some? then o.value else other
  }

  function EffectOf(frame: string, parse: JsonParse, wantsUsage: bool): Effect {
    var (event, data) := FrameOf(frame);
    if event == "done" then Stop(Completed)
    else
      var parsed := parse(data);
      if event == "error" then
        Stop(Errored(OrElse(if parsed.Some? then parsed.value.message else None, "AI provider request failed.")))
      else if event == "usage" then
        Go(if parsed.Some? && wantsUsage
           then [Usage(OrElse(parsed.value.promptTokens, 0), OrElse(parsed.value.completionTokens, 0),
                       OrElse(parsed.value.totalTokens, 0))]
           else [])
      else
        Go(if parsed.Some? && OrElse(parsed.value.delta, "") != "" then [Delta(parsed.value.delta.value)] else [])
  }

  function Before(events: seq<Dispatch>, rest: Outcome): Outcome {
    Outcome(events + rest.events, rest.end)
  }

  /** A frame's effect, then the rest unless the frame ended the reading. */
  function After(effect: Effect, rest: Outcome): Outcome {
    match effect
    case Stop(end) => Outcome([], end)
    case Go(events) => Before(events, rest)
  }

  /** Reading a whole text: frame by frame up to the first that ends it; what follows the last boundary is ignored. */
  function Interp(text: string, parse: JsonParse, wantsUsage: bool): Outcome
    decreases |text|
  {
    match IndexOf(text, BOUNDARY, 0)
    case None => Outcome([], Closed)
    case Some(b) => After(EffectOf(text[..b], parse, wantsUsage), Interp(text[b + 2..], parse, wantsUsage))
  }

  lemma NoLines()
    ensures EventOf([]) == "message" && DataLines([]) == []
  {
  }

  lemma LineByLine(lines: seq<string>, i: nat)
    requires i < |lines|
    ensures StartsWith(lines[i], "event:") ==> |lines[i]| >= 6 && !StartsWith(lines[i], "data:")
    ensures StartsWith(lines[i], "data:") ==> |lines[i]| >= 5
    ensures EventOf(lines[..i + 1]) ==
            if StartsWith(lines[i], "event:") then Trim(lines[i][6..]) else EventOf(lines[..i])
    ensures DataLines(lines[..i + 1])
         == if StartsWith(lines[i], "data:") then DataLines(lines[..i]) + [Trim(lines[i][5..])]
           else DataLines(lines[..i])
  {
    hide Trim;
    var line := lines[i];
    assert lines[..i + 1][..i] == lines[..i] && lines[..i + 1][i] == line;
    assert StartsWith(line, "event:") ==> line[0] == line[..6][0] == 'e';
    assert StartsWith(line, "data:") ==> line[0] == line[..5][0] == 'd';
  }

  method ParseSseFrame(frame: string) returns (event: string, data: string)
    ensures (event, data) == FrameOf(frame)
  {
    hide Lines, EventOf, DataLines, StartsWith, Trim;
    event := "message";
    NoLines();
    var dataLines: seq<string> := [];
    var lines := Lines(frame);
    for i := 0 to |lines|
      invariant event == EventOf(lines[..i]) && dataLines == DataLines(lines[..i])
    {
      LineByLine(lines, i);
      var line := lines[i];
      if StartsWith(line, "event:") {
        event := Trim(line[6..]);
      } else if StartsWith(line, "data:") {
        dataLines := dataLines + [Trim(line[5..])];
      }
    }
    assert lines[..|lines|] == lines;
    data := Join(dataLines, "\n");
  }

  /** What a frame does, as the reader decides it. */
  method HandleFrame(frame: string, parse: JsonParse, wantsUsage: bool) returns (effect: Effect)
    ensures effect == EffectOf(frame, parse, wantsUsage)
  {
    hide FrameOf;
    var event, data := ParseSseFrame(frame);
    if event == "done" {
      return Stop(Completed);
    }
    if event == "error" {
      var parsed := parse(data);
      return Stop(Errored(OrElse(if parsed.Some? then parsed.value.message else None, "AI provider request failed.")));
    }
    if event == "usage" {
      var parsed := parse(data);
      if parsed.Some? && wantsUsage {
        return Go([Usage(OrElse(parsed.value.promptTokens, 0), OrElse(parsed.value.completionTokens, 0),
                         OrElse(parsed.value.totalTokens, 0))]);
      }
      return Go([]);
    }
    var parsed := parse(data);
    if parsed.Some? && parsed.value.delta.Some? && parsed.value.delta.value != "" {
      return Go([Delta(parsed.value.delta.value)]);
    }
    return Go([]);
  }

  /** A boundary found in what has arrived is the first boundary of all that will. */
  lemma BoundaryStays(buffer: string, later: string)
    requires IndexOf(buffer, BOUNDARY, 0).Some?
    ensures var b := IndexOf(buffer, BOUNDARY, 0).value;
            && IndexOf(buffer + later, BOUNDARY, 0) == Some(b)
            && (buffer + later)[..b] == buffer[..b] && (buffer + later)[b + 2..] == buffer[b + 2..] + later
  {
    var b := IndexOf(buffer, BOUNDARY, 0).value;
    var s := buffer + later;
    assert s[b..b + 2] == buffer[b..b + 2];
    forall j | 0 <= j < b
      ensures !OccursAt(s, BOUNDARY, j)
    {
      assert s[j..j + 2] == buffer[j..j + 2];
      assert !OccursAt(buffer, BOUNDARY, j);
    }
    IndexOfIs(s, BOUNDARY, 0, b);
  }

  lemma BeforeMore(events: seq<Dispatch>, more: seq<Dispatch>, rest: Outcome)
    ensures Before(events, Before(more, rest)) == Before(events + more, rest)
  {
    assert events + (more + rest.events) == (events + more) + rest.events;
  }

  /** One frame less: the effect of the first frame, then whatever the text after it does. */
  lemma InterpStep(buffer: string, later: string, parse: JsonParse, wantsUsage: bool)
    requires IndexOf(buffer, BOUNDARY, 0).Some?
    ensures var b := IndexOf(buffer, BOUNDARY, 0).value;
            Interp(buffer + later, parse, wantsUsage)
            == After(EffectOf(buffer[..b], parse, wantsUsage), Interp(buffer[b + 2..] + later, parse, wantsUsage))
  {
    hide EffectOf, IndexOf;
    BoundaryStays(buffer, later);
  }

  /** Handles the complete frames in the buffer; `later` is the text still to come. */
  method Drain(buffer: string, ghost later: string, parse: JsonParse, wantsUsage: bool)
    returns (rest: string, events: seq<Dispatch>, end: Option<End>)
    ensures Interp(buffer + later, parse, wantsUsage)
         == if end.Some? then Outcome(events, end.value) else Before(events, Interp(rest + later, parse, wantsUsage))
    ensures end.None? ==> IndexOf(rest, BOUNDARY, 0).None?
  {
    hide EffectOf, IndexOf, Interp, Before;
    rest, events := buffer, [];
    assert Before([], Interp(buffer + later, parse, wantsUsage)) == Interp(buffer + later, parse, wantsUsage) by {
      BeforeNone(Interp(buffer + later, parse, wantsUsage));
    }
    while IndexOf(rest, BOUNDARY, 0).Some?
      invariant Interp(buffer + later, parse, wantsUsage) == Before(events, Interp(rest + later, parse, wantsUsage))
      decreases |rest|
    {
      var boundary := IndexOf(rest, BOUNDARY, 0).value;
      InterpStep(rest, later, parse, wantsUsage);
      var frame := rest[..boundary];
      rest := rest[boundary + 2..];
      var effect := HandleFrame(frame, parse, wantsUsage);
      match effect {
        case Stop(stop) =>
          BeforeStop(events, stop);
          return rest, events, Some(stop);
        case Go(more) =>
          BeforeMore(events, more, Interp(rest + later, parse, wantsUsage));
          events := events + more;
      }
    }
    end := None;
  }

  lemma BeforeNone(o: Outcome)
    ensures Before([], o) == o
  {
  }

  lemma BeforeStop(events: seq<Dispatch>, end: End)
    ensures Before(events, Outcome([], end)) == Outcome(events, end)
  {
    assert events + [] == events;
  }

  lemma InterpOpen(text: string, parse: JsonParse, wantsUsage: bool)
    requires IndexOf(text, BOUNDARY, 0).None?
    ensures Interp(text, parse, wantsUsage) == Outcome([], Closed)
  {
  }

  /** The outcome depends on the text that arrives and not on how it is cut into chunks. */
  method StreamAiChat(chunks: seq<string>, parse: JsonParse, wantsUsage: bool) returns (outcome: Outcome)
    ensures outcome == Interp(Flatten(chunks), parse, wantsUsage)
  {
    hide EffectOf, IndexOf, Flatten, Interp, Before;
    var buffer := "";
    var events: seq<Dispatch> := [];
    ghost var whole := Interp(Flatten(chunks), parse, wantsUsage);
    assert chunks[0..] == chunks && "" + Flatten(chunks) == Flatten(chunks);
    BeforeNone(whole);
    NoBoundary();
    for i := 0 to |chunks|
      invariant IndexOf(buffer, BOUNDARY, 0).None?
      invariant whole == Before(events, Interp(buffer + Flatten(chunks[i..]), parse, wantsUsage))
    {
      ghost var later := Flatten(chunks[i + 1..]);
      FlattenHead(chunks[i..]);
      assert chunks[i..][1..] == chunks[i + 1..];
      assert buffer + (chunks[i] + later) == (buffer + chunks[i]) + later;
      buffer := buffer + chunks[i];
      var rest, more, end := Drain(buffer, later, parse, wantsUsage);
      ghost var after := if end.Some? then Outcome([], end.value) else Interp(rest + later, parse, wantsUsage);
      BeforeMore(events, more, after);
      buffer, events := rest, events + more;
      if end.Some? {
        BeforeStop(more, end.value);
        BeforeStop(events, end.value);
        return Outcome(events, end.value);
      }
    }
    FlattenNone(chunks);
    assert buffer + Flatten(chunks[|chunks|..]) == buffer;
    InterpOpen(buffer, parse, wantsUsage);
    BeforeStop(events, Closed);
    return Outcome(events, Closed);
  }

  lemma NoBoundary()
    ensures IndexOf("", BOUNDARY, 0).None?
  {
  }

  lemma FlattenHead(chunks: seq<string>)
    requires chunks != []
    ensures Flatten(chunks) == chunks[0] + Flatten(chunks[1..])
  {
  }

  lemma FlattenNone(chunks: seq<string>)
    ensures Flatten(chunks[|chunks|..]) == []
  {
  }
}
