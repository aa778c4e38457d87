/** Any frame, as a list of field lines: what the reader takes from it, and what it does. */
module SseFrames {
  import opened Common
  import opened SseReader
  import opened Text

  datatype Line = EventLine(text: string) | DataLine(text: string) | OtherLine(text: string)

  function LineText(l: Line): string {
    match l
    case EventLine(text) => "event:" + text
    case DataLine(text) => "data:" + text
    case OtherLine(text) => text
  }

  predicate Proper(l: Line) {
    && '\n' !in l.text
    && (l.OtherLine? ==> !StartsWith(l.text, "event:") && !StartsWith(l.text, "data:"))
  }

  predicate AllProper(ls: seq<Line>) {
    forall i :: 0 <= i < |ls| ==> Proper(ls[i])
  }

  function Texts(ls: seq<Line>): (r: seq<string>)
    ensures |r| == |ls|
  {
    seq(|ls|, i requires 0 <= i < |ls| => LineText(ls[i]))
  }

  /** Line `i` is the last that names an event, and this is its name. */
  predicate NamedLast(ls: seq<Line>, i: nat, event: string) {
    && i < |ls| && ls[i].EventLine? && event == Trim(ls[i].text)
    && forall j :: i < j < |ls| ==> !ls[j].EventLine?
  }

  /** The event that a frame is about: the last one named, `message` when none is. */
  ghost predicate IsEvent(ls: seq<Line>, event: string) {
    || (event == "message" && forall i :: 0 <= i < |ls| ==> !ls[i].EventLine?)
    || exists i :: NamedLast(ls, i, event)
  }

  /** The texts of the data lines, trimmed, in order. */
  function Payloads(ls: seq<Line>): seq<string> {
    if ls == [] then [] else PayloadOf(ls[0]) + Payloads(ls[1..])
  }

  function PayloadOf(l: Line): seq<string> {
    if l.DataLine? then [Trim(l.text)] else []
  }

  lemma {:induction false} LinesBack(texts: seq<string>)
    requires texts != [] && forall i :: 0 <= i < |texts| ==> '\n' !in texts[i]
    ensures Lines(Join(texts, "\n")) == texts
    decreases texts
  {
    var first := texts[0];
    if |texts| == 1 {
      NoLineEnd(first);
      assert texts == [first];
    } else {
      var rest := Join(texts[1..], "\n");
      var s := first + "\n" + rest;
      LinesBack(texts[1..]);
      FirstLineEnd(first, rest);
      assert texts == [first] + texts[1..];
    }
  }

  lemma NoLineEnd(s: string)
    requires '\n' !in s
    ensures Lines(s) == [s]
  {
    forall k: nat | k < |s| ensures !OccursAt(s, "\n", k) {
      assert s[k..k + 1][0] == s[k];
    }
  }

  lemma FirstLineEnd(first: string, rest: string)
    requires '\n' !in first
    ensures Lines(first + "\n" + rest) == [first] + Lines(rest)
  {
    var s := first + "\n" + rest;
    assert s[|first|..|first| + 1] == "\n";
    forall j | 0 <= j < |first| ensures !OccursAt(s, "\n", j) {
      assert s[j..j + 1] == [first[j]];
    }
    IndexOfIs(s, "\n", 0, |first|);
    assert s[..|first|] == first && s[|first| + 1..] == rest;
  }

  /** How the reader sees one line. */
  lemma LineSeen(l: Line)
    requires Proper(l)
    ensures StartsWith(LineText(l), "event:") <==> l.EventLine?
    ensures StartsWith(LineText(l), "data:") <==> l.DataLine?
    ensures l.EventLine? ==> LineText(l)[6..] == l.text
    ensures l.DataLine? ==> LineText(l)[5..] == l.text
  {
    var s := LineText(l);
    if l.EventLine? {
      assert s[..6] == "event:" && s[0] == 'e';
      assert |s| >= 5 && s[..5][0] == 'e';
    }
    if l.DataLine? {
      assert s[..5] == "data:" && s[0] == 'd';
      assert |s| >= 6 ==> s[..6][0] == 'd';
    }
  }

  lemma {:induction false} EventSeen(ls: seq<Line>)
    requires AllProper(ls)
    ensures IsEvent(ls, EventOf(Texts(ls)))
    decreases ls
  {
    hide Trim, IsEvent;
    if ls == [] {
      NoEvent();
    } else {
      var front, last := ls[..|ls| - 1], ls[|ls| - 1];
      assert Texts(ls)[..|ls| - 1] == Texts(front) && ls == front + [last];
      LineSeen(last);
      EventSeen(front);
      EventSnoc(front, last, EventOf(Texts(front)));
    }
  }

  lemma NoEvent()
    ensures IsEvent([], "message")
  {
  }

  /** One more line names the event, or leaves it as it was. */
  lemma EventSnoc(ls: seq<Line>, last: Line, event: string)
    requires IsEvent(ls, event)
    ensures IsEvent(ls + [last], if last.EventLine? then Trim(last.text) else event)
  {
    hide Trim;
    var all := ls + [last];
    assert all[|ls|] == last;
    if last.EventLine? {
      assert NamedLast(all, |ls|, Trim(last.text));
    } else if i :| NamedLast(ls, i, event) {
      assert NamedLast(all, i, event);
    }
  }

  lemma {:induction false} PayloadsSnoc(ls: seq<Line>, last: Line)
    ensures Payloads(ls + [last]) == Payloads(ls) + PayloadOf(last)
  {
    hide PayloadOf;
    if ls == [] {
      assert [last][1..] == [] && [] + [last] == [last];
      assert Payloads([last]) == PayloadOf(last) + Payloads([]);
    } else {
      assert (ls + [last])[1..] == ls[1..] + [last] && (ls + [last])[0] == ls[0];
      PayloadsSnoc(ls[1..], last);
      assert PayloadOf(ls[0]) + (Payloads(ls[1..]) + PayloadOf(last))
          == (PayloadOf(ls[0]) + Payloads(ls[1..])) + PayloadOf(last);
    }
  }

  lemma {:induction false} DataSeen(ls: seq<Line>)
    requires AllProper(ls)
    ensures DataLines(Texts(ls)) == Payloads(ls)
    decreases ls
  {
    hide Trim;
    if ls != [] {
      var front, last := ls[..|ls| - 1], ls[|ls| - 1];
      assert Texts(ls)[..|ls| - 1] == Texts(front) && ls == front + [last];
      LineSeen(last);
      DataSeen(front);
      PayloadsSnoc(front, last);
    }
  }

  /** The reader takes from a frame the last event named and the data lines, one per line. */
  lemma FrameReads(ls: seq<Line>)
    requires ls != [] && AllProper(ls)
    ensures var (event, data) := FrameOf(Join(Texts(ls), "\n"));
            IsEvent(ls, event) && data == Join(Payloads(ls), "\n")
  {
    hide EventOf, DataLines, IsEvent, Payloads, Lines, Join;
    forall i | 0 <= i < |ls| ensures '\n' !in Texts(ls)[i] {
      assert Proper(ls[i]);
    }
    LinesBack(Texts(ls));
    EventSeen(ls);
    DataSeen(ls);
  }

  /** A count, 0 when it is missing. */
  function Count(count: Option<int>): int {
    if count.None? then 0 else count.value
  }

  /**
   * What the frame does: `done` and `error` end the reading, `usage` reports its counts to whoever asked for them, with
   * 0 for a missing one, and anything else is a delta unless it is empty.
   */
  lemma FrameActs(ls: seq<Line>, parse: JsonParse, wantsUsage: bool)
    requires ls != [] && AllProper(ls)
    ensures var effect, parsed := EffectOf(Join(Texts(ls), "\n"), parse, wantsUsage), parse(Join(Payloads(ls), "\n"));
            var events := if effect.Go? then effect.events else [];
            && (effect == Stop(Completed) <==> IsEvent(ls, "done"))
            && (effect.Stop? && effect.end.Errored? <==> IsEvent(ls, "error"))
            && (IsEvent(ls, "error") ==>
                  effect.end.message == match parsed
                                        case Some(Message(_, Some(m), _, _, _)) => m
                                        case _ => "AI provider request failed.")
            && (IsEvent(ls, "usage") && parsed.Some? && wantsUsage ==>
                  && |events| == 1 && events[0].Usage?
                  && events[0].promptTokens == Count(parsed.value.promptTokens)
                  && events[0].completionTokens == Count(parsed.value.completionTokens)
                  && events[0].totalTokens == Count(parsed.value.totalTokens))
            && (IsEvent(ls, "usage") && !(parsed.Some? && wantsUsage) ==> events == [])
            && (!IsEvent(ls, "usage") && effect.Go? ==>
                  events == match parsed
                            case Some(Message(Some(d), _, _, _, _)) => if d == "" then [] else [Delta(d)]
                            case _ => [])
  {
    hide IsEvent, Payloads, Join, FrameOf;
    FrameReads(ls);
    var event := FrameOf(Join(Texts(ls), "\n")).0;
    OneEvent(ls, event);
  }

  /** A frame is about one event. */
  lemma OneEvent(ls: seq<Line>, event: string)
    requires IsEvent(ls, event)
    ensures forall other :: IsEvent(ls, other) ==> other == event
  {
    hide Trim;
  }
}
