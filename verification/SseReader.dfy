/** The client SDKs' stream reader: chunks of decoded text are buffered and cut into lines, and the
    "data: " lines are yielded (a subset of section 9.2 of the WHATWG HTML Standard). `ws` is the
    language's whitespace predicate; the two SDKs differ only there. */
module SseReader {
  import opened Text

  const PREFIX := "data: "
  const DONE := "[DONE]"

  /** `buffer.split("\n")` */
  function Split(s: string): (r: seq<string>)
    ensures |r| > 0
  {
    if s == "" then [""]
    else
      var r, c := Split(s[..|s| - 1]), s[|s| - 1];
      if c == '\n' then r + [""] else r[..|r| - 1] + [r[|r| - 1] + [c]]
  }

  function Lines(s: string): seq<string> {
    Split(s)[..|Split(s)| - 1]
  }

  function Tail(s: string): string {
    Split(s)[|Split(s)| - 1]
  }

  /** Payloads yielded so far, and whether the end marker was seen. A yielded event is a function of
      its payload: the parsed JSON, or the raw text when it does not parse. */
  datatype Progress = Progress(events: seq<string>, done: bool)

  function DataOf(ws: char -> bool, line: string): Option<string> {
    var trimmed := Trim(ws, line);
    if PREFIX <= trimmed then Some(trimmed[|PREFIX|..]) else None
  }

  function ReadLine(p: Progress, data: Option<string>): Progress {
    if p.done || data.None? then p
    else if data.value == DONE then p.(done := true)
    else p.(events := p.events + [data.value])
  }

  function ReadLines(ws: char -> bool, lines: seq<string>): Progress {
    if lines == [] then Progress([], false)
    else ReadLine(ReadLines(ws, lines[..|lines| - 1]), DataOf(ws, lines[|lines| - 1]))
  }

  /** What a stream means, however it is cut into chunks: its complete lines, up to the end marker. */
  function Meaning(ws: char -> bool, text: string): Progress {
    ReadLines(ws, Lines(text))
  }

  /** The inner loop: it stops at the end marker. */
  method YieldLines(ws: char -> bool, before: Progress, ghost seen: seq<string>, lines: seq<string>)
    returns (result: Progress)
    requires !before.done && before == ReadLines(ws, seen)
    ensures result == ReadLines(ws, seen + lines)
  {
    hide ReadLines, Trim;
    result := before;
    assert seen + lines[..0] == seen;
    for i := 0 to |lines|
      invariant !result.done && result == ReadLines(ws, seen + lines[..i])
    {
      ReadSnoc(ws, seen + lines[..i], lines[i]);
      assert seen + lines[..i] + [lines[i]] == seen + lines[..i + 1];
      var line := Trim(ws, lines[i]);
      if PREFIX <= line {
        var data := line[|PREFIX|..];
        if data == DONE {
          result := result.(done := true);
          NothingAfterDone(ws, seen + lines[..i + 1], lines[i + 1..]);
          assert seen + lines[..i + 1] + lines[i + 1..] == seen + lines;
          return;
        }
        result := result.(events := result.events + [data]);
      }
    }
    assert lines[..|lines|] == lines;
  }

  /** The events depend only on the concatenation of the chunks. */
  method Stream(ws: char -> bool, chunks: seq<string>) returns (result: Progress)
    ensures result == Meaning(ws, Flatten(chunks))
  {
    hide ReadLines, Split;
    EmptyFrame(ws);
    result := Progress([], false);
    var buffer := "";
    assert chunks[..0] == [];
    for n := 0 to |chunks|
      invariant !result.done && result == Meaning(ws, Flatten(chunks[..n])) && buffer == Tail(Flatten(chunks[..n]))
    {
      ghost var seen := Flatten(chunks[..n]);
      assert chunks[..n + 1][..n] == chunks[..n];
      SplitResumes(seen, chunks[n]);
      buffer := buffer + chunks[n];
      var lines := Split(buffer);
      buffer, lines := lines[|lines| - 1], lines[..|lines| - 1];
      assert Lines(Flatten(chunks[..n + 1])) == Lines(seen) + lines;
      result := YieldLines(ws, result, Lines(seen), lines);
      if result.done {
        RestIgnored(ws, chunks, n + 1);
        return;
      }
    }
    assert chunks[..|chunks|] == chunks;
  }

  lemma {:induction false} ReadSnoc(ws: char -> bool, lines: seq<string>, line: string)
    ensures ReadLines(ws, lines + [line]) == ReadLine(ReadLines(ws, lines), DataOf(ws, line))
  {
    assert (lines + [line])[..|lines|] == lines;
  }

  /** Splitting can resume from the unfinished last line. */
  lemma {:induction false} SplitResumes(a: string, b: string)
    ensures Lines(a + b) == Lines(a) + Lines(Tail(a) + b) && Tail(a + b) == Tail(Tail(a) + b)
  {
    if b == "" {
      assert a + b == a && Tail(a) + b == Tail(a);
      TailHasNoNewline(a);
      SplitOneLine(Tail(a));
    } else {
      SplitResumes(a, b[..|b| - 1]);
      SplitLast(a, b);
      SplitLast(Tail(a), b);
      hide Split, Lines, Tail;
    }
  }

  lemma {:induction false} SplitLast(a: string, b: string)
    requires b != ""
    ensures var s, c := a + b[..|b| - 1], b[|b| - 1];
      && Lines(a + b) == (if c == '\n' then Lines(s) + [Tail(s)] else Lines(s))
      && Tail(a + b) == if c == '\n' then "" else Tail(s) + [c]
  {
    assert (a + b)[..|a + b| - 1] == a + b[..|b| - 1];
  }

  lemma {:induction false} TailHasNoNewline(s: string)
    ensures '\n' !in Tail(s)
  {
    if s != "" { TailHasNoNewline(s[..|s| - 1]); }
  }

  lemma {:induction false} SplitOneLine(s: string)
    requires '\n' !in s
    ensures Split(s) == [s]
  {
    if s != "" {
      SplitOneLine(s[..|s| - 1]);
      assert s[..|s| - 1] + [s[|s| - 1]] == s;
    }
  }

  lemma {:induction false} NothingAfterDone(ws: char -> bool, lines: seq<string>, more: seq<string>)
    requires ReadLines(ws, lines).done
    ensures ReadLines(ws, lines + more) == ReadLines(ws, lines)
  {
    if more == [] {
      assert lines + more == lines;
    } else {
      assert (lines + more)[..|lines + more| - 1] == lines + more[..|more| - 1];
      NothingAfterDone(ws, lines, more[..|more| - 1]);
    }
  }

  lemma {:induction false} RestIgnored(ws: char -> bool, chunks: seq<string>, n: nat)
    requires n <= |chunks| && Meaning(ws, Flatten(chunks[..n])).done
    ensures Meaning(ws, Flatten(chunks)) == Meaning(ws, Flatten(chunks[..n]))
  {
    assert chunks == chunks[..n] + chunks[n..];
    FlattenConcat(chunks[..n], chunks[n..]);
    SplitResumes(Flatten(chunks[..n]), Flatten(chunks[n..]));
    NothingAfterDone(ws, Lines(Flatten(chunks[..n])), Lines(Tail(Flatten(chunks[..n])) + Flatten(chunks[n..])));
  }

  // ---------- Framing ----------

  /** Each payload on a "data: " line, followed by the blank line that ends the event. */
  function Frame(payloads: seq<string>): string {
    if payloads == [] then ""
    else Frame(payloads[..|payloads| - 1]) + FrameOne(payloads[|payloads| - 1])
  }

  function FrameOne(payload: string): string {
    PREFIX + payload + "\n" + "\n"
  }

  /** A payload the reader gives back unchanged. */
  predicate Survives(ws: char -> bool, p: string) {
    '\n' !in p && p != "" && !ws(p[|p| - 1]) && p != DONE
  }

  lemma {:induction false} FrameLines(p: string, s: string)
    requires '\n' !in p && Tail(s) == ""
    ensures Lines(s + FrameOne(p)) == Lines(s) + [PREFIX + p] + [""] && Tail(s + FrameOne(p)) == ""
  {
    hide Lines, Tail, FrameOne, Split;
    SplitResumes(s, FrameOne(p));
    assert "" + FrameOne(p) == FrameOne(p);
    FrameSplit(p);
    assert Lines(s) + ([PREFIX + p] + [""]) == Lines(s) + [PREFIX + p] + [""];
  }

  lemma {:induction false} FrameSplit(p: string)
    requires '\n' !in p
    ensures Lines(FrameOne(p)) == [PREFIX + p] + [""] && Tail(FrameOne(p)) == ""
  {
    var line := PREFIX + p;
    SplitOneLine(line);
    SplitNewline(line);
    SplitNewline(line + "\n");
    hide Split;
    assert Split(FrameOne(p)) == [line] + [""] + [""];
  }

  lemma {:induction false} SplitNewline(s: string)
    ensures Split(s + "\n") == Split(s) + [""]
  {
    assert (s + "\n")[..|s|] == s;
  }

  /** What the line of one payload yields: the payload if and only if it survives. */
  lemma {:induction false} DataOfFrame(ws: char -> bool, p: string)
    requires ws(' ') && !ws('d') && !ws(':')
    ensures DataOf(ws, PREFIX + p) == Some(p) <==> p != "" && !ws(p[|p| - 1])
    ensures DataOf(ws, "").None?
  {
    var line := PREFIX + p;
    assert TrimStart(ws, line) == line;
    var trimmed := TrimEnd(ws, line);
    if p != "" && !ws(p[|p| - 1]) {
      assert trimmed == line && line[|PREFIX|..] == p;
    } else {
      assert ws(line[|line| - 1]);
      assert trimmed == TrimEnd(ws, line[..|line| - 1]);
      assert |trimmed| < |line|;
    }
  }

  /** Framing payloads and reading the text back returns exactly them, in order, if and only if each is
      non-empty, holds no newline, has no trailing whitespace and is not the end marker. */
  lemma {:induction false} FrameRoundTripIff(ws: char -> bool, payloads: seq<string>)
    requires ws(' ') && !ws('d') && !ws(':')
    ensures Meaning(ws, Frame(payloads)) == Progress(payloads, false) <==> AllSurvive(ws, payloads)
  {
    if OneLiners(payloads) {
      LinesRoundTripIff(ws, payloads);
    } else {
      var i :| 0 <= i < |payloads| && '\n' in payloads[i];
      assert !Survives(ws, payloads[i]);
      EventsHoldNoNewline(ws, Frame(payloads));
      hide Meaning, Frame;
      if Meaning(ws, Frame(payloads)) == Progress(payloads, false) {
        assert false;
      }
    }
  }

  ghost predicate OneLiners(texts: seq<string>) {
    forall i :: 0 <= i < |texts| ==> '\n' !in texts[i]
  }

  /** No event ever holds a newline. */
  lemma {:induction false} EventsHoldNoNewline(ws: char -> bool, text: string)
    ensures OneLiners(Meaning(ws, text).events)
  {
    SplitHasNoNewline(text);
    LineEventsHoldNoNewline(ws, Lines(text));
  }

  lemma {:induction false} SplitHasNoNewline(s: string)
    ensures OneLiners(Split(s))
  {
    if s != "" { SplitHasNoNewline(s[..|s| - 1]); }
  }

  lemma {:induction false} LineEventsHoldNoNewline(ws: char -> bool, lines: seq<string>)
    requires OneLiners(lines)
    ensures OneLiners(ReadLines(ws, lines).events)
  {
    if lines != [] {
      var init, data := lines[..|lines| - 1], DataOf(ws, lines[|lines| - 1]);
      LineEventsHoldNoNewline(ws, init);
      DataHoldsNoNewline(ws, lines[|lines| - 1]);
      hide DataOf;
      var before := ReadLines(ws, init);
      assert ReadLines(ws, lines) == ReadLine(before, data);
    }
  }

  lemma {:induction false} DataHoldsNoNewline(ws: char -> bool, line: string)
    requires '\n' !in line
    ensures DataOf(ws, line).Some? ==> '\n' !in DataOf(ws, line).value
  {
    var before, after := TrimIsCore(ws, line);
    hide Trim;
    var t := Trim(ws, line);
    assert forall i :: 0 <= i < |t| ==> (before + t + after)[|before| + i] == t[i];
    assert t != "" ==> forall i :: 0 <= i < |t| ==> t[i] in line;
  }

  /** The same for payloads that fit on a line, and how much can come back. */
  lemma {:induction false} LinesRoundTripIff(ws: char -> bool, payloads: seq<string>)
    requires ws(' ') && !ws('d') && !ws(':')
    requires OneLiners(payloads)
    ensures Meaning(ws, Frame(payloads)) == Progress(payloads, false) <==> AllSurvive(ws, payloads)
    ensures Tail(Frame(payloads)) == ""
    ensures var r := Meaning(ws, Frame(payloads)); |r.events| + (if r.done then 1 else 0) <= |payloads|
  {
    hide Lines, Tail, ReadLines, DataOf, Survives, FrameOne;
    if payloads == [] {
      EmptyFrame(ws);
    } else {
      var init, p := payloads[..|payloads| - 1], payloads[|payloads| - 1];
      assert payloads == init + [p];
      LinesRoundTripIff(ws, init);
      DataOfFrame(ws, p);
      FrameReads(ws, Frame(init), p);
      FrameStep(ws, Meaning(ws, Frame(init)), init, p);
      hide Meaning, ReadLine;
      assert AllSurvive(ws, payloads) <==> AllSurvive(ws, init) && Survives(ws, p);
    }
  }

  ghost predicate AllSurvive(ws: char -> bool, payloads: seq<string>) {
    forall i :: 0 <= i < |payloads| ==> Survives(ws, payloads[i])
  }

  lemma {:induction false} EmptyFrame(ws: char -> bool)
    ensures Meaning(ws, "") == Progress([], false) && Tail("") == ""
  {
  }

  lemma {:induction false} FrameReads(ws: char -> bool, s: string, p: string)
    requires '\n' !in p && Tail(s) == "" && DataOf(ws, "").None?
    ensures Tail(s + FrameOne(p)) == ""
    ensures Meaning(ws, s + FrameOne(p)) == ReadLine(Meaning(ws, s), DataOf(ws, PREFIX + p))
  {
    FrameLines(p, s);
    hide Lines, Tail, ReadLines, DataOf, FrameOne;
    ReadSnoc(ws, Lines(s), PREFIX + p);
    ReadSnoc(ws, Lines(s) + [PREFIX + p], "");
  }

  lemma {:induction false} FrameStep(ws: char -> bool, before: Progress, init: seq<string>, p: string)
    requires |before.events| + (if before.done then 1 else 0) <= |init|
    requires '\n' !in p && (DataOf(ws, PREFIX + p) == Some(p) <==> p != "" && !ws(p[|p| - 1]))
    ensures var r := ReadLine(before, DataOf(ws, PREFIX + p));
      && |r.events| + (if r.done then 1 else 0) <= |init| + 1
      && (r == Progress(init + [p], false) <==> before == Progress(init, false) && Survives(ws, p))
  {
    var d := DataOf(ws, PREFIX + p);
    var r := ReadLine(before, d);
    if r == Progress(init + [p], false) {
      assert |r.events| == |init| + 1;
      assert r.events == before.events + [d.value];
      assert r.events[..|init|] == before.events && (init + [p])[..|init|] == init;
      assert r.events[|init|] == d.value == p;
    }
  }

  /** A payload equal to the end marker ends the stream instead of being delivered. */
  lemma {:induction false} EndMarkerWitness(ws: char -> bool)
    requires ws(' ') && !ws('d') && !ws(':')
    ensures Meaning(ws, Frame([DONE])) != Progress([DONE], false)
  {
    FrameRoundTripIff(ws, [DONE]);
    hide Meaning, Frame;
    assert !Survives(ws, [DONE][0]);
  }

  // ---------- Every line of a stream ----------

  /** After whole lines, one more line adds an event if and only if it begins, trimmed, with "data: "
      and the end marker has not come; the event is the text after these six characters, and "[DONE]"
      ends the stream. An unfinished line adds nothing. */
  lemma {:induction false} LineIsRead(ws: char -> bool, before: string, line: string)
    requires (before == "" || before[|before| - 1] == '\n') && '\n' !in line
    ensures var p, trimmed := Meaning(ws, before), Trim(ws, line);
      Meaning(ws, before + line + "\n") ==
        if p.done || !("data: " <= trimmed) then p
        else if trimmed[6..] == "[DONE]" then Progress(p.events, true)
        else Progress(p.events + [trimmed[6..]], false)
    ensures Meaning(ws, before + line) == Meaning(ws, before)
    ensures Meaning(ws, "") == Progress([], false)
  {
    WholeLinesSplit(before, line);
    EmptyFrame(ws);
    ReadSnoc(ws, Lines(before), line);
    ReadsAs(ws, Meaning(ws, before), line);
    hide Lines, ReadLines, ReadLine, DataOf, Trim;
  }

  lemma {:induction false} ReadsAs(ws: char -> bool, p: Progress, line: string)
    ensures ReadLine(p, DataOf(ws, line)) ==
      var trimmed := Trim(ws, line);
      if p.done || !("data: " <= trimmed) then p
      else if trimmed[6..] == "[DONE]" then Progress(p.events, true)
      else Progress(p.events + [trimmed[6..]], false)
  {
    hide Trim;
  }

  lemma {:induction false} WholeLinesSplit(before: string, line: string)
    requires (before == "" || before[|before| - 1] == '\n') && '\n' !in line
    ensures Lines(before + line + "\n") == Lines(before) + [line]
    ensures Lines(before + line) == Lines(before)
  {
    NothingUnfinished(before);
    SplitOneLine(line);
    SplitNewline(line);
    assert "" + line == line && "" + (line + "\n") == line + "\n";
    var one, two := Split(line), Split(line + "\n");
    assert one[..|one| - 1] == [] && two == [line, ""] && two[..1] == [line];
    hide Split;
    SplitResumes(before, line + "\n");
    SplitResumes(before, line);
    assert before + (line + "\n") == before + line + "\n";
    assert Lines(before) + [] == Lines(before);
  }

  lemma {:induction false} NothingUnfinished(before: string)
    requires before == "" || before[|before| - 1] == '\n'
    ensures Tail(before) == ""
  {
  }

  /** The lines that carry data; event names, comments and blank lines do not. */
  function DataLines(ws: char -> bool, lines: seq<string>): seq<string> {
    if lines == [] then []
    else
      var last := lines[|lines| - 1];
      DataLines(ws, lines[..|lines| - 1]) + if "data: " <= Trim(ws, last) then [last] else []
  }

  /** Whatever other lines are mixed into a stream, its events are those of its data lines. */
  lemma {:induction false} OnlyDataLinesCount(ws: char -> bool, lines: seq<string>)
    requires OneLiners(lines)
    ensures Meaning(ws, Terminated(lines)) == Meaning(ws, Terminated(DataLines(ws, lines)))
  {
    if lines != [] {
      var init, last := lines[..|lines| - 1], lines[|lines| - 1];
      assert lines == init + [last];
      OnlyDataLinesCount(ws, init);
      DataLinesSnoc(ws, init, last);
      hide DataLines, Meaning, Terminated, Trim;
      SameAfterLine(ws, init, DataLines(ws, init), last);
    }
  }

  lemma {:induction false} DataLinesSnoc(ws: char -> bool, lines: seq<string>, last: string)
    ensures DataLines(ws, lines + [last]) ==
      if "data: " <= Trim(ws, last) then DataLines(ws, lines) + [last] else DataLines(ws, lines)
  {
    assert (lines + [last])[..|lines|] == lines;
  }

  lemma {:induction false} SameAfterLine(ws: char -> bool, a: seq<string>, b: seq<string>, last: string)
    requires '\n' !in last && Meaning(ws, Terminated(a)) == Meaning(ws, Terminated(b))
    ensures Meaning(ws, Terminated(a + [last])) ==
      Meaning(ws, Terminated(if "data: " <= Trim(ws, last) then b + [last] else b))
  {
    TerminatedEnds(a);
    TerminatedEnds(b);
    hide Meaning, Terminated, Trim;
    LineIsRead(ws, Terminated(a), last);
    LineIsRead(ws, Terminated(b), last);
    TerminatedSnoc(a, last);
    TerminatedSnoc(b, last);
  }
}
