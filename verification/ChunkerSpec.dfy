/** The Markdown stream chunker: its behaviour over characters, and what every run of it keeps. */
module ChunkerSpec {
  import opened Text
  import opened Utf8

  const FENCE := "```"
  const CLOSE := "\n```\n"
  const PATTERNS := ["\n\n", "\n", ". ", "! ", "? "]

  datatype Chunker = Chunker(buffer: string, inFence: bool, marker: string, min: nat, max: nat)

  function New(min: nat, max: nat): Chunker {
    Chunker("", false, "", min, max)
  }

  // ---------- push ----------

  predicate IsFenceLine(line: string) {
    FENCE <= Trim(IsWhitespace, line)
  }

  function PushLine(c: Chunker, line: string): Chunker {
    var d := c.(buffer := c.buffer + line);
    var trimmed := Trim(IsWhitespace, line);
    if !(FENCE <= trimmed) then d
    else if !c.inFence then d.(inFence := true, marker := FENCE)
    else if trimmed == FENCE || c.marker <= trimmed then d.(inFence := false, marker := "")
    else d
  }

  function PushLines(c: Chunker, lines: seq<string>): Chunker {
    if lines == [] then c else PushLine(PushLines(c, lines[..|lines| - 1]), lines[|lines| - 1])
  }

  function Push(c: Chunker, text: string): Chunker {
    PushLines(c, SplitInclusive(text))
  }

  // ---------- try_flush and flush_remaining ----------

  /** End of the chosen break: the last occurrence of the first pattern found in the range. */
  function BreakEnd(text: string, patterns: seq<string>, lo: nat, hi: nat): (r: Option<nat>)
    requires hi <= |text|
    ensures r.Some? ==> lo <= r.value <= hi
  {
    if patterns == [] then None
    else match FindLastInRange(text, patterns[0], lo, hi)
      case Some(p) => Some(p + |patterns[0]|)
      case None => BreakEnd(text, patterns[1..], lo, hi)
  }

  predicate ForcesClose(c: Chunker) {
    c.inFence && |c.buffer| >= c.min && |c.buffer| >= c.max
  }

  function TrimBackticks(s: string): string {
    if s != "" && s[0] == '`' then TrimBackticks(s[1..]) else s
  }

  function Cut(c: Chunker, k: nat): (Chunker, Option<string>)
    requires k <= |c.buffer|
  {
    (c.(buffer := c.buffer[k..]), Some(c.buffer[..k]))
  }

  function TryFlush(c: Chunker): (Chunker, Option<string>) {
    var n := |c.buffer|;
    if n < c.min || (c.inFence && n < c.max) then (c, None)
    else if c.inFence then
      (c.(buffer := FENCE + TrimBackticks(c.marker) + "\n"), Some(c.buffer + CLOSE))
    else match BreakEnd(c.buffer, PATTERNS, c.min, Min(c.max, n))
      case Some(k) => Cut(c, k)
      case None => if n >= c.max then Cut(c, c.max) else (c, None)
  }

  function FlushRemaining(c: Chunker): (Chunker, Option<string>) {
    if c.buffer == "" then (c, None) else (c.(buffer := ""), Some(c.buffer))
  }

  // ---------- The fence flag ----------

  /** What every reachable state keeps: the marker is three backticks exactly while a fence is open. */
  ghost predicate MarkerMatches(c: Chunker) {
    c.marker == if c.inFence then FENCE else ""
  }

  function FenceLines(lines: seq<string>): nat {
    if lines == [] then 0
    else FenceLines(lines[..|lines| - 1]) + if IsFenceLine(lines[|lines| - 1]) then 1 else 0
  }

  lemma {:induction false} PushLineFlips(c: Chunker, line: string)
    requires MarkerMatches(c)
    ensures var d := PushLine(c, line);
      && MarkerMatches(d) && d.min == c.min && d.max == c.max && d.buffer == c.buffer + line
      && d.inFence == (c.inFence != IsFenceLine(line))
  {
  }

  /** Each fence line flips the flag, whatever its language tag; all lines are kept. */
  lemma {:induction false} PushFlipsPerFenceLine(c: Chunker, lines: seq<string>)
    requires MarkerMatches(c)
    ensures var d := PushLines(c, lines);
      && MarkerMatches(d) && d.min == c.min && d.max == c.max
      && d.inFence == (c.inFence != (FenceLines(lines) % 2 == 1))
      && d.buffer == c.buffer + Flatten(lines)
  {
    hide PushLine, IsFenceLine;
    if lines != [] {
      var init, last := lines[..|lines| - 1], lines[|lines| - 1];
      PushFlipsPerFenceLine(c, init);
      PushLineFlips(PushLines(c, init), last);
    }
  }

  lemma {:induction false} PushLinesConcat(c: Chunker, a: seq<string>, b: seq<string>)
    ensures PushLines(c, a + b) == PushLines(PushLines(c, a), b)
  {
    if b == [] {
      assert a + b == a;
    } else {
      assert (a + b)[..|a + b| - 1] == a + b[..|b| - 1];
      PushLinesConcat(c, a, b[..|b| - 1]);
    }
  }

  lemma {:induction false} PushAppend(c: Chunker, a: string, b: string)
    requires a == "" || a[|a| - 1] == '\n'
    ensures Push(c, a + b) == Push(Push(c, a), b)
  {
    SplitAtNewline(a, b);
    PushLinesConcat(c, SplitInclusive(a), SplitInclusive(b));
  }

  /** Cutting the pushed text after newlines does not change the state reached. */
  lemma {:induction false} PushInParts(c: Chunker, parts: seq<string>)
    requires forall i :: 0 <= i < |parts| - 1 ==> parts[i] == "" || parts[i][|parts[i]| - 1] == '\n'
    ensures Push(c, Flatten(parts)) == PushAll(c, parts)
  {
    hide Push, Flatten, PushAll;
    if parts == [] {
      PushNoParts(c);
    } else {
      var init, last := parts[..|parts| - 1], parts[|parts| - 1];
      assert parts == init + [last];
      PushInParts(c, init);
      PushLastPart(c, init, last);
    }
  }

  lemma {:induction false} PushNoParts(c: Chunker)
    ensures Push(c, Flatten([])) == PushAll(c, [])
  {
    assert Flatten<char>([]) == "";
  }

  lemma {:induction false} PushLastPart(c: Chunker, init: seq<string>, last: string)
    requires Push(c, Flatten(init)) == PushAll(c, init)
    requires forall i :: 0 <= i < |init| ==> init[i] == "" || init[i][|init[i]| - 1] == '\n'
    ensures Push(c, Flatten(init + [last])) == PushAll(c, init + [last])
  {
    hide Push, Flatten, PushAll;
    PushAllSnoc(c, init, last);
    FlattenEndsWithNewline(init);
    FlattenSnoc(init, last);
    PushAppend(c, Flatten(init), last);
  }

  lemma {:induction false} PushAllSnoc(c: Chunker, init: seq<string>, last: string)
    ensures PushAll(c, init + [last]) == Push(PushAll(c, init), last)
  {
    hide Push;
    assert (init + [last])[..|init|] == init;
  }

  function PushAll(c: Chunker, parts: seq<string>): Chunker {
    if parts == [] then c else Push(PushAll(c, parts[..|parts| - 1]), parts[|parts| - 1])
  }

  lemma {:induction false} FlattenEndsWithNewline(parts: seq<string>)
    requires forall i :: 0 <= i < |parts| ==> parts[i] == "" || parts[i][|parts[i]| - 1] == '\n'
    ensures var s := Flatten(parts); s == "" || s[|s| - 1] == '\n'
  {
    if parts != [] { FlattenEndsWithNewline(parts[..|parts| - 1]); }
  }

  /** A cut elsewhere can: a fence arriving in two pieces is not recognised. */
  lemma {:induction false} PushSplitFenceMissed()
    ensures Push(New(0, 9), "```").inFence
    ensures !Push(Push(New(0, 9), "``"), "`").inFence
  {
    assert LineText("```") && LineText("``") && LineText("`");
    hide Push, LineText;
    var c := New(0, 9);
    var d := Push(c, "``");
    PushOneLine(c, "```");
    PushOneLine(c, "``");
    PushOneLine(d, "`");
  }

  lemma {:induction false} PushOneLine(c: Chunker, s: string)
    requires LineText(s) && MarkerMatches(c)
    ensures MarkerMatches(Push(c, s)) && Push(c, s).inFence == (c.inFence != (FENCE <= s))
  {
    SingleLine(s);
    PushLineFlips(c, s);
    hide PushLine, Trim, IsWhitespace;
    assert [s][..0] == [];
    assert PushLines(c, []) == c;
  }

  lemma {:induction false} SingleLine(s: string)
    requires LineText(s)
    ensures SplitInclusive(s) == [s] && Trim(IsWhitespace, s) == s
  {
    NoNewline(s);
    assert s[|s|..] == "" && s[..|s|] == s;
  }

  // ---------- Where a chunk ends ----------

  ghost predicate Occurs(text: string, pattern: string, lo: nat, hi: nat) {
    exists p :: OccursInRange(text, pattern, lo, hi, p)
  }

  /** `k` ends the last occurrence in the range of the first pattern of the list that occurs there. */
  ghost predicate IsPreferredBreak(text: string, patterns: seq<string>, lo: nat, hi: nat, k: nat) {
    exists i, p ::
      && 0 <= i < |patterns| && OccursInRange(text, patterns[i], lo, hi, p) && k == p + |patterns[i]|
      && (forall q :: OccursInRange(text, patterns[i], lo, hi, q) ==> q <= p)
      && forall j :: 0 <= j < i ==> !Occurs(text, patterns[j], lo, hi)
  }

  lemma {:induction false} BreakEndIsPreferred(text: string, patterns: seq<string>, lo: nat, hi: nat)
    requires hi <= |text| && forall i :: 0 <= i < |patterns| ==> patterns[i] != ""
    ensures var r := BreakEnd(text, patterns, lo, hi);
      && (r.None? <==> forall i :: 0 <= i < |patterns| ==> !Occurs(text, patterns[i], lo, hi))
      && (r.Some? ==> IsPreferredBreak(text, patterns, lo, hi, r.value))
  {
    if patterns != [] {
      var rest := patterns[1..];
      match FindLastInRange(text, patterns[0], lo, hi)
      case Some(p) =>
        assert Occurs(text, patterns[0], lo, hi);
      case None =>
        assert !Occurs(text, patterns[0], lo, hi);
        BreakEndIsPreferred(text, rest, lo, hi);
        assert forall i :: 0 < i < |patterns| ==> patterns[i] == rest[i - 1];
        assert forall i :: 0 <= i < |rest| ==> rest[i] == patterns[i + 1];
        var r := BreakEnd(text, rest, lo, hi);
        if r.Some? {
          var i, p :| && 0 <= i < |rest| && OccursInRange(text, rest[i], lo, hi, p) && r.value == p + |rest[i]|
            && (forall q :: OccursInRange(text, rest[i], lo, hi, q) ==> q <= p)
            && forall j :: 0 <= j < i ==> !Occurs(text, rest[j], lo, hi);
          assert patterns[i + 1] == rest[i];
          assert forall j :: 0 <= j < i + 1 ==> !Occurs(text, patterns[j], lo, hi);
        }
    }
  }

  /** Outside a fence a chunk is a prefix of at most `max` characters that ends at the preferred
      break, or at exactly `max` when there is none; with neither, nothing is flushed. */
  lemma {:induction false} FlushOutsideFence(c: Chunker)
    requires !c.inFence
    ensures var hi := Min(c.max, |c.buffer|);
      var (d, chunk) := TryFlush(c);
      var found := exists i :: 0 <= i < |PATTERNS| && Occurs(c.buffer, PATTERNS[i], c.min, hi);
      && (chunk.None? <==> |c.buffer| < c.min || (!found && |c.buffer| < c.max))
      && (chunk.None? ==> d == c)
      && (chunk.Some? ==>
            && |chunk.value| <= c.max && chunk.value + d.buffer == c.buffer && d == c.(buffer := d.buffer)
            && if found then IsPreferredBreak(c.buffer, PATTERNS, c.min, hi, |chunk.value|)
               else |chunk.value| == c.max)
  {
    hide BreakEnd, TrimBackticks, IsPreferredBreak;
    BreakEndIsPreferred(c.buffer, PATTERNS, c.min, Min(c.max, |c.buffer|));
  }

  /** An open fence holds everything back below `max`; from there on the whole buffer goes out with
      a closing fence and an opening one is left behind. */
  lemma {:induction false} FlushInsideFence(c: Chunker)
    requires c.inFence && MarkerMatches(c)
    ensures TryFlush(c) ==
      if ForcesClose(c) then (c.(buffer := FENCE + "\n"), Some(c.buffer + CLOSE)) else (c, None)
  {
    assert FENCE[1..] == "``" && "``"[1..] == "`" && "`"[1..] == "";
    assert TrimBackticks("```") == TrimBackticks("``") == TrimBackticks("`") == TrimBackticks("") == "";
    assert FENCE + "" + "\n" == FENCE + "\n";
  }

  /** The documentation's stronger claim fails: a fence already closed inside the buffer is cut. */
  lemma {:induction false} ClosedFenceIsCut()
    ensures Push(New(1, 6), "```\na\n```") == Chunker("```\na\n```", false, "", 1, 6)
    ensures TryFlush(Chunker("```\na\n```", false, "", 1, 6)).1 == Some("```\na\n")
  {
    assert LineText("```") && LineText("a");
    hide Push, TryFlush, LineText;
    PushThreeLines(New(1, 6), "```", "a", "```");
    ClosedFenceText();
    BreakAfterClosedFence();
  }

  lemma {:induction false} ClosedFenceText()
    ensures "```" + "\n" + "a" + "\n" + "```" == "```\na\n```"
  {
  }

  lemma {:induction false} PushThreeLines(c: Chunker, x: string, y: string, z: string)
    requires LineText(x) && LineText(y) && LineText(z)
    requires FENCE <= x && !(FENCE <= y) && FENCE <= z && c == New(c.min, c.max)
    ensures Push(c, x + "\n" + y + "\n" + z) == c.(buffer := x + "\n" + y + "\n" + z)
  {
    hide Push, LineText, IsWhitespace;
    var x', y' := x + "\n", y + "\n";
    var d := PushTwoLines(c, x, y);
    assert x + "\n" + y + "\n" + z == x' + y' + z;
    PushAppend(c, x' + y', z);
    PushOneLine(d, z);
    BufferAfterPush(d, z);
  }

  lemma {:induction false} PushTwoLines(c: Chunker, x: string, y: string) returns (d: Chunker)
    requires LineText(x) && LineText(y) && FENCE <= x && !(FENCE <= y) && c == New(c.min, c.max)
    ensures d == Push(c, x + "\n" + (y + "\n"))
    ensures d == Chunker(x + "\n" + (y + "\n"), true, FENCE, c.min, c.max)
  {
    hide Push, LineText, IsWhitespace;
    var x', y' := x + "\n", y + "\n";
    PushAppend(c, x', y');
    PushTerminated(c, x);
    PushTerminated(Push(c, x'), y);
    d := Push(Push(c, x'), y');
    assert c.buffer + x + "\n" == x' && x' + y + "\n" == x' + y';
  }

  /** A line with no newline and no surrounding whitespace. */
  predicate LineText(s: string) {
    s != "" && '\n' !in s && !IsWhitespace(s[0]) && !IsWhitespace(s[|s| - 1])
  }

  lemma {:induction false} PushTerminated(c: Chunker, s: string)
    requires LineText(s) && MarkerMatches(c)
    ensures var d := Push(c, s + "\n");
      && MarkerMatches(d) && d.min == c.min && d.max == c.max && d.buffer == c.buffer + s + "\n"
      && d.inFence == (c.inFence != (FENCE <= s))
  {
    OneLine(s);
    TrimNewline(s);
    PushLineFlips(c, s + "\n");
    hide PushLine, Trim, IsWhitespace;
    assert [s + "\n"][..0] == [];
    assert PushLines(c, []) == c;
    assert c.buffer + (s + "\n") == c.buffer + s + "\n";
  }

  lemma {:induction false} BufferAfterPush(c: Chunker, s: string)
    requires MarkerMatches(c)
    ensures Push(c, s).buffer == c.buffer + s && Push(c, s).min == c.min && Push(c, s).max == c.max
  {
    PushFlipsPerFenceLine(c, SplitInclusive(s));
    FlattenSplit(s);
  }

  lemma {:induction false} BreakAfterClosedFence()
    ensures TryFlush(Chunker("```\na\n```", false, "", 1, 6)).1 == Some("```\na\n")
  {
    var text := "```\na\n```";
    assert text[5..6] == "\n";
    assert OccursInRange(text, "\n", 1, 6, 5);
    forall p ensures !OccursInRange(text, "\n\n", 1, 6, p) {
      if 1 <= p <= 4 {
        assert text[p..p + 2][0] == text[p] && text[p..p + 2][1] == text[p + 1];
      }
    }
    assert BreakEnd(text, PATTERNS[1..], 1, 6) == Some(6);
    assert BreakEnd(text, PATTERNS, 1, 6) == Some(6);
    assert text[..6] == "```\na\n";
  }

  lemma {:induction false} TrimNewline(s: string)
    requires LineText(s)
    ensures Trim(IsWhitespace, s + "\n") == s
  {
    assert TrimStart(IsWhitespace, s + "\n") == s + "\n";
    assert (s + "\n")[..|s|] == s;
    assert TrimEnd(IsWhitespace, s + "\n") == TrimEnd(IsWhitespace, s);
  }

  // ---------- Draining ----------

  function After(c: Chunker, n: nat): Chunker
    decreases n
  {
    if n == 0 then c else After(TryFlush(c).0, n - 1)
  }

  /** Calling `try_flush` until it returns nothing comes to an end, from every state. */
  ghost predicate DrainsAlways(min: nat, max: nat) {
    forall c: Chunker :: c.min == min && c.max == max && MarkerMatches(c) ==> Drains(c)
  }

  ghost predicate Drains(c: Chunker) {
    exists n :: TryFlush(After(c, n)).1.None?
  }

  /** Every flush shrinks the buffer, the forced fence reopen included, exactly for these limits. */
  lemma {:induction false} DrainsIff(min: nat, max: nat)
    ensures DrainsAlways(min, max) <==> max >= 1 && (min >= 5 || max >= 5)
  {
    if max >= 1 && (min >= 5 || max >= 5) {
      forall c: Chunker | c.min == min && c.max == max && MarkerMatches(c)
        ensures Drains(c)
      {
        var n := DrainLength(c);
      }
    } else if max == 0 {
      var c := Chunker(seq(min, _ => 'a'), false, "", min, max);
      forall n ensures TryFlush(After(c, n)).1.Some? { StuckAtZero(c, n); }
      assert !Drains(c);
    } else {
      var c := Chunker(FENCE + "\n", true, FENCE, min, max);
      forall n ensures TryFlush(After(c, n)).1.Some? { StuckInFence(c, n); }
      assert !Drains(c);
    }
  }

  lemma {:induction false} FlushShrinks(c: Chunker)
    requires MarkerMatches(c) && c.max >= 1 && (c.min >= 5 || c.max >= 5) && TryFlush(c).1.Some?
    ensures |TryFlush(c).0.buffer| < |c.buffer| && MarkerMatches(TryFlush(c).0)
  {
    if c.inFence { FlushInsideFence(c); } else { FlushOutsideFence(c); }
  }

  lemma {:induction false} DrainLength(c: Chunker) returns (n: nat)
    requires MarkerMatches(c) && c.max >= 1 && (c.min >= 5 || c.max >= 5)
    ensures n <= |c.buffer| && TryFlush(After(c, n)).1.None?
    decreases |c.buffer|
  {
    if TryFlush(c).1.None? {
      n := 0;
    } else {
      FlushShrinks(c);
      n := DrainLength(TryFlush(c).0);
      n := n + 1;
    }
  }

  lemma {:induction false} StuckAtZero(c: Chunker, n: nat)
    requires c.max == 0 && !c.inFence && |c.buffer| >= c.min
    ensures TryFlush(After(c, n)).1.Some?
    decreases n
  {
    FlushOutsideFence(c);
    if n > 0 { StuckAtZero(TryFlush(c).0, n - 1); }
  }

  lemma {:induction false} StuckInFence(c: Chunker, n: nat)
    requires c.max <= 4 && c.min <= 4 && c.inFence && MarkerMatches(c) && |c.buffer| == 4
    ensures TryFlush(After(c, n)).1.Some?
    decreases n
  {
    FlushInsideFence(c);
    if n > 0 { StuckInFence(TryFlush(c).0, n - 1); }
  }

  /** A text that, pushed into a new chunker with any other limits, makes draining go on for ever. */
  function StuckText(min: nat, max: nat): string {
    if max == 0 then seq(min, _ => 'a') else FENCE + "\n"
  }

  lemma {:induction false} StuckAfterPush(min: nat, max: nat, n: nat)
    requires !(max >= 1 && (min >= 5 || max >= 5))
    ensures TryFlush(After(Push(New(min, max), StuckText(min, max)), n)).1.Some?
  {
    var c := New(min, max);
    if max == 0 {
      var text := seq(min, _ => 'a');
      BufferAfterPush(c, text);
      PushLetters(c, text);
      hide Push, TryFlush, After;
      StuckAtZero(Push(c, text), n);
    } else {
      FenceLinePushed(c);
      hide Push, TryFlush, After;
      StuckInFence(Push(c, FENCE + "\n"), n);
    }
  }

  lemma {:induction false} FenceLinePushed(c: Chunker)
    requires c == New(c.min, c.max)
    ensures var d := Push(c, FENCE + "\n");
      d.min == c.min && d.max == c.max && d.inFence && MarkerMatches(d) && |d.buffer| == 4
  {
    hide Push;
    assert LineText(FENCE);
    PushTerminated(c, FENCE);
    assert "" + FENCE + "\n" == FENCE + "\n";
  }

  lemma {:induction false} PushLetters(c: Chunker, text: string)
    requires c == New(c.min, c.max) && forall i :: 0 <= i < |text| ==> text[i] == 'a'
    ensures !Push(c, text).inFence
  {
    if text == "" {
      assert Push(c, "") == c;
    } else {
      assert LineText(text);
      PushOneLine(c, text);
    }
  }

  // ---------- Whole runs ----------

  datatype Op = PushText(text: string) | Flush | FlushRest

  /** A run so far: the state, all chunks handed out, the pushed text and its lines, and how much
      text had been pushed at each forced fence close. */
  datatype Trace = Trace(now: Chunker, chunks: seq<string>, pushed: string, lines: seq<string>, cuts: seq<nat>)

  function Emit(t: Trace, r: (Chunker, Option<string>)): Trace {
    t.(now := r.0, chunks := if r.1.Some? then t.chunks + [r.1.value] else t.chunks)
  }

  function Step(t: Trace, op: Op): Trace {
    match op
    case PushText(s) =>
      t.(now := Push(t.now, s), pushed := t.pushed + s, lines := t.lines + SplitInclusive(s))
    case Flush =>
      Emit(t, TryFlush(t.now)).(cuts := if ForcesClose(t.now) then t.cuts + [|t.pushed|] else t.cuts)
    case FlushRest => Emit(t, FlushRemaining(t.now))
  }

  function Run(min: nat, max: nat, ops: seq<Op>): Trace {
    if ops == [] then Trace(New(min, max), [], "", [], [])
    else Step(Run(min, max, ops[..|ops| - 1]), ops[|ops| - 1])
  }

  const REOPENED := CLOSE + FENCE + "\n"

  ghost predicate CutsWithin(cuts: seq<nat>, n: nat) {
    && (forall i :: 0 <= i < |cuts| ==> cuts[i] <= n)
    && forall i, j :: 0 <= i <= j < |cuts| ==> cuts[i] <= cuts[j]
  }

  /** `text` with one close-and-reopen marker inserted at each cut. */
  ghost function Weave(text: string, cuts: seq<nat>): string
    requires CutsWithin(cuts, |text|)
    decreases |cuts|
  {
    if cuts == [] then text
    else
      var k := cuts[|cuts| - 1];
      Weave(text[..k], cuts[..|cuts| - 1]) + REOPENED + text[k..]
  }

  lemma {:induction false} WeaveAppend(text: string, cuts: seq<nat>, more: string)
    requires CutsWithin(cuts, |text|)
    ensures Weave(text + more, cuts) == Weave(text, cuts) + more
  {
    if cuts != [] {
      var k := cuts[|cuts| - 1];
      assert (text + more)[..k] == text[..k] && (text + more)[k..] == text[k..] + more;
      var before := Weave(text[..k], cuts[..|cuts| - 1]) + REOPENED;
      assert Weave(text, cuts) == before + text[k..];
      assert Weave(text + more, cuts) == before + (text[k..] + more);
      hide Weave;
      assert before + (text[k..] + more) == before + text[k..] + more;
    }
  }

  lemma {:induction false} WeaveAtEnd(text: string, cuts: seq<nat>)
    requires CutsWithin(cuts, |text|)
    ensures CutsWithin(cuts + [|text|], |text|)
    ensures Weave(text, cuts + [|text|]) == Weave(text, cuts) + REOPENED
  {
    assert (cuts + [|text|])[..|cuts|] == cuts;
    assert text[..|text|] == text && text[|text|..] == "";
  }

  /** What every step keeps: the chunks handed out followed by the buffer are the pushed text with
      one marker at each forced close; the fence flag is the parity of the pushed fence lines. */
  ghost predicate Conserved(t: Trace) {
    && CutsWithin(t.cuts, |t.pushed|)
    && Flatten(t.chunks) + t.now.buffer == Weave(t.pushed, t.cuts)
    && Flatten(t.lines) == t.pushed
    && MarkerMatches(t.now)
    && t.now.inFence == (FenceLines(t.lines) % 2 == 1)
  }

  lemma {:induction false} RunConserves(min: nat, max: nat, ops: seq<Op>)
    ensures Conserved(Run(min, max, ops))
  {
    if ops != [] {
      RunConserves(min, max, ops[..|ops| - 1]);
      StepConserves(Run(min, max, ops[..|ops| - 1]), ops[|ops| - 1]);
    }
  }

  lemma {:induction false} StepConserves(t: Trace, op: Op)
    requires Conserved(t)
    ensures Conserved(Step(t, op))
  {
    hide TryFlush, Push, ForcesClose, Weave, FenceLines, Flatten, SplitInclusive;
    match op
    case PushText(s) =>
      PushConserves(t, s);
    case Flush =>
      FlushEffect(t.now);
      WeaveAtEnd(t.pushed, t.cuts);
      EmitAppends(t, TryFlush(t.now));
    case FlushRest =>
      EmitAppends(t, FlushRemaining(t.now));
  }

  lemma {:induction false} PushConserves(t: Trace, s: string)
    requires Conserved(t)
    ensures Conserved(Step(t, PushText(s)))
  {
    hide PushLines, Weave, FenceLines, SplitInclusive, Flatten;
    var lines := SplitInclusive(s);
    PushFlipsPerFenceLine(t.now, lines);
    FlattenSplit(s);
    FlattenConcat(t.lines, lines);
    FenceLinesConcat(t.lines, lines);
    WeaveAppend(t.pushed, t.cuts, s);
    assert Flatten(t.chunks) + (t.now.buffer + s) == Flatten(t.chunks) + t.now.buffer + s;
  }

  lemma {:induction false} EmitAppends(t: Trace, r: (Chunker, Option<string>))
    ensures r.1.Some? ==>
      Flatten(Emit(t, r).chunks) + r.0.buffer == Flatten(t.chunks) + (r.1.value + r.0.buffer)
  {
    if r.1.Some? {
      assert (t.chunks + [r.1.value])[..|t.chunks|] == t.chunks;
    }
  }

  lemma {:induction false} FlushEffect(c: Chunker)
    requires MarkerMatches(c)
    ensures var (d, chunk) := TryFlush(c);
      && MarkerMatches(d) && d.inFence == c.inFence
      && (chunk.None? ==> d == c && !ForcesClose(c))
      && (chunk.Some? ==>
            chunk.value + d.buffer == if ForcesClose(c) then c.buffer + REOPENED else c.buffer)
  {
    if c.inFence {
      FlushInsideFence(c);
      assert c.buffer + CLOSE + (FENCE + "\n") == c.buffer + REOPENED;
    } else {
      FlushOutsideFence(c);
    }
  }

  lemma {:induction false} FenceLinesConcat(a: seq<string>, b: seq<string>)
    ensures FenceLines(a + b) == FenceLines(a) + FenceLines(b)
  {
    hide IsFenceLine;
    if b == [] {
      assert a + b == a;
    } else {
      assert (a + b)[..|a + b| - 1] == a + b[..|b| - 1];
      FenceLinesConcat(a, b[..|b| - 1]);
    }
  }
}
