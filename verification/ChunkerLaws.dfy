/** What pushing and flushing do, in terms of the text alone. */
module ChunkerLaws {
  import opened Text
  import opened Utf8
  import opened ChunkerSpec
  import opened ChunkerCuts
  import opened ChunkerBlocks

  // ---------- Pushing lines ----------

  /** How many of the lines begin, after whitespace, with three backticks. */
  function Ticked(lines: seq<string>): nat {
    if lines == [] then 0
    else Ticked(lines[..|lines| - 1]) + if "```" <= Trim(IsWhitespace, lines[|lines| - 1]) then 1 else 0
  }

  /** Every text is some whole lines and an unfinished one; pushing it appends the text and flips the
      flag once for each of them that begins with three backticks. */
  lemma {:induction false} PushWritten(c: Chunker, lines: seq<string>, last: string)
    requires MarkerMatches(c) && '\n' !in last && forall i :: 0 <= i < |lines| ==> '\n' !in lines[i]
    ensures var d, text := Push(c, Terminated(lines) + last), Terminated(lines) + last;
      && d.buffer == c.buffer + text && d.min == c.min && d.max == c.max
      && d.inFence == (c.inFence != (Ticked(lines + [last]) % 2 == 1))
      && d.marker == if d.inFence then "```" else ""
  {
    hide Push, Fences, Terminated;
    PushState(c, Terminated(lines) + last);
    FencesOfLines(lines);
    TerminatedEnds(lines);
    FencesAtNewline(Terminated(lines), last);
    FencesOfPartial(last);
    TickedSnoc(lines, last);
  }

  lemma {:induction false} TickedSnoc(lines: seq<string>, last: string)
    ensures Ticked(lines + [last]) == Ticked(lines) + One(last)
  {
    assert (lines + [last])[..|lines|] == lines;
  }

  lemma {:induction false} FencesOfLines(lines: seq<string>)
    requires forall i :: 0 <= i < |lines| ==> '\n' !in lines[i]
    ensures Fences(Terminated(lines)) == Ticked(lines)
  {
    hide Fences, One;
    if lines == [] {
      NoFences();
    } else {
      var init, last := lines[..|lines| - 1], lines[|lines| - 1];
      assert lines == init + [last];
      FencesOfLines(init);
      TerminatedEnds(init);
      TickedSnoc(init, last);
      hide Ticked;
      FencesAtNewline(Terminated(init), last + "\n");
      FencesEndLine(last);
      FencesOfPartial(last);
      assert Terminated(init) + last + "\n" == Terminated(init) + (last + "\n");
    }
  }

  // ---------- Flushing outside a fence ----------

  /** The flush ends the chunk with the last occurrence of `pattern` in the range. */
  ghost predicate CutsAfterLast(c: Chunker, pattern: string, hi: nat) {
    exists p: nat :: IsLast(c.buffer, pattern, c.min, hi, p) && CutsAt(c, p + |pattern|)
  }

  ghost predicate IsLast(text: string, pattern: string, lo: nat, hi: nat, p: nat) {
    OccursInRange(text, pattern, lo, hi, p) && forall q :: OccursInRange(text, pattern, lo, hi, q) ==> q <= p
  }

  ghost predicate CutsAt(c: Chunker, k: nat) {
    k <= |c.buffer| && TryFlush(c) == (c.(buffer := c.buffer[k..]), Some(c.buffer[..k]))
  }

  /** Outside a fence, from min characters on: the chunk ends with the last paragraph break in
      [min, max), else with the last newline there, else with the last ". ", "! " or "? ", in this
      order; else at exactly max; and nothing is flushed while the buffer is shorter than max. */
  lemma {:induction false} FlushPriorities(c: Chunker)
    requires !c.inFence && |c.buffer| >= c.min
    ensures var hi := if c.max <= |c.buffer| then c.max else |c.buffer|;
      if Occurs(c.buffer, "\n\n", c.min, hi) then CutsAfterLast(c, "\n\n", hi)
      else if Occurs(c.buffer, "\n", c.min, hi) then CutsAfterLast(c, "\n", hi)
      else if Occurs(c.buffer, ". ", c.min, hi) then CutsAfterLast(c, ". ", hi)
      else if Occurs(c.buffer, "! ", c.min, hi) then CutsAfterLast(c, "! ", hi)
      else if Occurs(c.buffer, "? ", c.min, hi) then CutsAfterLast(c, "? ", hi)
      else if |c.buffer| >= c.max then CutsAt(c, c.max)
      else TryFlush(c) == (c, None)
  {
    var b, lo, hi := c.buffer, c.min, Min(c.max, |c.buffer|);
    FlushTakesBreak(c);
    hide BreakEnd, Occurs, IsLast, CutsAt, TryFlush, Min;
    var l1, l2, l3, l4, l5 := PATTERNS, ["\n", ". ", "! ", "? "], [". ", "! ", "? "], ["! ", "? "], ["? "];
    assert l1[1..] == l2 && l2[1..] == l3 && l3[1..] == l4 && l4[1..] == l5 && l5[1..] == [];
    if Occurs(b, "\n\n", lo, hi) {
      var p := BreakStep(b, l1, lo, hi);
    } else {
      var p := BreakStep(b, l1, lo, hi);
      if Occurs(b, "\n", lo, hi) {
        p := BreakStep(b, l2, lo, hi);
      } else {
        p := BreakStep(b, l2, lo, hi);
        LaterPriorities(c, hi);
      }
    }
  }

  lemma {:induction false} LaterPriorities(c: Chunker, hi: nat)
    requires hi <= |c.buffer| && c.min <= |c.buffer|
    ensures var b, r := c.buffer, BreakEnd(c.buffer, [". ", "! ", "? "], c.min, hi);
      if Occurs(b, ". ", c.min, hi) then EndsLast(b, ". ", c.min, hi, r)
      else if Occurs(b, "! ", c.min, hi) then EndsLast(b, "! ", c.min, hi, r)
      else if Occurs(b, "? ", c.min, hi) then EndsLast(b, "? ", c.min, hi, r)
      else r == None
  {
    hide BreakEnd, Occurs, IsLast;
    var b, lo := c.buffer, c.min;
    var l3, l4, l5 := [". ", "! ", "? "], ["! ", "? "], ["? "];
    assert l3[1..] == l4 && l4[1..] == l5 && l5[1..] == [];
    var p3 := BreakStep(b, l3, lo, hi);
    var p4 := BreakStep(b, l4, lo, hi);
    var p5 := BreakStep(b, l5, lo, hi);
  }

  ghost predicate EndsLast(text: string, pattern: string, lo: nat, hi: nat, r: Option<nat>) {
    exists p: nat :: IsLast(text, pattern, lo, hi, p) && r == Some(p + |pattern|)
  }

  lemma {:induction false} FlushTakesBreak(c: Chunker)
    requires !c.inFence && |c.buffer| >= c.min
    ensures var hi := Min(c.max, |c.buffer|);
      match BreakEnd(c.buffer, PATTERNS, c.min, hi)
      case Some(k) => CutsAt(c, k)
      case None => if |c.buffer| >= c.max then CutsAt(c, c.max) else TryFlush(c) == (c, None)
  {
    hide BreakEnd;
  }

  lemma {:induction false} BreakStep(text: string, patterns: seq<string>, lo: nat, hi: nat) returns (p: nat)
    requires patterns != [] && patterns[0] != "" && hi <= |text|
    ensures Occurs(text, patterns[0], lo, hi) ==>
      IsLast(text, patterns[0], lo, hi, p) && BreakEnd(text, patterns, lo, hi) == Some(p + |patterns[0]|)
    ensures !Occurs(text, patterns[0], lo, hi) ==>
      BreakEnd(text, patterns, lo, hi) == BreakEnd(text, patterns[1..], lo, hi)
    ensures BreakEnd(text, [], lo, hi) == None
  {
    p := 0;
    match FindLastInRange(text, patterns[0], lo, hi)
    case Some(q) => p := q;
    case None => assert lo < hi ==> !Occurs(text, patterns[0], lo, hi);
  }

  // ---------- Flushing inside a fence, and at the end ----------

  /** Inside a fence, from max characters on: the whole buffer goes out with a closing fence, and a new
      opening one is all that is left. */
  lemma {:induction false} FlushClosesAndReopens(c: Chunker)
    requires c.inFence && MarkerMatches(c)
    ensures TryFlush(c) ==
      if |c.buffer| >= c.min && |c.buffer| >= c.max then (c.(buffer := "```\n"), Some(c.buffer + "\n```\n"))
      else (c, None)
  {
    FlushInsideFence(c);
    assert FENCE + "\n" == "```\n";
  }

  /** Flushing the rest in any run leaves nothing behind: the chunks are the pushed text, with the two
      fence lines put in at each forced close. */
  lemma {:induction false} RestLeavesNothing(min: nat, max: nat, ops: seq<Op>)
    requires ops != [] && ops[|ops| - 1].FlushRest?
    ensures var t := Run(min, max, ops);
      t.now.buffer == "" && CutsWithin(t.cuts, |t.pushed|) && Flatten(t.chunks) == Weave(t.pushed, t.cuts)
  {
    RunConserves(min, max, ops);
    hide Weave, Flatten;
    var t := Run(min, max, ops);
    assert t.now.buffer == "";
    assert Flatten(t.chunks) + "" == Flatten(t.chunks);
  }

  /** Weaving puts "\n```\n```\n" in at each cut. */
  lemma {:induction false} WeaveOne(text: string, cuts: seq<nat>, k: nat)
    requires CutsWithin(cuts + [k], |text|) && CutsWithin(cuts, k) && k <= |text|
    ensures Weave(text, cuts + [k]) == Weave(text[..k], cuts) + "\n```\n```\n" + text[k..]
  {
    assert (cuts + [k])[..|cuts|] == cuts;
    assert REOPENED == "\n```\n```\n";
  }
}
