/** Which flushed chunks end inside a fenced block. */
module ChunkerBlocks {
  import opened Text
  import opened Utf8
  import opened ChunkerSpec
  import opened ChunkerCuts

  // ---------- Chunks that end inside a fenced block ----------

  /** A reader of `s` is inside a fenced block: its finished lines opened one and did not close it. */
  predicate BlockOpen(s: string) {
    Fences(Finished(s)) % 2 == 1
  }

  lemma {:induction false} PartialResumes(f: string, z: string)
    requires f == "" || f[|f| - 1] == '\n'
    ensures Partial(f + z) == Partial(z) && Finished(f + z) == f + Finished(z)
  {
    if z == "" {
      assert f + z == f;
    } else if z[|z| - 1] != '\n' {
      assert (f + z)[..|f + z| - 1] == f + z[..|z| - 1];
      PartialResumes(f, z[..|z| - 1]);
    }
  }

  /** The fence state after more text: the state before, flipped by each fence line finished since,
      the line left unfinished before included. */
  lemma {:induction false} BlockOpenResumes(p: string, s: string)
    ensures BlockOpen(p + s) <==> (BlockOpen(p) != (Fences(Finished(Partial(p) + s)) % 2 == 1))
  {
    hide Partial, Finished, Fences;
    var f, x := Finished(p), Partial(p);
    SplitAtPartial(p);
    PartialResumes(f, x + s);
    assert f + (x + s) == p + s;
    FencesAtNewline(f, Finished(x + s));
  }

  ghost predicate PatternFound(c: Chunker) {
    exists i :: 0 <= i < |PATTERNS| && Occurs(c.buffer, PATTERNS[i], c.min, Min(c.max, |c.buffer|))
  }

  /** Where a flush outside a fence cuts: known from the buffer and the limits alone. */
  ghost predicate CutPoint(c: Chunker, k: nat) {
    if PatternFound(c) then IsPreferredBreak(c.buffer, PATTERNS, c.min, Min(c.max, |c.buffer|), k) else k == c.max
  }

  lemma {:induction false} CutPointUnique(c: Chunker, k: nat, l: nat)
    requires CutPoint(c, k) && CutPoint(c, l)
    ensures k == l
  {
    if PatternFound(c) {
      hide PatternFound;
      PreferredUnique(c.buffer, PATTERNS, c.min, Min(c.max, |c.buffer|), k, l);
    }
  }

  lemma {:induction false} PreferredUnique(text: string, patterns: seq<string>, lo: nat, hi: nat, k: nat, l: nat)
    requires IsPreferredBreak(text, patterns, lo, hi, k) && IsPreferredBreak(text, patterns, lo, hi, l)
    ensures k == l
  {
    var i, p :| && 0 <= i < |patterns| && OccursInRange(text, patterns[i], lo, hi, p) && k == p + |patterns[i]|
      && (forall q :: OccursInRange(text, patterns[i], lo, hi, q) ==> q <= p)
      && forall j :: 0 <= j < i ==> !Occurs(text, patterns[j], lo, hi);
    var i', p' :| && 0 <= i' < |patterns| && OccursInRange(text, patterns[i'], lo, hi, p') && l == p' + |patterns[i']|
      && (forall q :: OccursInRange(text, patterns[i'], lo, hi, q) ==> q <= p')
      && forall j :: 0 <= j < i' ==> !Occurs(text, patterns[j], lo, hi);
    assert Occurs(text, patterns[i], lo, hi) && Occurs(text, patterns[i'], lo, hi);
  }

  /** A flush outside a fence cuts at the cut point and nowhere else. */
  lemma {:induction false} FlushCutsAt(c: Chunker, k: nat)
    requires !c.inFence && TryFlush(c).1.Some? && CutPoint(c, k)
    ensures k <= c.max && k <= |c.buffer| && TryFlush(c) == (c.(buffer := c.buffer[k..]), Some(c.buffer[..k]))
  {
    FlushOutsideFence(c);
    hide TryFlush, IsPreferredBreak, Occurs;
    var (d, chunk) := TryFlush(c);
    CutPointUnique(c, k, |chunk.value|);
    assert c.buffer[..k] == chunk.value && c.buffer[k..] == d.buffer;
  }

  /** In any run, after a flush the text handed out ends inside a fenced block: outside a fence, if and
      only if the fence is open at the cut point, that is, the state the chunks before ended in,
      flipped by the fence lines finished up to there; at a forced close, if and only if pushes cut
      inside a line changed the parity of the fence lines an odd number of times. */
  lemma {:induction false} FlushCutsBlockIff(min: nat, max: nat, ops: seq<Op>, k: nat)
    requires var c := Run(min, max, ops).now; TryFlush(c).1.Some? && (c.inFence || CutPoint(c, k))
    ensures var t := Run(min, max, ops);
      var before, after := Flatten(t.chunks), Flatten(Step(t, Flush).chunks);
      if t.now.inFence then
        && after == before + t.now.buffer + CLOSE
        && (BlockOpen(after) <==> OddMiscuts(min, max, ops))
      else
        && k <= |t.now.buffer| && after == before + t.now.buffer[..k]
        && CutsWithin(t.cuts, |t.pushed|) && after <= Weave(t.pushed, t.cuts)
        && (BlockOpen(after) <==>
             (BlockOpen(before) != (Fences(Finished(Partial(before) + t.now.buffer[..k])) % 2 == 1)))
  {
    RunConserves(min, max, ops);
    hide Run, PushMiscuts;
    if Run(min, max, ops).now.inFence {
      ForcedCloseIff(min, max, ops);
    } else {
      PlainCutIff(Run(min, max, ops), k);
    }
  }

  lemma {:induction false} PlainCutIff(t: Trace, k: nat)
    requires Conserved(t) && !t.now.inFence && TryFlush(t.now).1.Some? && CutPoint(t.now, k)
    ensures var before, after := Flatten(t.chunks), Flatten(Step(t, Flush).chunks);
      && k <= |t.now.buffer| && after == before + t.now.buffer[..k]
      && CutsWithin(t.cuts, |t.pushed|) && after <= Weave(t.pushed, t.cuts)
      && (BlockOpen(after) <==>
           (BlockOpen(before) != (Fences(Finished(Partial(before) + t.now.buffer[..k])) % 2 == 1)))
  {
    StepFlushChunks(t, k);
    hide Step, Conserved, TryFlush, BlockOpen, Weave, CutPoint, Fences, Finished, Partial;
    ChunkKeepsPrefix(t, k, Step(t, Flush).chunks);
    BlockOpenResumes(Flatten(t.chunks), t.now.buffer[..k]);
  }

  lemma {:induction false} ChunkKeepsPrefix(t: Trace, k: nat, chunks: seq<string>)
    requires Conserved(t) && k <= |t.now.buffer| && chunks == t.chunks + [t.now.buffer[..k]]
    ensures Flatten(chunks) == Flatten(t.chunks) + t.now.buffer[..k]
    ensures CutsWithin(t.cuts, |t.pushed|) && Flatten(chunks) <= Weave(t.pushed, t.cuts)
  {
    hide Weave, Flatten, FenceLines;
    var before, buffer := Flatten(t.chunks), t.now.buffer;
    FlattenSnoc(t.chunks, buffer[..k]);
    assert buffer == buffer[..k] + buffer[k..];
    assert before + (buffer[..k] + buffer[k..]) == before + buffer[..k] + buffer[k..];
  }

  lemma {:induction false} StepFlushChunks(t: Trace, k: nat)
    requires !t.now.inFence && TryFlush(t.now).1.Some? && CutPoint(t.now, k)
    ensures k <= |t.now.buffer| && Step(t, Flush).chunks == t.chunks + [t.now.buffer[..k]]
  {
    FlushCutsAt(t.now, k);
    hide TryFlush, CutPoint;
  }

  // ---------- Forced closes ----------

  /** Everything handed out or buffered so far, markers included. */
  function Whole(t: Trace): string {
    Flatten(t.chunks) + t.now.buffer
  }

  /** The push joins two pieces of a line so that the parity of the fence lines changes. */
  predicate MiscutPush(t: Trace, op: Op) {
    op.PushText? && Miscut(Whole(t), op.text)
  }

  /** How many pushes of a run do so. */
  function PushMiscuts(min: nat, max: nat, ops: seq<Op>): nat {
    if ops == [] then 0
    else
      var init, last := ops[..|ops| - 1], ops[|ops| - 1];
      PushMiscuts(min, max, init) + if MiscutPush(Run(min, max, init), last) then 1 else 0
  }

  /** The fence lines of `s` are odd in number, an unfinished last one included. */
  predicate Inside(s: string) {
    Fences(s) % 2 == 1
  }

  predicate OddMiscuts(min: nat, max: nat, ops: seq<Op>) {
    PushMiscuts(min, max, ops) % 2 == 1
  }

  /** In any run the flag is the fence state of the whole text, unless the miscut pushes are odd. */
  lemma {:induction false} FlagIsParity(min: nat, max: nat, ops: seq<Op>)
    ensures var t := Run(min, max, ops);
      t.now.inFence == (Inside(Whole(t)) != OddMiscuts(min, max, ops))
  {
    if ops == [] {
      NothingWhole(min, max);
    } else {
      var init, op := ops[..|ops| - 1], ops[|ops| - 1];
      FlagIsParity(min, max, init);
      RunConserves(min, max, init);
      RunStep(min, max, ops);
      hide *;
      StepParity(Run(min, max, init), op);
    }
  }

  lemma {:induction false} RunStep(min: nat, max: nat, ops: seq<Op>)
    requires ops != []
    ensures var init, op := ops[..|ops| - 1], ops[|ops| - 1];
      && Run(min, max, ops) == Step(Run(min, max, init), op)
      && (OddMiscuts(min, max, ops) <==> (OddMiscuts(min, max, init) != MiscutPush(Run(min, max, init), op)))
  {
    hide Step, MiscutPush;
  }

  lemma {:induction false} NothingWhole(min: nat, max: nat)
    ensures Fences(Whole(Run(min, max, []))) == 0
  {
    NoFences();
  }

  lemma {:induction false} StepParity(t: Trace, op: Op)
    requires Conserved(t)
    ensures var u := Step(t, op);
      (u.now.inFence != t.now.inFence) <==> ((Inside(Whole(u)) != Inside(Whole(t))) != MiscutPush(t, op))
  {
    StepAdds(t, op);
    StepFlag(t, op);
    hide Fences, Miscut, Whole, Inside, Step, Conserved;
    match op
    case PushText(s) => InsidePushed(Whole(t), s);
    case Flush => InsideReopened(Whole(t));
    case FlushRest => assert Whole(t) + "" == Whole(t);
  }

  lemma {:induction false} StepFlag(t: Trace, op: Op)
    requires Conserved(t)
    ensures (Step(t, op).now.inFence != t.now.inFence) <==> op.PushText? && Inside(op.text)
  {
    hide Fences, ForcesClose, TryFlush, Push, Weave, Flatten;
    match op
    case PushText(s) => PushState(t.now, s);
    case Flush => FlushEffect(t.now);
    case FlushRest =>
  }

  lemma {:induction false} InsidePushed(a: string, s: string)
    ensures Inside(a + s) <==> ((Inside(a) != Inside(s)) != Miscut(a, s))
  {
    hide Fences, Miscut;
    MiscutFlips(a, s);
  }

  lemma {:induction false} InsideReopened(a: string)
    ensures Inside(a + REOPENED) == Inside(a) && a + "" == a
  {
    hide Fences;
    FencesReopened(a);
  }

  /** A line end changes nothing about a line's trimmed text. */
  lemma {:induction false} TrimLineEnd(s: string)
    ensures Trim(IsWhitespace, s + "\n") == Trim(IsWhitespace, s)
  {
    var x := s + "\n";
    if s == "" {
      assert x[1..] == "";
    } else if IsWhitespace(s[0]) {
      assert x[1..] == s[1..] + "\n";
      TrimLineEnd(s[1..]);
    } else {
      assert x[..|s|] == s;
      TrimEndStep(x);
    }
  }

  lemma {:induction false} TrimEndStep(x: string)
    requires x != "" && IsWhitespace(x[|x| - 1])
    ensures TrimEnd(IsWhitespace, x) == TrimEnd(IsWhitespace, x[..|x| - 1])
  {
  }

  lemma {:induction false} FencesEndLine(s: string)
    ensures Fences(s + "\n") == Fences(s)
  {
    hide Fences, Partial, IsFenceLine;
    FencesJoin(s, "\n");
    FencesOfNewline();
    OneEndLine(Partial(s));
    assert FirstLine("\n") == "\n";
  }

  lemma {:induction false} OneEndLine(x: string)
    ensures One(x + "\n") == One(x)
  {
    TrimLineEnd(x);
  }

  lemma {:induction false} FencesOfNewline()
    ensures Fences("\n") == 0 && One("\n") == 0
  {
    NoFences();
    OneEndLine("");
    OneLine("");
    assert "" + "\n" == "\n";
    hide One;
    FenceLinesOne("\n");
  }

  lemma {:induction false} FencesOfFence()
    ensures Fences(FENCE + "\n") == 1
  {
    assert LineText(FENCE);
    OneLine(FENCE);
    TrimNewline(FENCE);
    assert IsFenceLine(FENCE + "\n");
    FenceLinesOne(FENCE + "\n");
  }

  lemma {:induction false} FencesClosed(s: string)
    ensures Fences(s + CLOSE) == Fences(s) + 1
  {
    hide Fences;
    FencesEndLine(s);
    FencesOfFence();
    FencesAtNewline(s + "\n", FENCE + "\n");
    assert s + CLOSE == s + "\n" + (FENCE + "\n");
  }

  lemma {:induction false} FencesReopened(s: string)
    ensures Fences(s + REOPENED) == Fences(s) + 2
  {
    hide Fences;
    FencesClosed(s);
    FencesOfFence();
    FencesAtNewline(s + CLOSE, FENCE + "\n");
    assert s + REOPENED == s + CLOSE + (FENCE + "\n");
  }

  /** After a forced close the text handed out ends inside a block, if and only if the miscut pushes
      are odd in number. */
  lemma {:induction false} ForcedCloseIff(min: nat, max: nat, ops: seq<Op>)
    requires var c := Run(min, max, ops).now; c.inFence && TryFlush(c).1.Some?
    ensures var t := Run(min, max, ops);
      var after := Flatten(Step(t, Flush).chunks);
      && after == Flatten(t.chunks) + t.now.buffer + CLOSE
      && (BlockOpen(after) <==> OddMiscuts(min, max, ops))
  {
    FlagIsParity(min, max, ops);
    RunConserves(min, max, ops);
    hide Run, OddMiscuts, Weave;
    CloseEndsIn(Run(min, max, ops));
  }

  lemma {:induction false} CloseEndsIn(t: Trace)
    requires t.now.inFence && TryFlush(t.now).1.Some? && MarkerMatches(t.now)
    ensures var after := Flatten(Step(t, Flush).chunks);
      after == Flatten(t.chunks) + t.now.buffer + CLOSE && (BlockOpen(after) <==> !Inside(Whole(t)))
  {
    FlushInsideFence(t.now);
    hide TryFlush, Flatten;
    FlattenSnoc(t.chunks, t.now.buffer + CLOSE);
    Regroup(Flatten(t.chunks), t.now.buffer, CLOSE);
    hide Step, BlockOpen, Inside;
    ClosedEndsIn(Whole(t));
  }

  lemma {:induction false} ClosedEndsIn(s: string)
    ensures BlockOpen(s + CLOSE) <==> !Inside(s)
  {
    hide Fences;
    FencesClosed(s);
    LineFinished(s + CLOSE);
  }

  ghost predicate EndsLine(s: string) {
    s == "" || s[|s| - 1] == '\n'
  }

  /** Text pushed in whole lines: only the last push may end inside a line. */
  ghost predicate WholeLines(ops: seq<Op>) {
    forall i, j :: 0 <= i < j < |ops| && ops[i].PushText? && ops[j].PushText? ==> EndsLine(ops[i].text)
  }

  /** Then a forced close always ends outside a block. */
  lemma {:induction false} WholeLinesCloseBlocks(min: nat, max: nat, ops: seq<Op>)
    requires WholeLines(ops)
    ensures PushMiscuts(min, max, ops) == 0
    ensures var c := Run(min, max, ops).now; c.inFence && TryFlush(c).1.Some? ==>
      !BlockOpen(Flatten(Step(Run(min, max, ops), Flush).chunks))
  {
    NoMiscuts(min, max, ops);
    var c := Run(min, max, ops).now;
    if c.inFence && TryFlush(c).1.Some? { ForcedCloseIff(min, max, ops); }
  }

  lemma {:induction false} NoMiscuts(min: nat, max: nat, ops: seq<Op>)
    requires WholeLines(ops)
    ensures PushMiscuts(min, max, ops) == 0
  {
    if ops != [] {
      var init, last := ops[..|ops| - 1], ops[|ops| - 1];
      NoMiscuts(min, max, init);
      if last.PushText? {
        assert forall i :: 0 <= i < |init| && init[i].PushText? ==> EndsLine(init[i].text);
        WholeEndsLine(min, max, init);
        NoMiscutAtLine(Whole(Run(min, max, init)), last.text);
      }
    }
  }

  lemma {:induction false} NoMiscutAtLine(a: string, b: string)
    requires EndsLine(a)
    ensures !Miscut(a, b)
  {
    NoFenceInNothing();
    assert "" + FirstLine(b) == FirstLine(b);
  }

  lemma {:induction false} WholeEndsLine(min: nat, max: nat, ops: seq<Op>)
    requires forall i :: 0 <= i < |ops| && ops[i].PushText? ==> EndsLine(ops[i].text)
    ensures EndsLine(Whole(Run(min, max, ops)))
  {
    if ops == [] {
      assert Whole(Run(min, max, [])) == "";
    } else {
      var init, op := ops[..|ops| - 1], ops[|ops| - 1];
      assert op == ops[|init|] && forall i :: 0 <= i < |init| ==> init[i] == ops[i];
      WholeEndsLine(min, max, init);
      RunConserves(min, max, init);
      RunStep(min, max, ops);
      hide Whole, Step, ForcesClose, Run, Weave;
      StepEndsLine(Run(min, max, init), op);
    }
  }

  lemma {:induction false} StepEndsLine(t: Trace, op: Op)
    requires MarkerMatches(t.now) && EndsLine(Whole(t)) && (op.PushText? ==> EndsLine(op.text))
    ensures EndsLine(Whole(Step(t, op)))
  {
    StepAdds(t, op);
    hide Whole, Step, ForcesClose;
    assert REOPENED[|REOPENED| - 1] == '\n';
  }

  /** What a step adds to the whole text. */
  function Added(t: Trace, op: Op): string {
    match op
    case PushText(s) => s
    case Flush => if ForcesClose(t.now) then REOPENED else ""
    case FlushRest => ""
  }

  lemma {:induction false} StepAdds(t: Trace, op: Op)
    requires MarkerMatches(t.now)
    ensures Whole(Step(t, op)) == Whole(t) + Added(t, op)
  {
    hide Flatten, ForcesClose, TryFlush, Push;
    match op
    case PushText(s) =>
      PushState(t.now, s);
      Regroup(Flatten(t.chunks), t.now.buffer, s);
    case Flush =>
      FlushEffect(t.now);
      EmitAppends(t, TryFlush(t.now));
      Regroup(Flatten(t.chunks), t.now.buffer, Added(t, op));
      assert t.now.buffer + "" == t.now.buffer;
    case FlushRest =>
      EmitAppends(t, FlushRemaining(t.now));
      Regroup(Flatten(t.chunks), t.now.buffer, "");
      assert t.now.buffer + "" == t.now.buffer;
  }

  lemma {:induction false} Regroup(a: string, b: string, c: string)
    ensures a + (b + c) == a + b + c
  {
  }

  // ---------- No choice of limits prevents it ----------

  function Flushes(t: Trace, n: nat): Trace
    decreases n
  {
    if n == 0 then t else Flushes(Step(t, Flush), n - 1)
  }

  function PushedOnce(min: nat, max: nat, text: string): Trace {
    Step(Run(min, max, []), PushText(text))
  }

  /** Some text whose every block is closed when it has been pushed is handed out, flush by flush,
      with a chunk ending inside a block. */
  ghost predicate CutsClosedBlock(min: nat, max: nat) {
    exists text, n :: CutsInside(min, max, text, n)
  }

  ghost predicate CutsInside(min: nat, max: nat, text: string, n: nat) {
    !PushedOnce(min, max, text).now.inFence && BlockOpen(Flatten(Flushes(PushedOnce(min, max, text), n).chunks))
  }

  /** "```\n", as many letters as both limits together, "\n```". */
  function Witness(min: nat, max: nat): string {
    FENCE + "\n" + seq(min + max, _ => 'a') + "\n" + FENCE
  }

  /** Closed blocks get cut for all limits with which anything is ever flushed. */
  lemma {:induction false} CutsClosedBlockIff(min: nat, max: nat)
    ensures CutsClosedBlock(min, max) <==> max >= 1
  {
    hide CutsInside;
    if max >= 1 {
      var n := WitnessIsCut(min, max);
    } else {
      forall text, n ensures !CutsInside(min, max, text, n) { NeverInside(min, text, n); }
    }
  }

  lemma {:induction false} WitnessIsCut(min: nat, max: nat) returns (n: nat)
    requires max >= 1
    ensures CutsInside(min, max, Witness(min, max), n)
  {
    var text := Witness(min, max);
    WitnessPushed(min, max);
    hide PushedOnce, Witness, Flushes, BlockOpen;
    assert text[..0] == "" && text[0..] == text;
    n := FlushIntoBlock(PushedOnce(min, max, text), text, 0);
  }

  lemma {:induction false} NeverInside(min: nat, text: string, n: nat)
    ensures !CutsInside(min, 0, text, n)
  {
    hide Push, Fences, BlockOpen, Flushes, Flatten;
    var t := PushedOnce(min, 0, text);
    PushedOnceState(min, 0, text);
    if !t.now.inFence {
      NothingFlushed(t, n);
      NothingOpen();
    }
  }

  lemma {:induction false} NothingOpen()
    ensures !BlockOpen("")
  {
    NoFences();
  }

  lemma {:induction false} PushedOnceState(min: nat, max: nat, text: string)
    ensures PushedOnce(min, max, text).now.max == max && Flatten(PushedOnce(min, max, text).chunks) == ""
  {
    PushState(New(min, max), text);
    hide Push;
  }

  lemma {:induction false} WitnessPushed(min: nat, max: nat)
    requires max >= 1
    ensures PushedOnce(min, max, Witness(min, max)).now == Chunker(Witness(min, max), false, "", min, max)
    ensures Flatten(PushedOnce(min, max, Witness(min, max)).chunks) == ""
  {
    var body := seq(min + max, _ => 'a');
    assert LineText(FENCE) && LineText(body) && body[0] != FENCE[0];
    hide Push, LineText;
    PushThreeLines(New(min, max), FENCE, body, FENCE);
  }

  lemma {:induction false} NothingFlushed(t: Trace, n: nat)
    requires t.now.max == 0 && !t.now.inFence && Flatten(t.chunks) == ""
    ensures Flatten(Flushes(t, n).chunks) == ""
    decreases n
  {
    if n > 0 {
      FlushOutsideFence(t.now);
      var (d, chunk) := TryFlush(t.now);
      hide TryFlush, Flatten;
      if chunk.Some? {
        assert chunk.value == "";
        FlattenSnoc(t.chunks, "");
      }
      NothingFlushed(Step(t, Flush), n - 1);
    }
  }

  /** Flushing from anywhere in the opening fence line ends up inside the block. */
  lemma {:induction false} FlushIntoBlock(t: Trace, text: string, i: nat) returns (n: nat)
    requires var c := t.now; c.max >= 1 && !c.inFence && text == Witness(c.min, c.max) && i <= 4 + c.min + c.max
    requires Flatten(t.chunks) == text[..i] && t.now.buffer == text[i..]
    ensures BlockOpen(Flatten(Flushes(t, n).chunks))
    decreases |text| - i
  {
    if i >= 4 {
      InsideWitness(t.now.min, t.now.max, i);
      n := 0;
    } else {
      hide Step, Flatten, BlockOpen, Witness;
      var k := OneMoreFlush(t, text, i);
      n := FlushIntoBlock(Step(t, Flush), text, i + k);
      n := n + 1;
    }
  }

  lemma {:induction false} OneMoreFlush(t: Trace, text: string, i: nat) returns (k: nat)
    requires var c := t.now; c.max >= 1 && !c.inFence && text == Witness(c.min, c.max) && i < 4
    requires Flatten(t.chunks) == text[..i] && t.now.buffer == text[i..]
    ensures 1 <= k <= t.now.max && i + k <= |text|
    ensures var u := Step(t, Flush);
      && u.now == t.now.(buffer := text[i + k..]) && Flatten(u.chunks) == text[..i + k]
    ensures |text| == 8 + t.now.min + t.now.max
  {
    var c := t.now;
    FlushOutsideFence(c);
    PreferredIsLater(c);
    hide TryFlush, IsPreferredBreak, Occurs, Flatten;
    var (d, chunk) := TryFlush(c);
    k := |chunk.value|;
    FlattenSnoc(t.chunks, chunk.value);
    assert chunk.value == c.buffer[..k] && d.buffer == c.buffer[k..];
    SliceFurther(text, i, k);
  }

  lemma {:induction false} SliceFurther(text: string, i: nat, k: nat)
    requires i + k <= |text|
    ensures text[..i] + text[i..][..k] == text[..i + k] && text[i..][k..] == text[i + k..]
  {
  }

  lemma {:induction false} PreferredIsLater(c: Chunker)
    ensures forall k :: IsPreferredBreak(c.buffer, PATTERNS, c.min, Min(c.max, |c.buffer|), k) ==> k >= 1
  {
  }

  lemma {:induction false} InsideWitness(min: nat, max: nat, i: nat)
    requires 4 <= i <= 4 + min + max
    ensures BlockOpen(Witness(min, max)[..i])
  {
    var open := FENCE + "\n";
    var body := seq(min + max, _ => 'a')[..i - 4];
    assert Witness(min, max)[..i] == open + body;
    PartialResumes(open, body);
    FinishedNothing(body);
    assert open + "" == open;
    assert LineText(FENCE);
    OneLine(FENCE);
    TrimNewline(FENCE);
    assert IsFenceLine(open);
    FenceLinesOne(open);
  }

  lemma {:induction false} FinishedNothing(s: string)
    requires '\n' !in s
    ensures Finished(s) == ""
  {
    if s != "" { FinishedNothing(s[..|s| - 1]); }
  }

  // ---------- Closed blocks pushed in pieces ----------

  /** One closed block of as many letters as both limits together; its closing fence arrives in two pieces. */
  function Pieces(min: nat, max: nat): seq<Op> {
    [PushText(OpenBlock(min, max)), PushText("``"), PushText("`\n")]
  }

  function OpenBlock(min: nat, max: nat): string {
    FENCE + "\n" + seq(min + max, _ => 'a') + "\n"
  }

  /** For all limits, 0 included: a closed block pushed in pieces is handed out by a forced close, and
      the chunk ends inside a block. */
  lemma {:induction false} PiecesCutClosedBlock(min: nat, max: nat)
    ensures var t := Run(min, max, Pieces(min, max));
      && t.chunks == [] && t.pushed == t.now.buffer == OpenBlock(min, max) + FENCE + "\n"
      && !BlockOpen(t.pushed)
      && ForcesClose(t.now) && BlockOpen(Flatten(Step(t, Flush).chunks))
  {
    PiecesPushed(min, max);
    PiecesFences(min, max);
    OpenBlockLong(min, max);
    var t := Run(min, max, Pieces(min, max));
    hide Run, OpenBlock, Fences, Step, Pieces, TryFlush, BlockOpen, Flatten;
    ClosedTextForced(t);
  }

  lemma {:induction false} ClosedTextForced(t: Trace)
    requires t.chunks == [] && t.now.inFence && MarkerMatches(t.now) && t.pushed == t.now.buffer
    requires ForcesClose(t.now) && Fences(t.pushed) % 2 == 0 && EndsLine(t.pushed)
    ensures !BlockOpen(t.pushed) && BlockOpen(Flatten(Step(t, Flush).chunks))
  {
    LineFinished(t.pushed);
    assert Whole(t) == t.now.buffer;
    FlushInsideFence(t.now);
    hide Fences, TryFlush, Flatten, Step;
    CloseEndsIn(t);
  }

  lemma {:induction false} OpenBlockLong(min: nat, max: nat)
    ensures |OpenBlock(min, max)| >= min + max
  {
  }

  lemma {:induction false} LineFinished(s: string)
    requires EndsLine(s)
    ensures Finished(s) == s
  {
  }

  lemma {:induction false} PiecesFences(min: nat, max: nat)
    ensures Fences(OpenBlock(min, max)) == 1 && Fences(OpenBlock(min, max) + FENCE + "\n") == 2
    ensures Fences("``") == 0 && Fences("`\n") == 0
  {
    var body: string := seq(min + max, _ => 'a');
    OpenBlockFences(body);
    BackticksNoFence();
    assert OpenBlock(min, max) == FENCE + "\n" + (body + "\n");
    hide Fences, OpenBlock;
    FencesOfFence();
    FencesAtNewline(OpenBlock(min, max), FENCE + "\n");
    Regroup(OpenBlock(min, max), FENCE, "\n");
  }

  lemma {:induction false} BackticksNoFence()
    ensures Fences("``") == 0 && Fences("`\n") == 0
  {
    var two, one := "``", "`";
    ShortNoFence(two);
    ShortNoFence(one);
    hide Fences;
    FencesEndLine(one);
    assert one + "\n" == "`\n";
  }

  lemma {:induction false} ShortNoFence(s: string)
    requires |s| < 3 && '\n' !in s
    ensures Fences(s) == 0
  {
    assert |Trim(IsWhitespace, s)| <= |s|;
    FencesOfPartial(s);
  }

  lemma {:induction false} OpenBlockFences(body: string)
    requires forall i :: 0 <= i < |body| ==> body[i] == 'a'
    ensures Fences(FENCE + "\n" + (body + "\n")) == 1
  {
    hide Fences, IsFenceLine;
    NoLetterFence(body);
    FencesOfPartial(body);
    FencesOfFence();
    FencesEndLine(body);
    var open, rest := FENCE + "\n", body + "\n";
    hide One;
    FencesAtNewline(open, rest);
  }

  lemma {:induction false} NoLetterFence(s: string)
    requires forall i :: 0 <= i < |s| ==> s[i] == 'a'
    ensures !IsFenceLine(s)
  {
    NoFenceInNothing();
    if s != "" {
      assert LineText(s);
      assert s[0] != FENCE[0];
    }
  }

  lemma {:induction false} PiecesPushed(min: nat, max: nat)
    ensures Run(min, max, Pieces(min, max)).chunks == []
    ensures var t := Run(min, max, Pieces(min, max)); t.pushed == OpenBlock(min, max) + FENCE + "\n"
    ensures Run(min, max, Pieces(min, max)).now == Chunker(OpenBlock(min, max) + FENCE + "\n", true, FENCE, min, max)
  {
    var a, b, c := PushText(OpenBlock(min, max)), PushText("``"), PushText("`\n");
    RunThree(min, max, a, b, c);
    PiecesFences(min, max);
    hide Fences, Push, OpenBlock;
    var c0 := New(min, max);
    PushState(c0, a.text);
    PushState(Push(c0, a.text), b.text);
    PushState(Push(Push(c0, a.text), b.text), c.text);
    assert a.text + b.text + c.text == a.text + FENCE + "\n";
    assert "" + a.text == a.text;
  }

  lemma {:induction false} RunThree(min: nat, max: nat, a: Op, b: Op, c: Op)
    ensures Run(min, max, [a, b, c]) == Step(Step(Step(Run(min, max, []), a), b), c)
  {
    var l := [a, b, c];
    assert l[..2] == [a, b] && l[..2][..1] == [a] && l[..2][..1][..0] == [];
    hide Step;
    assert Run(min, max, l) == Step(Run(min, max, l[..2]), c);
    assert Run(min, max, [a, b]) == Step(Run(min, max, [a]), b);
  }
}
