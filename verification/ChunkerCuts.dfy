/** Text pushed in pieces: which cuts between the pieces change the state. */
module ChunkerCuts {
  import opened Text
  import opened Utf8
  import opened ChunkerSpec

  // ---------- Lines of a text cut in two ----------

  /** The unfinished last line. */
  function Partial(s: string): string {
    if s == "" || s[|s| - 1] == '\n' then "" else Partial(s[..|s| - 1]) + [s[|s| - 1]]
  }

  /** The finished lines before it. */
  function Finished(s: string): string {
    if s == "" || s[|s| - 1] == '\n' then s else Finished(s[..|s| - 1])
  }

  /** How many lines of a text open or close a fence. */
  function Fences(s: string): nat {
    FenceLines(SplitInclusive(s))
  }

  function FirstLine(s: string): string {
    s[..LineEnd(s)]
  }

  function One(line: string): nat {
    if IsFenceLine(line) then 1 else 0
  }

  lemma {:induction false} SplitAtPartial(s: string)
    ensures s == Finished(s) + Partial(s) && '\n' !in Partial(s)
    ensures Finished(s) == "" || Finished(s)[|Finished(s)| - 1] == '\n'
  {
    if s != "" && s[|s| - 1] != '\n' {
      SplitAtPartial(s[..|s| - 1]);
      assert s == s[..|s| - 1] + [s[|s| - 1]];
    }
  }

  lemma {:induction false} FencesAtNewline(a: string, b: string)
    requires a == "" || a[|a| - 1] == '\n'
    ensures Fences(a + b) == Fences(a) + Fences(b)
  {
    SplitAtNewline(a, b);
    FenceLinesConcat(SplitInclusive(a), SplitInclusive(b));
  }

  lemma {:induction false} FencesOfFirst(s: string)
    requires s != ""
    ensures Fences(s) == One(FirstLine(s)) + Fences(s[LineEnd(s)..])
  {
    hide SplitInclusive, IsFenceLine, LineEnd;
    SplitFirst(s);
    var first, rest := [FirstLine(s)], SplitInclusive(s[LineEnd(s)..]);
    FenceLinesConcat(first, rest);
    FenceLinesOne(FirstLine(s));
  }

  lemma {:induction false} FenceLinesOne(line: string)
    ensures FenceLines([line]) == One(line)
  {
    hide IsFenceLine;
    assert [line][..0] == [];
  }

  lemma {:induction false} NoFenceInNothing()
    ensures !IsFenceLine("") && Fences("") == 0
  {
    assert Trim(IsWhitespace, "") == "";
  }

  lemma {:induction false} FirstLineExtended(x: string, b: string)
    requires '\n' !in x && b != ""
    ensures LineEnd(x + b) == |x| + LineEnd(b)
  {
    if x == "" {
      assert x + b == b;
    } else {
      assert (x + b)[1..] == x[1..] + b;
      FirstLineExtended(x[1..], b);
    }
  }

  /** The unfinished line of the first part and the first line of the second become one line. */
  lemma {:induction false} FencesJoin(a: string, b: string)
    ensures Fences(a + b) + One(Partial(a)) + One(FirstLine(b))
      == Fences(a) + Fences(b) + One(Partial(a) + FirstLine(b))
  {
    hide Fences, One, Partial, Finished, SplitInclusive, LineEnd;
    var x, f := Partial(a), Finished(a);
    SplitAtPartial(a);
    FencesOfPartial(x);
    FencesAtNewline(f, x);
    if b == "" {
      assert a + b == a && FirstLine(b) == "" && x + "" == x by { EmptyFirstLine(); }
      NoFences();
    } else {
      FencesAtNewline(f, x + b);
      assert f + (x + b) == a + b;
      FencesOfJoined(x, b);
    }
  }

  lemma {:induction false} EmptyFirstLine()
    ensures FirstLine("") == ""
  {
  }

  lemma {:induction false} NoFences()
    ensures One("") == 0 && Fences("") == 0
  {
    NoFenceInNothing();
  }

  lemma {:induction false} FencesOfPartial(x: string)
    requires '\n' !in x
    ensures Fences(x) == One(x)
  {
    NoFenceInNothing();
    if x != "" {
      NoNewline(x);
      FencesOfFirst(x);
      assert x[..|x|] == x && x[|x|..] == "";
    }
  }

  lemma {:induction false} FencesOfJoined(x: string, b: string)
    requires '\n' !in x && b != ""
    ensures Fences(x + b) + One(FirstLine(b)) == Fences(b) + One(x + FirstLine(b))
  {
    hide Fences, One, LineEnd;
    var k := LineEnd(b);
    FirstLineExtended(x, b);
    FencesOfFirst(b);
    FencesOfFirst(x + b);
    assert (x + b)[..|x| + k] == x + b[..k] && (x + b)[|x| + k..] == b[k..];
  }

  // ---------- Pushing in parts cut anywhere ----------

  /** The cut between two parts changes the parity of the fence lines. */
  predicate Miscut(a: string, b: string) {
    var x, y := Partial(a), FirstLine(b);
    IsFenceLine(x + y) != (IsFenceLine(x) != IsFenceLine(y))
  }

  /** How many of the cuts between the parts do so. */
  function Miscuts(parts: seq<string>): nat {
    if parts == [] then 0
    else
      var init, last := parts[..|parts| - 1], parts[|parts| - 1];
      Miscuts(init) + if Miscut(Flatten(init), last) then 1 else 0
  }

  lemma {:induction false} MiscutFlips(a: string, b: string)
    ensures (Fences(a + b) + (if Miscut(a, b) then 1 else 0)) % 2 == (Fences(a) + Fences(b)) % 2
  {
    FencesJoin(a, b);
    hide Fences, Partial, FirstLine, IsFenceLine;
    var x, y := Partial(a), FirstLine(b);
    var p, q, r := One(x), One(y), One(x + y);
    assert Fences(a + b) == Fences(a) + Fences(b) + r - p - q;
    assert Miscut(a, b) <==> (r + p + q) % 2 == 1;
  }

  lemma {:induction false} PushState(c: Chunker, text: string)
    requires MarkerMatches(c)
    ensures var d := Push(c, text);
      && MarkerMatches(d) && d.min == c.min && d.max == c.max && d.buffer == c.buffer + text
      && d.inFence == (c.inFence != (Fences(text) % 2 == 1))
  {
    PushFlipsPerFenceLine(c, SplitInclusive(text));
    FlattenSplit(text);
  }

  /** Pushing a text in two parts cut anywhere reaches the state of pushing it whole, if and only if
      the line the cut falls in is a fence line exactly when just one of its two pieces is. */
  lemma {:induction false} PushAppendIff(c: Chunker, a: string, b: string)
    requires MarkerMatches(c)
    ensures Push(c, a + b) == Push(Push(c, a), b) <==> !Miscut(a, b)
  {
    hide Push, Fences, Miscut;
    PushState(c, a + b);
    PushState(c, a);
    PushState(Push(c, a), b);
    MiscutFlips(a, b);
    assert c.buffer + (a + b) == c.buffer + a + b;
  }

  lemma {:induction false} PushAllState(c: Chunker, parts: seq<string>)
    requires MarkerMatches(c)
    ensures var d := PushAll(c, parts); var text := Flatten(parts);
      && MarkerMatches(d) && d.min == c.min && d.max == c.max && d.buffer == c.buffer + text
      && d.inFence == (c.inFence != ((Fences(text) + Miscuts(parts)) % 2 == 1))
  {
    hide Push, Fences, Miscut, Miscuts, PushAll, Flatten;
    if parts == [] {
      NothingPushed(c);
    } else {
      var init, last := parts[..|parts| - 1], parts[|parts| - 1];
      assert parts == init + [last];
      PushAllState(c, init);
      PushState(PushAll(c, init), last);
      MiscutFlips(Flatten(init), last);
      FlattenSnoc(init, last);
      PushAllSnoc(c, init, last);
      MiscutsSnoc(init, last);
      assert c.buffer + (Flatten(init) + last) == c.buffer + Flatten(init) + last;
    }
  }

  lemma {:induction false} NothingPushed(c: Chunker)
    ensures PushAll(c, []) == c && Flatten<char>([]) == "" && Miscuts([]) == 0 && Fences("") == 0
  {
    NoFences();
  }

  lemma {:induction false} MiscutsSnoc(init: seq<string>, last: string)
    ensures Miscuts(init + [last]) == Miscuts(init) + if Miscut(Flatten(init), last) then 1 else 0
  {
    hide Miscut;
    assert (init + [last])[..|init|] == init;
  }

  /** The same for any number of parts: the miscuts must be even in number. */
  lemma {:induction false} PushInPartsIff(c: Chunker, parts: seq<string>)
    requires MarkerMatches(c)
    ensures Push(c, Flatten(parts)) == PushAll(c, parts) <==> Miscuts(parts) % 2 == 0
  {
    hide Push, PushAll, Fences, Miscuts;
    PushState(c, Flatten(parts));
    PushAllState(c, parts);
  }
}
