/** The chunker as it runs: a UTF-8 buffer, byte offsets and slices, updated in place. */
module StreamChunkers {
  import opened Text
  import opened Utf8
  import opened ChunkerSpec

  /** Byte-level break search over the encoded patterns. */
  function ByteBreakEnd(bytes: seq<byte>, patterns: seq<string>, lo: nat, hi: nat): (r: Option<nat>)
    requires hi <= |bytes|
    ensures r.Some? ==> lo <= r.value <= hi
  {
    if patterns == [] then None
    else match FindLastInRange(bytes, Encode(patterns[0]), lo, hi)
      case Some(p) => Some(p + |Encode(patterns[0])|)
      case None => ByteBreakEnd(bytes, patterns[1..], lo, hi)
  }

  /** The encoded offset of a character offset. */
  function ByteOffset(s: string, r: Option<nat>): Option<nat>
    requires r.Some? ==> r.value <= |s|
  {
    if r.None? then None else Some(|Encode(s[..r.value])|)
  }

  /** The byte search selects the break the character search selects, at its encoded offset. */
  lemma {:induction false} BreakEndRefines(s: string, patterns: seq<string>, lo: nat, hi: nat)
    requires lo <= |s| && hi <= |s| && |Encode(s[..hi])| <= |Encode(s)|
    requires forall i :: 0 <= i < |patterns| ==> patterns[i] != "" && IsAscii(patterns[i])
    ensures ByteBreakEnd(Encode(s), patterns, |Encode(s[..lo])|, |Encode(s[..hi])|)
         == ByteOffset(s, BreakEnd(s, patterns, lo, hi))
  {
    hide Encode, FindLastInRange, IsAscii, ByteOffset, ByteBreakEnd, BreakEnd;
    if patterns == [] {
      NoPatterns(s, lo, hi);
    } else {
      PatternRefines(s, patterns[0], lo, hi);
      BreakEndStep(s, patterns, lo, hi);
      if FindLastInRange(s, patterns[0], lo, hi).None? {
        var rest := patterns[1..];
        assert forall i :: 0 <= i < |rest| ==> rest[i] == patterns[i + 1];
        BreakEndRefines(s, rest, lo, hi);
      }
    }
  }

  lemma {:induction false} NoPatterns(s: string, lo: nat, hi: nat)
    requires lo <= |s| && hi <= |s| && |Encode(s[..hi])| <= |Encode(s)|
    ensures ByteBreakEnd(Encode(s), [], |Encode(s[..lo])|, |Encode(s[..hi])|) == ByteOffset(s, BreakEnd(s, [], lo, hi))
  {
  }

  lemma {:induction false} BreakEndStep(s: string, patterns: seq<string>, lo: nat, hi: nat)
    requires lo <= |s| && hi <= |s| && patterns != [] && |Encode(s[..hi])| <= |Encode(s)|
    ensures BreakEnd(s, patterns, lo, hi) ==
      (match FindLastInRange(s, patterns[0], lo, hi)
       case Some(p) => Some(p + |patterns[0]|)
       case None => BreakEnd(s, patterns[1..], lo, hi))
    ensures var bytes, blo, bhi := Encode(s), |Encode(s[..lo])|, |Encode(s[..hi])|;
      ByteBreakEnd(bytes, patterns, blo, bhi) ==
      (match FindLastInRange(bytes, Encode(patterns[0]), blo, bhi)
       case Some(p) => Some(p + |Encode(patterns[0])|)
       case None => ByteBreakEnd(bytes, patterns[1..], blo, bhi))
  {
    hide Encode, FindLastInRange;
  }

  lemma {:induction false} PatternRefines(s: string, pattern: string, lo: nat, hi: nat)
    requires lo <= |s| && hi <= |s| && pattern != "" && IsAscii(pattern) && |Encode(s[..hi])| <= |Encode(s)|
    ensures var r := FindLastInRange(s, pattern, lo, hi);
      var b := FindLastInRange(Encode(s), Encode(pattern), |Encode(s[..lo])|, |Encode(s[..hi])|);
      && (r.None? ==> b.None?)
      && (r.Some? ==> b.Some? && Some(b.value + |Encode(pattern)|) == ByteOffset(s, Some(r.value + |pattern|)))
  {
    hide Encode, IsAscii;
    FindLastRefines(s, pattern, lo, hi);
    var r := FindLastInRange(s, pattern, lo, hi);
    if r.Some? {
      assert OccursAt(s, pattern, r.value);
      hide FindLastInRange;
      OccurrenceInBytes(s, pattern, r.value);
      EncodeAscii(pattern);
    }
  }

  lemma {:induction false} PatternsAreAscii()
    ensures forall i :: 0 <= i < |PATTERNS| ==> PATTERNS[i] != "" && IsAscii(PATTERNS[i])
  {
  }

  class StreamChunker {
    var buffer: seq<byte>
    var inCodeFence: bool
    var fenceMarker: string
    const minChunkChars: nat
    const maxChunkChars: nat
    ghost var text: string

    ghost predicate Valid()
      reads this
    {
      buffer == Encode(text) && MarkerMatches(Model())
    }

    ghost function Model(): Chunker
      reads this
    {
      Chunker(text, inCodeFence, fenceMarker, minChunkChars, maxChunkChars)
    }

    constructor (min: nat, max: nat)
      ensures Valid() && Model() == New(min, max)
    {
      buffer, inCodeFence, fenceMarker := [], false, "";
      minChunkChars, maxChunkChars := min, max;
      text := "";
    }

    method Push(pushed: string)
      requires Valid()
      modifies this
      ensures Valid() && Model() == ChunkerSpec.Push(old(Model()), pushed)
    {
      hide Encode, Trim, SplitInclusive;
      var lines := SplitInclusive(pushed);
      assert lines[..0] == [];
      for i := 0 to |lines|
        invariant Valid() && Model() == PushLines(old(Model()), lines[..i])
      {
        assert lines[..i + 1][..i] == lines[..i];
        EncodeConcat(text, lines[i]);
        buffer, text := buffer + Encode(lines[i]), text + lines[i];
        var trimmed := Trim(IsWhitespace, lines[i]);
        if FENCE <= trimmed {
          if inCodeFence {
            if trimmed == FENCE || fenceMarker <= trimmed {
              inCodeFence, fenceMarker := false, "";
            }
          } else {
            inCodeFence, fenceMarker := true, FENCE;
          }
        }
      }
      assert lines[..|lines|] == lines;
    }

    /** Splits off the first `breakAt` bytes, which end at a code-point boundary. */
    method SplitOff(breakAt: nat, ghost k: nat) returns (chunk: seq<byte>)
      requires Valid() && k <= |text| && breakAt == |Encode(text[..k])|
      modifies this`buffer, this`text
      ensures Valid() && Model() == Cut(old(Model()), k).0
      ensures IsCharBoundary(old(buffer), breakAt) && chunk == Encode(old(text)[..k])
    {
      EncodeSplit(text, k);
      BoundaryIffPrefix(text, breakAt);
      chunk := buffer[..breakAt];
      buffer, text := buffer[breakAt..], text[k..];
    }

    method TryFlush() returns (chunk: Option<seq<byte>>)
      requires Valid()
      modifies this`buffer, this`text
      ensures Valid() && Model() == ChunkerSpec.TryFlush(old(Model())).0
      ensures match ChunkerSpec.TryFlush(old(Model())).1
              case None => chunk.None?
              case Some(s) => chunk == Some(Encode(s))
    {
      var bufferedChars := CharCount(buffer);
      CharCountEncode(text);
      if bufferedChars < minChunkChars { return None; }
      if inCodeFence && bufferedChars < maxChunkChars { return None; }
      if inCodeFence && bufferedChars >= maxChunkChars {
        EncodeConcat(text, CLOSE);
        chunk := Some(buffer + Encode(CLOSE));
        text := FENCE + TrimBackticks(fenceMarker) + "\n";
        buffer := Encode(FENCE + TrimBackticks(fenceMarker) + "\n");
        return;
      }
      ghost var hi := Min(maxChunkChars, |text|);
      ByteIndexEncode(text, minChunkChars);
      ByteIndexEncode(text, hi);
      ByteIndexEncode(text, maxChunkChars);
      var start := ByteIndexAtChar(buffer, minChunkChars);
      var end := ByteIndexAtChar(buffer, Min(maxChunkChars, bufferedChars));
      PatternsAreAscii();
      EncodeSplit(text, hi);
      BreakEndRefines(text, PATTERNS, minChunkChars, hi);
      var found := ByteBreakEnd(buffer, PATTERNS, start, end);
      if found.Some? {
        var c := SplitOff(found.value, BreakEnd(text, PATTERNS, minChunkChars, hi).value);
        return Some(c);
      }
      if bufferedChars >= maxChunkChars {
        var c := SplitOff(ByteIndexAtChar(buffer, maxChunkChars), maxChunkChars);
        return Some(c);
      }
      return None;
    }

    method FlushRemaining() returns (chunk: Option<seq<byte>>)
      requires Valid()
      modifies this`buffer, this`text
      ensures Valid() && Model() == ChunkerSpec.FlushRemaining(old(Model())).0
      ensures buffer == [] && chunk == if old(buffer) == [] then None else Some(old(buffer))
      ensures match ChunkerSpec.FlushRemaining(old(Model())).1
              case None => chunk.None?
              case Some(s) => chunk == Some(Encode(s))
    {
      if buffer == [] {
        return None;
      }
      chunk := Some(buffer);
      buffer, text := [], "";
    }
  }
}
