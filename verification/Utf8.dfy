/** UTF-8 (section 3 of RFC 3629) and the byte-offset helpers of the chunker. A Dafny `char` is a
    Unicode scalar value, like a Rust `char`; a Rust `String` is the encoding of a `string`. */
module Utf8 {
  import opened Text

  type byte = b: int | 0 <= b < 256

  predicate IsContinuation(b: byte) {
    0x80 <= b < 0xC0
  }

  /** The last `k` octets of a multi-octet sequence: six bits of `n` each, high bits first. */
  function Continuation(n: nat, k: nat): (r: seq<byte>)
    ensures |r| == k && forall i :: 0 <= i < k ==> IsContinuation(r[i])
  {
    if k == 0 then [] else Continuation(n / 64, k - 1) + [0x80 + n % 64]
  }

  function EncodeChar(c: char): (r: seq<byte>)
    ensures 1 <= |r| <= 4 && !IsContinuation(r[0])
    ensures forall i :: 0 < i < |r| ==> IsContinuation(r[i])
    ensures if c as int < 0x80 then r == [c as int] else r[0] >= 0xC0
  {
    var n := c as int;
    if n < 0x80 then [n]
    else if n < 0x800 then [0xC0 + n / 64] + Continuation(n, 1)
    else if n < 0x10000 then [0xE0 + n / 4096] + Continuation(n, 2)
    else [0xF0 + n / 262144] + Continuation(n, 3)
  }

  function Encode(s: string): seq<byte> {
    if s == "" then [] else EncodeChar(s[0]) + Encode(s[1..])
  }

  /** Where Rust allows a string slice to start or end (`str::is_char_boundary`). */
  predicate IsCharBoundary(bytes: seq<byte>, i: int) {
    0 <= i <= |bytes| && (i < |bytes| ==> !IsContinuation(bytes[i]))
  }

  /** `text.chars().count()` */
  function CharCount(bytes: seq<byte>): nat {
    if bytes == [] then 0 else (if IsContinuation(bytes[0]) then 0 else 1) + CharCount(bytes[1..])
  }

  /** Byte offset of the character with index `k`, or the length when there is none. */
  function ByteIndexAtChar(bytes: seq<byte>, k: nat): (i: nat)
    ensures i <= |bytes|
  {
    if bytes == [] then 0
    else if IsContinuation(bytes[0]) then 1 + ByteIndexAtChar(bytes[1..], k)
    else if k == 0 then 0
    else 1 + ByteIndexAtChar(bytes[1..], k - 1)
  }

  /** Last occurrence of `pat` that lies wholly inside `text[lo..hi]`; over bytes or characters. */
  function FindLastInRange<T(==)>(text: seq<T>, pat: seq<T>, lo: nat, hi: nat): (r: Option<nat>)
    requires hi <= |text|
    ensures r.Some? ==> OccursInRange(text, pat, lo, hi, r.value)
    ensures r.Some? ==> forall q :: OccursInRange(text, pat, lo, hi, q) ==> q <= r.value
    ensures r.None? && lo < hi ==> forall q :: !OccursInRange(text, pat, lo, hi, q)
    ensures lo >= hi ==> r.None?
  {
    if lo >= hi then None
    else
      WindowOccurrences(text, pat, lo, hi);
      match FindBack(text[lo..hi], pat, hi - lo - |pat|)
      case None => None
      case Some(p) => Some(lo + p)
  }

  lemma {:induction false} WindowOccurrences<T>(text: seq<T>, pat: seq<T>, lo: nat, hi: nat)
    requires lo <= hi <= |text|
    ensures forall q :: OccursInRange(text, pat, lo, hi, q) ==> OccursAt(text[lo..hi], pat, q - lo)
    ensures forall p :: OccursAt(text[lo..hi], pat, p) ==> OccursInRange(text, pat, lo, hi, lo + p)
  {
    forall q | OccursInRange(text, pat, lo, hi, q)
      ensures OccursAt(text[lo..hi], pat, q - lo)
    {
      SliceOfSlice(text, lo, hi, q - lo, q - lo + |pat|);
    }
    forall p | OccursAt(text[lo..hi], pat, p)
      ensures OccursInRange(text, pat, lo, hi, lo + p)
    {
      SliceOfSlice(text, lo, hi, p, p + |pat|);
    }
  }

  lemma {:induction false} SliceOfSlice<T>(s: seq<T>, lo: nat, hi: nat, a: nat, b: nat)
    requires lo <= hi <= |s| && a <= b <= hi - lo
    ensures s[lo..hi][a..b] == s[lo + a..lo + b]
  {
    var w := s[lo..hi];
    forall i | 0 <= i < b - a
      ensures w[a..b][i] == s[lo + a..lo + b][i]
    {
      assert w[a..b][i] == w[a + i] == s[lo + (a + i)];
    }
  }

  ghost predicate OccursInRange<T>(text: seq<T>, pat: seq<T>, lo: nat, hi: nat, p: int) {
    lo <= p <= p + |pat| <= hi <= |text| && text[p..p + |pat|] == pat
  }

  // ---------- Encoding lemmas ----------

  /** The encoding determines the text. */
  lemma {:induction false} EncodeInjective(a: string, b: string)
    requires Encode(a) == Encode(b)
    ensures a == b
  {
    if a == "" || b == "" {
    } else {
      FirstCharDetermined(a, b);
      assert Encode(a)[|EncodeChar(a[0])|..] == Encode(a[1..]);
      assert Encode(b)[|EncodeChar(b[0])|..] == Encode(b[1..]);
      EncodeInjective(a[1..], b[1..]);
      assert a == [a[0]] + a[1..] && b == [b[0]] + b[1..];
    }
  }

  function ShiftRight(n: nat, k: nat): nat {
    if k == 0 then n else ShiftRight(n / 64, k - 1)
  }

  lemma {:induction false} ContinuationInjective(n: nat, m: nat, k: nat)
    requires Continuation(n, k) == Continuation(m, k) && ShiftRight(n, k) == ShiftRight(m, k)
    ensures n == m
  {
    if k > 0 {
      var x, y := Continuation(n, k), Continuation(m, k);
      assert x[..k - 1] == Continuation(n / 64, k - 1) && y[..k - 1] == Continuation(m / 64, k - 1);
      assert x[k - 1] == 0x80 + n % 64 && y[k - 1] == 0x80 + m % 64;
      ContinuationInjective(n / 64, m / 64, k - 1);
    }
  }

  lemma {:induction false} ShiftRightUpTo3(n: nat)
    ensures ShiftRight(n, 1) == n / 64 && ShiftRight(n, 2) == n / 4096 && ShiftRight(n, 3) == n / 262144
  {
    assert ShiftRight(n, 1) == ShiftRight(n / 64, 0);
    assert ShiftRight(n, 2) == ShiftRight(n / 64, 1) == ShiftRight(n / 64 / 64, 0);
    assert ShiftRight(n, 3) == ShiftRight(n / 64, 2) == ShiftRight(n / 64 / 64, 1) == ShiftRight(n / 64 / 64 / 64, 0);
  }

  lemma {:induction false} EncodeCharInjective(c: char, d: char)
    requires EncodeChar(c) == EncodeChar(d)
    ensures c == d
  {
    var e, k := EncodeChar(c), |EncodeChar(c)| - 1;
    var n, m := c as int, d as int;
    if k > 0 {
      assert e[1..] == Continuation(n, k) && EncodeChar(d)[1..] == Continuation(m, k);
      assert ShiftRight(n, k) == ShiftRight(m, k) by {
        ShiftRightUpTo3(n);
        ShiftRightUpTo3(m);
      }
      ContinuationInjective(n, m, k);
    }
  }

  lemma {:induction false} FirstCharDetermined(a: string, b: string)
    requires a != "" && b != "" && Encode(a) == Encode(b)
    ensures a[0] == b[0]
  {
    var x, y := EncodeChar(a[0]), EncodeChar(b[0]);
    var e := Encode(a);
    assert e[0] == x[0] == y[0] by { assert Encode(b)[0] == y[0]; }
    assert |x| == |y|;
    assert e[..|x|] == x && Encode(b)[..|y|] == y;
    EncodeCharInjective(a[0], b[0]);
  }

  lemma {:induction false} EncodeConcat(a: string, b: string)
    ensures Encode(a + b) == Encode(a) + Encode(b)
  {
    if a == "" {
      assert a + b == b;
    } else {
      assert (a + b)[1..] == a[1..] + b;
      EncodeConcat(a[1..], b);
    }
  }

  lemma {:induction false} EncodeSplit(s: string, k: nat)
    requires k <= |s|
    ensures |Encode(s[..k])| <= |Encode(s)|
    ensures Encode(s)[..|Encode(s[..k])|] == Encode(s[..k])
    ensures Encode(s)[|Encode(s[..k])|..] == Encode(s[k..])
  {
    assert s == s[..k] + s[k..];
    EncodeConcat(s[..k], s[k..]);
  }

  lemma {:induction false} EncodeAscii(s: string)
    requires IsAscii(s)
    ensures |Encode(s)| == |s| && forall i :: 0 <= i < |s| ==> Encode(s)[i] == s[i] as int
  {
    if s != "" {
      EncodeAscii(s[1..]);
      assert s == [s[0]] + s[1..];
    }
  }

  lemma {:induction false} CharCountEncode(s: string)
    ensures CharCount(Encode(s)) == |s|
  {
    if s != "" {
      var e, rest := EncodeChar(s[0]), Encode(s[1..]);
      assert e + rest == [e[0]] + (e[1..] + rest);
      CharCountLead(e[0], e[1..] + rest);
      SkipContinuations(e[1..], rest, 0);
      CharCountEncode(s[1..]);
    }
  }

  lemma {:induction false} CharCountLead(lead: byte, rest: seq<byte>)
    requires !IsContinuation(lead)
    ensures CharCount([lead] + rest) == 1 + CharCount(rest)
  {
    assert ([lead] + rest)[1..] == rest;
  }

  lemma {:induction false} SkipContinuations(cont: seq<byte>, rest: seq<byte>, k: nat)
    requires forall i :: 0 <= i < |cont| ==> IsContinuation(cont[i])
    ensures CharCount(cont + rest) == CharCount(rest)
    ensures ByteIndexAtChar(cont + rest, k) == |cont| + ByteIndexAtChar(rest, k)
  {
    if cont == [] {
      assert cont + rest == rest;
    } else {
      assert (cont + rest)[1..] == cont[1..] + rest;
      SkipContinuations(cont[1..], rest, k);
    }
  }

  /** A character offset is translated to the length of the encoded prefix before it. */
  lemma {:induction false} ByteIndexEncode(s: string, k: nat)
    ensures ByteIndexAtChar(Encode(s), k) == |Encode(s[..Min(k, |s|)])|
  {
    if s != "" {
      if k > 0 {
        var e := EncodeChar(s[0]);
        assert Encode(s)[1..] == e[1..] + Encode(s[1..]);
        SkipContinuations(e[1..], Encode(s[1..]), k - 1);
        ByteIndexEncode(s[1..], k - 1);
        var pre := s[..Min(k, |s|)];
        assert pre[1..] == s[1..][..Min(k - 1, |s| - 1)];
      }
    }
  }

  /** The code-point boundaries of an encoded text are exactly the ends of its encoded prefixes. */
  lemma {:induction false} BoundaryIffPrefix(s: string, i: nat)
    ensures IsCharBoundary(Encode(s), i) <==> exists k :: 0 <= k <= |s| && i == |Encode(s[..k])|
  {
    forall k | 0 <= k <= |s| && i == |Encode(s[..k])|
      ensures IsCharBoundary(Encode(s), i)
    {
      EncodeSplit(s, k);
      if k < |s| {
        assert Encode(s)[i] == Encode(s[k..])[0];
      }
    }
    if IsCharBoundary(Encode(s), i) {
      var k := PrefixOfBoundary(s, i);
    }
  }

  lemma {:induction false} PrefixOfBoundary(s: string, i: nat) returns (k: nat)
    requires IsCharBoundary(Encode(s), i)
    ensures k <= |s| && i == |Encode(s[..k])|
  {
    if i == 0 {
      k := 0;
    } else {
      var e := EncodeChar(s[0]);
      if i < |e| {
        assert false;
      }
      assert i < |Encode(s)| ==> Encode(s)[i] == Encode(s[1..])[i - |e|];
      var j := PrefixOfBoundary(s[1..], i - |e|);
      k := j + 1;
      assert s[..k][1..] == s[1..][..j];
    }
  }

  predicate IsAscii(s: string) {
    forall i :: 0 <= i < |s| ==> s[i] as int < 0x80
  }

  /** An ASCII pattern opens the encoded bytes exactly when it opens the text. */
  lemma {:induction false} AsciiPrefix(s: string, pat: string)
    requires IsAscii(pat)
    ensures Encode(pat) <= Encode(s) <==> pat <= s
  {
    EncodeAscii(pat);
    if pat != "" {
      if s != "" {
        AsciiPrefix(s[1..], pat[1..]);
        assert pat <= s <==> pat[0] == s[0] && pat[1..] <= s[1..];
        assert Encode(pat) == [pat[0] as int] + Encode(pat[1..]);
        if s[0] as int < 0x80 {
          assert Encode(s) == [s[0] as int] + Encode(s[1..]);
          assert Encode(pat) <= Encode(s) <==> Encode(pat)[0] == Encode(s)[0] && Encode(pat)[1..] <= Encode(s)[1..];
        } else {
          assert Encode(s)[0] >= 0x80;
        }
      }
    }
  }

  lemma {:induction false} PrefixLengthMonotone(s: string, i: nat, j: nat)
    requires i <= j <= |s|
    ensures |Encode(s[..i])| + (j - i) <= |Encode(s[..j])|
    decreases j - i
  {
    if i < j {
      PrefixLengthMonotone(s, i, j - 1);
      assert s[..j] == s[..j - 1] + [s[j - 1]];
      EncodeConcat(s[..j - 1], [s[j - 1]]);
      assert [s[j - 1]][1..] == "";
    }
  }

  /** An ASCII pattern occurs at a character position exactly when its bytes occur there. */
  lemma {:induction false} OccurrenceInBytes(s: string, pat: string, p: nat)
    requires IsAscii(pat) && p <= |s|
    ensures OccursAt(Encode(s), Encode(pat), |Encode(s[..p])|) <==> OccursAt(s, pat, p)
    ensures OccursAt(s, pat, p) ==> |Encode(s[..p + |pat|])| == |Encode(s[..p])| + |pat|
  {
    var q := |Encode(s[..p])|;
    EncodeSplit(s, p);
    EncodeAscii(pat);
    AsciiPrefix(s[p..], pat);
    hide Encode, IsAscii;
    assert OccursAt(s, pat, p) <==> pat <= s[p..];
    assert OccursAt(Encode(s), Encode(pat), q) <==> Encode(pat) <= Encode(s)[q..];
    if OccursAt(s, pat, p) {
      assert s[..p + |pat|] == s[..p] + pat;
      EncodeConcat(s[..p], pat);
    }
  }

  /** The byte search finds the break the character search finds, at its encoded offset. */
  lemma {:induction false} FindLastRefines(s: string, pat: string, lo: nat, hi: nat)
    requires IsAscii(pat) && pat != "" && lo <= |s| && hi <= |s|
    ensures |Encode(s[..hi])| <= |Encode(s)|
    ensures FindLastInRange(Encode(s), Encode(pat), |Encode(s[..lo])|, |Encode(s[..hi])|) ==
            match FindLastInRange(s, pat, lo, hi) case None => None case Some(p) => Some(|Encode(s[..p])|)
  {
    var bytes, bpat, blo, bhi := Encode(s), Encode(pat), |Encode(s[..lo])|, |Encode(s[..hi])|;
    EncodeSplit(s, hi);
    if lo >= hi {
      PrefixLengthMonotone(s, hi, lo);
    } else {
      PrefixLengthMonotone(s, lo, hi);
      OccurrencesCorrespond(s, pat, lo, hi);
      hide Encode, IsAscii, OccursInRange, FindLastInRange;
      match FindLastInRange(s, pat, lo, hi)
      case Some(last) =>
        assert OccursInRange(bytes, bpat, blo, bhi, |Encode(s[..last])|);
        var b := FindLastInRange(bytes, bpat, blo, bhi);
        var p :| OccursInRange(s, pat, lo, hi, p) && b.value == |Encode(s[..p])|;
        PrefixLengthMonotone(s, p, last);
        assert b.value == |Encode(s[..last])|;
      case None =>
        assert forall q :: !OccursInRange(bytes, bpat, blo, bhi, q);
    }
  }

  lemma {:induction false} OccurrencesCorrespond(s: string, pat: string, lo: nat, hi: nat)
    requires IsAscii(pat) && pat != "" && lo <= hi <= |s|
    ensures forall p :: OccursInRange(s, pat, lo, hi, p) ==>
      OccursInRange(Encode(s), Encode(pat), |Encode(s[..lo])|, |Encode(s[..hi])|, |Encode(s[..p])|)
    ensures forall q :: OccursInRange(Encode(s), Encode(pat), |Encode(s[..lo])|, |Encode(s[..hi])|, q) ==>
      exists p :: OccursInRange(s, pat, lo, hi, p) && q == |Encode(s[..p])|
  {
    hide Encode, IsAscii;
    forall p | OccursInRange(s, pat, lo, hi, p)
      ensures OccursInRange(Encode(s), Encode(pat), |Encode(s[..lo])|, |Encode(s[..hi])|, |Encode(s[..p])|)
    {
      OccurrenceToBytes(s, pat, lo, hi, p);
    }
    forall q | OccursInRange(Encode(s), Encode(pat), |Encode(s[..lo])|, |Encode(s[..hi])|, q)
      ensures exists p :: OccursInRange(s, pat, lo, hi, p) && q == |Encode(s[..p])|
    {
      var p := OccurrenceFromBytes(s, pat, lo, hi, q);
    }
  }

  lemma {:induction false} OccurrenceToBytes(s: string, pat: string, lo: nat, hi: nat, p: nat)
    requires IsAscii(pat) && lo <= hi <= |s| && OccursInRange(s, pat, lo, hi, p)
    ensures OccursInRange(Encode(s), Encode(pat), |Encode(s[..lo])|, |Encode(s[..hi])|, |Encode(s[..p])|)
  {
    hide Encode, IsAscii;
    OccurrenceInBytes(s, pat, p);
    EncodeAscii(pat);
    EncodeSplit(s, hi);
    PrefixLengthMonotone(s, lo, p);
    PrefixLengthMonotone(s, p + |pat|, hi);
  }

  lemma {:induction false} OccurrenceFromBytes(s: string, pat: string, lo: nat, hi: nat, q: nat) returns (p: nat)
    requires IsAscii(pat) && pat != "" && lo <= hi <= |s|
    requires OccursInRange(Encode(s), Encode(pat), |Encode(s[..lo])|, |Encode(s[..hi])|, q)
    ensures p <= |s| && OccursInRange(s, pat, lo, hi, p) && q == |Encode(s[..p])|
  {
    EncodeAscii(pat);
    assert Encode(s)[q] == Encode(s)[q..q + |pat|][0] == Encode(pat)[0];
    p := PrefixOfBoundary(s, q);
    OccurrenceInBytes(s, pat, p);
    assert OccursAt(Encode(s), Encode(pat), q);
    if p < lo { PrefixLengthMonotone(s, p, lo); }
    if hi < p + |pat| { PrefixLengthMonotone(s, hi, p + |pat|); }
  }

  // ---------- The bytes themselves ----------

  /** The table in section 3 of RFC 3629, read from the octets: the number of octets goes by the range
      of the character, and their free bits put together are its number. */
  lemma {:induction false} EncodeCharDecodes(c: char)
    ensures var n, r := c as int, EncodeChar(c);
      && |r| == (if n <= 0x7F then 1 else if n <= 0x7FF then 2 else if n <= 0xFFFF then 3 else 4)
      && (|r| == 1 ==> n == Bits(r[0], 0))
      && (|r| == 2 ==> Bits(r[0], 0xC0) < 0x20 && n == Bits(r[0], 0xC0) * 0x40 + Bits(r[1], 0x80))
      && (|r| == 3 ==> Bits(r[0], 0xE0) < 0x10)
      && (|r| == 3 ==>
           n == Bits(r[0], 0xE0) * 0x1000 + Bits(r[1], 0x80) * 0x40 + Bits(r[2], 0x80))
      && (|r| == 4 ==> Bits(r[0], 0xF0) < 0x08)
      && (|r| == 4 ==>
           n == Bits(r[0], 0xF0) * 0x40000 + Bits(r[1], 0x80) * 0x1000 + Bits(r[2], 0x80) * 0x40 + Bits(r[3], 0x80))
      && forall i :: 0 < i < |r| ==> 0 <= Bits(r[i], 0x80) < 0x40
  {
    ContinuationBits(c as int);
  }

  /** The bits an octet holds beside its tag. */
  function Bits(b: byte, tag: int): int {
    b as int - tag
  }

  lemma {:induction false} ContinuationBits(n: nat)
    ensures Continuation(n, 1) == [0x80 + n % 64]
    ensures Continuation(n, 2) == [0x80 + n / 64 % 64, 0x80 + n % 64]
    ensures Continuation(n, 3) == [0x80 + n / 4096 % 64, 0x80 + n / 64 % 64, 0x80 + n % 64]
  {
    assert n / 64 / 64 == n / 4096;
    assert Continuation(n / 4096, 0) == [];
    assert Continuation(n / 4096, 1) == [0x80 + n / 4096 % 64];
    assert Continuation(n / 64, 1) == [0x80 + n / 64 % 64];
    assert Continuation(n / 64, 2) == Continuation(n / 4096, 1) + [0x80 + n / 64 % 64];
    assert Continuation(n, 2) == Continuation(n / 64, 1) + [0x80 + n % 64];
    assert Continuation(n, 3) == Continuation(n / 64, 2) + [0x80 + n % 64];
  }
}
