/** Options, pattern search, trimming and line splitting shared by the text machines. */
module Text {

  datatype Option<+T> = None | Some(value: T)

  function Min(a: nat, b: nat): nat {
    if a <= b then a else b
  }

  // ---------- Pattern search ----------

  ghost predicate OccursAt<T>(s: seq<T>, pat: seq<T>, p: int) {
    0 <= p <= p + |pat| <= |s| && s[p..p + |pat|] == pat
  }

  /** First occurrence of `pat` at or after position `from` (`str::find`). */
  function FindFrom<T(==)>(s: seq<T>, pat: seq<T>, from: nat): Option<nat>
    decreases |s| - from
  {
    if from + |pat| > |s| then None
    else if s[from..from + |pat|] == pat then Some(from)
    else FindFrom(s, pat, from + 1)
  }

  lemma {:induction false} FindFromFirst<T>(s: seq<T>, pat: seq<T>, from: nat)
    ensures match FindFrom(s, pat, from)
      case Some(p) => OccursAt(s, pat, p) && from <= p && forall q :: from <= q < p ==> !OccursAt(s, pat, q)
      case None => forall q :: from <= q ==> !OccursAt(s, pat, q)
    decreases |s| - from
  {
    if from + |pat| <= |s| && s[from..from + |pat|] != pat { FindFromFirst(s, pat, from + 1); }
  }

  lemma {:induction false} OccursOne(s: string, x: string, q: nat)
    requires |x| == 1
    ensures OccursAt(s, x, q) <==> q < |s| && s[q] == x[0]
  {
    if q < |s| { assert s[q..q + 1] == [s[q]] && x == [x[0]]; }
  }

  /** Last occurrence of `pat` at or before position `last`. */
  function FindBack<T(==)>(s: seq<T>, pat: seq<T>, last: int): (r: Option<nat>)
    requires last + |pat| <= |s|
    ensures r.Some? ==> OccursAt(s, pat, r.value) && r.value <= last
    ensures r.Some? ==> forall q :: r.value < q <= last ==> !OccursAt(s, pat, q)
    ensures r.None? ==> forall q :: q <= last ==> !OccursAt(s, pat, q)
    decreases last
  {
    if last < 0 then None
    else if s[last..last + |pat|] == pat then Some(last)
    else FindBack(s, pat, last - 1)
  }

  // ---------- Trimming ----------

  /** Unicode White_Space, the property behind Rust's `char::is_whitespace`. */
  predicate IsWhitespace(c: char) {
    var n := c as int;
    0x09 <= n <= 0x0D || n in {0x20, 0x85, 0xA0, 0x1680, 0x2028, 0x2029, 0x202F, 0x205F, 0x3000}
    || 0x2000 <= n <= 0x200A
  }

  function TrimStart(ws: char -> bool, s: string): (r: string)
    ensures r != "" ==> !ws(r[0])
    ensures |r| <= |s| && r == s[|s| - |r|..]
  {
    if s != "" && ws(s[0]) then TrimStart(ws, s[1..]) else s
  }

  function TrimEnd(ws: char -> bool, s: string): (r: string)
    ensures r != "" ==> !ws(r[|r| - 1])
    ensures r <= s
  {
    if s != "" && ws(s[|s| - 1]) then TrimEnd(ws, s[..|s| - 1]) else s
  }

  function Trim(ws: char -> bool, s: string): string {
    TrimEnd(ws, TrimStart(ws, s))
  }

  /** The White_Space characters of the Unicode Character Database. */
  lemma {:induction false} WhitespaceCodes(c: char)
    ensures IsWhitespace(c) <==> c as int in {
      0x09, 0x0A, 0x0B, 0x0C, 0x0D, 0x20, 0x85, 0xA0, 0x1680, 0x2000, 0x2001, 0x2002, 0x2003, 0x2004, 0x2005,
      0x2006, 0x2007, 0x2008, 0x2009, 0x200A, 0x2028, 0x2029, 0x202F, 0x205F, 0x3000 }
  {
  }

  /** Trimming takes away whitespace at both ends, and all of it. */
  lemma {:induction false} TrimIsCore(ws: char -> bool, s: string) returns (before: string, after: string)
    ensures s == before + Trim(ws, s) + after
    ensures (forall i :: 0 <= i < |before| ==> ws(before[i])) && forall i :: 0 <= i < |after| ==> ws(after[i])
    ensures var t := Trim(ws, s); t != "" ==> !ws(t[0]) && !ws(t[|t| - 1])
  {
    var start := TrimStart(ws, s);
    StartTrimmed(ws, s);
    EndTrimmed(ws, start);
    hide TrimStart, TrimEnd;
    var t := Trim(ws, s);
    before, after := s[..|s| - |start|], start[|t|..];
    ThreeParts(s, start, t);
    if t != "" { assert t[0] == start[0]; }
  }

  lemma {:induction false} ThreeParts(s: string, start: string, t: string)
    requires |start| <= |s| && start == s[|s| - |start|..] && t <= start
    ensures s == s[..|s| - |start|] + t + start[|t|..]
  {
    assert start == t + start[|t|..];
  }

  lemma {:induction false} StartTrimmed(ws: char -> bool, s: string)
    ensures forall i :: 0 <= i < |s| - |TrimStart(ws, s)| ==> ws(s[i])
  {
    if s != "" && ws(s[0]) {
      StartTrimmed(ws, s[1..]);
      assert forall i :: 1 <= i < |s| ==> s[i] == s[1..][i - 1];
    }
  }

  lemma {:induction false} EndTrimmed(ws: char -> bool, s: string)
    ensures forall i :: |TrimEnd(ws, s)| <= i < |s| ==> ws(s[i])
  {
    if s != "" && ws(s[|s| - 1]) { EndTrimmed(ws, s[..|s| - 1]); }
  }

  // ---------- Joining ----------

  function Flatten<T>(parts: seq<seq<T>>): seq<T> {
    if parts == [] then [] else Flatten(parts[..|parts| - 1]) + parts[|parts| - 1]
  }

  lemma {:induction false} FlattenConcat<T>(a: seq<seq<T>>, b: seq<seq<T>>)
    ensures Flatten(a + b) == Flatten(a) + Flatten(b)
  {
    if b == [] {
      assert a + b == a;
    } else {
      var init, last := b[..|b| - 1], b[|b| - 1];
      FlattenConcat(a, init);
      FlattenSnoc(init, last);
      FlattenSnoc(a + init, last);
      hide Flatten;
      assert b == init + [last] && a + b == a + init + [last];
      assert Flatten(a) + (Flatten(init) + last) == Flatten(a) + Flatten(init) + last;
    }
  }

  lemma {:induction false} FlattenSnoc<T>(parts: seq<seq<T>>, last: seq<T>)
    ensures Flatten(parts + [last]) == Flatten(parts) + last
  {
    assert (parts + [last])[..|parts|] == parts;
  }

  // ---------- Lines ----------

  /** Length of the first line, its newline included. */
  function LineEnd(s: string): (k: nat)
    ensures k <= |s| && (s != "" ==> 0 < k)
  {
    if s == "" then 0 else if s[0] == '\n' then 1 else 1 + LineEnd(s[1..])
  }

  /** `text.split_inclusive('\n')` */
  function SplitInclusive(s: string): seq<string> {
    if s == "" then [] else [s[..LineEnd(s)]] + SplitInclusive(s[LineEnd(s)..])
  }

  lemma {:induction false} FlattenSplit(s: string)
    ensures Flatten(SplitInclusive(s)) == s
  {
    if s != "" {
      var k := LineEnd(s);
      FlattenSplit(s[k..]);
      FlattenConcat([s[..k]], SplitInclusive(s[k..]));
      assert Flatten([s[..k]]) == s[..k];
    }
  }

  lemma {:induction false} SplitAtNewline(a: string, b: string)
    requires a == "" || a[|a| - 1] == '\n'
    ensures SplitInclusive(a + b) == SplitInclusive(a) + SplitInclusive(b)
  {
    hide SplitInclusive, LineEnd;
    if a == "" {
      SplitNothing(b);
    } else {
      var tail := a[LineEnd(a)..];
      SplitAtNewline(tail, b);
      SplitFirst(a);
      SplitSum(a, b);
    }
  }

  lemma {:induction false} SplitNothing(b: string)
    ensures SplitInclusive("" + b) == SplitInclusive("") + SplitInclusive(b)
  {
    assert "" + b == b;
    assert SplitInclusive("") == [];
    hide SplitInclusive;
  }

  lemma {:induction false} SplitSum(a: string, b: string)
    requires a != "" && a[|a| - 1] == '\n'
    ensures SplitInclusive(a + b) == [a[..LineEnd(a)]] + SplitInclusive(a[LineEnd(a)..] + b)
  {
    hide SplitInclusive, LineEnd;
    var k := LineEnd(a);
    LineEndPrefix(a, b);
    SplitFirst(a + b);
    assert (a + b)[..k] == a[..k] && (a + b)[k..] == a[k..] + b;
  }

  lemma {:induction false} SplitFirst(s: string)
    requires s != ""
    ensures SplitInclusive(s) == [s[..LineEnd(s)]] + SplitInclusive(s[LineEnd(s)..])
  {
    hide LineEnd;
  }

  lemma {:induction false} LineEndPrefix(a: string, b: string)
    requires a != "" && a[|a| - 1] == '\n'
    ensures LineEnd(a + b) == LineEnd(a)
  {
    assert (a + b)[0] == a[0];
    if a[0] != '\n' {
      assert (a + b)[1..] == a[1..] + b;
      LineEndPrefix(a[1..], b);
    }
  }

  lemma {:induction false} NoNewline(s: string)
    requires '\n' !in s
    ensures LineEnd(s) == |s|
  {
    if s != "" { NoNewline(s[1..]); }
  }

  lemma {:induction false} OneLine(s: string)
    requires '\n' !in s
    ensures SplitInclusive(s + "\n") == [s + "\n"]
  {
    NewlineLast(s);
    assert (s + "\n")[|s| + 1..] == "" && (s + "\n")[..|s| + 1] == s + "\n";
  }

  lemma {:induction false} NewlineLast(s: string)
    requires '\n' !in s
    ensures LineEnd(s + "\n") == |s| + 1
  {
    if s != "" {
      assert (s + "\n")[1..] == s[1..] + "\n";
      NewlineLast(s[1..]);
    }
  }

  /** Lines as they are written, each with its newline. */
  function Terminated(lines: seq<string>): string {
    if lines == [] then "" else Terminated(lines[..|lines| - 1]) + lines[|lines| - 1] + "\n"
  }

  lemma {:induction false} TerminatedSnoc(lines: seq<string>, line: string)
    ensures Terminated(lines + [line]) == Terminated(lines) + line + "\n"
  {
    assert (lines + [line])[..|lines|] == lines;
  }

  lemma {:induction false} TerminatedEnds(lines: seq<string>)
    ensures var s := Terminated(lines); s == "" || s[|s| - 1] == '\n'
  {
  }
}
