/** The tags of the Telegram output: reading them back out of a text that had none. */
module TelegramTags {
  import opened Text
  import opened Formatter

  /** Whether reading `s` ends inside a tag. */
  predicate InTag(s: string) {
    s != "" && (s[|s| - 1] == '<' || (s[|s| - 1] != '>' && InTag(s[..|s| - 1])))
  }

  predicate IsMarker(c: char) {
    c == '*' || c == '`'
  }

  /** What is left when tags are removed and '*' and backticks are ignored. */
  function Visible(s: string): string {
    if s == "" then ""
    else
      var init, c := s[..|s| - 1], s[|s| - 1];
      Visible(init) + if InTag(init) || c == '<' || c == '>' || IsMarker(c) then "" else [c]
  }

  /** The text read since the last '<'. */
  function TagText(s: string): string {
    if s == "" || s[|s| - 1] == '<' then "" else TagText(s[..|s| - 1]) + [s[|s| - 1]]
  }

  /** The contents of the complete tags, in order. */
  function Tags(s: string): seq<string> {
    if s == "" then []
    else
      var init, c := s[..|s| - 1], s[|s| - 1];
      Tags(init) + if c == '>' && InTag(init) then [TagText(init)] else []
  }

  ghost predicate MarkersOutside(s: string) {
    s == "" || (MarkersOutside(s[..|s| - 1]) && (IsMarker(s[|s| - 1]) ==> !InTag(s[..|s| - 1])))
  }

  ghost predicate Closed(s: string) {
    MarkersOutside(s) && !InTag(s)
  }

  lemma {:induction false} InTagConcat(a: string, b: string)
    requires !InTag(a)
    ensures InTag(a + b) == InTag(b) && (InTag(b) ==> TagText(a + b) == TagText(b))
  {
    if b == "" {
      assert a + b == a;
    } else {
      assert (a + b)[..|a + b| - 1] == a + b[..|b| - 1];
      InTagConcat(a, b[..|b| - 1]);
    }
  }

  lemma {:induction false} VisibleConcat(a: string, b: string)
    requires !InTag(a)
    ensures Visible(a + b) == Visible(a) + Visible(b)
  {
    if b == "" {
      assert a + b == a;
    } else {
      var init := b[..|b| - 1];
      assert (a + b)[..|a + b| - 1] == a + init;
      InTagConcat(a, init);
      hide InTag;
      VisibleConcat(a, init);
    }
  }

  lemma {:induction false} TagsConcat(a: string, b: string)
    requires !InTag(a)
    ensures Tags(a + b) == Tags(a) + Tags(b)
  {
    if b == "" {
      assert a + b == a;
    } else {
      var init := b[..|b| - 1];
      assert (a + b)[..|a + b| - 1] == a + init;
      InTagConcat(a, init);
      hide InTag, TagText;
      TagsConcat(a, init);
    }
  }

  lemma {:induction false} MarkersConcat(a: string, b: string)
    requires !InTag(a)
    ensures MarkersOutside(a + b) <==> MarkersOutside(a) && MarkersOutside(b)
  {
    if b == "" {
      assert a + b == a;
    } else {
      var init := b[..|b| - 1];
      assert (a + b)[..|a + b| - 1] == a + init;
      InTagConcat(a, init);
      hide InTag;
      MarkersConcat(a, init);
    }
  }

  /** Everything read from `a + b` is read from the parts when `a` ends outside tags. */
  lemma {:induction false} ReadConcat(a: string, b: string)
    requires !InTag(a)
    ensures InTag(a + b) == InTag(b)
    ensures Visible(a + b) == Visible(a) + Visible(b)
    ensures Tags(a + b) == Tags(a) + Tags(b)
    ensures MarkersOutside(a + b) <==> MarkersOutside(a) && MarkersOutside(b)
    ensures InTag(b) ==> TagText(a + b) == TagText(b)
  {
    hide *;
    InTagConcat(a, b);
    VisibleConcat(a, b);
    TagsConcat(a, b);
    MarkersConcat(a, b);
  }

  lemma {:induction false} MarkerPosition(s: string, p: nat)
    requires MarkersOutside(s) && p < |s| && IsMarker(s[p])
    ensures !InTag(s[..p]) && MarkersOutside(s[..p])
  {
    if p < |s| - 1 {
      MarkerPosition(s[..|s| - 1], p);
      assert s[..|s| - 1][..p] == s[..p];
    }
  }

  lemma {:induction false} MarkersOnly(x: string)
    requires forall i :: 0 <= i < |x| ==> IsMarker(x[i])
    ensures Closed(x) && Visible(x) == "" && Tags(x) == []
  {
    if x != "" { MarkersOnly(x[..|x| - 1]); }
  }

  predicate TagName(name: string) {
    forall i :: 0 <= i < |name| ==> name[i] != '<' && name[i] != '>' && !IsMarker(name[i])
  }

  lemma {:induction false} OpenTag(name: string)
    requires TagName(name)
    ensures var s := "<" + name;
      InTag(s) && MarkersOutside(s) && Visible(s) == "" && Tags(s) == [] && TagText(s) == name
  {
    var s := "<" + name;
    if name == "" {
      assert s == "<" && s[..0] == "";
    } else {
      assert s[..|s| - 1] == "<" + name[..|name| - 1];
      OpenTag(name[..|name| - 1]);
    }
  }

  lemma {:induction false} WholeTag(name: string)
    requires TagName(name)
    ensures var s := "<" + name + ">"; Closed(s) && Visible(s) == "" && Tags(s) == [name]
  {
    OpenTag(name);
    var s := "<" + name + ">";
    assert s[..|s| - 1] == "<" + name;
  }

  // ---------- Pairs of markers ----------

  function Only(tags: seq<string>, keep: set<string>): seq<string> {
    if tags == [] then []
    else Only(tags[..|tags| - 1], keep) + if tags[|tags| - 1] in keep then [tags[|tags| - 1]] else []
  }

  lemma {:induction false} OnlyConcat(a: seq<string>, b: seq<string>, keep: set<string>)
    ensures Only(a + b, keep) == Only(a, keep) + Only(b, keep)
  {
    if b == [] {
      assert a + b == a;
    } else {
      assert (a + b)[..|a + b| - 1] == a + b[..|b| - 1];
      OnlyConcat(a, b[..|b| - 1], keep);
    }
  }

  lemma {:induction false} OnlyOne(t: string, keep: set<string>)
    ensures Only([t], keep) == if t in keep then [t] else []
  {
    assert [t][..0] == [];
  }

  /** Five consecutive closed pieces are read piece by piece. */
  lemma {:induction false} ReadFive(a: string, x: string, m: string, y: string, z: string)
    requires Closed(a) && Closed(x) && Closed(m) && Closed(y) && Closed(z)
    ensures var s := a + x + m + y + z;
      && Closed(s) && Visible(s) == Visible(a) + Visible(x) + Visible(m) + Visible(y) + Visible(z)
      && Tags(s) == Tags(a) + Tags(x) + Tags(m) + Tags(y) + Tags(z)
  {
    hide InTag, Visible, Tags, MarkersOutside;
    ReadConcat(a, x);
    ReadConcat(a + x, m);
    ReadConcat(a + x + m, y);
    ReadConcat(a + x + m + y, z);
  }

  lemma {:induction false} PairParts(s: string, marker: string, i: nat, j: nat)
    requires Closed(s) && marker != "" && forall k :: 0 <= k < |marker| ==> IsMarker(marker[k])
    requires OccursAt(s, marker, i) && OccursAt(s, marker, j) && i + |marker| <= j
    ensures Closed(s[..i]) && Closed(s[i + |marker|..j]) && Closed(s[j + |marker|..]) && Closed(marker)
  {
    MarkersOnly(marker);
    var a, m, z := s[..i], s[i + |marker|..j], s[j + |marker|..];
    assert s[i..i + |marker|][0] == s[i] && s[j..j + |marker|][0] == s[j];
    MarkerPosition(s, i);
    MarkerPosition(s, j);
    SplitAtPair(s, marker, i, j);
    assert s[..j] == a + marker + m;
    assert s == s[..j] + marker + z;
    hide InTag, Visible, Tags, MarkersOutside;
    ReadConcat(a, marker);
    ReadConcat(a + marker, m);
    ReadConcat(s[..j], marker);
    ReadConcat(s[..j] + marker, z);
  }

  ghost predicate TagMarker(marker: string, name: string) {
    && (forall k :: 0 <= k < |marker| ==> IsMarker(marker[k]))
    && TagName(name) && TagName("/" + name)
    && Shrinking(marker, "<" + name + ">", "</" + name + ">")
  }

  /** A run of pair replacements keeps the visible text and all other tags, and adds opening and
      closing tags in equal number. */
  lemma {:induction false} PairsAddTags(s: string, marker: string, name: string, keep: set<string>)
    requires Closed(s) && TagMarker(marker, name)
    ensures var r := Pairs(s, marker, "<" + name + ">", "</" + name + ">");
      && Closed(r) && Visible(r) == Visible(s)
      && (name !in keep && "/" + name !in keep ==> Only(Tags(r), keep) == Only(Tags(s), keep))
      && |Only(Tags(r), {name})| - |Only(Tags(r), {"/" + name})|
         == |Only(Tags(s), {name})| - |Only(Tags(s), {"/" + name})|
    decreases Count(s, marker[0])
  {
    hide Visible, Tags, Only, Closed, TagMarker, ReplacePair, Pairs, FindFrom, OccursAt, Count;
    var open, close := "<" + name + ">", "</" + name + ">";
    MarkerShrinking(marker, name);
    var i := FindFrom(s, marker, 0);
    if i.None? || FindFrom(s, marker, i.value + |marker|).None? {
      PairsDone(s, marker, open, close);
    } else {
      var j := FindFrom(s, marker, i.value + |marker|).value;
      FoundPair(s, marker, i.value, j);
      PairsUnfold(s, marker, open, close, i.value, j);
      var r := ReplacePair(s, marker, open, close, i.value, j);
      OnePairAddsTags(s, marker, name, i.value, j, keep);
      OnePairAddsTags(s, marker, name, i.value, j, {name});
      OnePairAddsTags(s, marker, name, i.value, j, {"/" + name});
      NamesDiffer(name);
      PairsAddTags(r, marker, name, keep);
    }
  }

  lemma {:induction false} MarkerShrinking(marker: string, name: string)
    requires TagMarker(marker, name)
    ensures Shrinking(marker, "<" + name + ">", "</" + name + ">")
  {
  }

  lemma {:induction false} NamesDiffer(name: string)
    ensures name != "/" + name
  {
    assert |"/" + name| == |name| + 1;
  }

  lemma {:induction false} OnePairAddsTags(s: string, marker: string, name: string, i: nat, j: nat, keep: set<string>)
    requires Closed(s) && TagMarker(marker, name)
    requires OccursAt(s, marker, i) && OccursAt(s, marker, j) && i + |marker| <= j
    ensures var r := ReplacePair(s, marker, "<" + name + ">", "</" + name + ">", i, j);
      && Closed(r) && Visible(r) == Visible(s)
      && (name !in keep && "/" + name !in keep ==> Only(Tags(r), keep) == Only(Tags(s), keep))
      && |Only(Tags(r), keep)| ==
         |Only(Tags(s), keep)| + (if name in keep then 1 else 0) + (if "/" + name in keep then 1 else 0)
  {
    var a, m, z := s[..i], s[i + |marker|..j], s[j + |marker|..];
    PairParts(s, marker, i, j);
    SplitAtPair(s, marker, i, j);
    PairReads(a, m, z, name);
    MarkersReadAsNothing(a, marker, m, z);
    hide InTag, Visible, Tags, MarkersOutside, Only, Closed, TagMarker, OccursAt;
    OnlyWithPair(Tags(a), Tags(m), Tags(z), name, keep);
  }

  lemma {:induction false} MarkersReadAsNothing(a: string, marker: string, m: string, z: string)
    requires Closed(a) && Closed(m) && Closed(z) && forall k :: 0 <= k < |marker| ==> IsMarker(marker[k])
    ensures var s := a + marker + m + marker + z;
      Visible(s) == Visible(a) + Visible(m) + Visible(z) && Tags(s) == Tags(a) + Tags(m) + Tags(z)
  {
    MarkersOnly(marker);
    hide InTag, Visible, Tags, MarkersOutside, Closed, IsMarker;
    ReadFive(a, marker, m, marker, z);
    var u, v := Visible(a), Tags(a);
    assert u + "" == u && u + Visible(m) + "" == u + Visible(m);
    assert v + [] == v && v + Tags(m) + [] == v + Tags(m);
  }

  lemma {:induction false} PairReads(a: string, m: string, z: string, name: string)
    requires Closed(a) && Closed(m) && Closed(z) && TagName(name) && TagName("/" + name)
    ensures var r := a + ("<" + name + ">") + m + ("</" + name + ">") + z;
      && Closed(r) && Visible(r) == Visible(a) + Visible(m) + Visible(z)
      && Tags(r) == Tags(a) + [name] + Tags(m) + ["/" + name] + Tags(z)
  {
    WholeTag(name);
    WholeTag("/" + name);
    assert "</" + name + ">" == "<" + ("/" + name) + ">";
    hide InTag, Visible, Tags, MarkersOutside, Closed, TagName;
    ReadFive(a, "<" + name + ">", m, "</" + name + ">", z);
  }

  lemma {:induction false} OnlyWithPair(a: seq<string>, m: seq<string>, z: seq<string>, name: string, keep: set<string>)
    ensures var plain, paired := a + m + z, a + [name] + m + ["/" + name] + z;
      && (name !in keep && "/" + name !in keep ==> Only(paired, keep) == Only(plain, keep))
      && |Only(paired, keep)| ==
         |Only(plain, keep)| + (if name in keep then 1 else 0) + (if "/" + name in keep then 1 else 0)
  {
    var close := "/" + name;
    OnlyOne(name, keep);
    OnlyOne(close, keep);
    hide Only;
    OnlyFive(a, [name], m, [close], z, keep);
    OnlyConcat(a, m, keep);
    OnlyConcat(a + m, z, keep);
  }

  lemma {:induction false} OnlyFive(a: seq<string>, x: seq<string>, m: seq<string>, y: seq<string>,
      z: seq<string>, keep: set<string>)
    ensures Only(a + x + m + y + z, keep) ==
      Only(a, keep) + Only(x, keep) + Only(m, keep) + Only(y, keep) + Only(z, keep)
  {
    hide Only;
    OnlyConcat(a, x, keep);
    OnlyConcat(a + x, m, keep);
    OnlyConcat(a + x + m, y, keep);
    OnlyConcat(a + x + m + y, z, keep);
  }

  // ---------- The italic pass ----------

  const ITALICS: set<string> := {"i", "/i"}

  /** Opening and closing tags take turns, an opening one first. */
  ghost predicate Alternates(tags: seq<string>, open: string, close: string) {
    forall k :: 0 <= k < |tags| ==> tags[k] == if k % 2 == 0 then open else close
  }

  /** How the output of the italic pass over a prefix reads, compared with the prefix. */
  ghost predicate ItalicReads(p: string, out: string, open: bool, keep: set<string>) {
    && MarkersOutside(out) && InTag(out) == InTag(p) && Visible(out) == Visible(p)
    && (InTag(p) ==> TagText(out) == TagText(p))
    && ("i" !in keep && "/i" !in keep ==> Only(Tags(out), keep) == Only(Tags(p), keep))
    && Alternates(Only(Tags(out), ITALICS), "i", "/i") && open == (|Only(Tags(out), ITALICS)| % 2 == 1)
  }

  lemma {:induction false} ItalicReadsPrefix(s: string, n: nat, keep: set<string>)
    requires MarkersOutside(s) && n <= |s| && Only(Tags(s), ITALICS) == []
    ensures ItalicReads(s[..n], Italic(s, n).0, Italic(s, n).1, keep)
  {
    if n > 0 {
      var p, c := s[..n - 1], s[n - 1];
      ItalicReadsPrefix(s, n - 1, keep);
      PrefixReads(s, n);
      assert s[..n] == p + [c];
      var (out, open) := Italic(s, n - 1);
      hide Italic;
      if Isolated(s, n - 1) {
        hide Isolated;
        ItalicTag(p, out, open, keep);
      } else {
        hide Isolated;
        ItalicCopy(p, c, out, open, keep);
      }
    }
  }

  /** A prefix keeps its markers outside tags, and has no italic tag the whole does not have. */
  lemma {:induction false} PrefixReads(s: string, n: nat)
    requires MarkersOutside(s) && n <= |s| && Only(Tags(s), ITALICS) == []
    ensures MarkersOutside(s[..n]) && Only(Tags(s[..n]), ITALICS) == []
    decreases |s| - n
  {
    if n == |s| {
      assert s[..n] == s;
    } else {
      PrefixReads(s, n + 1);
      assert s[..n + 1][..n] == s[..n];
      var t := s[..n + 1];
      var more := if t[n] == '>' && InTag(s[..n]) then [TagText(s[..n])] else [];
      assert Tags(t) == Tags(s[..n]) + more;
      OnlyConcat(Tags(s[..n]), more, ITALICS);
    }
  }

  lemma {:induction false} ItalicTag(p: string, out: string, open: bool, keep: set<string>)
    requires ItalicReads(p, out, open, keep) && MarkersOutside(p + "*")
    ensures ItalicReads(p + "*", out + (if open then "</i>" else "<i>"), !open, keep)
  {
    hide ItalicReads, MarkersOutside;
    if open { OneItalicTag(p, out, open, keep, "</i>", "/i"); } else { OneItalicTag(p, out, open, keep, "<i>", "i"); }
  }

  lemma {:induction false} OneItalicTag(p: string, out: string, open: bool, keep: set<string>,
      tag: string, name: string)
    requires ItalicReads(p, out, open, keep) && MarkersOutside(p + "*")
    requires if open then tag == "</i>" && name == "/i" else tag == "<i>" && name == "i"
    ensures ItalicReads(p + "*", out + tag, !open, keep)
  {
    ItalicTagReads(p, out, tag, name);
    hide InTag, Visible, Tags, MarkersOutside, TagText, Only, Alternates, IsMarker;
    AddsItalic(Tags(out), name, open, keep);
    var before, after := Only(Tags(out), ITALICS), Only(Tags(out + tag), ITALICS);
    assert Alternates(after, "i", "/i") && |after| == |before| + 1;
  }

  lemma {:induction false} ItalicTagReads(p: string, out: string, tag: string, name: string)
    requires MarkersOutside(out) && InTag(out) == InTag(p) && MarkersOutside(p + "*")
    requires (tag == "<i>" && name == "i") || (tag == "</i>" && name == "/i")
    ensures !InTag(p + "*") && Visible(p + "*") == Visible(p) && Tags(p + "*") == Tags(p)
    ensures !InTag(out + tag) && MarkersOutside(out + tag)
    ensures Visible(out + tag) == Visible(out) && Tags(out + tag) == Tags(out) + [name]
  {
    assert !InTag(p) by { assert (p + "*")[..|p|] == p; }
    MarkersOnly("*");
    assert TagName(name);
    WholeTag(name);
    hide InTag, Visible, Tags, MarkersOutside, TagText, TagName;
    assert tag == "<" + name + ">";
    ReadConcat(p, "*");
    ReadConcat(out, tag);
  }

  lemma {:induction false} AddsItalic(tags: seq<string>, name: string, open: bool, keep: set<string>)
    requires Alternates(Only(tags, ITALICS), "i", "/i") && open == (|Only(tags, ITALICS)| % 2 == 1)
    requires name == if open then "/i" else "i"
    ensures "i" !in keep && "/i" !in keep ==> Only(tags + [name], keep) == Only(tags, keep)
    ensures Alternates(Only(tags + [name], ITALICS), "i", "/i")
    ensures |Only(tags + [name], ITALICS)| == |Only(tags, ITALICS)| + 1
  {
    OnlyOne(name, keep);
    OnlyOne(name, ITALICS);
    hide Only;
    OnlyConcat(tags, [name], keep);
    OnlyConcat(tags, [name], ITALICS);
  }

  lemma {:induction false} ItalicCopy(p: string, c: char, out: string, open: bool, keep: set<string>)
    requires ItalicReads(p, out, open, keep) && MarkersOutside(p + [c]) && Only(Tags(p + [c]), ITALICS) == []
    ensures ItalicReads(p + [c], out + [c], open, keep)
  {
    OneMore(p, c);
    OneMore(out, c);
    hide InTag, TagText, Visible, Tags, MarkersOutside, Only, Alternates, IsMarker;
    var more := if c == '>' && InTag(p) then [TagText(p)] else [];
    OnlyConcat(Tags(p), more, keep);
    OnlyConcat(Tags(out), more, keep);
    OnlyConcat(Tags(p), more, ITALICS);
    OnlyConcat(Tags(out), more, ITALICS);
    assert Only(more, ITALICS) == [];
    assert Only(Tags(out + [c]), ITALICS) == Only(Tags(out), ITALICS);
  }

  /** How one more character is read. */
  lemma {:induction false} OneMore(s: string, c: char)
    ensures var t := s + [c];
      && InTag(t) == (c == '<' || (c != '>' && InTag(s)))
      && TagText(t) == (if c == '<' then "" else TagText(s) + [c])
      && Visible(t) == Visible(s) + (if InTag(s) || c == '<' || c == '>' || IsMarker(c) then "" else [c])
      && Tags(t) == Tags(s) + (if c == '>' && InTag(s) then [TagText(s)] else [])
      && (MarkersOutside(t) <==> MarkersOutside(s) && (IsMarker(c) ==> !InTag(s)))
  {
    assert (s + [c])[..|s|] == s;
  }

  // ---------- The order of the bold and code tags ----------

  function Two(name: string): set<string> {
    {name, "/" + name}
  }

  /** The leftmost pair leaves no marker before the end of its closing tag. */
  lemma {:induction false} NoMarkerLeft(s: string, marker: string, name: string, i: nat, j: nat)
    requires TagMarker(marker, name)
    requires FindFrom(s, marker, 0) == Some(i) && FindFrom(s, marker, i + |marker|) == Some(j)
    ensures i + |marker| <= j && j + |marker| <= |s|
    ensures Apart(s[..i] + ("<" + name + ">") + s[i + |marker|..j] + ("</" + name + ">"), marker)
  {
    NoneBetween(s, marker, 0, i);
    NoneBetween(s, marker, i + |marker|, j);
    TagApart(name, marker);
    TagApart("/" + name, marker);
    assert "</" + name + ">" == "<" + ("/" + name) + ">" && s[0..i] == s[..i];
    hide FindFrom, OccursAt, Apart, TagMarker;
    var a, mid, open, close := s[..i], s[i + |marker|..j], "<" + name + ">", "</" + name + ">";
    ApartThen(a, open, marker);
    ApartThen(mid, close, marker);
    ApartConcat(a + open, mid + close, marker);
    assert a + open + (mid + close) == a + open + mid + close;
  }

  /** The text skipped by a search holds no marker. */
  lemma {:induction false} NoneBetween(s: string, marker: string, from: nat, at: nat)
    requires marker != "" && FindFrom(s, marker, from) == Some(at)
    ensures from <= at && at + |marker| <= |s| && forall q: nat :: !OccursAt(s[from..at], marker, q)
  {
    FindFromFirst(s, marker, from);
    forall q: nat ensures !OccursAt(s[from..at], marker, q) {
      OccursInSlice(s, from, at, marker, q);
    }
  }

  lemma {:induction false} OccursInSlice(s: string, lo: nat, hi: nat, marker: string, q: nat)
    requires lo <= hi <= |s|
    ensures OccursAt(s[lo..hi], marker, q) ==> OccursAt(s, marker, lo + q) && (marker != "" ==> lo + q < hi)
  {
    if q + |marker| <= hi - lo {
      var x, y := s[lo..hi][q..q + |marker|], s[lo + q..lo + q + |marker|];
      assert forall k :: 0 <= k < |marker| ==> x[k] == y[k];
      assert x == y;
    }
  }

  lemma {:induction false} TagApart(name: string, marker: string)
    requires TagName(name) && marker != "" && forall k :: 0 <= k < |marker| ==> IsMarker(marker[k])
    ensures Apart("<" + name + ">", marker) && ("<" + name + ">")[0] !in marker
  {
    assert forall k :: 0 <= k < |marker| ==> marker[k] != '<';
    ApartIfAbsent("<" + name + ">", marker);
  }

  lemma {:induction false} ApartThen(p: string, x: string, marker: string)
    requires marker != "" && (forall q: nat :: !OccursAt(p, marker, q))
    requires Apart(x, marker) && x != "" && x[0] !in marker
    ensures Apart(p + x, marker)
  {
    forall q: nat | q < |p + x| ensures !Begins(p + x, marker, q) {
      if q >= |p| {
        BeginsAfter(p, x, marker, q - |p|);
      } else {
        BeginsAcross(p, x, marker, q);
      }
    }
  }

  lemma {:induction false} BeginsAcross(p: string, x: string, marker: string, q: nat)
    requires q < |p| && !OccursAt(p, marker, q) && x != "" && x[0] !in marker
    ensures !Begins(p + x, marker, q)
  {
    if q + |marker| <= |p| {
      BeginsFits(p + x, marker, q);
      assert (p + x)[q..q + |marker|] == p[q..q + |marker|];
    } else {
      var k := |p| - q;
      assert (p + x)[q + k] == x[0] != marker[k];
    }
  }

  lemma {:induction false} BeginsFits(s: string, marker: string, q: nat)
    requires q + |marker| <= |s|
    ensures Begins(s, marker, q) ==> s[q..q + |marker|] == marker
  {
  }

  lemma {:induction false} BeginsAfter(p: string, x: string, marker: string, q: nat)
    requires q < |x|
    ensures Begins(p + x, marker, |p| + q) ==> Begins(x, marker, q)
  {
    if Begins(p + x, marker, |p| + q) {
      forall k | 0 <= k < |marker| && q + k < |x| ensures x[q + k] == marker[k] {
        assert (p + x)[|p| + q + k] == marker[k];
      }
    }
  }

  lemma {:induction false} BeginsBefore(p: string, x: string, marker: string, q: nat)
    requires q < |p|
    ensures Begins(p + x, marker, q) ==> Begins(p, marker, q)
  {
    assert forall i :: 0 <= i < |p| ==> (p + x)[i] == p[i];
  }

  lemma {:induction false} ApartConcat(p: string, x: string, marker: string)
    requires Apart(p, marker) && Apart(x, marker)
    ensures Apart(p + x, marker)
  {
    forall q: nat | q < |p + x| ensures !Begins(p + x, marker, q) {
      if q >= |p| { BeginsAfter(p, x, marker, q - |p|); } else { BeginsBefore(p, x, marker, q); }
    }
  }

  /** The tags a run of pair replacements adds alternate, and all that open are closed. */
  lemma {:induction false} PairsAlternate(s: string, marker: string, name: string)
    requires Closed(s) && TagMarker(marker, name) && Only(Tags(s), Two(name)) == []
    ensures var r := Only(Tags(Pairs(s, marker, "<" + name + ">", "</" + name + ">")), Two(name));
      Alternates(r, name, "/" + name) && |r| % 2 == 0
    decreases |s|
  {
    var open, close := "<" + name + ">", "</" + name + ">";
    var i := FindFrom(s, marker, 0);
    if i.None? || FindFrom(s, marker, i.value + |marker|).None? {
      PairsDone(s, marker, open, close);
    } else {
      var j := FindFrom(s, marker, i.value + |marker|).value;
      var z := LeftmostPair(s, marker, name, i.value, j);
      hide Closed, TagMarker, Only, Pairs, Tags, FindFrom;
      PairsAlternate(z, marker, name);
      TwoMore(Only(Tags(Pairs(z, marker, open, close)), Two(name)), name);
    }
  }

  lemma {:induction false} TwoMore(r: seq<string>, name: string)
    requires Alternates(r, name, "/" + name) && |r| % 2 == 0
    ensures var t := [name, "/" + name] + r; Alternates(t, name, "/" + name) && |t| % 2 == 0
  {
  }

  lemma {:induction false} LeftmostPair(s: string, marker: string, name: string, i: nat, j: nat) returns (z: string)
    requires Closed(s) && TagMarker(marker, name) && Only(Tags(s), Two(name)) == []
    requires FindFrom(s, marker, 0) == Some(i) && FindFrom(s, marker, i + |marker|) == Some(j)
    ensures |z| < |s| && Closed(z) && Only(Tags(z), Two(name)) == []
    ensures var open, close := "<" + name + ">", "</" + name + ">";
      Only(Tags(Pairs(s, marker, open, close)), Two(name)) ==
        [name, "/" + name] + Only(Tags(Pairs(z, marker, open, close)), Two(name))
  {
    var open, close, names := "<" + name + ">", "</" + name + ">", Two(name);
    var a, mid := LeftmostSplit(s, marker, name, i, j);
    NoMarkerLeft(s, marker, name, i, j);
    LeftmostRun(s, marker, open, close, i, j);
    z := s[j + |marker|..];
    hide Pairs, FindFrom, Apart, Closed, Tags, Only, Visible, Shrinking, OccursAt;
    var r := Pairs(z, marker, open, close);
    PairsAddTags(z, marker, name, {});
    PairReads(a, mid, r, name);
    hide TagMarker, TagName;
    OnlyNew(Tags(a), Tags(mid), Tags(r), name);
  }

  lemma {:induction false} OnlyNew(a: seq<string>, m: seq<string>, z: seq<string>, name: string)
    requires Only(a, Two(name)) == [] && Only(m, Two(name)) == []
    ensures Only(a + [name] + m + ["/" + name] + z, Two(name)) == [name, "/" + name] + Only(z, Two(name))
  {
    OnlyOne(name, Two(name));
    OnlyOne("/" + name, Two(name));
    hide Only;
    OnlyFive(a, [name], m, ["/" + name], z, Two(name));
  }

  /** The text around the leftmost pair. */
  lemma {:induction false} LeftmostSplit(s: string, marker: string, name: string, i: nat, j: nat)
    returns (a: string, mid: string)
    requires Closed(s) && TagMarker(marker, name) && Only(Tags(s), Two(name)) == []
    requires FindFrom(s, marker, 0) == Some(i) && FindFrom(s, marker, i + |marker|) == Some(j)
    ensures i + |marker| <= j && j + |marker| <= |s|
    ensures var z := s[j + |marker|..];
      && Closed(a) && Closed(mid) && Closed(z)
      && Only(Tags(a), Two(name)) == [] && Only(Tags(mid), Two(name)) == [] && Only(Tags(z), Two(name)) == []
    ensures a == s[..i] && mid == s[i + |marker|..j]
  {
    FoundPair(s, marker, i, j);
    hide FindFrom, Closed, Tags, Only, Visible, Count, OccursAt, Shrinking, TagName;
    var z := s[j + |marker|..];
    a, mid := s[..i], s[i + |marker|..j];
    PairParts(s, marker, i, j);
    SplitAtPair(s, marker, i, j);
    MarkersReadAsNothing(a, marker, mid, z);
    OnlyParts(Tags(a), Tags(mid), Tags(z), Two(name));
  }

  lemma {:induction false} FoundPair(s: string, marker: string, i: nat, j: nat)
    requires FindFrom(s, marker, 0) == Some(i) && FindFrom(s, marker, i + |marker|) == Some(j)
    ensures OccursAt(s, marker, i) && OccursAt(s, marker, j) && i + |marker| <= j && j + |marker| <= |s|
  {
    FindFromFirst(s, marker, 0);
    FindFromFirst(s, marker, i + |marker|);
  }

  lemma {:induction false} OnlyParts(a: seq<string>, m: seq<string>, z: seq<string>, keep: set<string>)
    requires Only(a + m + z, keep) == []
    ensures Only(a, keep) == [] && Only(m, keep) == [] && Only(z, keep) == []
  {
    hide Only;
    OnlyConcat(a + m, z, keep);
    OnlyConcat(a, m, keep);
  }

  /** Once no marker begins before the end of the first pair's closing tag, the rest is on its own. */
  lemma {:induction false} LeftmostRun(s: string, marker: string, open: string, close: string, i: nat, j: nat)
    requires Shrinking(marker, open, close)
    requires FindFrom(s, marker, 0) == Some(i) && FindFrom(s, marker, i + |marker|) == Some(j)
    requires i + |marker| <= j && j + |marker| <= |s|
    requires Apart(s[..i] + open + s[i + |marker|..j] + close, marker)
    ensures Pairs(s, marker, open, close) ==
      s[..i] + open + s[i + |marker|..j] + close + Pairs(s[j + |marker|..], marker, open, close)
  {
    PairsUnfold(s, marker, open, close, i, j);
    hide Pairs, FindFrom, Apart, Count, OccursAt;
    PairsSkip(s[..i] + open + s[i + |marker|..j] + close, s[j + |marker|..], marker, open, close);
  }

  // ---------- The whole Telegram output ----------

  lemma {:induction false} ItalicAddsNoBracket(s: string, n: nat)
    requires n <= |s| && '[' !in s
    ensures '[' !in Italic(s, n).0
  {
    if n > 0 { ItalicAddsNoBracket(s, n - 1); }
  }

  predicate NoAngles(s: string) {
    forall i :: 0 <= i < |s| ==> s[i] != '<' && s[i] != '>'
  }

  lemma {:induction false} NoAnglesRead(s: string)
    requires NoAngles(s)
    ensures Closed(s) && Tags(s) == [] && Visible(s) == StripMarkers(s)
  {
    if s != "" { NoAnglesRead(s[..|s| - 1]); }
  }

  lemma {:induction false} OneBacktickLeft(s: string, open: string, close: string)
    requires Shrinking("`", open, close)
    ensures Count(Pairs(s, "`", open, close), '`') <= 1
    decreases Count(s, '`')
  {
    hide Pairs, Count, FindFrom, OccursAt, ReplacePair;
    var i := FindFrom(s, "`", 0);
    FindFromFirst(s, "`", 0);
    if i.None? {
      PairsDone(s, "`", open, close);
      FewBackticks(s, |s|);
    } else {
      var j := FindFrom(s, "`", i.value + 1);
      FindFromFirst(s, "`", i.value + 1);
      if j.Some? {
        PairsUnfold(s, "`", open, close, i.value, j.value);
        OneBacktickLeft(ReplacePair(s, "`", open, close, i.value, j.value), open, close);
      } else {
        PairsDone(s, "`", open, close);
        FewBackticks(s, i.value);
      }
    }
  }

  lemma {:induction false} FewBackticks(s: string, i: nat)
    requires forall q :: 0 <= q < |s| && q != i ==> !OccursAt(s, "`", q)
    ensures Count(s, '`') <= if i < |s| then 1 else 0
  {
    if s != "" {
      var n := |s| - 1;
      forall q | 0 <= q < n && q != i ensures !OccursAt(s[..n], "`", q) {
        OccursOne(s, "`", q);
        OccursOne(s[..n], "`", q);
      }
      FewBackticks(s[..n], i);
      OccursOne(s, "`", n);
    }
  }

  /** For a text without '<', '>' or '[': removing the tags from the Telegram output and ignoring '*'
      and backticks gives back the text's other characters in order; the italic tags alternate,
      starting with an opening one; bold and code tags come in equal numbers; and at most one
      backtick is left. */
  lemma {:induction false} TelegramPreservesText(text: string)
    requires NoAngles(text) && '[' !in text
    ensures var out := TelegramHtml(text);
      && Visible(out) == StripMarkers(text)
      && Alternates(Only(Tags(out), ITALICS), "i", "/i")
      && Alternates(Only(Tags(out), Two("b")), "b", "/b") && |Only(Tags(out), Two("b"))| % 2 == 0
      && Alternates(Only(Tags(out), Two("code")), "code", "/code") && |Only(Tags(out), Two("code"))| % 2 == 0
      && |Only(Tags(out), {"b"})| == |Only(Tags(out), {"/b"})|
      && |Only(Tags(out), {"code"})| == |Only(Tags(out), {"/code"})|
      && Count(out, '`') <= 1
  {
    var bold := BoldReads(text);
    var italic := Italic(bold, |bold|).0;
    assert bold[..|bold|] == bold;
    ItalicReadsPrefix(bold, |bold|, {"b"});
    ItalicReadsPrefix(bold, |bold|, {"/b"});
    ItalicReadsPrefix(bold, |bold|, {"code"});
    ItalicReadsPrefix(bold, |bold|, {"/code"});
    ItalicReadsPrefix(bold, |bold|, Two("b"));
    ItalicReadsPrefix(bold, |bold|, Two("code"));
    NamesOfTwo();
    ItalicAddsNoBracket(bold, |bold|);
    hide Italic;
    var out := CodeReads(italic);
    NoLinks(Html, out);
  }

  lemma {:induction false} BoldReads(text: string) returns (bold: string)
    requires NoAngles(text) && '[' !in text
    ensures bold == Bold(text) && Closed(bold) && Visible(bold) == StripMarkers(text) && '[' !in bold
    ensures Only(Tags(bold), ITALICS) == []
    ensures |Only(Tags(bold), {"b"})| == |Only(Tags(bold), {"/b"})|
    ensures Only(Tags(bold), {"code"}) == [] && Only(Tags(bold), {"/code"}) == [] && Only(Tags(bold), Two("code")) == []
    ensures Alternates(Only(Tags(bold), Two("b")), "b", "/b") && |Only(Tags(bold), Two("b"))| % 2 == 0
  {
    NoAnglesRead(text);
    MarkersShrink();
    bold := Bold(text);
    assert "<b>" == "<" + "b" + ">" && "</b>" == "</" + "b" + ">" && "/b" == "/" + "b";
    assert TagMarker("**", "b");
    PairsAddNoBracket(text, "**", "<b>", "</b>");
    hide Pairs, Tags, Visible, InTag, MarkersOutside, TagMarker;
    PairsAddTags(text, "**", "b", ITALICS);
    PairsAddTags(text, "**", "b", {"code"});
    PairsAddTags(text, "**", "b", {"/code"});
    NamesOfTwo();
    PairsAddTags(text, "**", "b", Two("code"));
    PairsAlternate(text, "**", "b");
  }

  lemma {:induction false} NamesOfTwo()
    ensures Two("b") == {"b", "/b"} && Two("code") == {"code", "/code"}
  {
    assert "/" + "b" == "/b" && "/" + "code" == "/code";
  }

  lemma {:induction false} CodeTags()
    ensures "<code>" == "<" + "code" + ">" && "</code>" == "</" + "code" + ">"
    ensures "/" + "code" == "/code"
    ensures TagMarker("`", "code")
  {
    MarkersShrink();
    assert "<code>" == "<" + "code" + ">" && "</code>" == "</" + "code" + ">" && "/code" == "/" + "code";
  }

  lemma {:induction false} CodeReads(s: string) returns (code: string)
    requires Closed(s) && '[' !in s
    requires |Only(Tags(s), {"code"})| == |Only(Tags(s), {"/code"})| && Only(Tags(s), Two("code")) == []
    ensures code == Code(s) && Visible(code) == Visible(s) && '[' !in code && Count(code, '`') <= 1
    ensures Only(Tags(code), ITALICS) == Only(Tags(s), ITALICS)
    ensures Only(Tags(code), {"b"}) == Only(Tags(s), {"b"}) && Only(Tags(code), {"/b"}) == Only(Tags(s), {"/b"})
    ensures |Only(Tags(code), {"code"})| == |Only(Tags(code), {"/code"})|
    ensures Only(Tags(code), Two("b")) == Only(Tags(s), Two("b"))
    ensures Alternates(Only(Tags(code), Two("code")), "code", "/code") && |Only(Tags(code), Two("code"))| % 2 == 0
  {
    MarkersShrink();
    code := Code(s);
    OneBacktickLeft(s, "<code>", "</code>");
    CodeTags();
    PairsAddNoBracket(s, "`", "<code>", "</code>");
    hide Pairs, Tags, Visible, InTag, MarkersOutside, Only, TagMarker, Alternates, Count;
    PairsAddTags(s, "`", "code", ITALICS);
    PairsAddTags(s, "`", "code", {"b"});
    PairsAddTags(s, "`", "code", {"/b"});
    NamesOfTwo();
    PairsAddTags(s, "`", "code", Two("b"));
    PairsAlternate(s, "`", "code");
  }

  // ---------- Crossed tags ----------

  /** The bold and italic tags of "***a***" cross. */
  lemma {:induction false} CrossedTags()
    ensures TelegramHtml("***a***") == "<b><i>a</b></i>"
  {
    var bold := "<b>*a</b>*";
    CrossedBold();
    CrossedItalic();
    var out := "<b><i>a</b></i>";
    hide Pairs, Italic, FindFrom;
    MarkersShrink();
    forall q: nat ensures !OccursAt(out, "`", q) { OccursOne(out, "`", q); }
    FindFromFirst(out, "`", 0);
    PairsDone(out, "`", "<code>", "</code>");
    NoLinks(Html, out);
  }

  lemma {:induction false} CrossedBold()
    ensures Bold("***a***") == "<b>*a</b>*"
  {
    var s, bold := "***a***", "<b>*a</b>*";
    hide Pairs, FindFrom;
    MarkersShrink();
    forall q: nat ensures OccursAt(s, "**", q) <==> q in {0, 1, 4, 5} { OccursTwo(s, "**", q); }
    forall q: nat ensures !OccursAt(bold, "**", q) { OccursTwo(bold, "**", q); }
    FirstIs(s, "**", 0, 0);
    FirstIs(s, "**", 2, 4);
    FindFromFirst(bold, "**", 0);
    PairsUnfold(s, "**", "<b>", "</b>", 0, 4);
    assert s[..0] == "" && s[2..4] == "*a" && s[6..] == "*";
    assert ReplacePair(s, "**", "<b>", "</b>", 0, 4) == bold;
    PairsDone(bold, "**", "<b>", "</b>");
  }

  lemma {:induction false} CrossedItalic()
    ensures Italic("<b>*a</b>*", 10) == ("<b><i>a</b></i>", false)
  {
    var s := "<b>*a</b>*";
    assert Isolated(s, 3) && Isolated(s, 9);
    assert Italic(s, 0) == ("", false);
    assert s[0..3] == "<b>" && s[4..9] == "a</b>";
    ItalicPlain(s, 0, 3);
    assert "" + "<b>" == "<b>" && "<b>" + "<i>" == "<b><i>" && "<b><i>" + "a</b>" + "</i>" == "<b><i>a</b></i>";
    assert Italic(s, 4) == ("<b><i>", true);
    ItalicPlain(s, 4, 9);
  }
}
