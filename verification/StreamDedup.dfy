/** The sliding duplicate window over sent texts, and the normal form it compares. The character
    functions are parameters: `ws` for whitespace, `lower` for the lowered character. */
module StreamDedup {
  import opened Text
  import opened Utf8

  const MIN_DEDUP_LENGTH: nat := 10
  const DEDUP_WINDOW: nat := 50

  datatype Chars = Chars(ws: char -> bool, lower: char -> char)

  /** A lowered word character is not whitespace; the separator is. */
  ghost predicate Sane(cs: Chars) {
    cs.ws(' ') && forall c :: !cs.ws(c) ==> !cs.ws(cs.lower(c))
  }

  // ---------- The normal form ----------

  /** The whitespace-separated words, lowered. */
  function Words(cs: Chars, s: string): seq<string> {
    if s == "" then []
    else
      var init, c := s[..|s| - 1], s[|s| - 1];
      var words := Words(cs, init);
      if cs.ws(c) then words
      else if words == [] || cs.ws(init[|init| - 1]) then words + [[cs.lower(c)]]
      else words[..|words| - 1] + [words[|words| - 1] + [cs.lower(c)]]
  }

  function Join(words: seq<string>): string {
    if words == [] then ""
    else if |words| == 1 then words[0]
    else Join(words[..|words| - 1]) + " " + words[|words| - 1]
  }

  ghost predicate IsWord(cs: Chars, w: string) {
    w != "" && forall i :: 0 <= i < |w| ==> !cs.ws(w[i])
  }

  lemma {:induction false} WordsAreWords(cs: Chars, s: string)
    requires Sane(cs)
    ensures forall i :: 0 <= i < |Words(cs, s)| ==> IsWord(cs, Words(cs, s)[i])
  {
    if s != "" {
      var init, c := s[..|s| - 1], s[|s| - 1];
      WordsAreWords(cs, init);
      var words := Words(cs, init);
      assert init != "" || words == [];
      if !cs.ws(c) && words != [] && !cs.ws(init[|init| - 1]) {
        assert IsWord(cs, words[|words| - 1] + [cs.lower(c)]);
      }
    }
  }

  lemma {:induction false} NoWordsYet(cs: Chars, s: string)
    ensures Words(cs, s) == [] <==> forall i :: 0 <= i < |s| ==> cs.ws(s[i])
  {
    if s != "" { NoWordsYet(cs, s[..|s| - 1]); }
  }

  /** What the collapsing loop has built after reading `s`: a leading and a trailing space may
      surround the joined words. */
  function Collapsed(cs: Chars, s: string): string {
    (if s != "" && cs.ws(s[0]) then " " else "") + Join(Words(cs, s)) +
    (if Words(cs, s) != [] && cs.ws(s[|s| - 1]) then " " else "")
  }

  /** `normalize` equals joining the lowered words with single spaces. */
  method Normalize(cs: Chars, text: string) returns (r: string)
    requires Sane(cs)
    ensures r == Join(Words(cs, text))
  {
    var result, lastWasSpace := "", false;
    assert text[..0] == "";
    for i := 0 to |text|
      invariant result == Collapsed(cs, text[..i]) && lastWasSpace == (i > 0 && cs.ws(text[i - 1]))
    {
      CollapseStep(cs, text[..i], text[i]);
      assert text[..i] + [text[i]] == text[..i + 1];
      if cs.ws(text[i]) {
        if !lastWasSpace {
          result := result + " ";
          lastWasSpace := true;
        }
      } else {
        result := result + [cs.lower(text[i])];
        lastWasSpace := false;
      }
    }
    assert text[..|text|] == text;
    r := Trim(cs.ws, result);
    TrimCollapsed(cs, text);
  }

  lemma {:induction false} CollapseStep(cs: Chars, s: string, c: char)
    requires Sane(cs)
    ensures Collapsed(cs, s + [c]) == Collapsed(cs, s) +
      if !cs.ws(c) then [cs.lower(c)] else if s != "" && cs.ws(s[|s| - 1]) then "" else " "
  {
    hide Words, Join, Collapsed;
    if cs.ws(c) { CollapseSpace(cs, s, c); } else { CollapseLetter(cs, s, c); }
  }

  lemma {:induction false} CollapseSpace(cs: Chars, s: string, c: char)
    requires cs.ws(c)
    ensures Collapsed(cs, s + [c]) == Collapsed(cs, s) + if s != "" && cs.ws(s[|s| - 1]) then "" else " "
  {
    NoWordsYet(cs, s);
    WordsStep(cs, s, c);
    hide Words;
    assert (s + [c])[0] == if s == "" then c else s[0];
  }

  lemma {:induction false} CollapseLetter(cs: Chars, s: string, c: char)
    requires Sane(cs) && !cs.ws(c)
    ensures Collapsed(cs, s + [c]) == Collapsed(cs, s) + [cs.lower(c)]
  {
    NoWordsYet(cs, s);
    JoinLetter(cs, s, c);
    hide Words, Join;
    var t, words := s + [c], Words(cs, s);
    var before := if s != "" && cs.ws(s[0]) then " " else "";
    var between := if words != [] && cs.ws(s[|s| - 1]) then " " else "";
    assert t[0] == if s == "" then c else s[0];
    assert Collapsed(cs, s) == before + Join(words) + between;
    assert Collapsed(cs, t) == before + Join(Words(cs, t)) + "";
    hide Collapsed;
    Regroup(before, Join(words), between, [cs.lower(c)]);
  }

  lemma {:induction false} Regroup(a: string, b: string, c: string, d: string)
    ensures a + (b + c + d) + "" == (a + b + c) + d
  {
  }

  lemma {:induction false} JoinLetter(cs: Chars, s: string, c: char)
    requires Sane(cs) && !cs.ws(c)
    ensures var words := Words(cs, s);
      && Words(cs, s + [c]) != []
      && Join(Words(cs, s + [c])) ==
         Join(words) + (if words != [] && cs.ws(s[|s| - 1]) then " " else "") + [cs.lower(c)]
  {
    var words, w := Words(cs, s), [cs.lower(c)];
    NoWordsYet(cs, s);
    WordsStep(cs, s, c);
    assert Join([]) == "";
    hide Words, Join;
    if words == [] || cs.ws(s[|s| - 1]) { JoinAdds(words, w); } else { JoinGrows(words, cs.lower(c)); }
  }

  lemma {:induction false} WordsStep(cs: Chars, s: string, c: char)
    ensures var words := Words(cs, s);
      Words(cs, s + [c]) ==
        if cs.ws(c) then words
        else if words == [] || cs.ws(s[|s| - 1]) then words + [[cs.lower(c)]]
        else words[..|words| - 1] + [words[|words| - 1] + [cs.lower(c)]]
  {
    assert (s + [c])[..|s|] == s;
  }

  lemma {:induction false} JoinAdds(words: seq<string>, w: string)
    ensures Join(words + [w]) == if words == [] then w else Join(words) + " " + w
  {
    assert (words + [w])[..|words|] == words;
  }

  lemma {:induction false} JoinGrows(words: seq<string>, c: char)
    requires words != []
    ensures Join(words[..|words| - 1] + [words[|words| - 1] + [c]]) == Join(words) + [c]
  {
    var grown := words[..|words| - 1] + [words[|words| - 1] + [c]];
    assert grown[..|grown| - 1] == words[..|words| - 1];
  }

  lemma {:induction false} JoinEnds(cs: Chars, words: seq<string>)
    requires words != [] && forall i :: 0 <= i < |words| ==> IsWord(cs, words[i])
    ensures var s := Join(words); s != "" && !cs.ws(s[0]) && !cs.ws(s[|s| - 1])
  {
    if |words| > 1 { JoinEnds(cs, words[..|words| - 1]); }
  }

  lemma {:induction false} TrimCollapsed(cs: Chars, s: string)
    requires Sane(cs)
    ensures Trim(cs.ws, Collapsed(cs, s)) == Join(Words(cs, s))
  {
    var words := Words(cs, s);
    WordsAreWords(cs, s);
    if words == [] {
      NoWordsYet(cs, s);
      assert " "[1..] == "";
    } else {
      JoinEnds(cs, words);
      TrimCore(cs.ws, if cs.ws(s[0]) then " " else "", Join(words), if cs.ws(s[|s| - 1]) then " " else "");
    }
  }

  lemma {:induction false} TrimCore(ws: char -> bool, lead: string, core: string, tail: string)
    requires core != "" && !ws(core[0]) && !ws(core[|core| - 1]) && ws(' ')
    requires (lead == "" || lead == " ") && (tail == "" || tail == " ")
    ensures Trim(ws, lead + core + tail) == core
  {
    var rest := core + tail;
    assert lead + core + tail == lead + rest;
    TrimLead(ws, lead, rest);
    TrimTail(ws, core, tail);
    hide TrimStart, TrimEnd;
  }

  lemma {:induction false} TrimLead(ws: char -> bool, lead: string, rest: string)
    requires rest != "" && !ws(rest[0]) && ws(' ') && (lead == "" || lead == " ")
    ensures TrimStart(ws, lead + rest) == rest
  {
    if lead == "" { assert lead + rest == rest; } else { assert (lead + rest)[1..] == rest; }
  }

  lemma {:induction false} TrimTail(ws: char -> bool, core: string, tail: string)
    requires core != "" && !ws(core[|core| - 1]) && ws(' ') && (tail == "" || tail == " ")
    ensures TrimEnd(ws, core + tail) == core
  {
    if tail == "" { assert core + tail == core; } else { assert (core + tail)[..|core|] == core; }
  }

  // ---------- The normal form decides equality of words ----------

  /** Two texts have the same normal form exactly when they have the same lowered words. */
  lemma {:induction false} NormalFormIsWords(cs: Chars, a: string, b: string)
    requires Sane(cs)
    ensures Join(Words(cs, a)) == Join(Words(cs, b)) <==> Words(cs, a) == Words(cs, b)
  {
    WordsAreWords(cs, a);
    WordsAreWords(cs, b);
    if Join(Words(cs, a)) == Join(Words(cs, b)) { JoinInjective(cs, Words(cs, a), Words(cs, b)); }
  }

  lemma {:induction false} JoinInjective(cs: Chars, a: seq<string>, b: seq<string>)
    requires cs.ws(' ') && Join(a) == Join(b)
    requires forall i :: 0 <= i < |a| ==> IsWord(cs, a[i])
    requires forall i :: 0 <= i < |b| ==> IsWord(cs, b[i])
    ensures a == b
  {
    if a == [] || b == [] {
      if a != [] { JoinEnds(cs, a); }
      if b != [] { JoinEnds(cs, b); }
    } else {
      var s := Join(a);
      LastWord(cs, a);
      LastWord(cs, b);
      var x, y := a[|a| - 1], b[|b| - 1];
      if |x| != |y| { assert false; }
      assert x == y;
      assert |a| == 1 <==> |b| == 1;
      assert a == a[..|a| - 1] + [x] && b == b[..|b| - 1] + [y];
      if |a| > 1 {
        assert Join(a[..|a| - 1]) == s[..|s| - |x| - 1] == Join(b[..|b| - 1]);
        JoinInjective(cs, a[..|a| - 1], b[..|b| - 1]);
      }
    }
  }

  /** The last word is the suffix after the last space. */
  lemma {:induction false} LastWord(cs: Chars, a: seq<string>)
    requires cs.ws(' ') && a != [] && forall i :: 0 <= i < |a| ==> IsWord(cs, a[i])
    ensures var s, x := Join(a), a[|a| - 1];
      && |x| <= |s| && s[|s| - |x|..] == x
      && (|a| == 1 <==> |s| == |x|)
      && (|a| > 1 ==> s[|s| - |x| - 1] == ' ' && Join(a[..|a| - 1]) == s[..|s| - |x| - 1])
  {
  }

  // ---------- Any text, by its words and gaps ----------

  /** A gap, then each word followed by its gap. */
  function Spaced(gaps: seq<string>, words: seq<string>): string
    requires |gaps| == |words| + 1
    decreases |words|
  {
    if words == [] then gaps[0]
    else Spaced(gaps[..|words|], words[..|words| - 1]) + words[|words| - 1] + gaps[|words|]
  }

  function Lowered(cs: Chars, w: string): string {
    if w == "" then "" else Lowered(cs, w[..|w| - 1]) + [cs.lower(w[|w| - 1])]
  }

  /** The lowered words with one space between two. */
  function SingleSpaced(cs: Chars, words: seq<string>): string {
    if words == [] then ""
    else if |words| == 1 then Lowered(cs, words[0])
    else SingleSpaced(cs, words[..|words| - 1]) + " " + Lowered(cs, words[|words| - 1])
  }

  ghost predicate Gap(cs: Chars, g: string) {
    forall i :: 0 <= i < |g| ==> cs.ws(g[i])
  }

  /** Whatever whitespace lies between, before and after the words of a text, its normal form is the
      words, lowered, with one space between two. */
  lemma {:induction false} NormalFormOfSpaced(cs: Chars, gaps: seq<string>, words: seq<string>)
    requires |gaps| == |words| + 1 && (forall i :: 0 <= i < |gaps| ==> Gap(cs, gaps[i]))
    requires forall i :: 0 < i < |words| ==> gaps[i] != ""
    requires forall i :: 0 <= i < |words| ==> IsWord(cs, words[i])
    ensures |Words(cs, Spaced(gaps, words))| == |words|
    ensures Join(Words(cs, Spaced(gaps, words))) == SingleSpaced(cs, words)
    decreases |words|
  {
    if words == [] {
      assert "" + gaps[0] == gaps[0];
      GapAdded(cs, "", gaps[0]);
    } else {
      var n := |words| - 1;
      var before, w, g := Spaced(gaps[..n + 1], words[..n]), words[n], gaps[n + 1];
      NormalFormOfSpaced(cs, gaps[..n + 1], words[..n]);
      SpacedEnds(cs, gaps[..n + 1], words[..n]);
      WordAdded(cs, before, w);
      GapAdded(cs, before + w, g);
      hide Words, Join, Lowered;
      JoinAdds(Words(cs, before), Lowered(cs, w));
    }
  }

  lemma {:induction false} SpacedEnds(cs: Chars, gaps: seq<string>, words: seq<string>)
    requires |gaps| == |words| + 1 && Gap(cs, gaps[|words|]) && (words != [] ==> gaps[|words|] != "")
    ensures var s := Spaced(gaps, words); s != "" ==> cs.ws(s[|s| - 1])
  {
    var s, g := Spaced(gaps, words), gaps[|words|];
    if g != "" { assert s[|s| - 1] == g[|g| - 1]; }
  }

  lemma {:induction false} GapAdded(cs: Chars, s: string, g: string)
    requires Gap(cs, g)
    ensures Words(cs, s + g) == Words(cs, s)
  {
    if g == "" {
      assert s + g == s;
    } else {
      var init, c := g[..|g| - 1], g[|g| - 1];
      GapAdded(cs, s, init);
      assert s + g == s + init + [c];
      WordsStep(cs, s + init, c);
    }
  }

  lemma {:induction false} WordAdded(cs: Chars, s: string, w: string)
    requires (s != "" ==> cs.ws(s[|s| - 1])) && IsWord(cs, w)
    ensures Words(cs, s + w) == Words(cs, s) + [Lowered(cs, w)]
  {
    var init, c := w[..|w| - 1], w[|w| - 1];
    assert s + w == s + init + [c];
    WordsStep(cs, s + init, c);
    if init == "" {
      assert s + init == s && Lowered(cs, w) == [cs.lower(c)];
      NoWordsYet(cs, s);
    } else {
      WordAdded(cs, s, init);
      assert (s + init)[|s + init| - 1] == init[|init| - 1];
      var words := Words(cs, s);
      assert (words + [Lowered(cs, init)])[..|words|] == words;
    }
  }

  // ---------- The window ----------

  /** The last `DEDUP_WINDOW` texts of a history. */
  function Window(history: seq<string>): seq<string> {
    if |history| <= DEDUP_WINDOW then history else history[|history| - DEDUP_WINDOW..]
  }

  function NormalForms(cs: Chars, texts: seq<string>): seq<string> {
    seq(|texts|, i requires 0 <= i < |texts| => Join(Words(cs, texts[i])))
  }

  class StreamDedup {
    const cs: Chars
    var recentChunks: seq<string>
    var recentNormalized: seq<string>
    /** All texts long enough to count that were recorded since the last clear. */
    ghost var history: seq<string>

    ghost predicate Valid()
      reads this
    {
      && Sane(cs)
      && recentChunks == Window(history)
      && recentNormalized == NormalForms(cs, recentChunks)
    }

    constructor (chars: Chars)
      requires Sane(chars)
      ensures Valid() && cs == chars && history == []
    {
      cs := chars;
      recentChunks, recentNormalized, history := [], [], [];
    }

    /** A text is a duplicate exactly when it is long enough and its normal form is that of one of
        the last fifty long-enough texts recorded since the last clear. */
    method IsDuplicate(text: string) returns (dup: bool)
      requires Valid()
      ensures dup <==> (|Encode(text)| >= 10 && exists i ::
        0 <= i < |history| && |history| - 50 <= i && Join(Words(cs, history[i])) == Join(Words(cs, text)))
    {
      if |Encode(text)| < MIN_DEDUP_LENGTH { return false; }
      if text in recentChunks {
        var i :| 0 <= i < |recentChunks| && recentChunks[i] == text;
        assert recentChunks[i] == history[|history| - |recentChunks| + i];
        return true;
      }
      var normalized := Normalize(cs, text);
      dup := normalized in recentNormalized;
      if dup {
        var i :| 0 <= i < |recentNormalized| && recentNormalized[i] == normalized;
        assert recentChunks[i] == history[|history| - |recentChunks| + i];
      } else {
        forall i | 0 <= i < |history| && |history| - 50 <= i ensures Join(Words(cs, history[i])) != normalized {
          var k := i - (|history| - |recentChunks|);
          assert recentChunks[k] == history[i] && recentNormalized[k] != normalized;
        }
      }
    }

    method RecordSent(text: string)
      requires Valid()
      modifies this
      ensures Valid()
      ensures history == if |Encode(text)| < 10 then old(history) else old(history) + [text]
    {
      if |Encode(text)| < MIN_DEDUP_LENGTH { return; }
      if |recentChunks| >= DEDUP_WINDOW {
        recentChunks := recentChunks[1..];
        recentNormalized := recentNormalized[1..];
      }
      var normalized := Normalize(cs, text);
      recentChunks := recentChunks + [text];
      recentNormalized := recentNormalized + [normalized];
      history := history + [text];
    }

    method Clear()
      requires Valid()
      modifies this
      ensures Valid() && history == []
    {
      recentChunks, recentNormalized, history := [], [], [];
    }
  }
}
