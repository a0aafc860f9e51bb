/** What the Telegram conversion makes of a document with bold, italic, code and links. */
module TelegramDocuments {
  import opened Text
  import opened Formatter

  // ---------- The italic pass, by runs of asterisks ----------

  datatype Run = Other(words: string) | Stars(n: nat)

  function Asterisks(n: nat): string {
    seq(n, _ => '*')
  }

  function RunsText(runs: seq<Run>): string {
    if runs == [] then ""
    else RunText(runs[0]) + RunsText(runs[1..])
  }

  function RunText(run: Run): string {
    match run case Other(w) => w case Stars(n) => Asterisks(n)
  }

  /** A single asterisk becomes a tag, opening and closing in turn; longer runs and all else are kept. */
  function RunsItalic(runs: seq<Run>, open: bool): (string, bool) {
    if runs == [] then ("", open)
    else
      match runs[0]
      case Other(w) =>
        var (out, last) := RunsItalic(runs[1..], open);
        (w + out, last)
      case Stars(n) =>
        var (out, last) := RunsItalic(runs[1..], if n == 1 then !open else open);
        ((if n != 1 then Asterisks(n) else if open then "</i>" else "<i>") + out, last)
  }

  /** Maximal runs: no empty ones, and no run of asterisks next to another asterisk. */
  predicate ProperRuns(runs: seq<Run>, afterStar: bool) {
    runs == [] ||
    match runs[0]
    case Other(w) => w != "" && '*' !in w && ProperRuns(runs[1..], false)
    case Stars(n) => n > 0 && !afterStar && ProperRuns(runs[1..], true)
  }

  ghost predicate EndsInStar(s: string) {
    s != "" && s[|s| - 1] == '*'
  }

  /** The italic pass over any text, told by its runs. */
  lemma {:induction false} ItalicByRuns(runs: seq<Run>)
    requires ProperRuns(runs, false)
    ensures var s := RunsText(runs); Italic(s, |s|) == RunsItalic(runs, false)
  {
    var s := RunsText(runs);
    assert "" + s == s && Italic(s, 0) == ("", false);
    ItalicFrom("", runs);
    assert "" + RunsItalic(runs, false).0 == RunsItalic(runs, false).0;
  }

  lemma {:induction false} ItalicFrom(pre: string, runs: seq<Run>)
    requires ProperRuns(runs, EndsInStar(pre))
    ensures var s := pre + RunsText(runs);
      var (out, open) := Italic(s, |pre|);
      Italic(s, |s|) == (out + RunsItalic(runs, open).0, RunsItalic(runs, open).1)
    decreases |runs|
  {
    var s := pre + RunsText(runs);
    if runs == [] {
      assert s == pre && Italic(s, |pre|).0 + "" == Italic(s, |pre|).0;
    } else {
      var run, more := runs[0], runs[1..];
      var first, rest := RunText(run), RunsText(more);
      assert runs == [run] + more && s == pre + first + rest;
      OneRun(pre, run, first, rest, more);
      var (out, open) := Italic(s, |pre|);
      hide Italic, ProperRuns, EndsInStar;
      ItalicFrom(pre + first, more);
      hide RunText, RunsText;
      RunsItalicStep(out, run, more, open);
    }
  }

  lemma {:induction false} RunsItalicStep(out: string, run: Run, more: seq<Run>, open: bool)
    ensures var (next, after) := match run
              case Other(w) => (out + w, open)
              case Stars(n) =>
                if n == 1 then (out + (if open then "</i>" else "<i>"), !open) else (out + Asterisks(n), open);
      (next + RunsItalic(more, after).0, RunsItalic(more, after).1) ==
        (out + RunsItalic([run] + more, open).0, RunsItalic([run] + more, open).1)
  {
    var l := [run] + more;
    assert l[1..] == more;
    match run
    case Other(w) => assert out + (w + RunsItalic(more, open).0) == out + w + RunsItalic(more, open).0;
    case Stars(n) =>
      var after := if n == 1 then !open else open;
      var shown := if n != 1 then Asterisks(n) else if open then "</i>" else "<i>";
      var rest := RunsItalic(more, after).0;
      assert out + (shown + rest) == out + shown + rest;
  }

  /** The pass over one run. */
  lemma {:induction false} OneRun(pre: string, run: Run, first: string, rest: string, more: seq<Run>)
    requires ProperRuns([run] + more, EndsInStar(pre)) && rest == RunsText(more)
    requires first == RunText(run)
    ensures first != "" && ProperRuns(more, EndsInStar(pre + first))
    ensures var s := pre + first + rest;
      var (out, open) := Italic(s, |pre|);
      Italic(s, |pre| + |first|) ==
        match run
        case Other(w) => (out + w, open)
        case Stars(n) => if n == 1 then (out + (if open then "</i>" else "<i>"), !open) else (out + Asterisks(n), open)
  {
    var s := pre + first + rest;
    assert ([run] + more)[1..] == more;
    match run
    case Other(w) =>
      assert s[|pre|..|pre| + |w|] == w;
      ItalicPlain(s, |pre|, |pre| + |w|);
    case Stars(n) =>
      NextNotStar(more);
      assert rest != "" ==> s[|pre| + n] == rest[0];
      assert pre != "" ==> s[|pre| - 1] == pre[|pre| - 1];
      assert forall i :: |pre| <= i < |pre| + n ==> s[i] == '*';
      if n == 1 {
        assert Isolated(s, |pre|);
      } else {
        StarsKept(s, |pre|, n, n);
      }
  }

  lemma {:induction false} NextNotStar(runs: seq<Run>)
    requires ProperRuns(runs, true)
    ensures RunsText(runs) != "" ==> RunsText(runs)[0] != '*'
  {
  }

  lemma {:induction false} StarsKept(s: string, p: nat, n: nat, k: nat)
    requires 2 <= n && k <= n && p + n <= |s| && forall i :: p <= i < p + n ==> s[i] == '*'
    ensures Italic(s, p + k) == (Italic(s, p).0 + Asterisks(k), Italic(s, p).1)
  {
    if k > 0 {
      StarsKept(s, p, n, k - 1);
      assert s[p + k - 1] == '*' && (k < n ==> s[p + k] == '*') && (k > 1 ==> s[p + k - 2] == '*');
      assert !Isolated(s, p + k - 1);
      assert Asterisks(k) == Asterisks(k - 1) + "*";
      assert Italic(s, p).0 + (Asterisks(k - 1) + "*") == Italic(s, p).0 + Asterisks(k - 1) + "*";
    } else {
      assert Italic(s, p).0 + Asterisks(0) == Italic(s, p).0;
    }
  }

  // ---------- A whole document ----------

  datatype Inline =
    | Say(words: string)
    | Strong(text: string)
    | Emph(text: string)
    | Literal(text: string)
    | Anchor(text: string, url: string)

  /** How a piece reads after the first `k` of the four passes. */
  function Show(p: Inline, k: nat): string {
    match p
    case Say(w) => w
    case Strong(t) => if k < 1 then "**" + t + "**" else "<b>" + t + "</b>"
    case Emph(t) => if k < 2 then "*" + t + "*" else "<i>" + t + "</i>"
    case Literal(t) => if k < 3 then "`" + t + "`" else "<code>" + t + "</code>"
    case Anchor(t, u) => if k < 4 then "[" + t + "](" + u + ")" else "<a href=\"" + u + "\">" + t + "</a>"
  }

  function Shown(doc: seq<Inline>, k: nat): string {
    if doc == [] then "" else Show(doc[0], k) + Shown(doc[1..], k)
  }

  predicate Clean(t: string) {
    '*' !in t && '`' !in t && '[' !in t
  }

  predicate CleanInline(p: Inline) {
    match p
    case Say(w) => w != "" && Clean(w)
    case Strong(t) => Clean(t)
    case Emph(t) => t != "" && Clean(t)
    case Literal(t) => Clean(t)
    case Anchor(t, u) => Clean(t) && Clean(u) && FindFrom(t, "](", 0).None? && ')' !in u
  }

  predicate Starry(p: Inline) {
    p.Strong? || p.Emph?
  }

  /** No marker character inside the pieces, and no italic piece that touches a bold or italic one. */
  predicate Proper(doc: seq<Inline>) {
    && (forall i :: 0 <= i < |doc| ==> CleanInline(doc[i]))
    && forall i :: 0 <= i < |doc| - 1 && Starry(doc[i]) && Starry(doc[i + 1]) ==> !doc[i].Emph? && !doc[i + 1].Emph?
  }

  /** Every piece of a document gets its own tags around its own text, links their address, and all
      else is kept. */
  lemma {:induction false} TelegramRendersDocument(doc: seq<Inline>)
    requires Proper(doc)
    ensures TelegramHtml(Shown(doc, 0)) == Shown(doc, 4)
  {
    MarkersShrink();
    BoldStage(doc);
    ItalicStage(doc);
    CodeStage(doc);
    LinkStage(doc);
  }

  lemma {:induction false} ProperTail(doc: seq<Inline>)
    requires doc != [] && Proper(doc)
    ensures CleanInline(doc[0]) && Proper(doc[1..])
    ensures |doc| > 1 && doc[0].Emph? ==> !Starry(doc[1]) && CleanInline(doc[1])
    ensures |doc| > 1 && Starry(doc[0]) ==> !doc[1].Emph?
  {
    var rest := doc[1..];
    assert forall i :: 0 <= i < |rest| ==> rest[i] == doc[i + 1];
  }

  lemma {:induction false} BoldStage(doc: seq<Inline>)
    requires Proper(doc) && Shrinking("**", "<b>", "</b>")
    ensures Pairs(Shown(doc, 0), "**", "<b>", "</b>") == Shown(doc, 1)
  {
    if doc != [] {
      var rest := Shown(doc[1..], 0);
      ProperTail(doc);
      BoldStage(doc[1..]);
      if doc[0].Emph? { AfterEmph(doc); }
      BoldShown(doc[0]);
      hide Pairs, Proper, Show, CleanInline;
      match doc[0]
      case Strong(t) =>
        FirstPair(t, rest, "**", "<b>", "</b>");
        ApartIfAbsent(Show(doc[0], 1), "**");
        PairsSkip(Show(doc[0], 1), rest, "**", "<b>", "</b>");
      case Emph(t) =>
        LoneStarsSkip(Show(doc[0], 0), rest);
      case _ =>
        ApartIfAbsent(Show(doc[0], 0), "**");
        PairsSkip(Show(doc[0], 0), rest, "**", "<b>", "</b>");
    }
  }

  lemma {:induction false} BoldShown(p: Inline)
    requires CleanInline(p)
    ensures match p
            case Strong(t) => '*' !in t && Show(p, 0) == "**" + t + "**" && Show(p, 1) == "<b>" + t + "</b>"
            case Emph(t) => Show(p, 0) == Show(p, 1) && NoAdjacentStars(Show(p, 0))
            case _ => Show(p, 0) == Show(p, 1) && '*' !in Show(p, 0)
    ensures p.Strong? ==> '*' !in Show(p, 1)
  {
  }

  lemma {:induction false} AfterEmph(doc: seq<Inline>)
    requires doc != [] && Proper(doc) && doc[0].Emph?
    ensures var rest := Shown(doc[1..], 0); rest != "" ==> rest[0] != '*'
  {
    ProperTail(doc);
    if |doc| > 1 { assert doc[1..][0] == doc[1]; }
  }

  /** An italic piece in front of text that does not begin with an asterisk holds no pair. */
  lemma {:induction false} LoneStarsSkip(p: string, rest: string)
    requires Shrinking("**", "<b>", "</b>") && NoAdjacentStars(p) && (rest != "" ==> rest[0] != '*')
    ensures Pairs(p + rest, "**", "<b>", "</b>") == p + Pairs(rest, "**", "<b>", "</b>")
  {
    hide Pairs;
    if rest == "" {
      assert p + rest == p && p + "" == p;
      forall q: nat ensures !OccursAt(p, "**", q) && !OccursAt("", "**", q) { OccursTwo(p, "**", q); }
      NoPairKept(p, "**", "<b>", "</b>");
      NoPairKept("", "**", "<b>", "</b>");
    } else {
      var c, more := rest[..1], rest[1..];
      ApartStars(p + c);
      ApartStars(c);
      assert p + rest == (p + c) + more && rest == c + more;
      PairsSkip(p + c, more, "**", "<b>", "</b>");
      PairsSkip(c, more, "**", "<b>", "</b>");
      assert p + c + Pairs(more, "**", "<b>", "</b>") == p + (c + Pairs(more, "**", "<b>", "</b>"));
    }
  }

  function RunsOf(doc: seq<Inline>): seq<Run> {
    if doc == [] then []
    else
      (if doc[0].Emph? then [Stars(1), Other(doc[0].text), Stars(1)] else [Other(Show(doc[0], 1))]) + RunsOf(doc[1..])
  }

  lemma {:induction false} ItalicStage(doc: seq<Inline>)
    requires Proper(doc)
    ensures var s := Shown(doc, 1); Italic(s, |s|).0 == Shown(doc, 2)
  {
    RunsOfProper(doc, false);
    RunsOfText(doc);
    ItalicByRuns(RunsOf(doc));
  }

  lemma {:induction false} RunsOfProper(doc: seq<Inline>, afterStar: bool)
    requires Proper(doc) && (afterStar ==> doc == [] || !doc[0].Emph?)
    ensures ProperRuns(RunsOf(doc), afterStar)
  {
    if doc != [] {
      ProperTail(doc);
      var rest := RunsOf(doc[1..]);
      if doc[0].Emph? {
        RunsOfProper(doc[1..], true);
        var l := [Stars(1), Other(doc[0].text), Stars(1)] + rest;
        assert l[1..][1..][1..] == rest;
      } else {
        RunsOfProper(doc[1..], false);
        assert ([Other(Show(doc[0], 1))] + rest)[1..] == rest;
      }
    }
  }

  lemma {:induction false} RunsOfText(doc: seq<Inline>)
    requires Proper(doc)
    ensures RunsText(RunsOf(doc)) == Shown(doc, 1)
    ensures RunsItalic(RunsOf(doc), false) == (Shown(doc, 2), false)
  {
    if doc != [] {
      ProperTail(doc);
      RunsOfText(doc[1..]);
      var rest := RunsOf(doc[1..]);
      if doc[0].Emph? {
        EmphRuns(doc[0].text, rest);
      } else {
        assert ([Other(Show(doc[0], 1))] + rest)[1..] == rest;
      }
    }
  }

  lemma {:induction false} EmphRuns(t: string, rest: seq<Run>)
    ensures var l := [Stars(1), Other(t), Stars(1)] + rest;
      && RunsText(l) == "*" + t + "*" + RunsText(rest)
      && RunsItalic(l, false) == ("<i>" + t + "</i>" + RunsItalic(rest, false).0, RunsItalic(rest, false).1)
  {
    var l := [Stars(1), Other(t), Stars(1)] + rest;
    assert l[1..] == [Other(t), Stars(1)] + rest && l[1..][1..] == [Stars(1)] + rest && l[1..][1..][1..] == rest;
    assert Asterisks(1) == "*";
    var (out, last) := RunsItalic(rest, false);
    assert RunsText(l[1..][1..]) == "*" + RunsText(rest);
    assert RunsText(l) == "*" + (t + ("*" + RunsText(rest)));
    assert RunsItalic(l[1..][1..], true) == ("</i>" + out, last);
    assert RunsItalic(l[1..], true) == (t + ("</i>" + out), last);
    assert RunsItalic(l, false) == ("<i>" + (t + ("</i>" + out)), last);
    assert "<i>" + (t + ("</i>" + out)) == "<i>" + t + "</i>" + out;
  }

  lemma {:induction false} CodeStage(doc: seq<Inline>)
    requires Proper(doc) && Shrinking("`", "<code>", "</code>")
    ensures Pairs(Shown(doc, 2), "`", "<code>", "</code>") == Shown(doc, 3)
  {
    if doc != [] {
      var rest := Shown(doc[1..], 2);
      ProperTail(doc);
      CodeStage(doc[1..]);
      OnlyCodeLeft(doc[0]);
      hide Pairs, Proper, Show, CleanInline;
      if doc[0].Literal? { FirstPair(doc[0].text, rest, "`", "<code>", "</code>"); }
      ApartIfAbsent(Show(doc[0], 3), "`");
      PairsSkip(Show(doc[0], 3), rest, "`", "<code>", "</code>");
    }
  }

  lemma {:induction false} OnlyCodeLeft(p: Inline)
    requires CleanInline(p)
    ensures '`' !in Show(p, 3)
    ensures match p
            case Literal(t) => '`' !in t && Show(p, 2) == "`" + t + "`" && Show(p, 3) == "<code>" + t + "</code>"
            case _ => Show(p, 2) == Show(p, 3)
  {
  }

  lemma {:induction false} LinkStage(doc: seq<Inline>)
    requires Proper(doc)
    ensures Links(Html, Shown(doc, 3)) == Shown(doc, 4)
  {
    if doc != [] {
      var rest := Shown(doc[1..], 3);
      ProperTail(doc);
      LinkStage(doc[1..]);
      OnlyAnchorsLeft(doc[0]);
      if doc[0].Anchor? { AnchorRewritten(doc[0].text, doc[0].url, rest); }
      hide Links, Proper, Show, CleanInline;
      LinksSkip(Html, Show(doc[0], 4), rest);
    }
  }

  lemma {:induction false} OnlyAnchorsLeft(p: Inline)
    requires CleanInline(p)
    ensures '[' !in Show(p, 4) && (!p.Anchor? ==> Show(p, 3) == Show(p, 4))
  {
  }

  lemma {:induction false} AnchorRewritten(t: string, u: string, rest: string)
    requires FindFrom(t, "](", 0).None? && ')' !in u
    ensures Links(Html, "[" + t + "](" + u + ")" + rest) == Links(Html, "<a href=\"" + u + "\">" + t + "</a>" + rest)
  {
    FindFromFirst(t, "](", 0);
    FirstLinkRewritten(Html, "", t, u, rest);
    hide Links;
    NothingBefore("[" + t + "](" + u + ")" + rest);
    NothingBefore("<a href=\"" + u + "\">" + t + "</a>");
  }

  lemma {:induction false} NothingBefore(s: string)
    ensures "" + s == s
  {
  }

  // ---------- The order of the passes ----------

  /** Links are rewritten last: here the code tags end up in the address and in the text. */
  lemma {:induction false} LinksComeLast()
    ensures TelegramHtml("[`](`)") == "<a href=\"</code>\"><code></a>"
  {
    NoStars("[`](`)");
    OneCodePair("[`](`)", "[<code>](</code>)");
    hide Bold, Italic, Code, Links;
    CodeLink();
  }

  lemma {:induction false} CodeLink()
    ensures Links(Html, "[<code>](</code>)") == "<a href=\"</code>\"><code></a>"
  {
    var t, u := "<code>", "</code>";
    forall q: nat ensures !OccursAt(t, "](", q) { OccursTwo(t, "](", q); }
    FindFromFirst(t, "](", 0);
    hide Links, FindFrom;
    LinkAlone(Html, t, u);
    CodeLinkTexts(t, u);
  }

  lemma {:induction false} CodeLinkTexts(t: string, u: string)
    requires t == "<code>" && u == "</code>"
    ensures "[" + t + "](" + u + ")" == "[<code>](</code>)"
    ensures "<a href=\"" + u + "\">" + t + "</a>" == "<a href=\"</code>\"><code></a>"
  {
  }

  lemma {:induction false} NoStars(s: string)
    requires '*' !in s
    ensures Bold(s) == s && Italic(s, |s|).0 == s
  {
    MarkersShrink();
    forall q: nat ensures !OccursAt(s, "**", q) { OccursTwo(s, "**", q); }
    NoPairKept(s, "**", "<b>", "</b>");
    ItalicPlain(s, 0, |s|);
    assert s[0..|s|] == s && Italic(s, 0).0 + s == s;
  }

  lemma {:induction false} OneCodePair(s: string, code: string)
    requires s == "[`](`)" && code == "[<code>](</code>)"
    ensures Code(s) == code
  {
    MarkersShrink();
    hide Pairs;
    ApartIfAbsent("[", "`");
    ApartIfAbsent("](", "`");
    FirstPairRewritten("[", "](", ")", "`", "<code>", "</code>");
    assert "[" + "`" + "](" + "`" + ")" == s && "[" + "<code>" + "](" + "</code>" + ")" == code;
    forall q: nat ensures !OccursAt(code, "`", q) { OccursOne(code, "`", q); }
    NoPairKept(code, "`", "<code>", "</code>");
  }
}
