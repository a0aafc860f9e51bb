/** The Markdown rewriting loops: pairs of markers, isolated asterisks and links. Every pattern is
    ASCII, so searching and slicing the bytes and the characters of a text agree. */
module Formatter {
  import opened Text

  function Count(s: string, c: char): nat {
    if s == "" then 0 else Count(s[..|s| - 1], c) + if s[|s| - 1] == c then 1 else 0
  }

  lemma {:induction false} CountConcat(a: string, b: string, c: char)
    ensures Count(a + b, c) == Count(a, c) + Count(b, c)
  {
    if b == "" {
      assert a + b == a;
    } else {
      assert (a + b)[..|a + b| - 1] == a + b[..|b| - 1];
      CountConcat(a, b[..|b| - 1], c);
    }
  }

  lemma {:induction false} CountAll(s: string, c: char)
    requires forall i :: 0 <= i < |s| ==> s[i] == c
    ensures Count(s, c) == |s|
  {
    if s != "" { CountAll(s[..|s| - 1], c); }
  }

  lemma {:induction false} CountZero(s: string, c: char)
    ensures Count(s, c) == 0 <==> c !in s
  {
    if s != "" {
      CountZero(s[..|s| - 1], c);
      assert s == s[..|s| - 1] + [s[|s| - 1]];
    }
  }

  /** `s` split at two occurrences of a marker. */
  lemma {:induction false} SplitAtPair(s: string, marker: string, i: nat, j: nat)
    requires OccursAt(s, marker, i) && OccursAt(s, marker, j) && i + |marker| <= j
    ensures s == s[..i] + marker + s[i + |marker|..j] + marker + s[j + |marker|..]
  {
    assert s[..j] == s[..i] + marker + s[i + |marker|..j];
    assert s == s[..j] + marker + s[j + |marker|..];
  }

  // ---------- Paired markers (bold and inline code) ----------

  /** The marker repeats one character, and replacing a pair leaves fewer of it. */
  ghost predicate Shrinking(marker: string, open: string, close: string) {
    && marker != "" && (forall i :: 0 <= i < |marker| ==> marker[i] == marker[0])
    && Count(open, marker[0]) + Count(close, marker[0]) < 2 * |marker|
  }

  lemma {:induction false} PairShrinks(s: string, marker: string, open: string, close: string, i: nat, j: nat)
    requires Shrinking(marker, open, close)
    requires OccursAt(s, marker, i) && OccursAt(s, marker, j) && i + |marker| <= j
    ensures Count(ReplacePair(s, marker, open, close, i, j), marker[0]) < Count(s, marker[0])
  {
    hide Count;
    var c, a, m, z := marker[0], s[..i], s[i + |marker|..j], s[j + |marker|..];
    SplitAtPair(s, marker, i, j);
    CountAll(marker, c);
    CountFive(a, marker, m, marker, z, c);
    CountFive(a, open, m, close, z, c);
  }

  lemma {:induction false} CountFive(a: string, x: string, m: string, y: string, z: string, c: char)
    ensures Count(a + x + m + y + z, c) == Count(a, c) + Count(x, c) + Count(m, c) + Count(y, c) + Count(z, c)
  {
    hide Count;
    CountConcat(a, x, c);
    CountConcat(a + x, m, c);
    CountConcat(a + x + m, y, c);
    CountConcat(a + x + m + y, z, c);
  }

  function ReplacePair(s: string, marker: string, open: string, close: string, i: nat, j: nat): string
    requires i + |marker| <= j && j + |marker| <= |s|
  {
    s[..i] + open + s[i + |marker|..j] + close + s[j + |marker|..]
  }

  /** Replace the leftmost pair of markers until fewer than two are left. */
  function Pairs(s: string, marker: string, open: string, close: string): string
    requires Shrinking(marker, open, close)
    decreases Count(s, marker[0])
  {
    match FindFrom(s, marker, 0)
    case None => s
    case Some(i) =>
      match FindFrom(s, marker, i + |marker|)
      case None => s
      case Some(j) =>
        FindFromFirst(s, marker, 0);
        FindFromFirst(s, marker, i + |marker|);
        PairShrinks(s, marker, open, close, i, j);
        Pairs(ReplacePair(s, marker, open, close, i, j), marker, open, close)
  }

  lemma {:induction false} PairsUnfold(s: string, marker: string, open: string, close: string, i: nat, j: nat)
    requires Shrinking(marker, open, close)
    requires FindFrom(s, marker, 0) == Some(i) && FindFrom(s, marker, i + |marker|) == Some(j)
    ensures OccursAt(s, marker, i) && OccursAt(s, marker, j) && i + |marker| <= j
    ensures Pairs(s, marker, open, close) == Pairs(ReplacePair(s, marker, open, close, i, j), marker, open, close)
    ensures Count(ReplacePair(s, marker, open, close, i, j), marker[0]) < Count(s, marker[0])
  {
    hide ReplacePair, Count, FindFrom;
    FindFromFirst(s, marker, 0);
    FindFromFirst(s, marker, i + |marker|);
    PairShrinks(s, marker, open, close, i, j);
  }

  method RewritePairs(text: string, marker: string, open: string, close: string) returns (result: string)
    requires Shrinking(marker, open, close)
    ensures result == Pairs(text, marker, open, close)
    ensures !exists p, q :: p + |marker| <= q && OccursAt(result, marker, p) && OccursAt(result, marker, q)
  {
    hide Pairs, Count, FindFrom, ReplacePair;
    result := text;
    while true
      invariant Pairs(result, marker, open, close) == Pairs(text, marker, open, close)
      decreases Count(result, marker[0])
    {
      var start := FindFrom(result, marker, 0);
      FindFromFirst(result, marker, 0);
      if start.None? {
        PairsDone(result, marker, open, close);
        return;
      }
      var end := FindFrom(result, marker, start.value + |marker|);
      FindFromFirst(result, marker, start.value + |marker|);
      if end.None? {
        PairsDone(result, marker, open, close);
        return;
      }
      PairsUnfold(result, marker, open, close, start.value, end.value);
      result := ReplacePair(result, marker, open, close, start.value, end.value);
    }
  }

  // ---------- Isolated asterisks ----------

  predicate Isolated(s: string, i: nat)
    requires i < |s|
  {
    s[i] == '*' && (i == 0 || s[i - 1] != '*') && (i + 1 >= |s| || s[i + 1] != '*')
  }

  /** The italic pass over the first `n` characters: its output and whether a tag is open. */
  function Italic(s: string, n: nat): (string, bool)
    requires n <= |s|
  {
    if n == 0 then ("", false)
    else
      var (out, open) := Italic(s, n - 1);
      if Isolated(s, n - 1) then (out + (if open then "</i>" else "<i>"), !open)
      else (out + [s[n - 1]], open)
  }

  lemma {:induction false} ItalicPlain(s: string, lo: nat, hi: nat)
    requires lo <= hi <= |s| && '*' !in s[lo..hi]
    ensures Italic(s, hi) == (Italic(s, lo).0 + s[lo..hi], Italic(s, lo).1)
  {
    if lo < hi {
      assert s[lo..hi][hi - 1 - lo] == s[hi - 1] && s[lo..hi] == s[lo..hi - 1] + [s[hi - 1]];
      ItalicPlain(s, lo, hi - 1);
      var out := Italic(s, lo).0;
      assert out + (s[lo..hi - 1] + [s[hi - 1]]) == out + s[lo..hi - 1] + [s[hi - 1]];
    } else {
      assert Italic(s, lo).0 + s[lo..hi] == Italic(s, lo).0;
    }
  }

  function DropIsolated(s: string, n: nat): string
    requires n <= |s|
  {
    if n == 0 then "" else DropIsolated(s, n - 1) + if Isolated(s, n - 1) then "" else [s[n - 1]]
  }

  /** `s.replace(pattern, "")` */
  function Remove(s: string, pattern: string): string
    requires pattern != ""
  {
    if s == "" then ""
    else if pattern <= s then Remove(s[|pattern|..], pattern)
    else [s[0]] + Remove(s[1..], pattern)
  }

  // ---------- Links ----------

  datatype LinkStyle = Html | Slack | Plain

  function RenderLink(style: LinkStyle, text: string, url: string): string {
    match style
    case Html => "<a href=\"" + url + "\">" + text + "</a>"
    case Slack => "<" + url + "|" + text + ">"
    case Plain => text + " (" + url + ")"
  }

  /** Positions of the first '[', of the next "](" and of the ')' after it. */
  function FirstLink(s: string): (r: Option<(nat, nat, nat)>)
    ensures r.Some? ==> var (b, m, e) := r.value; b < m && m + 2 <= e < |s| && s[b] == '[' && s[m] == ']' && s[e] == ')'
  {
    match FindFrom(s, "[", 0)
    case None => None
    case Some(b) =>
      match FindFrom(s, "](", b)
      case None => None
      case Some(m) =>
        match FindFrom(s, ")", m + 2)
        case None => None
        case Some(e) =>
          LinkPositions(s, b, m, e);
          Some((b, m, e))
  }

  lemma {:induction false} LinkPositions(s: string, b: nat, m: nat, e: nat)
    requires FindFrom(s, "[", 0) == Some(b) && FindFrom(s, "](", b) == Some(m) && FindFrom(s, ")", m + 2) == Some(e)
    ensures b < m && m + 2 <= e < |s| && s[b] == '[' && s[m] == ']' && s[e] == ')'
  {
    FindFromFirst(s, "[", 0);
    FindFromFirst(s, "](", b);
    FindFromFirst(s, ")", m + 2);
    OccursOne(s, "[", b);
    OccursTwo(s, "](", m);
    OccursOne(s, ")", e);
  }

  function ReplaceLink(style: LinkStyle, s: string, at: (nat, nat, nat)): string
    requires at.0 < at.1 && at.1 + 2 <= at.2 < |s|
  {
    s[..at.0] + RenderLink(style, s[at.0 + 1..at.1], s[at.1 + 2..at.2]) + s[at.2 + 1..]
  }

  function Links(style: LinkStyle, s: string): string
    decreases Count(s, '[')
  {
    match FirstLink(s)
    case None => s
    case Some(at) =>
      LinkShrinks(style, s, at);
      Links(style, ReplaceLink(style, s, at))
  }

  lemma {:induction false} LinkShrinks(style: LinkStyle, s: string, at: (nat, nat, nat))
    requires at.0 < at.1 && at.1 + 2 <= at.2 < |s| && s[at.0] == '[' && s[at.1] == ']'
    ensures Count(ReplaceLink(style, s, at), '[') < Count(s, '[')
  {
    hide Count;
    var (b, m, e) := at;
    var a, t, u, z := s[..b], s[b + 1..m], s[m + 2..e], s[e + 1..];
    LinkSourceCount(s, b, m, e);
    RenderCount(style, t, u);
    CountConcat(a, RenderLink(style, t, u), '[');
    CountConcat(a + RenderLink(style, t, u), z, '[');
  }

  lemma {:induction false} LinkSourceCount(s: string, b: nat, m: nat, e: nat)
    requires b < m && m + 2 <= e < |s| && s[b] == '['
    ensures Count(s, '[') >=
      Count(s[..b], '[') + 1 + Count(s[b + 1..m], '[') + Count(s[m + 2..e], '[') + Count(s[e + 1..], '[')
  {
    CountAll("[", '[');
    hide Count;
    var a, t, x, u, y, z := s[..b], s[b + 1..m], s[m..m + 2], s[m + 2..e], s[e..e + 1], s[e + 1..];
    var inner := t + x + u + y;
    assert s[b + 1..e + 1] == inner;
    assert s == a + "[" + inner + "" + z;
    CountFive(a, "[", inner, "", z, '[');
    CountFive(t, x, u, y, "", '[');
    assert inner + "" == inner;
  }

  lemma {:induction false} RenderCount(style: LinkStyle, text: string, url: string)
    ensures Count(RenderLink(style, text, url), '[') == Count(text, '[') + Count(url, '[')
  {
    match style
    case Html =>
      NoBrackets(["<a href=\"", "\">", "</a>"]);
      hide Count;
      CountFive("<a href=\"", url, "\">", text, "</a>", '[');
    case Slack =>
      NoBrackets(["<", "|", ">"]);
      hide Count;
      CountFive("<", url, "|", text, ">", '[');
    case Plain =>
      NoBrackets([" (", ")", ""]);
      hide Count;
      CountFive(text, " (", url, ")", "", '[');
      assert text + " (" + url + ")" + "" == text + " (" + url + ")";
  }

  lemma {:induction false} NoBrackets(parts: seq<string>)
    requires |parts| == 3 && '[' !in parts[0] && '[' !in parts[1] && '[' !in parts[2]
    ensures Count(parts[0], '[') == 0 && Count(parts[1], '[') == 0 && Count(parts[2], '[') == 0
  {
    CountZero(parts[0], '[');
    CountZero(parts[1], '[');
    CountZero(parts[2], '[');
  }

  /** A bracket, later "](" and later still a closing parenthesis. */
  ghost predicate HasLink(s: string) {
    exists b, m, e :: 0 <= b < m && m + 2 <= e < |s| && s[b] == '[' && OccursAt(s, "](", m) && s[e] == ')'
  }

  lemma {:induction false} FirstLinkComplete(s: string)
    ensures FirstLink(s).None? ==> !HasLink(s)
  {
    if HasLink(s) {
      var b, m, e :| 0 <= b < m && m + 2 <= e < |s| && s[b] == '[' && OccursAt(s, "](", m) && s[e] == ')';
      LinkFound(s, b, m, e);
    }
  }

  lemma {:induction false} LinkFound(s: string, b: nat, m: nat, e: nat)
    requires b < m && m + 2 <= e < |s| && s[b] == '[' && OccursAt(s, "](", m) && s[e] == ')'
    ensures FirstLink(s).Some?
  {
    OccursOne(s, "[", b);
    OccursOne(s, ")", e);
    hide FindFrom, OccursAt;
    FoundBy(s, "[", 0, b);
    FoundBy(s, "](", FindFrom(s, "[", 0).value, m);
    FoundBy(s, ")", FindFrom(s, "](", FindFrom(s, "[", 0).value).value + 2, e);
  }

  lemma {:induction false} FoundBy(s: string, x: string, from: nat, at: nat)
    requires from <= at && OccursAt(s, x, at)
    ensures FindFrom(s, x, from).Some? && FindFrom(s, x, from).value <= at
  {
    FindFromFirst(s, x, from);
  }

  lemma {:induction false} LinksUnfold(style: LinkStyle, s: string, at: (nat, nat, nat))
    requires FirstLink(s) == Some(at)
    ensures Links(style, s) == Links(style, ReplaceLink(style, s, at))
  {
    hide FirstLink, ReplaceLink, Count;
  }

  lemma {:induction false} LinksStep(style: LinkStyle, s: string, b: nat, m: nat, e: nat)
    requires FindFrom(s, "[", 0) == Some(b) && FindFrom(s, "](", b) == Some(m) && FindFrom(s, ")", m + 2) == Some(e)
    ensures b < m && m + 2 <= e < |s|
    ensures Links(style, s) == Links(style, ReplaceLink(style, s, (b, m, e)))
    ensures Count(ReplaceLink(style, s, (b, m, e)), '[') < Count(s, '[')
  {
    hide Links, ReplaceLink, FindFrom, Count;
    LinkPositions(s, b, m, e);
    LinkShrinks(style, s, (b, m, e));
    LinksUnfold(style, s, (b, m, e));
  }

  lemma {:induction false} LinksDone(style: LinkStyle, s: string)
    requires FirstLink(s).None?
    ensures Links(style, s) == s && !HasLink(s)
  {
    FirstLinkComplete(s);
  }

  method RewriteLinks(style: LinkStyle, text: string) returns (result: string)
    ensures result == Links(style, text) && !HasLink(result)
  {
    hide Links, ReplaceLink, HasLink, Count, FindFrom;
    result := text;
    while true
      invariant Links(style, result) == Links(style, text)
      decreases Count(result, '[')
    {
      if FirstLink(result).None? { LinksDone(style, result); }
      var bracketStart := FindFrom(result, "[", 0);
      if bracketStart.None? { return; }
      var bracketEnd := FindFrom(result, "](", bracketStart.value);
      if bracketEnd.None? { return; }
      var parenEnd := FindFrom(result, ")", bracketEnd.value + 2);
      if parenEnd.None? { return; }
      LinksStep(style, result, bracketStart.value, bracketEnd.value, parenEnd.value);
      result := ReplaceLink(style, result, (bracketStart.value, bracketEnd.value, parenEnd.value));
    }
  }

  // ---------- The three formats ----------

  lemma {:induction false} MarkersShrink()
    ensures Shrinking("**", "<b>", "</b>") && Shrinking("**", "*", "*") && Shrinking("`", "<code>", "</code>")
  {
    CountZero("<b>", '*');
    CountZero("</b>", '*');
    CountZero("<code>", '`');
    CountZero("</code>", '`');
    CountAll("*", '*');
  }

  function Bold(text: string): string {
    MarkersShrink();
    Pairs(text, "**", "<b>", "</b>")
  }

  function Code(text: string): string {
    MarkersShrink();
    Pairs(text, "`", "<code>", "</code>")
  }

  function TelegramHtml(text: string): string {
    var bold := Bold(text);
    Links(Html, Code(Italic(bold, |bold|).0))
  }

  function SlackMrkdwn(text: string): string {
    MarkersShrink();
    Links(Slack, Pairs(text, "**", "*", "*"))
  }

  function StripMarkers(s: string): string {
    if s == "" then ""
    else StripMarkers(s[..|s| - 1]) + if s[|s| - 1] in {'*', '`'} then "" else [s[|s| - 1]]
  }

  method MarkdownToTelegramHtml(text: string) returns (result: string)
    ensures result == TelegramHtml(text) && !HasLink(result)
  {
    MarkersShrink();
    var chars := RewritePairs(text, "**", "<b>", "</b>");
    var out, i, inItalic := "", 0, false;
    while i < |chars|
      invariant i <= |chars| && (out, inItalic) == Italic(chars, i)
    {
      if chars[i] == '*' && (i == 0 || chars[i - 1] != '*') && (i + 1 >= |chars| || chars[i + 1] != '*') {
        if inItalic { out := out + "</i>"; } else { out := out + "<i>"; }
        inItalic := !inItalic;
      } else {
        out := out + [chars[i]];
      }
      i := i + 1;
    }
    result := RewritePairs(out, "`", "<code>", "</code>");
    result := RewriteLinks(Html, result);
  }

  method MarkdownToSlackMrkdwn(text: string) returns (result: string)
    ensures result == SlackMrkdwn(text) && !HasLink(result)
  {
    MarkersShrink();
    result := RewritePairs(text, "**", "*", "*");
    result := RewriteLinks(Slack, result);
  }

  /** In plain-text mode the three passes together delete every '*' and every backtick. */
  method MarkdownToPlain(text: string) returns (result: string)
    ensures result == Links(Plain, StripMarkers(text)) && !HasLink(result)
  {
    var chars := Remove(text, "**");
    var out := "";
    for i := 0 to |chars|
      invariant out == DropIsolated(chars, i)
    {
      if chars[i] == '*' && (i == 0 || chars[i - 1] != '*') && (i + 1 >= |chars| || chars[i + 1] != '*') {
        continue;
      }
      out := out + [chars[i]];
    }
    result := Remove(out, "`");
    ThreePassesStrip(text);
    result := RewriteLinks(Plain, result);
  }

  // ---------- Plain text ----------

  function Without(s: string, c: char): string {
    if s == "" then "" else Without(s[..|s| - 1], c) + if s[|s| - 1] == c then "" else [s[|s| - 1]]
  }

  lemma {:induction false} WithoutConcat(a: string, b: string, c: char)
    ensures Without(a + b, c) == Without(a, c) + Without(b, c)
  {
    if b == "" {
      assert a + b == a;
    } else {
      assert (a + b)[..|a + b| - 1] == a + b[..|b| - 1];
      WithoutConcat(a, b[..|b| - 1], c);
    }
  }

  lemma {:induction false} WithoutOne(x: char, c: char)
    ensures Without([x], c) == if x == c then "" else [x]
  {
    assert [x][..0] == "";
  }

  ghost predicate NoAdjacentStars(s: string) {
    forall i :: 0 <= i < |s| - 1 ==> !(s[i] == '*' && s[i + 1] == '*')
  }

  /** Removing "**" from left to right leaves no two adjacent asterisks and every other character. */
  lemma {:induction false} RemoveDoubleStars(s: string)
    ensures var r := Remove(s, "**");
      && NoAdjacentStars(r) && Without(r, '*') == Without(s, '*')
      && (r != "" && r[0] == '*' ==> s != "" && s[0] == '*')
  {
    if s != "" {
      if "**" <= s {
        RemoveDoubleStars(s[2..]);
        assert s == "**" + s[2..];
        WithoutTwoStars(s[2..]);
      } else {
        var rest := Remove(s[1..], "**");
        RemoveDoubleStars(s[1..]);
        assert s == [s[0]] + s[1..];
        WithoutConcat([s[0]], s[1..], '*');
        WithoutConcat([s[0]], rest, '*');
        hide Without;
        if s[0] == '*' && rest != "" && rest[0] == '*' {
          assert false;
        }
      }
    }
  }

  lemma {:induction false} WithoutTwoStars(s: string)
    ensures Without("**" + s, '*') == Without(s, '*')
  {
    WithoutConcat("**", s, '*');
    WithoutOne('*', '*');
    WithoutConcat("*", "*", '*');
    assert "*" + "*" == "**";
  }

  lemma {:induction false} RemoveBackticks(s: string)
    ensures Remove(s, "`") == Without(s, '`')
  {
    if s != "" {
      RemoveBackticks(s[1..]);
      assert s == [s[0]] + s[1..];
      WithoutConcat([s[0]], s[1..], '`');
      WithoutOne(s[0], '`');
    }
  }

  lemma {:induction false} DropIsolatedStars(s: string, n: nat)
    requires NoAdjacentStars(s) && n <= |s|
    ensures DropIsolated(s, n) == Without(s[..n], '*')
  {
    if n > 0 {
      DropIsolatedStars(s, n - 1);
      assert s[..n][..n - 1] == s[..n - 1];
      assert s[n - 1] == '*' ==> Isolated(s, n - 1);
    }
  }

  lemma {:induction false} StripIsWithout(s: string)
    ensures Without(Without(s, '*'), '`') == StripMarkers(s)
  {
    if s != "" {
      var init, c := s[..|s| - 1], s[|s| - 1];
      StripIsWithout(init);
      var kept := if c == '*' then "" else [c];
      WithoutConcat(Without(init, '*'), kept, '`');
      WithoutOne(c, '`');
    }
  }

  lemma {:induction false} ThreePassesStrip(text: string)
    ensures var chars := Remove(text, "**");
      Remove(DropIsolated(chars, |chars|), "`") == StripMarkers(text)
  {
    var chars := Remove(text, "**");
    RemoveDoubleStars(text);
    DropIsolatedStars(chars, |chars|);
    assert chars[..|chars|] == chars;
    RemoveBackticks(Without(chars, '*'));
    StripIsWithout(text);
  }

  // ---------- What the link loops do to a document ----------

  datatype Piece = Words(words: string) | Link(text: string, url: string)

  predicate PlainPiece(p: Piece) {
    match p
    case Words(w) => '[' !in w
    case Link(t, u) => '[' !in t && FindFrom(t, "](", 0).None? && '[' !in u && ')' !in u
  }

  function Source(doc: seq<Piece>): string {
    if doc == [] then ""
    else (match doc[0] case Words(w) => w case Link(t, u) => "[" + t + "](" + u + ")") + Source(doc[1..])
  }

  function Rendered(style: LinkStyle, doc: seq<Piece>): string {
    if doc == [] then ""
    else
      (match doc[0]
       case Words(w) => w
       case Link(t, u) =>
         match style
         case Html => "<a href=\"" + u + "\">" + t + "</a>"
         case Slack => "<" + u + "|" + t + ">"
         case Plain => t + " (" + u + ")") + Rendered(style, doc[1..])
  }

  /** Every link of a document is rendered once, in place, and everything else is kept. */
  lemma {:induction false} LinksRenderDocument(style: LinkStyle, doc: seq<Piece>)
    requires forall i :: 0 <= i < |doc| ==> PlainPiece(doc[i])
    ensures Links(style, Source(doc)) == Rendered(style, doc)
  {
    if doc != [] {
      var rest := Source(doc[1..]);
      LinksRenderDocument(style, doc[1..]);
      match doc[0]
      case Words(w) =>
        LinksSkip(style, w, rest);
      case Link(t, u) =>
        LinkIsFirst(t, u, rest);
        var s := "[" + t + "](" + u + ")" + rest;
        var at := FirstLink(s).value;
        assert ReplaceLink(style, s, at) == RenderLink(style, t, u) + rest by { LinkParts(style, t, u, rest); }
        CountZero(t, '[');
        CountZero(u, '[');
        RenderCount(style, t, u);
        CountZero(RenderLink(style, t, u), '[');
        LinksSkip(style, RenderLink(style, t, u), rest);
    }
  }

  lemma {:induction false} LinkAlone(style: LinkStyle, t: string, u: string)
    requires PlainPiece(Link(t, u))
    ensures Links(style, "[" + t + "](" + u + ")") ==
      match style
      case Html => "<a href=\"" + u + "\">" + t + "</a>"
      case Slack => "<" + u + "|" + t + ">"
      case Plain => t + " (" + u + ")"
  {
    var doc := [Link(t, u)];
    LinksRenderDocument(style, doc);
    assert doc[1..] == [];
    hide Links;
    assert Source(doc) == "[" + t + "](" + u + ")";
    assert Rendered(style, doc) == Rendered(style, doc) + "";
  }

  lemma {:induction false} LinkParts(style: LinkStyle, t: string, u: string, rest: string)
    ensures var s := "[" + t + "](" + u + ")" + rest;
      ReplaceLink(style, s, (0, |t| + 1, |t| + 3 + |u|)) == RenderLink(style, t, u) + rest
  {
    hide RenderLink;
    var m, e := |t| + 1, |t| + 3 + |u|;
    var s := "[" + t + "](" + u + ")" + rest;
    assert s[..0] == "" && s[1..m] == t && s[m + 2..e] == u && s[e + 1..] == rest;
    assert "" + RenderLink(style, t, u) + rest == RenderLink(style, t, u) + rest;
  }

  lemma {:induction false} OccursTwo(s: string, x: string, q: nat)
    requires |x| == 2
    ensures OccursAt(s, x, q) <==> q + 1 < |s| && s[q] == x[0] && s[q + 1] == x[1]
  {
    if q + 1 < |s| { assert s[q..q + 2] == [s[q], s[q + 1]] && x == [x[0], x[1]]; }
  }

  lemma {:induction false} FirstIs(s: string, x: string, from: nat, at: nat)
    requires from <= at && OccursAt(s, x, at) && forall q :: from <= q < at ==> !OccursAt(s, x, q)
    ensures FindFrom(s, x, from) == Some(at)
  {
    FindFromFirst(s, x, from);
  }

  lemma {:induction false} FirstCharIs(s: string, x: string, from: nat, at: nat)
    requires |x| == 1 && from <= at < |s| && s[at] == x[0] && forall q :: from <= q < at ==> s[q] != x[0]
    ensures FindFrom(s, x, from) == Some(at)
  {
    OccursOne(s, x, at);
    forall q | from <= q < at ensures !OccursAt(s, x, q) { OccursOne(s, x, q); }
    FirstIs(s, x, from, at);
  }

  lemma {:induction false} LinkIsFirst(t: string, u: string, rest: string)
    requires FindFrom(t, "](", 0).None? && ')' !in u
    ensures FirstLink("[" + t + "](" + u + ")" + rest) == Some((0, |t| + 1, |t| + 3 + |u|))
  {
    hide FindFrom;
    var s := "[" + t + "](" + u + ")" + rest;
    FirstCharIs(s, "[", 0, 0);
    MiddleIsFirst(t, "(" + u + ")" + rest);
    SameLink(t, u, rest);
    ClosingIsFirst("[" + t + "](", u, rest);
  }

  lemma {:induction false} SameLink(t: string, u: string, rest: string)
    ensures "[" + t + "](" + u + ")" + rest == "[" + t + "]" + ("(" + u + ")" + rest)
  {
  }

  lemma {:induction false} ClosingIsFirst(head: string, u: string, rest: string)
    requires ')' !in u
    ensures FindFrom(head + u + ")" + rest, ")", |head|) == Some(|head| + |u|)
  {
    hide FindFrom;
    var s, from := head + u + ")" + rest, |head|;
    assert forall q :: from <= q < from + |u| ==> s[q] == u[q - from];
    FirstCharIs(s, ")", from, from + |u|);
  }

  lemma {:induction false} MiddleIsFirst(t: string, z: string)
    requires FindFrom(t, "](", 0).None? && z != "" && z[0] == '('
    ensures FindFrom("[" + t + "]" + z, "](", 0) == Some(|t| + 1)
  {
    var s := "[" + t + "]" + z;
    FindFromFirst(t, "](", 0);
    OccursTwo(s, "](", |t| + 1);
    forall q | 0 <= q < |t| + 1 ensures !OccursAt(s, "](", q) {
      OccursTwo(s, "](", q);
      if 0 < q < |t| {
        OccursTwo(t, "](", q - 1);
        assert s[q] == t[q - 1] && s[q + 1] == t[q];
      }
    }
    FirstIs(s, "](", 0, |t| + 1);
  }

  /** For every text: its first link, from the first '[' over the next "](" to the next ')', becomes an
      anchor with the address in it, or the form of Slack or of plain text, and rewriting goes on. */
  lemma {:induction false} FirstLinkRewritten(style: LinkStyle, a: string, t: string, u: string, z: string)
    requires '[' !in a && (forall q :: !OccursAt(t, "](", q)) && ')' !in u
    ensures Links(style, a + ("[" + t + "](" + u + ")" + z)) ==
      match style
      case Html => Links(style, a + ("<a href=\"" + u + "\">" + t + "</a>") + z)
      case Slack => Links(style, a + ("<" + u + "|" + t + ">") + z)
      case Plain => Links(style, a + (t + " (" + u + ")") + z)
  {
    var s, form := "[" + t + "](" + u + ")" + z, RenderLink(style, t, u);
    FindFromFirst(t, "](", 0);
    LinkIsFirst(t, u, z);
    OneLinkSkip(style, a, s);
    LinkParts(style, t, u, z);
    FormIs(style, t, u);
    hide Links, FirstLink, ReplaceLink, FindFrom, RenderLink, OccursAt;
    assert a + (form + z) == a + form + z;
  }

  lemma {:induction false} FormIs(style: LinkStyle, t: string, u: string)
    ensures RenderLink(style, t, u) ==
      match style
      case Html => "<a href=\"" + u + "\">" + t + "</a>"
      case Slack => "<" + u + "|" + t + ">"
      case Plain => t + " (" + u + ")"
  {
  }

  /** A text without a link is left alone. */
  lemma {:induction false} NoLinkKept(style: LinkStyle, s: string)
    requires !HasLink(s)
    ensures Links(style, s) == s
  {
    FirstLinkIsLink(s);
  }

  lemma {:induction false} FirstLinkIsLink(s: string)
    ensures FirstLink(s).Some? ==> HasLink(s)
  {
    if FirstLink(s).Some? {
      var (b, m, e) := FirstLink(s).value;
      FindFromFirst(s, "](", b);
      assert OccursAt(s, "](", m);
    }
  }

  /** Text without an opening bracket in front of a string is left alone. */
  lemma {:induction false} LinksSkip(style: LinkStyle, p: string, s: string)
    requires '[' !in p
    ensures Links(style, p + s) == p + Links(style, s)
    decreases Count(s, '[')
  {
    FirstLinkShifted(p, s);
    if FirstLink(s).Some? {
      var at := FirstLink(s).value;
      var next := ReplaceLink(style, s, at);
      LinkShrinks(style, s, at);
      OneLinkSkip(style, p, s);
      hide Links, FirstLink, ReplaceLink, Count;
      LinksSkip(style, p, next);
    }
  }

  lemma {:induction false} OneLinkSkip(style: LinkStyle, p: string, s: string)
    requires '[' !in p && FirstLink(s).Some?
    ensures var next := ReplaceLink(style, s, FirstLink(s).value);
      Links(style, s) == Links(style, next) && Links(style, p + s) == Links(style, p + next)
  {
    hide Links, FirstLink, ReplaceLink, Count;
    var at := FirstLink(s).value;
    FirstLinkShifted(p, s);
    ReplaceLinkShifted(style, p, s, at);
    LinksUnfold(style, s, at);
    LinksUnfold(style, p + s, (|p| + at.0, |p| + at.1, |p| + at.2));
  }

  lemma {:induction false} ReplaceLinkShifted(style: LinkStyle, p: string, s: string, at: (nat, nat, nat))
    requires at.0 < at.1 && at.1 + 2 <= at.2 < |s|
    ensures ReplaceLink(style, p + s, (|p| + at.0, |p| + at.1, |p| + at.2)) == p + ReplaceLink(style, s, at)
  {
    hide RenderLink;
    var i, j, k := |p| + at.0, |p| + at.1, |p| + at.2;
    assert (p + s)[..i] == p + s[..at.0];
    assert (p + s)[i + 1..j] == s[at.0 + 1..at.1];
    assert (p + s)[j + 2..k] == s[at.1 + 2..at.2];
    assert (p + s)[k + 1..] == s[at.2 + 1..];
  }

  lemma {:induction false} FirstLinkShifted(p: string, s: string)
    requires '[' !in p
    ensures FirstLink(p + s) ==
            match FirstLink(s) case None => None case Some(at) => Some((|p| + at.0, |p| + at.1, |p| + at.2))
  {
    hide FindFrom, OccursAt;
    BracketShifted(p, s);
    var b := FindFrom(s, "[", 0);
    if b.Some? {
      FindShifted(p, s, "](", b.value);
      var m := FindFrom(s, "](", b.value);
      if m.Some? { FindShifted(p, s, ")", m.value + 2); }
    }
  }

  lemma {:induction false} BracketShifted(p: string, s: string)
    requires '[' !in p
    ensures FindFrom(p + s, "[", 0) == match FindFrom(s, "[", 0) case None => None case Some(k) => Some(|p| + k)
  {
    forall q | 0 <= q < |p| ensures !OccursAt(p + s, "[", q) {
      OccursOne(p + s, "[", q);
      assert (p + s)[q] == p[q];
    }
    FindFromLater(p + s, "[", 0, |p|);
    FindShifted(p, s, "[", 0);
  }

  lemma {:induction false} FindFromLater(s: string, pat: string, from: nat, later: nat)
    requires from <= later && forall q :: from <= q < later ==> !OccursAt(s, pat, q)
    ensures FindFrom(s, pat, from) == FindFrom(s, pat, later)
    decreases later - from
  {
    if from < later {
      assert !OccursAt(s, pat, from);
      FindFromLater(s, pat, from + 1, later);
    }
  }

  lemma {:induction false} FindShifted(p: string, s: string, pat: string, from: nat)
    ensures FindFrom(p + s, pat, |p| + from) ==
            match FindFrom(s, pat, from) case None => None case Some(k) => Some(|p| + k)
    decreases |s| - from
  {
    if from + |pat| <= |s| {
      assert (p + s)[|p| + from..|p| + from + |pat|] == s[from..from + |pat|];
      FindShifted(p, s, pat, from + 1);
    }
  }

  // ---------- What the pair loops do to a document ----------

  datatype Span = Bare(words: string) | Marked(inner: string)

  predicate PlainSpan(p: Span, c: char) {
    match p case Bare(w) => c !in w case Marked(t) => c !in t
  }

  function SpanSource(doc: seq<Span>, marker: string): string {
    if doc == [] then ""
    else (match doc[0] case Bare(w) => w case Marked(t) => marker + t + marker) + SpanSource(doc[1..], marker)
  }

  function SpanRendered(doc: seq<Span>, open: string, close: string): string {
    if doc == [] then ""
    else (match doc[0] case Bare(w) => w case Marked(t) => open + t + close) + SpanRendered(doc[1..], open, close)
  }

  /** Every marked span of a document gets its tags around its own text, and everything else is kept. */
  lemma {:induction false} PairsRenderDocument(doc: seq<Span>, marker: string, open: string, close: string)
    requires Shrinking(marker, open, close) && marker[0] !in open && marker[0] !in close
    requires forall i :: 0 <= i < |doc| ==> PlainSpan(doc[i], marker[0])
    ensures Pairs(SpanSource(doc, marker), marker, open, close) == SpanRendered(doc, open, close)
  {
    if doc != [] {
      var rest := SpanSource(doc[1..], marker);
      PairsRenderDocument(doc[1..], marker, open, close);
      match doc[0]
      case Bare(w) =>
        ApartIfAbsent(w, marker);
        PairsSkip(w, rest, marker, open, close);
      case Marked(t) =>
        FirstPair(t, rest, marker, open, close);
        hide Pairs;
        ApartIfAbsent(open + t + close, marker);
        PairsSkip(open + t + close, rest, marker, open, close);
    }
  }

  lemma {:induction false} MarkerStarts(s: string, marker: string, q: nat)
    requires marker != "" && OccursAt(s, marker, q)
    ensures s[q] == marker[0]
  {
    assert s[q..q + |marker|][0] == s[q];
  }

  lemma {:induction false} FirstPair(t: string, rest: string, marker: string, open: string, close: string)
    requires Shrinking(marker, open, close) && marker[0] !in t
    ensures Pairs(marker + t + marker + rest, marker, open, close)
      == Pairs(open + t + close + rest, marker, open, close)
  {
    var s, m := marker + t + marker + rest, |marker|;
    FirstPairFound(t, rest, marker);
    PairsUnfold(s, marker, open, close, 0, m + |t|);
    hide Pairs, Count, FindFrom, OccursAt, ReplacePair, Shrinking;
    ReplaceFirst(t, rest, marker, open, close);
  }

  lemma {:induction false} ReplaceFirst(t: string, rest: string, marker: string, open: string, close: string)
    ensures var m := |marker|;
      ReplacePair(marker + t + marker + rest, marker, open, close, 0, m + |t|) == open + t + close + rest
  {
    var s, m := marker + t + marker + rest, |marker|;
    assert s[..0] == "" && s[m..m + |t|] == t && s[m + |t| + m..] == rest;
    assert "" + open + t + close + rest == open + t + close + rest;
  }

  lemma {:induction false} FirstPairFound(t: string, rest: string, marker: string)
    requires marker != "" && marker[0] !in t
    ensures var s := marker + t + marker + rest;
      FindFrom(s, marker, 0) == Some(0) && FindFrom(s, marker, |marker|) == Some(|marker| + |t|)
  {
    var s, m := marker + t + marker + rest, |marker|;
    assert s[0..m] == marker && s[m + |t|..m + |t| + m] == marker;
    forall q | m <= q < m + |t| ensures !OccursAt(s, marker, q) {
      if OccursAt(s, marker, q) { MarkerStarts(s, marker, q); }
    }
    hide FindFrom;
    FirstIs(s, marker, 0, 0);
    FirstIs(s, marker, m, m + |t|);
  }

  /** A marker may begin at position `q` of `p`, and end there or in what follows. */
  ghost predicate Begins(p: string, marker: string, q: nat) {
    forall k :: 0 <= k < |marker| && q + k < |p| ==> p[q + k] == marker[k]
  }

  /** No marker begins in `p`, whatever follows it. */
  ghost predicate Apart(p: string, marker: string) {
    forall q: nat :: q < |p| ==> !Begins(p, marker, q)
  }

  lemma {:induction false} ApartIfAbsent(p: string, marker: string)
    requires marker != "" && marker[0] !in p
    ensures Apart(p, marker)
  {
    forall q: nat | q < |p| ensures !Begins(p, marker, q) { assert p[q + 0] != marker[0]; }
  }

  lemma {:induction false} BeginsTwo(p: string, x: string, q: nat)
    requires |x| == 2 && q < |p|
    ensures Begins(p, x, q) <==> p[q] == x[0] && (q + 1 < |p| ==> p[q + 1] == x[1])
  {
    assert Begins(p, x, q) ==> p[q + 0] == x[0] && (q + 1 < |p| ==> p[q + 1] == x[1]);
  }

  lemma {:induction false} ApartStars(p: string)
    requires NoAdjacentStars(p) && p != "" && p[|p| - 1] != '*'
    ensures Apart(p, "**")
  {
    forall q: nat | q < |p| ensures !Begins(p, "**", q) {
      BeginsTwo(p, "**", q);
    }
  }

  /** Text in which no marker begins is left alone in front of any other. */
  lemma {:induction false} PairsSkip(p: string, s: string, marker: string, open: string, close: string)
    requires Shrinking(marker, open, close) && Apart(p, marker)
    ensures Pairs(p + s, marker, open, close) == p + Pairs(s, marker, open, close)
    decreases Count(s, marker[0])
  {
    hide Pairs, Count, FindFrom, ReplacePair, Apart;
    MarkerShifted(p, s, marker);
    var i := FindFrom(s, marker, 0);
    if i.Some? { FindShifted(p, s, marker, i.value + |marker|); }
    if i.None? || FindFrom(s, marker, i.value + |marker|).None? {
      PairsDone(s, marker, open, close);
      PairsDone(p + s, marker, open, close);
    } else {
      var j := FindFrom(s, marker, i.value + |marker|);
      OnePairSkip(p, s, marker, open, close, i.value, j.value);
      PairsSkip(p, ReplacePair(s, marker, open, close, i.value, j.value), marker, open, close);
    }
  }

  /** For every text: its first two markers become the opening and the closing tag, in this order, and
      rewriting goes on. */
  lemma {:induction false} FirstPairRewritten(a: string, t: string, z: string,
      marker: string, open: string, close: string)
    requires Shrinking(marker, open, close) && Apart(a, marker) && Apart(t, marker)
    ensures Pairs(a + marker + t + marker + z, marker, open, close) ==
      Pairs(a + open + t + close + z, marker, open, close)
  {
    var s, m := a + marker + t + marker + z, |marker|;
    FirstTwoMarkers(a, t, z, marker);
    hide FindFrom, Pairs, Apart, Count;
    PairsUnfold(s, marker, open, close, |a|, |a| + m + |t|);
    PairCut(a, t, z, marker, open, close);
  }

  lemma {:induction false} FirstTwoMarkers(a: string, t: string, z: string, marker: string)
    requires marker != "" && Apart(a, marker) && Apart(t, marker)
    ensures var s := a + marker + t + marker + z;
      FindFrom(s, marker, 0) == Some(|a|) && FindFrom(s, marker, |a| + |marker|) == Some(|a| + |marker| + |t|)
  {
    var s, x := a + marker + t + marker + z, t + (marker + z);
    hide FindFrom, Apart;
    MarkerAfter(a, x, marker);
    MarkerAfter(t, z, marker);
    FindShifted(a + marker, x, marker, 0);
    assert s == a + (marker + x) && s == (a + marker) + x;
  }

  lemma {:induction false} MarkerAfter(p: string, x: string, marker: string)
    requires marker != "" && Apart(p, marker)
    ensures FindFrom(p + (marker + x), marker, 0) == Some(|p|)
  {
    MarkerShifted(p, marker + x, marker);
    MarkerAtStart(x, marker);
  }

  lemma {:induction false} MarkerAtStart(rest: string, marker: string)
    requires marker != ""
    ensures FindFrom(marker + rest, marker, 0) == Some(0)
  {
    assert (marker + rest)[0..|marker|] == marker;
  }

  lemma {:induction false} PairCut(a: string, t: string, z: string, marker: string, open: string, close: string)
    ensures var s, m := a + marker + t + marker + z, |marker|;
      ReplacePair(s, marker, open, close, |a|, |a| + m + |t|) == a + open + t + close + z
  {
    var s, m := a + marker + t + marker + z, |marker|;
    assert s[..|a|] == a && s[|a| + m..|a| + m + |t|] == t && s[|a| + m + |t| + m..] == z;
  }

  /** A text with fewer than two disjoint markers is left alone. */
  lemma {:induction false} NoPairKept(s: string, marker: string, open: string, close: string)
    requires Shrinking(marker, open, close)
    requires !exists p, q :: p + |marker| <= q && OccursAt(s, marker, p) && OccursAt(s, marker, q)
    ensures Pairs(s, marker, open, close) == s
  {
    hide Pairs, FindFrom;
    FindFromFirst(s, marker, 0);
    var i := FindFrom(s, marker, 0);
    if i.Some? { FindFromFirst(s, marker, i.value + |marker|); }
    PairsDone(s, marker, open, close);
  }

  lemma {:induction false} PairsDone(s: string, marker: string, open: string, close: string)
    requires Shrinking(marker, open, close)
    requires var i := FindFrom(s, marker, 0); i.None? || FindFrom(s, marker, i.value + |marker|).None?
    ensures Pairs(s, marker, open, close) == s
  {
  }

  lemma {:induction false} OnePairSkip(p: string, s: string, marker: string,
      open: string, close: string, i: nat, j: nat)
    requires Shrinking(marker, open, close)
    requires FindFrom(s, marker, 0) == Some(i) && FindFrom(s, marker, i + |marker|) == Some(j)
    requires FindFrom(p + s, marker, 0) == Some(|p| + i) && FindFrom(p + s, marker, |p| + i + |marker|) == Some(|p| + j)
    ensures i + |marker| <= j && j + |marker| <= |s|
    ensures var next := ReplacePair(s, marker, open, close, i, j);
      && Pairs(s, marker, open, close) == Pairs(next, marker, open, close)
      && Pairs(p + s, marker, open, close) == Pairs(p + next, marker, open, close)
      && Count(next, marker[0]) < Count(s, marker[0])
  {
    hide Pairs, Count, FindFrom, ReplacePair;
    PairsUnfold(s, marker, open, close, i, j);
    PairsUnfold(p + s, marker, open, close, |p| + i, |p| + j);
    ReplaceShifted(p, s, marker, open, close, i, j);
  }

  lemma {:induction false} ReplaceShifted(p: string, s: string, marker: string,
      open: string, close: string, i: nat, j: nat)
    requires i + |marker| <= j && j + |marker| <= |s|
    ensures ReplacePair(p + s, marker, open, close, |p| + i, |p| + j) == p + ReplacePair(s, marker, open, close, i, j)
  {
    var m := |marker|;
    assert (p + s)[..|p| + i] == p + s[..i];
    assert (p + s)[|p| + i + m..|p| + j] == s[i + m..j];
    assert (p + s)[|p| + j + m..] == s[j + m..];
  }

  lemma {:induction false} MarkerShifted(p: string, s: string, marker: string)
    requires marker != "" && Apart(p, marker)
    ensures FindFrom(p + s, marker, 0) == match FindFrom(s, marker, 0) case None => None case Some(k) => Some(|p| + k)
  {
    forall q | 0 <= q < |p| ensures !OccursAt(p + s, marker, q) {
      if OccursAt(p + s, marker, q) {
        var found := (p + s)[q..q + |marker|];
        assert forall k :: 0 <= k < |marker| ==> found[k] == (p + s)[q + k];
        assert Begins(p, marker, q);
      }
    }
    FindFromLater(p + s, marker, 0, |p|);
    FindShifted(p, s, marker, 0);
  }

  // ---------- Slack ----------

  /** The Slack bold loop changes nothing but asterisks, for every input. */
  lemma {:induction false} SlackBoldKeepsText(s: string)
    ensures Shrinking("**", "*", "*") && Without(Pairs(s, "**", "*", "*"), '*') == Without(s, '*')
    decreases Count(s, '*')
  {
    MarkersShrink();
    hide Pairs, Count, FindFrom, Without, ReplacePair;
    var i := FindFrom(s, "**", 0);
    if i.Some? && FindFrom(s, "**", i.value + 2).Some? {
      var j := FindFrom(s, "**", i.value + 2).value;
      PairsUnfold(s, "**", "*", "*", i.value, j);
      PairKeepsText(s, i.value, j);
      SlackBoldKeepsText(ReplacePair(s, "**", "*", "*", i.value, j));
    } else {
      PairsDone(s, "**", "*", "*");
    }
  }

  lemma {:induction false} PairKeepsText(s: string, i: nat, j: nat)
    requires OccursAt(s, "**", i) && OccursAt(s, "**", j) && i + 2 <= j
    ensures Without(ReplacePair(s, "**", "*", "*", i, j), '*') == Without(s, '*')
  {
    hide Without;
    SplitAtPair(s, "**", i, j);
    WithoutPair(s[..i], "**", s[i + 2..j], s[j + 2..]);
    WithoutPair(s[..i], "*", s[i + 2..j], s[j + 2..]);
  }

  lemma {:induction false} WithoutPair(a: string, x: string, m: string, z: string)
    requires x == "*" || x == "**"
    ensures Without(a + x + m + x + z, '*') == Without(a, '*') + Without(m, '*') + Without(z, '*')
  {
    assert Without(x, '*') == "" by {
      WithoutOne('*', '*');
      WithoutConcat("*", "*", '*');
      assert "*" + "*" == "**";
    }
    hide Without;
    WithoutConcat(a, x, '*');
    WithoutConcat(a + x, m, '*');
    WithoutConcat(a + x + m, x, '*');
    WithoutConcat(a + x + m + x, z, '*');
  }

  // ---------- Texts without brackets ----------

  lemma {:induction false} NoLinks(style: LinkStyle, s: string)
    requires '[' !in s
    ensures Links(style, s) == s
  {
    forall q: nat ensures !OccursAt(s, "[", q) { OccursOne(s, "[", q); }
    FindFromFirst(s, "[", 0);
  }

  lemma {:induction false} PairsAddNoBracket(s: string, marker: string, open: string, close: string)
    requires Shrinking(marker, open, close) && '[' !in s && '[' !in open && '[' !in close
    ensures '[' !in Pairs(s, marker, open, close)
    decreases Count(s, marker[0])
  {
    var i := FindFrom(s, marker, 0);
    if i.Some? {
      var j := FindFrom(s, marker, i.value + |marker|);
      if j.Some? {
        PairsUnfold(s, marker, open, close, i.value, j.value);
        hide Pairs, Count;
        ReplaceAddsNoBracket(s, marker, open, close, i.value, j.value);
        hide ReplacePair;
        PairsAddNoBracket(ReplacePair(s, marker, open, close, i.value, j.value), marker, open, close);
      }
    }
  }

  lemma {:induction false} ReplaceAddsNoBracket(s: string, marker: string, open: string, close: string, i: nat, j: nat)
    requires i + |marker| <= j && j + |marker| <= |s| && '[' !in s && '[' !in open && '[' !in close
    ensures '[' !in ReplacePair(s, marker, open, close, i, j)
  {
  }
}
