/** Where the Slack bold loop puts the asterisks. Its output uses the character its marker is made of,
    so a rendered span can pair up again with a later one. */
module SlackBolds {
  import opened Text
  import opened Formatter

  /** The pieces of a document that hold any text; an empty bold span is written "****" and stays. */
  function Pieces(doc: seq<Span>): seq<Span> {
    if doc == [] then [] else (if doc[0] == Bare("") then [] else [doc[0]]) + Pieces(doc[1..])
  }

  predicate NothingMarked(doc: seq<Span>) {
    forall i :: 0 <= i < |doc| ==> !doc[i].Marked?
  }

  /** The marked span at `i` is empty or touches the one before it. */
  predicate Fragile(doc: seq<Span>, i: nat) {
    i < |doc| && doc[i].Marked? && (doc[i].inner == "" || (i > 0 && doc[i - 1].Marked?))
  }

  /** After a marked span that is empty or touches the one before it no marked span follows. */
  predicate SlackSafe(doc: seq<Span>) {
    forall i: nat :: i < |doc| && Fragile(doc, i) ==> NothingMarked(doc[i + 1..])
  }

  /** The same for what follows a marked span. */
  predicate SafeAfterMarked(doc: seq<Span>) {
    SlackSafe(doc) && (doc != [] && doc[0].Marked? ==> NothingMarked(doc[1..]))
  }

  predicate NormalSpan(p: Span) {
    PlainSpan(p, '*') && p != Bare("")
  }

  ghost predicate Normal(doc: seq<Span>) {
    forall i :: 0 <= i < |doc| ==> NormalSpan(doc[i])
  }

  function SlackBold(s: string): string {
    MarkersShrink();
    Pairs(s, "**", "*", "*")
  }

  /** The Slack bold loop renders every marked span of a document with its single asterisks in place,
      if and only if no marked span that is empty or touches the one before it is followed by another. */
  lemma {:induction false} SlackRendersDocumentIff(doc: seq<Span>)
    requires forall i :: 0 <= i < |doc| ==> PlainSpan(doc[i], '*')
    ensures SlackBold(SpanSource(doc, "**")) == SpanRendered(doc, "*", "*") <==> SlackSafe(Pieces(doc))
  {
    PiecesSame(doc);
    hide *;
    PiecesRenderIff(Pieces(doc));
  }

  lemma {:induction false} PiecesSame(doc: seq<Span>)
    requires forall i :: 0 <= i < |doc| ==> PlainSpan(doc[i], '*')
    ensures Normal(Pieces(doc))
    ensures SpanSource(Pieces(doc), "**") == SpanSource(doc, "**")
    ensures SpanRendered(Pieces(doc), "*", "*") == SpanRendered(doc, "*", "*")
  {
    if doc != [] {
      PiecesSame(doc[1..]);
      if doc[0] != Bare("") {
        assert Pieces(doc)[1..] == Pieces(doc[1..]);
      } else {
        assert Pieces(doc) == Pieces(doc[1..]);
      }
    }
  }

  lemma {:induction false} PiecesRenderIff(doc: seq<Span>)
    requires Normal(doc)
    ensures SlackBold(SpanSource(doc, "**")) == SpanRendered(doc, "*", "*") <==> SlackSafe(doc)
    decreases |doc|, 0
  {
    if doc == [] {
      StarsDone("");
    } else {
      var rest := doc[1..];
      SafeStep(doc);
      hide SlackBold, SlackSafe, SafeAfterMarked, NothingMarked;
      match doc[0]
      case Bare(w) =>
        PiecesRenderIff(rest);
        StarsSkip(w, SpanSource(rest, "**"));
        PrependIff(w, SlackBold(SpanSource(rest, "**")), SpanRendered(rest, "*", "*"));
      case Marked(t) =>
        if t == "" {
          EmptyMarkedIff(rest);
        } else {
          AfterMarkedIff(rest);
          OpeningMarkedIff(t, SpanSource(rest, "**"), SpanRendered(rest, "*", "*"));
        }
    }
  }

  /** A marked span that touches none before it is rendered at once. */
  lemma {:induction false} OpeningMarkedIff(t: string, source: string, rendered: string)
    requires t != "" && '*' !in t
    ensures SlackBold("**" + t + "**" + source) == "*" + t + "*" + rendered
      <==> SlackBold("*" + source) == "*" + rendered
  {
    FirstSlackPair(t, source);
    hide SlackBold;
    assert "*" + t + "*" + source == ("*" + t) + ("*" + source);
    StarsSkip("*" + t, "*" + source);
    PrependIff("*" + t, SlackBold("*" + source), "*" + rendered);
    assert "*" + t + "*" + rendered == "*" + t + ("*" + rendered);
  }

  /** An empty marked span leaves its two asterisks; they stay only if nothing marked follows. */
  lemma {:induction false} EmptyMarkedIff(rest: seq<Span>)
    requires Normal(rest)
    ensures SlackBold("**" + "" + "**" + SpanSource(rest, "**")) == "*" + "" + "*" + SpanRendered(rest, "*", "*")
      <==> NothingMarked(rest)
  {
    FirstSlackPair("", SpanSource(rest, "**"));
    hide SlackBold;
    assert "*" + "" + "*" == "**";
    TwoStars(rest);
    StarsLeft(rest, "**");
  }

  lemma {:induction false} PrependIff(p: string, a: string, b: string)
    ensures p + a == p + b <==> a == b
  {
    assert (p + a)[|p|..] == a && (p + b)[|p|..] == b;
  }

  /** What follows the closing asterisk of a rendered span. */
  lemma {:induction false} AfterMarkedIff(doc: seq<Span>)
    requires Normal(doc)
    ensures SlackBold("*" + SpanSource(doc, "**")) == "*" + SpanRendered(doc, "*", "*") <==> SafeAfterMarked(doc)
    decreases |doc|, 1
  {
    if doc == [] {
      StarsDone("*");
      assert "*" + "" == "*";
    } else {
      var rest := doc[1..];
      SafeStep(doc);
      hide SlackBold, SlackSafe, SafeAfterMarked, NothingMarked;
      match doc[0]
      case Bare(w) =>
        PiecesRenderIff(rest);
        BareAfterMarkedIff(w, SpanSource(rest, "**"), SpanRendered(rest, "*", "*"));
      case Marked(t) =>
        TouchingMarkedIff(t, rest);
        assert "**" + t + "**" + SpanSource(rest, "**") == SpanSource(doc, "**");
    }
  }

  lemma {:induction false} BareAfterMarkedIff(w: string, source: string, rendered: string)
    requires w != "" && '*' !in w
    ensures SlackBold("*" + (w + source)) == "*" + (w + rendered) <==> SlackBold(source) == rendered
  {
    hide SlackBold;
    assert "*" + (w + source) == ("*" + w) + source && "*" + (w + rendered) == "*" + w + rendered;
    StarsSkip("*" + w, source);
    PrependIff("*" + w, SlackBold(source), rendered);
  }

  /** A marked span that touches the one before it: its stars pair up one place early, which shows
      only if another pair follows. */
  lemma {:induction false} TouchingMarkedIff(t: string, rest: seq<Span>)
    requires '*' !in t && Normal(rest)
    ensures SlackBold("*" + ("**" + t + "**" + SpanSource(rest, "**")))
      == "*" + ("*" + t + "*" + SpanRendered(rest, "*", "*"))
      <==> NothingMarked(rest)
  {
    hide SlackBold, NothingMarked;
    if t == "" {
      FiveStars(SpanSource(rest, "**"));
      ThreeStars(rest);
      StarsLeft(rest, "***");
      assert "*" + ("*" + "" + "*" + SpanRendered(rest, "*", "*")) == "***" + SpanRendered(rest, "*", "*");
    } else {
      TouchingPair(t, SpanSource(rest, "**"));
      if NothingMarked(rest) { TouchingLast(t, rest); } else { TouchingBefore(t, rest); }
    }
  }

  lemma {:induction false} TouchingLast(t: string, rest: seq<Span>)
    requires t != "" && '*' !in t && NothingMarked(rest) && Normal(rest)
    ensures SlackBold("**" + (t + "*" + SpanSource(rest, "**"))) == "*" + ("*" + t + "*" + SpanRendered(rest, "*", "*"))
  {
    hide SlackBold;
    OnlyBare(rest);
    var z := SpanSource(rest, "**");
    OneDoubleStarDone(t + "*" + z);
    assert "**" + (t + "*" + z) == "*" + ("*" + t + "*" + z);
  }

  lemma {:induction false} TouchingBefore(t: string, rest: seq<Span>)
    requires t != "" && '*' !in t && !NothingMarked(rest)
    ensures SlackBold("**" + (t + "*" + SpanSource(rest, "**"))) != "*" + ("*" + t + "*" + SpanRendered(rest, "*", "*"))
  {
    hide SlackBold, NothingMarked;
    var source := SpanSource(rest, "**");
    var q := MarkedSomewhere(rest);
    OccursLater(t + "*", source, q);
    var tail := LaterPair(t + "*" + source, |t| + 1 + q);
    var a, b := "*" + (t + "*" + source)[..1] + tail, "*" + ("*" + t + "*" + SpanRendered(rest, "*", "*"));
    assert a[1] == t[0] && b[1] == '*';
  }

  // ---------- Asterisks in front of a document ----------

  /** Two asterisks in front: the second is gone, or no further one is left. */
  lemma {:induction false} TwoStars(rest: seq<Span>)
    requires Normal(rest)
    ensures var r := SlackBold("**" + SpanSource(rest, "**"));
      && |r| >= 2 && (r[1] != '*' || '*' !in r[2..])
      && (NothingMarked(rest) ==> r == "**" + SpanSource(rest, "**"))
    decreases |rest|
  {
    var source := SpanSource(rest, "**");
    if NothingMarked(rest) {
      OnlyBare(rest);
      StarsThenBare("**", source);
    } else {
      hide SlackBold, NothingMarked;
      var more := rest[1..];
      match rest[0]
      case Bare(w) =>
        MarkedLater(rest);
        var q := MarkedSomewhere(more);
        OccursLater(w, SpanSource(more, "**"), q);
        var tail := LaterPair(source, |w| + q);
      case Marked(t) =>
        FourStars(t, SpanSource(more, "**"));
        if t == "" {
          TwoStars(more);
        } else {
          var tail := RenderedFirst(t, SpanSource(more, "**"));
        }
    }
  }

  /** Three asterisks in front: the second or the third is gone, or no further one is left. */
  lemma {:induction false} ThreeStars(rest: seq<Span>)
    requires Normal(rest)
    ensures var r := SlackBold("***" + SpanSource(rest, "**"));
      && |r| >= 2 && (r[1] != '*' || (|r| >= 3 && (r[2] != '*' || '*' !in r[3..])))
      && (NothingMarked(rest) ==> r == "***" + SpanSource(rest, "**"))
    decreases |rest|
  {
    var source := SpanSource(rest, "**");
    if NothingMarked(rest) {
      OnlyBare(rest);
      StarsThenBare("***", source);
    } else {
      hide SlackBold, NothingMarked;
      var more := rest[1..];
      match rest[0]
      case Bare(w) =>
        MarkedLater(rest);
        var q := MarkedSomewhere(more);
        OccursLater(w, SpanSource(more, "**"), q);
        ThreeThenText(source, |w| + q);
      case Marked(t) =>
        if t == "" {
          SevenStars(SpanSource(more, "**"));
          ThreeStars(more);
        } else {
          ThreeThenMarked(t, SpanSource(more, "**"));
        }
    }
  }

  lemma {:induction false} ThreeThenMarked(t: string, source: string)
    requires t != "" && '*' !in t
    ensures var r := SlackBold("***" + ("**" + t + "**" + source));
      |r| >= 2 && (r[1] != '*' || (|r| >= 3 && r[2] != '*'))
  {
    var inner := "*" + ("**" + t + "**" + source);
    FirstSlackPair("", "*" + t + "**" + source);
    hide SlackBold;
    assert "**" + "" + "**" + ("*" + t + "**" + source) == "***" + ("**" + t + "**" + source);
    assert "*" + "" + "*" + ("*" + t + "**" + source) == inner;
    TouchingPair(t, source);
    TwoThenText(t + "*" + source);
  }

  /** With a marked span left the asterisks in front cannot all stay. */
  lemma {:induction false} StarsLeft(rest: seq<Span>, stars: string)
    requires Normal(rest) && (stars == "**" || stars == "***")
    ensures NothingMarked(rest) ==> SpanRendered(rest, "*", "*") == SpanSource(rest, "**")
    ensures !NothingMarked(rest) ==> var r := stars + SpanRendered(rest, "*", "*");
      r[1] == '*' && r[|stars| - 1] == '*' && '*' in r[|stars|..]
  {
    if NothingMarked(rest) {
      OnlyBare(rest);
    } else {
      StarRendered(rest);
      assert (stars + SpanRendered(rest, "*", "*"))[|stars|..] == SpanRendered(rest, "*", "*");
    }
  }

  lemma {:induction false} StarRendered(doc: seq<Span>)
    requires !NothingMarked(doc)
    ensures '*' in SpanRendered(doc, "*", "*")
  {
    match doc[0]
    case Marked(t) => assert SpanRendered(doc, "*", "*")[0] == '*';
    case Bare(w) =>
      MarkedLater(doc);
      StarRendered(doc[1..]);
  }

  lemma {:induction false} MarkedLater(doc: seq<Span>)
    requires !NothingMarked(doc) && !doc[0].Marked?
    ensures !NothingMarked(doc[1..])
  {
    var i :| 0 <= i < |doc| && doc[i].Marked?;
    assert doc[1..][i - 1] == doc[i];
  }

  lemma {:induction false} StarsThenBare(stars: string, s: string)
    requires (stars == "**" || stars == "***") && '*' !in s
    ensures SlackBold(stars + s) == stars + s && (stars + s)[|stars|..] == s
  {
    var x := stars + s;
    OccursTwo(x, "**", 0);
    FirstIs(x, "**", 0, 0);
    forall q: nat | 2 <= q ensures !OccursAt(x, "**", q) { OccursTwo(x, "**", q); }
    FindFromFirst(x, "**", 2);
    MarkersShrink();
    PairsDone(x, "**", "*", "*");
  }

  /** Two asterisks in front of a marked span close its opening pair. */
  lemma {:induction false} FourStars(t: string, source: string)
    requires '*' !in t
    ensures SlackBold("**" + ("**" + t + "**" + source)) == SlackBold("**" + t + "**" + source)
    ensures t == "" ==> SlackBold("**" + t + "**" + source) == SlackBold("**" + source)
  {
    FirstSlackPair("", t + "**" + source);
    FirstSlackPair(t, source);
    hide SlackBold;
    assert "**" + "" + "**" + (t + "**" + source) == "**" + ("**" + t + "**" + source);
    assert "*" + "" + "*" + (t + "**" + source) == "**" + t + "**" + source;
    assert t == "" ==> "*" + t + "*" + source == "**" + source;
  }

  lemma {:induction false} FiveStars(source: string)
    ensures SlackBold("*" + ("**" + "" + "**" + source)) == SlackBold("***" + source)
  {
    FirstSlackPair("", "*" + source);
    hide SlackBold;
    assert "**" + "" + "**" + ("*" + source) == "*" + ("**" + "" + "**" + source);
    assert "*" + "" + "*" + ("*" + source) == "***" + source;
  }

  lemma {:induction false} SevenStars(source: string)
    ensures SlackBold("***" + ("**" + "" + "**" + source)) == SlackBold("***" + source)
  {
    FirstSlackPair("", "***" + source);
    FiveStars(source);
    hide SlackBold;
    assert "**" + "" + "**" + ("***" + source) == "***" + ("**" + "" + "**" + source);
    assert "*" + "" + "*" + ("***" + source) == "*" + ("**" + "" + "**" + source);
  }

  lemma {:induction false} RenderedFirst(t: string, source: string) returns (tail: string)
    requires t != "" && '*' !in t
    ensures SlackBold("**" + t + "**" + source) == "*" + t + tail
  {
    FirstSlackPair(t, source);
    hide SlackBold;
    assert "*" + t + "*" + source == ("*" + t) + ("*" + source);
    StarsSkip("*" + t, "*" + source);
    tail := SlackBold("*" + source);
  }

  lemma {:induction false} OccursLater(p: string, s: string, q: nat)
    requires OccursAt(s, "**", q)
    ensures OccursAt(p + s, "**", |p| + q)
  {
    assert (p + s)[|p| + q..|p| + q + 2] == s[q..q + 2];
  }

  /** With a later pair, two asterisks in front close on it: the text follows a single star. */
  lemma {:induction false} LaterPair(y: string, at: nat) returns (tail: string)
    requires y != "" && y[0] != '*' && OccursAt(y, "**", at)
    ensures SlackBold("**" + y) == "*" + y[..1] + tail
  {
    hide SlackBold, FindFrom;
    var x := "**" + y;
    var j := PairInText("**", y, at);
    SlackUnfold(x, 0, j);
    var more := x[3..j] + "*" + x[j + 2..];
    assert x[..0] == "" && x[2..j] == y[..1] + x[3..j];
    assert ReplacePair(x, "**", "*", "*", 0, j) == ("*" + y[..1]) + more;
    StarsSkip("*" + y[..1], more);
    tail := SlackBold(more);
  }

  /** The first pair of two or three asterisks and a text ends in the text. */
  lemma {:induction false} PairInText(stars: string, y: string, at: nat) returns (j: nat)
    requires (stars == "**" || stars == "***") && y != "" && y[0] != '*' && OccursAt(y, "**", at)
    ensures var x := stars + y;
      FindFrom(x, "**", 0) == Some(0) && FindFrom(x, "**", 2) == Some(j) && |stars| < j && j + 2 <= |x|
  {
    var x, k := stars + y, |stars| + at;
    OccursLater(stars, y, at);
    OccursTwo(x, "**", 0);
    FirstIs(x, "**", 0, 0);
    FindFromFirst(x, "**", 2);
    j := FindFrom(x, "**", 2).value;
    OccursTwo(x, "**", j);
    assert x[|stars|] == y[0];
  }

  lemma {:induction false} ThreeThenText(y: string, at: nat)
    requires y != "" && y[0] != '*' && OccursAt(y, "**", at)
    ensures var r := SlackBold("***" + y); |r| >= 2 && (r[1] != '*' || (|r| >= 3 && r[2] != '*'))
  {
    hide SlackBold, FindFrom;
    var x := "***" + y;
    var j := PairInText("***", y, at);
    SlackUnfold(x, 0, j);
    var z := x[3..j] + "*" + x[j + 2..];
    assert x[..0] == "" && x[2..j] == "*" + x[3..j];
    assert ReplacePair(x, "**", "*", "*", 0, j) == "**" + z;
    TwoThenText(z);
  }

  lemma {:induction false} TwoThenText(z: string)
    requires z != "" && z[0] != '*'
    ensures var r := SlackBold("**" + z); |r| >= 2 && (r[1] != '*' || (|r| >= 3 && r[2] != '*'))
  {
    FindFromFirst(z, "**", 0);
    var at := FindFrom(z, "**", 0);
    if at.Some? {
      var tail := LaterPair(z, at.value);
    } else {
      var x := "**" + z;
      OccursTwo(x, "**", 0);
      FirstIs(x, "**", 0, 0);
      FindShifted("**", z, "**", 0);
      MarkersShrink();
      PairsDone(x, "**", "*", "*");
    }
  }

  /** `s` has no two adjacent asterisks. */
  lemma {:induction false} StarsDone(s: string)
    requires NoAdjacentStars(s)
    ensures SlackBold(s) == s
  {
    NoDoubleStar(s);
    MarkersShrink();
    PairsDone(s, "**", "*", "*");
  }

  lemma {:induction false} NoDoubleStar(s: string)
    requires NoAdjacentStars(s)
    ensures FindFrom(s, "**", 0).None?
  {
    forall q: nat ensures !OccursAt(s, "**", q) { OccursTwo(s, "**", q); }
    FindFromFirst(s, "**", 0);
  }

  lemma {:induction false} OneDoubleStarDone(s: string)
    requires NoAdjacentStars(s) && s != "" && s[0] != '*'
    ensures SlackBold("**" + s) == "**" + s
  {
    var x := "**" + s;
    OccursTwo(x, "**", 0);
    FirstIs(x, "**", 0, 0);
    forall q: nat | 2 <= q ensures !OccursAt(x, "**", q) { OccursTwo(x, "**", q); }
    FindFromFirst(x, "**", 2);
    MarkersShrink();
    PairsDone(x, "**", "*", "*");
  }

  /** No pair starts in a text without adjacent asterisks that does not end in one. */
  lemma {:induction false} StarsSkip(p: string, s: string)
    requires NoAdjacentStars(p) && p != "" && p[|p| - 1] != '*'
    ensures SlackBold(p + s) == p + SlackBold(s)
  {
    MarkersShrink();
    ApartStars(p);
    PairsSkip(p, s, "**", "*", "*");
  }

  lemma {:induction false} FirstSlackPair(t: string, rest: string)
    requires '*' !in t
    ensures SlackBold("**" + t + "**" + rest) == SlackBold("*" + t + "*" + rest)
  {
    MarkersShrink();
    FirstPair(t, rest, "**", "*", "*");
  }

  /** Three asterisks in a row: the first two open, and the third joins the span. */
  lemma {:induction false} TouchingPair(t: string, rest: string)
    requires '*' !in t && t != ""
    ensures SlackBold("*" + ("**" + t + "**" + rest)) == SlackBold("**" + (t + "*" + rest))
  {
    hide SlackBold, FindFrom, ReplacePair;
    var x := "**" + ("*" + t) + "**" + rest;
    PairAfterStar(t, rest);
    SlackUnfold(x, 0, 3 + |t|);
    ReplaceFirst("*" + t, rest, "**", "*", "*");
    TouchingTexts(t, rest);
  }

  lemma {:induction false} TouchingTexts(t: string, rest: string)
    ensures "*" + ("**" + t + "**" + rest) == "**" + ("*" + t) + "**" + rest
    ensures "*" + ("*" + t) + "*" + rest == "**" + (t + "*" + rest)
  {
  }

  lemma {:induction false} SlackUnfold(s: string, i: nat, j: nat)
    requires FindFrom(s, "**", 0) == Some(i) && FindFrom(s, "**", i + 2) == Some(j)
    ensures i + 2 <= j && j + 2 <= |s|
    ensures SlackBold(s) == SlackBold(ReplacePair(s, "**", "*", "*", i, j))
  {
    MarkersShrink();
    PairsUnfold(s, "**", "*", "*", i, j);
    hide Pairs, ReplacePair, FindFrom, Shrinking;
  }

  lemma {:induction false} PairAfterStar(t: string, rest: string)
    requires '*' !in t && t != ""
    ensures var x := "**" + ("*" + t) + "**" + rest;
      FindFrom(x, "**", 0) == Some(0) && FindFrom(x, "**", 2) == Some(3 + |t|)
  {
    var x := "**" + ("*" + t) + "**" + rest;
    OccursTwo(x, "**", 0);
    OccursTwo(x, "**", 3 + |t|);
    forall q | 2 <= q < 3 + |t| ensures !OccursAt(x, "**", q) {
      OccursTwo(x, "**", q);
      assert q > 2 ==> x[q] == t[q - 3];
      assert x[3] == t[0];
    }
    FirstIs(x, "**", 0, 0);
    FirstIs(x, "**", 2, 3 + |t|);
  }

  lemma {:induction false} OnlyBare(doc: seq<Span>)
    requires NothingMarked(doc) && Normal(doc)
    ensures SpanSource(doc, "**") == SpanRendered(doc, "*", "*") && '*' !in SpanSource(doc, "**")
  {
    if doc != [] { OnlyBare(doc[1..]); }
  }

  lemma {:induction false} MarkedSomewhere(doc: seq<Span>) returns (q: nat)
    requires !NothingMarked(doc)
    ensures OccursAt(SpanSource(doc, "**"), "**", q)
  {
    var rest := SpanSource(doc[1..], "**");
    match doc[0]
    case Marked(t) =>
      q := 0;
      assert ("**" + t + "**" + rest)[..2] == "**";
    case Bare(w) =>
      MarkedLater(doc);
      var k := MarkedSomewhere(doc[1..]);
      q := |w| + k;
      assert (w + rest)[q..q + 2] == rest[k..k + 2];
  }

  /** Peeling off the first piece. */
  lemma {:induction false} SafeStep(doc: seq<Span>)
    requires doc != []
    ensures SlackSafe(doc) <==>
      if doc[0].Bare? then SlackSafe(doc[1..])
      else if doc[0].inner == "" then NothingMarked(doc[1..])
      else SafeAfterMarked(doc[1..])
    ensures SafeAfterMarked(doc) <==> if doc[0].Marked? then NothingMarked(doc[1..]) else SlackSafe(doc[1..])
  {
    var rest := doc[1..];
    SafeTail(doc);
    if SlackSafe(doc) {
      if Fragile(doc, 0) { assert NothingMarked(doc[0 + 1..]); }
      if |doc| > 1 && Fragile(doc, 1) { assert doc[1 + 1..] == rest[1..]; }
    }
    if SlackSafe(rest) && (Fragile(doc, 0) ==> NothingMarked(rest))
       && (|doc| > 1 && Fragile(doc, 1) ==> NothingMarked(rest[1..])) {
      forall i: nat | i < |doc| && Fragile(doc, i) ensures NothingMarked(doc[i + 1..]) {
        if i >= 1 { assert doc[i + 1..] == rest[i..]; }
        if i > 1 { assert Fragile(rest, i - 1) && NothingMarked(rest[i - 1 + 1..]); }
      }
    }
    if NothingMarked(rest) { NothingMarkedSafe(rest); }
    if rest != [] && Fragile(rest, 0) && SlackSafe(rest) { assert NothingMarked(rest[0 + 1..]); }
  }

  lemma {:induction false} SafeTail(doc: seq<Span>)
    requires doc != []
    ensures SlackSafe(doc) ==> SlackSafe(doc[1..])
  {
    var rest := doc[1..];
    if SlackSafe(doc) {
      forall i: nat | i < |rest| && Fragile(rest, i) ensures NothingMarked(rest[i + 1..]) {
        assert Fragile(doc, i + 1) && rest[i + 1..] == doc[i + 1 + 1..];
      }
    }
  }

  lemma {:induction false} NothingMarkedSafe(doc: seq<Span>)
    requires NothingMarked(doc)
    ensures SlackSafe(doc)
  {
  }

  /** For a document without brackets the whole Slack conversion does so. */
  lemma {:induction false} SlackMrkdwnRendersIff(doc: seq<Span>)
    requires forall i :: 0 <= i < |doc| ==> PlainSpan(doc[i], '*')
    requires '[' !in SpanSource(doc, "**")
    ensures SlackMrkdwn(SpanSource(doc, "**")) == SpanRendered(doc, "*", "*") <==> SlackSafe(Pieces(doc))
  {
    MarkersShrink();
    PairsAddNoBracket(SpanSource(doc, "**"), "**", "*", "*");
    NoLinks(Slack, SlackBold(SpanSource(doc, "**")));
    SlackRendersDocumentIff(doc);
  }

  /** Three touching bold spans come out as one, with the inner asterisks single. */
  lemma {:induction false} SlackWitness()
    ensures SlackBold("**a****b****c**") == "*a*b*c*"
  {
    var tail := "**b****c**";
    hide SlackBold;
    FirstSlackPair("a", tail);
    assert "**" + "a" + "**" + tail == "**a****b****c**" && "*" + "a" + "*" + tail == "*a" + ("*" + tail);
    StarsSkip("*a", "*" + tail);
    TouchingPair("b", "**c**");
    assert "*" + ("**" + "b" + "**" + "**c**") == "*" + tail && "**" + ("b" + "*" + "**c**") == "**b***c**";
    FirstSlackPair("b", "*c**");
    assert "**" + "b" + "**" + "*c**" == "**b***c**" && "*" + "b" + "*" + "*c**" == "*b" + "**c**";
    StarsSkip("*b", "**c**");
    FirstSlackPair("c", "");
    assert "**" + "c" + "**" + "" == "**c**" && "*" + "c" + "*" + "" == "*c*";
    StarsDone("*c*");
  }

  /** An empty bold span takes the asterisks of the next one. */
  lemma {:induction false} EmptyBoldWitness()
    ensures SlackBold("****x**c**") == "*x*c**"
  {
    hide SlackBold;
    FirstSlackPair("", "x**c**");
    assert "**" + "" + "**" + "x**c**" == "****x**c**" && "*" + "" + "*" + "x**c**" == "**" + "x" + "**" + "c**";
    FirstSlackPair("x", "c**");
    assert "*" + "x" + "*" + "c**" == "*x*c" + "**";
    StarsSkip("*x*c", "**");
    StarsThenBare("**", "");
    assert "**" + "" == "**";
  }

  /** Links are rewritten last: the first two of three markers pair up across the link. */
  lemma {:induction false} SlackLinksComeLast()
    ensures SlackMrkdwn("[**a](**b**)") == "<*b**|*a>"
  {
    OneBoldPair("[**a](**b**)", "[*a](*b**)");
    hide SlackBold, SlackMrkdwn, Links;
    StarLink();
    SlackIsBoldThenLinks("[**a](**b**)");
  }

  lemma {:induction false} SlackIsBoldThenLinks(text: string)
    ensures SlackMrkdwn(text) == Links(Slack, SlackBold(text))
  {
    hide Pairs, Links;
  }

  lemma {:induction false} StarLink()
    ensures Links(Slack, "[*a](*b**)") == "<*b**|*a>"
  {
    var t, u := "*a", "*b**";
    forall q: nat ensures !OccursAt(t, "](", q) { OccursTwo(t, "](", q); }
    FindFromFirst(t, "](", 0);
    hide Links, FindFrom;
    LinkAlone(Slack, t, u);
    StarLinkTexts(t, u);
  }

  lemma {:induction false} StarLinkTexts(t: string, u: string)
    requires t == "*a" && u == "*b**"
    ensures "[" + t + "](" + u + ")" == "[*a](*b**)" && "<" + u + "|" + t + ">" == "<*b**|*a>"
  {
  }

  lemma {:induction false} OneBoldPair(s: string, bold: string)
    requires s == "[**a](**b**)" && bold == "[*a](*b**)"
    ensures SlackBold(s) == bold
  {
    MarkersShrink();
    hide Pairs;
    ApartIfAbsent("[", "**");
    ApartIfAbsent("a](", "**");
    FirstPairRewritten("[", "a](", "b**)", "**", "*", "*");
    assert "[" + "**" + "a](" + "**" + "b**)" == s && "[" + "*" + "a](" + "*" + "b**)" == bold;
    forall q: nat ensures OccursAt(bold, "**", q) <==> q == 7 { OccursTwo(bold, "**", q); }
    NoPairKept(bold, "**", "*", "*");
  }
}
