/** The line-oriented `secrets.env` file, and the map it stands for. */
module SecretsFile {
  import opened Text

  // ---------- Reading lines ----------

  /** A terminated line loses its "\n" or "\r\n"; an unterminated last line is kept as it is. */
  function StripEol(line: string): string {
    if line == "" || line[|line| - 1] != '\n' then line
    else if |line| >= 2 && line[|line| - 2] == '\r' then line[..|line| - 2]
    else line[..|line| - 1]
  }

  function StripAll(lines: seq<string>): seq<string> {
    if lines == [] then [] else StripAll(lines[..|lines| - 1]) + [StripEol(lines[|lines| - 1])]
  }

  /** `str::lines` */
  function StrLines(s: string): seq<string> {
    StripAll(SplitInclusive(s))
  }

  /** `lines.join("\n") + "\n"` */
  function Content(lines: seq<string>): string {
    if |lines| <= 1 then (if lines == [] then "" else lines[0]) + "\n"
    else Content(lines[..|lines| - 1]) + lines[|lines| - 1] + "\n"
  }

  function ReadFile(file: Option<string>): seq<string> {
    if file.Some? then StrLines(file.value) else []
  }

  predicate ClearLine(line: string) {
    '\n' !in line && (line != "" ==> line[|line| - 1] != '\r')
  }

  lemma {:induction false} StripAllConcat(a: seq<string>, b: seq<string>)
    ensures StripAll(a + b) == StripAll(a) + StripAll(b)
  {
    if b == [] {
      assert a + b == a;
    } else {
      assert (a + b)[..|a + b| - 1] == a + b[..|b| - 1];
      StripAllConcat(a, b[..|b| - 1]);
    }
  }

  /** A carriage return before a line end is read as part of it. */
  function StripReturn(line: string): string {
    if line != "" && line[|line| - 1] == '\r' then line[..|line| - 1] else line
  }

  function StripReturns(lines: seq<string>): seq<string> {
    if lines == [] then [] else StripReturns(lines[..|lines| - 1]) + [StripReturn(lines[|lines| - 1])]
  }

  ghost predicate NoNewlines(lines: seq<string>) {
    forall i :: 0 <= i < |lines| ==> '\n' !in lines[i]
  }

  ghost predicate AllClear(lines: seq<string>) {
    forall i :: 0 <= i < |lines| ==> ClearLine(lines[i])
  }

  lemma {:induction false} OneStripped(line: string)
    requires '\n' !in line
    ensures StrLines(line + "\n") == [StripReturn(line)]
  {
    OneLine(line);
    var l: string := line + "\n";
    assert StripAll([l]) == StripAll([]) + [StripEol(l)] by { assert [l][..0] == []; }
    assert l[..|line|] == line;
    assert line != "" ==> l[..|l| - 2] == line[..|line| - 1];
  }

  /** Lines written and read back lose the carriage returns they end in; none read back as one blank
      line. */
  lemma {:induction false} ContentReadsBack(lines: seq<string>)
    requires NoNewlines(lines)
    ensures StrLines(Content(lines)) == if lines == [] then [""] else StripReturns(lines)
    ensures var s := Content(lines); s != "" && s[|s| - 1] == '\n'
  {
    hide Content, StrLines;
    if |lines| <= 1 {
      ContentOfOne(lines);
    } else {
      var init, last := lines[..|lines| - 1], lines[|lines| - 1];
      assert lines == init + [last];
      ContentReadsBack(init);
      LineAppended(Content(init), last);
      LastLine(lines);
    }
  }

  lemma {:induction false} ContentOfOne(lines: seq<string>)
    requires |lines| <= 1 && NoNewlines(lines)
    ensures StrLines(Content(lines)) == if lines == [] then [""] else StripReturns(lines)
    ensures var s := Content(lines); s != "" && s[|s| - 1] == '\n'
  {
    var line := if lines == [] then "" else lines[0];
    OneStripped(line);
    assert Content(lines) == line + "\n";
    hide StrLines, Content;
    assert lines != [] ==> lines == [line] && lines[..0] == [];
  }

  lemma {:induction false} ReturnsKeptIff(lines: seq<string>)
    requires NoNewlines(lines)
    ensures |StripReturns(lines)| == |lines|
    ensures StripReturns(lines) == lines <==> AllClear(lines)
  {
    if lines != [] {
      var init, last := lines[..|lines| - 1], lines[|lines| - 1];
      assert lines == init + [last];
      ReturnsKeptIff(init);
      assert StripReturn(last) == last <==> ClearLine(last);
      var t := StripReturns(init);
      assert (t + [StripReturn(last)])[..|init|] == t && (t + [StripReturn(last)])[|init|] == StripReturn(last);
    }
  }

  /** Writing lines and reading them back gives the lines, or one blank line when there were none. */
  lemma {:induction false} ContentRoundTrip(lines: seq<string>)
    requires forall i :: 0 <= i < |lines| ==> ClearLine(lines[i])
    ensures StrLines(Content(lines)) == if lines == [] then [""] else lines
    ensures var s := Content(lines); s != "" && s[|s| - 1] == '\n'
  {
    ContentReadsBack(lines);
    ReturnsKeptIff(lines);
  }

  lemma {:induction false} LastLine(lines: seq<string>)
    requires |lines| > 1
    ensures Content(lines) == Content(lines[..|lines| - 1]) + lines[|lines| - 1] + "\n"
  {
  }

  lemma {:induction false} LineAppended(s: string, line: string)
    requires s != "" && s[|s| - 1] == '\n' && '\n' !in line
    ensures StrLines(s + line + "\n") == StrLines(s) + [StripReturn(line)]
  {
    assert s + line + "\n" == s + (line + "\n");
    SplitAtNewline(s, line + "\n");
    StripAllConcat(SplitInclusive(s), SplitInclusive(line + "\n"));
    OneStripped(line);
  }

  lemma {:induction false} StrLinesHaveNoNewline(s: string)
    ensures NoNewlines(StrLines(s))
  {
    SplitNewlinesLast(s);
    StripAllNoNewline(SplitInclusive(s));
  }

  ghost predicate NewlineOnlyLast(line: string) {
    line != "" && '\n' !in line[..|line| - 1]
  }

  lemma {:induction false} SplitNewlinesLast(s: string)
    ensures forall i :: 0 <= i < |SplitInclusive(s)| ==> NewlineOnlyLast(SplitInclusive(s)[i])
  {
    if s != "" {
      FirstLineShape(s);
      SplitNewlinesLast(s[LineEnd(s)..]);
    }
  }

  lemma {:induction false} FirstLineShape(s: string)
    requires s != ""
    ensures NewlineOnlyLast(s[..LineEnd(s)])
  {
    if s[0] != '\n' && |s| > 1 {
      FirstLineShape(s[1..]);
      var k := LineEnd(s);
      forall i | 0 <= i < k - 1 ensures s[i] != '\n' {
        if i > 0 { assert s[1..][..k - 1][..k - 2][i - 1] == s[i]; }
      }
    }
  }

  lemma {:induction false} StripAllNoNewline(lines: seq<string>)
    requires forall i :: 0 <= i < |lines| ==> NewlineOnlyLast(lines[i])
    ensures NoNewlines(StripAll(lines))
  {
    if lines != [] {
      var last := lines[|lines| - 1];
      StripAllNoNewline(lines[..|lines| - 1]);
      if last[|last| - 1] == '\n' && |last| >= 2 && last[|last| - 2] == '\r' {
        assert StripEol(last) == last[..|last| - 1][..|last| - 2];
      } else if last[|last| - 1] != '\n' {
        assert last == last[..|last| - 1] + [last[|last| - 1]];
      }
    }
  }

  // ---------- Writing and removing ----------

  function Without(lines: seq<string>, key: string): seq<string> {
    if lines == [] then []
    else
      var last := lines[|lines| - 1];
      Without(lines[..|lines| - 1], key) + if key + "=" <= last then [] else [last]
  }

  predicate ValidKey(key: string) {
    '\n' !in key && '\r' !in key && '=' !in key
  }

  predicate ValidValue(value: string) {
    '\n' !in value && '\r' !in value
  }

  datatype Outcome = Ok | InvalidInput

  class SecretsEnv {
    var file: Option<string>

    constructor (initial: Option<string>)
      ensures file == initial
    {
      file := initial;
    }

    method Write(key: string, value: string) returns (r: Outcome)
      modifies this
      ensures var invalid := '\n' in key || '\r' in key || '=' in key || '\n' in value || '\r' in value;
        r == if invalid then InvalidInput else Ok
      ensures file == if r.Ok? then Written(old(file), key, value) else old(file)
    {
      if '\n' in key || '\r' in key || '=' in key { return InvalidInput; }
      if '\n' in value || '\r' in value { return InvalidInput; }
      var lines := if file.Some? then StrLines(file.value) else [];
      lines := Retain(lines, key);
      lines := lines + [key + "=" + value];
      file := Some(Content(lines));
      return Ok;
    }

    method Remove(key: string)
      modifies this
      ensures file == Removed(old(file), key) && (old(file).None? ==> file.None?)
    {
      if file.None? { return; }
      var lines := Retain(StrLines(file.value), key);
      file := Some(Content(lines));
    }
  }

  /** One pass that drops the lines of a key. */
  method Retain(lines: seq<string>, key: string) returns (kept: seq<string>)
    ensures kept == Without(lines, key)
  {
    kept := [];
    assert lines[..0] == [];
    for i := 0 to |lines|
      invariant kept == Without(lines[..i], key)
    {
      assert lines[..i + 1][..i] == lines[..i];
      if !(key + "=" <= lines[i]) { kept := kept + [lines[i]]; }
    }
    assert lines[..|lines|] == lines;
  }

  function Written(file: Option<string>, key: string, value: string): Option<string> {
    if ValidKey(key) && ValidValue(value) then
      Some(Content(Without(ReadFile(file), key) + [key + "=" + value]))
    else file
  }

  function Removed(file: Option<string>, key: string): Option<string> {
    if file.None? then None else Some(Content(Without(ReadFile(file), key)))
  }

  // ---------- The file as a map ----------

  function KeyOf(line: string): Option<(string, string)> {
    match FindFrom(line, "=", 0)
    case None => None
    case Some(i) => if i < |line| then Some((line[..i], line[i + 1..])) else None
  }

  /** The stored entries in order: each line's text before and after its first '='. */
  function Entries(lines: seq<string>): seq<(string, string)> {
    if lines == [] then []
    else
      var e := KeyOf(lines[|lines| - 1]);
      Entries(lines[..|lines| - 1]) + if e.Some? then [e.value] else []
  }

  /** The first entry of a key wins. */
  function FirstOf(entries: seq<(string, string)>): map<string, string> {
    if entries == [] then map[]
    else
      var m, e := FirstOf(entries[..|entries| - 1]), entries[|entries| - 1];
      if e.0 in m then m else m[e.0 := e.1]
  }

  /** The map a file stands for. */
  function MapOf(lines: seq<string>): map<string, string> {
    FirstOf(Entries(lines))
  }

  /** What removing `key` drops: the entry of that key or, when the key itself contains '=', the
      entry of its part before the '=' whose value starts with its part after it and another '='. */
  predicate Hit(key: string, e: (string, string)) {
    match KeyOf(key)
    case None => e.0 == key
    case Some(k) => e.0 == k.0 && k.1 + "=" <= e.1
  }

  function Keep(entries: seq<(string, string)>, key: string): seq<(string, string)> {
    if entries == [] then []
    else
      var e := entries[|entries| - 1];
      Keep(entries[..|entries| - 1], key) + if Hit(key, e) then [] else [e]
  }

  /** The lines of a key. */
  function LinesOf(lines: seq<string>, key: string): seq<string> {
    if lines == [] then []
    else
      var last := lines[|lines| - 1];
      LinesOf(lines[..|lines| - 1], key) + if key + "=" <= last then [last] else []
  }

  function NonBlank(lines: seq<string>): seq<string> {
    if lines == [] then []
    else
      var last := lines[|lines| - 1];
      NonBlank(lines[..|lines| - 1]) + if last == "" then [] else [last]
  }

  lemma {:induction false} FirstEquals(key: string, rest: string)
    requires '=' !in key
    ensures FindFrom(key + "=" + rest, "=", 0) == Some(|key|)
  {
    var s := key + "=" + rest;
    FindFromFirst(s, "=", 0);
    assert OccursAt(s, "=", |key|) by { assert s[|key|..|key| + 1] == "="; }
    var r := FindFrom(s, "=", 0);
    assert r.Some? && r.value <= |key|;
    assert s[r.value..r.value + 1][0] == s[r.value];
  }

  /** A line starts with "key=" exactly when `key` is its text before the first '='. */
  lemma {:induction false} PrefixIsKey(line: string, key: string)
    requires '=' !in key
    ensures key + "=" <= line <==> KeyOf(line).Some? && KeyOf(line).value.0 == key
    ensures key + "=" <= line ==> KeyOf(line).value.1 == line[|key| + 1..]
  {
    if key + "=" <= line {
      var rest := line[|key| + 1..];
      assert line == key + "=" + rest;
      FirstEquals(key, rest);
      assert line[..|key|] == key;
    } else if KeyOf(line).Some? && KeyOf(line).value.0 == key {
      FindFromFirst(line, "=", 0);
    }
  }

  lemma {:induction false} Appended(lines: seq<string>, line: string, key: string)
    ensures Entries(lines + [line]) ==
      if KeyOf(line).Some? then Entries(lines) + [KeyOf(line).value] else Entries(lines)
    ensures LinesOf(lines + [line], key) ==
      if key + "=" <= line then LinesOf(lines, key) + [line] else LinesOf(lines, key)
    ensures NonBlank(lines + [line]) == if line == "" then NonBlank(lines) else NonBlank(lines) + [line]
    ensures Without(lines + [line], key) ==
      if key + "=" <= line then Without(lines, key) else Without(lines, key) + [line]
  {
    assert (lines + [line])[..|lines + [line]| - 1] == lines;
  }

  lemma {:induction false} KeyOfParts(line: string)
    ensures match KeyOf(line)
            case None => '=' !in line
            case Some(e) => '=' !in e.0 && line == e.0 + "=" + e.1
  {
    FindFromFirst(line, "=", 0);
    forall q: nat ensures OccursAt(line, "=", q) <==> q < |line| && line[q] == '=' { OccursOne(line, "=", q); }
    hide FindFrom, OccursAt;
    match FindFrom(line, "=", 0)
    case None =>
    case Some(i) => assert line == line[..i] + "=" + line[i + 1..];
  }

  /** A line starts with "key=" exactly when its entry is hit, whatever the key. */
  lemma {:induction false} PrefixIsHit(line: string, key: string)
    ensures key + "=" <= line <==> KeyOf(line).Some? && Hit(key, KeyOf(line).value)
  {
    KeyOfParts(key);
    KeyOfParts(line);
    match KeyOf(key)
    case None => PrefixIsKey(line, key);
    case Some(k) =>
      PrefixIsKey(line, k.0);
      assert key + "=" == (k.0 + "=") + (k.1 + "=");
      PrefixInTwo(k.0 + "=", k.1 + "=", line);
  }

  lemma {:induction false} PrefixInTwo(a: string, b: string, s: string)
    ensures a + b <= s <==> a <= s && b <= s[|a|..]
  {
    if a + b <= s { assert s[..|a|] == (a + b)[..|a|]; }
    if a <= s && b <= s[|a|..] { assert s == a + s[|a|..]; }
  }

  /** Dropping lines drops exactly the entries that are hit. */
  lemma {:induction false} EntriesWithout(lines: seq<string>, key: string)
    ensures Entries(Without(lines, key)) == Keep(Entries(lines), key)
  {
    if lines != [] {
      var init, last := lines[..|lines| - 1], lines[|lines| - 1];
      assert lines == init + [last];
      EntriesWithout(init, key);
      PrefixIsHit(last, key);
      hide Entries, LinesOf, Without, KeyOf, NonBlank, Hit;
      Appended(init, last, key);
      Appended(Without(init, key), last, key);
      if KeyOf(last).Some? { KeepLast(Entries(init), KeyOf(last).value, key); }
    }
  }

  lemma {:induction false} KeepLast(entries: seq<(string, string)>, e: (string, string), key: string)
    ensures Keep(entries + [e], key) == if Hit(key, e) then Keep(entries, key) else Keep(entries, key) + [e]
    ensures FirstOf(entries + [e]) == if e.0 in FirstOf(entries) then FirstOf(entries) else FirstOf(entries)[e.0 := e.1]
  {
    assert (entries + [e])[..|entries|] == entries;
  }

  lemma {:induction false} KeepMembers(entries: seq<(string, string)>, key: string)
    ensures forall e :: e in Keep(entries, key) <==> e in entries && !Hit(key, e)
  {
    if entries != [] {
      KeepMembers(entries[..|entries| - 1], key);
      assert entries == entries[..|entries| - 1] + [entries[|entries| - 1]];
    }
  }

  lemma {:induction false} FirstOfMembers(entries: seq<(string, string)>)
    ensures forall e :: e in entries ==> e.0 in FirstOf(entries)
    ensures forall k :: k in FirstOf(entries) ==> (k, FirstOf(entries)[k]) in entries
  {
    if entries != [] {
      FirstOfMembers(entries[..|entries| - 1]);
      assert entries == entries[..|entries| - 1] + [entries[|entries| - 1]];
    }
  }

  /** A first entry that is not hit stays the first of its key. */
  lemma {:induction false} FirstStays(entries: seq<(string, string)>, key: string, k: string)
    requires k in FirstOf(entries) && !Hit(key, (k, FirstOf(entries)[k]))
    ensures k in FirstOf(Keep(entries, key)) && FirstOf(Keep(entries, key))[k] == FirstOf(entries)[k]
  {
    var init, e := entries[..|entries| - 1], entries[|entries| - 1];
    assert entries == init + [e];
    hide Hit, FirstOf, Keep;
    KeepLast(init, e, key);
    KeepLast(Keep(init, key), e, key);
    if k in FirstOf(init) {
      FirstStays(init, key, k);
    } else {
      KeepMembers(init, key);
      FirstOfMembers(init);
      FirstOfMembers(Keep(init, key));
    }
  }

  /** What a removal does to the map when each key has one line: it drops the entry that is hit, which
      for a key with '=' is the entry of another key. */
  function DropHit(m: map<string, string>, key: string): map<string, string> {
    match KeyOf(key)
    case None => m - {key}
    case Some(k) => if k.0 in m && k.1 + "=" <= m[k.0] then m - {k.0} else m
  }

  /** No hit entry hides another entry of its key that is not hit. */
  ghost predicate NothingUncovered(entries: seq<(string, string)>, key: string) {
    forall e :: e in entries && e.0 in FirstOf(entries) && Hit(key, (e.0, FirstOf(entries)[e.0])) ==> Hit(key, e)
  }

  /** Removing drops just the hit entry from the map, for any key, if and only if it does not uncover a
      second line of that entry's key. */
  lemma {:induction false} RemoveIsDropHitIff(lines: seq<string>, key: string)
    ensures MapOf(Without(lines, key)) == DropHit(MapOf(lines), key) <==> NothingUncovered(Entries(lines), key)
  {
    EntriesWithout(lines, key);
    KeepIsDropHitIff(Entries(lines), key);
  }

  lemma {:induction false} KeepIsDropHitIff(es: seq<(string, string)>, key: string)
    ensures FirstOf(Keep(es, key)) == DropHit(FirstOf(es), key) <==> NothingUncovered(es, key)
  {
    DropHitPointwise(FirstOf(es), key);
    KeepMembers(es, key);
    FirstOfMembers(es);
    FirstOfMembers(Keep(es, key));
    hide FirstOf, Keep, Hit, DropHit;
    var kept, m := FirstOf(Keep(es, key)), FirstOf(es);
    if NothingUncovered(es, key) {
      forall k | k in m && !Hit(key, (k, m[k])) ensures k in kept && kept[k] == m[k] { FirstStays(es, key, k); }
      assert kept.Keys == DropHit(m, key).Keys;
    }
  }

  lemma {:induction false} DropHitPointwise(m: map<string, string>, key: string)
    ensures forall k :: k in DropHit(m, key) <==> k in m && !Hit(key, (k, m[k]))
    ensures forall k :: k in DropHit(m, key) ==> DropHit(m, key)[k] == m[k]
  {
  }

  lemma {:induction false} NoLinesLeft(lines: seq<string>, key: string)
    ensures LinesOf(Without(lines, key), key) == []
  {
    if lines != [] {
      var init, last := lines[..|lines| - 1], lines[|lines| - 1];
      assert lines == init + [last];
      NoLinesLeft(init, key);
      hide LinesOf, Without;
      Appended(init, last, key);
      Appended(Without(init, key), last, key);
    }
  }

  lemma {:induction false} OthersKept(lines: seq<string>, key: string, other: string)
    requires '=' !in key && '=' !in other && key != other
    ensures LinesOf(Without(lines, key), other) == LinesOf(lines, other)
  {
    if lines != [] {
      var init, last := lines[..|lines| - 1], lines[|lines| - 1];
      assert lines == init + [last];
      OthersKept(init, key, other);
      PrefixIsKey(last, key);
      PrefixIsKey(last, other);
      hide LinesOf, Without, KeyOf;
      Appended(init, last, key);
      Appended(init, last, other);
      Appended(Without(init, key), last, other);
    }
  }

  lemma {:induction false} WithoutClear(lines: seq<string>, key: string)
    requires forall i :: 0 <= i < |lines| ==> ClearLine(lines[i])
    ensures forall i :: 0 <= i < |Without(lines, key)| ==> ClearLine(Without(lines, key)[i])
  {
    if lines != [] { WithoutClear(lines[..|lines| - 1], key); }
  }

  ghost predicate ClearFile(file: Option<string>) {
    forall i :: 0 <= i < |ReadFile(file)| ==> ClearLine(ReadFile(file)[i])
  }

  /** Writing: the lines read back are the other lines in order, then the one line of the key. */
  lemma {:induction false} WriteReadsBack(file: Option<string>, key: string, value: string)
    requires ClearFile(file) && ValidKey(key) && ValidValue(value)
    ensures var f := Written(file, key, value);
      ClearFile(f) && ReadFile(f) == Without(ReadFile(file), key) + [key + "=" + value]
  {
    var line := key + "=" + value;
    var lines := Without(ReadFile(file), key) + [line];
    WithoutClear(ReadFile(file), key);
    assert ClearLine(line) by {
      assert line[|line| - 1] == if value == "" then '=' else value[|value| - 1];
    }
    hide ClearLine, Content, StrLines, Without;
    ContentRoundTrip(lines);
  }

  lemma {:induction false} RemoveReadsBack(file: Option<string>, key: string)
    requires ClearFile(file) && file.Some?
    ensures var f := Removed(file, key); var kept := Without(ReadFile(file), key);
      ClearFile(f) && ReadFile(f) == if kept == [] then [""] else kept
  {
    WithoutClear(ReadFile(file), key);
    ContentRoundTrip(Without(ReadFile(file), key));
  }

  /** A write reads back as the kept lines and the new one, if and only if no kept line ends in a
      carriage return. */
  lemma {:induction false} WriteReadsBackIff(file: Option<string>, key: string, value: string)
    requires ValidKey(key) && ValidValue(value)
    ensures var kept := Without(ReadFile(file), key);
      ReadFile(Written(file, key, value)) == kept + [key + "=" + value] <==> AllClear(kept)
  {
    var kept, line := Without(ReadFile(file), key), key + "=" + value;
    KeptHoldNoNewline(file, key);
    NewLineClear(kept, key, value);
    hide Content, StrLines, Without, AllClear, NoNewlines, StripReturns;
    ContentReadsBack(kept + [line]);
    ReturnsKeptIff(kept + [line]);
  }

  lemma {:induction false} NewLineClear(kept: seq<string>, key: string, value: string)
    requires NoNewlines(kept) && ValidKey(key) && ValidValue(value)
    ensures var lines := kept + [key + "=" + value]; NoNewlines(lines) && (AllClear(lines) <==> AllClear(kept))
  {
    var line := key + "=" + value;
    var lines := kept + [line];
    assert line[|line| - 1] == if value == "" then '=' else value[|value| - 1];
    assert ClearLine(line);
    assert forall i :: 0 <= i < |kept| ==> lines[i] == kept[i];
  }

  /** The same for a removal from a file that exists. */
  lemma {:induction false} RemoveReadsBackIff(file: Option<string>, key: string)
    requires file.Some?
    ensures var kept := Without(ReadFile(file), key);
      ReadFile(Removed(file, key)) == (if kept == [] then [""] else kept) <==> AllClear(kept)
  {
    KeptHoldNoNewline(file, key);
    ContentReadsBack(Without(ReadFile(file), key));
    ReturnsKeptIff(Without(ReadFile(file), key));
  }

  lemma {:induction false} KeptHoldNoNewline(file: Option<string>, key: string)
    ensures NoNewlines(Without(ReadFile(file), key))
  {
    if file.Some? { StrLinesHaveNoNewline(file.value); }
    WithoutHoldsNoNewline(ReadFile(file), key);
  }

  lemma {:induction false} WithoutHoldsNoNewline(lines: seq<string>, key: string)
    requires NoNewlines(lines)
    ensures NoNewlines(Without(lines, key))
  {
    if lines != [] { WithoutHoldsNoNewline(lines[..|lines| - 1], key); }
  }

  /** Writing B drops the carriage return that ended the line of A. */
  lemma {:induction false} ReturnWitness()
    ensures ReadFile(Some("A=1\r")) == ["A=1\r"]
    ensures ReadFile(Written(Some("A=1\r"), "B", "2")) == ["A=1", "B=2"]
  {
    var a, b := "A=1\r", "B=2";
    LoneLine(a);
    WitnessLines(a, b);
    TwoStripped(a, b);
    hide *;
    assert ReadFile(Some(a)) == [a] by { FileLines(a); }
    WrittenLines(a, b);
  }

  lemma {:induction false} FileLines(s: string)
    ensures ReadFile(Some(s)) == StrLines(s)
  {
    hide StrLines;
  }

  lemma {:induction false} WitnessLines(a: string, b: string)
    requires a == "A=1\r" && b == "B=2"
    ensures !("B" + "=" <= a) && "B" + "=" + "2" == b && ValidKey("B") && ValidValue("2") && NoNewlines([a, b])
    ensures StripReturn(a) == "A=1" && StripReturn(b) == b
  {
    assert a[..3] == "A=1";
    var prefix := "B" + "=";
    assert prefix[0] != a[0];
  }

  lemma {:induction false} WrittenLines(a: string, b: string)
    requires ReadFile(Some(a)) == [a] && !("B" + "=" <= a) && "B" + "=" + "2" == b && ValidKey("B") && ValidValue("2")
    requires NoNewlines([a, b])
    ensures ReadFile(Written(Some(a), "B", "2")) == StripReturns([a] + [b])
  {
    hide StrLines, Content, Without, StripReturns, ReadFile, ValidKey, ValidValue;
    OneKept(a, "B");
    assert [a] + [b] == [a, b];
    ContentReadsBack([a] + [b]);
    FileLines(Content([a] + [b]));
  }

  lemma {:induction false} OneKept(line: string, key: string)
    requires !(key + "=" <= line)
    ensures Without([line], key) == [line]
  {
    assert [line][..0] == [];
  }

  lemma {:induction false} LoneLine(line: string)
    requires '\n' !in line && line != ""
    ensures StrLines(line) == [line]
  {
    NoNewline(line);
    SplitFirst(line);
    assert line[..|line|] == line && line[|line|..] == "" && SplitInclusive("") == [];
    assert SplitInclusive(line) == [line];
    assert [line][..0] == [] && StripAll([]) == [];
    assert line[|line| - 1] != '\n';
  }

  lemma {:induction false} TwoStripped(a: string, b: string)
    ensures StripReturns([a] + [b]) == [StripReturn(a), StripReturn(b)]
  {
    var l := [a] + [b];
    assert l[..1] == [a] && [a][..0] == [];
    assert StripReturns([a]) == [StripReturn(a)];
    assert StripReturns(l) == StripReturns([a]) + [StripReturn(b)];
  }

  // ---------- The text of the file ----------

  /** Every line is judged by itself: those that begin with the key and '=' go, all others stay, in
      their order. */
  lemma {:induction false} DropsJustItsLines(before: seq<string>, line: string, after: seq<string>, key: string)
    ensures Without(before + [line] + after, key) ==
      Without(before, key) + (if key + "=" <= line then [] else [line]) + Without(after, key)
    ensures Without([], key) == []
  {
    var a := before + [line];
    if after == [] {
      assert a + after == a && a[..|before|] == before;
      assert Without(a, key) + [] == Without(a, key);
    } else {
      var init, last := after[..|after| - 1], after[|after| - 1];
      assert (a + after)[..|a + after| - 1] == a + init;
      DropsJustItsLines(before, line, init, key);
    }
  }

  lemma {:induction false} ContentIsTerminated(lines: seq<string>)
    ensures Content(lines) == if lines == [] then "\n" else Terminated(lines)
  {
    if |lines| > 1 {
      ContentIsTerminated(lines[..|lines| - 1]);
    } else if |lines| == 1 {
      assert lines[..0] == [] && "" + lines[0] + "\n" == lines[0] + "\n";
    }
  }

  /** A file of whole lines is read as these lines. */
  lemma {:induction false} WholeLinesRead(lines: seq<string>)
    requires AllClear(lines)
    ensures ReadFile(Some(Terminated(lines))) == lines && ReadFile(None) == []
  {
    FileLines(Terminated(lines));
    if lines == [] {
      assert StrLines("") == [];
    } else {
      ContentIsTerminated(lines);
      hide StrLines, Content, Terminated;
      ContentRoundTrip(lines);
    }
  }

  /** Written to a file of whole lines, a secret becomes its last line, "KEY=VALUE" and a newline; written
      to no file, its only one. */
  lemma {:induction false} WrittenText(lines: seq<string>, key: string, value: string)
    requires AllClear(lines) && ValidKey(key) && ValidValue(value)
    ensures Written(Some(Terminated(lines)), key, value) ==
      Some(Terminated(Without(lines, key)) + key + "=" + value + "\n")
    ensures Written(None, key, value) == Some(key + "=" + value + "\n")
  {
    WholeLinesRead(lines);
    hide ReadFile, ValidKey, ValidValue;
    WrittenLine(lines, key, value);
    WrittenLine([], key, value);
    assert Without([], key) == [] && Terminated([]) == "" && "" + key == key;
  }

  lemma {:induction false} WrittenLine(lines: seq<string>, key: string, value: string)
    ensures Content(Without(lines, key) + [key + "=" + value]) ==
      Terminated(Without(lines, key)) + key + "=" + value + "\n"
  {
    var kept, line := Without(lines, key), key + "=" + value;
    ContentIsTerminated(kept + [line]);
    TerminatedSnoc(kept, line);
    hide Content, Without, Terminated;
    assert Terminated(kept) + (key + "=" + value) == Terminated(kept) + key + "=" + value;
  }

  /** Removed from a file of whole lines, a secret leaves the others, or one blank line; a missing file
      stays missing. */
  lemma {:induction false} RemovedText(lines: seq<string>, key: string)
    requires AllClear(lines)
    ensures var kept := Without(lines, key);
      Removed(Some(Terminated(lines)), key) == Some(if kept == [] then "\n" else Terminated(kept))
    ensures Removed(None, key) == None
  {
    WholeLinesRead(lines);
    ContentIsTerminated(Without(lines, key));
    hide ReadFile, Content;
  }

  /** Lines are read one after the other, whether they end in "\n" or "\r\n", and an unfinished last
      line as it is. */
  lemma {:induction false} FileLineRead(before: string, line: string)
    requires (before == "" || before[|before| - 1] == '\n') && '\n' !in line
    ensures StrLines(before + line + "\n") == StrLines(before) +
      if line != "" && line[|line| - 1] == '\r' then [line[..|line| - 1]] else [line]
    ensures StrLines(before + line) == StrLines(before) + if line == "" then [] else [line]
    ensures StrLines("") == []
  {
    assert before + line + "\n" == before + (line + "\n");
    SplitAtNewline(before, line + "\n");
    SplitAtNewline(before, line);
    StripAllConcat(SplitInclusive(before), SplitInclusive(line + "\n"));
    StripAllConcat(SplitInclusive(before), SplitInclusive(line));
    OneStripped(line);
    assert StrLines("") == [];
    if line != "" { LoneLine(line); }
  }

  // ---------- Any sequence of writes and removals ----------

  datatype Op = Write(key: string, value: string) | Remove(key: string)

  function Apply(file: Option<string>, op: Op): Option<string> {
    match op
    case Write(k, v) => Written(file, k, v)
    case Remove(k) => Removed(file, k)
  }

  function ApplyAll(file: Option<string>, ops: seq<Op>): Option<string> {
    if ops == [] then file else Apply(ApplyAll(file, ops[..|ops| - 1]), ops[|ops| - 1])
  }

  /** The intended meaning: updates of a finite map; rejected writes change nothing. */
  function Update(m: map<string, string>, op: Op): map<string, string> {
    match op
    case Write(k, v) => if ValidKey(k) && ValidValue(v) then m[k := v] else m
    case Remove(k) => DropHit(m, k)
  }

  function UpdateAll(m: map<string, string>, ops: seq<Op>): map<string, string> {
    if ops == [] then m else Update(UpdateAll(m, ops[..|ops| - 1]), ops[|ops| - 1])
  }

  /** The key of an entry of the map is lost by removing `key`. */
  ghost predicate Loses(m: map<string, string>, key: string) {
    '=' in key && exists k :: k in m && Hit(key, (k, m[k]))
  }

  /** Removing a key drops that key from the map and changes no other, if and only if the key has no
      '=' or hits no entry of the map. */
  lemma {:induction false} RemoveTouchesOnlyItsKeyIff(lines: seq<string>, key: string)
    ensures MapOf(Without(lines, key)) == MapOf(lines) - {key} <==> !Loses(MapOf(lines), key)
  {
    var es := Entries(lines);
    EntriesWithout(lines, key);
    KeyOfParts(key);
    if '=' !in key {
      NothingToUncover(es, key);
      KeepIsDropHitIff(es, key);
    } else {
      NoSuchKey(lines, key);
      hide KeyOf;
      KeepLosesIff(es, key);
    }
  }

  lemma {:induction false} NoSuchKey(lines: seq<string>, key: string)
    requires '=' in key
    ensures MapOf(lines) - {key} == MapOf(lines)
  {
    KeysHoldNoEquals(lines);
    FirstOfMembers(Entries(lines));
  }

  lemma {:induction false} KeysHoldNoEquals(lines: seq<string>)
    ensures forall e :: e in Entries(lines) ==> '=' !in e.0
  {
    if lines != [] {
      KeysHoldNoEquals(lines[..|lines| - 1]);
      KeyOfParts(lines[|lines| - 1]);
    }
  }

  lemma {:induction false} KeepLosesIff(es: seq<(string, string)>, key: string)
    ensures FirstOf(Keep(es, key)) == FirstOf(es) <==> forall k :: k in FirstOf(es) ==> !Hit(key, (k, FirstOf(es)[k]))
  {
    KeepMembers(es, key);
    FirstOfMembers(es);
    FirstOfMembers(Keep(es, key));
    hide FirstOf, Keep, Hit;
    var kept, m := FirstOf(Keep(es, key)), FirstOf(es);
    if forall k :: k in m ==> !Hit(key, (k, m[k])) {
      forall k | k in m ensures k in kept && kept[k] == m[k] { FirstStays(es, key, k); }
      assert kept.Keys == m.Keys;
    }
  }

  /** Removing the key "A=B" drops the entry of "A", and a second line of "A" then shows. */
  lemma {:induction false} UncoverWitness()
    ensures var lines := ["A=B=C", "A=D"];
      MapOf(lines) == map["A" := "B=C"] && MapOf(Without(lines, "A=B")) == map["A" := "D"]
  {
    TwoLines("A", "B=C", "D");
    TwoWithout("A=B=C", "A=D", "A=B");
    assert "A" + "=" + "B=C" == "A=B=C" && "A" + "=" + "D" == "A=D";
  }

  lemma {:induction false} TwoLines(key: string, v: string, w: string)
    requires '=' !in key
    ensures var a, b := key + "=" + v, key + "=" + w;
      MapOf([a, b]) == map[key := v] && MapOf([b]) == map[key := w]
  {
    var a, b := key + "=" + v, key + "=" + w;
    AppendLine([], key, v);
    AppendLine([], key, w);
    AppendLine([a], key, w);
    assert [] + [a] == [a] && [] + [b] == [b] && [a] + [b] == [a, b];
    assert Entries([]) == [] && FirstOf([]) == map[];
    hide Entries, FirstOf;
    KeepLast([], (key, v), key);
    KeepLast([], (key, w), key);
    KeepLast([(key, v)], (key, w), key);
  }

  lemma {:induction false} TwoWithout(a: string, b: string, key: string)
    requires key + "=" <= a && !(key + "=" <= b)
    ensures Without([a, b], key) == [b]
  {
    assert [a][..0] == [];
    assert Without([a], key) == [];
    assert [a, b][..1] == [a];
  }

  /** The intended lines: removed in place, written at the end. */
  function EditLines(lines: seq<string>, op: Op): seq<string> {
    match op
    case Write(k, v) => if ValidKey(k) && ValidValue(v) then Without(lines, k) + [k + "=" + v] else lines
    case Remove(k) => Without(lines, k)
  }

  function EditAll(lines: seq<string>, ops: seq<Op>): seq<string> {
    if ops == [] then lines else EditLines(EditAll(lines, ops[..|ops| - 1]), ops[|ops| - 1])
  }

  lemma {:induction false} NonBlankWithout(lines: seq<string>, key: string)
    ensures NonBlank(Without(lines, key)) == Without(NonBlank(lines), key)
  {
    if lines != [] {
      var init, last := lines[..|lines| - 1], lines[|lines| - 1];
      assert lines == init + [last];
      NonBlankWithout(init, key);
      hide NonBlank, Without;
      Appended(init, last, key);
      Appended(Without(init, key), last, key);
      Appended(NonBlank(init), last, key);
    }
  }

  /** The entries: hit ones dropped, the written one at the end. */
  function EditEntries(entries: seq<(string, string)>, op: Op): seq<(string, string)> {
    match op
    case Write(k, v) => if ValidKey(k) && ValidValue(v) then Keep(entries, k) + [(k, v)] else entries
    case Remove(k) => Keep(entries, k)
  }

  function EditAllEntries(entries: seq<(string, string)>, ops: seq<Op>): seq<(string, string)> {
    if ops == [] then entries else EditEntries(EditAllEntries(entries, ops[..|ops| - 1]), ops[|ops| - 1])
  }

  lemma {:induction false} ApplyStep(file: Option<string>, op: Op)
    requires ClearFile(file)
    ensures var f := Apply(file, op);
      && ClearFile(f)
      && Entries(ReadFile(f)) == EditEntries(Entries(ReadFile(file)), op)
      && NonBlank(ReadFile(f)) == EditLines(NonBlank(ReadFile(file)), op)
  {
    var lines := ReadFile(file);
    match op
    case Write(k, v) =>
      if ValidKey(k) && ValidValue(v) {
        WriteReadsBack(file, k, v);
        EntriesWithout(lines, k);
        NonBlankWithout(lines, k);
        AppendLine(Without(lines, k), k, v);
        hide ReadFile, Entries, Without, Keep, NonBlank, ClearFile, ValidKey, ValidValue;
      }
    case Remove(k) =>
      EntriesWithout(lines, k);
      NonBlankWithout(lines, k);
      if file.Some? {
        RemoveReadsBack(file, k);
        BlankLine();
      }
  }

  lemma {:induction false} BlankLine()
    ensures Entries([""]) == [] && NonBlank([""]) == []
  {
    assert [""][..0] == [];
  }

  lemma {:induction false} AppendLine(lines: seq<string>, key: string, value: string)
    requires '=' !in key
    ensures var line := key + "=" + value;
      Entries(lines + [line]) == Entries(lines) + [(key, value)] && NonBlank(lines + [line]) == NonBlank(lines) + [line]
  {
    var line := key + "=" + value;
    Appended(lines, line, key);
    assert key + "=" <= line && line[|key| + 1..] == value;
    PrefixIsKey(line, key);
  }

  /** Over any sequence of writes and removals the file, read back, holds exactly the original
      entries edited in order, and its non-blank lines are the original ones edited in order. */
  lemma {:induction false} RunIsEntries(file: Option<string>, ops: seq<Op>)
    requires ClearFile(file)
    ensures var f := ApplyAll(file, ops);
      && ClearFile(f)
      && Entries(ReadFile(f)) == EditAllEntries(Entries(ReadFile(file)), ops)
      && NonBlank(ReadFile(f)) == EditAll(NonBlank(ReadFile(file)), ops)
  {
    if ops != [] {
      RunIsEntries(file, ops[..|ops| - 1]);
      ApplyStep(ApplyAll(file, ops[..|ops| - 1]), ops[|ops| - 1]);
    }
  }

  ghost predicate OnePerKey(entries: seq<(string, string)>) {
    forall i, j :: 0 <= i < j < |entries| ==> entries[i].0 != entries[j].0
  }

  lemma {:induction false} KeepOnePerKey(entries: seq<(string, string)>, key: string)
    requires OnePerKey(entries)
    ensures OnePerKey(Keep(entries, key))
  {
    if entries != [] {
      var init, last := entries[..|entries| - 1], entries[|entries| - 1];
      KeepOnePerKey(init, key);
      KeepMembers(init, key);
      var kept := Keep(init, key);
      forall i | 0 <= i < |kept| ensures kept[i].0 != last.0 { assert kept[i] in init; }
    }
  }

  lemma {:induction false} NothingToUncover(entries: seq<(string, string)>, key: string)
    requires OnePerKey(entries) || '=' !in key
    ensures NothingUncovered(entries, key)
  {
    KeyOfParts(key);
    FirstOfMembers(entries);
  }

  lemma {:induction false} WriteUpdatesMap(entries: seq<(string, string)>, key: string, value: string)
    requires '=' !in key
    ensures FirstOf(Keep(entries, key) + [(key, value)]) == FirstOf(entries)[key := value]
    ensures key !in FirstOf(Keep(entries, key))
  {
    KeyOfParts(key);
    NothingToUncover(entries, key);
    KeepIsDropHitIff(entries, key);
    hide KeyOf, FirstOf, Keep;
    KeepLast(Keep(entries, key), (key, value), key);
  }

  lemma {:induction false} WriteOnePerKey(entries: seq<(string, string)>, key: string, value: string)
    requires OnePerKey(entries) && key !in FirstOf(Keep(entries, key))
    ensures OnePerKey(Keep(entries, key) + [(key, value)])
  {
    hide FirstOf, Keep;
    var kept := Keep(entries, key);
    KeepOnePerKey(entries, key);
    FirstOfMembers(kept);
    forall i | 0 <= i < |kept| ensures kept[i].0 != key { assert kept[i] in kept; }
  }

  /** An edit is the update of the map, when keys have one line each or a removed key has no '='. */
  lemma {:induction false} EditIsUpdate(entries: seq<(string, string)>, op: Op)
    requires OnePerKey(entries) || (op.Remove? ==> '=' !in op.key)
    ensures FirstOf(EditEntries(entries, op)) == Update(FirstOf(entries), op)
    ensures OnePerKey(entries) ==> OnePerKey(EditEntries(entries, op))
  {
    if op.Remove? || (ValidKey(op.key) && ValidValue(op.value)) {
      hide FirstOf, Keep, DropHit, OnePerKey;
      if op.Write? {
        WriteUpdatesMap(entries, op.key, op.value);
        if OnePerKey(entries) { WriteOnePerKey(entries, op.key, op.value); }
      } else {
        NothingToUncover(entries, op.key);
        KeepIsDropHitIff(entries, op.key);
        if OnePerKey(entries) { KeepOnePerKey(entries, op.key); }
      }
    }
  }

  /** Over any sequence of writes and removals the file, read back, stays the finite map the
      operations describe: from a file with one line per key for all removals, and from any file for
      removals of keys without '='. */
  lemma {:induction false} RunIsMap(file: Option<string>, ops: seq<Op>)
    requires ClearFile(file)
    requires OnePerKey(Entries(ReadFile(file))) || forall i :: 0 <= i < |ops| && ops[i].Remove? ==> '=' !in ops[i].key
    ensures MapOf(ReadFile(ApplyAll(file, ops))) == UpdateAll(MapOf(ReadFile(file)), ops)
  {
    RunIsEntries(file, ops);
    EditsAreUpdates(Entries(ReadFile(file)), ops);
  }

  lemma {:induction false} EditsAreUpdates(entries: seq<(string, string)>, ops: seq<Op>)
    requires OnePerKey(entries) || forall i :: 0 <= i < |ops| && ops[i].Remove? ==> '=' !in ops[i].key
    ensures FirstOf(EditAllEntries(entries, ops)) == UpdateAll(FirstOf(entries), ops)
    ensures OnePerKey(entries) ==> OnePerKey(EditAllEntries(entries, ops))
  {
    if ops != [] {
      EditsAreUpdates(entries, ops[..|ops| - 1]);
      EditIsUpdate(EditAllEntries(entries, ops[..|ops| - 1]), ops[|ops| - 1]);
    }
  }

  /** What the operations are for: a removal drops its key and nothing else. */
  function PlainUpdate(m: map<string, string>, op: Op): map<string, string> {
    match op
    case Write(k, v) => if ValidKey(k) && ValidValue(v) then m[k := v] else m
    case Remove(k) => m - {k}
  }

  function PlainUpdates(m: map<string, string>, ops: seq<Op>): map<string, string> {
    if ops == [] then m else PlainUpdate(PlainUpdates(m, ops[..|ops| - 1]), ops[|ops| - 1])
  }

  function MapAfter(file: Option<string>, ops: seq<Op>): map<string, string> {
    MapOf(ReadFile(ApplyAll(file, ops)))
  }

  ghost predicate LosesAnother(m: map<string, string>, op: Op) {
    op.Remove? && Loses(m, op.key)
  }

  /** After `n` operations the file stands for the map they are meant to leave. */
  ghost predicate PlainAt(file: Option<string>, ops: seq<Op>, n: nat)
    requires n <= |ops|
  {
    MapAfter(file, ops[..n]) == PlainUpdates(MapOf(ReadFile(file)), ops[..n])
  }

  /** At every moment of a run the file stands for the map its writes and removals are meant to leave,
      if and only if no removal in it hits the entry of another key. */
  lemma {:induction false} RunIsPlainMapIff(file: Option<string>, ops: seq<Op>)
    requires ClearFile(file)
    ensures (forall n :: 0 <= n <= |ops| ==> PlainAt(file, ops, n))
      <==> forall n :: 0 <= n < |ops| ==> !LosesAnother(MapAfter(file, ops[..n]), ops[n])
  {
    NothingDone(file, ops);
    hide PlainAt, MapAfter, LosesAnother, ClearFile;
    forall n | 0 <= n < |ops| && PlainAt(file, ops, n)
      ensures PlainAt(file, ops, n + 1) <==> !LosesAnother(MapAfter(file, ops[..n]), ops[n])
    {
      PlainStepIff(file, ops, n);
    }
    if forall n :: 0 <= n < |ops| ==> !LosesAnother(MapAfter(file, ops[..n]), ops[n]) {
      for n := 0 to |ops|
        invariant forall i :: 0 <= i <= n ==> PlainAt(file, ops, i)
      {
        assert PlainAt(file, ops, n);
      }
    } else {
      var n :| 0 <= n < |ops| && LosesAnother(MapAfter(file, ops[..n]), ops[n]);
      assert PlainAt(file, ops, n) ==> !PlainAt(file, ops, n + 1);
    }
  }

  lemma {:induction false} NothingDone(file: Option<string>, ops: seq<Op>)
    ensures PlainAt(file, ops, 0)
  {
  }

  lemma {:induction false} PlainStepIff(file: Option<string>, ops: seq<Op>, n: nat)
    requires ClearFile(file) && n < |ops|
    requires PlainAt(file, ops, n)
    ensures PlainAt(file, ops, n + 1) <==> !LosesAnother(MapAfter(file, ops[..n]), ops[n])
  {
    assert ops[..n + 1][..n] == ops[..n] && ops[..n + 1][n] == ops[n];
    RunIsEntries(file, ops[..n]);
    hide ReadFile, ClearFile, Entries, NonBlank;
    PlainOneIff(ApplyAll(file, ops[..n]), ops[n]);
  }

  lemma {:induction false} PlainOneIff(file: Option<string>, op: Op)
    requires ClearFile(file)
    ensures var m := MapOf(ReadFile(file));
      MapOf(ReadFile(Apply(file, op))) == PlainUpdate(m, op) <==> !LosesAnother(m, op)
  {
    ApplyStep(file, op);
    hide ReadFile, ClearFile, NonBlank;
    match op
    case Write(k, v) =>
      if ValidKey(k) && ValidValue(v) { WriteUpdatesMap(Entries(ReadFile(file)), k, v); }
    case Remove(k) =>
      EntriesWithout(ReadFile(file), k);
      RemoveTouchesOnlyItsKeyIff(ReadFile(file), k);
  }

  /** After a write the key has exactly one line, with its value; the lines of other keys stay. */
  lemma {:induction false} WrittenKeyHasOneLine(file: Option<string>, key: string, value: string, other: string)
    requires ClearFile(file) && ValidKey(key) && ValidValue(value) && '=' !in other && other != key
    ensures var f := ReadFile(Written(file, key, value));
      LinesOf(f, key) == [key + "=" + value] && LinesOf(f, other) == LinesOf(ReadFile(file), other)
  {
    var line, kept := key + "=" + value, Without(ReadFile(file), key);
    WriteReadsBack(file, key, value);
    NoLinesLeft(ReadFile(file), key);
    OthersKept(ReadFile(file), key, other);
    PrefixIsKey(line, key);
    PrefixIsKey(line, other);
    Appended(kept, line, key);
    Appended(kept, line, other);
  }

  /** A file without any carriage return meets the condition on the starting file. */
  lemma {:induction false} NoReturnIsClear(s: string)
    requires '\r' !in s
    ensures ClearFile(Some(s))
  {
    StrLinesHaveNoNewline(s);
    FlattenSplit(s);
    StripAllFrom(SplitInclusive(s));
  }

  lemma {:induction false} StripAllFrom(lines: seq<string>)
    requires '\r' !in Flatten(lines)
    ensures forall i :: 0 <= i < |StripAll(lines)| ==> '\r' !in StripAll(lines)[i]
  {
    if lines != [] { StripAllFrom(lines[..|lines| - 1]); }
  }
}
