/** Flattening a multi-iteration agent run into one OpenAI-style stream, and the client that
    accumulates tool calls by index. */
module ToolCalls {
  import opened Text

  const U32: nat := 0x1_0000_0000

  /** `Other` stands for the events that are not forwarded, the end of an iteration among them. */
  datatype Event = TextDelta(text: string) | ToolUseStart(id: string, name: string)
    | ToolInputDelta(text: string) | Other

  datatype Chunk =
    | Role
    | Content(text: string)
    | ToolCall(index: nat, id: Option<string>, name: Option<string>, arguments: string)
    | Finish
    | Done

  // ---------- The forwarder ----------

  /** The tool index after some events; a 32-bit counter that is never reset. */
  function ToolIndex(events: seq<Event>): nat {
    if events == [] then 0
    else
      var before := ToolIndex(events[..|events| - 1]);
      if events[|events| - 1].ToolUseStart? then (before + 1) % U32 else before
  }

  function ChunksFor(e: Event, index: nat): seq<Chunk> {
    match e
    case TextDelta(t) => [Content(t)]
    case ToolUseStart(id, name) => [ToolCall(index, Some(id), Some(name), "")]
    case ToolInputDelta(t) => [ToolCall(if index == 0 then 0 else index - 1, None, None, t)]
    case Other => []
  }

  function Forwarded(events: seq<Event>): seq<Chunk> {
    if events == [] then []
    else
      var init := events[..|events| - 1];
      Forwarded(init) + ChunksFor(events[|events| - 1], ToolIndex(init))
  }

  method Forward(events: seq<Event>) returns (sent: seq<Chunk>)
    ensures sent == [Role] + Forwarded(events) + [Finish, Done]
  {
    sent := [Role];
    var toolIndex := 0;
    assert events[..0] == [];
    for i := 0 to |events|
      invariant sent == [Role] + Forwarded(events[..i]) && toolIndex == ToolIndex(events[..i])
    {
      assert events[..i + 1][..i] == events[..i];
      match events[i]
      case TextDelta(t) =>
        sent := sent + [Content(t)];
      case ToolUseStart(id, name) =>
        var idx := toolIndex;
        toolIndex := (toolIndex + 1) % U32;
        sent := sent + [ToolCall(idx, Some(id), Some(name), "")];
      case ToolInputDelta(t) =>
        var idx := if toolIndex == 0 then 0 else toolIndex - 1;
        sent := sent + [ToolCall(idx, None, None, t)];
      case Other =>
    }
    assert events[..|events|] == events;
    sent := sent + [Finish] + [Done];
  }

  // ---------- The client ----------

  datatype Call = Call(id: string, name: string, arguments: string)

  /** One received chunk: `delta.tool_calls` are merged into the call of the same index. */
  function Merge(calls: map<nat, Call>, c: Chunk): map<nat, Call> {
    if !c.ToolCall? then calls
    else
      var prior := if c.index in calls then calls[c.index] else Call("", "", "");
      calls[c.index := Call(if c.id.Some? then c.id.value else prior.id,
                            if c.name.Some? then c.name.value else prior.name,
                            prior.arguments + c.arguments)]
  }

  function Accumulate(chunks: seq<Chunk>): map<nat, Call> {
    if chunks == [] then map[] else Merge(Accumulate(chunks[..|chunks| - 1]), chunks[|chunks| - 1])
  }

  function TextOf(chunks: seq<Chunk>): string {
    if chunks == [] then ""
    else TextOf(chunks[..|chunks| - 1]) + if chunks[|chunks| - 1].Content? then chunks[|chunks| - 1].text else ""
  }

  // ---------- What the run meant ----------

  /** One call per tool start; input goes to the latest call. */
  function CallsOf(events: seq<Event>): seq<Call> {
    if events == [] then []
    else
      var calls := CallsOf(events[..|events| - 1]);
      match events[|events| - 1]
      case ToolUseStart(id, name) => calls + [Call(id, name, "")]
      case ToolInputDelta(t) =>
        if calls == [] then []
        else calls[|calls| - 1 := calls[|calls| - 1].(arguments := calls[|calls| - 1].arguments + t)]
      case _ => calls
  }

  function TextReceived(events: seq<Event>): string {
    if events == [] then ""
    else
      var last := events[|events| - 1];
      TextReceived(events[..|events| - 1]) + if last.TextDelta? then last.text else ""
  }

  /** The tool input that arrived before any tool start: how many deltas, and their text. */
  function Orphans(events: seq<Event>): seq<string> {
    if events == [] then []
    else
      var init, e := events[..|events| - 1], events[|events| - 1];
      if e.ToolInputDelta? && CallsOf(init) == [] then Orphans(init) + [e.text] else Orphans(init)
  }

  function AsMap(calls: seq<Call>): map<nat, Call> {
    map i: nat | i < |calls| :: calls[i]
  }

  /** What the client actually holds: orphaned input ends up in front of the first call. */
  function Held(events: seq<Event>): map<nat, Call> {
    var calls, orphans := CallsOf(events), Orphans(events);
    if calls == [] then (if orphans == [] then map[] else map[0 := Call("", "", Flatten(orphans))])
    else AsMap(calls[0 := calls[0].(arguments := Flatten(orphans) + calls[0].arguments)])
  }

  lemma {:induction false} IndexIsCount(events: seq<Event>)
    requires |CallsOf(events)| < U32
    ensures ToolIndex(events) == |CallsOf(events)|
  {
    if events != [] { IndexIsCount(events[..|events| - 1]); }
  }

  lemma {:induction false} MergeOne(chunks: seq<Chunk>, c: Chunk)
    ensures Accumulate(chunks + [c]) == Merge(Accumulate(chunks), c)
    ensures TextOf(chunks + [c]) == TextOf(chunks) + if c.Content? then c.text else ""
  {
    assert (chunks + [c])[..|chunks|] == chunks;
  }

  lemma {:induction false} ForwardedSnoc(events: seq<Event>, e: Event)
    ensures Forwarded(events + [e]) == Forwarded(events) + ChunksFor(e, ToolIndex(events))
    ensures CallsOf(events + [e]) ==
      var calls := CallsOf(events);
      (match e
       case ToolUseStart(id, name) => calls + [Call(id, name, "")]
       case ToolInputDelta(t) => if calls == [] then []
         else calls[|calls| - 1 := calls[|calls| - 1].(arguments := calls[|calls| - 1].arguments + t)]
       case _ => calls)
    ensures Orphans(events + [e]) ==
      if e.ToolInputDelta? && CallsOf(events) == [] then Orphans(events) + [e.text] else Orphans(events)
    ensures TextReceived(events + [e]) == TextReceived(events) + if e.TextDelta? then e.text else ""
  {
    assert (events + [e])[..|events|] == events;
  }

  /** What the client holds, after any stream of fewer than 2^32 tool starts. */
  lemma {:induction false} ClientHolds(events: seq<Event>)
    requires |CallsOf(events)| < U32
    ensures Accumulate(Forwarded(events)) == Held(events)
    ensures TextOf(Forwarded(events)) == TextReceived(events)
  {
    if events != [] {
      var init, e := events[..|events| - 1], events[|events| - 1];
      assert events == init + [e];
      ForwardedSnoc(init, e);
      ClientHolds(init);
      IndexIsCount(init);
      StepHolds(init, e);
    }
  }

  lemma {:induction false} StepHolds(init: seq<Event>, e: Event)
    requires |CallsOf(init + [e])| < U32 && ToolIndex(init) == |CallsOf(init)|
    requires Accumulate(Forwarded(init)) == Held(init) && TextOf(Forwarded(init)) == TextReceived(init)
    ensures Accumulate(Forwarded(init + [e])) == Held(init + [e])
    ensures TextOf(Forwarded(init + [e])) == TextReceived(init + [e])
  {
    hide Accumulate, TextOf, Forwarded, CallsOf, Orphans, TextReceived, ToolIndex, Flatten;
    ForwardedSnoc(init, e);
    var calls, chunks := CallsOf(init), Forwarded(init);
    var sent := ChunksFor(e, ToolIndex(init));
    match e
    case TextDelta(_) =>
      MergeOne(chunks, sent[0]);
    case ToolUseStart(id, name) =>
      MergeOne(chunks, sent[0]);
      StartHolds(init, id, name);
    case ToolInputDelta(t) =>
      MergeOne(chunks, sent[0]);
      InputHolds(init, t);
    case Other =>
      assert chunks + [] == chunks;
  }

  lemma {:induction false} StartHolds(init: seq<Event>, id: string, name: string)
    ensures Held(init + [ToolUseStart(id, name)])
         == Merge(Held(init), ToolCall(|CallsOf(init)|, Some(id), Some(name), ""))
  {
    ForwardedSnoc(init, ToolUseStart(id, name));
    FlattenNone();
    hide CallsOf, Orphans, Flatten;
    var calls, o := CallsOf(init), Flatten(Orphans(init));
    if calls == [] {
      FirstStartHolds(Orphans(init), id, name);
    } else {
      LaterStartHolds(calls, o, id, name);
    }
  }

  lemma {:induction false} LaterStartHolds(calls: seq<Call>, o: string, id: string, name: string)
    requires calls != []
    ensures var after := calls + [Call(id, name, "")];
      AsMap(after[0 := after[0].(arguments := o + after[0].arguments)])
        == Merge(AsMap(calls[0 := calls[0].(arguments := o + calls[0].arguments)]),
                 ToolCall(|calls|, Some(id), Some(name), ""))
  {
    var held := calls[0 := calls[0].(arguments := o + calls[0].arguments)];
    var after := calls + [Call(id, name, "")];
    assert after[0 := after[0].(arguments := o + after[0].arguments)] == held + [Call(id, name, "")];
    assert "" + "" == "";
    AsMapSnoc(held, Call(id, name, ""));
    hide AsMap;
    assert |calls| !in AsMap(held) by { KeysOfMap(held); }
  }

  lemma {:induction false} KeysOfMap(calls: seq<Call>)
    ensures |calls| !in AsMap(calls)
  {
  }

  lemma {:induction false} AsMapSnoc(calls: seq<Call>, c: Call)
    ensures AsMap(calls + [c]) == AsMap(calls)[|calls| := c]
  {
  }

  lemma {:induction false} FirstStartHolds(orphans: seq<string>, id: string, name: string)
    ensures var o := Flatten(orphans);
      var before: map<nat, Call> := if orphans == [] then map[] else map[0 := Call("", "", o)];
      AsMap([Call(id, name, "")][0 := Call(id, name, o + "")])
        == Merge(before, ToolCall(0, Some(id), Some(name), ""))
  {
    var o := Flatten(orphans);
    if orphans == [] { FlattenNone(); }
    assert o + "" == o;
    assert [Call(id, name, "")][0 := Call(id, name, o + "")] == [Call(id, name, o)];
  }

  lemma {:induction false} FlattenNone()
    ensures Flatten<char>([]) == ""
  {
  }

  lemma {:induction false} InputHolds(init: seq<Event>, t: string)
    ensures var n := |CallsOf(init)|;
      Held(init + [ToolInputDelta(t)]) == Merge(Held(init), ToolCall(if n == 0 then 0 else n - 1, None, None, t))
  {
    ForwardedSnoc(init, ToolInputDelta(t));
    var calls, orphans := CallsOf(init), Orphans(init);
    FlattenSnoc(orphans, t);
    FlattenNone();
    hide CallsOf, Orphans, Flatten;
    if calls == [] {
      assert "" + t == t;
    } else {
      LaterInputHolds(calls, Flatten(orphans), t);
    }
  }

  lemma {:induction false} LaterInputHolds(calls: seq<Call>, o: string, t: string)
    requires calls != []
    ensures var n := |calls| - 1;
      var after := calls[n := calls[n].(arguments := calls[n].arguments + t)];
      AsMap(after[0 := after[0].(arguments := o + after[0].arguments)])
        == Merge(AsMap(calls[0 := calls[0].(arguments := o + calls[0].arguments)]), ToolCall(n, None, None, t))
  {
    var n := |calls| - 1;
    var after := calls[n := calls[n].(arguments := calls[n].arguments + t)];
    var held := calls[0 := calls[0].(arguments := o + calls[0].arguments)];
    assert o + (calls[0].arguments + t) == o + calls[0].arguments + t;
    assert after[0 := after[0].(arguments := o + after[0].arguments)]
        == held[n := held[n].(arguments := held[n].arguments + t)];
  }

  /** A client that accumulates by index rebuilds exactly one call per tool start, at the indices
      0..n-1, if and only if no tool input was lost before the first start. */
  lemma {:induction false} ClientRebuildsCallsIff(events: seq<Event>)
    requires |CallsOf(events)| < U32
    ensures Accumulate(Forwarded(events)) == AsMap(CallsOf(events)) <==>
            Orphans(events) == [] || (CallsOf(events) != [] && Flatten(Orphans(events)) == "")
  {
    ClientHolds(events);
    hide Accumulate, Forwarded, CallsOf, Orphans;
    var calls, orphans := CallsOf(events), Orphans(events);
    var o := Flatten(orphans);
    if orphans == [] { FlattenNone(); }
    if calls == [] {
      assert AsMap(calls) == map[];
      if orphans != [] { assert 0 in Held(events); }
    } else {
      assert o == "" ==> o + calls[0].arguments == calls[0].arguments;
      assert o != "" ==> |o + calls[0].arguments| > |calls[0].arguments|;
      assert Held(events)[0].arguments == o + calls[0].arguments;
      if o == "" { assert calls[0 := calls[0].(arguments := o + calls[0].arguments)] == calls; }
    }
  }

  /** Input before the first start ends up in front of the first call's own input. */
  lemma {:induction false} OrphanWitness()
    ensures var events := [ToolInputDelta("x"), ToolUseStart("id", "name")];
      Accumulate(Forwarded(events)) != AsMap(CallsOf(events))
  {
    var i, s := ToolInputDelta("x"), ToolUseStart("id", "name");
    ForwardedSnoc([], i);
    ForwardedSnoc([i], s);
    assert [] + [i] == [i] && [i] + [s] == [i, s];
    assert Orphans([i, s]) == [] + ["x"] == ["x"] && |CallsOf([i, s])| == 1;
    FlattenSnoc([], "x");
    FlattenNone();
    assert Flatten([] + ["x"]) == "" + "x" == "x";
    hide Accumulate, Forwarded, Orphans, CallsOf, Flatten, AsMap;
    ClientRebuildsCallsIff([i, s]);
  }

  // ---------- What is sent for each event ----------

  function StartsIn(events: seq<Event>): nat {
    if events == [] then 0
    else StartsIn(events[..|events| - 1]) + if events[|events| - 1].ToolUseStart? then 1 else 0
  }

  /** One chunk for a text delta, a tool start or a tool input, none for any other event: a start
      carries the number of starts before it, an input that of the start before it, and zero when the
      32-bit counter stands at zero. */
  lemma {:induction false} OneChunkPerEvent(events: seq<Event>, e: Event)
    ensures var n := StartsIn(events) % 0x1_0000_0000;
      Forwarded(events + [e]) == Forwarded(events) +
        match e
        case TextDelta(t) => [Content(t)]
        case ToolUseStart(id, name) => [ToolCall(n, Some(id), Some(name), "")]
        case ToolInputDelta(t) => [ToolCall(if n == 0 then 0 else n - 1, None, None, t)]
        case Other => []
    ensures Forwarded([]) == []
  {
    assert (events + [e])[..|events|] == events;
    IndexIsStarts(events);
  }

  lemma {:induction false} IndexIsStarts(events: seq<Event>)
    ensures ToolIndex(events) == StartsIn(events) % 0x1_0000_0000
  {
    if events != [] { IndexIsStarts(events[..|events| - 1]); }
  }
}
