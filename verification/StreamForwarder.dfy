/** The WebSocket stream forwarder: deltas are collected in two buffers and sent when a buffer is long
    enough, when the debounce timer fires, or before any other event. */
module StreamForwarder {
  import opened Text
  import opened Utf8

  const DEBOUNCE_MS: nat := 100
  const DEBOUNCE_CHARS: nat := 200
  const FAR_FUTURE_MS: nat := 86_400_000

  /** `json` is what the event maps to at the current verbosity, if anything. */
  datatype Event =
    | TextDelta(text: string)
    | ThinkingDelta(text: string)
    | ToolUseStart(name: string, json: Option<string>)
    | Other(json: Option<string>)

  datatype Message = TextMsg(content: string) | ThinkingMsg(content: string)
    | TypingMsg(tool: string) | JsonMsg(body: string)

  datatype Cause = Recv(event: Event) | Ended | TimerFired
  datatype Input = Input(now: nat, cause: Cause)

  datatype State = State(text: string, thinking: string, deadline: nat, far: nat, out: seq<Message>)

  function Start(now: nat): State {
    State("", "", now + FAR_FUTURE_MS, now + FAR_FUTURE_MS, [])
  }

  function FlushText(s: State): State {
    if s.text == "" then s else s.(text := "", out := s.out + [TextMsg(s.text)])
  }

  function FlushThinking(s: State): State {
    if s.thinking == "" then s else s.(thinking := "", out := s.out + [ThinkingMsg(s.thinking)])
  }

  function FlushBoth(s: State): State {
    FlushText(FlushThinking(s))
  }

  function Arm(s: State, now: nat): State {
    if s.deadline >= s.far then s.(deadline := now + DEBOUNCE_MS) else s
  }

  function Body(json: Option<string>): seq<Message> {
    if json.Some? then [JsonMsg(json.value)] else []
  }

  /** What is sent for an event that is not a delta. */
  function Sends(e: Event): seq<Message> {
    match e
    case ToolUseStart(name, json) => [TypingMsg(name)] + Body(json)
    case Other(json) => Body(json)
    case _ => []
  }

  predicate IsDelta(e: Event) {
    e.TextDelta? || e.ThinkingDelta?
  }

  function OnEvent(s: State, now: nat, e: Event): State {
    match e
    case TextDelta(t) =>
      var u := FlushThinking(s);
      var v := u.(text := u.text + t);
      if |Encode(v.text)| >= DEBOUNCE_CHARS then FlushText(v).(deadline := s.far) else Arm(v, now)
    case ThinkingDelta(t) =>
      var v := s.(thinking := s.thinking + t);
      if |Encode(v.thinking)| >= DEBOUNCE_CHARS then FlushThinking(v).(deadline := s.far) else Arm(v, now)
    case _ =>
      var v := FlushBoth(s).(deadline := s.far);
      v.(out := v.out + Sends(e))
  }

  function Step(s: State, i: Input): State {
    match i.cause
    case Recv(e) => OnEvent(s, i.now, e)
    case Ended => FlushBoth(s)
    case TimerFired => FlushBoth(s).(deadline := s.far)
  }

  function Run(s: State, inputs: seq<Input>): State {
    if inputs == [] then s else Step(Run(s, inputs[..|inputs| - 1]), inputs[|inputs| - 1])
  }

  lemma {:induction false} RunConcat(s: State, a: seq<Input>, b: seq<Input>)
    ensures Run(s, a + b) == Run(Run(s, a), b)
  {
    if b == [] {
      assert a + b == a;
    } else {
      assert (a + b)[..|a + b| - 1] == a + b[..|b| - 1];
      RunConcat(s, a, b[..|b| - 1]);
    }
  }

  method FlushTextBuffer(out: seq<Message>, buffer: string) returns (sent: seq<Message>, cleared: string)
    ensures sent == out + (if buffer == "" then [] else [TextMsg(buffer)]) && cleared == ""
  {
    if buffer == "" { return out, buffer; }
    return out + [TextMsg(buffer)], "";
  }

  method FlushThinkingBuffer(out: seq<Message>, buffer: string) returns (sent: seq<Message>, cleared: string)
    ensures sent == out + (if buffer == "" then [] else [ThinkingMsg(buffer)]) && cleared == ""
  {
    if buffer == "" { return out, buffer; }
    return out + [ThinkingMsg(buffer)], "";
  }

  /** One received event: deltas are buffered, anything else flushes both buffers first. */
  method HandleEvent(text0: string, thinking0: string, deadline0: nat, far: nat,
      sent0: seq<Message>, now: nat, event: Event)
    returns (text: string, thinking: string, deadline: nat, sent: seq<Message>)
    ensures State(text, thinking, deadline, far, sent) ==
      OnEvent(State(text0, thinking0, deadline0, far, sent0), now, event)
  {
    hide Encode;
    text, thinking, deadline, sent := text0, thinking0, deadline0, sent0;
    if event.TextDelta? {
      sent, thinking := FlushThinkingBuffer(sent, thinking);
      text := text + event.text;
      if |Encode(text)| >= DEBOUNCE_CHARS {
        sent, text := FlushTextBuffer(sent, text);
        deadline := far;
      } else if deadline >= far {
        deadline := now + DEBOUNCE_MS;
      }
    } else if event.ThinkingDelta? {
      thinking := thinking + event.text;
      if |Encode(thinking)| >= DEBOUNCE_CHARS {
        sent, thinking := FlushThinkingBuffer(sent, thinking);
        deadline := far;
      } else if deadline >= far {
        deadline := now + DEBOUNCE_MS;
      }
    } else {
      sent, thinking := FlushThinkingBuffer(sent, thinking);
      sent, text := FlushTextBuffer(sent, text);
      deadline := far;
      if event.ToolUseStart? { sent := sent + [TypingMsg(event.name)]; }
      if event.json.Some? { sent := sent + [JsonMsg(event.json.value)]; }
    }
  }

  /** The forwarder itself: it consumes inputs until the event channel closes. */
  method Forward(start: nat, inputs: seq<Input>) returns (out: seq<Message>, consumed: nat)
    ensures consumed <= |inputs|
    ensures forall i :: 0 <= i < consumed - 1 ==> !inputs[i].cause.Ended?
    ensures consumed < |inputs| ==> consumed > 0 && inputs[consumed - 1].cause.Ended?
    ensures out == Run(Start(start), inputs[..consumed]).out
  {
    hide OnEvent;
    var textBuffer, thinkingBuffer := "", "";
    var farFuture := start + FAR_FUTURE_MS;
    var flushDeadline: nat := farFuture;
    out, consumed := [], 0;
    assert inputs[..0] == [];
    while consumed < |inputs|
      invariant consumed <= |inputs|
      invariant forall i :: 0 <= i < consumed ==> !inputs[i].cause.Ended?
      invariant Run(Start(start), inputs[..consumed]) ==
        State(textBuffer, thinkingBuffer, flushDeadline, farFuture, out)
    {
      var input := inputs[consumed];
      assert inputs[..consumed + 1][..consumed] == inputs[..consumed];
      consumed := consumed + 1;
      match input.cause
      case Ended =>
        out, thinkingBuffer := FlushThinkingBuffer(out, thinkingBuffer);
        out, textBuffer := FlushTextBuffer(out, textBuffer);
        break;
      case TimerFired =>
        out, thinkingBuffer := FlushThinkingBuffer(out, thinkingBuffer);
        out, textBuffer := FlushTextBuffer(out, textBuffer);
        flushDeadline := farFuture;
      case Recv(event) =>
        textBuffer, thinkingBuffer, flushDeadline, out :=
          HandleEvent(textBuffer, thinkingBuffer, flushDeadline, farFuture, out, input.now, event);
    }
  }

  // ---------- Nothing lost, nothing mixed up within a kind ----------

  function TextSent(out: seq<Message>): string {
    if out == [] then ""
    else TextSent(out[..|out| - 1]) + if out[|out| - 1].TextMsg? then out[|out| - 1].content else ""
  }

  function ThinkingSent(out: seq<Message>): string {
    if out == [] then ""
    else ThinkingSent(out[..|out| - 1]) + if out[|out| - 1].ThinkingMsg? then out[|out| - 1].content else ""
  }

  function TextIn(i: Input): string {
    if i.cause.Recv? && i.cause.event.TextDelta? then i.cause.event.text else ""
  }

  function ThinkingIn(i: Input): string {
    if i.cause.Recv? && i.cause.event.ThinkingDelta? then i.cause.event.text else ""
  }

  function TextReceived(inputs: seq<Input>): string {
    if inputs == [] then "" else TextReceived(inputs[..|inputs| - 1]) + TextIn(inputs[|inputs| - 1])
  }

  function ThinkingReceived(inputs: seq<Input>): string {
    if inputs == [] then "" else ThinkingReceived(inputs[..|inputs| - 1]) + ThinkingIn(inputs[|inputs| - 1])
  }

  lemma {:induction false} SentSnoc(out: seq<Message>, m: Message)
    ensures TextSent(out + [m]) == TextSent(out) + if m.TextMsg? then m.content else ""
    ensures ThinkingSent(out + [m]) == ThinkingSent(out) + if m.ThinkingMsg? then m.content else ""
  {
    assert (out + [m])[..|out + [m]| - 1] == out;
  }

  lemma {:induction false} SentConcat(a: seq<Message>, b: seq<Message>)
    ensures TextSent(a + b) == TextSent(a) + TextSent(b)
    ensures ThinkingSent(a + b) == ThinkingSent(a) + ThinkingSent(b)
  {
    if b == [] {
      assert a + b == a;
    } else {
      var init, m := b[..|b| - 1], b[|b| - 1];
      assert a + b == a + init + [m] && b == init + [m];
      SentSnoc(a + init, m);
      SentConcat(a, init);
    }
  }

  lemma {:induction false} FlushKeepsText(s: State)
    ensures TextSent(FlushThinking(s).out) == TextSent(s.out)
    ensures ThinkingSent(FlushThinking(s).out) + FlushThinking(s).thinking == ThinkingSent(s.out) + s.thinking
    ensures TextSent(FlushText(s).out) + FlushText(s).text == TextSent(s.out) + s.text
    ensures ThinkingSent(FlushText(s).out) == ThinkingSent(s.out)
  {
    SentSnoc(s.out, ThinkingMsg(s.thinking));
    SentSnoc(s.out, TextMsg(s.text));
  }

  lemma {:induction false} SendsHoldNoDelta(out: seq<Message>, e: Event)
    ensures TextSent(out + Sends(e)) == TextSent(out) && ThinkingSent(out + Sends(e)) == ThinkingSent(out)
  {
    SentConcat(out, Sends(e));
    if e.ToolUseStart? {
      SentConcat([TypingMsg(e.name)], Body(e.json));
    }
  }

  /** From `s` to `r` exactly `text` and `thinking` were taken in; nothing already sent changed. */
  ghost predicate Accounts(s: State, r: State, text: string, thinking: string) {
    && TextSent(r.out) + r.text == TextSent(s.out) + s.text + text
    && ThinkingSent(r.out) + r.thinking == ThinkingSent(s.out) + s.thinking + thinking
    && s.out <= r.out
  }

  lemma {:induction false} AccountsNext(s: State, r: State, q: State, t1: string, k1: string, t2: string, k2: string)
    requires Accounts(s, r, t1, k1) && Accounts(r, q, t2, k2)
    ensures Accounts(s, q, t1 + t2, k1 + k2)
  {
    hide TextSent, ThinkingSent;
    assert TextSent(s.out) + s.text + (t1 + t2) == TextSent(s.out) + s.text + t1 + t2;
    assert ThinkingSent(s.out) + s.thinking + (k1 + k2) == ThinkingSent(s.out) + s.thinking + k1 + k2;
  }

  lemma {:induction false} StepAccounts(s: State, i: Input)
    ensures Accounts(s, Step(s, i), TextIn(i), ThinkingIn(i))
  {
    hide Encode, TextSent, ThinkingSent;
    FlushKeepsText(s);
    FlushKeepsText(FlushThinking(s));
    if i.cause.Recv? {
      match i.cause.event
      case TextDelta(t) =>
        FlushKeepsText(FlushThinking(s).(text := s.text + t));
        assert TextSent(s.out) + (s.text + t) == TextSent(s.out) + s.text + t;
      case ThinkingDelta(t) =>
        FlushKeepsText(s.(thinking := s.thinking + t));
        assert ThinkingSent(s.out) + (s.thinking + t) == ThinkingSent(s.out) + s.thinking + t;
      case e =>
        SendsHoldNoDelta(FlushBoth(s).out, e);
    }
  }

  /** For every interleaving of events and timer firings, what was sent as text followed by the text
      buffer is the received text, and likewise for thinking. */
  lemma {:induction false} RunAccounts(s: State, inputs: seq<Input>)
    ensures Accounts(s, Run(s, inputs), TextReceived(inputs), ThinkingReceived(inputs))
  {
    if inputs != [] {
      hide Step, Accounts, TextIn, ThinkingIn;
      var init, last := inputs[..|inputs| - 1], inputs[|inputs| - 1];
      RunAccounts(s, init);
      StepAccounts(Run(s, init), last);
      AccountsNext(s, Run(s, init), Run(s, inputs),
                   TextReceived(init), ThinkingReceived(init), TextIn(last), ThinkingIn(last));
    }
  }

  /** Once the channel has closed nothing stays behind: all text and thinking received was sent. */
  lemma {:induction false} ClosedRunSentAll(start: nat, inputs: seq<Input>)
    requires inputs != [] && inputs[|inputs| - 1].cause.Ended?
    ensures var r := Run(Start(start), inputs);
      TextSent(r.out) == TextReceived(inputs) && ThinkingSent(r.out) == ThinkingReceived(inputs)
  {
    var s := Start(start);
    RunAccounts(s, inputs);
    var r := Run(s, inputs);
    assert r.text == "" && r.thinking == "";
    assert TextSent(r.out) == TextSent(r.out) + r.text && ThinkingSent(r.out) == ThinkingSent(r.out) + r.thinking;
    assert TextSent(s.out) + s.text + TextReceived(inputs) == TextReceived(inputs);
    assert ThinkingSent(s.out) + s.thinking + ThinkingReceived(inputs) == ThinkingReceived(inputs);
  }

  /** A non-delta event is a barrier: what is sent for it comes after all text and thinking received
      before it and before all received after it. */
  lemma {:induction false} NonDeltaIsBarrier(start: nat, before: seq<Input>, i: Input, after: seq<Input>)
    returns (first: seq<Message>, sent: seq<Message>, rest: seq<Message>)
    requires i.cause.Recv? && !i.cause.event.TextDelta? && !i.cause.event.ThinkingDelta?
    ensures match i.cause.event
            case ToolUseStart(name, Some(json)) => sent == [TypingMsg(name), JsonMsg(json)]
            case ToolUseStart(name, None) => sent == [TypingMsg(name)]
            case Other(Some(json)) => sent == [JsonMsg(json)]
            case Other(None) => sent == []
    ensures var r := Run(Start(start), before + [i] + after);
      && r.out == first + sent + rest
      && TextSent(first) == TextReceived(before) && ThinkingSent(first) == ThinkingReceived(before)
      && TextSent(rest) + r.text == TextReceived(after)
      && ThinkingSent(rest) + r.thinking == ThinkingReceived(after)
  {
    var s := Run(Start(start), before);
    first := BarrierEmpties(start, before, i);
    var t := Step(s, i);
    RunConcat(Start(start), before + [i], after);
    sent := Sends(i.cause.event);
    assert i.cause.event.json.None? ==> sent == (if i.cause.event.Other? then [] else [TypingMsg(i.cause.event.name)]);
    hide Run, Step, Sends, TextSent, ThinkingSent, TextReceived, ThinkingReceived;
    rest := SentSince(t, after);
  }

  lemma {:induction false} BarrierEmpties(start: nat, before: seq<Input>, i: Input) returns (first: seq<Message>)
    requires i.cause.Recv? && !IsDelta(i.cause.event)
    ensures var t := Step(Run(Start(start), before), i);
      && Run(Start(start), before + [i]) == t
      && t.text == "" && t.thinking == "" && t.out == first + Sends(i.cause.event)
      && TextSent(first) == TextReceived(before) && ThinkingSent(first) == ThinkingReceived(before)
  {
    var s0 := Start(start);
    var s := Run(s0, before);
    assert (before + [i])[..|before|] == before;
    FlushedAll(s);
    RunAccounts(s0, before);
    first := FlushBoth(s).out;
    assert TextSent(s0.out) + s0.text + TextReceived(before) == TextReceived(before);
    assert ThinkingSent(s0.out) + s0.thinking + ThinkingReceived(before) == ThinkingReceived(before);
  }

  lemma {:induction false} FlushedAll(s: State)
    ensures var f := FlushBoth(s);
      && f.text == "" && f.thinking == ""
      && TextSent(f.out) == TextSent(s.out) + s.text && ThinkingSent(f.out) == ThinkingSent(s.out) + s.thinking
  {
    hide TextSent, ThinkingSent;
    FlushKeepsText(s);
    FlushKeepsText(FlushThinking(s));
    assert forall x: string :: x + "" == x;
  }

  lemma {:induction false} SentSince(t: State, after: seq<Input>) returns (rest: seq<Message>)
    requires t.text == "" && t.thinking == ""
    ensures var r := Run(t, after);
      && r.out == t.out + rest
      && TextSent(rest) + r.text == TextReceived(after)
      && ThinkingSent(rest) + r.thinking == ThinkingReceived(after)
  {
    RunAccounts(t, after);
    hide Run, TextSent, ThinkingSent, TextReceived, ThinkingReceived;
    var r := Run(t, after);
    rest := r.out[|t.out|..];
    assert r.out == t.out + rest;
    SentConcat(t.out, rest);
    var x, y := TextSent(t.out), ThinkingSent(t.out);
    assert x + (TextSent(rest) + r.text) == x + TextSent(rest) + r.text;
    assert x + t.text + TextReceived(after) == x + TextReceived(after);
    CancelPrefix(x, TextSent(rest) + r.text, TextReceived(after));
    assert y + (ThinkingSent(rest) + r.thinking) == y + ThinkingSent(rest) + r.thinking;
    assert y + t.thinking + ThinkingReceived(after) == y + ThinkingReceived(after);
    CancelPrefix(y, ThinkingSent(rest) + r.thinking, ThinkingReceived(after));
  }

  lemma {:induction false} CancelPrefix(p: string, a: string, b: string)
    requires p + a == p + b
    ensures a == b
  {
    assert (p + a)[|p|..] == a && (p + b)[|p|..] == b;
  }

  // ---------- Full order ----------

  /** One received or sent character of text or thinking, or one message sent for another event. */
  datatype Item = T(c: char) | K(c: char) | M(m: Message)

  function Texts(s: string): seq<Item> {
    seq(|s|, i requires 0 <= i < |s| => T(s[i]))
  }

  function Thoughts(s: string): seq<Item> {
    seq(|s|, i requires 0 <= i < |s| => K(s[i]))
  }

  function ItemsOf(m: Message): seq<Item> {
    match m
    case TextMsg(s) => Texts(s)
    case ThinkingMsg(s) => Thoughts(s)
    case _ => [M(m)]
  }

  function Flow(out: seq<Message>): seq<Item> {
    if out == [] then [] else Flow(out[..|out| - 1]) + ItemsOf(out[|out| - 1])
  }

  function ItemsIn(i: Input): seq<Item> {
    if !i.cause.Recv? then []
    else match i.cause.event
      case TextDelta(t) => Texts(t)
      case ThinkingDelta(t) => Thoughts(t)
      case e => Flow(Sends(e))
  }

  function Received(inputs: seq<Input>): seq<Item> {
    if inputs == [] then [] else Received(inputs[..|inputs| - 1]) + ItemsIn(inputs[|inputs| - 1])
  }

  /** Everything sent, then what the next flush sends. */
  function Total(s: State): seq<Item> {
    Flow(s.out) + Thoughts(s.thinking) + Texts(s.text)
  }

  /** Thinking arrives while text is waiting: it will be sent first. */
  predicate Overtakes(s: State, i: Input) {
    s.text != "" && ThinkingIn(i) != ""
  }

  ghost predicate NoOvertaking(s: State, inputs: seq<Input>) {
    inputs == []
    || (NoOvertaking(s, inputs[..|inputs| - 1]) && !Overtakes(Run(s, inputs[..|inputs| - 1]), inputs[|inputs| - 1]))
  }

  lemma {:induction false} NoOvertakingIff(s: State, inputs: seq<Input>)
    ensures NoOvertaking(s, inputs) <==> forall i :: 0 <= i < |inputs| ==> !Overtakes(Run(s, inputs[..i]), inputs[i])
  {
    hide Run, Overtakes;
    if inputs != [] {
      var init := inputs[..|inputs| - 1];
      NoOvertakingIff(s, init);
      assert forall i :: 0 <= i < |init| ==> inputs[..i] == init[..i] && inputs[i] == init[i];
    }
  }

  lemma {:induction false} FlowSnoc(out: seq<Message>, m: Message)
    ensures Flow(out + [m]) == Flow(out) + ItemsOf(m)
  {
    assert (out + [m])[..|out + [m]| - 1] == out;
  }

  lemma {:induction false} FlowConcat(a: seq<Message>, b: seq<Message>)
    ensures Flow(a + b) == Flow(a) + Flow(b)
  {
    hide ItemsOf;
    if b == [] {
      assert a + b == a;
    } else {
      var init, m := b[..|b| - 1], b[|b| - 1];
      assert a + b == a + init + [m] && b == init + [m];
      hide Flow;
      FlowConcat(a, init);
      FlowSnoc(a + init, m);
      FlowSnoc(init, m);
    }
  }

  lemma {:induction false} FlushKeepsTotal(s: State)
    ensures Total(FlushThinking(s)) == Total(s)
    ensures s.thinking == "" ==> Total(FlushText(s)) == Total(s)
  {
    hide Total;
    FlushThinkingKeepsTotal(s);
    if s.thinking == "" { FlushTextKeepsTotal(s); }
  }

  lemma {:induction false} FlushThinkingKeepsTotal(s: State)
    ensures Total(FlushThinking(s)) == Total(s)
  {
    FlowSnoc(s.out, ThinkingMsg(s.thinking));
    NoItems();
    hide Flow, Texts, Thoughts;
    var out, k, t := Flow(s.out), Thoughts(s.thinking), Texts(s.text);
    assert out + k + [] + t == out + k + t;
  }

  lemma {:induction false} FlushTextKeepsTotal(s: State)
    requires s.thinking == ""
    ensures Total(FlushText(s)) == Total(s)
  {
    FlowSnoc(s.out, TextMsg(s.text));
    NoItems();
    hide Flow, Texts, Thoughts;
    var out, t := Flow(s.out), Texts(s.text);
    assert out + [] + t == out + t && out + t + [] + [] == out + t;
  }

  /** A step appends what it received, except that overtaking thinking goes before waiting text. */
  lemma {:induction false} StepTotal(s: State, i: Input)
    ensures if Overtakes(s, i) then
              Total(Step(s, i)) == Flow(s.out) + Thoughts(s.thinking) + Thoughts(ThinkingIn(i)) + Texts(s.text)
            else Total(Step(s, i)) == Total(s) + ItemsIn(i)
  {
    hide Encode, Flow, Texts, Thoughts;
    FlushKeepsTotal(s);
    FlushKeepsTotal(FlushThinking(s));
    match i.cause
    case Ended =>
    case TimerFired =>
    case Recv(e) =>
      match e
      case TextDelta(t) => TextDeltaTotal(s, i.now, t);
      case ThinkingDelta(t) => ThinkingDeltaTotal(s, i.now, t);
      case _ =>
        FlowConcat(FlushBoth(s).out, Sends(e));
        NoItems();
  }

  lemma {:induction false} NoItems()
    ensures Texts("") == [] && Thoughts("") == []
  {
  }

  lemma {:induction false} ItemsConcat(a: string, b: string)
    ensures Texts(a + b) == Texts(a) + Texts(b) && Thoughts(a + b) == Thoughts(a) + Thoughts(b)
  {
  }

  lemma {:induction false} TextDeltaTotal(s: State, now: nat, t: string)
    ensures Total(OnEvent(s, now, TextDelta(t))) == Total(s) + Texts(t)
  {
    hide Encode, Flow, Texts, Thoughts;
    FlushKeepsTotal(s);
    var u := FlushThinking(s);
    var v := u.(text := u.text + t);
    ItemsConcat(u.text, t);
    assert Total(v) == Total(u) + Texts(t);
    FlushKeepsTotal(v);
  }

  lemma {:induction false} ThinkingDeltaTotal(s: State, now: nat, t: string)
    ensures Total(OnEvent(s, now, ThinkingDelta(t)))
         == Flow(s.out) + Thoughts(s.thinking) + Thoughts(t) + Texts(s.text)
    ensures s.text == "" || t == "" ==> Total(OnEvent(s, now, ThinkingDelta(t))) == Total(s) + Thoughts(t)
  {
    hide Encode, Flow, Texts, Thoughts;
    var v := s.(thinking := s.thinking + t);
    ItemsConcat(s.thinking, t);
    NoItems();
    FlushKeepsTotal(v);
  }

  /** The output, with what is still buffered behind it, is the input in full order if and only if
      no thinking delta arrives while text is waiting. */
  lemma {:induction false} InOrderIff(s: State, inputs: seq<Input>)
    requires Total(s) == []
    ensures Total(Run(s, inputs)) == Received(inputs) <==> NoOvertaking(s, inputs)
  {
    if inputs != [] {
      var n := |inputs| - 1;
      var init, last := inputs[..n], inputs[n];
      InOrderIff(s, init);
      StepKeepsOrderIff(Run(s, init), last, Received(init));
    }
  }

  lemma {:induction false} StepKeepsOrderIff(s: State, i: Input, received: seq<Item>)
    ensures Total(Step(s, i)) == received + ItemsIn(i) <==> Total(s) == received && !Overtakes(s, i)
  {
    hide Step, ItemsIn, Total, Overtakes;
    StepTotal(s, i);
    if Overtakes(s, i) {
      LastDiffers(s, i);
    } else {
      var a, b, e := Total(s), received, ItemsIn(i);
      if a + e == b + e {
        assert (a + e)[..|a|] == a && (b + e)[..|b|] == b;
      }
    }
  }

  lemma {:induction false} LastDiffers(s: State, i: Input)
    requires Overtakes(s, i)
    ensures forall p: seq<Item> :: p + ItemsIn(i) != Total(Step(s, i))
  {
    StepTotal(s, i);
    var r := Total(Step(s, i));
    assert r[|r| - 1] == T(s.text[|s.text| - 1]);
    forall p: seq<Item> ensures p + ItemsIn(i) != r {
      var q := p + ItemsIn(i);
      assert q[|q| - 1] == K(ThinkingIn(i)[|ThinkingIn(i)| - 1]);
    }
  }

  /** After the close nothing is buffered, so the messages themselves are the input in order. */
  lemma {:induction false} ClosedRunInOrderIff(start: nat, inputs: seq<Input>)
    requires inputs != [] && inputs[|inputs| - 1].cause.Ended?
    ensures Flow(Run(Start(start), inputs).out) == Received(inputs) <==> NoOvertaking(Start(start), inputs)
  {
    InOrderIff(Start(start), inputs);
    NoItems();
    hide Received, NoOvertaking;
  }

  /** The response shape the forwarder assumes: between two other events thinking comes first. */
  ghost predicate ThinkingFirst(inputs: seq<Input>) {
    forall i, j :: 0 <= i < j < |inputs| && TextIn(inputs[i]) != "" && ThinkingIn(inputs[j]) != "" ==>
      exists k :: i < k < j && Separates(inputs[k])
  }

  predicate Separates(i: Input) {
    i.cause.Recv? && !IsDelta(i.cause.event)
  }

  /** Waiting text arrived after the last separating event. */
  lemma {:induction false} WaitingTextIsRecent(start: nat, inputs: seq<Input>, j: nat) returns (i: nat)
    requires j <= |inputs| && Run(Start(start), inputs[..j]).text != ""
    ensures i < j && TextIn(inputs[i]) != "" && forall k :: i < k < j ==> !Separates(inputs[k])
  {
    hide Encode;
    var n := j - 1;
    assert inputs[..j][..n] == inputs[..n] && inputs[..j][n] == inputs[n];
    var s := Run(Start(start), inputs[..n]);
    if TextIn(inputs[n]) != "" {
      i := n;
    } else {
      assert s.text != "" && !Separates(inputs[n]);
      i := WaitingTextIsRecent(start, inputs, n);
    }
  }

  /** On that shape nothing overtakes, so the output is the input in full order. */
  lemma {:induction false} ThinkingFirstInOrder(start: nat, inputs: seq<Input>)
    requires ThinkingFirst(inputs)
    ensures NoOvertaking(Start(start), inputs)
    ensures Total(Run(Start(start), inputs)) == Received(inputs)
  {
    var s := Start(start);
    forall j | 0 <= j < |inputs| ensures !Overtakes(Run(s, inputs[..j]), inputs[j]) {
      NotOvertakenAt(start, inputs, j);
    }
    assert Total(s) == [] by { NoItems(); }
    hide Run, Total, Received;
    NoOvertakingIff(s, inputs);
    InOrderIff(s, inputs);
  }

  lemma {:induction false} NotOvertakenAt(start: nat, inputs: seq<Input>, j: nat)
    requires ThinkingFirst(inputs) && j < |inputs|
    ensures !Overtakes(Run(Start(start), inputs[..j]), inputs[j])
  {
    hide Run;
    if Overtakes(Run(Start(start), inputs[..j]), inputs[j]) {
      var i := WaitingTextIsRecent(start, inputs, j);
      assert false;
    }
  }

  /** Then at most one buffer is in use at any time. */
  lemma {:induction false} OneBufferInUse(s: State, inputs: seq<Input>)
    requires (s.text == "" || s.thinking == "") && NoOvertaking(s, inputs)
    ensures var r := Run(s, inputs); r.text == "" || r.thinking == ""
  {
    if inputs != [] {
      var n := |inputs| - 1;
      OneBufferInUse(s, inputs[..n]);
      assert Run(s, inputs) == Step(Run(s, inputs[..n]), inputs[n]);
      hide NoOvertaking, Run, Step;
      OneBufferStep(Run(s, inputs[..n]), inputs[n]);
    }
  }

  lemma {:induction false} OneBufferStep(s: State, i: Input)
    requires (s.text == "" || s.thinking == "") && !Overtakes(s, i)
    ensures var r := Step(s, i); r.text == "" || r.thinking == ""
  {
    hide Encode, Sends;
    if i.cause.Recv? && i.cause.event.ThinkingDelta? && s.text != "" { assert ThinkingIn(i) == ""; }
  }

  // ---------- Timeliness ----------

  /** A run together with the arrival times of the first character in each buffer. */
  datatype Clocked = Clocked(s: State, textSince: nat, thinkingSince: nat)

  ghost function ClockedStep(c: Clocked, i: Input): Clocked {
    Clocked(Step(c.s, i),
            if c.s.text == "" then i.now else c.textSince,
            if c.s.thinking == "" then i.now else c.thinkingSince)
  }

  ghost function ClockedRun(start: nat, inputs: seq<Input>): Clocked {
    if inputs == [] then Clocked(Start(start), start, start)
    else ClockedStep(ClockedRun(start, inputs[..|inputs| - 1]), inputs[|inputs| - 1])
  }

  /** Whatever waits has a flush scheduled within the debounce interval after its first character. */
  ghost predicate Timely(c: Clocked) {
    && (c.s.text != "" ==> c.s.deadline < c.s.far && c.s.deadline <= c.textSince + DEBOUNCE_MS)
    && (c.s.thinking != "" ==> c.s.deadline < c.s.far && c.s.deadline <= c.thinkingSince + DEBOUNCE_MS)
  }

  /** Thinking is flushed for its length while text waits: this also cancels the timer of the text. */
  predicate Strands(s: State, i: Input) {
    && s.text != "" && i.cause.Recv? && i.cause.event.ThinkingDelta?
    && |Encode(s.thinking + i.cause.event.text)| >= DEBOUNCE_CHARS
  }

  /** The clock does not run backwards and the run ends before the far-future instant. */
  ghost predicate Clockwise(start: nat, inputs: seq<Input>) {
    && (forall i :: 0 <= i < |inputs| ==> start <= inputs[i].now && inputs[i].now + DEBOUNCE_MS < start + FAR_FUTURE_MS)
    && forall i, j :: 0 <= i <= j < |inputs| ==> inputs[i].now <= inputs[j].now
  }

  ghost predicate ArmedBy(c: Clocked, now: nat) {
    && (c.s.deadline < c.s.far ==> c.s.deadline <= now + DEBOUNCE_MS)
    && c.textSince <= now && c.thinkingSince <= now
  }

  lemma {:induction false} ClockedStepTimely(c: Clocked, i: Input)
    requires Timely(c) && ArmedBy(c, i.now) && i.now + DEBOUNCE_MS < c.s.far
    ensures var d := ClockedStep(c, i);
      ArmedBy(d, i.now) && d.s.far == c.s.far && (Timely(d) <==> !Strands(c.s, i))
  {
    hide Encode;
    if Strands(c.s, i) { assert ClockedStep(c, i).s.deadline == c.s.far; }
  }

  ghost predicate AlwaysTimely(start: nat, inputs: seq<Input>) {
    forall n :: 0 <= n <= |inputs| ==> Timely(ClockedRun(start, inputs[..n]))
  }

  ghost predicate NeverStrands(start: nat, inputs: seq<Input>) {
    forall n :: 0 <= n < |inputs| ==> !Strands(ClockedRun(start, inputs[..n]).s, inputs[n])
  }

  /** At every moment of a run what waits is due in time, if and only if no thinking delta fills its
      buffer while text is waiting. */
  lemma {:induction false} AlwaysTimelyIff(start: nat, inputs: seq<Input>)
    requires Clockwise(start, inputs)
    ensures AlwaysTimely(start, inputs) <==> NeverStrands(start, inputs)
    ensures AlwaysTimely(start, inputs) ==>
      var c := ClockedRun(start, inputs);
      c.s.far == start + FAR_FUTURE_MS && ArmedBy(c, if inputs == [] then start else inputs[|inputs| - 1].now)
  {
    hide Timely, ArmedBy, ClockedStep, Strands, AlwaysTimely, NeverStrands;
    if inputs == [] {
      TimelyAtStart(start);
    } else {
      var n := |inputs| - 1;
      var init, last := inputs[..n], inputs[n];
      ClockwiseInit(start, inputs);
      hide Clockwise;
      AlwaysTimelyIff(start, init);
      EveryMomentSnoc(start, inputs);
      if AlwaysTimely(start, init) {
        TimelyAtEnd(start, init);
        TimelyNext(ClockedRun(start, init), if n == 0 then start else init[n - 1].now, last);
      }
    }
  }

  lemma {:induction false} ClockwiseInit(start: nat, inputs: seq<Input>)
    requires inputs != [] && Clockwise(start, inputs)
    ensures var n := |inputs| - 1; var init, last := inputs[..n], inputs[n];
      && Clockwise(start, init) && last.now + DEBOUNCE_MS < start + FAR_FUTURE_MS
      && (if n == 0 then start else init[n - 1].now) <= last.now
  {
    var init := inputs[..|inputs| - 1];
    assert forall k :: 0 <= k < |init| ==> init[k] == inputs[k];
  }

  lemma {:induction false} TimelyAtEnd(start: nat, inputs: seq<Input>)
    requires AlwaysTimely(start, inputs)
    ensures Timely(ClockedRun(start, inputs))
  {
    assert inputs[..|inputs|] == inputs;
  }

  lemma {:induction false} TimelyNext(c: Clocked, before: nat, i: Input)
    requires Timely(c) && ArmedBy(c, before) && before <= i.now && i.now + DEBOUNCE_MS < c.s.far
    ensures var d := ClockedStep(c, i);
      ArmedBy(d, i.now) && d.s.far == c.s.far && (Timely(d) <==> !Strands(c.s, i))
  {
    ClockedStepTimely(c, i);
  }

  lemma {:induction false} EveryMomentSnoc(start: nat, inputs: seq<Input>)
    requires inputs != []
    ensures var init, last := inputs[..|inputs| - 1], inputs[|inputs| - 1];
      && (AlwaysTimely(start, inputs) <==> AlwaysTimely(start, init) && Timely(ClockedRun(start, inputs)))
      && (NeverStrands(start, inputs) <==> NeverStrands(start, init) && !Strands(ClockedRun(start, init).s, last))
  {
    hide Strands, Timely, ClockedRun;
    var n := |inputs| - 1;
    var init := inputs[..n];
    assert inputs[..n + 1] == inputs;
    assert forall k :: 0 <= k <= n ==> init[..k] == inputs[..k];
    assert forall k :: 0 <= k < n ==> init[k] == inputs[k];
  }

  lemma {:induction false} TimelyAtStart(start: nat)
    ensures AlwaysTimely(start, []) && NeverStrands(start, [])
    ensures var c := ClockedRun(start, []); ArmedBy(c, start) && c.s.far == start + FAR_FUTURE_MS
  {
    hide Timely, ArmedBy;
    assert Timely(Clocked(Start(start), start, start)) &&
      ArmedBy(Clocked(Start(start), start, start), start) by { ClockedStart(start); }
    forall n | 0 <= n <= 0 ensures Timely(ClockedRun(start, [][..n])) {
      var none: seq<Input> := [];
      assert none[..n] == none;
    }
    assert NeverStrands(start, []);
  }

  lemma {:induction false} ClockedStart(start: nat)
    ensures var c := Clocked(Start(start), start, start); Timely(c) && ArmedBy(c, start)
  {
  }

  lemma {:induction false} ClockedRunIsRun(start: nat, inputs: seq<Input>)
    ensures ClockedRun(start, inputs).s == Run(Start(start), inputs)
  {
    if inputs != [] { ClockedRunIsRun(start, inputs[..|inputs| - 1]); }
  }

  /** On the response shape the forwarder assumes, whatever waits is always due in time. */
  lemma {:induction false} ThinkingFirstTimely(start: nat, inputs: seq<Input>)
    requires ThinkingFirst(inputs) && Clockwise(start, inputs)
    ensures AlwaysTimely(start, inputs)
  {
    ThinkingFirstInOrder(start, inputs);
    NoOvertakingIff(Start(start), inputs);
    forall n | 0 <= n < |inputs| ensures !Strands(ClockedRun(start, inputs[..n]).s, inputs[n]) {
      ClockedRunIsRun(start, inputs[..n]);
      NotStrandedAt(start, inputs, n);
    }
    AlwaysTimelyIff(start, inputs);
  }

  lemma {:induction false} NotStrandedAt(start: nat, inputs: seq<Input>, n: nat)
    requires n < |inputs| && forall i :: 0 <= i <= n ==> !Overtakes(Run(Start(start), inputs[..i]), inputs[i])
    ensures !Strands(Run(Start(start), inputs[..n]), inputs[n])
  {
    hide Run;
    var init := inputs[..n];
    assert forall i :: 0 <= i < n ==> init[..i] == inputs[..i] && init[i] == inputs[i];
    NoOvertakingIff(Start(start), init);
    OneBufferInUse(Start(start), init);
    var s := Run(Start(start), init);
    if s.text != "" && ThinkingIn(inputs[n]) == "" {
      assert s.thinking + "" == "" && Encode("") == [];
    }
  }

  // ---------- What goes wrong otherwise ----------

  lemma {:induction false} RunOfTwo(s: State, i: Input, j: Input)
    ensures Run(s, [i]) == Step(s, i) && Run(s, [i, j]) == Step(Step(s, i), j)
  {
    hide Step;
    assert [i][..0] == [] && [i, j][..1] == [i];
  }

  lemma {:induction false} ShortDelta(s: State, now: nat)
    requires s.text == "" && s.thinking == "" && s.deadline == s.far
    ensures OnEvent(s, now, TextDelta("a")) == s.(text := "a", deadline := now + DEBOUNCE_MS)
  {
    assert "" + "a" == "a";
    EncodeAscii("a");
    hide Encode;
  }

  /** A thinking delta behind a waiting text delta: the output is not in input order. */
  lemma {:induction false} OvertakingWitness()
    ensures var inputs := [Input(0, Recv(TextDelta("a"))), Input(0, Recv(ThinkingDelta("b")))];
      Total(Run(Start(0), inputs)) != Received(inputs)
  {
    var i, j := Input(0, Recv(TextDelta("a"))), Input(0, Recv(ThinkingDelta("b")));
    var s := Start(0);
    RunOfTwo(s, i, j);
    ShortDelta(s, 0);
    NoItems();
    assert Total(s) == [];
    hide Run, Total, Received, Encode;
    InOrderIff(s, [i, j]);
    assert [i, j][..1] == [i];
    assert Overtakes(Run(s, [i]), j);
  }

  /** A long thinking delta behind a waiting text delta: the text is left without a deadline. */
  lemma {:induction false} StrandingWitness(long: string)
    requires |long| == DEBOUNCE_CHARS && IsAscii(long)
    ensures var inputs := [Input(0, Recv(TextDelta("a"))), Input(0, Recv(ThinkingDelta(long)))];
      Run(Start(0), inputs).text == "a" && !AlwaysTimely(0, inputs)
  {
    var i, j := Input(0, Recv(TextDelta("a"))), Input(0, Recv(ThinkingDelta(long)));
    var inputs := [i, j];
    RunOfTwo(Start(0), i, j);
    ShortDelta(Start(0), 0);
    EncodeAscii(long);
    assert "" + long == long;
    ClockedRunIsRun(0, inputs);
    hide Encode;
    assert !Timely(ClockedRun(0, inputs));
    assert inputs[..2] == inputs;
  }
}
