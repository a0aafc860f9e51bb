/** What the forwarder sends, and when, in terms of the events alone. */
module ForwarderLaws {
  import opened Text
  import opened Utf8
  import opened StreamForwarder

  // ---------- Messages that are not deltas ----------

  /** The typing and JSON messages among those sent. */
  function ControlSent(out: seq<Message>): seq<Message> {
    if out == [] then []
    else
      var m := out[|out| - 1];
      ControlSent(out[..|out| - 1]) + if m.TypingMsg? || m.JsonMsg? then [m] else []
  }

  /** What the received events call for: a typing message for each tool start, directly before the
      event's JSON, and the JSON of every event that has one. */
  function ControlDue(inputs: seq<Input>): seq<Message> {
    if inputs == [] then []
    else
      ControlDue(inputs[..|inputs| - 1]) +
      match inputs[|inputs| - 1].cause
      case Recv(ToolUseStart(name, Some(json))) => [TypingMsg(name), JsonMsg(json)]
      case Recv(ToolUseStart(name, None)) => [TypingMsg(name)]
      case Recv(Other(Some(json))) => [JsonMsg(json)]
      case _ => []
  }

  lemma {:induction false} ControlConcat(a: seq<Message>, b: seq<Message>)
    ensures ControlSent(a + b) == ControlSent(a) + ControlSent(b)
  {
    if b == [] {
      assert a + b == a;
    } else {
      assert (a + b)[..|a + b| - 1] == a + b[..|b| - 1];
      ControlConcat(a, b[..|b| - 1]);
    }
  }

  lemma {:induction false} ControlOne(m: Message)
    ensures ControlSent([m]) == if m.TypingMsg? || m.JsonMsg? then [m] else []
  {
    assert [m][..0] == [];
  }

  lemma {:induction false} FlushSendsNoControl(s: State)
    ensures ControlSent(FlushBoth(s).out) == ControlSent(s.out)
    ensures ControlSent(FlushThinking(s).out) == ControlSent(s.out)
    ensures ControlSent(FlushText(s).out) == ControlSent(s.out)
  {
    var t := FlushThinking(s);
    ControlOne(ThinkingMsg(s.thinking));
    ControlOne(TextMsg(s.text));
    hide ControlSent;
    ControlConcat(s.out, [ThinkingMsg(s.thinking)]);
    ControlConcat(s.out, [TextMsg(s.text)]);
    ControlConcat(t.out, [TextMsg(s.text)]);
  }

  /** Over every run the JSON bodies sent are those received, the typing messages are those of the
      tool starts, and each directly precedes its event's JSON, all in order. */
  lemma {:induction false} ControlInOrder(start: nat, inputs: seq<Input>)
    ensures ControlSent(Run(Start(start), inputs).out) == ControlDue(inputs)
  {
    if inputs != [] {
      var init, last := inputs[..|inputs| - 1], inputs[|inputs| - 1];
      ControlInOrder(start, init);
      StepControl(Run(Start(start), init), last);
      hide Step;
    }
  }

  lemma {:induction false} StepControl(s: State, i: Input)
    ensures ControlSent(Step(s, i).out) == ControlSent(s.out) +
      match i.cause
      case Recv(ToolUseStart(name, Some(json))) => [TypingMsg(name), JsonMsg(json)]
      case Recv(ToolUseStart(name, None)) => [TypingMsg(name)]
      case Recv(Other(Some(json))) => [JsonMsg(json)]
      case _ => []
  {
    hide ControlSent, Encode;
    FlushSendsNoControl(s);
    match i.cause
    case Recv(TextDelta(t)) =>
      var u := FlushThinking(s);
      FlushSendsNoControl(u.(text := u.text + t));
    case Recv(ThinkingDelta(t)) =>
      FlushSendsNoControl(s.(thinking := s.thinking + t));
    case Recv(e) =>
      ControlConcat(FlushBoth(s).out, Sends(e));
      SendsAreControl(e);
    case _ =>
  }

  lemma {:induction false} SendsAreControl(e: Event)
    ensures ControlSent(Sends(e)) == Sends(e)
  {
    match e
    case ToolUseStart(name, json) =>
      ControlOne(TypingMsg(name));
      if json.Some? { ControlOne(JsonMsg(json.value)); }
      hide ControlSent;
      ControlConcat([TypingMsg(name)], Body(json));
    case Other(json) =>
      if json.Some? { ControlOne(JsonMsg(json.value)); }
    case _ =>
  }

  // ---------- When deltas are sent ----------

  /** At every moment of a run each buffer holds less than 200 bytes. */
  lemma {:induction false} BuffersStayShort(start: nat, inputs: seq<Input>)
    ensures var r := Run(Start(start), inputs); |Encode(r.text)| < 200 && |Encode(r.thinking)| < 200
  {
    assert |Encode("")| == 0;
    hide Encode;
    if inputs != [] {
      var init, last := inputs[..|inputs| - 1], inputs[|inputs| - 1];
      BuffersStayShort(start, init);
      var s := Run(Start(start), init);
      assert Run(Start(start), inputs) == Step(s, last);
      hide Run;
      StepStaysShort(s, last);
    }
  }

  lemma {:induction false} StepStaysShort(s: State, i: Input)
    requires |Encode(s.text)| < 200 && |Encode(s.thinking)| < 200
    ensures var r := Step(s, i); |Encode(r.text)| < 200 && |Encode(r.thinking)| < 200
  {
    assert |Encode("")| == 0;
    hide Encode, OnEvent;
    match i.cause
    case Recv(TextDelta(t)) => TextSentWhenDue(s, i.now, t);
    case Recv(ThinkingDelta(t)) => ThinkingSentWhenDue(s, i.now, t);
    case Recv(e) => OthersSendAll(s, i.now, e);
    case _ =>
  }

  lemma {:induction false} OthersSendAll(s: State, now: nat, e: Event)
    requires !IsDelta(e)
    ensures var r := OnEvent(s, now, e);
      r.text == "" && r.thinking == "" && r.out == FlushBoth(s).out + Sends(e)
  {
    hide Sends;
  }

  /** What one input adds to the output. */
  function Added(s: State, i: Input): seq<Message> {
    if |Step(s, i).out| >= |s.out| then Step(s, i).out[|s.out|..] else []
  }

  /** A delta is sent on its own arrival only when its buffer has 200 bytes; a text delta first sends
      the thinking that waits, a thinking delta no text, and any other input sends all that waits. */
  lemma {:induction false} SentWhenDue(s: State, i: Input)
    ensures Step(s, i).out == s.out + Added(s, i)
    ensures match i.cause
            case Recv(TextDelta(t)) =>
              && Step(s, i).thinking == ""
              && (forall m :: m in Added(s, i) ==> m == ThinkingMsg(s.thinking) || m == TextMsg(s.text + t))
              && (TextMsg(s.text + t) in Added(s, i) <==> |Encode(s.text + t)| >= 200)
            case Recv(ThinkingDelta(t)) =>
              && Step(s, i).text == s.text
              && (forall m :: m in Added(s, i) ==> m == ThinkingMsg(s.thinking + t))
              && (ThinkingMsg(s.thinking + t) in Added(s, i) <==> |Encode(s.thinking + t)| >= 200)
            case _ => Step(s, i).text == "" && Step(s, i).thinking == ""
  {
    StepAccounts(s, i);
    hide TextSent, ThinkingSent, TextIn, ThinkingIn, OnEvent, Encode;
    match i.cause
    case Recv(TextDelta(t)) =>
      TextSentWhenDue(s, i.now, t);
      var flushed := if s.thinking == "" then [] else [ThinkingMsg(s.thinking)];
      var full := if |Encode(s.text + t)| >= 200 then [TextMsg(s.text + t)] else [];
      assert Added(s, i) == flushed + full;
      hide Step;
    case Recv(ThinkingDelta(t)) => ThinkingSentWhenDue(s, i.now, t);
    case Recv(e) => OthersSendAll(s, i.now, e);
    case _ =>
  }

  lemma {:induction false} TextSentWhenDue(s: State, now: nat, t: string)
    ensures var r := OnEvent(s, now, TextDelta(t));
      && r.thinking == "" && r.text == (if |Encode(s.text + t)| >= 200 then "" else s.text + t)
      && r.out == s.out + (if s.thinking == "" then [] else [ThinkingMsg(s.thinking)])
           + (if |Encode(s.text + t)| >= 200 then [TextMsg(s.text + t)] else [])
  {
    assert |Encode("")| == 0;
    hide Encode;
  }

  lemma {:induction false} ThinkingSentWhenDue(s: State, now: nat, t: string)
    ensures var r := OnEvent(s, now, ThinkingDelta(t));
      && r.text == s.text && r.thinking == (if |Encode(s.thinking + t)| >= 200 then "" else s.thinking + t)
      && r.out == s.out + if |Encode(s.thinking + t)| >= 200 then [ThinkingMsg(s.thinking + t)] else []
  {
    assert |Encode("")| == 0;
    hide Encode;
  }

  // ---------- The timer ----------

  /** When the timer was set that is still running: by the first delta kept waiting since the timer
      last fired, a buffer filled up, or another event came. */
  function ArmedSince(start: nat, inputs: seq<Input>): Option<nat> {
    if inputs == [] then None
    else
      var init, last := inputs[..|inputs| - 1], inputs[|inputs| - 1];
      var s, before := Run(Start(start), init), ArmedSince(start, init);
      match last.cause
      case Recv(TextDelta(t)) =>
        if |Encode(s.text + t)| >= 200 then None else if before.Some? then before else Some(last.now)
      case Recv(ThinkingDelta(t)) =>
        if |Encode(s.thinking + t)| >= 200 then None else if before.Some? then before else Some(last.now)
      case Ended => before
      case _ => None
  }

  /** The timer is due 100 ms after it was set; when it is not set, a day after the start. */
  lemma {:induction false} DeadlineIsArmed(start: nat, inputs: seq<Input>)
    requires forall i :: 0 <= i < |inputs| ==> inputs[i].now + 100 < start + 86_400_000
    ensures var r := Run(Start(start), inputs);
      r.far == start + 86_400_000 &&
      r.deadline == match ArmedSince(start, inputs) case None => start + 86_400_000 case Some(t) => t + 100
    ensures match ArmedSince(start, inputs) case None => true case Some(t) => t + 100 < start + 86_400_000
  {
    hide Encode, Sends;
    if inputs != [] { DeadlineIsArmed(start, inputs[..|inputs| - 1]); }
  }
}
