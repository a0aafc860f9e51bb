/** The Discord gateway loop: connecting, resuming or identifying, heartbeats and backoff. */
module DiscordGateway {
  import opened Text

  const INITIAL_BACKOFF: nat := 1
  const MAX_BACKOFF: nat := 60

  datatype Body =
    | Hello
    | Ready(sessionId: string, resumeUrl: string)
    | OtherDispatch
    | HeartbeatRequest
    | HeartbeatAck
    | Reconnect
    | InvalidSession(resumable: bool)
    | Unknown

  /** A gateway message with its sequence number, or the heartbeat timer. */
  datatype Frame = Payload(s: Option<nat>, body: Body) | Tick

  /** One connection attempt; an accepted one delivers its frames and then closes. */
  datatype Attempt = Refused | Accepted(frames: seq<Frame>)

  /** What is seen and done, in order. */
  datatype Item =
    | Connect(url: string)
    | Connected
    | Received(frame: Frame)
    | Resume(sessionId: string, seqNo: nat)
    | Identify
    | Heartbeat(last: Option<nat>)
    | Dropped
    | Wait(seconds: nat)

  datatype State = State(
    backoff: nat, url: string, seqNo: Option<nat>, session: Option<string>, resumeUrl: Option<string>,
    helloSeen: bool, log: seq<Item>)

  /** What the adapter brings: the gateway address, and the session and resume address it stored. */
  datatype Given = Given(gateway: string, session: Option<string>, resumeUrl: Option<string>)

  function Start(given: Given): State {
    State(INITIAL_BACKOFF, given.gateway, None, given.session, given.resumeUrl, false, [])
  }

  function Log(s: State, item: Item): State {
    s.(log := s.log + [item])
  }

  function Handshake(s: State): Item {
    if s.session.Some? && s.seqNo.Some? then Resume(s.session.value, s.seqNo.value) else Identify
  }

  /** One frame; the flag says that the connection is given up. */
  function OnFrame(s: State, f: Frame): (State, bool) {
    var t := Log(s, Received(f));
    match f
    case Tick => (if s.helloSeen then Log(t, Heartbeat(s.seqNo)) else t, false)
    case Payload(n, body) =>
      var u := if n.Some? then t.(seqNo := n) else t;
      match body
      case Hello => (Log(u.(helloSeen := true), Handshake(u)), false)
      case Ready(id, url) => (u.(session := Some(id), resumeUrl := if url != "" then Some(url) else u.resumeUrl), false)
      case HeartbeatRequest => (Log(u, Heartbeat(u.seqNo)), false)
      case Reconnect => (u, true)
      case InvalidSession(resumable) => (if resumable then u else u.(session := None, seqNo := None), true)
      case _ => (u, false)
  }

  function OnFrames(s: State, frames: seq<Frame>): State
    decreases |frames|
  {
    if frames == [] then s
    else
      var (t, over) := OnFrame(s, frames[0]);
      if over then t else OnFrames(t, frames[1..])
  }

  function Pause(s: State): State {
    Log(s, Wait(s.backoff)).(backoff := Min(s.backoff * 2, MAX_BACKOFF))
  }

  function ResumeAddress(url: string): string {
    url + "/?v=10&encoding=json"
  }

  function OnAttempt(s: State, a: Attempt): State {
    var t := Log(s, Connect(s.url));
    match a
    case Refused => Pause(t)
    case Accepted(frames) =>
      var u := Log(OnFrames(Log(t.(backoff := INITIAL_BACKOFF, helloSeen := false), Connected), frames), Dropped);
      Pause(if u.resumeUrl.Some? then u.(url := ResumeAddress(u.resumeUrl.value)) else u)
  }

  function Run(s: State, attempts: seq<Attempt>): State {
    if attempts == [] then s else OnAttempt(Run(s, attempts[..|attempts| - 1]), attempts[|attempts| - 1])
  }

  /** The gateway loop: reconnect for ever, one inner message loop per accepted connection. */
  method Gateway(given: Given, attempts: seq<Attempt>) returns (log: seq<Item>)
    ensures log == Run(Start(given), attempts).log
  {
    var backoff, connectUrl, sequence, session, resumeUrl :=
      INITIAL_BACKOFF, given.gateway, None, given.session, given.resumeUrl;
    ghost var hello := false;
    log := [];
    assert attempts[..0] == [];
    for n := 0 to |attempts|
      invariant Run(Start(given), attempts[..n])
             == State(backoff, connectUrl, sequence, session, resumeUrl, hello, log)
    {
      assert attempts[..n + 1][..n] == attempts[..n];
      log := log + [Connect(connectUrl)];
      match attempts[n]
      case Refused =>
        log := log + [Wait(backoff)];
        backoff := Min(backoff * 2, MAX_BACKOFF);
      case Accepted(frames) =>
        backoff := INITIAL_BACKOFF;
        log := log + [Connected];
        var helloSeen;
        sequence, session, resumeUrl, helloSeen, log :=
          MessageLoop(backoff, connectUrl, sequence, session, resumeUrl, log, frames);
        hello := helloSeen;
        log := log + [Dropped];
        if resumeUrl.Some? { connectUrl := ResumeAddress(resumeUrl.value); }
        log := log + [Wait(backoff)];
        backoff := Min(backoff * 2, MAX_BACKOFF);
    }
    assert attempts[..|attempts|] == attempts;
  }

  /** The inner loop: handle frames until one ends the connection or the stream closes. */
  method MessageLoop(backoff: nat, url: string, sequence0: Option<nat>, session0: Option<string>,
                     resumeUrl0: Option<string>, log0: seq<Item>, frames: seq<Frame>)
    returns (sequence: Option<nat>, session: Option<string>, resumeUrl: Option<string>, helloSeen: bool, log: seq<Item>)
    ensures State(backoff, url, sequence, session, resumeUrl, helloSeen, log)
         == OnFrames(State(backoff, url, sequence0, session0, resumeUrl0, false, log0), frames)
  {
    sequence, session, resumeUrl, helloSeen, log := sequence0, session0, resumeUrl0, false, log0;
    ghost var start := State(backoff, url, sequence0, session0, resumeUrl0, false, log0);
    var i := 0;
    while i < |frames|
      invariant i <= |frames|
      invariant OnFrames(State(backoff, url, sequence, session, resumeUrl, helloSeen, log), frames[i..])
             == OnFrames(start, frames)
    {
      ghost var s := State(backoff, url, sequence, session, resumeUrl, helloSeen, log);
      assert frames[i..][0] == frames[i] && frames[i..][1..] == frames[i + 1..];
      var frame := frames[i];
      i := i + 1;
      log := log + [Received(frame)];
      if frame.Tick? {
        if helloSeen { log := log + [Heartbeat(sequence)]; }
      } else {
        if frame.s.Some? { sequence := frame.s; }
        match frame.body
        case Hello =>
          helloSeen := true;
          if session.Some? && sequence.Some? {
            log := log + [Resume(session.value, sequence.value)];
          } else {
            log := log + [Identify];
          }
        case Ready(id, resume) =>
          session := Some(id);
          if resume != "" { resumeUrl := Some(resume); }
        case HeartbeatRequest =>
          log := log + [Heartbeat(sequence)];
        case Reconnect =>
          break;
        case InvalidSession(resumable) =>
          if !resumable { session, sequence := None, None; }
          break;
        case OtherDispatch =>
        case HeartbeatAck =>
        case Unknown =>
      }
      assert (State(backoff, url, sequence, session, resumeUrl, helloSeen, log), false) == OnFrame(s, frame);
    }
  }

  // ---------- What the log says ----------

  predicate ClearsSession(i: Item) {
    i.Received? && i.frame.Payload? && i.frame.body.InvalidSession? && !i.frame.body.resumable
  }

  /** Session id of the latest READY since the last non-resumable INVALID_SESSION. */
  function LatestSession(log: seq<Item>, stored: Option<string>): Option<string> {
    if log == [] then stored
    else
      var i := log[|log| - 1];
      if ClearsSession(i) then None
      else if i.Received? && i.frame.Payload? && i.frame.body.Ready? then Some(i.frame.body.sessionId)
      else LatestSession(log[..|log| - 1], stored)
  }

  /** Last sequence number received since the last non-resumable INVALID_SESSION. */
  function LatestSeq(log: seq<Item>): Option<nat> {
    if log == [] then None
    else
      var i := log[|log| - 1];
      if ClearsSession(i) then None
      else if i.Received? && i.frame.Payload? && i.frame.s.Some? then i.frame.s
      else LatestSeq(log[..|log| - 1])
  }

  /** Resume address of the latest READY that names one. */
  function LatestResumeUrl(log: seq<Item>, stored: Option<string>): Option<string> {
    if log == [] then stored
    else
      var i := log[|log| - 1];
      if i.Received? && i.frame.Payload? && i.frame.body.Ready? && i.frame.body.resumeUrl != ""
        then Some(i.frame.body.resumeUrl)
      else LatestResumeUrl(log[..|log| - 1], stored)
  }

  /** Waits since the last successful connection. */
  function WaitsSince(log: seq<Item>): nat {
    if log == [] then 0
    else match log[|log| - 1]
      case Connected => 0
      case Wait(_) => WaitsSince(log[..|log| - 1]) + 1
      case _ => WaitsSince(log[..|log| - 1])
  }

  /** A HELLO was received since the last successful connection. */
  predicate HelloSince(log: seq<Item>) {
    log != [] && !log[|log| - 1].Connected? &&
    ((log[|log| - 1].Received? && log[|log| - 1].frame.Payload? && log[|log| - 1].frame.body.Hello?)
     || HelloSince(log[..|log| - 1]))
  }

  function Power2(k: nat): nat {
    if k == 0 then 1 else 2 * Power2(k - 1)
  }

  predicate EndsWithHello(log: seq<Item>) {
    log != [] && log[|log| - 1].Received? && log[|log| - 1].frame.Payload? && log[|log| - 1].frame.body.Hello?
  }

  /** The server asked for a heartbeat, or the timer fired on a connection that has said HELLO. */
  predicate HeartbeatDue(log: seq<Item>) {
    log != [] && log[|log| - 1].Received? &&
    match log[|log| - 1].frame
    case Payload(_, body) => body.HeartbeatRequest?
    case Tick => HelloSince(log)
  }

  /** What an item has to be after `log`. */
  ghost predicate Justified(log: seq<Item>, i: Item, given: Given) {
    && (EndsWithHello(log) <==> i.Resume? || i.Identify?)
    && (HeartbeatDue(log) <==> i.Heartbeat?)
    && match i
       case Connect(u) =>
         var r := LatestResumeUrl(log, given.resumeUrl);
         u == if Dropped in log && r.Some? then r.value + "/?v=10&encoding=json" else given.gateway
       case Resume(id, n) => LatestSession(log, given.session) == Some(id) && LatestSeq(log) == Some(n)
       case Identify => LatestSession(log, given.session).None? || LatestSeq(log).None?
       case Heartbeat(n) => n == LatestSeq(log)
       case Wait(d) => d == if Power2(WaitsSince(log)) < 60 then Power2(WaitsSince(log)) else 60
       case _ => true
  }

  ghost predicate AllJustified(log: seq<Item>, given: Given) {
    forall n :: 0 <= n < |log| ==> Justified(log[..n], log[n], given)
  }

  /** The variables of the loop are functions of its log. */
  ghost predicate Tracks(s: State, given: Given) {
    && s.session == LatestSession(s.log, given.session)
    && s.seqNo == LatestSeq(s.log)
    && s.resumeUrl == LatestResumeUrl(s.log, given.resumeUrl)
    && s.helloSeen == HelloSince(s.log)
    && !EndsWithHello(s.log) && !HeartbeatDue(s.log)
    && AllJustified(s.log, given)
  }

  lemma {:induction false} LogGrows(s: State, i: Item, given: Given)
    requires AllJustified(s.log, given) && Justified(s.log, i, given)
    ensures AllJustified(Log(s, i).log, given)
  {
    hide Justified;
    var log := s.log + [i];
    assert forall n :: 0 <= n < |s.log| ==> log[..n] == s.log[..n] && log[n] == s.log[n];
    assert log[..|s.log|] == s.log;
  }

  /** An item that reports nothing new leaves what the log says as it was. */
  lemma {:induction false} LogSays(log: seq<Item>, i: Item, given: Given)
    ensures var l := log + [i];
      && LatestSession(l, given.session) == (
           if ClearsSession(i) then None
           else if i.Received? && i.frame.Payload? && i.frame.body.Ready? then Some(i.frame.body.sessionId)
           else LatestSession(log, given.session))
      && LatestSeq(l) == (
           if ClearsSession(i) then None
           else if i.Received? && i.frame.Payload? && i.frame.s.Some? then i.frame.s
           else LatestSeq(log))
      && LatestResumeUrl(l, given.resumeUrl) == (
           if i.Received? && i.frame.Payload? && i.frame.body.Ready? && i.frame.body.resumeUrl != ""
             then Some(i.frame.body.resumeUrl)
           else LatestResumeUrl(log, given.resumeUrl))
      && WaitsSince(l) == (match i case Connected => 0 case Wait(_) => WaitsSince(log) + 1 case _ => WaitsSince(log))
      && HelloSince(l) == (!i.Connected? &&
         ((i.Received? && i.frame.Payload? && i.frame.body.Hello?) || HelloSince(log)))
      && EndsWithHello(l) == (i.Received? && i.frame.Payload? && i.frame.body.Hello?)
      && HeartbeatDue(l) == (i.Received? && if i.frame.Tick? then HelloSince(l) else i.frame.body.HeartbeatRequest?)
  {
    assert (log + [i])[..|log|] == log;
  }

  lemma {:induction false} FrameTracked(s: State, f: Frame, given: Given)
    requires Tracks(s, given)
    ensures var t := OnFrame(s, f).0;
      Tracks(t, given) && WaitsSince(t.log) == WaitsSince(s.log) && t.backoff == s.backoff && t.url == s.url
  {
    hide LatestSession, LatestSeq, LatestResumeUrl, WaitsSince, HelloSince, EndsWithHello, HeartbeatDue, AllJustified;
    var t := Log(s, Received(f));
    LogSays(s.log, Received(f), given);
    LogGrows(s, Received(f), given);
    match f
    case Tick =>
      LogSays(t.log, Heartbeat(s.seqNo), given);
      if s.helloSeen { LogGrows(t, Heartbeat(s.seqNo), given); }
    case Payload(n, body) =>
      var u := if n.Some? then t.(seqNo := n) else t;
      if body.Hello? {
        LogSays(t.log, Handshake(u), given);
        LogGrows(t, Handshake(u), given);
      } else if body.HeartbeatRequest? {
        LogSays(t.log, Heartbeat(u.seqNo), given);
        LogGrows(t, Heartbeat(u.seqNo), given);
      }
  }

  lemma {:induction false} FramesTracked(s: State, frames: seq<Frame>, given: Given)
    requires Tracks(s, given)
    ensures var t := OnFrames(s, frames);
      Tracks(t, given) && WaitsSince(t.log) == WaitsSince(s.log) && t.backoff == s.backoff && t.url == s.url
    decreases |frames|
  {
    hide Tracks, OnFrame, WaitsSince;
    if frames != [] {
      FrameTracked(s, frames[0], given);
      var (t, over) := OnFrame(s, frames[0]);
      if !over { FramesTracked(t, frames[1..], given); }
    }
  }

  /** Between attempts the backoff is the next power of two up to the cap. */
  ghost predicate Between(s: State, given: Given) {
    && Tracks(s, given)
    && s.backoff == Min(Power2(WaitsSince(s.log)), MAX_BACKOFF)
    && s.url == if Dropped in s.log && s.resumeUrl.Some? then ResumeAddress(s.resumeUrl.value) else given.gateway
  }

  lemma {:induction false} Quiet(s: State, i: Item, given: Given)
    requires Tracks(s, given) && Justified(s.log, i, given)
    requires i.Connect? || i.Connected? || i.Dropped? || i.Wait?
    ensures var t := Log(s, i).(helloSeen := if i.Connected? then false else s.helloSeen);
      && Tracks(t, given)
      && WaitsSince(t.log) == if i.Connected? then 0 else if i.Wait? then WaitsSince(s.log) + 1 else WaitsSince(s.log)
  {
    hide LatestSession, LatestSeq, LatestResumeUrl, WaitsSince, HelloSince, EndsWithHello, HeartbeatDue, AllJustified;
    LogSays(s.log, i, given);
    LogGrows(s, i, given);
  }

  lemma {:induction false} PauseKeeps(s: State, given: Given)
    requires Between(s, given)
    ensures Between(Pause(s), given)
  {
    hide LatestSession, LatestSeq, LatestResumeUrl, WaitsSince, HelloSince, EndsWithHello, HeartbeatDue, AllJustified;
    Quiet(s, Wait(s.backoff), given);
    BackoffDoubles(WaitsSince(s.log));
    BackoffIrrelevant(Log(s, Wait(s.backoff)), Pause(s), given);
  }

  lemma {:induction false} BackoffDoubles(k: nat)
    ensures Min(Min(Power2(k), MAX_BACKOFF) * 2, MAX_BACKOFF) == Min(Power2(k + 1), MAX_BACKOFF)
  {
  }

  lemma {:induction false} AttemptKeeps(s: State, a: Attempt, given: Given)
    requires Between(s, given)
    ensures Between(OnAttempt(s, a), given)
  {
    Quiet(s, Connect(s.url), given);
    var t := Log(s, Connect(s.url));
    match a
    case Refused =>
      PauseKeeps(t, given);
    case Accepted(frames) =>
      ConnectionKeeps(t, frames, given);
  }

  lemma {:induction false} ConnectionKeeps(t: State, frames: seq<Frame>, given: Given)
    requires Tracks(t, given)
    requires t.resumeUrl.None? ==> t.url == given.gateway
    ensures var d := OnFrames(Log(t.(backoff := INITIAL_BACKOFF, helloSeen := false), Connected), frames);
      var u := Log(d, Dropped);
      Between(Pause(if u.resumeUrl.Some? then u.(url := ResumeAddress(u.resumeUrl.value)) else u), given)
  {
    Quiet(t, Connected, given);
    hide Tracks, WaitsSince, Pause, ResumeAddress;
    var c := Log(t.(backoff := INITIAL_BACKOFF, helloSeen := false), Connected);
    BackoffIrrelevant(Log(t, Connected).(helloSeen := false), c, given);
    FramesTracked(c, frames, given);
    ResumeUrlKept(c, frames);
    var d := OnFrames(c, frames);
    DropKeeps(d, given);
    var u := Log(d, Dropped);
    PauseKeeps(if u.resumeUrl.Some? then u.(url := ResumeAddress(u.resumeUrl.value)) else u, given);
  }

  lemma {:induction false} BackoffIrrelevant(s: State, t: State, given: Given)
    requires Tracks(s, given) && t == s.(backoff := t.backoff, url := t.url)
    ensures Tracks(t, given)
  {
  }

  lemma {:induction false} DropKeeps(d: State, given: Given)
    requires Tracks(d, given) && WaitsSince(d.log) == 0 && d.backoff == INITIAL_BACKOFF
    requires d.resumeUrl.None? ==> d.url == given.gateway
    ensures var u := Log(d, Dropped);
      Between(if u.resumeUrl.Some? then u.(url := ResumeAddress(u.resumeUrl.value)) else u, given)
  {
    Quiet(d, Dropped, given);
    var u := Log(d, Dropped);
    var v := if u.resumeUrl.Some? then u.(url := ResumeAddress(u.resumeUrl.value)) else u;
    BackoffIrrelevant(u, v, given);
    assert Power2(0) == 1;
  }

  /** A known resume address is never forgotten. */
  lemma {:induction false} ResumeUrlKept(s: State, frames: seq<Frame>)
    ensures s.resumeUrl.Some? ==> OnFrames(s, frames).resumeUrl.Some?
    decreases |frames|
  {
    if frames != [] {
      var (t, over) := OnFrame(s, frames[0]);
      if !over { ResumeUrlKept(t, frames[1..]); }
    }
  }

  /** Over every run: RESUME carries the session id of the latest READY since the last non-resumable
      INVALID_SESSION and the last sequence number received since then; IDENTIFY is sent exactly when
      one of them is missing; heartbeats carry that sequence number; each connection goes to the
      gateway until one was dropped, and from then on to the latest resume address if there is one;
      and the k-th wait since the last successful connection lasts min(2^(k-1), 60) seconds. */
  lemma {:induction false} EveryItemJustified(given: Given, attempts: seq<Attempt>)
    ensures AllJustified(Run(Start(given), attempts).log, given)
    ensures Between(Run(Start(given), attempts), given)
  {
    if attempts != [] {
      EveryItemJustified(given, attempts[..|attempts| - 1]);
      AttemptKeeps(Run(Start(given), attempts[..|attempts| - 1]), attempts[|attempts| - 1], given);
    }
  }

  // ---------- What happens in a run ----------

  /** What the log says beside messages sent: attempts, connections, frames, ends and waits. */
  datatype Mark = Tried | Up | Got(frame: Frame) | Down | Paused

  function MarkOf(i: Item): seq<Mark> {
    match i
    case Connect(_) => [Tried]
    case Connected => [Up]
    case Received(f) => [Got(f)]
    case Dropped => [Down]
    case Wait(_) => [Paused]
    case _ => []
  }

  function Marks(log: seq<Item>): seq<Mark> {
    if log == [] then [] else Marks(log[..|log| - 1]) + MarkOf(log[|log| - 1])
  }

  /** The frames of a connection are read up to the first RECONNECT or INVALID_SESSION, that one
      included. */
  function Heard(frames: seq<Frame>): seq<Mark>
    decreases |frames|
  {
    if frames == [] then []
    else if frames[0].Payload? && (frames[0].body.Reconnect? || frames[0].body.InvalidSession?) then [Got(frames[0])]
    else [Got(frames[0])] + Heard(frames[1..])
  }

  /** Every attempt ends in one wait: a refused one at once, an accepted one after its frames. */
  function Expected(attempts: seq<Attempt>): seq<Mark> {
    if attempts == [] then []
    else
      Expected(attempts[..|attempts| - 1]) +
      match attempts[|attempts| - 1]
      case Refused => [Tried, Paused]
      case Accepted(frames) => [Tried, Up] + Heard(frames) + [Down, Paused]
  }

  lemma {:induction false} MarksSnoc(log: seq<Item>, i: Item)
    ensures Marks(log + [i]) == Marks(log) + MarkOf(i)
  {
    assert (log + [i])[..|log|] == log;
  }

  lemma {:induction false} FrameMarked(s: State, f: Frame)
    ensures Marks(OnFrame(s, f).0.log) == Marks(s.log) + [Got(f)]
    ensures OnFrame(s, f).1 <==> f.Payload? && (f.body.Reconnect? || f.body.InvalidSession?)
  {
    hide Marks;
    var log := s.log + [Received(f)];
    MarksSnoc(s.log, Received(f));
    match f
    case Tick => MarksSnoc(log, Heartbeat(s.seqNo));
    case Payload(n, body) =>
      var u := if n.Some? then s.(seqNo := n) else s;
      MarksSnoc(log, Handshake(u));
      MarksSnoc(log, Heartbeat(u.seqNo));
      assert Marks(log) + [] == Marks(log);
  }

  lemma {:induction false} FramesMarked(s: State, frames: seq<Frame>)
    ensures Marks(OnFrames(s, frames).log) == Marks(s.log) + Heard(frames)
    decreases |frames|
  {
    hide Marks, OnFrame;
    if frames == [] {
      assert Marks(s.log) + [] == Marks(s.log);
    } else {
      FrameMarked(s, frames[0]);
      var (t, over) := OnFrame(s, frames[0]);
      if !over {
        FramesMarked(t, frames[1..]);
        var before, more := Marks(s.log), Heard(frames[1..]);
        assert before + ([Got(frames[0])] + more) == before + [Got(frames[0])] + more;
      }
    }
  }

  /** Over every run the log holds each attempt, each accepted connection with its frames up to the one
      that ends it, and one wait after each attempt, and nothing else of these. */
  lemma {:induction false} RunHappens(given: Given, attempts: seq<Attempt>)
    ensures Marks(Run(Start(given), attempts).log) == Expected(attempts)
  {
    if attempts != [] {
      RunHappens(given, attempts[..|attempts| - 1]);
      var s, a := Run(Start(given), attempts[..|attempts| - 1]), attempts[|attempts| - 1];
      AttemptMarked(s, a);
      hide OnAttempt, Marks;
    }
  }

  lemma {:induction false} AttemptMarked(s: State, a: Attempt)
    ensures Marks(OnAttempt(s, a).log) == Marks(s.log) +
      match a case Refused => [Tried, Paused] case Accepted(frames) => [Tried, Up] + Heard(frames) + [Down, Paused]
  {
    hide Marks, OnFrames;
    MarksSnoc(s.log, Connect(s.url));
    var log := s.log + [Connect(s.url)];
    match a
    case Refused => MarksSnoc(log, Wait(s.backoff));
    case Accepted(frames) =>
      var t := Log(s, Connect(s.url)).(backoff := INITIAL_BACKOFF, helloSeen := false);
      MarksSnoc(log, Connected);
      FramesMarked(Log(t, Connected), frames);
      var u := OnFrames(Log(t, Connected), frames);
      MarksSnoc(u.log, Dropped);
      MarksSnoc(u.log + [Dropped], Wait(u.backoff));
      assert Marks(s.log) + [Tried] + [Up] + Heard(frames) + [Down] + [Paused] ==
        Marks(s.log) + ([Tried, Up] + Heard(frames) + [Down, Paused]);
  }
}
