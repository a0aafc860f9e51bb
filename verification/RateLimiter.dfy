/** The sliding-window rate limiters: per user key on the channels, per connection on the WebSocket. */
module RateLimiter {
  const WINDOW_MS: nat := 60_000

  /** Timestamps still inside the window that ends at `now`. */
  function Recent(times: seq<nat>, now: nat): seq<nat> {
    if times == [] then []
    else
      var t := times[|times| - 1];
      Recent(times[..|times| - 1], now) + if now - t < WINDOW_MS then [t] else []
  }

  function JoinedKey(channelType: string, platformId: string): string {
    channelType + ":" + platformId
  }

  /** One limiter for all users of the channels. `calls` is the history of all calls, for the proofs:
      the bucket of every key is the bucket of that key's own calls, however they interleave. */
  class ChannelRateLimiter {
    var buckets: map<string, seq<nat>>
    ghost var calls: seq<KeyedCall>

    ghost predicate Valid()
      reads this
    {
      forall key :: Stored(key) == Bucket(CallsOf(calls, key))
    }

    constructor ()
      ensures Valid() && buckets == map[] && calls == []
    {
      buckets, calls := map[], [];
    }

    ghost function Stored(key: string): seq<nat>
      reads this
    {
      if key in buckets then buckets[key] else []
    }

    method Check(channelType: string, platformId: string, maxPerMinute: nat, now: nat) returns (allowed: bool)
      requires Valid()
      modifies this
      ensures Valid()
      ensures var key := JoinedKey(channelType, platformId);
        && calls == old(calls) + [KeyedCall(key, Call(now, maxPerMinute))]
        && allowed == (maxPerMinute == 0 || Admitted(CallsOf(old(calls), key) + [Call(now, maxPerMinute)]))
        && (forall k :: k != key ==> (k in buckets <==> k in old(buckets)) && Stored(k) == old(Stored(k)))
        && (maxPerMinute == 0 ==> buckets == old(buckets))
    {
      hide Bucket, CallsOf, Recent;
      var key := JoinedKey(channelType, platformId);
      ghost var call := Call(now, maxPerMinute);
      HistoryGrows(calls, KeyedCall(key, call));
      calls := calls + [KeyedCall(key, call)];
      if maxPerMinute == 0 { return true; }
      var entry := if key in buckets then buckets[key] else [];
      BucketGrows(CallsOf(old(calls), key), call);
      entry := Retain(entry, now);
      if |entry| >= maxPerMinute {
        buckets := buckets[key := entry];
        return false;
      }
      buckets := buckets[key := entry + [now]];
      return true;
    }
  }

  /** `entry.retain(..)`: one pass that keeps the timestamps younger than the window. */
  method Retain(times: seq<nat>, now: nat) returns (kept: seq<nat>)
    ensures kept == Recent(times, now)
  {
    kept := [];
    assert times[..0] == [];
    for i := 0 to |times|
      invariant kept == Recent(times[..i], now)
    {
      assert times[..i + 1][..i] == times[..i];
      if now - times[i] < WINDOW_MS { kept := kept + [times[i]]; }
    }
    assert times[..|times|] == times;
  }

  /** The per-connection gate: at most ten messages a minute; oversized ones are not counted.
      `calls` is the history of the messages that were. */
  class MessageGate {
    var msgTimes: seq<nat>
    ghost var calls: seq<Call>

    ghost predicate Valid()
      reads this
    {
      msgTimes == Bucket(calls) && forall i :: 0 <= i < |calls| ==> calls[i].limit == MAX_PER_MIN
    }

    constructor ()
      ensures Valid() && msgTimes == [] && calls == []
    {
      msgTimes, calls := [], [];
    }

    method Admit(bytes: nat, now: nat) returns (admitted: bool)
      requires Valid()
      modifies this
      ensures Valid()
      ensures if bytes > 65_536 then !admitted && msgTimes == old(msgTimes) && calls == old(calls)
              else calls == old(calls) + [Call(now, 10)] && admitted == Admitted(calls)
    {
      if bytes > MAX_WS_MSG_SIZE { return false; }
      BucketGrows(calls, Call(now, MAX_PER_MIN));
      calls := calls + [Call(now, MAX_PER_MIN)];
      msgTimes := Retain(msgTimes, now);
      if |msgTimes| >= MAX_PER_MIN { return false; }
      msgTimes := msgTimes + [now];
      return true;
    }
  }

  const MAX_WS_MSG_SIZE: nat := 64 * 1024
  const MAX_PER_MIN: nat := 10

  // ---------- The window over whole runs ----------

  /** One call against a bucket, with a non-zero limit. */
  datatype Call = Call(now: nat, limit: nat)

  function Verdict(bucket: seq<nat>, c: Call): (seq<nat>, bool) {
    var kept := Recent(bucket, c.now);
    if |kept| >= c.limit then (kept, false) else (kept + [c.now], true)
  }

  function Bucket(calls: seq<Call>): seq<nat> {
    if calls == [] then [] else Verdict(Bucket(calls[..|calls| - 1]), calls[|calls| - 1]).0
  }

  /** Whether the last call of the run was admitted. */
  predicate Admitted(calls: seq<Call>)
    requires calls != []
  {
    Verdict(Bucket(calls[..|calls| - 1]), calls[|calls| - 1]).1
  }

  /** History: the times of all calls that were admitted, never forgotten. */
  function AdmittedTimes(calls: seq<Call>): seq<nat> {
    if calls == [] then []
    else AdmittedTimes(calls[..|calls| - 1]) + if Admitted(calls) then [calls[|calls| - 1].now] else []
  }

  lemma {:induction false} BucketGrows(calls: seq<Call>, c: Call)
    ensures (Bucket(calls + [c]), Admitted(calls + [c])) == Verdict(Bucket(calls), c)
  {
    assert (calls + [c])[..|calls|] == calls;
  }

  ghost predicate Monotone(calls: seq<Call>) {
    forall i, j :: 0 <= i <= j < |calls| ==> calls[i].now <= calls[j].now
  }

  ghost predicate Sorted(times: seq<nat>) {
    forall i, j :: 0 <= i <= j < |times| ==> times[i] <= times[j]
  }

  lemma {:induction false} RecentConcat(a: seq<nat>, b: seq<nat>, now: nat)
    ensures Recent(a + b, now) == Recent(a, now) + Recent(b, now)
  {
    if b == [] {
      assert a + b == a;
    } else {
      assert (a + b)[..|a + b| - 1] == a + b[..|b| - 1];
      RecentConcat(a, b[..|b| - 1], now);
    }
  }

  lemma {:induction false} RecentOne(t: nat, now: nat)
    ensures Recent([t], now) == if now - t < WINDOW_MS then [t] else []
  {
    assert [t][..0] == [];
  }

  /** Evicting early loses nothing: a timestamp outside an earlier window is outside every later one. */
  lemma {:induction false} RecentOfRecent(times: seq<nat>, earlier: nat, now: nat)
    requires earlier <= now
    ensures Recent(Recent(times, earlier), now) == Recent(times, now)
  {
    if times != [] {
      var init, t := times[..|times| - 1], times[|times| - 1];
      RecentOfRecent(init, earlier, now);
      RecentOne(t, now);
      var one := if earlier - t < WINDOW_MS then [t] else [];
      assert Recent(times, earlier) == Recent(init, earlier) + one;
      assert Recent(times, now) == Recent(init, now) + Recent([t], now);
      RecentConcat(Recent(init, earlier), one, now);
    }
  }

  /** The evicting bucket sees of every window exactly what the full history has in it. */
  lemma {:induction false} BucketSeesHistory(calls: seq<Call>, now: nat)
    requires Monotone(calls) && (calls != [] ==> calls[|calls| - 1].now <= now)
    ensures Recent(Bucket(calls), now) == Recent(AdmittedTimes(calls), now)
  {
    if calls != [] {
      var init, c := calls[..|calls| - 1], calls[|calls| - 1];
      assert init != [] ==> init[|init| - 1].now <= c.now;
      BucketSeesHistory(init, now);
      RecentOfRecent(Bucket(init), c.now, now);
      hide Recent;
      var kept, one := Recent(Bucket(init), c.now), if Admitted(calls) then [c.now] else [];
      assert Bucket(calls) == kept + one && AdmittedTimes(calls) == AdmittedTimes(init) + one;
      RecentConcat(kept, one, now);
      RecentConcat(AdmittedTimes(init), one, now);
    }
  }

  /** A call is refused exactly when the limit was already reached by the messages admitted in the
      last sixty seconds, however the limit varied before. */
  lemma {:induction false} RefusedIffWindowFull(calls: seq<Call>)
    requires calls != [] && Monotone(calls)
    ensures var init, c := calls[..|calls| - 1], calls[|calls| - 1];
      !Admitted(calls) <==> |Recent(AdmittedTimes(init), c.now)| >= c.limit
  {
    var init := calls[..|calls| - 1];
    BucketSeesHistory(init, calls[|calls| - 1].now);
  }

  /** How many of the times lie less than sixty seconds before `now`. */
  function Since(times: seq<nat>, now: nat): nat {
    if times == [] then 0
    else Since(times[..|times| - 1], now) + if now < times[|times| - 1] + 60_000 then 1 else 0
  }

  lemma {:induction false} RecentIsSince(times: seq<nat>, now: nat)
    ensures |Recent(times, now)| == Since(times, now)
  {
    if times != [] { RecentIsSince(times[..|times| - 1], now); }
  }

  /** The same in numbers: a call is admitted while fewer messages than its limit were admitted less
      than sixty seconds before it, and then its own time joins the history. */
  lemma {:induction false} AdmittedIffFewer(calls: seq<Call>, c: Call)
    requires Monotone(calls + [c])
    ensures Admitted(calls + [c]) <==> Since(AdmittedTimes(calls), c.now) < c.limit
    ensures AdmittedTimes(calls + [c]) ==
      if Since(AdmittedTimes(calls), c.now) < c.limit then AdmittedTimes(calls) + [c.now] else AdmittedTimes(calls)
    ensures AdmittedTimes([]) == []
  {
    var all := calls + [c];
    assert all[..|calls|] == calls && all[|calls|] == c;
    RefusedIffWindowFull(all);
    RecentIsSince(AdmittedTimes(calls), c.now);
    hide Recent, Admitted, Bucket;
    assert AdmittedTimes(calls) + [] == AdmittedTimes(calls);
  }

  lemma {:induction false} HistorySorted(calls: seq<Call>)
    requires Monotone(calls)
    ensures Sorted(AdmittedTimes(calls))
    ensures calls != [] ==>
      forall i :: 0 <= i < |AdmittedTimes(calls)| ==> AdmittedTimes(calls)[i] <= calls[|calls| - 1].now
  {
    if calls != [] {
      HistorySorted(calls[..|calls| - 1]);
    }
  }

  /** On a sorted history the window is the suffix of its length. */
  lemma {:induction false} RecentOfSorted(times: seq<nat>, now: nat)
    requires Sorted(times)
    ensures |Recent(times, now)| <= |times|
    ensures forall i :: 0 <= i < |times| ==> (now - times[i] < WINDOW_MS <==> i >= |times| - |Recent(times, now)|)
  {
    if times != [] {
      var init, t := times[..|times| - 1], times[|times| - 1];
      RecentOfSorted(init, now);
      var m := |Recent(init, now)|;
      assert |Recent(times, now)| == m + if now - t < WINDOW_MS then 1 else 0;
      hide Recent;
      assert forall i :: 0 <= i < |init| ==> init[i] == times[i] && times[i] <= t;
      if now - t >= WINDOW_MS && m > 0 {
        assert false;
      }
    }
  }

  /** Any two times `limit` places apart are a whole window apart. */
  ghost predicate Spaced(times: seq<nat>, limit: nat) {
    forall i, j :: 0 <= i < j < |times| && j == i + limit ==> times[i] + 60_000 <= times[j]
  }

  /** With a fixed limit no sixty-second window of any run holds more than the limit of admitted
      messages: any two admitted messages `limit` places apart are sixty seconds apart. */
  lemma {:induction false} WindowBound(calls: seq<Call>, limit: nat)
    requires Monotone(calls) && limit > 0 && forall i :: 0 <= i < |calls| ==> calls[i].limit == limit
    ensures Spaced(AdmittedTimes(calls), limit)
  {
    if calls != [] {
      var init, c := calls[..|calls| - 1], calls[|calls| - 1];
      WindowBound(init, limit);
      RefusedIffWindowFull(calls);
      HistorySorted(init);
      var h := AdmittedTimes(init);
      RecentOfSorted(h, c.now);
      if Admitted(calls) && |h| >= limit {
        assert h[|h| - limit] + 60_000 <= c.now;
      }
    }
  }

  function CountIn(times: seq<nat>, lo: nat): nat {
    if times == [] then 0
    else CountIn(times[..|times| - 1], lo) + if lo <= times[|times| - 1] < lo + 60_000 then 1 else 0
  }

  /** The same as a count: every half-open window of sixty seconds holds at most `limit`. */
  lemma {:induction false} WindowCount(calls: seq<Call>, limit: nat, lo: nat)
    requires Monotone(calls) && limit > 0 && forall i :: 0 <= i < |calls| ==> calls[i].limit == limit
    ensures CountIn(AdmittedTimes(calls), lo) <= limit
  {
    WindowBound(calls, limit);
    HistorySorted(calls);
    CountSpaced(AdmittedTimes(calls), limit, lo);
  }

  lemma {:induction false} CountSpaced(h: seq<nat>, limit: nat, lo: nat)
    requires Sorted(h) && limit > 0
    requires Spaced(h, limit)
    ensures CountIn(h, lo) <= limit
  {
    if |h| > 0 {
      var n := |h| - 1;
      CountSpaced(h[..n], limit, lo);
      if lo <= h[n] < lo + 60_000 {
        if n >= limit { assert h[n - limit] + 60_000 <= h[n]; }
        var k := if n >= limit then n - limit + 1 else 0;
        CountAtMost(h[..n], k, lo);
      }
    }
  }

  lemma {:induction false} CountAtMost(h: seq<nat>, k: nat, lo: nat)
    requires k <= |h| && forall i :: 0 <= i < k ==> h[i] < lo
    ensures CountIn(h, lo) <= |h| - k
  {
    if |h| > k {
      CountAtMost(h[..|h| - 1], k, lo);
    } else if |h| > 0 {
      CountAtMost(h[..|h| - 1], k - 1, lo);
    }
  }

  // ---------- Many keys at once ----------

  datatype KeyedCall = KeyedCall(key: string, call: Call)

  /** The calls of one key; a zero limit is never recorded. */
  function CallsOf(calls: seq<KeyedCall>, key: string): seq<Call> {
    if calls == [] then []
    else
      var last := calls[|calls| - 1];
      CallsOf(calls[..|calls| - 1], key) + if last.key == key && last.call.limit != 0 then [last.call] else []
  }

  function CallsAfter(calls: seq<KeyedCall>, c: KeyedCall, key: string): seq<Call> {
    if c.key == key && c.call.limit != 0 then CallsOf(calls, key) + [c.call] else CallsOf(calls, key)
  }

  lemma {:induction false} HistoryGrows(calls: seq<KeyedCall>, c: KeyedCall)
    ensures forall key :: CallsOf(calls + [c], key) == CallsAfter(calls, c, key)
  {
    assert (calls + [c])[..|calls|] == calls;
  }

  ghost predicate InTimeOrder(calls: seq<KeyedCall>) {
    forall i, j :: 0 <= i <= j < |calls| ==> calls[i].call.now <= calls[j].call.now
  }

  lemma {:induction false} CallsOfInOrder(calls: seq<KeyedCall>, key: string)
    requires InTimeOrder(calls)
    ensures Monotone(CallsOf(calls, key))
    ensures calls != [] ==>
      forall i :: 0 <= i < |CallsOf(calls, key)| ==> CallsOf(calls, key)[i].now <= calls[|calls| - 1].call.now
  {
    if calls != [] { CallsOfInOrder(calls[..|calls| - 1], key); }
  }

  /** The history of one key, whatever the other keys do in between. */
  function TimesOf(calls: seq<KeyedCall>, key: string): seq<nat> {
    AdmittedTimes(CallsOf(calls, key))
  }

  /** In any interleaving of keys a call is refused exactly when its own key reached the limit in the
      last sixty seconds. */
  lemma {:induction false} KeyedRefusedIff(calls: seq<KeyedCall>, c: KeyedCall)
    requires InTimeOrder(calls + [c]) && c.call.limit != 0
    ensures !Admitted(CallsOf(calls, c.key) + [c.call]) <==> |Recent(TimesOf(calls, c.key), c.call.now)| >= c.call.limit
  {
    HistoryGrows(calls, c);
    CallsOfInOrder(calls + [c], c.key);
    RefusedIffWindowFull(CallsOf(calls, c.key) + [c.call]);
    assert (CallsOf(calls, c.key) + [c.call])[..|CallsOf(calls, c.key)|] == CallsOf(calls, c.key);
  }

  /** The same for one of many keys. */
  lemma {:induction false} KeyedAdmittedIffFewer(calls: seq<KeyedCall>, c: KeyedCall)
    requires InTimeOrder(calls + [c]) && c.call.limit != 0
    ensures Admitted(CallsOf(calls, c.key) + [c.call]) <==> Since(TimesOf(calls, c.key), c.call.now) < c.call.limit
  {
    KeyedRefusedIff(calls, c);
    RecentIsSince(TimesOf(calls, c.key), c.call.now);
  }

  lemma {:induction false} LimitsOf(calls: seq<KeyedCall>, key: string, limit: nat)
    requires forall i :: 0 <= i < |calls| && calls[i].key == key ==> calls[i].call.limit == limit
    ensures forall i :: 0 <= i < |CallsOf(calls, key)| ==> CallsOf(calls, key)[i].limit == limit
  {
    if calls != [] { LimitsOf(calls[..|calls| - 1], key, limit); }
  }

  /** In any interleaving of keys, every window of sixty seconds holds at most `limit` admitted
      messages of a key whose limit stays the same. */
  lemma {:induction false} KeyedWindowCount(calls: seq<KeyedCall>, key: string, limit: nat, lo: nat)
    requires InTimeOrder(calls) && limit > 0
    requires forall i :: 0 <= i < |calls| && calls[i].key == key ==> calls[i].call.limit == limit
    ensures CountIn(TimesOf(calls, key), lo) <= limit
  {
    CallsOfInOrder(calls, key);
    LimitsOf(calls, key, limit);
    WindowCount(CallsOf(calls, key), limit, lo);
  }

  // ---------- Which users share a bucket ----------

  /** The longer channel type `c` takes the first part of the platform id `b` of the shorter one. */
  ghost predicate Slides(a: string, b: string, c: string, d: string) {
    exists m :: SlidesBy(a, b, c, d, m)
  }

  ghost predicate SlidesBy(a: string, b: string, c: string, d: string, m: string) {
    c == a + ":" + m && b == m + ":" + d
  }

  /** Two users share a bucket if and only if they are the same or the ':' between their parts can be
      read in two places. */
  lemma {:induction false} SharedBucketIff(a: string, b: string, c: string, d: string)
    ensures JoinedKey(a, b) == JoinedKey(c, d) <==> (a == c && b == d) || Slides(a, b, c, d) || Slides(c, d, a, b)
  {
    if JoinedKey(a, b) == JoinedKey(c, d) {
      if |a| <= |c| { SharedSlides(a, b, c, d); } else { SharedSlides(c, d, a, b); }
    }
    if Slides(a, b, c, d) {
      var m :| SlidesBy(a, b, c, d, m);
      assert a + ":" + (m + ":" + d) == (a + ":" + m) + ":" + d;
    }
    if Slides(c, d, a, b) {
      var m :| SlidesBy(c, d, a, b, m);
      assert c + ":" + (m + ":" + b) == (c + ":" + m) + ":" + b;
    }
  }

  lemma {:induction false} SharedSlides(a: string, b: string, c: string, d: string)
    requires JoinedKey(a, b) == JoinedKey(c, d) && |a| <= |c|
    ensures (a == c && b == d) || Slides(a, b, c, d)
  {
    var x := JoinedKey(a, b);
    assert x[..|a|] == a && x[|a| + 1..] == b && x[|a|] == ':';
    assert x[..|c|] == c && x[|c| + 1..] == d && x[|c|] == ':';
    if |a| < |c| {
      var m := c[|a| + 1..];
      assert c == a + ":" + m && b == m + ":" + d;
      assert SlidesBy(a, b, c, d, m);
    }
  }

  /** With no ':' in the channel types every user has a bucket of their own. */
  lemma {:induction false} OwnBuckets(a: string, b: string, c: string, d: string)
    requires ':' !in a && ':' !in c
    ensures JoinedKey(a, b) == JoinedKey(c, d) <==> a == c && b == d
  {
    SharedBucketIff(a, b, c, d);
    SlidesOnColon(a, b, c, d);
    SlidesOnColon(c, d, a, b);
  }

  lemma {:induction false} SlidesOnColon(a: string, b: string, c: string, d: string)
    ensures Slides(a, b, c, d) ==> ':' in c
  {
    if Slides(a, b, c, d) {
      var m :| SlidesBy(a, b, c, d, m);
      assert c[|a|] == ':';
    }
  }

  lemma {:induction false} SharedBucketWitness()
    ensures JoinedKey("a:b", "c") == JoinedKey("a", "b:c")
  {
    assert "a:b" + ":" + "c" == "a" + ":" + "b:c";
  }
}
