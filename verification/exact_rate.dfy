/** The rate limit is exact: a request is let through whenever that keeps every stretch of time since an earlier one within
    the burst and the rate, and only then; what is not is deferred while the ring has room, and otherwise refused. */
module ExactRates {
  import opened RateLimiters

  /** The latest clock reading. */
  function Clock(b: Bucket, times: seq<nat>): nat {
    if times == [] then b.last else Later(Clock(b, times[..|times| - 1]), times[|times| - 1])
  }

  function Later(a: nat, b: nat): nat { if a <= b then b else a }

  lemma {:induction false} ClockIsLast(b: Bucket, times: seq<nat>)
    ensures ConsumeAll(b, times).last == Clock(b, times)
    ensures ConsumeAll(b, times).rate == b.rate && ConsumeAll(b, times).capacity == b.capacity
  {
    if times != [] {
      ClockIsLast(b, times[..|times| - 1]);
      hide Granted;
    }
  }

  lemma {:induction false} ClockGrows(b: Bucket, times: seq<nat>, k: nat)
    requires k <= |times|
    ensures Clock(b, times[..k]) <= Clock(b, times)
    decreases |times|
  {
    if k < |times| {
      ClockGrows(b, times[..|times| - 1], k);
      assert times[..|times| - 1][..k] == times[..k];
    } else {
      assert times[..k] == times;
    }
  }

  /** How many have been let through from the `k`-th request on. */
  function Since(b: Bucket, times: seq<nat>, k: nat): int
    requires k <= |times|
  {
    Admitted(b, times) - Admitted(b, times[..k])
  }

  /** What is left of the burst and the rate's grant from the `k`-th request on, up to a later reading. */
  function LeftSince(b: Bucket, times: seq<nat>, k: nat, clock: nat): real
    requires k < |times| && Clock(b, times) <= clock
  {
    ClockGrows(b, times, k + 1);
    b.capacity + Grant(b.rate, Clock(b, times[..k + 1]), clock) - Since(b, times, k) as real
  }

  /** What is left of the tokens there were and the rate's grant since. */
  function LeftInAll(b: Bucket, times: seq<nat>, clock: nat): real
    requires Clock(b, times) <= clock
  {
    ClockGrows(b, times, 0);
    b.tokens + Grant(b.rate, b.last, clock) - Admitted(b, times) as real
  }

  /** One of the bounds is met exactly, and none is passed. */
  ghost predicate Tight(b: Bucket, times: seq<nat>, tokens: real, clock: nat)
    requires Clock(b, times) <= clock
  {
    && tokens <= LeftInAll(b, times, clock)
    && (forall k | 0 <= k < |times| :: tokens <= LeftSince(b, times, k, clock))
    && (tokens == LeftInAll(b, times, clock) || exists k | 0 <= k < |times| :: tokens == LeftSince(b, times, k, clock))
  }

  lemma GrantMoves(rate: real, a: nat, b: nat, c: nat)
    requires a <= b <= c
    ensures Grant(rate, a, c) == Grant(rate, a, b) + Grant(rate, b, c)
  {
    var x, y := (b - a) as real / NANOS, (c - b) as real / NANOS;
    assert (c - a) as real / NANOS == x + y;
    assert (x + y) * rate == x * rate + y * rate;
  }

  /** Every bound moves with the clock by the same grant. */
  lemma LeftMoves(b: Bucket, times: seq<nat>, clock: nat)
    requires Clock(b, times) <= clock
    ensures var now := Clock(b, times);
            && LeftInAll(b, times, clock) == LeftInAll(b, times, now) + Grant(b.rate, now, clock)
            && forall k | 0 <= k < |times| :: LeftSince(b, times, k, clock) == LeftSince(b, times, k, now) + Grant(b.rate, now, clock)
  {
    var now := Clock(b, times);
    ClockGrows(b, times, 0);
    GrantMoves(b.rate, b.last, now, clock);
    forall k | 0 <= k < |times|
      ensures LeftSince(b, times, k, clock) == LeftSince(b, times, k, now) + Grant(b.rate, now, clock)
    {
      ClockGrows(b, times, k + 1);
      GrantMoves(b.rate, Clock(b, times[..k + 1]), now, clock);
    }
    hide Grant;
  }

  /** One request more: the bounds there were lose a token when it is let through, and a new one begins. */
  lemma LeftNext(b: Bucket, times: seq<nat>)
    requires times != []
    ensures var before, now := times[..|times| - 1], Clock(b, times);
            var taken := (Admitted(b, times) - Admitted(b, before)) as real;
            && Clock(b, before) <= now
            && LeftInAll(b, times, now) == LeftInAll(b, before, now) - taken
            && (forall k | 0 <= k < |before| :: LeftSince(b, times, k, now) == LeftSince(b, before, k, now) - taken)
            && LeftSince(b, times, |before|, now) == b.capacity - taken
  {
    var before := times[..|times| - 1];
    ClockGrows(b, times, |before|);
    assert times[..|times|] == times;
    forall k | 0 <= k < |before|
      ensures LeftSince(b, times, k, Clock(b, times))
           == LeftSince(b, before, k, Clock(b, times)) - (Admitted(b, times) - Admitted(b, before)) as real
    {
      SinceNext(b, times, k);
    }
    hide Admitted, Grant;
  }

  lemma SinceNext(b: Bucket, times: seq<nat>, k: nat)
    requires times != [] && k < |times| - 1
    ensures var before := times[..|times| - 1];
            && Clock(b, before) <= Clock(b, times)
            && LeftSince(b, times, k, Clock(b, times))
               == LeftSince(b, before, k, Clock(b, times)) - (Admitted(b, times) - Admitted(b, before)) as real
  {
    var before := times[..|times| - 1];
    assert before[..k] == times[..k] && before[..k + 1] == times[..k + 1];
    hide Admitted, Grant;
  }

  lemma RefilledTokens(b: Bucket, now: nat)
    requires BucketOk(b)
    ensures Refilled(b, now).tokens == Lesser(b.capacity, b.tokens + Grant(b.rate, b.last, Later(b.last, now)))
  {
    if now <= b.last { assert Grant(b.rate, b.last, b.last) == 0.0; }
  }

  /** What a request finds. */
  lemma RefillIsLeast(b: Bucket, times: seq<nat>, now: nat)
    requires BucketOk(b)
    ensures var was := ConsumeAll(b, times);
            var clock := Later(Clock(b, times), now);
            && BucketOk(was)
            && Refilled(was, now).tokens == Lesser(b.capacity, was.tokens + Grant(b.rate, Clock(b, times), clock))
  {
    hide ConsumeAll, Refilled, Grant, Clock, Admitted, Spilled;
    TokensAreAccounted(b, times);
    ClockIsLast(b, times);
    RefilledTokens(ConsumeAll(b, times), now);
  }

  lemma TakesOne(b: Bucket, times: seq<nat>)
    requires times != []
    ensures var before, now := times[..|times| - 1], times[|times| - 1];
            && ConsumeAll(b, times).tokens
               == Refilled(ConsumeAll(b, before), now).tokens - (Admitted(b, times) - Admitted(b, before)) as real
            && Clock(b, times) == Later(Clock(b, before), now)
  {
    hide Refilled;
  }

  /** The tokens left are the least of the bounds. */
  lemma {:induction false} TokensAreLeast(b: Bucket, times: seq<nat>)
    requires BucketOk(b)
    ensures Tight(b, times, ConsumeAll(b, times).tokens, Clock(b, times))
  {
    if times == [] {
      assert Grant(b.rate, b.last, b.last) == 0.0;
    } else {
      var before, now := times[..|times| - 1], times[|times| - 1];
      TokensAreLeast(b, before);
      TokensNext(b, times);
    }
  }

  lemma TokensNext(b: Bucket, times: seq<nat>)
    requires BucketOk(b) && times != []
    requires Tight(b, times[..|times| - 1], ConsumeAll(b, times[..|times| - 1]).tokens, Clock(b, times[..|times| - 1]))
    ensures Tight(b, times, ConsumeAll(b, times).tokens, Clock(b, times))
  {
    hide ConsumeAll, Refilled, Grant, LeftInAll, LeftSince, Clock, Admitted, Later;
    var before, now := times[..|times| - 1], times[|times| - 1];
    var was, clock := ConsumeAll(b, before), Clock(b, times);
    TakesOne(b, times);
    RefillIsLeast(b, before, now);
    LeftNext(b, times);
    LeftMoves(b, before, clock);
    var taken := (Admitted(b, times) - Admitted(b, before)) as real;
    var tokens := ConsumeAll(b, times).tokens;
    if tokens == b.capacity - taken {
      assert tokens == LeftSince(b, times, |before|, clock);
    } else if was.tokens != LeftInAll(b, before, Clock(b, before)) {
      var k :| 0 <= k < |before| && was.tokens == LeftSince(b, before, k, Clock(b, before));
      assert tokens == LeftSince(b, times, k, clock);
    }
    forall k | 0 <= k < |times| ensures tokens <= LeftSince(b, times, k, clock) {
      if k < |before| { assert was.tokens <= LeftSince(b, before, k, Clock(b, before)); }
    }
  }

  /** One more fits: in all, and in every stretch from an earlier request on. */
  ghost predicate Fits(b: Bucket, times: seq<nat>, now: nat) {
    var clock := Later(Clock(b, times), now);
    && 1.0 <= b.capacity && 1.0 <= LeftInAll(b, times, clock)
    && forall k | 0 <= k < |times| :: 1.0 <= LeftSince(b, times, k, clock)
  }

  /** A request is let through exactly when one more fits the burst and the rate since every earlier request. */
  lemma AdmitsExactlyWhenFits(b: Bucket, times: seq<nat>, now: nat)
    requires BucketOk(b)
    ensures Consume(ConsumeAll(b, times), now).1 <==> Fits(b, times, now)
  {
    var clock := Later(Clock(b, times), now);
    TokensAreLeast(b, times);
    RefillIsLeast(b, times, now);
    LeftMoves(b, times, clock);
    var was := ConsumeAll(b, times);
    assert Consume(was, now).1 <==> Refilled(was, now).tokens >= 1.0;
    hide ConsumeAll, Refilled, Grant, LeftInAll, LeftSince, Clock, Consume;
    if Fits(b, times, now) && was.tokens != LeftInAll(b, times, Clock(b, times)) {
      var k :| 0 <= k < |times| && was.tokens == LeftSince(b, times, k, Clock(b, times));
      assert 1.0 <= LeftSince(b, times, k, clock);
    }
    if Consume(was, now).1 {
      forall k | 0 <= k < |times| ensures 1.0 <= LeftSince(b, times, k, clock) {
        assert was.tokens <= LeftSince(b, times, k, Clock(b, times));
      }
    }
  }

  // ---- the limiter ----

  lemma {:induction false} PolicyStays(start: Limiter, events: seq<Event>)
    requires LimiterOk(start)
    ensures var l := Run(start, events).limiter; l.defers == start.defers && l.capacity == start.capacity
  {
    if events != [] {
      PolicyStays(start, events[..|events| - 1]);
      var t := Run(start, events[..|events| - 1]);
      TraceIsOk(t, start);
      StepKeepsPolicy(t, events[|events| - 1]);
      hide Step, LimiterOk;
    }
  }

  lemma StepKeepsPolicy(t: Traced, e: Event)
    requires LimiterOk(t.limiter)
    ensures var l := Step(t, e).limiter; l.defers == t.limiter.defers && l.capacity == t.limiter.capacity
  {
    hide Consume, PerKind.With;
  }

  /** After any run a request is admitted exactly when one more of its kind fits; it is deferred exactly when it does not, the
      limiter defers, and fewer requests wait in the ring than it holds; otherwise it is refused. */
  lemma DecidedExactly(start: Limiter, events: seq<Event>, r: Pending, now: nat)
    requires LimiterOk(start) && start.pending == []
    ensures var t := Run(start, events);
            var fits := Fits(start.buckets.Of(r.kind), Times(start, events, r.kind), now);
            var room := start.defers && |t.deferred| - |t.drained| < start.capacity;
            && LimiterOk(t.limiter)
            && Admitting(t.limiter, r, now).1 == if fits then Admit else if room then Defer else Reject
  {
    var t := Run(start, events);
    TraceIsOk(t, start);
    DeferredLeaveInOrder(start, events);
    PolicyStays(start, events);
    BucketIsConsulted(start, events, r.kind);
    AdmitsExactlyWhenFits(start.buckets.Of(r.kind), Times(start, events, r.kind), now);
    hide Run, Times, Fits, ConsumeAll, Consume;
  }

  /** The ring gives up its front exactly when one more of that request's kind fits, and that request is the first deferred
      that has not left. */
  lemma DrainedExactly(start: Limiter, events: seq<Event>, now: nat)
    requires LimiterOk(start) && start.pending == []
    ensures var t := Run(start, events);
            && LimiterOk(t.limiter) && |t.drained| <= |t.deferred|
            && var out := Draining(t.limiter, now).1;
               if |t.drained| == |t.deferred| then out == []
               else
                 var front := t.deferred[|t.drained|];
                 out == if Fits(start.buckets.Of(front.kind), Times(start, events, front.kind), now) then [front] else []
  {
    var t := Run(start, events);
    TraceIsOk(t, start);
    DeferredLeaveInOrder(start, events);
    if t.limiter.pending != [] {
      var k := t.limiter.pending[0].kind;
      BucketIsConsulted(start, events, k);
      AdmitsExactlyWhenFits(start.buckets.Of(k), Times(start, events, k), now);
    }
    hide Run, Times, Fits, ConsumeAll, Consume;
  }

  // ---- every request is answered ----

  /** The requests of one kind in a run, and those that left the ring. */
  function Asked(events: seq<Event>, k: Kind): nat {
    if events == [] then 0
    else Asked(events[..|events| - 1], k) + if events[|events| - 1].Request? && events[|events| - 1].r.kind == k then 1 else 0
  }

  /** Over every run, of each kind: requests are those admitted at once, deferred or refused; the ones admitted later are
      those that left the ring. */
  lemma {:induction false} EveryRequestIsAnswered(start: Limiter, events: seq<Event>, k: Kind)
    requires LimiterOk(start) && start.counts.Of(k) == Counts(0, 0, 0)
    ensures var t := Run(start, events);
            var c := t.limiter.counts.Of(k);
            c.admitted + c.deferred + c.rejected == Asked(events, k) + CountOf(t.drained, k)
  {
    if events != [] {
      var before := events[..|events| - 1];
      EveryRequestIsAnswered(start, before, k);
      var t := Run(start, before);
      TraceIsOk(t, start);
      StepAnswers(t, events[|events| - 1], k);
      hide Step, LimiterOk, PerKind.Of;
    }
  }

  function AllOf(c: Counts): nat { c.admitted + c.deferred + c.rejected }

  lemma AdmittingAnswers(l: Limiter, r: Pending, now: nat, k: Kind)
    requires LimiterOk(l)
    ensures AllOf(Admitting(l, r, now).0.counts.Of(k)) == AllOf(l.counts.Of(k)) + if r.kind == k then 1 else 0
  {
    var c := l.counts.Of(r.kind);
    WithOf(l.counts, r.kind, c.(admitted := c.admitted + 1));
    WithOf(l.counts, r.kind, c.(deferred := c.deferred + 1));
    WithOf(l.counts, r.kind, c.(rejected := c.rejected + 1));
    hide Consume, PerKind.Of, PerKind.With, LimiterOk;
  }

  lemma DrainingAnswers(l: Limiter, now: nat, k: Kind)
    requires LimiterOk(l)
    ensures var (l', out) := Draining(l, now);
            && |out| <= 1
            && AllOf(l'.counts.Of(k)) == AllOf(l.counts.Of(k)) + if out != [] && out[0].kind == k then 1 else 0
  {
    if l.pending != [] {
      var j := l.pending[0].kind;
      WithOf(l.counts, j, l.counts.Of(j).(admitted := l.counts.Of(j).admitted + 1));
    }
    hide Consume, PerKind.Of, PerKind.With, LimiterOk;
  }

  lemma StepAnswers(t: Traced, e: Event, k: Kind)
    requires LimiterOk(t.limiter)
    ensures var a, b := t.limiter.counts.Of(k), Step(t, e).limiter.counts.Of(k);
            AllOf(b) + CountOf(t.drained, k)
            == AllOf(a) + CountOf(Step(t, e).drained, k) + if e.Request? && e.r.kind == k then 1 else 0
  {
    hide Admitting, Draining, AllOf, LimiterOk, CountOf;
    match e
    case Request(r, now) => AdmittingAnswers(t.limiter, r, now, k);
    case Drain(now) =>
      DrainingAnswers(t.limiter, now, k);
      var out := Draining(t.limiter, now).1;
      if out == [] { assert t.drained + out == t.drained; } else { CountMore(t.drained, out[0], k); assert out == [out[0]]; }
  }
}
