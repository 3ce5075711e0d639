/** Token buckets and the ring of deferred requests in front of one venue, with time and rates over the reals. */
module RateLimiters {
  import opened ExecTypes
  import opened Rings
  import opened Words

  /** `last` is the latest clock reading taken into account, in nanoseconds. */
  datatype Bucket = Bucket(rate: real, capacity: real, tokens: real, last: nat)

  const NANOS: real := 1000000000.0

  function Lesser(a: real, b: real): real { if a <= b then a else b }

  /** What the rate grants between two readings; a clock that stands or goes back grants nothing. */
  function Granted(b: Bucket, now: nat): real {
    if now <= b.last then 0.0 else (now - b.last) as real / NANOS * b.rate
  }

  function Refilled(b: Bucket, now: nat): Bucket {
    if now <= b.last then b else b.(tokens := Lesser(b.capacity, b.tokens + Granted(b, now)), last := now)
  }

  function Consume(b: Bucket, now: nat): (Bucket, bool) {
    var b1 := Refilled(b, now);
    if b1.tokens < 1.0 then (b1, false) else (b1.(tokens := b1.tokens - 1.0), true)
  }

  function Fresh(rate: real, capacity: real, now: nat): Bucket {
    Bucket(rate, capacity, capacity, now)
  }

  // ---- the rate bound ----

  function ConsumeAll(b: Bucket, times: seq<nat>): Bucket {
    if times == [] then b else Consume(ConsumeAll(b, times[..|times| - 1]), times[|times| - 1]).0
  }

  function Admitted(b: Bucket, times: seq<nat>): nat {
    if times == [] then 0
    else
      Admitted(b, times[..|times| - 1]) + if Consume(ConsumeAll(b, times[..|times| - 1]), times[|times| - 1]).1 then 1 else 0
  }

  /** What the cap threw away. */
  function Spilled(b: Bucket, times: seq<nat>): real {
    if times == [] then 0.0
    else
      var before := ConsumeAll(b, times[..|times| - 1]);
      var now := times[|times| - 1];
      Spilled(b, times[..|times| - 1]) + before.tokens + Granted(before, now) - Refilled(before, now).tokens
  }

  predicate BucketOk(b: Bucket) {
    b.rate >= 0.0 && 0.0 <= b.tokens <= b.capacity
  }

  lemma GrantIsPositive(b: Bucket, now: nat)
    requires b.rate >= 0.0
    ensures Granted(b, now) >= 0.0
  {
    if now > b.last {
      var share := (now - b.last) as real / NANOS;
      assert share >= 0.0;
      assert share * b.rate >= 0.0;
    }
  }

  lemma ConsumeKeeps(b: Bucket, now: nat)
    requires BucketOk(b)
    ensures var (b', ok) := Consume(b, now);
            && BucketOk(b') && b'.rate == b.rate && b'.capacity == b.capacity
            && b'.last == (if now > b.last then now else b.last)
            && b'.tokens + (if ok then 1.0 else 0.0) == Refilled(b, now).tokens <= b.tokens + Granted(b, now)
  {
    GrantIsPositive(b, now);
    hide Granted;
  }

  /** What the rate grants over an interval of the clock. */
  function Grant(rate: real, from: nat, to: nat): real
    requires from <= to
  {
    (to - from) as real / NANOS * rate
  }

  /** Grants add up over consecutive readings. */
  lemma GrantsAdd(b: Bucket, start: nat, now: nat)
    requires start <= b.last
    ensures Grant(b.rate, start, b.last) + Granted(b, now) == Grant(b.rate, start, if now <= b.last then b.last else now)
  {
    if now > b.last {
      var x, y := (b.last - start) as real / NANOS, (now - b.last) as real / NANOS;
      assert (now - start) as real / NANOS == x + y;
      assert (x + y) * b.rate == x * b.rate + y * b.rate;
    }
  }

  /** The exact account: what was admitted, what is left and what was thrown away are what there was and what the rate
      granted over the advance of the clock, stalls and steps back included. */
  lemma {:induction false} TokensAreAccounted(b: Bucket, times: seq<nat>)
    requires BucketOk(b)
    ensures var b' := ConsumeAll(b, times);
            && BucketOk(b') && b'.rate == b.rate && b'.capacity == b.capacity && b'.last >= b.last
            && Spilled(b, times) >= 0.0
            && Admitted(b, times) as real + b'.tokens + Spilled(b, times)
               == b.tokens + Grant(b.rate, b.last, b'.last)
  {
    if times != [] {
      hide Granted, Grant, Consume, Refilled;
      var before := ConsumeAll(b, times[..|times| - 1]);
      var now := times[|times| - 1];
      TokensAreAccounted(b, times[..|times| - 1]);
      ConsumeKeeps(before, now);
      GrantsAdd(before, b.last, now);
    }
  }

  /** The rate bound: between any two points of a run, no more than the burst capacity and the rate's grant over the
      advance of the clock. */
  lemma RateIsBounded(b: Bucket, times: seq<nat>)
    requires BucketOk(b)
    ensures b.last <= ConsumeAll(b, times).last
    ensures Admitted(b, times) as real <= b.capacity + Grant(b.rate, b.last, ConsumeAll(b, times).last)
  {
    TokensAreAccounted(b, times);
  }

  // ---- the limiter ----

  datatype Kind = OrderKind | CancelKind | ReplaceKind

  /** One value for each kind. */
  datatype PerKind<T> = PerKind(order: T, cancel: T, replacement: T) {
    function Of(k: Kind): T {
      match k
      case OrderKind => order
      case CancelKind => cancel
      case ReplaceKind => replacement
    }

    function With(k: Kind, v: T): PerKind<T> {
      match k
      case OrderKind => this.(order := v)
      case CancelKind => this.(cancel := v)
      case ReplaceKind => this.(replacement := v)
    }
  }

  lemma WithOf<T>(p: PerKind<T>, k: Kind, v: T)
    ensures forall j: Kind :: p.With(k, v).Of(j) == if j == k then v else p.Of(j)
  {
  }

  datatype Pending = Pending(kind: Kind, ref: Ref, symbol: nat, volume: int, price: int)

  datatype Decision = Admit | Defer | Reject

  datatype Counts = Counts(admitted: nat, deferred: nat, rejected: nat)

  datatype Limiter = Limiter(buckets: PerKind<Bucket>, counts: PerKind<Counts>, defers: bool, capacity: nat,
                             pending: seq<Pending>, queueFull: nat)

  predicate LimiterOk(l: Limiter) {
    && (forall k: Kind :: BucketOk(l.buckets.Of(k)))
    && |l.pending| <= l.capacity
  }

  function WithBucket(l: Limiter, k: Kind, b: Bucket): Limiter { l.(buckets := l.buckets.With(k, b)) }

  function WithCounts(l: Limiter, k: Kind, c: Counts): Limiter { l.(counts := l.counts.With(k, c)) }

  /** Admits at once when there is a token; otherwise defers while there is room, or fails closed. */
  function Admitting(l: Limiter, r: Pending, now: nat): (Limiter, Decision)
    requires LimiterOk(l)
  {
    var (b, ok) := Consume(l.buckets.Of(r.kind), now);
    var l1 := WithBucket(l, r.kind, b);
    var c := l.counts.Of(r.kind);
    if ok then (WithCounts(l1, r.kind, c.(admitted := c.admitted + 1)), Admit)
    else if l.defers && |l.pending| < l.capacity then
      (WithCounts(l1, r.kind, c.(deferred := c.deferred + 1)).(pending := l.pending + [r]), Defer)
    else
      var full := l.defers && l.capacity > 0;
      (WithCounts(l1, r.kind, c.(rejected := c.rejected + 1)).(queueFull := l.queueFull + if full then 1 else 0), Reject)
  }

  /** The front of the ring leaves when its own bucket has a token; nothing overtakes it. */
  function Draining(l: Limiter, now: nat): (Limiter, seq<Pending>)
    requires LimiterOk(l)
  {
    if l.pending == [] then (l, [])
    else
      var r := l.pending[0];
      var (b, ok) := Consume(l.buckets.Of(r.kind), now);
      var l1 := WithBucket(l, r.kind, b);
      if !ok then (l1, [])
      else
        var c := l.counts.Of(r.kind);
        (WithCounts(l1, r.kind, c.(admitted := c.admitted + 1)).(pending := l.pending[1..]), [r])
  }

  datatype Event = Request(r: Pending, now: nat) | Drain(now: nat)

  /** A limiter with the requests it deferred and those that left its ring, in order. */
  datatype Traced = Traced(limiter: Limiter, deferred: seq<Pending>, drained: seq<Pending>)

  function Step(t: Traced, e: Event): Traced
    requires LimiterOk(t.limiter)
  {
    match e
    case Request(r, now) =>
      var (l, d) := Admitting(t.limiter, r, now);
      Traced(l, if d.Defer? then t.deferred + [r] else t.deferred, t.drained)
    case Drain(now) =>
      var (l, out) := Draining(t.limiter, now);
      Traced(l, t.deferred, t.drained + out)
  }

  function CountOf(s: seq<Pending>, k: Kind): nat {
    if s == [] then 0 else CountOf(s[..|s| - 1], k) + if s[|s| - 1].kind == k then 1 else 0
  }

  ghost predicate TraceOk(t: Traced, start: Limiter) {
    && LimiterOk(t.limiter) && start.pending + t.deferred == t.drained + t.limiter.pending
    && forall k: Kind ::
         t.limiter.counts.Of(k).deferred == start.counts.Of(k).deferred + CountOf(t.deferred, k)
  }

  lemma CountMore(s: seq<Pending>, r: Pending, k: Kind)
    ensures CountOf(s + [r], k) == CountOf(s, k) + if r.kind == k then 1 else 0
  {
    assert (s + [r])[..|s|] == s;
  }

  lemma AppendBoth(a: seq<Pending>, b: seq<Pending>, c: seq<Pending>, d: seq<Pending>, x: Pending)
    requires a + b == c + d
    ensures a + (b + [x]) == c + (d + [x])
  {
    assert a + (b + [x]) == (a + b) + [x];
    assert (c + d) + [x] == c + (d + [x]);
  }

  lemma AdmittingKeeps(l: Limiter, r: Pending, now: nat)
    requires LimiterOk(l)
    ensures var (l', d) := Admitting(l, r, now);
            && LimiterOk(l') && l'.pending == (if d.Defer? then l.pending + [r] else l.pending)
            && forall k: Kind ::
                 l'.counts.Of(k).deferred == l.counts.Of(k).deferred + if d.Defer? && r.kind == k then 1 else 0
  {
    ConsumeKeeps(l.buckets.Of(r.kind), now);
    WithOf(l.buckets, r.kind, Consume(l.buckets.Of(r.kind), now).0);
    var c := l.counts.Of(r.kind);
    WithOf(l.counts, r.kind, c.(admitted := c.admitted + 1));
    WithOf(l.counts, r.kind, c.(deferred := c.deferred + 1));
    WithOf(l.counts, r.kind, c.(rejected := c.rejected + 1));
    hide Consume, BucketOk, PerKind.Of, PerKind.With;
  }

  lemma DrainingKeeps(l: Limiter, now: nat)
    requires LimiterOk(l)
    ensures var (l', out) := Draining(l, now);
            && LimiterOk(l') && l.pending == out + l'.pending
            && forall k: Kind :: l'.counts.Of(k).deferred == l.counts.Of(k).deferred
  {
    assert [] + l.pending == l.pending;
    if l.pending != [] {
      var k := l.pending[0].kind;
      ConsumeKeeps(l.buckets.Of(k), now);
      WithOf(l.buckets, k, Consume(l.buckets.Of(k), now).0);
      WithOf(l.counts, k, l.counts.Of(k).(admitted := l.counts.Of(k).admitted + 1));
      hide Consume, BucketOk, PerKind.Of, PerKind.With;
      assert [l.pending[0]] + l.pending[1..] == l.pending;
    }
  }

  lemma StepKeeps(t: Traced, start: Limiter, e: Event)
    requires TraceOk(t, start)
    ensures TraceOk(Step(t, e), start)
  {
    hide Admitting, Draining;
    match e
    case Request(r, now) =>
      AdmittingKeeps(t.limiter, r, now);
      hide LimiterOk;
      forall k: Kind { CountMore(t.deferred, r, k); }
      AppendBoth(start.pending, t.deferred, t.drained, t.limiter.pending, r);
    case Drain(now) =>
      DrainingKeeps(t.limiter, now);
      hide LimiterOk;
      var (l, out) := Draining(t.limiter, now);
      assert t.drained + (out + l.pending) == (t.drained + out) + l.pending;
  }

  ghost function Run(start: Limiter, events: seq<Event>): (t: Traced)
    requires LimiterOk(start)
    ensures TraceOk(t, start)
  {
    if events == [] then
      assert start.pending + [] == [] + start.pending;
      Traced(start, [], [])
    else
      var t := Run(start, events[..|events| - 1]);
      StepKeeps(t, start, events[|events| - 1]);
      Step(t, events[|events| - 1])
  }

  /** Deferred requests leave the ring once each, in the order they arrived; what is left is still to leave. */
  lemma DeferredLeaveInOrder(start: Limiter, events: seq<Event>)
    requires LimiterOk(start) && start.pending == []
    ensures var t := Run(start, events);
            && t.deferred == t.drained + t.limiter.pending
            && t.drained <= t.deferred && |t.deferred| == |t.drained| + |t.limiter.pending|
  {
    var t := Run(start, events);
    assert start.pending + t.deferred == t.deferred;
  }

  /** Whether an event consults the bucket of `k`. */
  function Consults(l: Limiter, e: Event, k: Kind): bool {
    match e
    case Request(r, _) => r.kind == k
    case Drain(_) => l.pending != [] && l.pending[0].kind == k
  }

  /** The clock readings at which a run consults the bucket of `k`. */
  ghost function Times(start: Limiter, events: seq<Event>, k: Kind): seq<nat>
    requires LimiterOk(start)
  {
    if events == [] then []
    else
      var last := |events| - 1;
      Times(start, events[..last], k)
      + if Consults(Run(start, events[..last]).limiter, events[last], k) then [events[last].now] else []
  }

  lemma StepConsults(t: Traced, e: Event, k: Kind)
    requires LimiterOk(t.limiter)
    ensures var l' := Step(t, e).limiter;
            if Consults(t.limiter, e, k) then
                 var (b, ok) := Consume(t.limiter.buckets.Of(k), e.now);
                 l'.buckets.Of(k) == b && l'.counts.Of(k).admitted == t.limiter.counts.Of(k).admitted + if ok then 1 else 0
               else
                 l'.buckets.Of(k) == t.limiter.buckets.Of(k) && l'.counts.Of(k).admitted == t.limiter.counts.Of(k).admitted
  {
    hide Consume;
  }

  lemma TraceIsOk(t: Traced, start: Limiter)
    requires TraceOk(t, start)
    ensures LimiterOk(t.limiter)
  {
  }

  /** A run treats the bucket of `k` as one sequence of consultations, at once and from the ring alike. */
  lemma {:induction false} BucketIsConsulted(start: Limiter, events: seq<Event>, k: Kind)
    requires LimiterOk(start)
    ensures var l := Run(start, events).limiter;
            var times := Times(start, events, k);
            && l.buckets.Of(k) == ConsumeAll(start.buckets.Of(k), times)
            && l.counts.Of(k).admitted == start.counts.Of(k).admitted + Admitted(start.buckets.Of(k), times)
  {
    if events != [] {
      hide Step, Consume, LimiterOk, Consults, TraceOk;
      var last := |events| - 1;
      BucketIsConsulted(start, events[..last], k);
      var t := Run(start, events[..last]);
      TraceIsOk(t, start);
      StepConsults(t, events[last], k);
      var times := Times(start, events[..last], k);
      var now := events[last].now;
      assert (times + [now])[..|times|] == times;
      assert times + [] == times;
    }
  }

  /** The venue's bound: the requests of one kind let through, whether at once or out of the ring, never exceed the
      burst capacity and the rate's grant over the advance of that kind's clock. */
  lemma VenueRateIsBounded(start: Limiter, events: seq<Event>, k: Kind)
    requires LimiterOk(start)
    ensures var l := Run(start, events).limiter;
            && start.buckets.Of(k).last <= l.buckets.Of(k).last
            && (l.counts.Of(k).admitted - start.counts.Of(k).admitted) as real
               <= start.buckets.Of(k).capacity + Grant(start.buckets.Of(k).rate, start.buckets.Of(k).last, l.buckets.Of(k).last)
  {
    BucketIsConsulted(start, events, k);
    RateIsBounded(start.buckets.Of(k), Times(start, events, k));
    hide Run, Grant;
  }

  // ---- the limiter as it runs ----

  class TokenBucket {
    var rate: real
    var capacity: real
    var tokens: real
    var last: nat

    function View(): Bucket
      reads this
    {
      Bucket(rate, capacity, tokens, last)
    }

    constructor (rate: real, capacity: real, now: nat)
      ensures View() == Fresh(rate, capacity, now)
    {
      this.rate, this.capacity, tokens, last := rate, capacity, capacity, now;
    }

    method Refill(now: nat)
      modifies this
      ensures View() == Refilled(old(View()), now)
    {
      if now <= last {
        return;
      }
      var elapsed := (now - last) as real / NANOS;
      tokens := Lesser(capacity, tokens + elapsed * rate);
      last := now;
    }

    method TryConsume(now: nat) returns (ok: bool)
      modifies this
      ensures (View(), ok) == Consume(old(View()), now)
    {
      Refill(now);
      if tokens < 1.0 {
        return false;
      }
      tokens := tokens - 1.0;
      return true;
    }
  }

  /** The ring of deferred requests. */
  class PendingRing {
    const buffer: array<Pending>
    var head: nat
    var count: nat

    ghost predicate Valid()
      reads this
    {
      count <= buffer.Length && (buffer.Length > 0 ==> head < buffer.Length)
    }

    ghost function View(): seq<Pending>
      reads this, buffer
    {
      Unrolled(buffer[..], head, count)
    }

    constructor (capacity: nat, blank: Pending)
      ensures Valid() && fresh(buffer) && buffer.Length == capacity && View() == []
    {
      buffer := new Pending[capacity](_ => blank);
      head, count := 0, 0;
    }

    method Push(r: Pending) returns (ok: bool)
      requires Valid()
      modifies this`count, buffer
      ensures Valid() && ok == (|old(View())| < buffer.Length) && View() == if ok then old(View()) + [r] else old(View())
    {
      if count >= buffer.Length {
        return false;
      }
      ghost var before := buffer[..];
      PushUnrolls(before, head, count, r);
      var pos := Around(head + count, buffer.Length);
      buffer[pos] := r;
      count := count + 1;
      assert buffer[..] == before[pos := r];
      return true;
    }

    method Pop() returns (r: Pending)
      requires Valid() && count > 0
      modifies this
      ensures Valid() && old(View()) == [r] + View()
    {
      r := buffer[head];
      head := Around(head + 1, buffer.Length);
      count := count - 1;
    }
  }

  class VenueRateLimiter {
    const orders: TokenBucket
    const cancels: TokenBucket
    const replacing: TokenBucket
    const ring: PendingRing
    const defers: bool
    var counts: PerKind<Counts>
    var queueFull: nat

    ghost predicate Valid()
      reads this, orders, cancels, replacing, ring, ring.buffer
    {
      && orders != cancels && orders != replacing && cancels != replacing
      && ring.Valid() && LimiterOk(View())
    }

    ghost function View(): Limiter
      reads this, orders, cancels, replacing, ring, ring.buffer
    {
      Limiter(PerKind(orders.View(), cancels.View(), replacing.View()), counts, defers,
              ring.buffer.Length, ring.View(), queueFull)
    }

    constructor (rates: (real, real, real), bursts: (real, real, real), defers: bool, pendingCapacity: nat, blank: Pending, now: nat)
      requires rates.0 >= 0.0 && rates.1 >= 0.0 && rates.2 >= 0.0 && bursts.0 >= 0.0 && bursts.1 >= 0.0 && bursts.2 >= 0.0
      ensures Valid() && View().pending == []
    {
      orders := new TokenBucket(rates.0, bursts.0, now);
      cancels := new TokenBucket(rates.1, bursts.1, now);
      replacing := new TokenBucket(rates.2, bursts.2, now);
      ring := new PendingRing(pendingCapacity, blank);
      this.defers := defers;
      counts := PerKind(Counts(0, 0, 0), Counts(0, 0, 0), Counts(0, 0, 0));
      queueFull := 0;
    }

    method ConsumeFor(k: Kind, now: nat) returns (ok: bool)
      requires Valid()
      modifies orders, cancels, replacing
      ensures Valid()
      ensures (View(), ok) == (WithBucket(old(View()), k, Consume(old(View()).buckets.Of(k), now).0),
                               Consume(old(View()).buckets.Of(k), now).1)
    {
      ConsumeKeeps(View().buckets.Of(k), now);
      WithOf(View().buckets, k, Consume(View().buckets.Of(k), now).0);
      hide Consume, BucketOk;
      match k
      case OrderKind => ok := orders.TryConsume(now);
      case CancelKind => ok := cancels.TryConsume(now);
      case ReplaceKind => ok := replacing.TryConsume(now);
    }

    method AdmitRequest(r: Pending, now: nat) returns (d: Decision)
      requires Valid()
      modifies this`counts, this`queueFull, orders, cancels, replacing, ring`count, ring.buffer
      ensures Valid() && (View(), d) == Admitting(old(View()), r, now)
    {
      AdmittingKeeps(View(), r, now);
      hide Consume, BucketOk;
      var ok := ConsumeFor(r.kind, now);
      var c := counts.Of(r.kind);
      if ok {
        counts := counts.With(r.kind, c.(admitted := c.admitted + 1));
        return Admit;
      }
      if defers && ring.buffer.Length > 0 {
        var room := ring.Push(r);
        if room {
          counts := counts.With(r.kind, c.(deferred := c.deferred + 1));
          return Defer;
        }
        queueFull := queueFull + 1;
      }
      counts := counts.With(r.kind, c.(rejected := c.rejected + 1));
      return Reject;
    }

    method TryDrainOne(now: nat, blank: Pending) returns (ok: bool, out: Pending)
      requires Valid()
      modifies this`counts, orders, cancels, replacing, ring
      ensures Valid() && (View(), if ok then [out] else []) == Draining(old(View()), now)
    {
      DrainingKeeps(View(), now);
      hide Consume, BucketOk;
      if ring.count == 0 {
        return false, blank;
      }
      var front := ring.buffer[ring.head];
      assert View().pending[0] == front;
      ok := ConsumeFor(front.kind, now);
      if !ok {
        return false, blank;
      }
      out := ring.Pop();
      var c := counts.Of(front.kind);
      counts := counts.With(front.kind, c.(admitted := c.admitted + 1));
    }
  }
}
