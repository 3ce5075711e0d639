/** The single-producer single-consumer ring: its two operations interleaved load by load and store by store,
    with head and tail counters that wrap at the machine word. */
module RingBuffers {
  import opened Words

  /** The capacities the ring accepts. */
  predicate CapacityOk(capacity: nat) {
    2 <= capacity < TWO_64 && IsPowerOfTwo(capacity)
  }

  /** The slot of the n-th value. */
  function Slot(n: nat, capacity: nat): (slot: nat)
    requires capacity > 0
    ensures slot < capacity
  {
    n % capacity
  }

  /** A counter as the machine holds it. */
  function Wrapped(n: nat): nat { n % TWO_64 }

  // ---- the protocol ----

  datatype Producer<T> =
    | Ready
    | LoadedHead(value: T, head: nat)
    | Cleared(value: T, head: nat)   // the tail it loaded left room
    | Written(value: T, head: nat)   // the slot is written, not yet published

  datatype Consumer<T> =
    | Waiting
    | LoadedTail(tail: nat)
    | Seen(tail: nat)                // the head it loaded was ahead
    | Read(tail: nat, value: T)

  /** `pushed` and `popped` record what the two stores published, in order. */
  datatype Ring<T> = Ring(storage: seq<T>, head: nat, tail: nat, producer: Producer<T>, consumer: Consumer<T>,
                          ghost pushed: seq<T>, ghost popped: seq<T>)

  datatype Action<T> = Push(value: T) | Produce | Pop | Consume

  /** The slot of a counter: the mask keeps its low bits. */
  function Masked(counter: nat, capacity: nat): (slot: nat)
    requires IsPowerOfTwo(capacity)
    ensures slot == counter % capacity
  {
    MaskIsRemainder(counter, capacity);
    And(counter, capacity - 1)
  }

  /** One load or store of one of the two threads. */
  ghost function Step<T>(s: Ring<T>, action: Action<T>): Ring<T>
    requires IsPowerOfTwo(|s.storage|)
  {
    var capacity := |s.storage|;
    match action
    case Push(v) => if s.producer.Ready? then s.(producer := LoadedHead(v, s.head)) else s
    case Produce =>
      (match s.producer
       case Ready => s
       case LoadedHead(v, head) =>
         if (head - s.tail) % TWO_64 == capacity then s.(producer := Ready) else s.(producer := Cleared(v, head))
       case Cleared(v, head) => s.(storage := s.storage[Masked(head, capacity) := v], producer := Written(v, head))
       case Written(v, head) => s.(head := (head + 1) % TWO_64, producer := Ready, pushed := s.pushed + [v]))
    case Pop => if s.consumer.Waiting? then s.(consumer := LoadedTail(s.tail)) else s
    case Consume =>
      (match s.consumer
       case Waiting => s
       case LoadedTail(tail) => if tail == s.head then s.(consumer := Waiting) else s.(consumer := Seen(tail))
       case Seen(tail) => s.(consumer := Read(tail, s.storage[Masked(tail, capacity)]))
       case Read(tail, v) => s.(tail := (tail + 1) % TWO_64, consumer := Waiting, popped := s.popped + [v]))
  }

  ghost predicate Counters<T>(s: Ring<T>) {
    var p, q, capacity := |s.pushed|, |s.popped|, |s.storage|;
    && CapacityOk(capacity) && TWO_64 % capacity == 0
    && s.head == Wrapped(p) && s.tail == Wrapped(q) && q <= p <= q + capacity
  }

  /** Every value pushed and not yet popped lies in its slot. */
  ghost predicate Holding<T>(s: Ring<T>)
    requires |s.storage| > 0
  {
    && |s.popped| <= |s.pushed| && s.popped == s.pushed[..|s.popped|]
    && forall i | |s.popped| <= i < |s.pushed| :: s.storage[Slot(i, |s.storage|)] == s.pushed[i]
  }

  ghost predicate ProducerOk<T>(s: Ring<T>)
    requires |s.storage| > 0
  {
    match s.producer
    case Ready => true
    case LoadedHead(_, head) => head == s.head
    case Cleared(_, head) => head == s.head && |s.pushed| < |s.popped| + |s.storage|
    case Written(v, head) =>
      head == s.head && |s.pushed| < |s.popped| + |s.storage| && s.storage[Slot(|s.pushed|, |s.storage|)] == v
  }

  ghost predicate ConsumerOk<T>(s: Ring<T>) {
    match s.consumer
    case Waiting => true
    case LoadedTail(tail) => tail == s.tail
    case Seen(tail) => tail == s.tail && |s.popped| < |s.pushed|
    case Read(tail, v) => tail == s.tail && |s.popped| < |s.pushed| && v == s.pushed[|s.popped|]
  }

  ghost predicate Inv<T>(s: Ring<T>) {
    Counters(s) && Holding(s) && ProducerOk(s) && ConsumerOk(s)
  }

  /** Full and empty are recognised from the wrapped counters alone, and so are the slots. */
  lemma TestsAreExact<T>(s: Ring<T>)
    requires Counters(s)
    ensures IsPowerOfTwo(|s.storage|)
    ensures (s.head - s.tail) % TWO_64 == |s.storage| <==> |s.pushed| == |s.popped| + |s.storage|
    ensures s.head == s.tail <==> |s.pushed| == |s.popped|
    ensures Masked(s.head, |s.storage|) == Slot(|s.pushed|, |s.storage|)
    ensures Masked(s.tail, |s.storage|) == Slot(|s.popped|, |s.storage|)
  {
    hide Masked, IsPowerOfTwo;
    WrappedDistance(|s.pushed|, |s.popped|);
    SlotSurvivesWrap(|s.pushed|, |s.storage|);
    SlotSurvivesWrap(|s.popped|, |s.storage|);
  }

  lemma NextWrapped(n: nat)
    ensures Wrapped(n + 1) == (Wrapped(n) + 1) % TWO_64
  {
  }

  /** Writing the next slot overwrites nothing that is still to be popped. */
  lemma WriteKeepsOthers<T>(s: Ring<T>, v: T)
    requires |s.storage| > 0 && Holding(s) && |s.pushed| < |s.popped| + |s.storage|
    ensures var s' := s.(storage := s.storage[Slot(|s.pushed|, |s.storage|) := v]); Holding(s')
  {
    forall i | |s.popped| <= i < |s.pushed| ensures Slot(i, |s.storage|) != Slot(|s.pushed|, |s.storage|) {
      DistinctSlots(i, |s.pushed|, |s.storage|);
    }
    hide Slot;
  }

  lemma ClearedKeeps<T>(s: Ring<T>)
    requires Inv(s) && s.producer.Cleared? && IsPowerOfTwo(|s.storage|)
    ensures Inv(Step(s, Produce))
  {
    hide Slot, Wrapped, Masked, CapacityOk, IsPowerOfTwo;
    TestsAreExact(s);
    WriteKeepsOthers(s, s.producer.value);
  }

  lemma WrittenKeeps<T>(s: Ring<T>)
    requires Inv(s) && s.producer.Written? && IsPowerOfTwo(|s.storage|)
    ensures Inv(Step(s, Produce))
  {
    hide Slot, Wrapped, Masked, CapacityOk, IsPowerOfTwo;
    NextWrapped(|s.pushed|);
    var s' := Step(s, Produce);
    assert s'.popped == s'.pushed[..|s'.popped|];
  }

  lemma ReadKeeps<T>(s: Ring<T>)
    requires Inv(s) && s.consumer.Read? && IsPowerOfTwo(|s.storage|)
    ensures Inv(Step(s, Consume))
  {
    hide Slot, Wrapped, Masked, CapacityOk, IsPowerOfTwo;
    NextWrapped(|s.popped|);
    var s' := Step(s, Consume);
    assert s'.popped == s'.pushed[..|s'.popped|];
  }

  /** Each load, write and publication of either thread keeps the invariant. */
  lemma StepKeeps<T>(s: Ring<T>, action: Action<T>)
    requires Inv(s)
    ensures IsPowerOfTwo(|s.storage|) && Inv(Step(s, action))
  {
    hide Slot, Wrapped, Masked, CapacityOk, IsPowerOfTwo;
    TestsAreExact(s);
    if action.Produce? && s.producer.Cleared? {
      ClearedKeeps(s);
    } else if action.Produce? && s.producer.Written? {
      WrittenKeeps(s);
    } else if action.Consume? && s.consumer.Read? {
      ReadKeeps(s);
    }
  }

  // ---- runs ----

  ghost function Start<T>(storage: seq<T>): Ring<T> {
    Ring(storage, 0, 0, Ready, Waiting, [], [])
  }

  ghost function Run<T>(s: Ring<T>, actions: seq<Action<T>>): (s': Ring<T>)
    requires IsPowerOfTwo(|s.storage|)
    ensures |s'.storage| == |s.storage|
  {
    if actions == [] then s else Step(Run(s, actions[..|actions| - 1]), actions[|actions| - 1])
  }

  /** What the ring holds: everything from the tail's slot to the head's. */
  ghost function Contents<T>(s: Ring<T>): seq<T>
    requires |s.storage| > 0 && |s.popped| <= |s.pushed|
  {
    seq(|s.pushed| - |s.popped|, i requires 0 <= i => s.storage[Slot(|s.popped| + i, |s.storage|)])
  }

  lemma StartOk<T>(storage: seq<T>)
    requires CapacityOk(|storage|)
    ensures Inv(Start(storage))
  {
    WordWidth();
    Pow2IsPower(64);
    PowersDivide(|storage|, TWO_64);
  }

  lemma {:induction false} RunKeeps<T>(storage: seq<T>, actions: seq<Action<T>>)
    requires CapacityOk(|storage|)
    ensures Inv(Run(Start(storage), actions))
  {
    if actions == [] {
      StartOk(storage);
    } else {
      hide Inv, Step, CapacityOk, IsPowerOfTwo;
      RunKeeps(storage, actions[..|actions| - 1]);
      StepKeeps(Run(Start(storage), actions[..|actions| - 1]), actions[|actions| - 1]);
    }
  }

  lemma HoldsTheRest<T>(s: Ring<T>)
    requires Inv(s)
    ensures |s.storage| > 0 && |s.popped| <= |s.pushed| && s.popped + Contents(s) == s.pushed
    ensures |Contents(s)| <= |s.storage|
  {
    hide Slot, Wrapped, Masked;
    assert s.pushed == s.pushed[..|s.popped|] + s.pushed[|s.popped|..];
    assert s.pushed[|s.popped|..] == Contents(s);
  }

  /** Over every interleaving: what was popped followed by what the ring holds is what was pushed, in order;
      the ring never holds more than its capacity; and the counters may wrap any number of times. */
  lemma RingIsABoundedQueue<T>(storage: seq<T>, actions: seq<Action<T>>)
    requires CapacityOk(|storage|)
    ensures var s := Run(Start(storage), actions);
            && Inv(s) && |s.popped| <= |s.pushed|
            && s.popped + Contents(s) == s.pushed && |Contents(s)| <= |storage|
  {
    hide Inv, Step, Contents;
    RunKeeps(storage, actions);
    HoldsTheRest(Run(Start(storage), actions));
  }

  /** A push is refused exactly when the ring is full at the moment it looks at the tail, and a pop finds
      nothing exactly when the ring is empty at the moment it looks at the head. */
  lemma RefusalsAreExact<T>(storage: seq<T>, actions: seq<Action<T>>)
    requires CapacityOk(|storage|)
    ensures var s := Run(Start(storage), actions);
            && (s.producer.LoadedHead? ==> (Step(s, Produce).producer.Ready? <==> |s.pushed| - |s.popped| == |storage|))
            && (s.consumer.LoadedTail? ==> (Step(s, Consume).consumer.Waiting? <==> |s.pushed| == |s.popped|))
  {
    RingIsABoundedQueue(storage, actions);
    TestsAreExact(Run(Start(storage), actions));
  }

  // ---- one operation at a time ----

  class RingBuffer<T(0)> {
    const storage: array<T>
    var head: nat
    var tail: nat
    ghost var pushed: seq<T>
    ghost var popped: seq<T>

    ghost function View(): Ring<T>
      reads this, storage
    {
      Ring(storage[..], head, tail, Ready, Waiting, pushed, popped)
    }

    ghost predicate Valid()
      reads this, storage
    {
      Inv(View())
    }

    constructor (capacity: nat)
      requires CapacityOk(capacity)
      ensures Valid() && fresh(storage) && storage.Length == capacity && pushed == popped == []
    {
      storage := new T[capacity];
      head, tail, pushed, popped := 0, 0, [], [];
      new;
      WordWidth();
      Pow2IsPower(64);
      PowersDivide(capacity, TWO_64);
    }

    method TryPush(value: T) returns (ok: bool)
      requires Valid()
      modifies this, storage
      ensures Valid() && ok == (|old(pushed)| - |old(popped)| < storage.Length)
      ensures pushed == (if ok then old(pushed) + [value] else old(pushed)) && popped == old(popped)
    {
      hide Slot, Wrapped, Masked, IsPowerOfTwo;
      TestsAreExact(View());
      ghost var s := View();
      if (head - tail) % TWO_64 == storage.Length {
        return false;
      }
      WriteKeepsOthers(s, value);
      NextWrapped(|pushed|);
      storage[Masked(head, storage.Length)] := value;
      head := (head + 1) % TWO_64;
      pushed := pushed + [value];
      assert storage[..] == s.storage[Slot(|s.pushed|, |s.storage|) := value];
      return true;
    }

    method TryPop(fallback: T) returns (ok: bool, value: T)
      requires Valid()
      modifies this
      ensures Valid() && ok == (|old(popped)| < |old(pushed)|)
      ensures pushed == old(pushed) && popped == if ok then old(popped) + [value] else old(popped)
      ensures if ok then value == pushed[|old(popped)|] else value == fallback
    {
      hide Slot, Wrapped, Masked, IsPowerOfTwo;
      TestsAreExact(View());
      if tail == head {
        return false, fallback;
      }
      NextWrapped(|popped|);
      value := storage[Masked(tail, storage.Length)];
      tail := (tail + 1) % TWO_64;
      popped := popped + [value];
      return true, value;
    }
  }
}
