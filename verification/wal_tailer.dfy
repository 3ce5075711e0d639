/** Tailing a log that another process is still writing: a cursor and a bounded buffer over segments that grow
    and are sealed underneath the reader. */
module WalTailers {
  import opened ExecTypes

  datatype Segment<T> = Segment(records: seq<T>, raw: bool)

  /** What is committed at some moment: every segment but the last is sealed. */
  type Log<T> = seq<Segment<T>>

  /** What one attempt of the reader sees: the catalog scan first, and later, when the current segment is opened,
      the log as it is by then. `torn` says reading ends at a malformed frame instead of a clean stop. */
  datatype Observation<T> = Observation(scanOk: bool, catalog: Log<T>, opens: bool, now: Log<T>, torn: bool) {
    /** Segments are never removed. */
    predicate Ok() { |catalog| <= |now| }
  }

  datatype Status = Ok | Idle | EndOfData | Corrupt | CatalogError

  const BUFFER_CAPACITY: nat := 4096

  /** How many records of which segment have been delivered; it is what a reader saves. */
  datatype Cursor = Cursor(segment: nat, consumed: nat)

  /** The cursor and the records read and not yet delivered. For the specification: everything delivered, the cursor the
      reader was last resumed from, and how much had been delivered by then. */
  datatype Tailer<T> = Tailer(segment: nat, consumed: nat, pending: seq<T>, corrupt: bool, delivered: seq<T>,
                              origin: Cursor, base: nat)
  {
    function At(): Cursor { Cursor(segment, consumed) }
  }

  function Fresh<T>(): Tailer<T> {
    Tailer(0, 0, [], false, [], Cursor(0, 0), 0)
  }

  // ---- the writer ----

  /** Sealed segments stay as they are; the last one grows, and may be followed by new ones. */
  ghost predicate Grows<T>(a: Log<T>, b: Log<T>) {
    && |a| <= |b|
    && (forall i | 0 <= i < |a| - 1 :: b[i] == a[i])
    && (a != [] ==> var last := |a| - 1; a[last].records <= b[last].records && a[last].raw == b[last].raw)
  }

  function Flat<T>(log: Log<T>): seq<T> {
    if log == [] then [] else Flat(log[..|log| - 1]) + log[|log| - 1].records
  }

  lemma GrowsTransitive<T>(a: Log<T>, b: Log<T>, c: Log<T>)
    requires Grows(a, b) && Grows(b, c)
    ensures Grows(a, c)
  {
  }

  /** A growing log only gains records at its end. */
  lemma {:induction false} GrowsIsPrefix<T>(a: Log<T>, b: Log<T>)
    requires Grows(a, b)
    ensures Flat(a) <= Flat(b)
    decreases |b|
  {
    if a != [] {
      var last := |b| - 1;
      if |a| == |b| {
        assert a[..last] == b[..last];
      } else {
        GrowsIsPrefix(a, b[..last]);
      }
    }
  }

  // ---- the reader ----

  /** Reads the current segment from its start, skips what was delivered and buffers what follows. */
  function Fill<T>(t: Tailer<T>, o: Observation<T>): (Tailer<T>, Status)
    requires t.segment < |o.catalog| <= |o.now|
  {
    if !o.catalog[t.segment].raw then (t.(corrupt := true), Corrupt)
    else if !o.opens then (t, Idle)
    else
      var records := o.now[t.segment].records;
      var rest := if t.consumed <= |records| then records[t.consumed..] else [];
      if |rest| >= BUFFER_CAPACITY then (t.(pending := rest[..BUFFER_CAPACITY]), Ok)
      else if o.torn then (t.(corrupt := true), Corrupt)
      else if rest == [] then (t.(pending := []), Idle)
      else (t.(pending := rest), Ok)
  }

  function Deliver<T>(t: Tailer<T>): Tailer<T>
    requires t.pending != []
  {
    t.(pending := t.pending[1..], consumed := t.consumed + 1, delivered := t.delivered + [t.pending[0]])
  }

  /** One attempt with an empty buffer; None means it moved on to the next segment and tries again. */
  function Attempted<T>(t: Tailer<T>, o: Observation<T>): (Tailer<T>, Option<Status>)
    requires o.Ok()
  {
    if !o.scanOk || o.catalog == [] then (t, Some(CatalogError))
    else if t.segment >= |o.catalog| then (t, Some(EndOfData))
    else
      var (t1, status) := Fill(t, o);
      if status == Corrupt then (t1, Some(Corrupt))
      else if status == Ok then (Deliver(t1), Some(Ok))
      else if t.segment + 1 < |o.catalog| then (t1.(segment := t.segment + 1, consumed := 0), None)
      else (t1, Some(Idle))
  }

  ghost predicate Sound<T>(seen: Log<T>, o: Observation<T>) {
    && Grows(seen, o.catalog) && Grows(o.catalog, o.now)
  }

  /** A segment that is followed by another can be opened. */
  predicate Readable<T>(t: Tailer<T>, o: Observation<T>) {
    t.segment + 1 < |o.catalog| ==> o.opens
  }

  predicate Within<T>(log: Log<T>, c: Cursor) {
    if log == [] then c == Cursor(0, 0) else c.segment < |log| && c.consumed <= |log[c.segment].records|
  }

  /** The records before a cursor. */
  function Upto<T>(log: Log<T>, c: Cursor): seq<T>
    requires Within(log, c)
  {
    if log == [] then [] else Flat(log[..c.segment]) + log[c.segment].records[..c.consumed]
  }

  /** What was delivered since the reader was resumed is the log from that cursor to the current one, and the buffer holds
      what comes next. */
  ghost predicate Inv<T>(t: Tailer<T>, log: Log<T>) {
    && Within(log, t.At()) && Within(log, t.origin) && t.base <= |t.delivered|
    && |Upto(log, t.origin)| <= t.base
    && Upto(log, t.origin) + t.delivered[t.base..] == Upto(log, t.At())
    && Buffered(t, log)
  }

  ghost predicate Buffered<T>(t: Tailer<T>, log: Log<T>) {
    if log == [] then t.pending == []
    else
      && t.segment < |log| && t.consumed + |t.pending| <= |log[t.segment].records|
      && t.pending == log[t.segment].records[t.consumed..t.consumed + |t.pending|]
  }

  lemma UptoGrows<T>(a: Log<T>, b: Log<T>, c: Cursor)
    requires Within(a, c) && Grows(a, b)
    ensures Within(b, c) && Upto(b, c) == Upto(a, c)
  {
    if a != [] {
      assert a[..c.segment] == b[..c.segment];
      assert a[c.segment].records <= b[c.segment].records;
    } else if b != [] {
      assert Flat(b[..0]) == [];
    }
  }

  lemma BufferGrows<T>(t: Tailer<T>, a: Log<T>, b: Log<T>)
    requires Buffered(t, a) && Within(a, t.At()) && Grows(a, b)
    ensures Buffered(t, b)
  {
    if a != [] { assert a[t.segment].records <= b[t.segment].records; }
  }

  lemma InvGrows<T>(t: Tailer<T>, a: Log<T>, b: Log<T>)
    requires Inv(t, a) && Grows(a, b)
    ensures Inv(t, b)
  {
    UptoGrows(a, b, t.At());
    UptoGrows(a, b, t.origin);
    BufferGrows(t, a, b);
    hide Upto, Grows, Buffered, Within;
  }

  lemma UptoNext<T>(log: Log<T>, segment: nat, consumed: nat)
    requires segment < |log| && consumed < |log[segment].records|
    ensures Upto(log, Cursor(segment, consumed + 1)) == Upto(log, Cursor(segment, consumed)) + [log[segment].records[consumed]]
  {
    var records := log[segment].records;
    assert records[..consumed + 1] == records[..consumed] + [records[consumed]];
  }

  lemma DeliverKeeps<T>(t: Tailer<T>, log: Log<T>)
    requires Inv(t, log) && t.pending != []
    ensures Inv(Deliver(t), log)
  {
    var t' := Deliver(t);
    UptoNext(log, t.segment, t.consumed);
    assert t'.delivered[t.base..] == t.delivered[t.base..] + [t.pending[0]];
    hide Upto;
  }

  /** The end of a segment is the beginning of the next. */
  lemma UptoAdvances<T>(log: Log<T>, segment: nat)
    requires segment + 1 < |log|
    ensures Upto(log, Cursor(segment + 1, 0)) == Upto(log, Cursor(segment, |log[segment].records|))
  {
    FlatTakes(log, segment);
    hide Flat;
  }

  lemma AdvanceKeeps<T>(t: Tailer<T>, log: Log<T>)
    requires Inv(t, log) && t.pending == [] && t.segment + 1 < |log| && t.consumed == |log[t.segment].records|
    ensures Inv(t.(segment := t.segment + 1, consumed := 0), log)
  {
    UptoAdvances(log, t.segment);
    hide Upto;
  }

  /** Resumed from a cursor within the log, the reader has delivered nothing since. */
  lemma ResumeKeeps<T>(t: Tailer<T>, log: Log<T>, c: Cursor)
    requires Inv(t, log) && Within(log, c) && |Upto(log, c)| <= |t.delivered|
    ensures Inv(Resumed(t, c), log)
  {
    var t' := Resumed(t, c);
    assert t'.delivered[t'.base..] == [];
    hide Upto;
  }

  /** One attempt keeps the account, whatever the writer did between the scan and the read. */
  lemma AttemptKeeps<T>(t: Tailer<T>, seen: Log<T>, o: Observation<T>)
    requires Inv(t, seen) && t.pending == [] && Sound(seen, o) && Readable(t, o)
    ensures o.Ok() && Inv(Attempted(t, o).0, o.now)
  {
    hide Grows, Flat, Inv, Fill, Deliver, Sound;
    SoundGrows(seen, o);
    InvGrows(t, seen, o.now);
    if o.scanOk && o.catalog != [] && t.segment < |o.catalog| {
      var (t1, status) := Fill(t, o);
      FillKeeps(t, o);
      if status == Ok {
        DeliverKeeps(t1, o.now);
      } else if status == Idle && t.segment + 1 < |o.catalog| {
        AdvanceKeeps(t1, o.now);
      }
    }
  }

  lemma SoundGrows<T>(seen: Log<T>, o: Observation<T>)
    requires Sound(seen, o)
    ensures Grows(seen, o.now) && Grows(o.catalog, o.now) && o.Ok()
  {
    GrowsTransitive(seen, o.catalog, o.now);
  }

  lemma FlatTakes<T>(log: Log<T>, i: nat)
    requires i < |log|
    ensures Flat(log[..i + 1]) == Flat(log[..i]) + log[i].records
  {
    assert log[..i + 1][..i] == log[..i];
  }

  lemma FillKeeps<T>(t: Tailer<T>, o: Observation<T>)
    requires Inv(t, o.now) && t.pending == [] && t.segment < |o.catalog| && o.Ok()
    ensures Fill(t, o).0 == t.(pending := Fill(t, o).0.pending, corrupt := Fill(t, o).0.corrupt)
    ensures Inv(Fill(t, o).0, o.now) && Fill(t, o).0.segment == t.segment && Fill(t, o).0.consumed == t.consumed
    ensures Fill(t, o).1 == Ok || Fill(t, o).1 == Idle || Fill(t, o).1 == Corrupt
    ensures Fill(t, o).1 == Ok ==> Fill(t, o).0.pending != []
    ensures Fill(t, o).1 == Idle && o.opens ==> t.consumed == |o.now[t.segment].records| && Fill(t, o).0.pending == []
  {
    hide Flat;
  }

  /** An unreadable segment that is followed by another is passed over: the account survives exactly when nothing
      was left to read in it. */
  lemma SkippingLoses<T>(t: Tailer<T>, seen: Log<T>, o: Observation<T>)
    requires Inv(t, seen) && t.pending == [] && Sound(seen, o) && o.scanOk
    requires o.Ok() && t.segment + 1 < |o.catalog| && o.catalog[t.segment].raw && !o.opens
    ensures Inv(Attempted(t, o).0, o.now) <==> t.consumed == |o.now[t.segment].records|
  {
    SoundGrows(seen, o);
    InvGrows(t, seen, o.now);
    UptoAdvances(o.now, t.segment);
    UptoSize(o.now, t.segment, t.consumed);
    hide Grows, Flat, Upto;
  }

  lemma UptoSize<T>(log: Log<T>, segment: nat, consumed: nat)
    requires segment < |log| && consumed <= |log[segment].records|
    ensures |Upto(log, Cursor(segment, |log[segment].records|))| - |Upto(log, Cursor(segment, consumed))|
         == |log[segment].records| - consumed
  {
  }

  // ---- whole runs ----

  /** A poll is one turn of `next`: from the buffer if it has something, by one attempt otherwise. A reader can be
      resumed from any cursor that was saved; that loses the buffer. */
  datatype Event<T> = Poll(o: Observation<T>) | Restart(cursor: Cursor)

  predicate Attempts<T>(t: Tailer<T>, e: Event<T>) {
    e.Poll? && !t.corrupt && t.pending == []
  }

  function Resumed<T>(t: Tailer<T>, c: Cursor): Tailer<T> {
    t.(segment := c.segment, consumed := c.consumed, pending := [], origin := c, base := |t.delivered|)
  }

  function Turn<T>(t: Tailer<T>, e: Event<T>): (Tailer<T>, Option<Status>)
    requires e.Poll? ==> e.o.Ok()
  {
    match e
    case Restart(cursor) => (Resumed(t, cursor), None)
    case Poll(o) =>
      if t.corrupt then (t, Some(Corrupt))
      else if t.pending != [] then (Deliver(t), Some(Ok))
      else Attempted(t, o)
  }

  predicate AllOk<T>(events: seq<Event<T>>) {
    forall i | 0 <= i < |events| :: events[i].Poll? ==> events[i].o.Ok()
  }

  /** The tailer after a run, and the latest log it was shown. */
  function Run<T>(events: seq<Event<T>>): (Tailer<T>, Log<T>)
    requires AllOk(events)
  {
    if events == [] then (Fresh(), [])
    else
      var e := events[|events| - 1];
      var (t, seen) := Run(events[..|events| - 1]);
      (Turn(t, e).0, if Attempts(t, e) then e.o.now else seen)
  }

  /** A cursor the reader had at some moment of the run, and could have saved. */
  ghost predicate Had<T>(events: seq<Event<T>>, c: Cursor)
    requires AllOk(events)
  {
    exists k | 0 <= k <= |events| :: Run(events[..k]).0.At() == c
  }

  /** The writer only ever appends, every segment that is followed by another can be opened, and a reader is resumed from
      a cursor it had. */
  ghost predicate Orderly<T>(events: seq<Event<T>>)
    requires AllOk(events)
  {
    events != [] ==>
      var before, e := events[..|events| - 1], events[|events| - 1];
      var (t, seen) := Run(before);
      && Orderly(before) && (Attempts(t, e) ==> Sound(seen, e.o) && Readable(t, e.o))
      && (e.Restart? ==> Had(before, e.cursor))
  }

  /** A cursor that was had lies within the log, and nothing before it is undelivered. */
  ghost predicate AllDelivered<T>(events: seq<Event<T>>)
    requires AllOk(events)
  {
    var (t, seen) := Run(events);
    forall c | Had(events, c) :: Within(seen, c) && |Upto(seen, c)| <= |t.delivered|
  }

  lemma TurnKeeps<T>(t: Tailer<T>, seen: Log<T>, e: Event<T>)
    requires (e.Poll? ==> e.o.Ok()) && Inv(t, seen)
    requires Attempts(t, e) ==> Sound(seen, e.o) && Readable(t, e.o)
    requires e.Restart? ==> Within(seen, e.cursor) && |Upto(seen, e.cursor)| <= |t.delivered|
    ensures var seen' := if Attempts(t, e) then e.o.now else seen;
            Inv(Turn(t, e).0, seen') && Grows(seen, seen') && |Turn(t, e).0.delivered| >= |t.delivered|
  {
    GrowsItself(seen);
    hide Grows, Inv, Upto, Within;
    if Attempts(t, e) {
      AttemptKeeps(t, seen, e.o);
      SoundGrows(seen, e.o);
    } else if e.Restart? {
      ResumeKeeps(t, seen, e.cursor);
    } else if !t.corrupt {
      DeliverKeeps(t, seen);
    }
  }

  lemma GrowsItself<T>(log: Log<T>)
    ensures Grows(log, log)
  {
  }

  lemma CurrentIsDelivered<T>(t: Tailer<T>, log: Log<T>)
    requires Inv(t, log)
    ensures Within(log, t.At()) && |Upto(log, t.At())| <= |t.delivered|
  {
  }

  /** From any saved cursor on: over every run, what was delivered since the reader was last resumed is exactly the log
      from that cursor to the current one, and the buffer holds what comes next. */
  lemma {:induction false} FromTheCursorOn<T>(events: seq<Event<T>>)
    requires AllOk(events) && Orderly(events)
    ensures Inv(Run(events).0, Run(events).1) && AllDelivered(events)
  {
    var (t', seen') := Run(events);
    if events == [] {
      forall c | Had(events, c) ensures Within(seen', c) && |Upto(seen', c)| <= |t'.delivered| {
        var k :| 0 <= k <= |events| && Run(events[..k]).0.At() == c;
      }
    } else {
      hide Inv, Grows, Sound, Upto, Within, Turn;
      var before, e := events[..|events| - 1], events[|events| - 1];
      var (t, seen) := Run(before);
      FromTheCursorOn(before);
      TurnKeeps(t, seen, e);
      CurrentIsDelivered(t', seen');
      forall c | Had(events, c) ensures Within(seen', c) && |Upto(seen', c)| <= |t'.delivered| {
        HadBefore(events, c);
        if Had(before, c) { UptoGrows(seen, seen', c); }
      }
    }
  }

  lemma HadBefore<T>(events: seq<Event<T>>, c: Cursor)
    requires AllOk(events) && events != [] && Had(events, c)
    ensures Run(events).0.At() == c || Had(events[..|events| - 1], c)
  {
    hide Run, AllOk;
    AllOkPrefixes(events);
    var before := events[..|events| - 1];
    var k :| 0 <= k <= |events| && Run(events[..k]).0.At() == c;
    if k == |events| {
      assert events[..k] == events;
    } else {
      AllOkPrefixes(before);
      assert before[..k] == events[..k];
    }
  }

  lemma AllOkPrefixes<T>(events: seq<Event<T>>)
    requires AllOk(events)
    ensures forall k | 0 <= k <= |events| :: AllOk(events[..k])
  {
  }

  /** Every resumption was from a cursor that marks the place the reader had come to. */
  ghost predicate ResumedInPlace<T>(events: seq<Event<T>>)
    requires AllOk(events)
  {
    events != [] ==>
      var before, e := events[..|events| - 1], events[|events| - 1];
      var (t, seen) := Run(before);
      && ResumedInPlace(before)
      && (e.Restart? ==> Within(seen, e.cursor) && Within(seen, t.At()) && Upto(seen, e.cursor) == Upto(seen, t.At()))
  }

  /** Everything delivered, once and in order, is the log up to the cursor. */
  ghost predicate OnceInOrder<T>(t: Tailer<T>, log: Log<T>) {
    Within(log, t.At()) && t.delivered == Upto(log, t.At())
  }

  lemma TurnKeepsOnce<T>(t: Tailer<T>, seen: Log<T>, e: Event<T>)
    requires (e.Poll? ==> e.o.Ok()) && Inv(t, seen) && OnceInOrder(t, seen)
    requires Attempts(t, e) ==> Sound(seen, e.o) && Readable(t, e.o)
    requires e.Restart? ==> Within(seen, e.cursor) && Upto(seen, e.cursor) == Upto(seen, t.At())
    ensures OnceInOrder(Turn(t, e).0, if Attempts(t, e) then e.o.now else seen)
  {
    var t', seen' := Turn(t, e).0, if Attempts(t, e) then e.o.now else seen;
    TurnKeeps(t, seen, e);
    if !e.Restart? {
      TurnKeepsOrigin(t, e);
      UptoGrows(seen, seen', t.origin);
      UptoGrows(seen, seen', t.At());
      hide Upto, Grows, Within, Turn, Sound, Buffered;
      OnceFromOrigin(t, t', Upto(seen, t.origin), Upto(seen, t.At()), Upto(seen', t'.At()));
    }
  }

  lemma TurnKeepsOrigin<T>(t: Tailer<T>, e: Event<T>)
    requires e.Poll? && e.o.Ok()
    ensures var t' := Turn(t, e).0; t'.origin == t.origin && t'.base == t.base && t.delivered <= t'.delivered
  {
  }

  lemma OnceFromOrigin<T>(t: Tailer<T>, t': Tailer<T>, start: seq<T>, here: seq<T>, there: seq<T>)
    requires t.delivered <= t'.delivered && t.base == t'.base <= |t.delivered|
    requires start + t.delivered[t.base..] == here == t.delivered && start + t'.delivered[t.base..] == there
    ensures t'.delivered == there
  {
    assert |start| == t.base;
    assert start == t.delivered[..t.base] == t'.delivered[..t.base];
  }

  /** Exactly once, in order: whatever the writer appended or sealed in between, what has been delivered is a prefix
      of the log, across refills, empty segments, segment changes and resumptions in place. */
  lemma {:induction false} DeliveredIsAPrefix<T>(events: seq<Event<T>>)
    requires AllOk(events) && Orderly(events) && ResumedInPlace(events)
    ensures var (t, seen) := Run(events); OnceInOrder(t, seen) && t.delivered + t.pending <= Flat(seen)
  {
    if events != [] {
      hide Upto, Within, Turn, OnceInOrder, Inv;
      var before, e := events[..|events| - 1], events[|events| - 1];
      var (t, seen) := Run(before);
      DeliveredIsAPrefix(before);
      FromTheCursorOn(before);
      TurnKeepsOnce(t, seen, e);
    } else {
      assert OnceInOrder(Run(events).0, Run(events).1);
    }
    FromTheCursorOn(events);
    AccountIsPrefix(Run(events).0, Run(events).1);
  }

  lemma AccountIsPrefix<T>(t: Tailer<T>, log: Log<T>)
    requires Inv(t, log) && OnceInOrder(t, log)
    ensures t.delivered + t.pending <= Flat(log)
  {
    if log != [] {
      var n := t.consumed + |t.pending|;
      var records := log[t.segment].records;
      assert t.delivered + t.pending == Flat(log[..t.segment]) + records[..n];
      UptoIsPrefix(log, Cursor(t.segment, n));
    }
  }

  lemma UptoIsPrefix<T>(log: Log<T>, c: Cursor)
    requires Within(log, c)
    ensures Upto(log, c) <= Flat(log)
  {
    if log != [] {
      FlatTakes(log, c.segment);
      FlatPrefix(log, c.segment + 1);
      assert log[c.segment].records[..c.consumed] <= log[c.segment].records;
      hide Flat;
    }
  }

  lemma {:induction false} FlatPrefix<T>(log: Log<T>, i: nat)
    requires i <= |log|
    ensures Flat(log[..i]) <= Flat(log)
    decreases |log|
  {
    if i == |log| {
      assert log[..i] == log;
    } else {
      assert log[..|log| - 1][..i] == log[..i];
      FlatPrefix(log[..|log| - 1], i);
    }
  }

  // ---- resuming from an older cursor ----

  ghost predicate NoneAlike<T>(records: seq<T>) {
    forall i, j | 0 <= i < j < |records| :: records[i] != records[j]
  }

  /** Polls only. */
  predicate NoRestart<T>(events: seq<Event<T>>) {
    forall i | 0 <= i < |events| :: events[i].Poll?
  }

  /** What a later state still knows of the state in which the reader was resumed from `c`. */
  ghost predicate Follows<T>(t: Tailer<T>, seen: Log<T>, c: Cursor, t': Tailer<T>, seen': Log<T>) {
    && t'.origin == c && t'.base == |t.delivered| && t.delivered <= t'.delivered && Grows(seen, seen')
    && Within(seen, c) && |Upto(seen, c)| <= |t.delivered|
  }

  lemma ResumeFollows<T>(before: seq<Event<T>>, c: Cursor)
    requires AllOk(before + [Restart(c)]) && Orderly(before + [Restart(c)])
    ensures AllOk(before) && Orderly(before)
    ensures Follows(Run(before).0, Run(before).1, c, Run(before + [Restart(c)]).0, Run(before + [Restart(c)]).1)
  {
    var events := before + [Restart(c)];
    assert events[..|before|] == before && events[|before|] == Restart(c);
    assert forall i | 0 <= i < |before| :: before[i] == events[i];
    FromTheCursorOn(before);
    hide Inv, Upto, Within, Grows;
    GrowsItself(Run(before).1);
  }

  lemma PollFollows<T>(t0: Tailer<T>, seen0: Log<T>, c: Cursor, t: Tailer<T>, seen: Log<T>, e: Event<T>)
    requires Follows(t0, seen0, c, t, seen) && e.Poll? && e.o.Ok() && Inv(t, seen)
    requires Attempts(t, e) ==> Sound(seen, e.o) && Readable(t, e.o)
    ensures Follows(t0, seen0, c, Turn(t, e).0, if Attempts(t, e) then e.o.now else seen)
  {
    var seen' := if Attempts(t, e) then e.o.now else seen;
    TurnKeeps(t, seen, e);
    TurnKeepsOrigin(t, e);
    GrowsTransitive(seen0, seen, seen');
    hide Turn, Grows, Within, Upto, Inv;
  }

  /** After a resumption nothing is forgotten of what was delivered before. */
  lemma {:induction false} PollsFollow<T>(before: seq<Event<T>>, c: Cursor, after: seq<Event<T>>)
    requires var events := before + [Restart(c)] + after;
             AllOk(events) && Orderly(events) && NoRestart(after)
    ensures AllOk(before) && Orderly(before)
    ensures var events := before + [Restart(c)] + after;
            Follows(Run(before).0, Run(before).1, c, Run(events).0, Run(events).1)
    decreases |after|
  {
    hide Follows, Inv, Turn, Sound;
    if after == [] {
      assert before + [Restart(c)] + after == before + [Restart(c)];
      ResumeFollows(before, c);
    } else {
      var last := |after| - 1;
      var events := before + [Restart(c)] + after;
      var all := before + [Restart(c)] + after[..last];
      assert events[..|events| - 1] == all && events[|events| - 1] == after[last];
      assert forall i | 0 <= i < |all| :: all[i] == events[i];
      PollsFollow(before, c, after[..last]);
      FromTheCursorOn(all);
      PollFollows(Run(before).0, Run(before).1, c, Run(all).0, Run(all).1, after[last]);
    }
  }

  /** A crash loses what was saved since: after resuming from a saved cursor, the log is delivered from there on. So with
      no two records alike, as soon as anything more is delivered, the whole delivery is a prefix of the log exactly when
      the cursor marked the place the reader had come to. */
  lemma PrefixIffResumedInPlace<T>(before: seq<Event<T>>, c: Cursor, after: seq<Event<T>>)
    requires var events := before + [Restart(c)] + after;
             AllOk(events) && Orderly(events) && NoRestart(after)
    requires AllOk(before) && OnceInOrder(Run(before).0, Run(before).1)
    requires var (t, _) := Run(before);
             var (t', seen') := Run(before + [Restart(c)] + after);
             |t'.delivered| > |t.delivered| && NoneAlike(Flat(seen'))
    ensures var (t, seen) := Run(before);
            var (t', seen') := Run(before + [Restart(c)] + after);
            && Within(seen, c)
            && (t'.delivered <= Flat(seen') <==> Upto(seen, c) == Upto(seen, t.At()))
  {
    PollsFollow(before, c, after);
    FromTheCursorOn(before + [Restart(c)] + after);
    var (t, seen) := Run(before);
    var (t', seen') := Run(before + [Restart(c)] + after);
    UptoGrows(seen, seen', c);
    UptoGrows(seen, seen', t.At());
    UptoIsPrefix(seen', t'.At());
    UptoIsPrefix(seen', c);
    UptoIsPrefix(seen', t.At());
    hide Upto, Flat, Within, Grows, Run, AllOk, Orderly, Buffered;
    Replayed(Upto(seen, c), t.delivered, t'.delivered, Flat(seen'));
  }

  /** `done` was delivered, and then the log again from behind `start`. */
  lemma Replayed<T>(start: seq<T>, done: seq<T>, all: seq<T>, log: seq<T>)
    requires done <= all && |all| > |done| && done <= log && NoneAlike(log)
    requires |start| <= |done| && start + all[|done|..] <= log
    ensures all <= log <==> start == done
  {
    var more := all[|done|..];
    if start == done {
      assert all == done + more;
    } else {
      assert start == log[..|start|] && done == log[..|done|];
      assert (start + more)[|start|] == more[0] == all[|done|];
      assert log[|start|] == all[|done|];
    }
  }

  /** Idle means caught up, unless the last segment could not be opened: everything that was committed when the catalog
      was scanned lies before the cursor, so all of it behind the cursor the reader was resumed from has been delivered,
      exactly when the segment was read or had nothing new. */
  lemma IdleIsCaughtUp<T>(t: Tailer<T>, seen: Log<T>, o: Observation<T>)
    requires Inv(t, seen) && t.pending == [] && Sound(seen, o) && Readable(t, o) && o.Ok()
    requires Attempted(t, o).1 == Some(Idle)
    ensures t.segment < |o.catalog|
    ensures var t' := Attempted(t, o).0;
            && Within(o.now, t'.origin)
            && (Flat(o.catalog) <= Upto(o.now, t'.origin) + t'.delivered[t'.base..]
                <==> o.opens || |o.catalog[t.segment].records| <= t.consumed)
  {
    hide Grows, Sound, Upto, Buffered;
    SoundGrows(seen, o);
    InvGrows(t, seen, o.now);
    FillKeeps(t, o);
    CaughtUp(Fill(t, o).0, o);
  }

  /** In the last segment the reader has caught up exactly when it has consumed what the scan saw there. */
  lemma CaughtUp<T>(t: Tailer<T>, o: Observation<T>)
    requires Within(o.now, t.At()) && o.now != [] && Grows(o.catalog, o.now) && t.segment + 1 == |o.catalog|
    ensures Flat(o.catalog) <= Upto(o.now, t.At()) <==> |o.catalog[t.segment].records| <= t.consumed
    ensures |o.catalog[t.segment].records| <= |o.now[t.segment].records|
  {
    assert o.now[..t.segment] == o.catalog[..t.segment];
    var before, committed, now := Flat(o.catalog[..t.segment]), o.catalog[t.segment].records, o.now[t.segment].records;
    assert committed <= now;
    assert Flat(o.catalog) == before + committed && Upto(o.now, t.At()) == before + now[..t.consumed];
    SamePrefix(before, committed, now[..t.consumed]);
    if |committed| <= t.consumed { assert committed == now[..|committed|] == now[..t.consumed][..|committed|]; }
  }

  lemma SamePrefix<T>(before: seq<T>, a: seq<T>, b: seq<T>)
    ensures before + a <= before + b <==> a <= b
  {
    if before + a <= before + b {
      assert a == (before + a)[|before|..] && b == (before + b)[|before|..];
      forall i | 0 <= i < |a| ensures a[i] == b[i] {
        assert (before + a)[|before| + i] == (before + b)[|before| + i];
      }
    }
    if a <= b {
      assert before + b == before + a + b[|a|..];
    }
  }

  // ---- the tailer itself ----

  class ExecutionWalTailer<T(0)> {
    var segment: nat
    var consumed: nat
    const buffer: array<T>
    var buffered: nat
    var position: nat
    var corrupt: bool
    ghost var delivered: seq<T>
    ghost var origin: Cursor
    ghost var base: nat

    ghost predicate Valid()
      reads this
    {
      buffer.Length == BUFFER_CAPACITY && position <= buffered <= BUFFER_CAPACITY
    }

    ghost function View(): Tailer<T>
      requires Valid()
      reads this, buffer
    {
      Tailer(segment, consumed, if corrupt then [] else buffer[position..buffered], corrupt, delivered, origin, base)
    }

    constructor ()
      ensures Valid() && fresh(buffer) && View() == Fresh()
    {
      origin, base := Cursor(0, 0), 0;
      segment, consumed, buffered, position, corrupt, delivered := 0, 0, 0, 0, false, [];
      buffer := new T[BUFFER_CAPACITY];
    }

    /** Takes any saved cursor; the buffer is lost, and a reader that met a torn frame stays stopped. */
    method Resume(cursor: Cursor)
      requires Valid()
      modifies this
      ensures Valid() && View() == Turn(old(View()), Restart(cursor)).0
    {
      segment, consumed := cursor.segment, cursor.consumed;
      origin, base := cursor, |delivered|;
      buffered, position := 0, 0;
    }

    /** Reads the segment frame by frame, counting positions apart from what is delivered. */
    method FillFromCurrentSegment(o: Observation<T>) returns (status: Status)
      requires Valid() && !corrupt && position == buffered && segment < |o.catalog| && o.Ok()
      modifies this, buffer
      ensures Valid() && (View(), status) == Fill(old(View()), o)
    {
      assert View().pending == [];
      if !o.catalog[segment].raw {
        corrupt := true;
        return Corrupt;
      }
      if !o.opens {
        return Idle;
      }
      var records := o.now[segment].records;
      buffered, position := 0, 0;
      var index := 0;
      while index < |records| && buffered < BUFFER_CAPACITY
        invariant Valid() && position == 0 && index <= |records|
        invariant segment == old(segment) && consumed == old(consumed) && corrupt == old(corrupt) && delivered == old(delivered)
        invariant origin == old(origin) && base == old(base)
        invariant buffered == if index < consumed then 0 else index - consumed
        invariant index >= consumed ==> buffer[..buffered] == records[consumed..index]
        decreases |records| - index
      {
        if index >= consumed {
          ghost var read := buffer[..buffered];
          buffer[buffered] := records[index];
          buffered := buffered + 1;
          assert buffer[..buffered] == read + [records[index]] == records[consumed..index + 1];
        }
        index := index + 1;
      }
      ghost var rest := if consumed <= |records| then records[consumed..] else [];
      if index >= consumed {
        assert buffer[..buffered] == rest[..buffered];
      }
      assert buffered < BUFFER_CAPACITY ==> rest[..buffered] == rest;
      if buffered < BUFFER_CAPACITY && o.torn {
        corrupt := true;
        return Corrupt;
      }
      return if buffered > 0 then Ok else Idle;
    }

    method Attempt(o: Observation<T>, blank: T) returns (status: Option<Status>, out: T)
      requires Valid() && !corrupt && position == buffered && o.Ok()
      modifies this, buffer
      ensures Valid() && (View(), status) == Attempted(old(View()), o)
      ensures status == Some(Ok) ==> delivered == old(delivered) + [out]
      ensures status == None ==> !corrupt && position == buffered && delivered == old(delivered)
    {
      out := blank;
      if !o.scanOk || o.catalog == [] {
        return Some(CatalogError), out;
      }
      if segment >= |o.catalog| {
        return Some(EndOfData), out;
      }
      var filled := FillFromCurrentSegment(o);
      if filled == Corrupt {
        return Some(Corrupt), out;
      }
      if filled == Ok {
        out := DeliverNext();
        return Some(Ok), out;
      }
      if segment + 1 < |o.catalog| {
        segment, consumed := segment + 1, 0;
        return None, out;
      }
      return Some(Idle), out;
    }

    method DeliverNext() returns (out: T)
      requires Valid() && !corrupt && position < buffered
      modifies this
      ensures Valid() && View() == Deliver(old(View())) && delivered == old(delivered) + [out]
    {
      out := buffer[position];
      position := position + 1;
      consumed := consumed + 1;
      delivered := delivered + [out];
    }

    /** Serves from the buffer; with none left, tries until an attempt comes to something. The observations are
        those of the attempts this call makes. */
    method Next(observations: seq<Observation<T>>, blank: T) returns (status: Option<Status>, out: T)
      requires Valid() && forall i | 0 <= i < |observations| :: observations[i].Ok()
      modifies this, buffer
      ensures Valid()
      ensures (View(), status) == NextOf(old(View()), observations)
      ensures status == Some(Ok) ==> delivered == old(delivered) + [out]
    {
      if corrupt {
        return Some(Corrupt), blank;
      }
      if position < buffered {
        out := DeliverNext();
        return Some(Ok), out;
      }
      var i := 0;
      status, out := None, blank;
      assert observations[0..] == observations;
      while i < |observations| && status == None
        invariant i <= |observations| && Valid()
        invariant status == None ==> !corrupt && position == buffered && delivered == old(delivered)
        invariant status == Some(Ok) ==> delivered == old(delivered) + [out]
        invariant NextOf(old(View()), observations)
               == if status == None then Attempting(View(), observations[i..]) else (View(), status)
      {
        assert observations[i..][1..] == observations[i + 1..];
        status, out := Attempt(observations[i], blank);
        i := i + 1;
      }
    }
  }

  function Attempting<T>(t: Tailer<T>, observations: seq<Observation<T>>): (Tailer<T>, Option<Status>)
    requires forall i | 0 <= i < |observations| :: observations[i].Ok()
    decreases |observations|
  {
    if observations == [] then (t, None)
    else
      var (t1, status) := Attempted(t, observations[0]);
      if status == None then Attempting(t1, observations[1..]) else (t1, status)
  }

  /** A whole call, None when the observations run out before it returns. */
  function NextOf<T>(t: Tailer<T>, observations: seq<Observation<T>>): (Tailer<T>, Option<Status>)
    requires forall i | 0 <= i < |observations| :: observations[i].Ok()
  {
    if t.corrupt then (t, Some(Corrupt))
    else if t.pending != [] then (Deliver(t), Some(Ok))
    else Attempting(t, observations)
  }
}
