/** From disconnect to READY: missed reports are applied, the books compared, and new exposure is allowed only when
    nothing is left to explain. */
module RecoveryWorkflows {
  import opened ExecTypes
  import opened OmsStore
  import opened ReportSpec
  import opened ReportAnswers
  import R = ReportSequencer
  import opened Reconciliation
  import opened Words
  import IndexTable

  datatype ConnectionState = Connected | Disconnected | Recovering | Reconciling | Ready

  function SnapshotOf(o: Order): Snapshot {
    Snapshot(o.ref, o.state, o.requested, o.filled)
  }

  /** An order the comparison looks at. */
  predicate Open(live: map<Ref, Order>, ref: Ref) {
    ref in live && !IsTerminal(live[ref].state)
  }

  function OpenEntry(live: map<Ref, Order>, ref: Ref): Option<Entry> {
    if Open(live, ref) then Some(EntryOf(SnapshotOf(live[ref]))) else None
  }

  /** Both sides have the same open orders, in the same states and with the same volumes. */
  ghost predicate Agree(live: map<Ref, Order>, venue: seq<Snapshot>) {
    forall ref :: OpenEntry(live, ref) == Find(venue, ref)
  }

  predicate NoneUnknown(live: map<Ref, Order>) {
    forall ref <- live :: !live[ref].state.Unknown?
  }

  ghost predicate NothingOpen(live: map<Ref, Order>) {
    forall ref :: !Open(live, ref)
  }

  /** How many of the missed reports cannot be explained. */
  function Unexplained(st: State, reports: seq<ExecReport>): (n: nat)
    requires CacheOk(st.cache)
    ensures n <= |reports|
  {
    if reports == [] then 0
    else
      var before := reports[..|reports| - 1];
      Unexplained(st, before) + if Explained(ProcessAll(st, before), reports[|reports| - 1]) then 0 else 1
  }

  lemma {:induction false} NoneUnexplained(st: State, reports: seq<ExecReport>)
    requires CacheOk(st.cache)
    ensures Unexplained(st, reports) == 0 <==> AllExplained(st, reports)
  {
    if reports != [] {
      hide AllExplained, Explained, ProcessAll;
      var last := |reports| - 1;
      NoneUnexplained(st, reports[..last]);
      OneMoreExplained(st, reports, last);
      assert reports[..last + 1] == reports;
    } else {
      assert AllExplained(st, reports);
    }
  }

  /** The local side of the comparison lists every open order once. */
  ghost predicate Lists(local: seq<Snapshot>, live: map<Ref, Order>) {
    Distinct(local) && forall ref :: Find(local, ref) == OpenEntry(live, ref)
  }

  function Breaking(out: seq<Result>): nat {
    if out == [] then 0 else Breaking(out[..|out| - 1]) + if out[|out| - 1].status.Matched? then 0 else 1
  }

  lemma {:induction false} BreakingIsZero(out: seq<Result>)
    ensures Breaking(out) == 0 <==> AllMatched(out)
  {
    if out != [] {
      BreakingIsZero(out[..|out| - 1]);
      assert out == out[..|out| - 1] + [out[|out| - 1]];
    }
  }

  /** READY is sound and complete for a full comparison. */
  lemma CleanMeansAgreement(local: seq<Snapshot>, live: map<Ref, Order>, venue: seq<Snapshot>)
    requires Lists(local, live) && Distinct(venue)
    ensures AllMatched(Full(local, venue)) <==> Agree(live, venue)
  {
    MatchedMeansSame(local, venue);
    hide Full, AllMatched;
    if Agree(live, venue) {
      forall ref ensures Find(local, ref) == Find(venue, ref) { assert OpenEntry(live, ref) == Find(venue, ref); }
    }
    if SameBook(local, venue) {
      forall ref ensures OpenEntry(live, ref) == Find(venue, ref) { assert Find(local, ref) == Find(venue, ref); }
    }
  }

  predicate NoUnknown(list: seq<Snapshot>) {
    forall x <- list :: !x.state.Unknown?
  }

  /** The comparison finds nothing to explain: what is listed of the local open orders, as many as fit, has no unknown
      order and is the venue's book as far as there is room for results. */
  predicate LooksClean(open: seq<Snapshot>, venue: seq<Snapshot>, localRoom: nat, resultRoom: nat) {
    var listed := Take(open, localRoom);
    NoUnknown(listed) && Take(Sort(listed), resultRoom) == Take(Sort(venue), resultRoom)
  }

  /** The comparison is empty: there is nothing to compare, or no room to say so. */
  predicate LooksEmpty(open: seq<Snapshot>, venue: seq<Snapshot>, localRoom: nat, resultRoom: nat) {
    var listed := Take(open, localRoom);
    NoUnknown(listed) && (resultRoom == 0 || (listed == [] && venue == []))
  }

  // ---- how much room READY needs ----

  /** Buffers with which `open` local orders and `venue` orders of the venue can never look clean by mistake. */
  predicate Suffices(open: nat, venue: nat, localRoom: nat, resultRoom: nat) {
    if open <= localRoom then CannotMiss(open, venue, resultRoom)
    else resultRoom > Min(localRoom, venue) && localRoom != venue
  }

  predicate SufficesToRetry(open: nat, venue: nat, localRoom: nat, resultRoom: nat) {
    open == venue == 0 || (resultRoom > 0 && (open == 0 || venue > 0 || localRoom > 0))
  }

  lemma LooksCleanIsSound(open: seq<Snapshot>, venue: seq<Snapshot>, localRoom: nat, resultRoom: nat)
    requires Distinct(open) && Distinct(venue) && LooksClean(open, venue, localRoom, resultRoom)
    requires Suffices(|open|, |venue|, localRoom, resultRoom)
    ensures SameBook(open, venue) && NoUnknown(open)
  {
    var listed := Take(open, localRoom);
    SortSize(listed);
    SortSize(venue);
    hide Sort, SameBook, NoUnknown;
    if |open| <= localRoom {
      CutIsSound(open, venue, resultRoom);
      SameSorted(open, venue);
    } else {
      TakeSize(Sort(listed), resultRoom);
      TakeSize(Sort(venue), resultRoom);
      assert false;
    }
  }

  /** For every other choice of room there are two books that look clean and differ. */
  lemma LooksCleanInError(open: nat, venue: nat, localRoom: nat, resultRoom: nat)
    requires !Suffices(open, venue, localRoom, resultRoom)
    ensures var common := if resultRoom <= venue then resultRoom else venue;
            && common <= venue
            && var mine, theirs := Book(0, open), Other(open, venue, common);
            && Distinct(mine) && Distinct(theirs) && |mine| == open && |theirs| == venue
            && LooksClean(mine, theirs, localRoom, resultRoom) && !SameBook(mine, theirs)
  {
    var common := if resultRoom <= venue then resultRoom else venue;
    var listed := Min(open, localRoom);
    BooksDiffer(open, venue, common);
    BookAscends(open, venue, common);
    SortOfBook(open, listed);
    hide Sort, SameBook, Distinct, Ascending;
    var mine, theirs := Book(0, open), Other(open, venue, common);
    assert Take(mine, localRoom) == mine[..listed];
    assert Take(mine[..listed], resultRoom) == Take(theirs, resultRoom);
  }

  /** READY is sound for all books of these sizes exactly when the buffers suffice. */
  lemma SoundIffRoomSuffices(open: nat, venue: nat, localRoom: nat, resultRoom: nat)
    ensures Suffices(open, venue, localRoom, resultRoom) <==>
              forall mine, theirs |
                && |mine| == open && |theirs| == venue && Distinct(mine) && Distinct(theirs)
                && LooksClean(mine, theirs, localRoom, resultRoom) :: SameBook(mine, theirs) && NoUnknown(mine)
  {
    hide Distinct, LooksClean, SameBook, NoUnknown, Suffices;
    if Suffices(open, venue, localRoom, resultRoom) {
      forall mine, theirs |
          && |mine| == open && |theirs| == venue && Distinct(mine) && Distinct(theirs)
          && LooksClean(mine, theirs, localRoom, resultRoom)
        ensures SameBook(mine, theirs) && NoUnknown(mine)
      {
        LooksCleanIsSound(mine, theirs, localRoom, resultRoom);
      }
    } else {
      LooksCleanInError(open, venue, localRoom, resultRoom);
    }
  }

  /** Whatever the room for results, agreeing books look clean once all open orders are listed. */
  lemma AgreementLooksClean(open: seq<Snapshot>, venue: seq<Snapshot>, localRoom: nat, resultRoom: nat)
    requires Distinct(open) && Distinct(venue) && |open| <= localRoom
    ensures SameBook(open, venue) && NoUnknown(open) ==> LooksClean(open, venue, localRoom, resultRoom)
  {
    SameSorted(open, venue);
  }

  lemma LooksEmptyIsSound(open: seq<Snapshot>, venue: seq<Snapshot>, localRoom: nat, resultRoom: nat)
    requires LooksEmpty(open, venue, localRoom, resultRoom) && SufficesToRetry(|open|, |venue|, localRoom, resultRoom)
    ensures SameBook(open, venue) && NoUnknown(open)
  {
    assert open == [] && venue == [];
  }

  lemma RetrySoundIffRoomSuffices(open: nat, venue: nat, localRoom: nat, resultRoom: nat)
    ensures SufficesToRetry(open, venue, localRoom, resultRoom) <==>
              forall mine, theirs |
                && |mine| == open && |theirs| == venue && Distinct(mine) && Distinct(theirs)
                && LooksEmpty(mine, theirs, localRoom, resultRoom) :: SameBook(mine, theirs) && NoUnknown(mine)
  {
    hide Distinct, SameBook, NoUnknown;
    if SufficesToRetry(open, venue, localRoom, resultRoom) {
      forall mine, theirs |
          && |mine| == open && |theirs| == venue && Distinct(mine) && Distinct(theirs)
          && LooksEmpty(mine, theirs, localRoom, resultRoom)
        ensures SameBook(mine, theirs) && NoUnknown(mine)
      {
        LooksEmptyIsSound(mine, theirs, localRoom, resultRoom);
      }
    } else {
      BooksDiffer(open, venue, 0);
      BookLooksEmpty(open, venue, localRoom, resultRoom);
    }
  }

  lemma BookLooksEmpty(open: nat, venue: nat, localRoom: nat, resultRoom: nat)
    requires !SufficesToRetry(open, venue, localRoom, resultRoom)
    ensures LooksEmpty(Book(0, open), Other(open, venue, 0), localRoom, resultRoom)
  {
  }

  class RecoveryWorkflow {
    const local: Oms
    const sequencer: R.Sequencer
    var state: ConnectionState

    ghost predicate Valid()
      reads local, local.orders, local.index
      reads sequencer, sequencer.pool, sequencer.pool.slots, sequencer.cache, sequencer.cache.ring
    {
      local.Valid() && sequencer.Valid()
    }

    ghost function View(): State
      reads local, local.orders, local.index
      reads sequencer, sequencer.pool, sequencer.pool.slots, sequencer.cache, sequencer.cache.ring
    {
      sequencer.View(local.View())
    }

    lemma ViewIsLocal()
      ensures View().store.live == local.live
    {
    }

    constructor (local: Oms, sequencer: R.Sequencer)
      ensures this.local == local && this.sequencer == sequencer && state == Connected
    {
      this.local, this.sequencer, state := local, sequencer, Connected;
    }

    predicate CanSubmitNewExposure()
      reads this
    {
      state.Ready?
    }

    method Disconnect()
      modifies `state
      ensures state == Disconnected
    {
      state := Disconnected;
    }

    /** Only a disconnected workflow can begin, and only a recovered store lets it go on. */
    method BeginRecovery(localRecoveryOk: bool) returns (ok: bool)
      modifies `state
      ensures ok == (old(state).Disconnected? && localRecoveryOk)
      ensures state == if ok then Reconciling else old(state)
    {
      if !state.Disconnected? {
        return false;
      }
      state := Recovering;
      if !localRecoveryOk {
        state := Disconnected;
        return false;
      }
      state := Reconciling;
      return true;
    }

    /** Lists the open orders, as many as fit, and counts the unknown ones among them. */
    method ListOpen(capacity: nat) returns (list: seq<Snapshot>, unknown: nat)
      requires local.Valid()
      ensures list == Take(OpenOrders(), capacity) && (unknown == 0 <==> NoUnknown(list))
    {
      hide Oms.Valid, NoUnknown, OpenIn, UnknownIn, Enumeration;
      StoreEnumerates(local);
      ghost var orders := local.orders[..local.count];
      list, unknown := [], 0;
      var i := 0;
      NothingListed();
      assert orders[..0] == [];
      while i < local.count && |list| < capacity
        invariant i <= local.count && |list| <= capacity
        invariant list == OpenIn(orders[..i]) && unknown == UnknownIn(list)
      {
        var o := local.orders[i];
        assert orders[i] == o;
        OpenInStep(orders, i);
        if !IsTerminal(o.state) {
          UnknownStep(list, SnapshotOf(o));
          list := list + [SnapshotOf(o)];
          if o.state.Unknown? {
            unknown := unknown + 1;
          }
        }
        i := i + 1;
      }
      OpenInPrefix(orders, i);
      if i == local.count { assert orders[..i] == orders; }
      UnknownIsCounted(list);
    }

    /** The local open orders in the order they are listed in. */
    ghost function OpenOrders(): seq<Snapshot>
      reads local, local.orders
      requires local.count <= local.orders.Length
    {
      OpenIn(local.orders[..local.count])
    }

    /** They are the open orders of the store, each of them once. */
    lemma OpenOrdersAreListed()
      requires local.Valid()
      ensures local.count <= local.orders.Length
      ensures Lists(OpenOrders(), local.live) && (NoUnknown(OpenOrders()) <==> NoneUnknown(local.live))
      ensures OpenOrders() == [] <==> NothingOpen(local.live)
    {
      StoreEnumerates(local);
      OpenInIsListed(local.orders[..local.count], local.live);
      ListedIsEmpty(OpenOrders(), local.live);
    }

    /** Applies the missed reports, compares the books, and enters READY when nothing is left to explain. */
    method RunReconciliation(reports: seq<ExecReport>, venue: seq<Snapshot>, localCapacity: nat, resultCapacity: nat)
      requires Valid()
      modifies `state, sequencer.pool, sequencer.pool.slots, sequencer.cache, sequencer.cache.ring
      modifies local, local.orders, local.index
      ensures Valid() && (state == old(state) || CanSubmitNewExposure())
      ensures local.count <= local.orders.Length
      ensures !old(state).Reconciling? ==> state == old(state) && View() == old(View())
      ensures old(state).Reconciling? ==>
        var before, after := old(View()), View();
        && after == ProcessAll(before, reports)
        && (CanSubmitNewExposure() <==>
              LooksClean(OpenOrders(), venue, localCapacity, resultCapacity) && AllExplained(before, reports))
        && (Room(OpenOrders(), venue, localCapacity, resultCapacity) ==>
              (CanSubmitNewExposure() <==>
                 Agree(after.store.live, venue) && NoneUnknown(after.store.live) && AllExplained(before, reports)))
    {
      hide Oms.Valid, RecoveryWorkflow.Valid, RecoveryWorkflow.View, RecoveryWorkflow.OpenOrders;
      hide Process, ProcessAll, AllExplained, Unexplained, Agree, NoneUnknown, Room, LooksClean;
      Bounded();
      if !state.Reconciling? {
        return;
      }
      var broken := ApplyReports(reports);
      var clean := BooksAgree(venue, localCapacity, resultCapacity);
      ViewIsLocal();
      Bounded();
      if broken == 0 && clean {
        state := Ready;
      }
    }

    lemma Bounded()
      requires Valid()
      ensures local.Valid() && local.count <= local.orders.Length
    {
    }

    method BooksAgree(venue: seq<Snapshot>, localCapacity: nat, resultCapacity: nat) returns (clean: bool)
      requires Valid()
      ensures local.count <= local.orders.Length
      ensures clean <==> LooksClean(OpenOrders(), venue, localCapacity, resultCapacity)
      ensures Room(OpenOrders(), venue, localCapacity, resultCapacity) ==>
        (clean <==> Agree(local.live, venue) && NoneUnknown(local.live))
    {
      hide Oms.Valid, RecoveryWorkflow.OpenOrders, Agree, NoneUnknown, Lists, NoUnknown, Distinct, Full, Sort, Take;
      Bounded();
      var list, unknown := ListOpen(localCapacity);
      var breaking := CountBreaks(list, venue, resultCapacity);
      CutIsMatched(Sort(list), Sort(venue), resultCapacity);
      FullIsMerge(list, venue);
      OpenOrdersAreListed();
      CleanIsReady(OpenOrders(), local.live, venue, localCapacity, resultCapacity);
      return breaking == 0 && unknown == 0;
    }

    method ApplyReports(reports: seq<ExecReport>) returns (broken: nat)
      requires Valid()
      modifies sequencer.pool, sequencer.pool.slots, sequencer.cache, sequencer.cache.ring
      modifies local, local.orders, local.index
      ensures Valid() && state == old(state)
      ensures View() == ProcessAll(old(View()), reports) && broken == Unexplained(old(View()), reports)
      ensures broken == 0 <==> AllExplained(old(View()), reports)
    {
      hide Oms.Valid, Process, Explained;
      NoneUnexplained(View(), reports);
      broken := 0;
      var i := 0;
      while i < |reports|
        invariant i <= |reports| && Valid() && state == old(state)
        invariant View() == ProcessAll(old(View()), reports[..i]) && broken == Unexplained(old(View()), reports[..i])
      {
        assert reports[..i + 1][..i] == reports[..i];
        ExplainedAnswers(View(), reports[i]);
        var outcome := sequencer.Process(local, reports[i]);
        if outcome.Illegal? || outcome.UnknownOrder? || outcome.GapPoolExhausted? {
          broken := broken + 1;
        }
        i := i + 1;
      }
      assert reports[..i] == reports;
    }

    method CountBreaks(list: seq<Snapshot>, venue: seq<Snapshot>, capacity: nat) returns (breaking: nat)
      ensures breaking == 0 <==> AllMatched(Take(Full(list, venue), capacity))
    {
      hide Full, Take;
      var out := Compare(list, venue, capacity);
      breaking := 0;
      var i := 0;
      while i < |out|
        invariant i <= |out| && breaking == Breaking(out[..i])
      {
        assert out[..i + 1][..i] == out[..i];
        if !out[i].status.Matched? {
          breaking := breaking + 1;
        }
        i := i + 1;
      }
      assert out[..i] == out;
      BreakingIsZero(out);
    }

    /** Compares again without reports. It looks for an empty comparison, and matched orders are in it too: with room
        it enters READY exactly when neither side has anything open. */
    method RetryAfterResolution(venue: seq<Snapshot>, localCapacity: nat, resultCapacity: nat) returns (clean: bool)
      requires Valid()
      modifies `state
      ensures Valid() && local.count <= local.orders.Length && (clean ==> old(state).Reconciling?)
      ensures state == (if clean then Ready else old(state)) && (clean ==> CanSubmitNewExposure())
      ensures old(state).Reconciling? ==>
        (clean <==> LooksEmpty(OpenOrders(), venue, localCapacity, resultCapacity))
      ensures old(state).Reconciling? && SufficesToRetry(|OpenOrders()|, |venue|, localCapacity, resultCapacity) ==>
        (clean <==> NothingOpen(local.live) && venue == [])
      ensures clean && SufficesToRetry(|OpenOrders()|, |venue|, localCapacity, resultCapacity) ==>
        Agree(local.live, venue) && NoneUnknown(local.live)
    {
      hide Oms.Valid, RecoveryWorkflow.Valid, Agree, NoneUnknown, NothingOpen, LooksEmpty, SufficesToRetry;
      hide RecoveryWorkflow.OpenOrders;
      Bounded();
      if !state.Reconciling? {
        return false;
      }
      clean := NothingToCompare(venue, localCapacity, resultCapacity);
      if clean {
        state := Ready;
      }
    }

    method NothingToCompare(venue: seq<Snapshot>, localCapacity: nat, resultCapacity: nat) returns (clean: bool)
      requires Valid()
      ensures local.count <= local.orders.Length
      ensures clean <==> LooksEmpty(OpenOrders(), venue, localCapacity, resultCapacity)
      ensures SufficesToRetry(|OpenOrders()|, |venue|, localCapacity, resultCapacity) ==>
        && (clean <==> NothingOpen(local.live) && venue == [])
        && (clean ==> Agree(local.live, venue) && NoneUnknown(local.live))
    {
      hide Oms.Valid, Agree, NoneUnknown, Lists, NothingOpen, Full, RecoveryWorkflow.OpenOrders, NoUnknown;
      Bounded();
      var list, unknown := ListOpen(localCapacity);
      var out := Compare(list, venue, resultCapacity);
      FullIsEmpty(list, venue);
      OpenOrdersAreListed();
      EmptyIsReady(OpenOrders(), local.live, venue, localCapacity, resultCapacity);
      return out == [] && unknown == 0;
    }
  }

  /** The buffers suffice, every open order is listed, and the venue lists each of its orders once. */
  predicate Room(open: seq<Snapshot>, venue: seq<Snapshot>, localCapacity: nat, resultCapacity: nat) {
    Distinct(venue) && |open| <= localCapacity && CannotMiss(|open|, |venue|, resultCapacity)
  }

  lemma FullIsMerge(list: seq<Snapshot>, venue: seq<Snapshot>)
    ensures Full(list, venue) == Merge(Sort(list), Sort(venue))
  {
  }

  lemma FullIsEmpty(list: seq<Snapshot>, venue: seq<Snapshot>)
    ensures Full(list, venue) == [] <==> list == [] && venue == []
  {
    SortSize(list);
    SortSize(venue);
    if Sort(list) != [] || Sort(venue) != [] { MergeStarts(Sort(list), Sort(venue)); }
  }

  lemma CleanIsReady(open: seq<Snapshot>, live: map<Ref, Order>, venue: seq<Snapshot>, localCapacity: nat, capacity: nat)
    requires Lists(open, live) && (NoUnknown(open) <==> NoneUnknown(live))
    ensures Room(open, venue, localCapacity, capacity) ==>
      (LooksClean(open, venue, localCapacity, capacity) <==> Agree(live, venue) && NoneUnknown(live))
  {
    if Room(open, venue, localCapacity, capacity) {
      AgreesAsBook(open, live, venue);
      AgreementLooksClean(open, venue, localCapacity, capacity);
      hide Agree, NoneUnknown, NoUnknown, SameBook, Distinct;
      if LooksClean(open, venue, localCapacity, capacity) { LooksCleanIsSound(open, venue, localCapacity, capacity); }
    }
  }

  lemma AgreesAsBook(open: seq<Snapshot>, live: map<Ref, Order>, venue: seq<Snapshot>)
    requires Lists(open, live)
    ensures SameBook(open, venue) <==> Agree(live, venue)
  {
    if Agree(live, venue) {
      forall ref ensures Find(open, ref) == Find(venue, ref) { assert OpenEntry(live, ref) == Find(venue, ref); }
    }
    if SameBook(open, venue) {
      forall ref ensures OpenEntry(live, ref) == Find(venue, ref) { assert Find(open, ref) == Find(venue, ref); }
    }
  }

  lemma EmptyIsReady(open: seq<Snapshot>, live: map<Ref, Order>, venue: seq<Snapshot>, localCapacity: nat, capacity: nat)
    requires Lists(open, live) && (NoUnknown(open) <==> NoneUnknown(live)) && (open == [] <==> NothingOpen(live))
    ensures SufficesToRetry(|open|, |venue|, localCapacity, capacity) ==>
      && (LooksEmpty(open, venue, localCapacity, capacity) <==> NothingOpen(live) && venue == [])
      && (LooksEmpty(open, venue, localCapacity, capacity) ==> Agree(live, venue) && NoneUnknown(live))
  {
    AgreesAsBook(open, live, venue);
    if SufficesToRetry(|open|, |venue|, localCapacity, capacity) && LooksEmpty(open, venue, localCapacity, capacity) { LooksEmptyIsSound(open, venue, localCapacity, capacity); }
  }

  lemma ListedIsEmpty(open: seq<Snapshot>, live: map<Ref, Order>)
    requires Lists(open, live)
    ensures open == [] <==> NothingOpen(live)
  {
    if open != [] { assert Find(open, open[0].ref) == OpenEntry(live, open[0].ref); }
    if open == [] {
      forall ref ensures !Open(live, ref) { assert Find(open, ref) == OpenEntry(live, ref); }
    }
  }

  /** The dense array lists every live order once. */
  ghost predicate Enumeration(orders: seq<Order>, live: map<Ref, Order>) {
    && |live| == |orders|
    && (forall i | 0 <= i < |orders| :: orders[i].ref in live && live[orders[i].ref] == orders[i])
    && (forall i, j | 0 <= i < j < |orders| :: orders[i].ref != orders[j].ref)
    && (forall r <- live :: live[r].ref == r && live[r] in orders)
  }

  lemma StoreEnumerates(o: Oms)
    requires o.Valid()
    ensures |o.live| == o.count <= o.orders.Length && Enumeration(o.orders[..o.count], o.live)
  {
    hide IndexTable.Holds;
    IndexTable.DenseIsEnumeration(o.hash, o.index[..], o.orders[..o.count], o.places, o.live);
  }

  function OpenIn(orders: seq<Order>): seq<Snapshot> {
    if orders == [] then []
    else
      var last := |orders| - 1;
      OpenIn(orders[..last]) + if IsTerminal(orders[last].state) then [] else [SnapshotOf(orders[last])]
  }

  function UnknownIn(list: seq<Snapshot>): nat {
    if list == [] then 0
    else
      var last := |list| - 1;
      UnknownIn(list[..last]) + if list[last].state.Unknown? then 1 else 0
  }

  lemma OpenInStep(orders: seq<Order>, i: nat)
    requires i < |orders|
    ensures OpenIn(orders[..i + 1])
         == OpenIn(orders[..i]) + if IsTerminal(orders[i].state) then [] else [SnapshotOf(orders[i])]
  {
    assert orders[..i + 1][..i] == orders[..i];
  }

  lemma UnknownStep(list: seq<Snapshot>, x: Snapshot)
    ensures UnknownIn(list + [x]) == UnknownIn(list) + if x.state.Unknown? then 1 else 0
  {
    assert (list + [x])[..|list|] == list;
  }

  lemma NothingListed()
    ensures OpenIn([]) == [] && UnknownIn([]) == 0
  {
  }

  lemma {:induction false} OpenInPrefix(orders: seq<Order>, i: nat)
    requires i <= |orders|
    ensures OpenIn(orders[..i]) <= OpenIn(orders)
    decreases |orders| - i
  {
    if i < |orders| {
      OpenInPrefix(orders, i + 1);
      assert orders[..i + 1][..i] == orders[..i];
    } else {
      assert orders[..i] == orders;
    }
  }

  lemma {:induction false} OpenInMembers(orders: seq<Order>, x: Snapshot)
    ensures x in OpenIn(orders) <==> exists k | 0 <= k < |orders| :: !IsTerminal(orders[k].state) && x == SnapshotOf(orders[k])
  {
    if orders != [] {
      var last := |orders| - 1;
      OpenInMembers(orders[..last], x);
      if x in OpenIn(orders[..last]) {
        var k :| 0 <= k < last && !IsTerminal(orders[..last][k].state) && x == SnapshotOf(orders[..last][k]);
        assert orders[k] == orders[..last][k];
      }
    }
  }

  lemma {:induction false} OpenInDistinct(orders: seq<Order>)
    requires forall i, j | 0 <= i < j < |orders| :: orders[i].ref != orders[j].ref
    ensures Distinct(OpenIn(orders))
  {
    if orders != [] {
      var last := |orders| - 1;
      var front := OpenIn(orders[..last]);
      OpenInDistinct(orders[..last]);
      forall i | 0 <= i < |front| ensures front[i].ref != orders[last].ref {
        OpenInMembers(orders[..last], front[i]);
      }
    }
  }

  lemma {:induction false} UnknownIsCounted(list: seq<Snapshot>)
    ensures UnknownIn(list) == 0 <==> NoUnknown(list)
  {
    if list != [] {
      UnknownIsCounted(list[..|list| - 1]);
      assert list == list[..|list| - 1] + [list[|list| - 1]];
    }
  }

  lemma OpenInIsListed(orders: seq<Order>, live: map<Ref, Order>)
    requires Enumeration(orders, live)
    ensures Lists(OpenIn(orders), live) && (NoUnknown(OpenIn(orders)) <==> NoneUnknown(live))
  {
    OpenInDistinct(orders);
    var list := OpenIn(orders);
    hide OpenIn;
    forall ref ensures Find(list, ref) == OpenEntry(live, ref) {
      if Open(live, ref) {
        var k :| 0 <= k < |orders| && orders[k] == live[ref];
        OpenInMembers(orders, SnapshotOf(orders[k]));
        FindMember(list, SnapshotOf(orders[k]));
      } else {
        forall x | x in list ensures x.ref != ref { OpenInMembers(orders, x); }
        FindNothing(list, ref);
      }
    }
    if NoUnknown(list) {
      forall r | r in live ensures !live[r].state.Unknown? {
        var k :| 0 <= k < |orders| && orders[k] == live[r];
        OpenInMembers(orders, SnapshotOf(orders[k]));
      }
    }
    if NoneUnknown(live) {
      forall x | x in list ensures !x.state.Unknown? { OpenInMembers(orders, x); }
    }
  }
}
