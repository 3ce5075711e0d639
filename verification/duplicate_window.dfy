/** When the bounded duplicate window changes the outcome of a replay: exactly when a record's hash equals
    the last hash stored in its slot, be it a true repetition or two records that collide. */
module WindowedReplay {
  import opened ExecTypes
  import opened Journal
  import opened RecoveryStreaming
  import opened JournalRoundTrip

  /** The slot of the window a record uses. */
  function SlotOf(hash: Record -> nat, window: nat, r: Record): (slot: nat)
    requires window > 0
    ensures slot < window
  {
    hash(r) % window
  }

  /** Record `j` finds the hash that record `i` left in their slot, and it equals its own. */
  predicate Repeats(hash: Record -> nat, window: nat, records: seq<Record>, i: nat, j: nat)
    requires window > 0
  {
    && i < j < |records|
    && SlotOf(hash, window, records[i]) == SlotOf(hash, window, records[j])
    && (forall k | i < k < j :: SlotOf(hash, window, records[k]) != SlotOf(hash, window, records[j]))
    && Stored(hash(records[i])) == hash(records[j])
  }

  ghost predicate Flagged(hash: Record -> nat, window: nat, records: seq<Record>)
    requires window > 0
  {
    exists i: nat, j: nat :: Repeats(hash, window, records, i, j)
  }

  /** The window's table after `records`. */
  function TableAfter(hash: Record -> nat, window: nat, records: seq<Record>): (table: seq<nat>)
    requires window > 0
    ensures |table| == window
  {
    if records == [] then seq(window, _ => 0)
    else
      var last := records[|records| - 1];
      TableAfter(hash, window, records[..|records| - 1])[SlotOf(hash, window, last) := Stored(hash(last))]
  }

  /** A slot holds what the last record that used it stored, or 0. */
  lemma {:induction false} SlotHolds(hash: Record -> nat, window: nat, records: seq<Record>, k: nat, slot: nat) returns (i: int)
    requires window > 0 && k <= |records| && slot < window
    ensures -1 <= i < k
    ensures forall x | i < x < k :: SlotOf(hash, window, records[x]) != slot
    ensures TableAfter(hash, window, records[..k])[slot] == (if i < 0 then 0 else Stored(hash(records[i])))
    ensures i >= 0 ==> SlotOf(hash, window, records[i]) == slot
  {
    if k == 0 {
      i := -1;
    } else {
      assert records[..k][..k - 1] == records[..k - 1];
      if SlotOf(hash, window, records[k - 1]) == slot {
        i := k - 1;
      } else {
        i := SlotHolds(hash, window, records, k - 1, slot);
      }
    }
  }

  lemma TableStep(hash: Record -> nat, window: nat, records: seq<Record>, k: nat)
    requires window > 0 && k < |records|
    ensures TableAfter(hash, window, records[..k + 1])
         == TableAfter(hash, window, records[..k])[SlotOf(hash, window, records[k]) := Stored(hash(records[k]))]
  {
    assert records[..k + 1][..k] == records[..k];
  }

  /** Without a repeated hash the window is transparent. */
  lemma {:induction false} UnflaggedIsPlain(p: Replay, hash: Record -> nat, window: nat, records: seq<Record>, k: nat)
    requires window > 0 && k <= |records| && !Flagged(hash, window, records)
    ensures ReadAll(p, TableAfter(hash, window, records[..k]), hash, records[k..]) == ReadPlain(p, records[k..])
    decreases |records| - k
  {
    if k < |records| {
      hide Flagged, TableAfter, StoreStep, LedgerStep;
      var i := SlotHolds(hash, window, records, k, SlotOf(hash, window, records[k]));
      NotRepeated(hash, window, records, i, k);
      TableStep(hash, window, records, k);
      assert records[k..][0] == records[k] && records[k..][1..] == records[k + 1..];
      if ReadStep(p, records[k]).Some? {
        UnflaggedIsPlain(ReadStep(p, records[k]).value, hash, window, records, k + 1);
      }
    }
  }

  lemma NotRepeated(hash: Record -> nat, window: nat, records: seq<Record>, i: int, j: nat)
    requires window > 0 && j < |records| && !Flagged(hash, window, records)
    ensures i >= 0 ==> !Repeats(hash, window, records, i, j)
  {
  }

  /** A repeated hash stops the replay, wherever it started. */
  lemma {:induction false} RepeatStops(p: Replay, hash: Record -> nat, window: nat, records: seq<Record>, i: nat, j: nat, k: nat)
    requires window > 0 && Repeats(hash, window, records, i, j) && k <= j
    ensures ReadAll(p, TableAfter(hash, window, records[..k]), hash, records[k..]) == None
    decreases j - k
  {
    hide TableAfter, StoreStep, LedgerStep;
    assert records[k..][0] == records[k] && records[k..][1..] == records[k + 1..];
    if k == j {
      var x := SlotHolds(hash, window, records, k, SlotOf(hash, window, records[j]));
      assert x == i;
    } else {
      TableStep(hash, window, records, k);
      if ReadStep(p, records[k]).Some? {
        RepeatStops(ReadStep(p, records[k]).value, hash, window, records, i, j, k + 1);
      }
    }
  }

  /** The window turns a replay into a failure exactly when some record repeats the hash left in its slot. */
  lemma WindowOnlyStopsRepeats(p: Replay, hash: Record -> nat, window: nat, records: seq<Record>)
    requires window > 0
    ensures ReadAll(p, seq(window, _ => 0), hash, records)
         == if Flagged(hash, window, records) then None else ReadPlain(p, records)
  {
    assert records[..0] == [] && records[0..] == records;
    if Flagged(hash, window, records) {
      var i: nat, j: nat :| Repeats(hash, window, records, i, j);
      RepeatStops(p, hash, window, records, i, j, 0);
    } else {
      UnflaggedIsPlain(p, hash, window, records, 0);
    }
  }

  ghost predicate Distinct<T>(s: seq<T>) {
    forall i, j | 0 <= i < j < |s| :: s[i] != s[j]
  }

  ghost predicate InjectiveOn(hash: Record -> nat, records: seq<Record>) {
    forall r <- records, q <- records :: hash(r) == hash(q) ==> r == q
  }

  /** Storing 1 for the hash 0 is harmless: 0 and 1 use different slots. */
  lemma SlotsTellZeroApart(window: nat, h: nat, g: nat)
    requires window > 1
    ensures h % window == g % window && Stored(h) == g ==> h == g
  {
    assert 0 % window == 0 && 1 % window == 1;
  }

  /** Different records with different hashes never trip a window of two slots or more. */
  lemma DistinctIsUnflagged(hash: Record -> nat, window: nat, records: seq<Record>)
    requires window > 1 && Distinct(records) && InjectiveOn(hash, records)
    ensures !Flagged(hash, window, records)
  {
    forall i: nat, j: nat | i < j < |records| ensures !Repeats(hash, window, records, i, j) {
      SlotsTellZeroApart(window, hash(records[i]), hash(records[j]));
      assert records[i] != records[j] && records[i] in records && records[j] in records;
    }
  }
}
