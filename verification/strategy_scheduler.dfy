/** The scheduler as it runs: a fixed array of slots, each with its own ring of queued requests. Every operation
    does to `View()` what the operation of the same name in `SchedulerSpec` does. */
module StrategySchedulers {
  import opened SchedulerSpec
  import opened Rings
  import opened Words

  /** A slot with its ring: `count` requests from position `head` on, going round the buffer. */
  datatype Cell = Cell(registered: bool, id: nat, quantum: nat, buffer: seq<Request>, head: nat, count: nat)

  predicate CellOk(c: Cell, capacity: nat) {
    |c.buffer| == capacity && c.count <= capacity && (capacity > 0 ==> c.head < capacity)
  }

  function SlotIn(c: Cell): Slot {
    Slot(c.registered, c.id, c.quantum, Unrolled(c.buffer, c.head, c.count))
  }

  lemma ActiveCell(c: Cell)
    requires CellOk(c, |c.buffer|)
    ensures Active(SlotIn(c)) <==> c.registered && c.count > 0
  {
  }

  function SlotsIn(cells: seq<Cell>): (slots: seq<Slot>)
    ensures |slots| == |cells|
  {
    seq(|cells|, i requires 0 <= i < |cells| => SlotIn(cells[i]))
  }

  lemma SlotsUpdate(cells: seq<Cell>, i: nat, c: Cell)
    requires i < |cells|
    ensures SlotsIn(cells[i := c]) == SlotsIn(cells)[i := SlotIn(c)]
  {
  }

  function Pushed(c: Cell, r: Request): Cell
    requires CellOk(c, |c.buffer|) && c.count < |c.buffer|
  {
    c.(buffer := c.buffer[Around(c.head + c.count, |c.buffer|) := r], count := c.count + 1)
  }

  function Popped(c: Cell): Cell
    requires CellOk(c, |c.buffer|) && c.count > 0
  {
    c.(head := Around(c.head + 1, |c.buffer|), count := c.count - 1)
  }

  lemma PushedSlot(c: Cell, r: Request)
    requires CellOk(c, |c.buffer|) && c.count < |c.buffer|
    ensures CellOk(Pushed(c, r), |c.buffer|) && SlotIn(Pushed(c, r)) == SlotIn(c).(queue := SlotIn(c).queue + [r])
  {
    PushUnrolls(c.buffer, c.head, c.count, r);
  }

  lemma PoppedSlot(c: Cell)
    requires CellOk(c, |c.buffer|) && c.count > 0
    ensures CellOk(Popped(c), |c.buffer|) && |SlotIn(c).queue| == c.count && SlotIn(c).queue[0] == c.buffer[c.head]
    ensures SlotIn(Popped(c)) == SlotIn(c).(queue := SlotIn(c).queue[1..])
  {
  }

  lemma CursorInRange(s: Scheduler)
    requires Inv(s) && s.slots != []
    ensures s.cursor < |s.slots|
  {
  }

  class StrategyScheduler {
    const capacity: nat
    const cells: array<Cell>
    var cursor: nat
    var visit: nat

    ghost predicate Valid()
      reads this, cells
    {
      (forall i | 0 <= i < cells.Length :: CellOk(cells[i], capacity)) && Inv(View())
    }

    function View(): Scheduler
      reads this, cells
    {
      Scheduler(SlotsIn(cells[..]), cursor, visit, capacity)
    }

    constructor (maxStrategies: nat, queueCapacity: nat, blank: Request)
      ensures Valid() && fresh(cells) && capacity == queueCapacity && cells.Length == maxStrategies
      ensures forall i | 0 <= i < maxStrategies :: !View().slots[i].registered
    {
      capacity := queueCapacity;
      cells := new Cell[maxStrategies](_ => Cell(false, 0, 1, seq(queueCapacity, _ => blank), 0, 0));
      cursor, visit := 0, 0;
      new;
      assert forall i | 0 <= i < maxStrategies :: View().slots[i] == SlotIn(cells[i]) && SlotOk(View().slots[i], capacity);
      assert forall i | 0 <= i < maxStrategies :: !View().slots[i].registered;
    }

    method FindSlot(id: nat) returns (i: nat)
      requires Valid()
      ensures i == SlotOf(View().slots, id)
    {
      i := 0;
      ghost var slots := View().slots;
      while i < cells.Length && !(cells[i].registered && cells[i].id == id)
        invariant i <= cells.Length && slots == View().slots
        invariant forall k | 0 <= k < i :: !(slots[k].registered && slots[k].id == id)
      {
        i := i + 1;
      }
      assert i < cells.Length ==> slots[i] == SlotIn(cells[i]);
    }

    method RegisterStrategy(id: nat, quantum: nat) returns (ok: bool)
      requires Valid()
      modifies cells
      ensures Valid() && (View(), ok) == Register(old(View()), id, quantum)
    {
      ghost var before := View();
      RegisterKeeps(before, id, quantum);
      if quantum == 0 {
        return false;
      }
      var found := FindSlot(id);
      if found < cells.Length {
        return false;
      }
      var i := 0;
      while i < cells.Length && cells[i].registered
        invariant i <= cells.Length && forall k | 0 <= k < i :: before.slots[k].registered
      {
        i := i + 1;
      }
      assert i < cells.Length ==> before.slots[i] == SlotIn(cells[i]);
      if i == cells.Length {
        return false;
      }
      cells[i] := Cell(true, id, quantum, cells[i].buffer, 0, 0);
      SlotsUpdate(old(cells[..]), i, cells[i]);
      assert cells[..] == old(cells[..])[i := cells[i]];
      return true;
    }

    method EnqueueRequest(r: Request) returns (ok: bool)
      requires Valid()
      modifies cells
      ensures Valid() && (View(), ok) == Enqueue(old(View()), r)
    {
      ghost var before := View();
      EnqueueKeeps(before, r);
      hide Inv, SlotOf, Unrolled, Pushed;
      var i := FindSlot(r.strategy);
      if i == cells.Length {
        return false;
      }
      var c := cells[i];
      if c.count >= capacity {
        return false;
      }
      PushedSlot(c, r);
      cells[i] := Pushed(c, r);
      SlotsUpdate(old(cells[..]), i, cells[i]);
      assert cells[..] == old(cells[..])[i := cells[i]];
      return true;
    }

    method AnyActive() returns (any: bool)
      requires Valid()
      ensures any == !NothingQueued(View())
    {
      var active := 0;
      var i := 0;
      ghost var slots := View().slots;
      while i < cells.Length
        invariant i <= cells.Length && slots == View().slots
        invariant active > 0 <==> exists k | 0 <= k < i :: Active(slots[k])
        invariant active >= 0
      {
        if cells[i].registered && cells[i].count > 0 {
          assert Active(slots[i]);
          active := active + 1;
        }
        i := i + 1;
      }
      return active > 0;
    }

    /** One dequeue: skips idle slots from the cursor on, at most once round, and serves the first other one. */
    method Dequeue(blank: Request) returns (ok: bool, out: Request)
      requires Valid()
      modifies this, cells
      ensures Valid() && View() == Next(old(View())).0
      ensures var served := Next(old(View())).1; ok == (served != []) && (ok ==> out == served[0].request)
    {
      hide Inv, Unrolled, ServeAt, SlotIn, SlotsIn, Active, CellOk;
      ghost var before := View();
      NextFailsOnlyWhenIdle(before);
      var any := AnyActive();
      if !any {
        return false, blank;
      }
      var scans: int := cells.Length;
      while scans > 0
        invariant Valid() && cells.Length == |before.slots| && 0 <= scans <= cells.Length
        invariant Scan(before, |before.slots|) == Scan(View(), scans)
      {
        CursorInRange(View());
        var idle := CursorIdle();
        if idle {
          AdvanceCursor();
          scans := scans - 1;
        } else {
          out := ServeCursor();
          return true, out;
        }
      }
      assert false;
      return false, blank;
    }

    method CursorIdle() returns (idle: bool)
      requires Valid() && cursor < cells.Length
      ensures idle == !Active(View().slots[cursor])
    {
      var c := cells[cursor];
      ActiveCell(c);
      assert View().slots[cursor] == SlotIn(c);
      return !c.registered || c.count == 0;
    }

    method AdvanceCursor()
      requires Valid() && cursor < cells.Length && !Active(View().slots[cursor])
      modifies this`cursor, this`visit
      ensures Valid() && View() == Advance(old(View()))
    {
      cursor := Around(cursor + 1, cells.Length);
      visit := 0;
    }

    method ServeCursor() returns (out: Request)
      requires Valid() && cursor < cells.Length && Active(View().slots[cursor])
      modifies this, cells
      ensures Valid() && View() == ServeAt(old(View())).0 && out == ServeAt(old(View())).1.request
    {
      ghost var before := View();
      ServeKeeps(before);
      var c := cells[cursor];
      assert before.slots[cursor] == SlotIn(c) && c.quantum > 0;
      hide Inv, Unrolled, Popped;
      if visit == 0 {
        visit := c.quantum;
      }
      PoppedSlot(c);
      out := c.buffer[c.head];
      cells[cursor] := Popped(c);
      visit := visit - 1;
      SlotsUpdate(old(cells[..]), cursor, cells[cursor]);
      assert cells[..] == old(cells[..])[cursor := cells[cursor]];
      if c.count == 1 || visit == 0 {
        visit := 0;
        cursor := Around(cursor + 1, cells.Length);
      }
    }
  }
}
