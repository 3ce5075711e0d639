/** A queue kept in a fixed buffer: `count` entries from position `head` on, going round. */
module Rings {
  import opened Words

  function Unrolled<T>(buffer: seq<T>, head: nat, count: nat): (queue: seq<T>)
    ensures count <= |buffer| && head < |buffer| ==> |queue| == count
    decreases count
  {
    if count == 0 || head >= |buffer| || count > |buffer| then []
    else [buffer[head]] + Unrolled(buffer, Around(head + 1, |buffer|), count - 1)
  }

  /** The free position after the ring's contents; writing it appends to them. */
  lemma {:induction false} PushUnrolls<T>(buffer: seq<T>, head: nat, count: nat, r: T)
    requires count < |buffer| && head < |buffer|
    ensures var pos := Around(head + count, |buffer|);
            Unrolled(buffer[pos := r], head, count + 1) == Unrolled(buffer, head, count) + [r]
    decreases count
  {
    var pos := Around(head + count, |buffer|);
    var buffer' := buffer[pos := r];
    if count > 0 {
      var next := Around(head + 1, |buffer|);
      AroundTwice(head, count, |buffer|);
      PushUnrolls(buffer, next, count - 1, r);
      assert Unrolled(buffer', head, count + 1) == [buffer'[head]] + Unrolled(buffer', next, count);
    } else {
      assert Unrolled(buffer', Around(head + 1, |buffer|), 0) == [];
    }
  }

  lemma AroundTwice(head: nat, count: nat, n: nat)
    requires 0 < count < n && head < n
    ensures Around(Around(head + 1, n) + (count - 1), n) == Around(head + count, n) != head
  {
  }
}
