/** Streaming SHA-256: however the message is split, the hash compresses exactly the blocks of the padded message.
    The compression of one block is a parameter. */
module Sha256Stream {
  import Words

  type Byte = b: nat | b < 256

  const BLOCK: nat := 64

  /** Section 5.1.1 of FIPS 180-4: a one bit, zeros up to the last eight bytes of a block, and the length in bits. */
  function ZeroCount(length: nat): (zeros: nat)
    ensures zeros < BLOCK && (length + 1 + zeros + 8) % BLOCK == 0
  {
    (119 - length % BLOCK) % BLOCK
  }

  /** The big-endian bytes of a 64-bit word. */
  function LengthBytes(bits: nat): (bytes: seq<Byte>)
    ensures |bytes| == 8
  {
    [bits / 0x100_0000_0000_0000 % 256, bits / 0x1_0000_0000_0000 % 256, bits / 0x100_0000_0000 % 256, bits / 0x1_0000_0000 % 256,
     bits / 0x100_0000 % 256, bits / 0x1_0000 % 256, bits / 0x100 % 256, bits % 256]
  }

  function Zeros(n: nat): (z: seq<Byte>)
    ensures |z| == n
  {
    seq(n, _ => 0)
  }

  function Padded(message: seq<Byte>): (p: seq<Byte>)
    ensures |p| % BLOCK == 0
  {
    message + [0x80] + Zeros(ZeroCount(|message|)) + LengthBytes(8 * |message|)
  }

  /** The number a sequence of bytes stands for, the first byte the most significant. */
  function BigEndian(bytes: seq<Byte>): nat {
    if bytes == [] then 0 else 256 * BigEndian(bytes[..|bytes| - 1]) + bytes[|bytes| - 1]
  }

  lemma LengthIsRead(bits: nat)
    requires bits < 0x1_0000_0000_0000_0000
    ensures BigEndian(LengthBytes(bits)) == bits
  {
    var b := LengthBytes(bits);
    assert b[..8] == b;
    assert BigEndian(b[..0]) == 0;
    ByteRead(b, bits, 0);
    ByteRead(b, bits, 1);
    ByteRead(b, bits, 2);
    ByteRead(b, bits, 3);
    ByteRead(b, bits, 4);
    ByteRead(b, bits, 5);
    ByteRead(b, bits, 6);
    ByteRead(b, bits, 7);
  }

  /** What is left of the number above its last `7 - k` bytes. */
  function Above(bits: nat, k: nat): nat
    requires k <= 8
  {
    match k
    case 0 => 0
    case 1 => bits / 0x100_0000_0000_0000
    case 2 => bits / 0x1_0000_0000_0000
    case 3 => bits / 0x100_0000_0000
    case 4 => bits / 0x1_0000_0000
    case 5 => bits / 0x100_0000
    case 6 => bits / 0x1_0000
    case 7 => bits / 0x100
    case _ => bits
  }

  lemma AboveNext(bits: nat, k: nat)
    requires k < 8 && bits < 0x1_0000_0000_0000_0000
    ensures Above(bits, k + 1) == 256 * Above(bits, k) + LengthBytes(bits)[k]
  {
    match k
    case 0 => assert bits / 0x100_0000_0000_0000 < 256;
    case 1 => Halves(bits / 0x1_0000_0000_0000, bits, 0x1_0000_0000_0000, 0x100_0000_0000_0000);
    case 2 => Halves(bits / 0x100_0000_0000, bits, 0x100_0000_0000, 0x1_0000_0000_0000);
    case 3 => Halves(bits / 0x1_0000_0000, bits, 0x1_0000_0000, 0x100_0000_0000);
    case 4 => Halves(bits / 0x100_0000, bits, 0x100_0000, 0x1_0000_0000);
    case 5 => Halves(bits / 0x1_0000, bits, 0x1_0000, 0x100_0000);
    case 6 => Halves(bits / 0x100, bits, 0x100, 0x1_0000);
    case _ => Halves(bits, bits, 1, 0x100);
  }

  lemma Regroup(d: nat, p: nat, s: nat)
    requires s <= 255
    ensures d * (256 * p + s) == 256 * d * p + d * s && 0 <= d * s <= 255 * d
  {
    assert d * (255 - s) >= 0;
  }

  lemma Halves(q: nat, n: nat, d: nat, e: nat)
    requires d > 0 && e == 256 * d && q == n / d
    ensures q == 256 * (n / e) + q % 256
  {
    var p, s, r := q / 256, q % 256, n % d;
    assert n == d * q + r && q == 256 * p + s;
    Regroup(d, p, s);
    Words.RemainderIsUnique(e, p, d * s + r, n);
  }

  lemma ByteRead(b: seq<Byte>, bits: nat, k: nat)
    requires k < 8 && bits < 0x1_0000_0000_0000_0000 && b == LengthBytes(bits) && BigEndian(b[..k]) == Above(bits, k)
    ensures BigEndian(b[..k + 1]) == Above(bits, k + 1)
  {
    hide LengthBytes, Above;
    assert b[..k + 1][..k] == b[..k];
    AboveNext(bits, k);
  }

  /** The padded message gives the message back: it comes first, then a one bit, then fewer than a block of zeros, and the
      last eight bytes, most significant first, are its length in bits. */
  lemma PaddingReadsBack(message: seq<Byte>)
    requires 8 * |message| < 0x1_0000_0000_0000_0000
    ensures var p, n := Padded(message), |message|;
            && n + 9 <= |p| < n + 9 + BLOCK && p[..n] == message && p[n] == 0x80
            && (forall i | n < i < |p| - 8 :: p[i] == 0) && BigEndian(p[|p| - 8..]) == 8 * n
  {
    LengthIsRead(8 * |message|);
    var p := Padded(message);
    assert p[|p| - 8..] == LengthBytes(8 * |message|);
    hide LengthBytes, BigEndian, ZeroCount;
  }

  /** Section 6.2.2: the whole blocks of `data`, folded from the front; what is short of a block is left out. */
  function Folded<H>(compress: (H, seq<Byte>) -> H, h: H, data: seq<Byte>): H
    decreases |data|
  {
    if |data| < BLOCK then h else Folded(compress, compress(h, data[..BLOCK]), data[BLOCK..])
  }

  /** The part of `data` short of a whole block. */
  function Rest(data: seq<Byte>): (r: seq<Byte>)
    ensures |r| < BLOCK
  {
    data[|data| - |data| % BLOCK..]
  }

  lemma {:induction false} FoldMore<H>(compress: (H, seq<Byte>) -> H, h: H, data: seq<Byte>, more: seq<Byte>)
    ensures Folded(compress, h, data + more) == Folded(compress, Folded(compress, h, data), Rest(data) + more)
    decreases |data|
  {
    if |data| < BLOCK {
      assert Rest(data) == data;
    } else {
      var tail := data[BLOCK..];
      assert (data + more)[..BLOCK] == data[..BLOCK] && (data + more)[BLOCK..] == tail + more;
      FoldMore(compress, compress(h, data[..BLOCK]), tail, more);
      assert |tail| % BLOCK == |data| % BLOCK;
      assert Rest(tail) == Rest(data);
    }
  }

  lemma RestMore(data: seq<Byte>, more: seq<Byte>)
    ensures Rest(data + more) == Rest(Rest(data) + more)
  {
    var cut := |data| - |data| % BLOCK;
    assert cut % BLOCK == 0;
    assert data + more == data[..cut] + (Rest(data) + more);
    assert |data + more| == cut + |Rest(data) + more|;
  }

  /** One full block is compressed and leaves nothing over. */
  lemma FoldOne<H>(compress: (H, seq<Byte>) -> H, h: H, block: seq<Byte>)
    requires |block| == BLOCK
    ensures Folded(compress, h, block) == compress(h, block) && Rest(block) == []
  {
    assert block[..BLOCK] == block && block[BLOCK..] == [];
  }

  lemma FoldNothing<H>(compress: (H, seq<Byte>) -> H, h: H, short: seq<Byte>)
    requires |short| < BLOCK
    ensures Folded(compress, h, short) == h && Rest(short) == short
  {
    var cut := |short| - |short| % BLOCK;
    assert cut == 0;
    assert short[0..] == short;
  }

  /** One copy into the block under construction: it either fills the block, or leaves it short. */
  lemma FoldPiece<H>(compress: (H, seq<Byte>) -> H, h: H, before: seq<Byte>, piece: seq<Byte>)
    requires |Rest(before)| + |piece| <= BLOCK
    ensures var block := Rest(before) + piece;
            if |block| == BLOCK then
              Folded(compress, h, before + piece) == compress(Folded(compress, h, before), block) && Rest(before + piece) == []
            else Folded(compress, h, before + piece) == Folded(compress, h, before) && Rest(before + piece) == block
  {
    hide Folded, Rest;
    FoldMore(compress, h, before, piece);
    RestMore(before, piece);
    var block := Rest(before) + piece;
    if |block| == BLOCK {
      FoldOne(compress, Folded(compress, h, before), block);
    } else {
      FoldNothing(compress, Folded(compress, h, before), block);
    }
  }

  /** The hash state is the fold of the message's whole blocks, and `pending` the bytes left over. */
  ghost predicate Follows<H>(compress: (H, seq<Byte>) -> H, initial: H, message: seq<Byte>, h: H, pending: seq<Byte>) {
    pending == Rest(message) && h == Folded(compress, initial, message)
  }

  lemma FollowsNothing<H>(compress: (H, seq<Byte>) -> H, initial: H, pending: seq<Byte>)
    requires |pending| == 0
    ensures Follows(compress, initial, [], initial, pending)
  {
    FoldNothing(compress, initial, []);
    assert pending == [];
  }

  class Sha256<H> {
    const compress: (H, seq<Byte>) -> H
    const initial: H
    var h: H
    const buffer: array<Byte>
    var used: nat
    var bytes: nat
    var done: bool
    ghost var message: seq<Byte>

    ghost predicate Valid()
      reads this, buffer
    {
      buffer.Length == BLOCK && used < BLOCK && Follows(compress, initial, message, h, buffer[..used]) && |message| == bytes
    }

    constructor (compress: (H, seq<Byte>) -> H, initial: H)
      ensures Valid() && fresh(buffer) && message == [] && !done && this.compress == compress && this.initial == initial
    {
      this.compress, this.initial, h := compress, initial, initial;
      buffer := new Byte[BLOCK];
      used, bytes, done, message := 0, 0, false, [];
      new;
      hide Follows;
      FollowsNothing(compress, initial, buffer[..used]);
    }

    /** Adds bytes to the block under construction, compressing it whenever it is full. */
    method Absorb(data: seq<Byte>)
      requires buffer.Length == BLOCK && used < BLOCK
      modifies this`h, this`used, buffer
      ensures used < BLOCK
      ensures var all := old(buffer[..used]) + data;
              h == Folded(compress, old(h), all) && buffer[..used] == Rest(all)
    {
      hide Folded, Rest;
      ghost var start, pending := h, buffer[..used];
      var n := 0;
      FoldNothing(compress, h, pending);
      assert pending + data[..0] == pending;
      while n < |data|
        invariant n <= |data| && used < BLOCK
        invariant h == Folded(compress, start, pending + data[..n]) && buffer[..used] == Rest(pending + data[..n])
        decreases |data| - n
      {
        var take := if |data| - n < BLOCK - used then |data| - n else BLOCK - used;
        ghost var before, piece := pending + data[..n], data[n..n + take];
        Copy(data[n..n + take]);
        assert pending + data[..n + take] == before + piece;
        FoldPiece(compress, start, before, piece);
        if used == BLOCK {
          assert buffer[..BLOCK] == buffer[..];
          h := compress(h, buffer[..]);
          used := 0;
        }
        n := n + take;
      }
      assert data[..n] == data;
    }

    method Copy(piece: seq<Byte>)
      requires buffer.Length == BLOCK && used + |piece| <= BLOCK
      modifies this`used, buffer
      ensures used == old(used) + |piece| && buffer[..used] == old(buffer[..used]) + piece
    {
      ghost var before := buffer[..used];
      var at := used;
      var i := 0;
      while i < |piece|
        invariant i <= |piece| && used == at && at + |piece| <= BLOCK
        invariant buffer[..at + i] == before + piece[..i]
      {
        buffer[at + i] := piece[i];
        assert buffer[..at + i + 1] == buffer[..at + i] + [piece[i]];
        i := i + 1;
      }
      used := at + |piece|;
    }

    /** Refused once the hash is finished. */
    method Update(data: seq<Byte>) returns (ok: bool)
      requires !done ==> Valid()
      modifies this, buffer
      ensures done == old(done) && ok == !done && message == if ok then old(message) + data else old(message)
      ensures !done ==> Valid()
    {
      if done {
        return false;
      }
      FoldMore(compress, initial, message, data);
      RestMore(message, data);
      bytes := bytes + |data|;
      Absorb(data);
      message := message + data;
      return true;
    }

    /** Pads and compresses the last one or two blocks; afterwards the digest stays. */
    method Finish() returns (digest: H)
      requires !done ==> Valid() && |message| < 0x2000_0000_0000_0000
      modifies this, buffer
      ensures done && message == old(message) && digest == h
      ensures h == if old(done) then old(h) else Folded(compress, initial, Padded(message))
    {
      if done {
        return h;
      }
      var bits := bytes * 8;
      ghost var tail := [0x80] + Zeros(ZeroCount(|message|)) + LengthBytes(bits);
      assert Padded(message) == message + tail;
      FoldMore(compress, initial, message, tail);
      ghost var rest := Rest(message);
      var zeros := ZerosToFill();
      Absorb([0x80] + Zeros(zeros) + LengthBytes(bits));
      done := true;
      digest := h;
    }

    /** Zeros up to the length field: in this block when it still has room for it, otherwise in the next. */
    method ZerosToFill() returns (zeros: nat)
      requires Valid()
      ensures zeros == ZeroCount(|message|)
    {
      var at := used + 1;
      zeros := 0;
      if at > 56 {
        while at < BLOCK
          invariant used + 1 <= at <= BLOCK && zeros == at - used - 1
        {
          at := at + 1;
          zeros := zeros + 1;
        }
        at := 0;
      }
      ghost var base := zeros - at;
      while at < 56
        invariant at <= 56 && zeros - at == base
      {
        at := at + 1;
        zeros := zeros + 1;
      }
      assert used == |message| % BLOCK;
    }
  }

  /** The message a run of updates feeds in. */
  function Joined(pieces: seq<seq<Byte>>): seq<Byte> {
    if pieces == [] then [] else Joined(pieces[..|pieces| - 1]) + pieces[|pieces| - 1]
  }

  /** Any split of a message gives the digest of the whole: the blocks of the padded message, folded. */
  method HashPieces<H>(compress: (H, seq<Byte>) -> H, initial: H, pieces: seq<seq<Byte>>) returns (digest: H)
    requires |Joined(pieces)| < 0x2000_0000_0000_0000
    ensures digest == Folded(compress, initial, Padded(Joined(pieces)))
  {
    var sha := new Sha256(compress, initial);
    var i := 0;
    assert pieces[..0] == [];
    while i < |pieces|
      invariant i <= |pieces| && fresh(sha) && fresh(sha.buffer) && sha.Valid() && !sha.done
      invariant sha.message == Joined(pieces[..i]) && sha.compress == compress && sha.initial == initial
    {
      assert pieces[..i + 1][..i] == pieces[..i];
      var ok := sha.Update(pieces[i]);
      i := i + 1;
    }
    assert pieces[..i] == pieces;
    digest := sha.Finish();
  }
}
