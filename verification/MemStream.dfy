/** The memory stream (xwords4/common/memstream.c): a growing byte buffer read and written by bits and by
    bytes, each from a cursor of its own that can be saved and set. */
module MemStream {
  import opened Division

  /** The eight bits of a byte, the low one first. */
  type Byte = b: seq<bool> | |b| == 8 witness seq(8, _ => false)

  const STREAM_INCR_SIZE: nat := 100

  // Numbers as bits.

  function Pow2(n: nat): nat {
    if n == 0 then 1 else 2 * Pow2(n - 1)
  }

  /** The low `n` bits of a number, lowest first. */
  function BitsOf(n: nat, data: nat): (bits: seq<bool>)
    ensures |bits| == n
  {
    if n == 0 then [] else [data % 2 == 1] + BitsOf(n - 1, data / 2)
  }

  function ValueOf(bits: seq<bool>): nat {
    if bits == [] then 0 else (if bits[0] then 1 else 0) + 2 * ValueOf(bits[1..])
  }

  lemma {:induction false} BitsRoundTrip(n: nat, data: nat)
    requires data < Pow2(n)
    ensures ValueOf(BitsOf(n, data)) == data
  {
    if n > 0 {
      BitsRoundTrip(n - 1, data / 2);
      assert BitsOf(n, data)[1..] == BitsOf(n - 1, data / 2);
    }
  }

  lemma {:induction false} PowPositive(n: nat)
    ensures 0 < Pow2(n)
  {
    if n > 0 {
      PowPositive(n - 1);
    }
  }

  /** These bits are the number's, the one worth 1 first. */
  ghost predicate HoldsBits(bits: seq<bool>, data: nat) {
    forall k {:trigger bits[k]} :: 0 <= k < |bits| ==> Pow2(k) > 0 && (bits[k] <==> data / Pow2(k) % 2 == 1)
  }

  /** Bit k of a number is what is odd or even once it has been halved k times. */
  lemma {:induction false} BitAt(n: nat, data: nat, k: nat)
    requires k < n
    ensures Pow2(k) > 0 && (BitsOf(n, data)[k] <==> data / Pow2(k) % 2 == 1)
  {
    PowPositive(k);
    if k > 0 {
      BitAt(n - 1, data / 2, k - 1);
      DivDiv(data, 2, Pow2(k - 1));
    }
  }

  lemma BitsHeld(n: nat, data: nat)
    ensures HoldsBits(BitsOf(n, data), data)
  {
    hide BitsOf, Pow2;
    forall k | 0 <= k < n
      ensures Pow2(k) > 0 && (BitsOf(n, data)[k] <==> data / Pow2(k) % 2 == 1)
    {
      BitAt(n, data, k);
    }
  }

  /** And the bits read are those of the value read. */
  lemma {:induction false} ValueHolds(bits: seq<bool>)
    ensures ValueOf(bits) < Pow2(|bits|) && BitsOf(|bits|, ValueOf(bits)) == bits
    ensures HoldsBits(bits, ValueOf(bits))
    decreases |bits|
  {
    if bits != [] {
      ValueHolds(bits[1..]);
      assert ValueOf(bits) / 2 == ValueOf(bits[1..]) && ValueOf(bits) % 2 == if bits[0] then 1 else 0;
    }
    BitsHeld(|bits|, ValueOf(bits));
  }

  lemma {:induction false} ValueAppend(bits: seq<bool>, bit: bool)
    ensures ValueOf(bits + [bit]) == ValueOf(bits) + if bit then Pow2(|bits|) else 0
  {
    if bits != [] {
      ValueAppend(bits[1..], bit);
      assert (bits + [bit])[1..] == bits[1..] + [bit];
    } else {
      assert [bit][1..] == [];
    }
  }

  function ByteOf(data: nat): Byte {
    BitsOf(8, data)
  }

  // Bytes as bits.

  function Flat(bytes: seq<Byte>): (bits: seq<bool>)
    ensures |bits| == 8 * |bytes|
  {
    if bytes == [] then [] else Flat(bytes[..|bytes| - 1]) + bytes[|bytes| - 1]
  }

  lemma {:induction false} FlatConcat(a: seq<Byte>, b: seq<Byte>)
    ensures Flat(a + b) == Flat(a) + Flat(b)
    decreases |b|
  {
    if b == [] {
      assert a + b == a;
    } else {
      assert (a + b)[..|a + b| - 1] == a + b[..|b| - 1];
      FlatConcat(a, b[..|b| - 1]);
    }
  }

  lemma FlatTake(bytes: seq<Byte>, k: nat)
    requires k <= |bytes|
    ensures Flat(bytes[..k]) == Flat(bytes)[..8 * k]
    ensures Flat(bytes[k..]) == Flat(bytes)[8 * k..]
  {
    FlatConcat(bytes[..k], bytes[k..]);
    assert bytes == bytes[..k] + bytes[k..];
  }

  lemma FlatAt(bytes: seq<Byte>, k: nat, i: nat)
    requires k < |bytes| && i < 8
    ensures Flat(bytes)[8 * k + i] == bytes[k][i]
  {
    FlatTake(bytes, k + 1);
    FlatTake(bytes, k);
    assert bytes[..k + 1][..k] == bytes[..k];
    assert Flat(bytes[..k + 1]) == Flat(bytes[..k]) + bytes[k];
    assert Flat(bytes)[8 * k + i] == Flat(bytes)[..8 * (k + 1)][8 * k + i];
  }

  /** Changing a byte changes only its bits. */
  lemma FlatChanged(bytes: seq<Byte>, k: nat, b: Byte)
    requires k < |bytes|
    ensures Flat(bytes[k := b]) == Flat(bytes)[..8 * k] + b + Flat(bytes)[8 * (k + 1)..]
  {
    var changed := bytes[k := b];
    assert changed == changed[..k + 1] + bytes[k + 1..] && changed[..k + 1][..k] == bytes[..k];
    FlatConcat(changed[..k + 1], bytes[k + 1..]);
    FlatTake(bytes, k);
    FlatTake(bytes, k + 1);
  }

  /** The bit a cursor stands at: `cur` counts the bytes begun, `bits` those used of the last one. */
  function BitPos(cur: nat, bits: nat): nat
    requires bits > 0 ==> cur > 0
  {
    if bits == 0 then 8 * cur else 8 * (cur - 1) + bits
  }

  class MemStream {
    var buf: seq<Byte>
    var nBytesWritten: nat
    var curReadPos: nat
    var curWritePos: nat
    var nReadBits: nat
    var nWriteBits: nat

    ghost predicate Valid()
      reads this
    {
      && nBytesWritten <= |buf|
      && CursorOk(curWritePos, nWriteBits) && CursorOk(curReadPos, nReadBits)
    }

    ghost predicate CursorOk(cur: nat, bits: nat)
      reads this
    {
      cur <= nBytesWritten && bits < 8 && (bits > 0 ==> cur > 0)
    }

    /** All bits of the bytes written. */
    ghost function Bits(): (bits: seq<bool>)
      requires Valid()
      reads this
      ensures |bits| == 8 * nBytesWritten
    {
      Flat(buf[..nBytesWritten])
    }

    ghost function WritePos(): (p: nat)
      requires Valid()
      reads this
      ensures p <= 8 * nBytesWritten
    {
      BitPos(curWritePos, nWriteBits)
    }

    ghost function ReadPos(): (p: nat)
      requires Valid()
      reads this
      ensures p <= 8 * nBytesWritten
    {
      BitPos(curReadPos, nReadBits)
    }

    /** The bits before the write cursor. */
    ghost function Written(): seq<bool>
      requires Valid()
      reads this
    {
      Bits()[..WritePos()]
    }

    constructor ()
      ensures Valid() && Bits() == [] && WritePos() == ReadPos() == 0
    {
      buf := [];
      nBytesWritten, curReadPos, curWritePos, nReadBits, nWriteBits := 0, 0, 0, 0, 0;
    }

    static lemma Overwritten(was: seq<Byte>, now: seq<Byte>, cur: nat, whence: seq<Byte>)
      requires cur <= |was| && now == was[..cur] + whence
      ensures Flat(now) == Flat(was)[..8 * cur] + Flat(whence)
    {
      FlatTake(was, cur);
      FlatConcat(was[..cur], whence);
    }

    /** The buffer grows when it has to; what is in it stays. */
    method Grow(newSize: nat)
      requires nBytesWritten <= |buf|
      modifies this`buf
      ensures newSize <= |buf| && nBytesWritten <= |buf| && buf[..nBytesWritten] == old(buf)[..nBytesWritten]
    {
      if buf == [] {
        buf := seq(STREAM_INCR_SIZE, _ => ByteOf(0));
      }
      if newSize > |buf| {
        buf := buf + seq(newSize + STREAM_INCR_SIZE - |buf|, _ => ByteOf(0));
      }
    }

    /** Writes whole bytes, skipping what is left of a byte begun. What was written beyond them is gone. */
    method PutBytes(whence: seq<Byte>)
      requires Valid()
      modifies this`buf, this`nBytesWritten, this`curWritePos, this`nWriteBits
      ensures Valid() || curReadPos > nBytesWritten
      ensures curWritePos == old(curWritePos) + |whence| == nBytesWritten <= |buf| && nWriteBits == 0
      ensures buf[..nBytesWritten] == old(buf)[..old(curWritePos)] + whence
      ensures Flat(buf[..nBytesWritten]) == old(Bits())[..8 * old(curWritePos)] + Flat(whence)
    {
      hide Flat;
      var count := |whence|;
      if nWriteBits != 0 {
        nWriteBits := 0;
      }
      var newSize := nBytesWritten + count;
      if curWritePos < nBytesWritten {
        newSize := newSize - (nBytesWritten - curWritePos);
      }
      ghost var was := buf[..nBytesWritten];
      Grow(newSize);
      buf := buf[..curWritePos] + whence + buf[curWritePos + count..];
      nBytesWritten := newSize;
      assert buf[..nBytesWritten] == was[..curWritePos] + whence;
      Overwritten(was, buf[..nBytesWritten], curWritePos, whence);
      curWritePos := curWritePos + count;
    }

    method BeginByte()
      requires Valid() && nWriteBits == 0
      modifies this`buf, this`nBytesWritten, this`curWritePos, this`nWriteBits
      ensures Valid() && nWriteBits == 0 && curWritePos == old(curWritePos) + 1
      ensures nBytesWritten == if old(curWritePos) == old(nBytesWritten) then old(nBytesWritten) + 1 else old(nBytesWritten)
      ensures Bits()[..8 * old(curWritePos)] == old(Bits())[..8 * old(curWritePos)]
    {
      if curWritePos == nBytesWritten {
        PutBytes([ByteOf(0)]);
      } else {
        FlatChanged(buf[..nBytesWritten], curWritePos, ByteOf(0));
        assert buf[curWritePos := ByteOf(0)][..nBytesWritten] == buf[..nBytesWritten][curWritePos := ByteOf(0)];
        buf := buf[curWritePos := ByteOf(0)];
        curWritePos := curWritePos + 1;
      }
    }

    /** Sets a bit of the last byte begun. */
    method SetBit(bit: bool)
      requires nBytesWritten <= |buf| && 0 < curWritePos <= nBytesWritten && nWriteBits < 8
      modifies this`buf
      ensures |buf| == old(|buf|)
      ensures Flat(buf[..nBytesWritten]) == old(Flat(buf[..nBytesWritten]))[8 * (curWritePos - 1) + nWriteBits := bit]
    {
      var last := curWritePos - 1;
      BitChanged(buf[..nBytesWritten], last, nWriteBits, bit);
      var rack := buf[last];
      rack := rack[nWriteBits := bit];
      assert buf[last := rack][..nBytesWritten] == buf[..nBytesWritten][last := rack];
      buf := buf[last := rack];
    }

    /** Adds one bit at the write cursor; the bits before it stay. */
    method PutOneBit(bit: bool)
      requires Valid()
      modifies this`buf, this`nBytesWritten, this`curWritePos, this`nWriteBits
      ensures Valid() && WritePos() == old(WritePos()) + 1
      ensures Written() == old(Written()) + [bit]
      ensures nBytesWritten >= old(nBytesWritten)
    {
      hide Flat;
      ghost var pos: nat, before := WritePos(), Written();
      if nWriteBits == 0 {
        BeginByte();
      }
      ghost var bits := Bits();
      assert bits[..pos] == before;
      SetBit(bit);
      nWriteBits := (nWriteBits + 1) % 8;
      assert Bits() == bits[pos := bit];
      assert WritePos() == pos + 1;
    }

    static lemma BitChanged(bytes: seq<Byte>, k: nat, i: nat, bit: bool)
      requires k < |bytes| && i < 8
      ensures Flat(bytes[k := bytes[k][i := bit]]) == Flat(bytes)[8 * k + i := bit]
    {
      FlatChanged(bytes, k, bytes[k][i := bit]);
      FlatTake(bytes, k);
      FlatTake(bytes, k + 1);
      assert bytes[..k + 1][..k] == bytes[..k];
      assert Flat(bytes)[..8 * (k + 1)] == Flat(bytes)[..8 * k] + bytes[k];
      assert Flat(bytes) == Flat(bytes)[..8 * (k + 1)] + Flat(bytes)[8 * (k + 1)..];
    }

    static lemma FirstBit(done: seq<bool>, n: nat, data: nat)
      requires 0 < n
      ensures done + BitsOf(n, data) == done + [data % 2 == 1] + BitsOf(n - 1, data / 2)
    {
    }

    /** Adds the low bits of a number that fits in them. */
    method PutBits(nBits: nat, data: nat)
      requires Valid() && 0 < nBits && data < Pow2(nBits)
      modifies this`buf, this`nBytesWritten, this`curWritePos, this`nWriteBits
      ensures Valid() && WritePos() == old(WritePos()) + nBits
      ensures Written() == old(Written()) + BitsOf(nBits, data)
      ensures HoldsBits(Written()[old(WritePos())..], data)
      ensures nBytesWritten >= old(nBytesWritten)
    {
      hide Pow2, BitsOf, Flat, HoldsBits;
      BitsHeld(nBits, data);
      var left: nat, rest: nat := nBits, data;
      ghost var done: seq<bool> := [];
      NoBitsLeft(rest);
      assert done + BitsOf(left, rest) == BitsOf(nBits, data);
      while left > 0
        invariant Valid() && left <= nBits && WritePos() == old(WritePos()) + (nBits - left)
        invariant Written() == old(Written()) + done && done + BitsOf(left, rest) == BitsOf(nBits, data)
        invariant rest < Pow2(left) && nBytesWritten >= old(nBytesWritten)
      {
        var bit := rest % 2 == 1;
        PutOneBit(bit);
        FirstBit(done, left, rest);
        HalfFits(left, rest);
        done := done + [bit];
        left, rest := left - 1, rest / 2;
      }
      NoBitsLeft(rest);
      assert done + [] == done;
      assert Written()[old(WritePos())..] == BitsOf(nBits, data);
    }

    static lemma NoBitsLeft(data: nat)
      ensures BitsOf(0, data) == []
    {
    }

    static lemma HalfFits(n: nat, data: nat)
      requires 0 < n && data < Pow2(n)
      ensures data / 2 < Pow2(n - 1)
    {
    }

    /** The bit at the read cursor. */
    method GetOneBit() returns (result: bool)
      requires Valid() && ReadPos() < 8 * nBytesWritten
      modifies this`curReadPos, this`nReadBits
      ensures Valid() && ReadPos() == old(ReadPos()) + 1 && result == Bits()[old(ReadPos())]
    {
      if nReadBits == 0 {
        curReadPos := curReadPos + 1;
      }
      var rack := buf[curReadPos - 1];
      FlatAt(buf[..nBytesWritten], curReadPos - 1, nReadBits);
      result := rack[nReadBits];
      nReadBits := nReadBits + 1;
      if nReadBits == 8 {
        nReadBits := 0;
      }
    }

    /** The number whose bits come next. */
    method GetBits(nBits: nat) returns (result: nat)
      requires Valid() && ReadPos() + nBits <= 8 * nBytesWritten
      modifies this`curReadPos, this`nReadBits
      ensures Valid() && ReadPos() == old(ReadPos()) + nBits
      ensures result == ValueOf(Bits()[old(ReadPos())..old(ReadPos()) + nBits])
      ensures result < Pow2(nBits) && HoldsBits(Bits()[old(ReadPos())..old(ReadPos()) + nBits], result)
    {
      hide Flat, ValueOf, Pow2, HoldsBits;
      ghost var start := ReadPos();
      var left: nat, mask: nat := nBits, 1;
      result := 0;
      NoneRead();
      assert Bits()[start..start] == [];
      while left > 0
        invariant Valid() && left <= nBits && ReadPos() == start + (nBits - left)
        invariant mask == Pow2(nBits - left) && result == ValueOf(Bits()[start..ReadPos()])
      {
        ghost var p := ReadPos();
        var bit := GetOneBit();
        ValueAppend(Bits()[start..p], bit);
        assert Bits()[start..p + 1] == Bits()[start..p] + [bit];
        if bit {
          result := result + mask;
        }
        TwiceAsMuch(nBits - left);
        mask := mask * 2;
        left := left - 1;
      }
      ValueHolds(Bits()[start..ReadPos()]);
    }

    static lemma NoneRead()
      ensures ValueOf([]) == 0 && Pow2(0) == 1
    {
    }

    static lemma TwiceAsMuch(n: nat)
      ensures Pow2(n + 1) == Pow2(n) * 2
    {
    }

    /** Reads whole bytes, skipping what is left of a byte begun. */
    method GetBytes(count: nat) returns (where: seq<Byte>)
      requires Valid() && curReadPos + count <= nBytesWritten
      modifies this`curReadPos, this`nReadBits
      ensures Valid() && curReadPos == old(curReadPos) + count && nReadBits == 0 && |where| == count
      ensures Flat(where) == Bits()[8 * old(curReadPos)..8 * curReadPos]
    {
      hide Flat;
      if nReadBits != 0 {
        nReadBits := 0;
      }
      ghost var all := buf[..nBytesWritten];
      where := buf[curReadPos..curReadPos + count];
      assert where == all[curReadPos..][..count];
      FlatTake(all, curReadPos);
      FlatTake(all[curReadPos..], count);
      curReadPos := curReadPos + count;
    }

    method GetPos(write: bool) returns (pos: nat)
      requires Valid()
      ensures pos == if write then 8 * curWritePos + nWriteBits else 8 * curReadPos + nReadBits
    {
      pos := if write then 8 * curWritePos + nWriteBits else 8 * curReadPos + nReadBits;
    }

    /** Sets a cursor to a position saved earlier and returns where it was. */
    method SetWritePos(newpos: nat) returns (oldPos: nat)
      requires Valid() && CursorOk(newpos / 8, newpos % 8)
      modifies this`curWritePos, this`nWriteBits
      ensures Valid() && oldPos == 8 * old(curWritePos) + old(nWriteBits)
      ensures curWritePos == newpos / 8 && nWriteBits == newpos % 8
    {
      oldPos := GetPos(true);
      nWriteBits := newpos % 8;
      curWritePos := newpos / 8;
    }

    method SetReadPos(newpos: nat) returns (oldPos: nat)
      requires Valid() && CursorOk(newpos / 8, newpos % 8)
      modifies this`curReadPos, this`nReadBits
      ensures Valid() && oldPos == 8 * old(curReadPos) + old(nReadBits)
      ensures curReadPos == newpos / 8 && nReadBits == newpos % 8
    {
      oldPos := GetPos(false);
      nReadBits := newpos % 8;
      curReadPos := newpos / 8;
    }
  }

  /** Three bytes are written, then one over the second of them: the third is gone. */
  method MiddleIsTheEnd() returns (s: MemStream)
    ensures fresh(s) && s.nBytesWritten == s.curWritePos == 2 <= |s.buf|
    ensures s.buf[..s.nBytesWritten] == [ByteOf(1), ByteOf(9)]
  {
    s := new MemStream();
    s.PutBytes([ByteOf(1), ByteOf(2), ByteOf(3)]);
    var _ := s.SetWritePos(8);
    s.PutBytes([ByteOf(9)]);
  }
}
