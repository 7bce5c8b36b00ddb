/** Whatever mixture of bits, numbers and bytes is put into a stream comes out again by the matching gets. */
module StreamOps {
  import opened Division
  import opened MemStream

  datatype Op = BitsOp(nBits: nat, data: nat) | U8Op(data: nat) | U16Op(data: nat) | U32Op(data: nat) | BytesOp(bytes: seq<Byte>)

  function Pow256(n: nat): nat {
    if n == 0 then 1 else 256 * Pow256(n - 1)
  }

  /** A number in network byte order. */
  function ToBytes(n: nat, data: nat): (bytes: seq<Byte>)
    ensures |bytes| == n
  {
    if n == 0 then [] else ToBytes(n - 1, data / 256) + [ByteOf(data % 256)]
  }

  function FromBytes(bytes: seq<Byte>): nat {
    if bytes == [] then 0 else 256 * FromBytes(bytes[..|bytes| - 1]) + ValueOf(bytes[|bytes| - 1])
  }

  lemma {:induction false} BytesRoundTrip(n: nat, data: nat)
    requires data < Pow256(n)
    ensures FromBytes(ToBytes(n, data)) == data
  {
    if n > 0 {
      BytesRoundTrip(n - 1, data / 256);
      PowersOfTwo();
      BitsRoundTrip(8, data % 256);
      assert ToBytes(n, data)[..n - 1] == ToBytes(n - 1, data / 256);
    }
  }

  lemma {:induction false} Pow256Positive(n: nat)
    ensures 0 < Pow256(n)
  {
    if n > 0 {
      Pow256Positive(n - 1);
    }
  }

  /** The byte that many bytes into a stretch of bits. */
  function ByteIn(bits: seq<bool>, start: nat, k: nat): (b: Byte)
    requires start + 8 * (k + 1) <= |bits|
  {
    bits[start + 8 * k..start + 8 * (k + 1)]
  }

  /** From `start` on stand the bytes of the number, the one that counts most first. */
  ghost predicate NumberAt(bits: seq<bool>, start: nat, n: nat, data: nat) {
    start + 8 * n <= |bits| && forall k :: 0 <= k < n ==> DigitAt(bits, start, n, data, k)
  }

  /** The byte is the number's digit, in base 256. */
  ghost predicate DigitAt(bits: seq<bool>, start: nat, n: nat, data: nat, k: nat)
    requires k < n && start + 8 * n <= |bits|
  {
    Pow256(n - 1 - k) > 0 && ValueOf(ByteIn(bits, start, k)) == data / Pow256(n - 1 - k) % 256
  }

  lemma {:induction false} ByteOfNumber(n: nat, data: nat, k: nat)
    requires k < n
    ensures Pow256(n - 1 - k) > 0 && ValueOf(ToBytes(n, data)[k]) == data / Pow256(n - 1 - k) % 256
  {
    hide ValueOf, BitsOf, ToBytes;
    Pow256Positive(n - 1 - k);
    LastByte(n, data);
    if k < n - 1 {
      ByteOfNumber(n - 1, data / 256, k);
      DivDiv(data, 256, Pow256(n - 2 - k));
      assert ToBytes(n, data)[k] == ToBytes(n, data)[..n - 1][k];
    }
  }

  lemma LastByte(n: nat, data: nat)
    requires 0 < n
    ensures ToBytes(n, data)[..n - 1] == ToBytes(n - 1, data / 256) && ValueOf(ToBytes(n, data)[n - 1]) == data % 256
  {
    hide ValueOf, BitsOf;
    PowersOfTwo();
    BitsRoundTrip(8, data % 256);
  }

  lemma {:induction false} BytesThere(bits: seq<bool>, start: nat, bytes: seq<Byte>, k: nat)
    requires start + 8 * |bytes| <= |bits| && bits[start..start + 8 * |bytes|] == Flat(bytes) && k < |bytes|
    ensures ByteIn(bits, start, k) == bytes[k]
  {
    hide Flat;
    var slice := bits[start..start + 8 * |bytes|];
    forall i | 0 <= i < 8
      ensures ByteIn(bits, start, k)[i] == bytes[k][i]
    {
      FlatAt(bytes, k, i);
      assert slice[8 * k + i] == bits[start + 8 * k + i];
    }
  }

  /** The bytes of a number stand where its image does. */
  lemma NumberThere(bits: seq<bool>, start: nat, n: nat, data: nat)
    requires start + 8 * n <= |bits| && bits[start..start + 8 * n] == Flat(ToBytes(n, data))
    ensures NumberAt(bits, start, n, data)
  {
    hide Flat, ToBytes, Pow256, ByteIn, ValueOf;
    forall k | 0 <= k < n
      ensures DigitAt(bits, start, n, data, k)
    {
      BytesThere(bits, start, ToBytes(n, data), k);
      ByteOfNumber(n, data, k);
    }
  }

  lemma {:induction false} ReadBytes(bytes: seq<Byte>)
    ensures FromBytes(bytes) < Pow256(|bytes|) && ToBytes(|bytes|, FromBytes(bytes)) == bytes
    decreases |bytes|
  {
    hide ValueOf, BitsOf, Flat, HoldsBits;
    if bytes != [] {
      var less, last := bytes[..|bytes| - 1], bytes[|bytes| - 1];
      ReadBytes(less);
      OneByte(last);
      SmallDigit(FromBytes(less), ValueOf(last));
      assert bytes == less + [last];
    }
  }

  lemma OneByte(b: Byte)
    ensures ValueOf(b) < 256 && ByteOf(ValueOf(b)) == b
  {
    ValueHolds(b);
    PowersOfTwo();
  }

  lemma SmallDigit(q: nat, digit: nat)
    requires digit < 256
    ensures (256 * q + digit) / 256 == q && (256 * q + digit) % 256 == digit
  {
  }

  lemma PowersOfTwo()
    ensures Pow2(8) == 256
  {
    assert Pow2(1) == 2 && Pow2(2) == 4 && Pow2(3) == 8 && Pow2(4) == 16;
    assert Pow2(5) == 32 && Pow2(6) == 64 && Pow2(7) == 128;
  }

  lemma {:induction false} FlatInjective(a: seq<Byte>, b: seq<Byte>)
    requires Flat(a) == Flat(b)
    ensures a == b
  {
    assert 8 * |a| == 8 * |b|;
    forall k | 0 <= k < |a|
      ensures a[k] == b[k]
    {
      forall i | 0 <= i < 8
        ensures a[k][i] == b[k][i]
      {
        FlatAt(a, k, i);
        FlatAt(b, k, i);
      }
    }
  }

  /** The value is one the width holds. */
  predicate Fits(op: Op) {
    match op
    case BitsOp(nBits, data) => 0 < nBits && data < Pow2(nBits)
    case U8Op(data) => data < Pow256(1)
    case U16Op(data) => data < Pow256(2)
    case U32Op(data) => data < Pow256(4)
    case BytesOp(_) => true
  }

  function AsBytes(op: Op): seq<Byte>
    requires !op.BitsOp?
  {
    match op
    case U8Op(data) => ToBytes(1, data)
    case U16Op(data) => ToBytes(2, data)
    case U32Op(data) => ToBytes(4, data)
    case BytesOp(bytes) => bytes
  }

  /** The number of bytes a number is put as; 0 for what is not put as a number. */
  function Width(op: Op): nat {
    match op case U8Op(_) => 1 case U16Op(_) => 2 case U32Op(_) => 4 case _ => 0
  }

  /** Where the value is put: bits at the cursor, low bit first, and numbers from the next whole byte on, high byte
      first. */
  ghost predicate LaidOut(bits: seq<bool>, pos: nat, op: Op) {
    match op
    case BitsOp(nBits, data) => pos + nBits <= |bits| && HoldsBits(bits[pos..pos + nBits], data)
    case BytesOp(bytes) =>
      && AlignUp(pos) + 8 * |bytes| <= |bits|
      && forall k {:trigger ByteIn(bits, AlignUp(pos), k)} :: 0 <= k < |bytes| ==> ByteIn(bits, AlignUp(pos), k) == bytes[k]
    case _ => NumberAt(bits, AlignUp(pos), Width(op), op.data)
  }

  function Image(op: Op): seq<bool> {
    if op.BitsOp? then BitsOf(op.nBits, op.data) else Flat(AsBytes(op))
  }

  function AlignUp(pos: nat): nat {
    (pos + 7) / 8 * 8
  }

  /** Bits go where the cursor is; bytes start at the next whole byte. */
  function StartAt(op: Op, pos: nat): nat {
    if op.BitsOp? then pos else AlignUp(pos)
  }

  function EndOf(pos: nat, ops: seq<Op>): (e: nat)
    ensures pos <= e
  {
    if ops == [] then pos
    else
      var last := ops[|ops| - 1];
      StartAt(last, EndOf(pos, ops[..|ops| - 1])) + |Image(last)|
  }

  ghost predicate OpAt(bits: seq<bool>, pos: nat, op: Op) {
    var s := StartAt(op, pos);
    s + |Image(op)| <= |bits| && bits[s..s + |Image(op)|] == Image(op)
  }

  lemma ImageLaidOut(bits: seq<bool>, pos: nat, op: Op)
    requires OpAt(bits, pos, op)
    ensures LaidOut(bits, pos, op)
  {
    hide Flat, BitsOf, ToBytes, HoldsBits, NumberAt, ByteIn;
    match op {
      case BitsOp(nBits, data) => BitsHeld(nBits, data);
      case BytesOp(bytes) =>
        forall k | 0 <= k < |bytes|
          ensures ByteIn(bits, AlignUp(pos), k) == bytes[k]
        {
          BytesThere(bits, AlignUp(pos), bytes, k);
        }
      case _ => NumberThere(bits, AlignUp(pos), Width(op), op.data);
    }
  }

  /** From `pos` on the bits hold the values, one after another. */
  ghost predicate Holds(bits: seq<bool>, pos: nat, ops: seq<Op>) {
    ops == [] || (Holds(bits, pos, ops[..|ops| - 1]) && OpAt(bits, EndOf(pos, ops[..|ops| - 1]), ops[|ops| - 1]))
  }

  lemma SameSlice(bits: seq<bool>, more: seq<bool>, s: nat, end: nat)
    requires s <= end <= |bits| && end <= |more| && bits[..end] == more[..end]
    ensures bits[s..end] == more[s..end]
  {
    assert bits[s..end] == bits[..end][s..] && more[s..end] == more[..end][s..];
  }

  lemma OpStill(bits: seq<bool>, more: seq<bool>, pos: nat, op: Op)
    requires var end := StartAt(op, pos) + |Image(op)|;
             OpAt(bits, pos, op) && end <= |more| && bits[..end] == more[..end]
    ensures OpAt(more, pos, op)
  {
    hide Image;
    SameSlice(bits, more, StartAt(op, pos), StartAt(op, pos) + |Image(op)|);
  }

  lemma StartsLater(op: Op, pos: nat)
    ensures pos <= StartAt(op, pos)
  {
  }

  lemma {:induction false} HoldsStill(bits: seq<bool>, more: seq<bool>, pos: nat, ops: seq<Op>)
    requires Holds(bits, pos, ops) && EndOf(pos, ops) <= |bits| && EndOf(pos, ops) <= |more|
    requires bits[..EndOf(pos, ops)] == more[..EndOf(pos, ops)]
    ensures Holds(more, pos, ops)
    decreases |ops|
  {
    hide Image, OpAt, StartAt;
    if ops != [] {
      var less, last := ops[..|ops| - 1], ops[|ops| - 1];
      var mid, end := EndOf(pos, less), EndOf(pos, ops);
      StartsLater(last, mid);
      assert bits[..mid] == bits[..end][..mid] == more[..mid];
      HoldsStill(bits, more, pos, less);
      OpStill(bits, more, mid, last);
    }
  }

  lemma {:induction false} HoldsPart(bits: seq<bool>, pos: nat, ops: seq<Op>, k: nat)
    requires Holds(bits, pos, ops) && k < |ops|
    ensures OpAt(bits, EndOf(pos, ops[..k]), ops[k])
    decreases |ops|
  {
    if k < |ops| - 1 {
      HoldsPart(bits, pos, ops[..|ops| - 1], k);
      assert ops[..|ops| - 1][..k] == ops[..k];
    }
  }

  /** The value after the first k begins where they end. */
  lemma EndNext(pos: nat, ops: seq<Op>, k: nat)
    requires k < |ops|
    ensures EndOf(pos, ops[..k + 1]) == EndOf(EndOf(pos, ops[..k]), [ops[k]])
  {
    assert ops[..k + 1][..k] == ops[..k];
    assert [ops[k]][..0] == [];
  }

  lemma CursorAligns(cur: nat, bits: nat)
    requires bits < 8 && (bits > 0 ==> cur > 0)
    ensures AlignUp(BitPos(cur, bits)) == 8 * cur
  {
  }

  lemma OneEnd(pos: nat, op: Op)
    ensures EndOf(pos, [op]) == StartAt(op, pos) + |Image(op)|
  {
    assert [op][..0] == [] && EndOf(pos, []) == pos;
  }

  method PutOne(stream: MemStream, op: Op)
    requires stream.Valid() && Fits(op) && stream.curReadPos <= stream.curWritePos
    modifies stream`buf, stream`nBytesWritten, stream`curWritePos, stream`nWriteBits
    ensures stream.Valid() && stream.curReadPos <= stream.curWritePos
    ensures old(stream.WritePos()) <= stream.WritePos() == EndOf(old(stream.WritePos()), [op])
    ensures stream.Bits()[..old(stream.WritePos())] == old(stream.Written())
    ensures OpAt(stream.Written(), old(stream.WritePos()), op)
    ensures LaidOut(stream.Written(), old(stream.WritePos()), op)
  {
    hide Flat, BitsOf, ToBytes, FromBytes, Pow2, Pow256, EndOf, LaidOut;
    ghost var pos: nat, before, all := stream.WritePos(), stream.Written(), stream.Bits();
    ghost var start: nat := 8 * stream.curWritePos;
    CursorAligns(stream.curWritePos, stream.nWriteBits);
    OneEnd(pos, op);
    if op.BitsOp? {
      stream.PutBits(op.nBits, op.data);
      assert stream.Bits()[..pos] == stream.Written()[..pos] == before;
    } else {
      stream.PutBytes(AsBytes(op));
      assert stream.Bits()[..pos] == all[..start][..pos] == before;
      assert stream.Written() == stream.Bits();
    }
    ImageLaidOut(stream.Written(), pos, op);
  }

  /** Puts the values one after another. What was written before the first of them stays as it was, wherever
      the write cursor had been set, in the middle of a byte or not. */
  method PutAll(stream: MemStream, ops: seq<Op>)
    requires stream.Valid() && stream.curReadPos <= stream.curWritePos && forall k :: 0 <= k < |ops| ==> Fits(ops[k])
    modifies stream`buf, stream`nBytesWritten, stream`curWritePos, stream`nWriteBits
    ensures stream.Valid() && stream.curReadPos <= stream.curWritePos
    ensures stream.WritePos() == EndOf(old(stream.WritePos()), ops)
    ensures stream.Bits()[..old(stream.WritePos())] == old(stream.Written())
    ensures Holds(stream.Written(), old(stream.WritePos()), ops)
    ensures forall k :: 0 <= k < |ops| ==> LaidOut(stream.Written(), EndOf(old(stream.WritePos()), ops[..k]), ops[k])
  {
    hide Fits, Image, OpAt, LaidOut;
    ghost var pos := stream.WritePos();
    for k := 0 to |ops|
      invariant stream.Valid() && stream.curReadPos <= stream.curWritePos
      invariant stream.WritePos() == EndOf(pos, ops[..k])
      invariant stream.Bits()[..pos] == old(stream.Written())
      invariant Holds(stream.Written(), pos, ops[..k])
    {
      ghost var was := stream.Written();
      PutOne(stream, ops[k]);
      assert ops[..k + 1][..k] == ops[..k];
      assert [ops[k]][..0] == [];
      assert stream.Written()[..|was|] == was == was[..|was|];
      assert stream.Bits()[..pos] == stream.Bits()[..|was|][..pos] == was[..pos];
      HoldsStill(was, stream.Written(), pos, ops[..k]);
    }
    assert ops[..|ops|] == ops;
    forall k | 0 <= k < |ops|
      ensures LaidOut(stream.Written(), EndOf(pos, ops[..k]), ops[k])
    {
      HoldsPart(stream.Written(), pos, ops, k);
      ImageLaidOut(stream.Written(), EndOf(pos, ops[..k]), ops[k]);
    }
  }

  /** The number whose bytes come next, the one that counts most first. */
  method GetNumber(stream: MemStream, n: nat) returns (data: nat)
    requires stream.Valid() && stream.curReadPos + n <= stream.nBytesWritten
    modifies stream`curReadPos, stream`nReadBits
    ensures stream.Valid() && stream.nReadBits == 0 && stream.curReadPos == old(stream.curReadPos) + n
    ensures forall bytes :: Flat(bytes) == stream.Bits()[8 * old(stream.curReadPos)..8 * stream.curReadPos] ==>
              data == FromBytes(bytes)
    ensures data < Pow256(n) && NumberAt(stream.Bits(), 8 * old(stream.curReadPos), n, data)
  {
    hide Flat, FromBytes, ToBytes, Pow256, NumberAt;
    var bytes := stream.GetBytes(n);
    data := FromBytes(bytes);
    ReadBytes(bytes);
    NumberThere(stream.Bits(), 8 * old(stream.curReadPos), n, data);
    forall other | Flat(other) == Flat(bytes)
      ensures other == bytes
    {
      FlatInjective(other, bytes);
    }
  }

  method GetBitField(stream: MemStream, nBits: nat, ghost data: nat) returns (value: nat)
    requires stream.Valid() && Fits(BitsOp(nBits, data)) && OpAt(stream.Bits(), stream.ReadPos(), BitsOp(nBits, data))
    modifies stream`curReadPos, stream`nReadBits
    ensures stream.Valid() && stream.Bits() == old(stream.Bits())
    ensures value == data && stream.ReadPos() == EndOf(old(stream.ReadPos()), [BitsOp(nBits, data)])
  {
    hide Flat, BitsOf, Pow2, ValueOf;
    assert [BitsOp(nBits, data)][..0] == [];
    BitsRoundTrip(nBits, data);
    value := stream.GetBits(nBits);
  }

  /** `op` is the number put there: one, two or four bytes. */
  method GetWhole(stream: MemStream, n: nat, ghost data: nat, ghost op: Op) returns (value: nat)
    requires stream.Valid() && OpAt(stream.Bits(), stream.ReadPos(), op)
    requires !op.BitsOp? && AsBytes(op) == ToBytes(n, data) && data < Pow256(n)
    modifies stream`curReadPos, stream`nReadBits
    ensures stream.Valid() && stream.Bits() == old(stream.Bits())
    ensures value == data && stream.ReadPos() == EndOf(old(stream.ReadPos()), [op])
  {
    hide Flat, ToBytes, FromBytes, Pow256;
    CursorAligns(stream.curReadPos, stream.nReadBits);
    assert [op][..0] == [];
    BytesRoundTrip(n, data);
    value := GetNumber(stream, n);
  }

  method GetU16(stream: MemStream, ghost data: nat) returns (value: nat)
    requires stream.Valid() && Fits(U16Op(data)) && OpAt(stream.Bits(), stream.ReadPos(), U16Op(data))
    modifies stream`curReadPos, stream`nReadBits
    ensures stream.Valid() && stream.Bits() == old(stream.Bits())
    ensures value == data && stream.ReadPos() == EndOf(old(stream.ReadPos()), [U16Op(data)])
  {
    hide ToBytes, Pow256, OpAt, EndOf;
    value := GetWhole(stream, 2, data, U16Op(data));
  }

  method GetU32(stream: MemStream, ghost data: nat) returns (value: nat)
    requires stream.Valid() && Fits(U32Op(data)) && OpAt(stream.Bits(), stream.ReadPos(), U32Op(data))
    modifies stream`curReadPos, stream`nReadBits
    ensures stream.Valid() && stream.Bits() == old(stream.Bits())
    ensures value == data && stream.ReadPos() == EndOf(old(stream.ReadPos()), [U32Op(data)])
  {
    hide ToBytes, Pow256, OpAt, EndOf;
    value := GetWhole(stream, 4, data, U32Op(data));
  }

  method GetSome(stream: MemStream, count: nat, ghost bytes: seq<Byte>) returns (value: seq<Byte>)
    requires stream.Valid() && count == |bytes| && OpAt(stream.Bits(), stream.ReadPos(), BytesOp(bytes))
    modifies stream`curReadPos, stream`nReadBits
    ensures stream.Valid() && stream.Bits() == old(stream.Bits())
    ensures value == bytes && stream.ReadPos() == EndOf(old(stream.ReadPos()), [BytesOp(bytes)])
  {
    hide Flat;
    CursorAligns(stream.curReadPos, stream.nReadBits);
    assert [BytesOp(bytes)][..0] == [];
    value := stream.GetBytes(count);
    FlatInjective(value, bytes);
  }

  /** Reads one value of the shape `op` has; `op` itself says only which get to use and how wide. */
  method GetOne(stream: MemStream, op: Op) returns (got: Op)
    requires stream.Valid() && Fits(op) && OpAt(stream.Bits(), stream.ReadPos(), op)
    modifies stream`curReadPos, stream`nReadBits
    ensures stream.Valid() && stream.Bits() == old(stream.Bits())
    ensures got == op && stream.ReadPos() == EndOf(old(stream.ReadPos()), [op])
  {
    hide ToBytes, Pow256, Pow2, OpAt, EndOf;
    match op {
      case BitsOp(nBits, data) =>
        var value := GetBitField(stream, nBits, data);
        got := BitsOp(nBits, value);
      case U8Op(data) =>
        var value := GetWhole(stream, 1, data, op);
        got := U8Op(value);
      case U16Op(data) =>
        var value := GetU16(stream, data);
        got := U16Op(value);
      case U32Op(data) =>
        var value := GetU32(stream, data);
        got := U32Op(value);
      case BytesOp(bytes) =>
        var value := GetSome(stream, |bytes|, bytes);
        got := BytesOp(value);
    }
  }

  /** Reading with the matching gets, from where the values begin, gives the values back. */
  method GetAll(stream: MemStream, ops: seq<Op>) returns (got: seq<Op>)
    requires stream.Valid() && Holds(stream.Bits(), stream.ReadPos(), ops)
    requires forall k :: 0 <= k < |ops| ==> Fits(ops[k])
    modifies stream`curReadPos, stream`nReadBits
    ensures stream.Valid() && got == ops && stream.ReadPos() == EndOf(old(stream.ReadPos()), ops)
  {
    hide Fits, Image, OpAt, Holds;
    ghost var pos := stream.ReadPos();
    got := [];
    for k := 0 to |ops|
      invariant stream.Valid() && stream.Bits() == old(stream.Bits())
      invariant stream.ReadPos() == EndOf(pos, ops[..k]) && got == ops[..k]
    {
      HoldsPart(stream.Bits(), pos, ops, k);
      var value := GetOne(stream, ops[k]);
      got := got + [value];
      assert ops[..k + 1][..k] == ops[..k];
      assert [ops[k]][..0] == [];
    }
    assert ops[..|ops|] == ops;
  }

  /** Put at a saved position, then read from it: the same values, and nothing before the position has
      changed. */
  method RoundTrip(stream: MemStream, saved: nat, ops: seq<Op>) returns (got: seq<Op>)
    requires stream.Valid() && stream.CursorOk(saved / 8, saved % 8)
    requires forall k :: 0 <= k < |ops| ==> Fits(ops[k])
    modifies stream
    ensures stream.Valid() && got == ops
    ensures var pos := BitPos(saved / 8, saved % 8);
            pos <= |stream.Bits()| && stream.Bits()[..pos] == old(stream.Bits())[..pos]
  {
    hide Fits, Image, OpAt, Holds, Flat;
    var _ := stream.SetReadPos(saved);
    var _ := stream.SetWritePos(saved);
    ghost var pos := stream.WritePos();
    PutAll(stream, ops);
    WrittenHolds(stream, pos, ops);
    got := GetAll(stream, ops);
  }

  lemma WrittenHolds(stream: MemStream, pos: nat, ops: seq<Op>)
    requires stream.Valid() && Holds(stream.Written(), pos, ops) && EndOf(pos, ops) == stream.WritePos()
    ensures Holds(stream.Bits(), pos, ops)
  {
    assert stream.Written()[..stream.WritePos()] == stream.Bits()[..stream.WritePos()];
    HoldsStill(stream.Written(), stream.Bits(), pos, ops);
  }
}
