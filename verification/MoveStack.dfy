/** The undo/redo log of a game, kept as a stream of bits (xwords4/common/movestak.c): a list of entries with
    a tail that can be redone. Not for duplicate games. */
module MoveStack {
  import opened Score
  import opened GameLog
  import Division
  import opened MemStream
  import opened StreamOps

  const NTILES_NBITS: nat := 3
  const NUMCOLS_NBITS_5: nat := 5
  const TILE_NBITS: nat := 6
  const TYPE_BITS: nat := 2

  function TypeOf(e: Entry): nat {
    match e case AssignEntry(_, _) => 0 case MoveEntry(_, _, _) => 1 case TradeEntry(_, _, _) => 2 case PhonyEntry(_, _) => 3
  }

  // How an entry is laid out in bits.

  function Bit(b: bool): nat {
    if b then 1 else 0
  }

  function TilesBits(ts: seq<nat>): seq<bool> {
    if ts == [] then [] else TilesBits(ts[..|ts| - 1]) + BitsOf(TILE_NBITS, ts[|ts| - 1])
  }

  function TrayBits(ts: seq<nat>): seq<bool> {
    BitsOf(NTILES_NBITS, |ts|) + TilesBits(ts)
  }

  function MoveTileBits(bpt: nat, t: MoveTile): seq<bool> {
    BitsOf(NUMCOLS_NBITS_5, t.varCoord) + BitsOf(bpt, t.tile) + BitsOf(1, Bit(t.blank))
  }

  function MoveTilesBits(bpt: nat, ts: seq<MoveTile>): seq<bool> {
    if ts == [] then [] else MoveTilesBits(bpt, ts[..|ts| - 1]) + MoveTileBits(bpt, ts[|ts| - 1])
  }

  function HeaderBits(mv: Move): seq<bool> {
    BitsOf(NTILES_NBITS, |mv.tiles|) + BitsOf(NUMCOLS_NBITS_5, mv.common) + BitsOf(1, Bit(mv.horizontal))
  }

  function MoveBits(bpt: nat, mv: Move): seq<bool> {
    HeaderBits(mv) + MoveTilesBits(bpt, mv.tiles)
  }

  function BodyBits(bpt: nat, e: Entry): seq<bool> {
    match e
    case AssignEntry(_, tiles) => TrayBits(tiles)
    case MoveEntry(_, mv, newTiles) => MoveBits(bpt, mv) + TrayBits(newTiles)
    case TradeEntry(_, oldTiles, newTiles) => TrayBits(oldTiles) + TrayBits(newTiles)
    case PhonyEntry(_, mv) => MoveBits(bpt, mv)
  }

  function EntryBits(bpt: nat, e: Entry): seq<bool> {
    BitsOf(TYPE_BITS, TypeOf(e)) + BitsOf(2, e.player) + BodyBits(bpt, e)
  }

  function LogBits(bpt: nat, log: seq<Entry>): seq<bool> {
    if log == [] then [] else LogBits(bpt, log[..|log| - 1]) + EntryBits(bpt, log[|log| - 1])
  }

  // Where each number of an entry stands.

  /** The number stands in these bits, low bit first. */
  ghost predicate Field(bits: seq<bool>, at: nat, n: nat, v: nat) {
    at + n <= |bits| && HoldsBits(bits[at..at + n], v)
  }

  /** A count in three bits and six bits for each tile. */
  ghost predicate TrayLaidOut(bits: seq<bool>, at: nat, ts: seq<nat>) {
    Field(bits, at, 3, |ts|) && forall k {:trigger ts[k]} :: 0 <= k < |ts| ==> Field(bits, at + 3 + 6 * k, 6, ts[k])
  }

  /** Five bits for the coordinate, then the tile, then a bit for a blank. */
  ghost predicate MoveTileLaidOut(bits: seq<bool>, at: nat, bpt: nat, t: MoveTile) {
    && Field(bits, at, 5, t.varCoord) && Field(bits, at + 5, bpt, t.tile)
    && Field(bits, at + 5 + bpt, 1, if t.blank then 1 else 0)
  }

  ghost predicate MoveLaidOut(bits: seq<bool>, at: nat, bpt: nat, mv: Move) {
    && Field(bits, at, 3, |mv.tiles|) && Field(bits, at + 3, 5, mv.common) && Field(bits, at + 8, 1, if mv.horizontal then 1 else 0)
    && forall k {:trigger mv.tiles[k]} :: 0 <= k < |mv.tiles| ==>
         MoveTileLaidOut(bits, at + 9 + k * (5 + bpt + 1), bpt, mv.tiles[k])
  }

  /** Two bits for the kind of entry, two for the player, and what the kind has. */
  ghost predicate EntryLaidOut(bits: seq<bool>, at: nat, bpt: nat, e: Entry) {
    && Field(bits, at, 2, if e.AssignEntry? then 0 else if e.MoveEntry? then 1 else if e.TradeEntry? then 2 else 3)
    && Field(bits, at + 2, 2, e.player)
    && match e
       case AssignEntry(_, tiles) => TrayLaidOut(bits, at + 4, tiles)
       case MoveEntry(_, mv, newTiles) =>
         MoveLaidOut(bits, at + 4, bpt, mv) && TrayLaidOut(bits, at + 13 + |mv.tiles| * (5 + bpt + 1), newTiles)
       case TradeEntry(_, oldTiles, newTiles) =>
         TrayLaidOut(bits, at + 4, oldTiles) && TrayLaidOut(bits, at + 7 + 6 * |oldTiles|, newTiles)
       case PhonyEntry(_, mv) => MoveLaidOut(bits, at + 4, bpt, mv)
  }

  ghost predicate BitsAt(bits: seq<bool>, at: nat, image: seq<bool>) {
    at + |image| <= |bits| && bits[at..at + |image|] == image
  }

  lemma Parts(bits: seq<bool>, at: nat, a: seq<bool>, b: seq<bool>)
    requires BitsAt(bits, at, a + b)
    ensures BitsAt(bits, at, a) && BitsAt(bits, at + |a|, b)
  {
    var slice := bits[at..at + |a + b|];
    assert bits[at..at + |a|] == slice[..|a|] == a;
    assert bits[at + |a|..at + |a| + |b|] == slice[|a|..] == b;
  }

  lemma FieldThere(bits: seq<bool>, at: nat, n: nat, v: nat)
    requires BitsAt(bits, at, BitsOf(n, v))
    ensures Field(bits, at, n, v)
  {
    BitsHeld(n, v);
  }

  lemma {:induction false} TilesThere(bits: seq<bool>, at: nat, ts: seq<nat>)
    requires BitsAt(bits, at, TilesBits(ts))
    ensures |TilesBits(ts)| == 6 * |ts|
    ensures forall k :: 0 <= k < |ts| ==> Field(bits, at + 6 * k, 6, ts[k])
    decreases |ts|
  {
    hide BitsOf, Field, BitsAt;
    if ts != [] {
      var less := ts[..|ts| - 1];
      Parts(bits, at, TilesBits(less), BitsOf(TILE_NBITS, ts[|ts| - 1]));
      TilesThere(bits, at, less);
      FieldThere(bits, at + 6 * |less|, 6, ts[|ts| - 1]);
      assert forall k :: 0 <= k < |less| ==> less[k] == ts[k];
    }
  }

  lemma TrayThere(bits: seq<bool>, at: nat, ts: seq<nat>)
    requires BitsAt(bits, at, TrayBits(ts))
    ensures TrayLaidOut(bits, at, ts) && |TrayBits(ts)| == 3 + 6 * |ts|
  {
    hide BitsOf, Field, BitsAt, TilesBits;
    Parts(bits, at, BitsOf(NTILES_NBITS, |ts|), TilesBits(ts));
    FieldThere(bits, at, 3, |ts|);
    TilesThere(bits, at + 3, ts);
  }

  lemma MoveTileThere(bits: seq<bool>, at: nat, bpt: nat, t: MoveTile)
    requires BitsAt(bits, at, MoveTileBits(bpt, t))
    ensures MoveTileLaidOut(bits, at, bpt, t) && |MoveTileBits(bpt, t)| == 5 + bpt + 1
  {
    hide BitsOf, Field, BitsAt;
    Parts(bits, at, BitsOf(NUMCOLS_NBITS_5, t.varCoord) + BitsOf(bpt, t.tile), BitsOf(1, Bit(t.blank)));
    Parts(bits, at, BitsOf(NUMCOLS_NBITS_5, t.varCoord), BitsOf(bpt, t.tile));
    FieldThere(bits, at, 5, t.varCoord);
    FieldThere(bits, at + 5, bpt, t.tile);
    FieldThere(bits, at + 5 + bpt, 1, Bit(t.blank));
  }

  lemma {:induction false} MoveTilesThere(bits: seq<bool>, at: nat, bpt: nat, ts: seq<MoveTile>)
    requires BitsAt(bits, at, MoveTilesBits(bpt, ts))
    ensures |MoveTilesBits(bpt, ts)| == Division.Times(|ts|, 5 + bpt + 1)
    ensures forall k :: 0 <= k < |ts| ==> MoveTileLaidOut(bits, at + Division.Times(k, 5 + bpt + 1), bpt, ts[k])
    decreases |ts|
  {
    hide MoveTileBits, MoveTileLaidOut, BitsAt;
    if ts != [] {
      var less := ts[..|ts| - 1];
      Parts(bits, at, MoveTilesBits(bpt, less), MoveTileBits(bpt, ts[|ts| - 1]));
      MoveTilesThere(bits, at, bpt, less);
      MoveTileThere(bits, at + Division.Times(|less|, 5 + bpt + 1), bpt, ts[|ts| - 1]);
      assert forall k :: 0 <= k < |less| ==> less[k] == ts[k];
    }
  }

  lemma MoveThere(bits: seq<bool>, at: nat, bpt: nat, mv: Move)
    requires BitsAt(bits, at, MoveBits(bpt, mv))
    ensures MoveLaidOut(bits, at, bpt, mv) && |MoveBits(bpt, mv)| == 9 + |mv.tiles| * (5 + bpt + 1)
  {
    hide BitsOf, Field, BitsAt, MoveTilesBits, MoveTileLaidOut, Division.Times;
    var count, common, dir := BitsOf(NTILES_NBITS, |mv.tiles|), BitsOf(NUMCOLS_NBITS_5, mv.common), BitsOf(1, Bit(mv.horizontal));
    Parts(bits, at, HeaderBits(mv), MoveTilesBits(bpt, mv.tiles));
    Parts(bits, at, count + common, dir);
    Parts(bits, at, count, common);
    FieldThere(bits, at, 3, |mv.tiles|);
    FieldThere(bits, at + 3, 5, mv.common);
    FieldThere(bits, at + 8, 1, Bit(mv.horizontal));
    MoveTilesThere(bits, at + 9, bpt, mv.tiles);
    Division.TimesIs(|mv.tiles|, 5 + bpt + 1);
    forall k | 0 <= k < |mv.tiles|
      ensures MoveTileLaidOut(bits, at + 9 + k * (5 + bpt + 1), bpt, mv.tiles[k])
    {
      Division.TimesIs(k, 5 + bpt + 1);
    }
  }

  /** Whatever holds the bits of an entry holds each of its numbers where it belongs. */
  lemma EntryThere(bits: seq<bool>, at: nat, bpt: nat, e: Entry)
    requires BitsAt(bits, at, EntryBits(bpt, e))
    ensures EntryLaidOut(bits, at, bpt, e)
  {
    hide BitsOf, Field, BitsAt, MoveBits, TrayBits, MoveLaidOut, TrayLaidOut;
    Parts(bits, at, BitsOf(TYPE_BITS, TypeOf(e)) + BitsOf(2, e.player), BodyBits(bpt, e));
    Parts(bits, at, BitsOf(TYPE_BITS, TypeOf(e)), BitsOf(2, e.player));
    FieldThere(bits, at, 2, TypeOf(e));
    FieldThere(bits, at + 2, 2, e.player);
    match e {
      case AssignEntry(_, tiles) => TrayThere(bits, at + 4, tiles);
      case MoveEntry(_, mv, newTiles) =>
        Parts(bits, at + 4, MoveBits(bpt, mv), TrayBits(newTiles));
        MoveThere(bits, at + 4, bpt, mv);
        TrayThere(bits, at + 4 + |MoveBits(bpt, mv)|, newTiles);
      case TradeEntry(_, oldTiles, newTiles) =>
        Parts(bits, at + 4, TrayBits(oldTiles), TrayBits(newTiles));
        TrayThere(bits, at + 4, oldTiles);
        TrayThere(bits, at + 4 + |TrayBits(oldTiles)|, newTiles);
      case PhonyEntry(_, mv) => MoveThere(bits, at + 4, bpt, mv);
    }
  }

  predicate TilesFit(ts: seq<nat>) {
    |ts| < Pow2(NTILES_NBITS) && forall k :: 0 <= k < |ts| ==> ts[k] < Pow2(TILE_NBITS)
  }

  predicate MoveTileFits(bpt: nat, t: MoveTile) {
    t.varCoord < Pow2(NUMCOLS_NBITS_5) && t.tile < Pow2(bpt)
  }

  predicate MoveFits(bpt: nat, mv: Move) {
    && |mv.tiles| < Pow2(NTILES_NBITS) && mv.common < Pow2(NUMCOLS_NBITS_5)
    && forall k :: 0 <= k < |mv.tiles| ==> MoveTileFits(bpt, mv.tiles[k])
  }

  /** Every number of the entry fits the width it is stored in. */
  predicate EntryFits(bpt: nat, e: Entry) {
    && e.player < Pow2(2)
    && match e
       case AssignEntry(_, tiles) => TilesFit(tiles)
       case MoveEntry(_, mv, newTiles) => MoveFits(bpt, mv) && TilesFit(newTiles)
       case TradeEntry(_, oldTiles, newTiles) => |oldTiles| == |newTiles| && TilesFit(oldTiles) && TilesFit(newTiles)
       case PhonyEntry(_, mv) => MoveFits(bpt, mv)
  }

  // Writing.

  method PutTraySet(stream: MemStream, ts: seq<nat>)
    requires stream.Valid() && TilesFit(ts)
    modifies stream`buf, stream`nBytesWritten, stream`curWritePos, stream`nWriteBits
    ensures stream.Valid() && stream.Written() == old(stream.Written()) + TrayBits(ts)
    ensures stream.nBytesWritten >= old(stream.nBytesWritten)
  {
    hide BitsOf, Pow2, Flat;
    ghost var was := stream.Written();
    stream.PutBits(NTILES_NBITS, |ts|);
    ghost var head := stream.Written();
    assert head + TilesBits(ts[..0]) == head;
    for ii := 0 to |ts|
      invariant stream.Valid() && stream.Written() == head + TilesBits(ts[..ii])
      invariant stream.nBytesWritten >= old(stream.nBytesWritten)
    {
      stream.PutBits(TILE_NBITS, ts[ii]);
      assert ts[..ii + 1][..ii] == ts[..ii];
      assert head + TilesBits(ts[..ii + 1]) == head + TilesBits(ts[..ii]) + BitsOf(TILE_NBITS, ts[ii]);
    }
    assert ts[..|ts|] == ts;
    assert head + TilesBits(ts) == was + TrayBits(ts);
  }

  method PutMoveTile(stream: MemStream, bpt: nat, t: MoveTile)
    requires stream.Valid() && MoveTileFits(bpt, t) && 0 < bpt
    modifies stream`buf, stream`nBytesWritten, stream`curWritePos, stream`nWriteBits
    ensures stream.Valid() && stream.Written() == old(stream.Written()) + MoveTileBits(bpt, t)
    ensures stream.nBytesWritten >= old(stream.nBytesWritten)
  {
    hide BitsOf, Flat;
    ghost var was := stream.Written();
    stream.PutBits(NUMCOLS_NBITS_5, t.varCoord);
    stream.PutBits(bpt, t.tile);
    stream.PutBits(1, Bit(t.blank));
    assert stream.Written() == was + MoveTileBits(bpt, t);
  }

  method PutMoveHeader(stream: MemStream, bpt: nat, mv: Move)
    requires stream.Valid() && MoveFits(bpt, mv)
    modifies stream`buf, stream`nBytesWritten, stream`curWritePos, stream`nWriteBits
    ensures stream.Valid() && stream.Written() == old(stream.Written()) + HeaderBits(mv)
    ensures stream.nBytesWritten >= old(stream.nBytesWritten)
  {
    hide BitsOf, Flat;
    ghost var was := stream.Written();
    stream.PutBits(NTILES_NBITS, |mv.tiles|);
    stream.PutBits(NUMCOLS_NBITS_5, mv.common);
    stream.PutBits(1, Bit(mv.horizontal));
    assert stream.Written() == was + HeaderBits(mv);
  }

  method PutMoveTiles(stream: MemStream, bpt: nat, ts: seq<MoveTile>)
    requires stream.Valid() && 0 < bpt && forall k :: 0 <= k < |ts| ==> MoveTileFits(bpt, ts[k])
    modifies stream`buf, stream`nBytesWritten, stream`curWritePos, stream`nWriteBits
    ensures stream.Valid() && stream.Written() == old(stream.Written()) + MoveTilesBits(bpt, ts)
    ensures stream.nBytesWritten >= old(stream.nBytesWritten)
  {
    hide MoveTileBits, MoveTileFits;
    ghost var head := stream.Written();
    assert head + MoveTilesBits(bpt, ts[..0]) == head;
    for ii := 0 to |ts|
      invariant stream.Valid() && stream.Written() == head + MoveTilesBits(bpt, ts[..ii])
      invariant stream.nBytesWritten >= old(stream.nBytesWritten)
    {
      PutMoveTile(stream, bpt, ts[ii]);
      assert ts[..ii + 1][..ii] == ts[..ii];
      Assoc(head, MoveTilesBits(bpt, ts[..ii]), MoveTileBits(bpt, ts[ii]));
    }
    assert ts[..|ts|] == ts;
  }

  lemma Assoc(a: seq<bool>, b: seq<bool>, c: seq<bool>)
    ensures a + b + c == a + (b + c)
  {
  }

  method PutMoveInfo(stream: MemStream, bpt: nat, mv: Move)
    requires stream.Valid() && MoveFits(bpt, mv) && 0 < bpt
    modifies stream`buf, stream`nBytesWritten, stream`curWritePos, stream`nWriteBits
    ensures stream.Valid() && stream.Written() == old(stream.Written()) + MoveBits(bpt, mv)
    ensures stream.nBytesWritten >= old(stream.nBytesWritten)
  {
    hide HeaderBits, MoveTilesBits;
    Assoc(stream.Written(), HeaderBits(mv), MoveTilesBits(bpt, mv.tiles));
    PutMoveHeader(stream, bpt, mv);
    PutMoveTiles(stream, bpt, mv.tiles);
  }

  method PutBody(stream: MemStream, bpt: nat, e: Entry)
    requires stream.Valid() && EntryFits(bpt, e) && 0 < bpt
    modifies stream`buf, stream`nBytesWritten, stream`curWritePos, stream`nWriteBits
    ensures stream.Valid() && stream.Written() == old(stream.Written()) + BodyBits(bpt, e)
    ensures stream.nBytesWritten >= old(stream.nBytesWritten)
  {
    hide MoveBits, TrayBits, MoveFits, TilesFit, Pow2;
    match e {
      case AssignEntry(_, tiles) => PutTraySet(stream, tiles);
      case MoveEntry(_, mv, newTiles) =>
        Assoc(stream.Written(), MoveBits(bpt, mv), TrayBits(newTiles));
        PutMoveInfo(stream, bpt, mv);
        PutTraySet(stream, newTiles);
      case TradeEntry(_, oldTiles, newTiles) =>
        Assoc(stream.Written(), TrayBits(oldTiles), TrayBits(newTiles));
        PutTraySet(stream, oldTiles);
        PutTraySet(stream, newTiles);
      case PhonyEntry(_, mv) => PutMoveInfo(stream, bpt, mv);
    }
  }

  method PutEntry(stream: MemStream, bpt: nat, e: Entry)
    requires stream.Valid() && EntryFits(bpt, e) && 0 < bpt
    modifies stream`buf, stream`nBytesWritten, stream`curWritePos, stream`nWriteBits
    ensures stream.Valid() && stream.Written() == old(stream.Written()) + EntryBits(bpt, e)
    ensures EntryLaidOut(stream.Written(), old(stream.WritePos()), bpt, e)
    ensures stream.nBytesWritten >= old(stream.nBytesWritten)
  {
    hide BitsOf, BodyBits, MoveFits, TilesFit, EntryLaidOut;
    assert Pow2(2) == 4 by { assert Pow2(1) == 2; }
    Assoc(stream.Written(), BitsOf(TYPE_BITS, TypeOf(e)), BitsOf(2, e.player));
    Assoc(stream.Written(), BitsOf(TYPE_BITS, TypeOf(e)) + BitsOf(2, e.player), BodyBits(bpt, e));
    stream.PutBits(TYPE_BITS, TypeOf(e));
    stream.PutBits(2, e.player);
    PutBody(stream, bpt, e);
    assert stream.Written()[old(stream.WritePos())..] == EntryBits(bpt, e);
    EntryThere(stream.Written(), old(stream.WritePos()), bpt, e);
  }

  // Reading.

  /** These bits come next. */
  ghost predicate Ahead(stream: MemStream, rest: seq<bool>)
    reads stream
  {
    && stream.Valid() && stream.ReadPos() + |rest| <= |stream.Bits()|
    && stream.Bits()[stream.ReadPos()..stream.ReadPos() + |rest|] == rest
  }

  method GetField(stream: MemStream, n: nat, ghost v: nat, ghost rest: seq<bool>) returns (value: nat)
    requires stream.Valid() && Ahead(stream, BitsOf(n, v) + rest) && v < Pow2(n)
    modifies stream`curReadPos, stream`nReadBits
    ensures value == v && stream.Valid() && Ahead(stream, rest) && stream.ReadPos() == old(stream.ReadPos()) + n
  {
    hide BitsOf, Pow2, Flat, ValueOf;
    BitsRoundTrip(n, v);
    ghost var p, all := stream.ReadPos(), stream.Bits();
    ghost var slice := all[p..p + n + |rest|];
    assert slice == BitsOf(n, v) + rest;
    assert all[p..p + n] == slice[..n] == BitsOf(n, v);
    assert all[p + n..p + n + |rest|] == slice[n..] == rest;
    value := stream.GetBits(n);
  }

  method GetTraySet(stream: MemStream, ghost ts: seq<nat>, ghost rest: seq<bool>) returns (got: seq<nat>)
    requires TilesFit(ts) && stream.Valid() && Ahead(stream, TrayBits(ts) + rest)
    modifies stream`curReadPos, stream`nReadBits
    ensures got == ts && stream.Valid() && Ahead(stream, rest) && stream.ReadPos() == old(stream.ReadPos()) + |TrayBits(ts)|
  {
    hide BitsOf, Pow2, Ahead;
    ghost var start := stream.ReadPos();
    assert TrayBits(ts) + rest == BitsOf(NTILES_NBITS, |ts|) + (TilesBits(ts) + rest);
    var nTiles := GetField(stream, NTILES_NBITS, |ts|, TilesBits(ts) + rest);
    got := [];
    ghost var left := TilesBits(ts) + rest;
    TilesFrom(ts, 0);
    assert TilesTail(ts, 0) + rest == left;
    for ii := 0 to nTiles
      invariant got == ts[..ii] && stream.Valid() && Ahead(stream, TilesTail(ts, ii) + rest)
      invariant stream.ReadPos() == start + NTILES_NBITS + TILE_NBITS * ii
    {
      TilesFrom(ts, ii);
      assert TilesTail(ts, ii) + rest == BitsOf(TILE_NBITS, ts[ii]) + (TilesTail(ts, ii + 1) + rest);
      var tile := GetField(stream, TILE_NBITS, ts[ii], TilesTail(ts, ii + 1) + rest);
      got := got + [tile];
    }
    TilesLength(ts);
    assert TilesTail(ts, |ts|) + rest == rest;
  }

  function TilesTail(ts: seq<nat>, k: nat): seq<bool>
    requires k <= |ts|
    decreases |ts| - k
  {
    if k == |ts| then [] else BitsOf(TILE_NBITS, ts[k]) + TilesTail(ts, k + 1)
  }

  lemma {:induction false} TilesFrom(ts: seq<nat>, k: nat)
    requires k <= |ts|
    ensures TilesBits(ts) == TilesBits(ts[..k]) + TilesTail(ts, k)
    decreases |ts| - k
  {
    hide BitsOf;
    if k < |ts| {
      TilesFrom(ts, k + 1);
      assert ts[..k + 1][..k] == ts[..k];
      Assoc(TilesBits(ts[..k]), BitsOf(TILE_NBITS, ts[k]), TilesTail(ts, k + 1));
    } else {
      assert ts[..k] == ts;
    }
  }

  lemma {:induction false} TilesLength(ts: seq<nat>)
    ensures |TilesBits(ts)| == TILE_NBITS * |ts|
  {
    if ts != [] {
      TilesLength(ts[..|ts| - 1]);
    }
  }

  method GetMoveTile(stream: MemStream, bpt: nat, ghost t: MoveTile, ghost rest: seq<bool>) returns (got: MoveTile)
    requires MoveTileFits(bpt, t) && stream.Valid() && Ahead(stream, MoveTileBits(bpt, t) + rest)
    modifies stream`curReadPos, stream`nReadBits
    ensures got == t && stream.Valid() && Ahead(stream, rest) && stream.ReadPos() == old(stream.ReadPos()) + NUMCOLS_NBITS_5 + bpt + 1
  {
    hide BitsOf, Ahead;
    ghost var blank := BitsOf(1, Bit(t.blank)) + rest;
    assert MoveTileBits(bpt, t) + rest == BitsOf(NUMCOLS_NBITS_5, t.varCoord) + (BitsOf(bpt, t.tile) + blank);
    var varCoord := GetField(stream, NUMCOLS_NBITS_5, t.varCoord, BitsOf(bpt, t.tile) + blank);
    var tile := GetField(stream, bpt, t.tile, blank);
    var b := GetField(stream, 1, Bit(t.blank), rest);
    got := MoveTile(varCoord, tile, b != 0);
  }

  function MoveTilesTail(bpt: nat, ts: seq<MoveTile>, k: nat): seq<bool>
    requires k <= |ts|
    decreases |ts| - k
  {
    if k == |ts| then [] else MoveTileBits(bpt, ts[k]) + MoveTilesTail(bpt, ts, k + 1)
  }

  lemma {:induction false} MoveTilesFrom(bpt: nat, ts: seq<MoveTile>, k: nat)
    requires k <= |ts|
    ensures MoveTilesBits(bpt, ts) == MoveTilesBits(bpt, ts[..k]) + MoveTilesTail(bpt, ts, k)
    decreases |ts| - k
  {
    hide MoveTileBits;
    if k < |ts| {
      MoveTilesFrom(bpt, ts, k + 1);
      assert ts[..k + 1][..k] == ts[..k];
    } else {
      assert ts[..k] == ts;
    }
  }

  lemma MoveTileLength(bpt: nat, t: MoveTile)
    ensures |MoveTileBits(bpt, t)| == NUMCOLS_NBITS_5 + bpt + 1
  {
  }

  method GetMoveInfo(stream: MemStream, bpt: nat, ghost mv: Move, ghost rest: seq<bool>) returns (got: Move)
    requires MoveFits(bpt, mv) && stream.Valid() && Ahead(stream, MoveBits(bpt, mv) + rest)
    modifies stream`curReadPos, stream`nReadBits
    ensures got == mv && stream.Valid() && Ahead(stream, rest) && stream.ReadPos() == old(stream.ReadPos()) + |MoveBits(bpt, mv)|
  {
    hide BitsOf, Ahead, MoveTileBits, MoveTileFits, MoveTilesBits;
    ghost var start, all := stream.ReadPos(), |MoveBits(bpt, mv)| + |rest|;
    ghost var tail := MoveTilesBits(bpt, mv.tiles) + rest;
    ghost var dir := BitsOf(1, Bit(mv.horizontal)) + tail;
    assert MoveBits(bpt, mv) + rest
        == BitsOf(NTILES_NBITS, |mv.tiles|) + (BitsOf(NUMCOLS_NBITS_5, mv.common) + dir);
    var nTiles := GetField(stream, NTILES_NBITS, |mv.tiles|, BitsOf(NUMCOLS_NBITS_5, mv.common) + dir);
    var common := GetField(stream, NUMCOLS_NBITS_5, mv.common, dir);
    var h := GetField(stream, 1, Bit(mv.horizontal), tail);
    var tiles := GetMoveTiles(stream, bpt, nTiles, mv.tiles, rest);
    got := Move(h != 0, common, tiles);
  }

  method GetMoveTiles(stream: MemStream, bpt: nat, nTiles: nat, ghost ts: seq<MoveTile>, ghost rest: seq<bool>)
    returns (tiles: seq<MoveTile>)
    requires nTiles == |ts| && (forall k :: 0 <= k < |ts| ==> MoveTileFits(bpt, ts[k]))
    requires stream.Valid() && Ahead(stream, MoveTilesBits(bpt, ts) + rest)
    modifies stream`curReadPos, stream`nReadBits
    ensures tiles == ts && stream.Valid() && Ahead(stream, rest)
    ensures stream.ReadPos() == old(stream.ReadPos()) + |MoveTilesBits(bpt, ts)|
  {
    hide Ahead, MoveTileBits, MoveTileFits;
    tiles := [];
    ghost var start := stream.ReadPos();
    MoveTilesFrom(bpt, ts, 0);
    assert MoveTilesTail(bpt, ts, 0) == MoveTilesBits(bpt, ts);
    for ii := 0 to nTiles
      invariant tiles == ts[..ii] && stream.Valid() && Ahead(stream, MoveTilesTail(bpt, ts, ii) + rest)
      invariant stream.ReadPos() + |MoveTilesTail(bpt, ts, ii)| == start + |MoveTilesBits(bpt, ts)|
    {
      MoveTileLength(bpt, ts[ii]);
      assert MoveTilesTail(bpt, ts, ii) + rest == MoveTileBits(bpt, ts[ii]) + (MoveTilesTail(bpt, ts, ii + 1) + rest);
      var t := GetMoveTile(stream, bpt, ts[ii], MoveTilesTail(bpt, ts, ii + 1) + rest);
      tiles := tiles + [t];
    }
    assert MoveTilesTail(bpt, ts, |ts|) + rest == rest;
  }

  /** Reads back the entry whose bits come next, and no more. */
  method ReadEntry(stream: MemStream, bpt: nat, ghost e: Entry, ghost rest: seq<bool>) returns (got: Entry)
    requires EntryFits(bpt, e) && stream.Valid() && Ahead(stream, EntryBits(bpt, e) + rest)
    modifies stream`curReadPos, stream`nReadBits
    ensures got == e && stream.Valid() && Ahead(stream, rest) && stream.ReadPos() == old(stream.ReadPos()) + |EntryBits(bpt, e)|
  {
    hide BitsOf, Ahead, MoveBits, TrayBits, MoveFits, TilesFit;
    assert Pow2(2) == 4 by { assert Pow2(1) == 2; }
    ghost var body := BodyBits(bpt, e) + rest;
    assert EntryBits(bpt, e) + rest == BitsOf(TYPE_BITS, TypeOf(e)) + (BitsOf(2, e.player) + body);
    var moveType := GetField(stream, TYPE_BITS, TypeOf(e), BitsOf(2, e.player) + body);
    var playerNum := GetField(stream, 2, e.player, body);
    if moveType == 0 {
      var tiles := GetTraySet(stream, e.tiles, rest);
      got := AssignEntry(playerNum, tiles);
    } else if moveType == 1 {
      assert body == MoveBits(bpt, e.mv) + (TrayBits(e.newTiles) + rest);
      var moveInfo := GetMoveInfo(stream, bpt, e.mv, TrayBits(e.newTiles) + rest);
      var newTiles := GetTraySet(stream, e.newTiles, rest);
      got := MoveEntry(playerNum, moveInfo, newTiles);
    } else if moveType == 2 {
      assert body == TrayBits(e.oldTiles) + (TrayBits(e.newTiles) + rest);
      var oldTiles := GetTraySet(stream, e.oldTiles, TrayBits(e.newTiles) + rest);
      var newTiles := GetTraySet(stream, e.newTiles, rest);
      got := TradeEntry(playerNum, oldTiles, newTiles);
    } else {
      var moveInfo := GetMoveInfo(stream, bpt, e.mv, rest);
      got := PhonyEntry(playerNum, moveInfo);
    }
  }

  // Positions in the log.

  /** How a cursor at bit `p` is saved: whole bytes begun, and bits used of the last. */
  function Code(p: nat): nat {
    if p % 8 == 0 then p else 8 * (p / 8 + 1) + p % 8
  }

  lemma CodeIsCursor(cur: nat, bits: nat)
    requires bits < 8 && (bits > 0 ==> cur > 0)
    ensures Code(BitPos(cur, bits)) == 8 * cur + bits
  {
  }

  lemma CursorIsCode(p: nat)
    ensures Code(p) % 8 > 0 ==> Code(p) / 8 > 0
    ensures BitPos(Code(p) / 8, Code(p) % 8) == p
    ensures Code(p) / 8 == (p + 7) / 8
  {
  }

  /** Where the n-th entry begins. */
  function EntryPos(bpt: nat, log: seq<Entry>, n: nat): nat
    requires n <= |log|
  {
    |LogBits(bpt, log[..n])|
  }

  lemma {:induction false} LogConcat(bpt: nat, a: seq<Entry>, b: seq<Entry>)
    ensures LogBits(bpt, a + b) == LogBits(bpt, a) + LogBits(bpt, b)
    decreases |b|
  {
    hide EntryBits;
    if b == [] {
      assert a + b == a;
    } else {
      assert (a + b)[..|a + b| - 1] == a + b[..|b| - 1];
      LogConcat(bpt, a, b[..|b| - 1]);
    }
  }

  lemma OneEntryBits(bpt: nat, e: Entry)
    ensures LogBits(bpt, [e]) == EntryBits(bpt, e)
  {
    assert [e][..0] == [];
    assert LogBits(bpt, [e]) == [] + EntryBits(bpt, e);
  }

  lemma PosGrows(bpt: nat, log: seq<Entry>, n: nat)
    requires n <= |log|
    ensures EntryPos(bpt, log, n) <= |LogBits(bpt, log)|
    ensures LogBits(bpt, log[..n]) == LogBits(bpt, log)[..EntryPos(bpt, log, n)]
    ensures n < |log| ==> EntryPos(bpt, log, n + 1) == EntryPos(bpt, log, n) + |EntryBits(bpt, log[n])|
    ensures n < |log| ==>
              LogBits(bpt, log)[EntryPos(bpt, log, n)..] == EntryBits(bpt, log[n]) + LogBits(bpt, log[n + 1..])
  {
    hide EntryBits, LogBits;
    LogConcat(bpt, log[..n], log[n..]);
    assert log == log[..n] + log[n..];
    if n < |log| {
      OneEntryBits(bpt, log[n]);
      assert log[..n + 1] == log[..n] + [log[n]];
      LogConcat(bpt, log[..n], [log[n]]);
      LogConcat(bpt, [log[n]], log[n + 1..]);
      assert log[n..] == [log[n]] + log[n + 1..];
    }
  }

  class MoveStack {
    const data: MemStream
    const bitsPerTile: nat
    var top: nat
    var cachedPos: nat
    var cacheNext: nat
    var nEntries: nat
    var highWaterMark: nat
    /** What the stream holds: the entries and, after them, those that can be redone. */
    ghost var list: seq<Entry>

    /** The stream holds the entries, and the cache position is that of the entry it is for. */
    ghost predicate StreamOk()
      reads this, data
    {
      && 0 < bitsPerTile && data.Valid()
      && nEntries <= highWaterMark == |list| && cacheNext <= highWaterMark
      && (forall k :: 0 <= k < |list| ==> EntryFits(bitsPerTile, list[k]))
      && Stored()
      && cachedPos == Code(EntryPos(bitsPerTile, list, cacheNext))
    }

    ghost predicate Valid()
      reads this, data
    {
      StreamOk() && cacheNext <= nEntries && top == Code(EntryPos(bitsPerTile, list, nEntries))
    }

    ghost predicate Stored()
      requires data.Valid()
      reads this, data
    {
      LogBits(bitsPerTile, list) <= data.Bits()
    }

    constructor (bitsPerTile: nat)
      requires 0 < bitsPerTile
      ensures Valid() && fresh(data) && list == [] && nEntries == 0 && this.bitsPerTile == bitsPerTile
      ensures cacheNext == 0 == top == data.nBytesWritten
    {
      this.bitsPerTile := bitsPerTile;
      data := new MemStream();
      top, cachedPos, cacheNext, nEntries, highWaterMark := 0, 0, 0, 0, 0;
      list := [];
    }

    /** A saved position inside the log is one the cursors can be set to. */
    lemma PosIsCursor(n: nat)
      requires data.Valid() && Stored() && n <= |list|
      ensures var pos := Code(EntryPos(bitsPerTile, list, n));
              && data.CursorOk(pos / 8, pos % 8)
              && BitPos(pos / 8, pos % 8) == EntryPos(bitsPerTile, list, n) <= |data.Bits()|
    {
      PosGrows(bitsPerTile, list, n);
      CursorIsCode(EntryPos(bitsPerTile, list, n));
    }

    /** Writes the entry at the top, over whatever is there, and returns where it ends. */
    method WriteAtTop(entry: Entry, ghost kept: seq<Entry>) returns (newTop: nat)
      requires 0 < bitsPerTile && data.Valid() && EntryFits(bitsPerTile, entry)
      requires LogBits(bitsPerTile, kept) <= data.Bits() && top == Code(|LogBits(bitsPerTile, kept)|)
      modifies data
      ensures data.Valid() && LogBits(bitsPerTile, kept + [entry]) <= data.Bits()
      ensures newTop == Code(|LogBits(bitsPerTile, kept + [entry])|)
    {
      hide LogBits, EntryBits, EntryFits, Flat, Code;
      ghost var bits := LogBits(bitsPerTile, kept);
      CursorIsCode(|bits|);
      var oldLoc := data.SetWritePos(top);
      assert data.Written() == bits;
      PutEntry(data, bitsPerTile, entry);
      OneMoreEntry(bitsPerTile, kept, entry);
      CodeIsCursor(data.curWritePos, data.nWriteBits);
      newTop := data.SetWritePos(oldLoc);
    }

    /** Adds an entry after the current ones. Those that could have been redone are given up. */
    method PushEntry(entry: Entry)
      requires Valid() && EntryFits(bitsPerTile, entry)
      modifies this, data
      ensures Valid() && list == old(list)[..old(nEntries)] + [entry] && nEntries == highWaterMark == old(nEntries) + 1
    {
      hide LogBits, EntryBits, EntryFits, Flat, Code;
      ghost var kept := list[..nEntries];
      PosGrows(bitsPerTile, list, nEntries);
      assert kept[..cacheNext] == list[..cacheNext];
      top := WriteAtTop(entry, kept);
      list := kept + [entry];
      nEntries := nEntries + 1;
      highWaterMark := nEntries;
      assert list[..nEntries] == list && list[..cacheNext] == kept[..cacheNext];
    }

    static lemma OneMoreEntry(bpt: nat, log: seq<Entry>, e: Entry)
      ensures LogBits(bpt, log + [e]) == LogBits(bpt, log) + EntryBits(bpt, e)
    {
      assert (log + [e])[..|log|] == log;
    }

    /** With the read cursor at the n-th entry, reads it. */
    method ReadAt(ghost n: nat) returns (entry: Entry)
      requires StreamOk() && n < |list| && data.ReadPos() == EntryPos(bitsPerTile, list, n)
      modifies data`curReadPos, data`nReadBits
      ensures StreamOk() && entry == list[n] && data.ReadPos() == EntryPos(bitsPerTile, list, n + 1)
    {
      hide LogBits, EntryBits, EntryFits, Flat;
      PosGrows(bitsPerTile, list, n);
      ghost var p, bits, all := EntryPos(bitsPerTile, list, n), LogBits(bitsPerTile, list), data.Bits();
      ghost var rest := LogBits(bitsPerTile, list[n + 1..]);
      assert bits[p..] == EntryBits(bitsPerTile, list[n]) + rest;
      assert all[p..|bits|] == bits[p..] by { assert all[..|bits|] == bits; }
      entry := ReadEntry(data, bitsPerTile, list[n], rest);
    }

    /** Reads from the beginning up to the n-th entry and remembers where that is. */
    method SetCacheReadyFor(nn: nat)
      requires StreamOk() && nn <= highWaterMark
      modifies this`cacheNext, this`cachedPos, data`curReadPos, data`nReadBits
      ensures StreamOk() && cacheNext == nn
    {
      hide LogBits, EntryFits, Flat;
      assert EntryPos(bitsPerTile, list, 0) == 0 by { NoBits(bitsPerTile); assert list[..0] == []; }
      var _ := data.SetReadPos(0);
      for ii := 0 to nn
        invariant StreamOk() && data.ReadPos() == EntryPos(bitsPerTile, list, ii)
      {
        var dummy := ReadAt(ii);
      }
      CodeIsCursor(data.curReadPos, data.nReadBits);
      cacheNext := nn;
      cachedPos := data.GetPos(false);
    }

    static lemma NoBits(bpt: nat)
      ensures LogBits(bpt, []) == []
    {
    }

    /** The n-th entry, if there are that many. */
    method GetNthEntry(nn: nat) returns (found: bool, entry: Entry)
      requires StreamOk()
      modifies this`cacheNext, this`cachedPos, data`curReadPos, data`nReadBits
      ensures StreamOk() && (found <==> nn < nEntries) && (found ==> entry == list[nn])
      ensures old(Valid()) ==> Valid()
    {
      hide LogBits, EntryFits, Flat, Stored, Code;
      entry := AssignEntry(0, []);
      found := nn < nEntries;
      if found {
        if cacheNext != nn {
          SetCacheReadyFor(nn);
        }
        entry := ReadCached(nn);
      }
    }

    /** Reads the entry the cache is at and moves the cache past it. The read cursor is left where it was. */
    method ReadCached(ghost nn: nat) returns (entry: Entry)
      requires StreamOk() && nn < |list| && cacheNext == nn
      modifies this`cacheNext, this`cachedPos, data`curReadPos, data`nReadBits
      ensures StreamOk() && entry == list[nn] && cacheNext == nn + 1
    {
      hide LogBits, EntryFits, Flat, Code;
      PosIsCursor(nn);
      var oldPos := data.SetReadPos(cachedPos);
      entry := ReadAt(nn);
      CodeIsCursor(data.curReadPos, data.nReadBits);
      cachedPos := data.SetReadPos(oldPos);
      cacheNext := cacheNext + 1;
    }

    /** Takes the last entry off; it can be redone. */
    method PopEntry() returns (found: bool, entry: Entry)
      requires Valid()
      modifies this`cacheNext, this`cachedPos, this`nEntries, this`top, data`curReadPos, data`nReadBits
      ensures Valid() && (found <==> 0 < old(nEntries))
      ensures found ==> entry == list[old(nEntries) - 1] && nEntries == old(nEntries) - 1
      ensures !found ==> nEntries == old(nEntries)
    {
      hide LogBits, EntryFits, Flat;
      if nEntries == 0 {
        return false, AssignEntry(0, []);
      }
      var nn := nEntries - 1;
      found, entry := GetNthEntry(nn);
      nEntries := nn;
      SetCacheReadyFor(nn);
      top := cachedPos;
    }

    /** Puts back the entry taken off last. */
    method Redo() returns (canRedo: bool, entry: Entry)
      requires Valid()
      modifies this`cacheNext, this`cachedPos, this`nEntries, this`top, data`curReadPos, data`nReadBits
      ensures Valid() && (canRedo <==> old(nEntries) < highWaterMark)
      ensures canRedo ==> nEntries == old(nEntries) + 1 && entry == list[old(nEntries)]
      ensures !canRedo ==> nEntries == old(nEntries)
    {
      hide LogBits, EntryFits, Flat;
      entry := AssignEntry(0, []);
      canRedo := nEntries + 1 <= highWaterMark;
      if canRedo {
        nEntries := nEntries + 1;
        var found;
        found, entry := GetNthEntry(nEntries - 1);
        SetCacheReadyFor(nEntries);
        top := cachedPos;
      }
    }

    /** Everything the log is, with its tail, written out. */
    method WriteToStream(stream: MemStream)
      requires Valid() && stream.Valid() && stream != data && stream.curReadPos <= stream.curWritePos
      requires data.nBytesWritten < 0x8000 && highWaterMark < 0x10000 && top < 0x100000000
      modifies stream`buf, stream`nBytesWritten, stream`curWritePos, stream`nWriteBits, data`curReadPos, data`nReadBits
      ensures Valid() && stream.Valid()
      ensures Saved() == old(Saved()) && stream.WritePos() == EndOf(old(stream.WritePos()), Saved())
      ensures Holds(stream.Written(), old(stream.WritePos()), Saved())
    {
      hide LogBits, EntryFits, Flat, Holds, LaidOut, EndOf, Fits;
      SavedFits();
      var oldPos := data.SetReadPos(0);
      var nBytes := data.nBytesWritten - data.curReadPos;
      var ops := [U16Op(nBytes)];
      if nBytes > 0 {
        var bytes := data.GetBytes(nBytes);
        assert bytes == data.buf[..nBytes] by { FlatInjective(bytes, data.buf[..nBytes]); }
        ops := ops + [U16Op(highWaterMark), U16Op(nEntries), U32Op(top), BytesOp(bytes)];
      }
      var _ := data.SetReadPos(oldPos);
      assert ops == Saved();
      PutAll(stream, ops);
    }

    function Saved(): seq<Op>
      requires data.nBytesWritten <= |data.buf|
      reads this, data
    {
      var bytes := data.buf[..data.nBytesWritten];
      [U16Op(|bytes|)] + if bytes == [] then [] else [U16Op(highWaterMark), U16Op(nEntries), U32Op(top), BytesOp(bytes)]
    }

    static lemma EmptyLog(bpt: nat)
      ensures Code(EntryPos(bpt, [], 0)) == 0
    {
    }

    static lemma AtStart(pos: nat)
      ensures EndOf(pos, []) == pos
    {
    }

    lemma SavedFits()
      requires Valid() && data.nBytesWritten < 0x8000 && highWaterMark < 0x10000 && top < 0x100000000
      ensures forall k :: 0 <= k < |Saved()| ==> Fits(Saved()[k])
      ensures |Saved()| == if data.nBytesWritten == 0 then 1 else 5
    {
      hide LogBits, EntryFits, Flat, Code, Stored;
      assert Pow256(1) == 256 && Pow256(2) == 0x10000 && Pow256(3) == 0x1000000;
    }

    lemma NothingStored()
      requires Valid() && data.nBytesWritten == 0
      ensures list == [] && nEntries == 0
    {
      if list != [] {
        PosGrows(bitsPerTile, list, |list| - 1);
      }
    }

    /** Reads what follows the size: the counts, the top, and the bytes of the log. */
    method ReadSaved(stream: MemStream, nBytes: nat, ghost ops: seq<Op>, ghost pos: nat) returns (bytes: seq<Byte>)
      requires stream.Valid() && |ops| == 5 && Holds(stream.Bits(), pos, ops) && stream.ReadPos() == EndOf(pos, ops[..1])
      requires ops[1].U16Op? && ops[2].U16Op? && ops[3].U32Op? && ops[4].BytesOp? && nBytes == |ops[4].bytes|
      requires Fits(ops[1]) && Fits(ops[2]) && Fits(ops[3])
      modifies this`highWaterMark, this`nEntries, this`top, stream`curReadPos, stream`nReadBits
      ensures stream.Valid() && bytes == ops[4].bytes
      ensures highWaterMark == ops[1].data && nEntries == ops[2].data && top == ops[3].data
    {
      hide LogBits, EntryFits, Flat, Holds, OpAt, EndOf, Fits;
      ghost var bits := stream.Bits();
      HoldsPart(bits, pos, ops, 1);
      HoldsPart(bits, pos, ops, 2);
      HoldsPart(bits, pos, ops, 3);
      HoldsPart(bits, pos, ops, 4);
      EndNext(pos, ops, 1);
      EndNext(pos, ops, 2);
      EndNext(pos, ops, 3);
      highWaterMark := GetU16(stream, ops[1].data);
      nEntries := GetU16(stream, ops[2].data);
      top := GetU32(stream, ops[3].data);
      bytes := GetSome(stream, nBytes, ops[4].bytes);
    }

    method ReadSize(stream: MemStream, ghost from: MoveStack) returns (nBytes: nat)
      requires stream.Valid() && stream != from.data && from.Valid() && Holds(stream.Bits(), stream.ReadPos(), from.Saved())
      requires from.data.nBytesWritten < 0x8000 && from.highWaterMark < 0x10000 && from.top < 0x100000000
      modifies stream`curReadPos, stream`nReadBits
      ensures stream.Valid() && stream.Bits() == old(stream.Bits())
      ensures nBytes == from.data.nBytesWritten && stream.ReadPos() == EndOf(old(stream.ReadPos()), from.Saved()[..1])
    {
      ghost var pos, ops := stream.ReadPos(), from.Saved();
      from.SavedFits();
      assert EndOf(pos, ops[..0]) == pos by { AtStart(pos); assert ops[..0] == []; }
      hide LogBits, EntryFits, Flat, Holds, OpAt, EndOf, Fits, Valid;
      HoldsPart(stream.Bits(), pos, ops, 0);
      EndNext(pos, ops, 0);
      nBytes := GetU16(stream, from.data.nBytesWritten);
    }

    /** Takes over what was written out: the same entries, the same ones current, the same tail. */
    method LoadFromStream(stream: MemStream, ghost from: MoveStack)
      requires StreamOk() && list == [] && cacheNext == 0 && data.nBytesWritten == 0 == top
      requires stream.Valid() && stream != data && from != this && from.data != data && from.data != stream
      requires from.Valid() && from.bitsPerTile == bitsPerTile && Holds(stream.Bits(), stream.ReadPos(), from.Saved())
      requires from.data.nBytesWritten < 0x8000 && from.highWaterMark < 0x10000 && from.top < 0x100000000
      modifies this, data, stream`curReadPos, stream`nReadBits
      ensures Valid() && list == from.list && nEntries == from.nEntries && highWaterMark == from.highWaterMark
    {
      hide LogBits, EntryFits, Flat, Holds, EndOf, Code;
      ghost var pos, ops := stream.ReadPos(), from.Saved();
      from.SavedFits();
      EmptyLog(bitsPerTile);
      var nBytes := ReadSize(stream, from);
      if nBytes > 0 {
        var loaded := ReadSaved(stream, nBytes, ops, pos);
        data.PutBytes(loaded);
        assert data.Bits() == from.data.Bits();
        list := from.list;
        assert list[..0] == [][..0] == [];
      } else {
        from.NothingStored();
      }
    }

    /** A copy has the same entries, the same ones current, and the same that can be redone. */
    method Copy() returns (newStack: MoveStack)
      requires Valid() && data.nBytesWritten < 0x8000 && highWaterMark < 0x10000 && top < 0x100000000
      modifies data`curReadPos, data`nReadBits
      ensures Valid() && newStack.Valid() && fresh(newStack) && fresh(newStack.data)
      ensures newStack.list == list && newStack.nEntries == nEntries && newStack.highWaterMark == highWaterMark
    {
      hide LogBits, EntryFits, Flat, Holds, OpAt, Image, Fits;
      var stream := new MemStream();
      WriteToStream(stream);
      WrittenHolds(stream, 0, Saved());
      newStack := new MoveStack(bitsPerTile);
      newStack.LoadFromStream(stream, this);
    }
  }
}
