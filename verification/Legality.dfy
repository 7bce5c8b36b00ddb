/** Which placements of tiles are moves (xwords4/common/mscore.c, `tilesInLine`, `normalizeMI` and
    `isLegalMove`). */
module Legality {
  import opened Dawg
  import opened Grid
  import opened Score

  /** A tile a player has put on the board but not yet committed. */
  datatype PendingTile = PendingTile(col: nat, row: nat, tile: Tile, blank: bool)

  function VarCoord(horizontal: bool, pt: PendingTile): nat {
    if horizontal then pt.col else pt.row
  }

  function CommonCoord(horizontal: bool, pt: PendingTile): nat {
    if horizontal then pt.row else pt.col
  }

  function AsMoveTile(horizontal: bool, pt: PendingTile): MoveTile {
    MoveTile(VarCoord(horizontal, pt), pt.tile, pt.blank)
  }

  predicate InOneLine(pending: seq<PendingTile>, horizontal: bool) {
    forall k :: 0 <= k < |pending| ==> CommonCoord(horizontal, pending[k]) == CommonCoord(horizontal, pending[0])
  }

  /** A single tile counts as vertical. */
  method TilesInLine(pending: seq<PendingTile>) returns (inLine: bool, isHorizontal: bool)
    ensures inLine <==> InOneLine(pending, true) || InOneLine(pending, false)
    ensures isHorizontal <==> !InOneLine(pending, false)
  {
    var xIsCommon, yIsCommon := true, true;
    if pending != [] {
      var commonX, commonY := pending[0].col, pending[0].row;
      var ii := 1;
      while ii < |pending|
        invariant 1 <= ii <= |pending|
        invariant xIsCommon <==> forall k :: 0 <= k < ii ==> pending[k].col == commonX
        invariant yIsCommon <==> forall k :: 0 <= k < ii ==> pending[k].row == commonY
      {
        if xIsCommon && pending[ii].col != commonX {
          xIsCommon := false;
        }
        if yIsCommon && pending[ii].row != commonY {
          yIsCommon := false;
        }
        ii := ii + 1;
      }
      assert InOneLine(pending, false) <==> forall k :: 0 <= k < |pending| ==> pending[k].col == commonX;
      assert InOneLine(pending, true) <==> forall k :: 0 <= k < |pending| ==> pending[k].row == commonY;
    }
    isHorizontal := !xIsCommon;
    inLine := xIsCommon || yIsCommon;
  }

  predicate Distinct(ts: seq<MoveTile>) {
    forall j, k :: 0 <= j < k < |ts| ==> ts[j].varCoord != ts[k].varCoord
  }

  /** The same tiles in another order. */
  ghost predicate SameTiles(ts: seq<MoveTile>, us: seq<MoveTile>) {
    |ts| == |us| && forall t :: t in ts <==> t in us
  }

  function CountUpTo(ts: seq<MoveTile>, limit: int): nat {
    if ts == [] then 0
    else CountUpTo(ts[..|ts| - 1], limit) + if ts[|ts| - 1].varCoord <= limit then 1 else 0
  }

  lemma {:induction false} CountIsAll(ts: seq<MoveTile>, limit: int)
    ensures CountUpTo(ts, limit) <= |ts|
    ensures CountUpTo(ts, limit) == |ts| <==> forall k :: 0 <= k < |ts| ==> ts[k].varCoord <= limit
  {
    if ts != [] {
      var us := ts[..|ts| - 1];
      CountIsAll(us, limit);
      assert forall k :: 0 <= k < |us| ==> us[k] == ts[k];
    }
  }

  lemma {:induction false} CountNone(ts: seq<MoveTile>, limit: int)
    requires forall k :: 0 <= k < |ts| ==> limit < ts[k].varCoord
    ensures CountUpTo(ts, limit) == 0
  {
    if ts != [] {
      CountNone(ts[..|ts| - 1], limit);
    }
  }

  ghost predicate LowestAbove(ts: seq<MoveTile>, limit: int, lowest: int) {
    limit < lowest && forall k :: 0 <= k < |ts| && limit < ts[k].varCoord ==> lowest <= ts[k].varCoord
  }

  lemma {:induction false} CountSame(ts: seq<MoveTile>, limit: int, lowest: int)
    requires LowestAbove(ts, limit, lowest) && forall k :: 0 <= k < |ts| ==> ts[k].varCoord != lowest
    ensures CountUpTo(ts, lowest) == CountUpTo(ts, limit)
  {
    if ts != [] {
      var us := ts[..|ts| - 1];
      assert forall k :: 0 <= k < |us| ==> us[k] == ts[k];
      CountSame(us, limit, lowest);
    }
  }

  lemma {:induction false} CountOneMore(ts: seq<MoveTile>, limit: int, index: nat)
    requires Distinct(ts) && index < |ts| && LowestAbove(ts, limit, ts[index].varCoord)
    ensures CountUpTo(ts, ts[index].varCoord) == CountUpTo(ts, limit) + 1
  {
    var us := ts[..|ts| - 1];
    assert forall k :: 0 <= k < |us| ==> us[k] == ts[k];
    if index < |us| {
      CountOneMore(us, limit, index);
    } else {
      CountSame(us, limit, ts[index].varCoord);
    }
  }

  method FindLowest(ts: seq<MoveTile>, lastTaken: int) returns (lowIndex: nat)
    requires forall k :: 0 <= k < |ts| ==> ts[k].varCoord < 100
    requires exists k :: 0 <= k < |ts| && lastTaken < ts[k].varCoord
    ensures lowIndex < |ts| && LowestAbove(ts, lastTaken, ts[lowIndex].varCoord)
  {
    var lowest := 100;
    lowIndex := 100;
    var jj := 0;
    while jj < |ts|
      invariant 0 <= jj <= |ts|
      invariant lowest <= 100
      invariant lowest < 100 ==> lowIndex < jj && ts[lowIndex].varCoord == lowest && lastTaken < lowest
      invariant forall k :: 0 <= k < jj && lastTaken < ts[k].varCoord ==> lowest <= ts[k].varCoord
    {
      var cur := ts[jj].varCoord;
      if cur < lowest && cur > lastTaken {
        lowest, lowIndex := cur, jj;
      }
      jj := jj + 1;
    }
  }

  /** Repeatedly takes the lowest coordinate not yet taken: the same tiles, in order. */
  method NormalizeMI(moveIn: seq<MoveTile>) returns (out: seq<MoveTile>)
    requires Distinct(moveIn) && forall k :: 0 <= k < |moveIn| ==> moveIn[k].varCoord < 100
    ensures Ascending(out) && SameTiles(moveIn, out)
  {
    hide CountUpTo;
    var lastTaken: int := -1;
    out := [];
    CountNone(moveIn, -1);
    while |out| < |moveIn|
      invariant |out| <= |moveIn| && |out| == CountUpTo(moveIn, lastTaken)
      invariant forall t :: t in out ==> t in moveIn && t.varCoord <= lastTaken
      invariant forall k :: 0 <= k < |moveIn| && moveIn[k].varCoord <= lastTaken ==> moveIn[k] in out
      invariant Ascending(out)
    {
      CountIsAll(moveIn, lastTaken);
      var lowIndex := FindLowest(moveIn, lastTaken);
      CountOneMore(moveIn, lastTaken, lowIndex);
      ghost var before := out;
      out := out + [moveIn[lowIndex]];
      assert forall t :: t in out <==> t in before || t == moveIn[lowIndex];
      lastTaken := moveIn[lowIndex].varCoord;
    }
    CountIsAll(moveIn, lastTaken);
  }

  // What a legal placement is.

  predicate IsEmptyAt(b: Board, horizontal: bool, c: nat, r: nat) {
    !(c < |b| && r < |b| && Cell(b, horizontal, c, r).Filled?)
  }

  /** A tile played earlier stands there; the move's own tiles do not count, on the board or off it. */
  predicate EarlierTile(b: Board, mv: Move, c: nat, r: nat) {
    !OwnSquare(mv, c, r) && !IsEmptyAt(b, mv.horizontal, c, r)
  }

  predicate HasContact(b: Board, mv: Move, c: nat) {
    || (0 < c && EarlierTile(b, mv, c - 1, mv.common))
    || EarlierTile(b, mv, c + 1, mv.common)
    || (0 < mv.common && EarlierTile(b, mv, c, mv.common - 1))
    || EarlierTile(b, mv, c, mv.common + 1)
  }

  ghost predicate Touches(b: Board, mv: Move) {
    exists k :: 0 <= k < |mv.tiles| && HasContact(b, mv, mv.tiles[k].varCoord)
  }

  predicate TakenBeside(b: Board, horizontal: bool, low: nat, high: nat, r: nat) {
    exists c :: low <= c <= high && !IsEmptyAt(b, horizontal, c, r)
  }

  predicate OnStar(n: nat, mv: Move) {
    mv.common == n / 2 && Covers(mv.tiles, n / 2)
  }

  /** New and earlier tiles leave no gap between the ends, and either a new tile adjoins an earlier one
      or the move opens the game: at least two tiles, one of them on the star. */
  ghost predicate IsLegal(b: Board, mv: Move)
    requires OnBoard(|b|, mv)
  {
    && NoGaps(RowOf(b, mv.horizontal, mv.common), mv.tiles)
    && (Touches(b, mv) || (OnStar(|b|, mv) && 1 < |mv.tiles|))
  }

  lemma {:induction false} Spread(ts: seq<MoveTile>, k: nat)
    requires Ascending(ts) && k < |ts|
    ensures ts[0].varCoord + k <= ts[k].varCoord
  {
    if k > 0 {
      Spread(ts, k - 1);
    }
  }

  lemma {:induction false} SpreadDown(ts: seq<MoveTile>, k: nat)
    requires Ascending(ts) && k < |ts|
    ensures ts[k].varCoord + (|ts| - 1 - k) <= ts[|ts| - 1].varCoord
    decreases |ts| - k
  {
    if k + 1 < |ts| {
      SpreadDown(ts, k + 1);
    }
  }

  /** As many tiles as squares from end to end: the new tiles are side by side. */
  lemma SideBySide(ts: seq<MoveTile>)
    requires Ascending(ts) && ts != [] && ts[|ts| - 1].varCoord - ts[0].varCoord + 1 <= |ts|
    ensures forall c :: ts[0].varCoord <= c <= ts[|ts| - 1].varCoord ==> Covers(ts, c)
  {
    forall c | ts[0].varCoord <= c <= ts[|ts| - 1].varCoord
      ensures Covers(ts, c)
    {
      var k := c - ts[0].varCoord;
      Spread(ts, k);
      SpreadDown(ts, k);
    }
  }

  /** More squares than tiles: some new tile is followed by a square that is not new. */
  lemma {:induction false} SomeGap(ts: seq<MoveTile>, n: nat) returns (k: nat)
    requires Ascending(ts) && 0 < n <= |ts| && ts[n - 1].varCoord - ts[0].varCoord + 1 > n
    ensures k + 1 < n && ts[k].varCoord + 1 < ts[k + 1].varCoord && !Covers(ts, ts[k].varCoord + 1)
  {
    if ts[n - 2].varCoord + 1 < ts[n - 1].varCoord {
      k := n - 2;
    } else {
      k := SomeGap(ts, n - 1);
    }
  }

  lemma GapTouches(b: Board, mv: Move)
    requires OnBoard(|b|, mv) && Ascending(mv.tiles)
    requires NoGaps(RowOf(b, mv.horizontal, mv.common), mv.tiles)
    requires mv.tiles[|mv.tiles| - 1].varCoord - mv.tiles[0].varCoord + 1 > |mv.tiles|
    ensures Touches(b, mv)
  {
    var ts := mv.tiles;
    var k := SomeGap(ts, |ts|);
    var c := ts[k].varCoord;
    LayAt(RowOf(b, mv.horizontal, mv.common), ts, c + 1);
    assert EarlierTile(b, mv, c + 1, mv.common);
    assert HasContact(b, mv, c);
  }

  /** Whether any square beside the new tiles, in line `r`, is taken. */
  method AnyTaken(b: Board, horizontal: bool, low: nat, high: nat, r: nat) returns (any: bool)
    requires low <= high
    ensures any <==> TakenBeside(b, horizontal, low, high, r)
  {
    var c := low;
    while c <= high
      invariant low <= c <= high + 1
      invariant forall x :: low <= x < c ==> IsEmptyAt(b, horizontal, x, r)
    {
      if !IsEmptyAt(b, horizontal, c, r) {
        return true;
      }
      c := c + 1;
    }
    return false;
  }

  method NoEmptiesBetween(b: Board, mv: Move) returns (none: bool)
    requires OnBoard(|b|, mv) && Ascending(mv.tiles) && mv.tiles != []
    ensures none <==> NoGaps(RowOf(b, mv.horizontal, mv.common), mv.tiles)
  {
    hide Lay, Reached, Covers;
    var ts := mv.tiles;
    ghost var l := RowOf(b, mv.horizontal, mv.common);
    var low, high := ts[0].varCoord, ts[|ts| - 1].varCoord;
    var taken, c := 0, low;
    StartsBefore(ts, low);
    while c <= high
      invariant low <= c <= high + 1
      invariant Reached(ts, taken, c) && taken <= |ts|
      invariant forall x :: low <= x < c ==> Lay(l, ts)[x].Filled?
    {
      ReachedStep(ts, taken, c);
      LayAt(l, ts, c);
      if taken < |ts| && ts[taken].varCoord == c {
        taken := taken + 1;
      } else if IsEmptyAt(b, mv.horizontal, c, mv.common) {
        return false;
      }
      c := c + 1;
    }
    return true;
  }

  /** With the new tiles side by side, the squares beside them are these. */
  lemma ContactSquares(b: Board, mv: Move)
    requires OnBoard(|b|, mv) && Ascending(mv.tiles) && mv.tiles != []
    requires mv.tiles[|mv.tiles| - 1].varCoord - mv.tiles[0].varCoord + 1 <= |mv.tiles|
    ensures var low, high := mv.tiles[0].varCoord, mv.tiles[|mv.tiles| - 1].varCoord;
            Touches(b, mv) <==>
              || (0 < low && !IsEmptyAt(b, mv.horizontal, low - 1, mv.common))
              || !IsEmptyAt(b, mv.horizontal, high + 1, mv.common)
              || (0 < mv.common && TakenBeside(b, mv.horizontal, low, high, mv.common - 1))
              || TakenBeside(b, mv.horizontal, low, high, mv.common + 1)
  {
    hide IsEmptyAt;
    var ts := mv.tiles;
    var low, high := ts[0].varCoord, ts[|ts| - 1].varCoord;
    SideBySide(ts);
    assert forall c: nat :: Covers(ts, c) <==> low <= c <= high;
    if 0 < low && !IsEmptyAt(b, mv.horizontal, low - 1, mv.common) {
      assert HasContact(b, mv, ts[0].varCoord);
    }
    if !IsEmptyAt(b, mv.horizontal, high + 1, mv.common) {
      assert HasContact(b, mv, ts[|ts| - 1].varCoord);
    }
    if 0 < mv.common && TakenBeside(b, mv.horizontal, low, high, mv.common - 1) {
      var c: nat :| low <= c <= high && !IsEmptyAt(b, mv.horizontal, c, mv.common - 1);
      assert Covers(ts, c) && HasContact(b, mv, c);
    }
    if TakenBeside(b, mv.horizontal, low, high, mv.common + 1) {
      var c: nat :| low <= c <= high && !IsEmptyAt(b, mv.horizontal, c, mv.common + 1);
      assert Covers(ts, c) && HasContact(b, mv, c);
    }
  }

  lemma SideBySideNoGaps(l: Line, ts: seq<MoveTile>)
    requires InLine(|l|, ts) && Ascending(ts) && ts != []
    requires ts[|ts| - 1].varCoord - ts[0].varCoord + 1 <= |ts|
    ensures NoGaps(l, ts)
  {
    SideBySide(ts);
    forall c | ts[0].varCoord <= c <= ts[|ts| - 1].varCoord
      ensures Lay(l, ts)[c].Filled?
    {
      LayAt(l, ts, c);
      assert Covers(ts, c);
    }
  }

  /** At least two tiles, side by side, one of them on the centre square. */
  ghost predicate OpensGame(n: nat, mv: Move) {
    && 2 <= |mv.tiles| && mv.common == n / 2
    && Adjoining(mv.tiles)
    && exists k :: 0 <= k < |mv.tiles| && mv.tiles[k].varCoord == n / 2
  }

  lemma BareTouchesNothing(b: Board, mv: Move)
    requires BareBoard(b)
    ensures !Touches(b, mv)
  {
  }

  predicate Adjoining(ts: seq<MoveTile>) {
    forall k {:trigger ts[k]} :: 0 < k < |ts| ==> ts[k].varCoord == ts[k - 1].varCoord + 1
  }

  /** On a bare board the tiles themselves must leave no gap. */
  lemma BareNoGaps(b: Board, mv: Move)
    requires OnBoard(|b|, mv) && Ascending(mv.tiles) && mv.tiles != [] && BareBoard(b)
    ensures NoGaps(RowOf(b, mv.horizontal, mv.common), mv.tiles) <==> Adjoining(mv.tiles)
  {
    hide Lay, Covers, Adjoining, Ascending, BareBoard, RowOf;
    var l, ts := RowOf(b, mv.horizontal, mv.common), mv.tiles;
    forall c | 0 <= c < |b|
      ensures Lay(l, ts)[c].Filled? <==> Covers(ts, c)
    {
      LaidOnBare(b, mv, c);
    }
    if Adjoining(ts) {
      OneByOne(ts, |ts| - 1);
      SideBySide(ts);
    }
    if NoGaps(l, ts) {
      NoneBetween(ts);
    }
  }

  lemma LaidOnBare(b: Board, mv: Move, c: nat)
    requires OnBoard(|b|, mv) && Ascending(mv.tiles) && BareBoard(b) && c < |b|
    ensures Lay(RowOf(b, mv.horizontal, mv.common), mv.tiles)[c].Filled? <==> Covers(mv.tiles, c)
  {
    hide Lay;
    var l, ts := RowOf(b, mv.horizontal, mv.common), mv.tiles;
    LayAt(l, ts, c);
    assert l[c] == Cell(b, mv.horizontal, c, mv.common);
    if Covers(ts, c) {
      var k :| 0 <= k < |ts| && ts[k].varCoord == c;
      assert Lay(l, ts)[c] == TileSquare(ts[k]);
    }
  }

  lemma NoneBetween(ts: seq<MoveTile>)
    requires Ascending(ts) && ts != []
    requires forall c :: ts[0].varCoord <= c <= ts[|ts| - 1].varCoord ==> Covers(ts, c)
    ensures Adjoining(ts)
  {
    forall k | 0 < k < |ts|
      ensures ts[k].varCoord == ts[k - 1].varCoord + 1
    {
      assert Covers(ts, ts[k - 1].varCoord + 1);
    }
  }

  lemma {:induction false} OneByOne(ts: seq<MoveTile>, n: nat)
    requires n < |ts| && Adjoining(ts)
    ensures ts[n].varCoord == ts[0].varCoord + n
  {
    if n > 0 {
      OneByOne(ts, n - 1);
    }
  }

  lemma OpensIff(b: Board, mv: Move)
    requires OnBoard(|b|, mv) && Ascending(mv.tiles) && mv.tiles != [] && BareBoard(b)
    ensures IsLegal(b, mv) <==> OpensGame(|b|, mv)
  {
    hide NoGaps, Touches, BareBoard, Adjoining, RowOf;
    BareTouchesNothing(b, mv);
    BareNoGaps(b, mv);
  }

  /** Decides legality exactly. A move with earlier tiles between its ends is not checked for contact,
      because it has it. */
  method IsLegalMove(b: Board, mv: Move) returns (result: bool)
    requires OnBoard(|b|, mv) && Ascending(mv.tiles) && mv.tiles != [] && |b| <= MAX_ROWS
    ensures result <==> IsLegal(b, mv)
    ensures BareBoard(b) ==> (result <==> OpensGame(|b|, mv))
  {
    hide NoGaps, Touches, OpensGame, BareBoard;
    if BareBoard(b) {
      OpensIff(b, mv);
    }
    var ts, horizontal, commonCoord := mv.tiles, mv.horizontal, mv.common;
    var nTiles, starRow := |ts|, |b| / 2;
    var low, high := ts[0].varCoord, ts[nTiles - 1].varCoord;
    if high - low + 1 > nTiles {
      result := NoEmptiesBetween(b, mv);
      if result {
        GapTouches(b, mv);
      }
      return;
    }
    SideBySideNoGaps(RowOf(b, horizontal, commonCoord), ts);
    ContactSquares(b, mv);
    if low != 0 {
      if !IsEmptyAt(b, horizontal, low - 1, commonCoord) {
        return true;
      }
    }
    if high != MAX_ROWS - 1 {
      if !IsEmptyAt(b, horizontal, high + 1, commonCoord) {
        return true;
      }
    }
    if commonCoord != 0 {
      var above := AnyTaken(b, horizontal, low, high, commonCoord - 1);
      if above {
        return true;
      }
    }
    if commonCoord <= MAX_ROWS - 1 {
      var below := AnyTaken(b, horizontal, low, high, commonCoord + 1);
      if below {
        return true;
      }
    }
    SideBySide(ts);
    if commonCoord == starRow && low <= starRow && high >= starRow {
      return nTiles > 1;
    } else {
      return false;
    }
  }

  /** Which tiles are laid makes no difference, only where. */
  lemma LegalIgnoresLetters(b: Board, mv: Move, other: Move)
    requires OnBoard(|b|, mv) && Ascending(mv.tiles) && |other.tiles| == |mv.tiles|
    requires other.horizontal == mv.horizontal && other.common == mv.common
    requires forall k :: 0 <= k < |mv.tiles| ==> other.tiles[k].varCoord == mv.tiles[k].varCoord
    ensures OnBoard(|b|, other) && (IsLegal(b, other) <==> IsLegal(b, mv))
  {
    hide Lay;
    var l, ts, us := RowOf(b, mv.horizontal, mv.common), mv.tiles, other.tiles;
    forall c: nat
      ensures Covers(us, c) <==> Covers(ts, c)
      ensures c < |b| ==> (Lay(l, us)[c].Filled? <==> Lay(l, ts)[c].Filled?)
    {
      if c < |b| {
        LayAt(l, ts, c);
        LayAt(l, us, c);
      }
      if Covers(us, c) {
        var k :| 0 <= k < |us| && us[k].varCoord == c;
        assert ts[k].varCoord == c;
      }
      if Covers(ts, c) {
        var k :| 0 <= k < |ts| && ts[k].varCoord == c;
        assert us[k].varCoord == c;
      }
    }
    assert forall c: nat :: HasContact(b, other, c) <==> HasContact(b, mv, c);
  }

  lemma LegalIgnoresOwnSquares(b: Board, b': Board, mv: Move)
    requires OnBoard(|b|, mv) && Ascending(mv.tiles) && SameElsewhere(b, b', mv)
    ensures IsLegal(b, mv) <==> IsLegal(b', mv)
  {
    hide Lay;
    LaySame(b, b', mv);
    assert forall c: nat, r: nat :: EarlierTile(b, mv, c, r) <==> EarlierTile(b', mv, c, r);
    assert forall c: nat :: HasContact(b, mv, c) <==> HasContact(b', mv, c);
  }
}
