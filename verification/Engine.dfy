/** The move generator of xwords4/common/engine.c. */
module Engine {
  import opened Dawg
  import opened Grid
  import opened Legal
  import opened MoveSearch
  import opened MoveGeometry
  import opened AnchorSearch
  import opened CrossChecks
  import opened SearchSpec
  import opened RowSearch
  import RuleBook

  /** How many of each tile there are. */
  function RackOf(tiles: seq<Tile>): (rack: Rack) {
    seq(MAX_UNIQUE_TILES + 1, t => multiset(tiles)[t])
  }

  /** No move has more tiles than a full tray. */
  function AtMost(nTiles: nat): nat {
    if nTiles < MAX_TRAY_TILES then nTiles else MAX_TRAY_TILES
  }

  lemma OneCounted(tiles: seq<Tile>, ii: nat)
    requires ii < |tiles| && tiles[ii] <= MAX_UNIQUE_TILES
    ensures RackOf(tiles[..ii + 1]) == RackOf(tiles[..ii])[tiles[ii] := RackOf(tiles[..ii])[tiles[ii]] + 1]
  {
    assert tiles[..ii + 1] == tiles[..ii] + [tiles[ii]];
  }

  class Engine {
    const dict: Dict
    const board: Board
    const values: seq<nat>
    const blankTile: nat
    const rack: array<nat>
    const blankValues: array<nat>
    const rowChecks: array<Crosscheck>
    const scoreCache: array<nat>
    var nTilesMax: nat
    var blankCount: nat
    var searchHorizontal: bool
    var considered: seq<Considered>

    ghost predicate Shape()
      reads rowChecks
    {
      && rack.Length == MAX_UNIQUE_TILES + 1 && blankTile <= MAX_UNIQUE_TILES && blankTile < |values|
      && blankValues.Length == MAX_TRAY_TILES
      && rack != blankValues && rack != scoreCache && blankValues != scoreCache
      && |board| <= MAX_ROWS && rowChecks.Length == scoreCache.Length == MAX_ROWS
      && (forall c :: 0 <= c < MAX_ROWS ==> |rowChecks[c].low| == |rowChecks[c].high| == 32)
      && (forall i :: 0 <= i < |dict.edges| ==> dict.edges[i].tile != blankTile)
    }

    /** The row now being searched, with the cross-checks worked out for it. */
    ghost function RowAt(row: nat): (r: Row)
      requires Shape() && row < |board|
      reads `searchHorizontal, rowChecks
      ensures RowOk(r)
    {
      Row(dict, RowOf(board, searchHorizontal, row),
          seq(|board|, c requires 0 <= c < |board| reads rowChecks requires Shape() => AllowedBy(rowChecks[c])),
          blankTile)
    }

    /** In the middle of a search of row `r` that began with `rack0`, with `k` tiles laid. */
    ghost predicate Searching(r: Row, row: nat, rack0: Rack, n0: nat, tiles: array<nat>, k: nat)
      reads this, rowChecks, rack, blankValues, tiles
    {
      && Shape() && row < |board| && r == RowAt(row)
      && tiles.Length == MAX_ROWS && tiles != rack && tiles != blankValues && tiles != scoreCache
      && k <= MAX_TRAY_TILES && blankCount <= MAX_TRAY_TILES
      && InHand(rack0, blankTile, n0, tiles[..k], rack[..], nTilesMax, blankValues[..blankCount])
    }

    /** A new engine, with nothing in the tray and nothing found. */
    constructor (dict: Dict, board: Board, values: seq<nat>, blankTile: nat)
      requires |board| <= MAX_ROWS && blankTile <= MAX_UNIQUE_TILES && blankTile < |values|
      requires forall i :: 0 <= i < |dict.edges| ==> dict.edges[i].tile != blankTile
      ensures Shape() && fresh(rack) && fresh(blankValues) && fresh(rowChecks) && fresh(scoreCache)
      ensures this.dict == dict && this.board == board && this.values == values && this.blankTile == blankTile
      ensures blankCount == 0 && considered == []
    {
      this.dict, this.board, this.values, this.blankTile := dict, board, values, blankTile;
      rack := new nat[MAX_UNIQUE_TILES + 1](_ => 0);
      blankValues := new nat[MAX_TRAY_TILES](_ => 0);
      rowChecks := new Crosscheck[MAX_ROWS](_ => NoBits());
      scoreCache := new nat[MAX_ROWS](_ => 0);
      nTilesMax, blankCount, searchHorizontal, considered := 0, 0, false, [];
    }

    /** Counts the tiles of a tray, if it has any. */
    method InitTray(tiles: seq<Tile>) returns (result: bool)
      requires rack.Length == MAX_UNIQUE_TILES + 1 && forall t :: t in tiles ==> t < MAX_UNIQUE_TILES
      modifies rack
      ensures result <==> tiles != []
      ensures rack[..] == if result then RackOf(tiles) else old(rack[..])
    {
      result := |tiles| > 0;
      if result {
        for t := 0 to rack.Length
          invariant forall k :: 0 <= k < t ==> rack[k] == 0
        {
          rack[t] := 0;
        }
        for ii := 0 to |tiles|
          invariant rack[..] == RackOf(tiles[..ii])
        {
          assert tiles[ii] in tiles;
          OneCounted(tiles, ii);
          rack[tiles[ii]] := rack[tiles[ii]] + 1;
        }
        assert tiles[..|tiles|] == tiles;
      }
    }

    /** Takes up a player's tiles; nothing can be found without any, or without a word. */
    method BeginSearch(tiles: seq<Tile>) returns (canMove: bool)
      requires Shape() && StarFirst(board) && |board| > 0 && blankCount == 0 && forall t :: t in tiles ==> t < MAX_UNIQUE_TILES
      modifies this`nTilesMax, rack
      ensures Shape() && (canMove <==> dict.top.At? && tiles != [])
      ensures canMove ==> Idle(RackOf(tiles), AtMost(|tiles|))
    {
      nTilesMax := AtMost(|tiles|);
      canMove := false;
      if dict.top.At? {
        canMove := InitTray(tiles);
      }
    }

    /** Take a tile from the rack, or a blank for it when there is none; fail when there is neither. */
    method RackRemove(tile: nat) returns (ok: bool, isBlank: bool)
      requires Shape() && nTilesMax > 0 && blankCount < MAX_TRAY_TILES
      requires tile < MAX_UNIQUE_TILES && tile != blankTile
      modifies rack, blankValues, this`nTilesMax, this`blankCount
      ensures ok == CanTake(old(rack[..]), blankTile, tile)
      ensures isBlank == (ok && old(rack[tile]) == 0)
      ensures rack[..] == if ok then Take(old(rack[..]), blankTile, tile) else old(rack[..])
      ensures nTilesMax == old(nTilesMax) - if ok then 1 else 0
      ensures blankCount == old(blankCount) + if isBlank then 1 else 0
      ensures blankValues[..blankCount] == old(blankValues[..blankCount]) + if isBlank then [tile] else []
    {
      isBlank := false;
      if rack[tile] > 0 {
        rack[tile] := rack[tile] - 1;
      } else if rack[blankTile] > 0 {
        rack[blankTile] := rack[blankTile] - 1;
        blankValues[blankCount] := tile;
        blankCount := blankCount + 1;
        isBlank := true;
      } else {
        return false, false;
      }
      nTilesMax := nTilesMax - 1;
      ok := true;
    }

    /** Undo RackRemove. */
    method RackReplace(tile0: nat, isBlank: bool)
      requires Shape() && tile0 < MAX_UNIQUE_TILES && (isBlank ==> 0 < blankCount <= MAX_TRAY_TILES)
      modifies rack, this`nTilesMax, this`blankCount
      ensures rack[..] == PutBack(old(rack[..]), if isBlank then blankTile else tile0)
      ensures nTilesMax == old(nTilesMax) + 1
      ensures blankCount == old(blankCount) - if isBlank then 1 else 0
    {
      var tile := tile0;
      if isBlank {
        blankCount := blankCount - 1;
        tile := blankTile;
      }
      rack[tile] := rack[tile] + 1;
      nTilesMax := nTilesMax + 1;
    }

    /** Hand a complete word on: pair the laid tiles with the bare squares they land on. */
    method ConsiderMove(tiles: array<nat>, tileLength: nat, firstCol: nat, lastRow: nat,
                        ghost r: Row, ghost rack0: Rack, ghost n0: nat)
      requires Searching(r, lastRow, rack0, n0, tiles, tileLength)
      requires firstCol <= |board| && |Spread(r.line, firstCol, tiles[..tileLength])| == tileLength
      modifies this`considered
      ensures considered == old(considered) +
              EntriesFor(searchHorizontal, lastRow, r, rack0, [Cand(firstCol, tiles[..tileLength])])
    {
      hide InHand, BlanksFor, Spread, AllowedBy;
      ghost var pre := tiles[..tileLength];
      InHandBlanks(rack0, blankTile, n0, pre, rack[..], nTilesMax, blankValues[..blankCount]);
      var placed := PairTiles(tiles[..tileLength], firstCol, lastRow);
      var move := Considered(MoveInfo(searchHorizontal, lastRow, placed), blankValues[..blankCount]);
      assert r.line == RowOf(board, searchHorizontal, lastRow);
      assert EntriesFor(searchHorizontal, lastRow, r, rack0, [Cand(firstCol, pre)]) == [move];
      considered := considered + [move];
    }

    method PairTiles(tiles: seq<Tile>, firstCol: nat, lastRow: nat) returns (placed: Placement)
      requires lastRow < |board| && firstCol <= |board|
      requires |Spread(RowOf(board, searchHorizontal, lastRow), firstCol, tiles)| == |tiles|
      ensures placed == Spread(RowOf(board, searchHorizontal, lastRow), firstCol, tiles)
    {
      hide Spread;
      ghost var l := RowOf(board, searchHorizontal, lastRow);
      placed := [];
      var col := firstCol;
      assert tiles[0..] == tiles;
      while |placed| < |tiles|
        invariant |placed| <= |tiles| && firstCol <= col <= |board|
        invariant placed + Spread(l, col, tiles[|placed|..]) == Spread(l, firstCol, tiles)
        decreases |board| - col
      {
        PairStep(l, col, tiles, |placed|);
        if Cell(board, searchHorizontal, col, lastRow).Empty? {
          placed := placed + [Placed(col, tiles[|placed|])];
        }
        col := col + 1;
      }
      PairStep(l, col, tiles, |placed|);
    }

    /** Extend the word from column `col` rightwards, over tiles on the board and with tiles from
        the rack, and consider every word met on the way. */
    method ExtendRight(tiles: array<nat>, tileLength: nat, edge0: Ptr, accepting0: bool, firstCol: nat,
                       col: nat, row: nat, ghost r: Row, ghost rack0: Rack, ghost n0: nat)
      returns (ghost found: seq<Cand>)
      requires Searching(r, row, rack0, n0, tiles, tileLength)
      requires NodePtr(dict, edge0)
      requires firstCol <= col <= |board| && tileLength <= Bare(r.line, firstCol, col)
      modifies rack, blankValues, tiles, this`nTilesMax, this`blankCount, this`considered
      ensures Searching(r, row, rack0, n0, tiles, tileLength)
      ensures tiles[..tileLength] == old(tiles[..tileLength]) && Unspent(old(rack[..]), old(nTilesMax), old(blankValues[..blankCount]))
      ensures considered == old(considered) + EntriesFor(searchHorizontal, row, r, rack0, found)
      ensures AllRight(found, r, edge0, accepting0, firstCol, col, old(tiles[..tileLength]), old(rack[..]), old(nTilesMax))
      decreases |board| - col, 1, 0
    {
      hide AllRight, AllRightMore, InHand, EntriesFor, AllowedBy;
      ghost var pre := tiles[..tileLength];
      ghost var rk := rack[..];
      ghost var n := nTilesMax;
      found := [];
      EntriesConcat(searchHorizontal, row, r, rack0, [], []);
      var accepting := accepting0;
      if col < |board| {
        var square := Cell(board, searchHorizontal, col, row);
        assert square == r.line[col];
        if edge0 == Null {
          if square.Filled? {
            RightSquare(r, edge0, accepting0, firstCol, col, pre, rk, n, []);
            return;
          }
        } else if square.Empty? {
          if nTilesMax > 0 {
            found := ExtendWithRack(tiles, tileLength, edge0.i, accepting0, firstCol, col, row, r, rack0, n0);
          }
        } else {
          var e := EdgeWithTile(dict, edge0.i, square.tile);
          if e != Null {
            accepting := dict.edges[e.i].accepting;
            BareNext(r.line, firstCol, col);
            found := ExtendRight(tiles, tileLength, Follow(dict, e.i), accepting, firstCol, col + 1, row, r, rack0, n0);
          }
          RightSquare(r, edge0, accepting0, firstCol, col, pre, rk, n, found);
          return;
        }
      }
      RightSquare(r, edge0, accepting0, firstCol, col, pre, rk, n, found);
      assert found + [] == found;
      if accepting {
        AllLand(r.line, firstCol, col, pre);
        ConsiderMove(tiles, tileLength, firstCol, row, r, rack0, n0);
        EntriesConcat(searchHorizontal, row, r, rack0, found, [Cand(firstCol, pre)]);
        found := found + [Cand(firstCol, pre)];
      }
    }

    ghost predicate Unspent(rack0: seq<nat>, n: nat, bs: seq<nat>)
      reads this, rack, blankValues
    {
      rack[..] == rack0 && nTilesMax == n && blankCount <= blankValues.Length && blankValues[..blankCount] == bs
    }

    /** Try each edge of a node whose tile the cross-check allows and the rack can supply. */
    method ExtendWithRack(tiles: array<nat>, tileLength: nat, first: nat, ghost accepting0: bool, firstCol: nat,
                          col: nat, row: nat, ghost r: Row, ghost rack0: Rack, ghost n0: nat)
      returns (ghost found: seq<Cand>)
      requires Searching(r, row, rack0, n0, tiles, tileLength) && nTilesMax > 0
      requires IsStart(dict.edges, first)
      requires firstCol <= col < |board| && tileLength <= Bare(r.line, firstCol, col) && r.line[col].Empty?
      modifies rack, blankValues, tiles, this`nTilesMax, this`blankCount, this`considered
      ensures Searching(r, row, rack0, n0, tiles, tileLength)
      ensures tiles[..tileLength] == old(tiles[..tileLength]) && Unspent(old(rack[..]), old(nTilesMax), old(blankValues[..blankCount]))
      ensures considered == old(considered) + EntriesFor(searchHorizontal, row, r, rack0, found)
      ensures AllRightMore(found, r, At(first), accepting0, firstCol, col, old(tiles[..tileLength]), old(rack[..]), old(nTilesMax))
      decreases |board| - col, 0, 1
    {
      hide AllRight, AllRightMore, AllRightBefore, InHand, EntriesFor;
      ghost var pre := tiles[..tileLength];
      ghost var rk := rack[..];
      ghost var n := nTilesMax;
      found := [];
      EntriesConcat(searchHorizontal, row, r, rack0, [], []);
      NoneBeforeNode(r, first, accepting0, firstCol, col, pre, rk, n);
      var edge := first;
      var check := rowChecks[col].low;
      var advanced := false;
      while true
        invariant Searching(r, row, rack0, n0, tiles, tileLength)
        invariant tiles[..tileLength] == pre && Unspent(rk, n, old(blankValues[..blankCount]))
        invariant considered == old(considered) + EntriesFor(searchHorizontal, row, r, rack0, found)
        invariant InRun(dict, first, edge)
        invariant check == if advanced then rowChecks[col].high else rowChecks[col].low
        invariant advanced ==> 32 <= dict.edges[edge].tile
        invariant AllRightBefore(found, r, At(first), accepting0, firstCol, col, pre, rk, n, edge)
        decreases |dict.edges| - edge
      {
        assert EdgeOk(dict, edge);
        var tile := dict.edges[edge].tile;
        var contains;
        if tile >= 32 {
          if !advanced {
            check := rowChecks[col].high;
            advanced := true;
          }
          contains := check[tile - 32];
        } else {
          contains := check[tile];
        }
        assert contains == (tile in r.allowed[col]);
        ghost var sub: seq<Cand> := [];
        if contains {
          sub := TryTile(tiles, tileLength, edge, firstCol, col, row, r, rack0, n0);
        }
        JoinEdge(r, first, accepting0, firstCol, col, pre, rk, n, edge, found, sub);
        EntriesConcat(searchHorizontal, row, r, rack0, found, sub);
        found := found + sub;
        if dict.edges[edge].last {
          AllEdgesDone(r, first, accepting0, firstCol, col, pre, rk, n, edge, found);
          break;
        }
        edge := edge + 1;
      }
    }

    /** Lay one tile, search on, and take it back. */
    method TryTile(tiles: array<nat>, tileLength: nat, edge: nat, firstCol: nat,
                   col: nat, row: nat, ghost r: Row, ghost rack0: Rack, ghost n0: nat)
      returns (ghost found: seq<Cand>)
      requires Searching(r, row, rack0, n0, tiles, tileLength) && nTilesMax > 0
      requires edge < |dict.edges| && dict.edges[edge].tile < MAX_UNIQUE_TILES
      requires firstCol <= col < |board| && tileLength <= Bare(r.line, firstCol, col) && r.line[col].Empty?
      modifies rack, blankValues, tiles, this`nTilesMax, this`blankCount, this`considered
      ensures Searching(r, row, rack0, n0, tiles, tileLength)
      ensures tiles[..tileLength] == old(tiles[..tileLength]) && Unspent(old(rack[..]), old(nTilesMax), old(blankValues[..blankCount]))
      ensures considered == old(considered) + EntriesFor(searchHorizontal, row, r, rack0, found)
      ensures var t := dict.edges[edge].tile;
              if CanTake(old(rack[..]), blankTile, t) then
                AllRight(found, r, Follow(dict, edge), dict.edges[edge].accepting, firstCol, col + 1,
                         old(tiles[..tileLength]) + [t], Take(old(rack[..]), blankTile, t), old(nTilesMax) - 1)
              else found == []
      decreases |board| - col, 0, 0
    {
      hide AllRight, EntriesFor, InHand;
      ghost var pre := tiles[..tileLength];
      ghost var rk := rack[..];
      ghost var bs := blankValues[..blankCount];
      ghost var t := dict.edges[edge].tile;
      found := [];
      EntriesConcat(searchHorizontal, row, r, rack0, [], []);
      var ok, isBlank := LayTile(tiles, tileLength, dict.edges[edge].tile, row, r, rack0, n0);
      if ok {
        BareNext(r.line, firstCol, col);
        found := ExtendRight(tiles, tileLength + 1, Follow(dict, edge), dict.edges[edge].accepting,
                             firstCol, col + 1, row, r, rack0, n0);
        LiftTile(tiles, tileLength, dict.edges[edge].tile, isBlank, row, r, rack0, n0, pre, rk, bs);
      }
    }

    /** Move one tile from the rack to the end of the tiles laid. */
    method LayTile(tiles: array<nat>, tileLength: nat, tile: nat, ghost row: nat,
                   ghost r: Row, ghost rack0: Rack, ghost n0: nat) returns (ok: bool, isBlank: bool)
      requires Searching(r, row, rack0, n0, tiles, tileLength) && nTilesMax > 0
      requires tile < MAX_UNIQUE_TILES && tile != blankTile
      modifies rack, blankValues, tiles, this`nTilesMax, this`blankCount
      ensures ok == CanTake(old(rack[..]), blankTile, tile)
      ensures !ok ==> Searching(r, row, rack0, n0, tiles, tileLength) && tiles[..] == old(tiles[..])
                      && Unspent(old(rack[..]), old(nTilesMax), old(blankValues[..blankCount]))
      ensures ok ==> Searching(r, row, rack0, n0, tiles, tileLength + 1) && isBlank == (old(rack[tile]) == 0)
                     && tiles[..tileLength + 1] == old(tiles[..tileLength]) + [tile]
                     && rack[..] == Take(old(rack[..]), blankTile, tile) && nTilesMax == old(nTilesMax) - 1
                     && blankCount <= MAX_TRAY_TILES
                     && blankValues[..blankCount] == old(blankValues[..blankCount]) + if isBlank then [tile] else []
    {
      hide InHand, Take, CanTake;
      ghost var pre := tiles[..tileLength];
      ghost var rk := rack[..];
      ghost var bs := blankValues[..blankCount];
      LayOne(rack0, blankTile, n0, pre, rk, nTilesMax, bs, tile);
      ok, isBlank := RackRemove(tile);
      assert blankValues[..blankCount] == if isBlank then bs + [tile] else bs;
      if ok {
        tiles[tileLength] := tile;
        assert tiles[..tileLength + 1] == pre + [tile];
      }
    }

    method LiftTile(tiles: array<nat>, tileLength: nat, tile: nat, isBlank: bool, ghost row: nat,
                    ghost r: Row, ghost rack0: Rack, ghost n0: nat,
                    ghost pre: seq<Tile>, ghost rk: Rack, ghost bs: seq<Tile>)
      requires Searching(r, row, rack0, n0, tiles, tileLength + 1)
      requires tile < MAX_UNIQUE_TILES && CanTake(rk, blankTile, tile) && isBlank == (rk[tile] == 0)
      requires |pre| == tileLength && tiles[..tileLength + 1] == pre + [tile]
      requires rack[..] == Take(rk, blankTile, tile)
      requires blankValues[..blankCount] == bs + if isBlank then [tile] else []
      requires InHand(rack0, blankTile, n0, pre, rk, nTilesMax + 1, bs)
      modifies rack, this`nTilesMax, this`blankCount
      ensures Searching(r, row, rack0, n0, tiles, tileLength) && tiles[..tileLength] == pre
      ensures rack[..] == rk && nTilesMax == old(nTilesMax) + 1
      ensures blankCount <= MAX_TRAY_TILES && blankValues[..blankCount] == bs
    {
      hide InHand, Take;
      RackReplace(tile, isBlank);
      PutBackUndoesTake(rk, blankTile, tile);
      assert tiles[..tileLength] == tiles[..tileLength + 1][..tileLength] == pre;
      assert blankValues[..blankCount] == bs;
    }

    /** Try every way of laying up to `limit` tiles on the bare squares left of the anchor, and
        extend each rightwards. */
    method LeftPart(tiles: array<nat>, tileLength: nat, edge0: Ptr, limit: nat, firstCol: nat,
                    anchorCol: nat, row: nat, ghost r: Row, ghost rack0: Rack, ghost n0: nat)
      returns (ghost found: seq<Cand>)
      requires Searching(r, row, rack0, n0, tiles, tileLength) && NodePtr(dict, edge0)
      requires anchorCol < |board| && firstCol + tileLength == anchorCol && limit <= firstCol
      requires forall k :: firstCol - limit <= k < anchorCol ==> r.line[k].Empty?
      modifies rack, blankValues, tiles, this`nTilesMax, this`blankCount, this`considered
      ensures Searching(r, row, rack0, n0, tiles, tileLength)
      ensures tiles[..tileLength] == old(tiles[..tileLength]) && Unspent(old(rack[..]), old(nTilesMax), old(blankValues[..blankCount]))
      ensures considered == old(considered) + EntriesFor(searchHorizontal, row, r, rack0, found)
      ensures AllLeft(found, r, edge0, limit, firstCol, anchorCol, old(tiles[..tileLength]), old(rack[..]), old(nTilesMax))
      decreases limit, 1
    {
      hide AllRight, AllLeft, AllLeftBefore, InHand, EntriesFor;
      ghost var pre := tiles[..tileLength];
      ghost var rk := rack[..];
      ghost var n := nTilesMax;
      BareAll(r.line, firstCol, anchorCol);
      ghost var right := ExtendRight(tiles, tileLength, edge0, false, firstCol, anchorCol, row, r, rack0, n0);
      ghost var left: seq<Cand> := [];
      EntriesConcat(searchHorizontal, row, r, rack0, right, left);
      ghost var last: nat := 0;
      if limit > 0 && edge0 != Null {
        if nTilesMax > 0 {
          var edge := edge0.i;
          NoneLeftBefore(r, edge0.i, limit, firstCol, anchorCol, pre, rk, n);
          while true
            invariant Searching(r, row, rack0, n0, tiles, tileLength)
            invariant tiles[..tileLength] == pre && Unspent(rk, n, old(blankValues[..blankCount]))
            invariant considered == old(considered) + EntriesFor(searchHorizontal, row, r, rack0, right + left)
            invariant InRun(dict, edge0.i, edge)
            invariant AllLeftBefore(left, r, edge0, limit, firstCol, anchorCol, pre, rk, n, edge)
            decreases |dict.edges| - edge
          {
            assert EdgeOk(dict, edge);
            ghost var sub := TryLeft(tiles, tileLength, edge, limit, firstCol, anchorCol, row, r, rack0, n0);
            JoinLeftEdge(r, edge0.i, limit, firstCol, anchorCol, pre, rk, n, edge, left, sub);
            EntriesConcat(searchHorizontal, row, r, rack0, right + left, sub);
            assert right + left + sub == right + (left + sub);
            left := left + sub;
            last := edge;
            if dict.edges[edge].last {
              break;
            }
            edge := edge + 1;
          }
        }
      }
      LeftDone(r, edge0, limit, firstCol, anchorCol, pre, rk, n, right, left, last);
      assert right + [] == right;
      found := right + left;
    }

    method TryLeft(tiles: array<nat>, tileLength: nat, edge: nat, limit: nat, firstCol: nat,
                   anchorCol: nat, row: nat, ghost r: Row, ghost rack0: Rack, ghost n0: nat)
      returns (ghost found: seq<Cand>)
      requires Searching(r, row, rack0, n0, tiles, tileLength) && nTilesMax > 0
      requires edge < |dict.edges| && dict.edges[edge].tile < MAX_UNIQUE_TILES
      requires anchorCol < |board| && firstCol + tileLength == anchorCol && 0 < limit <= firstCol
      requires forall k :: firstCol - limit <= k < anchorCol ==> r.line[k].Empty?
      modifies rack, blankValues, tiles, this`nTilesMax, this`blankCount, this`considered
      ensures Searching(r, row, rack0, n0, tiles, tileLength)
      ensures tiles[..tileLength] == old(tiles[..tileLength]) && Unspent(old(rack[..]), old(nTilesMax), old(blankValues[..blankCount]))
      ensures considered == old(considered) + EntriesFor(searchHorizontal, row, r, rack0, found)
      ensures var t := dict.edges[edge].tile;
              if CanTake(old(rack[..]), blankTile, t) then
                AllLeft(found, r, Follow(dict, edge), limit - 1, firstCol - 1, anchorCol,
                        old(tiles[..tileLength]) + [t], Take(old(rack[..]), blankTile, t), old(nTilesMax) - 1)
              else found == []
      decreases limit, 0
    {
      hide AllLeft, EntriesFor, InHand;
      ghost var pre := tiles[..tileLength];
      ghost var rk := rack[..];
      ghost var bs := blankValues[..blankCount];
      found := [];
      EntriesConcat(searchHorizontal, row, r, rack0, [], []);
      var ok, isBlank := LayTile(tiles, tileLength, dict.edges[edge].tile, row, r, rack0, n0);
      if ok {
        found := LeftPart(tiles, tileLength + 1, Follow(dict, edge), limit - 1, firstCol - 1, anchorCol, row, r, rack0, n0);
        LiftTile(tiles, tileLength, dict.edges[edge].tile, isBlank, row, r, rack0, n0, pre, rk, bs);
      }
    }

    method EdgeFromTile(from: Ptr, tile: nat) returns (edge: Ptr)
      requires from.At? && from.i < |dict.edges|
      ensures NodePtr(dict, edge)
      ensures edge == var e := EdgeFor(dict, from, tile); if e.Null? then Null else Follow(dict, e.i)
    {
      edge := EdgeWithTile(dict, from.i, tile);
      if edge != Null {
        edge := Follow(dict, edge.i);
      }
    }

    /** Work out which tiles fit the square (x, y) crosswise, and what its neighbours are worth. */
    method FigureCrosschecks(x: nat, y: nat) returns (score: nat, check: Crosscheck)
      requires Shape() && dict.top.At? && x < |board| && y < |board|
      ensures CrosscheckRight(dict, board, searchHorizontal, values, blankTile, x, y, check, score)
    {
      hide Accepts, Walk, CrosscheckRight, LeftEdge, RightEdge, Contains, Points;
      score := 0;
      check := NoBits();
      ghost var l := ColumnOf(board, searchHorizontal, x);
      if Cell(board, searchHorizontal, x, y).Filled? {
        NoneFit(dict, board, searchHorizontal, values, blankTile, x, y, score);
        return;
      }
      var startY: nat := y;
      while startY > 0 && Cell(board, searchHorizontal, x, startY - 1).Filled?
        invariant startY <= y
        invariant forall k :: startY <= k < y ==> l[k].Filled?
      {
        startY := startY - 1;
      }
      LeftEdgeIs(l, y, startY);
      if startY == y && (y == |board| - 1 || Cell(board, searchHorizontal, x, y + 1).Empty?) {
        RightEdgeIs(l, y + 1, y + 1);
        check := AllBits();
        AllFit(dict, board, searchHorizontal, values, blankTile, x, y);
        return;
      }
      var inEdge;
      inEdge, score := ConsumeAbove(x, startY, y);
      if inEdge == Null {
        NoneFit(dict, board, searchHorizontal, values, blankTile, x, y, score);
        return;
      }
      var below, after := ConsumeBelow(x, y);
      score := score + below;
      check := CheckCandidates(inEdge, after);
      SomeFit(dict, board, searchHorizontal, values, blankTile, x, y, check, score);
    }

    /** Collect the tiles below a square and what they are worth. */
    method ConsumeBelow(x: nat, y: nat) returns (score: nat, after: seq<Tile>)
      requires Shape() && x < |board| && y < |board|
      ensures var l := ColumnOf(board, searchHorizontal, x);
              var e := RightEdge(l, y + 1);
              after == Letters(l, y + 1, e) && score == Points(values, blankTile, l, y + 1, e)
    {
      ghost var l := ColumnOf(board, searchHorizontal, x);
      after := [];
      score := 0;
      var maybeY := y + 1;
      while maybeY < |board| && Cell(board, searchHorizontal, x, maybeY).Filled?
        invariant y + 1 <= maybeY <= |board|
        invariant forall k :: y + 1 <= k < maybeY ==> l[k].Filled?
        invariant after == Letters(l, y + 1, maybeY)
        invariant score == Points(values, blankTile, l, y + 1, maybeY)
      {
        PointsConcat(values, blankTile, l, y + 1, maybeY, maybeY + 1);
        var square := Cell(board, searchHorizontal, x, maybeY);
        score := score + SquareValue(values, blankTile, square);
        after := after + [square.tile];
        maybeY := maybeY + 1;
      }
      RightEdgeIs(l, y + 1, maybeY);
    }

    /** Walk the tiles above a square down into the dictionary, adding up what they are worth. */
    method ConsumeAbove(x: nat, startY: nat, y: nat) returns (inEdge: Ptr, score: nat)
      requires Shape() && dict.top.At? && x < |board| && startY <= y < |board|
      requires forall k :: startY <= k < y ==> Cell(board, searchHorizontal, x, k).Filled?
      ensures var l := ColumnOf(board, searchHorizontal, x);
              && inEdge == Walk(dict, dict.top, Letters(l, startY, y))
              && (startY == y ==> inEdge == dict.top)
              && (inEdge.At? ==> score == Points(values, blankTile, l, startY, y))
    {
      hide Walk, Points, Letters;
      ghost var l := ColumnOf(board, searchHorizontal, x);
      inEdge := dict.top;
      score := 0;
      var k := startY;
      StartAbove(dict, values, blankTile, l, startY);
      while k < y
        invariant startY <= k <= y && inEdge.At? && NodePtr(dict, inEdge)
        invariant inEdge == Walk(dict, dict.top, Letters(l, startY, k))
        invariant score == Points(values, blankTile, l, startY, k)
      {
        var square := Cell(board, searchHorizontal, x, k);
        score := score + SquareValue(values, blankTile, square);
        OneMoreAbove(dict, values, blankTile, l, startY, k);
        inEdge := EdgeFromTile(inEdge, square.tile);
        if inEdge == Null {
          LettersConcat(l, startY, k + 1, y);
          WalkConcat(dict, dict.top, Letters(l, startY, k + 1), Letters(l, k + 1, y));
          return;
        }
        k := k + 1;
      }
    }

    /** Set the bit of every tile that leads out of the node and on to a word. */
    method CheckCandidates(inEdge: Ptr, after: seq<Tile>) returns (check: Crosscheck)
      requires Shape() && inEdge.At? && NodePtr(dict, inEdge)
      ensures |check.low| == |check.high| == 32
      ensures forall t: nat :: t < MAX_UNIQUE_TILES ==> (Contains(check, t) <==> Accepts(dict, inEdge, [t] + after))
    {
      check := NoBits();
      var candidate := inEdge.i;
      while true
        invariant InRun(dict, inEdge.i, candidate) && |check.low| == |check.high| == 32
        invariant forall t: nat :: t < MAX_UNIQUE_TILES ==>
          (Contains(check, t) <==> Accepts(dict, inEdge, [t] + after) && EdgeFor(dict, inEdge, t).i < candidate)
        decreases |dict.edges| - candidate
      {
        assert EdgeOk(dict, candidate);
        var tile := dict.edges[candidate].tile;
        EdgeForIs(dict, inEdge, tile, candidate);
        var found := Lookup(dict, inEdge, [tile] + after);
        if found {
          check := if tile < 32 then check.(low := check.low[tile := true]) else check.(high := check.high[tile - 32 := true]);
        }
        forall t: nat | t < MAX_UNIQUE_TILES && Accepts(dict, inEdge, [t] + after)
          ensures EdgeFor(dict, inEdge, t).i == candidate <==> t == tile
        {
        }
        if dict.edges[candidate].last {
          break;
        }
        candidate := candidate + 1;
      }
    }

    /** Between searches: the rack is whole and nothing is laid. */
    ghost predicate Idle(rack0: Rack, n0: nat)
      reads this, rowChecks, rack
    {
      && Shape() && dict.top.At? && StarFirst(board) && |board| > 0
      && rack[..] == rack0 && nTilesMax == n0 <= MAX_TRAY_TILES && blankCount == 0
    }

    /** Is the square empty and next to a filled one, or the star of an empty board? */
    method IsAnchorSquare(isFirstMove: bool, col: nat, row: nat) returns (result: bool)
      requires col < |board| && row < |board| && isFirstMove == FirstMove(board)
      ensures result == IsAnchor(board, searchHorizontal, col, row)
    {
      if Cell(board, searchHorizontal, col, row).Filled? {
        return false;
      }
      if isFirstMove {
        return col == |board| / 2 && row == |board| / 2;
      }
      if col != 0 && Cell(board, searchHorizontal, col - 1, row).Filled? {
        return true;
      }
      if col < |board| - 1 && Cell(board, searchHorizontal, col + 1, row).Filled? {
        return true;
      }
      if row != 0 && Cell(board, searchHorizontal, col, row - 1).Filled? {
        return true;
      }
      if row < |board| - 1 && Cell(board, searchHorizontal, col, row + 1).Filled? {
        return true;
      }
      return false;
    }

    /** The tiles that stand just left of an anchor, nearest first. */
    method TilesLeftOf(col: nat, row: nat) returns (backwards: seq<Tile>)
      requires 0 < col < |board| && row < |board|
      ensures var l := RowOf(board, searchHorizontal, row);
              && |backwards| == col - LeftEdge(l, col)
              && forall k :: 0 <= k < |backwards| ==> backwards[k] == l[col - 1 - k].tile
    {
      ghost var l := RowOf(board, searchHorizontal, row);
      backwards := [];
      var maybeX: int := col - 1;
      while maybeX >= 0 && Cell(board, searchHorizontal, maybeX, row).Filled?
        invariant -1 <= maybeX < col && |backwards| == col - 1 - maybeX
        invariant forall k :: maybeX < k < col ==> l[k].Filled?
        invariant forall k :: 0 <= k < |backwards| ==> backwards[k] == l[col - 1 - k].tile
      {
        backwards := backwards + [Cell(board, searchHorizontal, maybeX, row).tile];
        maybeX := maybeX - 1;
      }
      LeftEdgeIs(l, col, maybeX + 1);
    }

    /** Walk the tiles that stand just left of an anchor down into the dictionary. */
    method ConsumeFromLeft(edge0: Ptr, col: nat, row: nat) returns (edge: Ptr)
      requires NodePtr(dict, edge0) && edge0.At? && 0 < col < |board| && row < |board|
      ensures var l := RowOf(board, searchHorizontal, row);
              edge == Walk(dict, edge0, Letters(l, LeftEdge(l, col), col))
      ensures NodePtr(dict, edge)
    {
      hide Walk, RowOf;
      ghost var l := RowOf(board, searchHorizontal, row);
      var backwards := TilesLeftOf(col, row);
      ghost var s := LeftEdge(l, col);
      edge := edge0;
      var numTiles := |backwards|;
      WalkNothing(dict, edge0);
      assert Letters(l, s, s) == [];
      while numTiles > 0
        invariant 0 <= numTiles <= |backwards| && edge.At? && NodePtr(dict, edge)
        invariant edge == Walk(dict, edge0, Letters(l, s, col - numTiles))
      {
        ghost var c := col - numTiles;
        numTiles := numTiles - 1;
        assert Letters(l, s, c + 1) == Letters(l, s, c) + [backwards[numTiles]];
        WalkMore(dict, edge0, Letters(l, s, c), backwards[numTiles]);
        edge := EdgeFromTile(edge, backwards[numTiles]);
        if edge == Null {
          LettersConcat(l, s, c + 1, col);
          WalkConcat(dict, edge0, Letters(l, s, c + 1), Letters(l, c + 1, col));
          break;
        }
      }
    }

    /** With the square before the anchor bare, words may begin left of it. */
    method FindWithLeftPart(tiles: array<Tile>, limit: nat, col: nat, row: nat, prevAnchor: int, ghost r: Row,
                            ghost anchors: seq<bool>, ghost rack0: Rack, ghost n0: nat) returns (ghost found: seq<Cand>)
      requires Idle(rack0, n0) && row < |board| && r == RowAt(row) && tiles.Length == MAX_ROWS
      requires Setting(r, anchors) && Consecutive(anchors, prevAnchor, col)
      requires 0 < col && Cell(board, searchHorizontal, col - 1, row).Empty? && limit == col - prevAnchor - 1
      requires tiles != rack && tiles != blankValues && tiles != scoreCache
      modifies rack, blankValues, tiles, this`nTilesMax, this`blankCount, this`considered
      ensures Idle(rack0, n0)
      ensures considered == old(considered) + EntriesFor(searchHorizontal, row, r, rack0, found)
      ensures NoDup(found) && forall c :: c in found <==> Considers(r, prevAnchor, col, rack0, n0, c)
    {
      hide AllLeft, Considers, Walk, EntriesFor, InHand, StarFirst, AllowedBy;
      EmptyHand(rack0, blankTile, n0);
      assert tiles[..0] == [] && blankValues[..0] == [];
      forall k | col - limit <= k < col
        ensures r.line[k].Empty?
      {
        BareBetween(r, anchors, prevAnchor, col, k);
      }
      WalkNothing(dict, dict.top);
      found := LeftPart(tiles, 0, dict.top, limit, col, col, row, r, rack0, n0);
      LeftIsConsiders(r, prevAnchor, col, rack0, n0, found);
      HandBack(rack0, blankTile, n0, rack[..], nTilesMax, blankValues[..blankCount]);
    }

    /** Everything that can be laid with this anchor as the leftmost one covered. */
    method FindMovesForAnchor(prevAnchor: int, col: nat, row: nat, ghost r: Row, ghost anchors: seq<bool>,
                              ghost rack0: Rack, ghost n0: nat) returns (ghost found: seq<Cand>)
      requires Idle(rack0, n0) && row < |board| && r == RowAt(row)
      requires Setting(r, anchors) && Consecutive(anchors, prevAnchor, col)
      modifies rack, blankValues, this`nTilesMax, this`blankCount, this`considered
      ensures Idle(rack0, n0)
      ensures considered == old(considered) + EntriesFor(searchHorizontal, row, r, rack0, found)
      ensures NoDup(found) && forall c :: c in found <==> Considers(r, prevAnchor, col, rack0, n0, c)
    {
      hide AllRight, Considers, Walk, EntriesFor, NextToFilled, AllowedBy, FirstMove, StarFirst, InHand, LeftEdge;
      assert r.line == RowOf(board, searchHorizontal, row) && -1 <= prevAnchor < col < |r.line|;
      EmptyHand(rack0, blankTile, n0);
      var tiles := new nat[MAX_ROWS];
      assert tiles[..0] == [] && blankValues[..0] == [];
      var limit := col - prevAnchor - 1;
      var edge := dict.top;
      if col == 0 {
        NothingBefore(dict, r.line);
      } else if Cell(board, searchHorizontal, col - 1, row).Empty? {
        found := FindWithLeftPart(tiles, limit, col, row, prevAnchor, r, anchors, rack0, n0);
        return;
      } else {
        edge := ConsumeFromLeft(dict.top, col, row);
      }
      assert edge == Walk(dict, dict.top, Letters(r.line, LeftEdge(r.line, col), col));
      found := ExtendRight(tiles, 0, edge, false, col - limit, col, row, r, rack0, n0);
      RightIsConsiders(r, prevAnchor, col, rack0, n0, edge, found);
      HandBack(rack0, blankTile, n0, rack[..], nTilesMax, blankValues[..blankCount]);
    }

    /** All the moves of one row. */
    method FindMovesOneRow(row: nat, isFirstMove: bool, ghost rack0: Rack, ghost n0: nat)
      returns (ghost ps: seq<Placement>)
      requires Idle(rack0, n0) && row < |board| && isFirstMove == FirstMove(board)
      modifies rack, blankValues, rowChecks, scoreCache, this`nTilesMax, this`blankCount, this`considered
      ensures Idle(rack0, n0)
      ensures considered == old(considered) + Entries(rack0, blankTile, RowMoves(searchHorizontal, row, ps))
      ensures NoDup(ps) && forall p: Placement :: p in ps <==>
        IsLegal(dict, board, searchHorizontal, row, rack0, blankTile, n0, p)
      ensures forall c :: 0 <= c < |board| ==>
        CrosscheckRight(dict, board, searchHorizontal, values, blankTile, c, row, rowChecks[c], scoreCache[c])
    {
      hide CrosscheckRight, IsLegal, Setting, ListsBefore, Checked;
      FigureRow(row, rack0, n0);
      ghost var r := RowAt(row);
      RowIsChecked(dict, board, searchHorizontal, values, row, r, rowChecks[..], scoreCache[..]);
      RowIsSetting(dict, board, searchHorizontal, row, r);
      ps := FindMovesFromAnchors(row, isFirstMove, r, rack0, n0);
      RowComplete(ps, dict, board, searchHorizontal, row, r, rack0, n0);
    }

    /** Search from each anchor of a row in turn. */
    method FindMovesFromAnchors(row: nat, isFirstMove: bool, ghost r: Row, ghost rack0: Rack, ghost n0: nat)
      returns (ghost ps: seq<Placement>)
      requires Idle(rack0, n0) && row < |board| && isFirstMove == FirstMove(board)
      requires r == RowAt(row) && Setting(r, Anchors(board, searchHorizontal, row))
      modifies rack, blankValues, this`nTilesMax, this`blankCount, this`considered
      ensures Idle(rack0, n0)
      ensures considered == old(considered) + Entries(rack0, blankTile, RowMoves(searchHorizontal, row, ps))
      ensures ListsBefore(ps, r, Anchors(board, searchHorizontal, row), rack0, n0, |board|)
    {
      hide Setting, ListsBefore, Consecutive, Considers, EntriesFor, Entries, RowMoves, FirstMove, StarFirst, IsAnchor;
      ghost var anchors := Anchors(board, searchHorizontal, row);
      ps := [];
      EntriesJoin(rack0, blankTile, [], []);
      RowMovesJoin(searchHorizontal, row, [], []);
      NoneBeforeStart(r, anchors, rack0, n0);
      var prevAnchor := -1;
      var col := 0;
      while col < |board|
        invariant 0 <= col <= |board| && Idle(rack0, n0) && r == RowAt(row)
        invariant -1 <= prevAnchor < col && (prevAnchor >= 0 ==> anchors[prevAnchor])
        invariant forall c :: prevAnchor < c < col ==> !anchors[c]
        invariant considered == old(considered) + Entries(rack0, blankTile, RowMoves(searchHorizontal, row, ps))
        invariant ListsBefore(ps, r, anchors, rack0, n0, col)
      {
        var isAnchor := IsAnchorSquare(isFirstMove, col, row);
        if isAnchor {
          AreConsecutive(anchors, prevAnchor, col);
          ghost var found := FindMovesForAnchor(prevAnchor, col, row, r, anchors, rack0, n0);
          JoinAnchor(r, anchors, prevAnchor, col, rack0, n0, ps, found);
          AnchorEntries(r, anchors, prevAnchor, col, rack0, n0, found, searchHorizontal, row);
          RowMovesJoin(searchHorizontal, row, ps, Landings(r, found));
          EntriesJoin(rack0, blankTile, RowMoves(searchHorizontal, row, ps), RowMoves(searchHorizontal, row, Landings(r, found)));
          ps := ps + Landings(r, found);
          prevAnchor := col;
        } else {
          SkipSquare(ps, r, anchors, rack0, n0, col);
        }
        col := col + 1;
      }
    }

    /** Work out the cross-checks of a row. */
    method FigureRow(row: nat, ghost rack0: Rack, ghost n0: nat)
      requires Idle(rack0, n0) && row < |board|
      modifies rowChecks, scoreCache
      ensures Idle(rack0, n0)
      ensures forall c :: 0 <= c < |board| ==>
        CrosscheckRight(dict, board, searchHorizontal, values, blankTile, c, row, rowChecks[c], scoreCache[c])
    {
      hide CrosscheckRight;
      var col := 0;
      while col < |board|
        invariant 0 <= col <= |board| && Idle(rack0, n0)
        invariant forall c :: 0 <= c < col ==>
          CrosscheckRight(dict, board, searchHorizontal, values, blankTile, c, row, rowChecks[c], scoreCache[c])
      {
        var score, check := FigureCrosschecks(col, row);
        CrosscheckShape(dict, board, searchHorizontal, values, blankTile, col, row, check, score);
        scoreCache[col] := score;
        rowChecks[col] := check;
        col := col + 1;
      }
    }

    /** The whole search: every row, and then every column. */
    method FindMoves(ghost rack0: Rack, ghost n0: nat) returns (ghost across: seq<MoveInfo>, ghost down: seq<MoveInfo>)
      requires Idle(rack0, n0)
      modifies this`considered, this`searchHorizontal, this`nTilesMax, this`blankCount
      modifies rack, blankValues, rowChecks, scoreCache
      ensures Idle(rack0, n0)
      ensures considered == old(considered) + Entries(rack0, blankTile, across + down)
      ensures ListsRows(across, dict, board, rack0, blankTile, n0, true, |board|)
      ensures ListsRows(down, dict, board, rack0, blankTile, n0, false, |board|)
      ensures NoDup(across) && forall m :: m in across <==> m.horizontal && RuleBook.ByRules(dict, board, rack0, blankTile, n0, m)
      ensures NoDup(down) && forall m :: m in down <==> !m.horizontal && RuleBook.ByRules(dict, board, rack0, blankTile, n0, m)
    {
      hide ListsRows, StarFirst, RuleBook.ByRules, Entries;
      var starRow := |board| / 2;
      var isFirstMove := Cell(board, searchHorizontal, starRow, starRow).Empty?;
      searchHorizontal := true;
      across := FindDirection(isFirstMove, rack0, n0);
      searchHorizontal := false;
      down := FindDirection(isFirstMove, rack0, n0);
      EntriesJoin(rack0, blankTile, across, down);
      ListedByRules(across, dict, board, rack0, blankTile, n0, true);
      ListedByRules(down, dict, board, rack0, blankTile, n0, false);
    }

    /** One row, unless it is the first move and another row has the star. */
    method FindMovesRowOrNone(curRow: nat, isFirstMove: bool, ghost rack0: Rack, ghost n0: nat)
      returns (ghost ps: seq<Placement>)
      requires Idle(rack0, n0) && curRow < |board| && isFirstMove == FirstMove(board)
      modifies this`considered, this`nTilesMax, this`blankCount, rack, blankValues, rowChecks, scoreCache
      ensures Idle(rack0, n0)
      ensures considered == old(considered) + Entries(rack0, blankTile, RowMoves(searchHorizontal, curRow, ps))
      ensures NoDup(ps) && forall p: Placement :: p in ps <==>
        IsLegal(dict, board, searchHorizontal, curRow, rack0, blankTile, n0, p)
    {
      hide IsLegal;
      if isFirstMove && curRow != |board| / 2 {
        ps := [];
        RowMovesJoin(searchHorizontal, curRow, [], []);
        EntriesJoin(rack0, blankTile, [], []);
        forall p {
          NoMovesOffStar(dict, board, rack0, blankTile, n0, searchHorizontal, curRow, p);
        }
      } else {
        ps := FindMovesOneRow(curRow, isFirstMove, rack0, n0);
      }
    }

    method FindDirection(isFirstMove: bool, ghost rack0: Rack, ghost n0: nat) returns (ghost ms: seq<MoveInfo>)
      requires Idle(rack0, n0) && isFirstMove == FirstMove(board)
      modifies this`considered, this`nTilesMax, this`blankCount, rack, blankValues, rowChecks, scoreCache
      ensures Idle(rack0, n0)
      ensures considered == old(considered) + Entries(rack0, blankTile, ms)
      ensures ListsRows(ms, dict, board, rack0, blankTile, n0, searchHorizontal, |board|)
    {
      hide IsLegal, LegalMove, ListsRows, Entries, RowMoves;
      ms := [];
      NoRowsYet(dict, board, rack0, blankTile, n0, searchHorizontal);
      EntriesJoin(rack0, blankTile, [], []);
      var curRow := 0;
      while curRow < |board|
        invariant 0 <= curRow <= |board| && Idle(rack0, n0)
        invariant considered == old(considered) + Entries(rack0, blankTile, ms)
        invariant ListsRows(ms, dict, board, rack0, blankTile, n0, searchHorizontal, curRow)
      {
        ghost var ps := FindMovesRowOrNone(curRow, isFirstMove, rack0, n0);
        JoinRow(ms, ps, dict, board, rack0, blankTile, n0, searchHorizontal, curRow);
        EntriesJoin(rack0, blankTile, ms, RowMoves(searchHorizontal, curRow, ps));
        ms := ms + RowMoves(searchHorizontal, curRow, ps);
        curRow := curRow + 1;
      }
    }
  }

  /** A list of the legal moves of all rows, or of all columns, is one of what the rules allow. */
  lemma ListedByRules(ms: seq<MoveInfo>, d: Dict, b: Board, rack: Rack, blank: nat, n: nat, horizontal: bool)
    requires blank < |rack| && StarFirst(b) && ListsRows(ms, d, b, rack, blank, n, horizontal, |b|)
    ensures NoDup(ms) && forall m :: m in ms <==> m.horizontal == horizontal && RuleBook.ByRules(d, b, rack, blank, n, m)
  {
    hide StarFirst, RuleBook.ByRules, IsLegal;
    forall m: MoveInfo
      ensures m in ms <==> m.horizontal == horizontal && RuleBook.ByRules(d, b, rack, blank, n, m)
    {
      RuleBook.RulesIff(d, b, rack, blank, n, m);
    }
  }

  lemma PairStep(l: Line, col: nat, tiles: seq<Tile>, j: nat)
    requires col <= |l| && j <= |tiles|
    ensures j == |tiles| || col == |l| ==> Spread(l, col, tiles[j..]) == []
    ensures j < |tiles| && col < |l| ==>
              Spread(l, col, tiles[j..]) ==
              if l[col].Filled? then Spread(l, col + 1, tiles[j..])
              else [Placed(col, tiles[j])] + Spread(l, col + 1, tiles[j + 1..])
  {
    if j < |tiles| {
      assert tiles[j..][1..] == tiles[j + 1..];
    }
  }

  lemma StartAbove(d: Dict, values: seq<nat>, blank: nat, l: Line, s: nat)
    requires s <= |l| && blank < |values|
    ensures Letters(l, s, s) == [] && Walk(d, d.top, []) == d.top && Points(values, blank, l, s, s) == 0
  {
  }

  /** One more tile down a column. */
  lemma OneMoreAbove(d: Dict, values: seq<nat>, blank: nat, l: Line, s: nat, k: nat)
    requires s <= k < |l| && blank < |values| && forall i :: s <= i <= k ==> l[i].Filled?
    ensures Points(values, blank, l, s, k + 1) == Points(values, blank, l, s, k) + SquareValue(values, blank, l[k])
    ensures var q := Walk(d, d.top, Letters(l, s, k));
            Walk(d, d.top, Letters(l, s, k + 1)) ==
            var e := EdgeFor(d, q, l[k].tile); if e.Null? then Null else Follow(d, e.i)
  {
    hide Walk, EdgeFor;
    PointsConcat(values, blank, l, s, k, k + 1);
    assert Letters(l, s, k + 1) == Letters(l, s, k) + [l[k].tile];
    WalkMore(d, d.top, Letters(l, s, k), l[k].tile);
  }

  lemma NoRowsYet(d: Dict, b: Board, rack: Rack, blank: nat, n: nat, horizontal: bool)
    requires blank < |rack|
    ensures ListsRows([], d, b, rack, blank, n, horizontal, 0)
  {
  }

  lemma WalkNothing(d: Dict, p: Ptr)
    requires NodePtr(d, p)
    ensures Walk(d, p, []) == p
  {
  }

  lemma NothingBefore(d: Dict, l: Line)
    ensures Walk(d, d.top, Letters(l, LeftEdge(l, 0), 0)) == d.top
  {
  }

  lemma EmptyHand(rack0: Rack, blank: nat, n0: nat)
    requires blank <= MAX_UNIQUE_TILES && n0 <= MAX_TRAY_TILES
    ensures InHand(rack0, blank, n0, [], rack0, n0, [])
  {
  }

  lemma HandBack(rack0: Rack, blank: nat, n0: nat, rack: seq<nat>, n: nat, bs: seq<Tile>)
    requires blank <= MAX_UNIQUE_TILES && InHand(rack0, blank, n0, [], rack, n, bs)
    ensures rack == rack0 && n == n0 <= MAX_TRAY_TILES && bs == []
  {
  }

  lemma LeftIsConsiders(r: Row, prev: int, a: nat, rack: Rack, n: nat, found: seq<Cand>)
    requires RowOk(r) && -1 <= prev < a < |r.line| && 0 < a && r.line[a - 1].Empty?
    requires AllLeft(found, r, r.d.top, a - prev - 1, a, a, [], rack, n)
    ensures NoDup(found) && forall c :: c in found <==> Considers(r, prev, a, rack, n, c)
  {
    forall c: Cand
      ensures c.tiles[0..] == c.tiles && Continues([], c.tiles)
    {
    }
  }

  lemma RightIsConsiders(r: Row, prev: int, a: nat, rack: Rack, n: nat, edge: Ptr, found: seq<Cand>)
    requires RowOk(r) && -1 <= prev < a < |r.line| && !(0 < a && r.line[a - 1].Empty?)
    requires edge == Walk(r.d, r.d.top, Letters(r.line, LeftEdge(r.line, a), a))
    requires AllRight(found, r, edge, false, prev + 1, a, [], rack, n)
    ensures NoDup(found) && forall c :: c in found <==> Considers(r, prev, a, rack, n, c)
  {
    forall c: Cand
      ensures c.tiles[0..] == c.tiles && Continues([], c.tiles)
    {
    }
  }

  lemma CrosscheckShape(d: Dict, b: Board, horizontal: bool, values: seq<nat>, blank: nat,
                        col: nat, row: nat, check: Crosscheck, score: nat)
    requires col < |b| && row < |b| && blank < |values|
    requires CrosscheckRight(d, b, horizontal, values, blank, col, row, check, score)
    ensures |check.low| == |check.high| == 32
  {
  }

  lemma RowIsChecked(d: Dict, b: Board, horizontal: bool, values: seq<nat>, row: nat, r: Row,
                     checks: seq<Crosscheck>, scores: seq<nat>)
    requires row < |b| && |b| <= |checks| == |scores| && RowOk(r) && r.d == d && r.line == RowOf(b, horizontal, row)
    requires r.blank < |values|
    requires forall c :: 0 <= c < |b| ==> CrosscheckRight(d, b, horizontal, values, r.blank, c, row, checks[c], scores[c])
    requires forall c :: 0 <= c < |b| ==> |checks[c].low| == |checks[c].high| == 32 && r.allowed[c] == AllowedBy(checks[c])
    ensures Checked(d, b, horizontal, row, r)
  {
    hide CrossOk;
    forall c, t: nat | 0 <= c < |b| && r.line[c].Empty?
      ensures t in r.allowed[c] <==> t < MAX_UNIQUE_TILES && CrossOk(d, b, horizontal, c, row, t)
    {
      assert CrosscheckRight(d, b, horizontal, values, r.blank, c, row, checks[c], scores[c]);
    }
  }

  lemma NoneBeforeStart(r: Row, anchors: seq<bool>, rack: Rack, n: nat)
    requires r.blank < |rack| && |r.allowed| == |r.line|
    ensures ListsBefore([], r, anchors, rack, n, 0)
  {
  }

  lemma AreConsecutive(anchors: seq<bool>, prev: int, a: nat)
    requires -1 <= prev < a < |anchors| && anchors[a] && (prev >= 0 ==> anchors[prev])
    requires forall c :: prev < c < a ==> !anchors[c]
    ensures Consecutive(anchors, prev, a)
  {
  }
}
