/** What a game logs fits the bit fields the log is stored in: `Model` and `MoveStack` speak of the same
    entries. */
module LogStorage {
  import opened Dawg
  import opened Grid
  import opened Score
  import opened GameLog
  import opened MemStream
  import opened MoveStack

  predicate SmallHands(g: Game) {
    forall i :: 0 <= i < |g.hands| ==> |g.hands[i]| <= MAX_TRAY_TILES
  }

  /** No player has ever held more than a tray of tiles. */
  ghost predicate SmallThroughout(s: Setup, log: seq<Entry>) {
    && Replay(s, log).Some? && SmallHands(Replay(s, log).value)
    && (log != [] ==> SmallThroughout(s, log[..|log| - 1]))
  }

  /** The set of letters and the width a tile is stored in, for a dictionary of `nFaces` letters. */
  ghost predicate Stocked(s: Setup, nFaces: nat, bpt: nat) {
    && s.nPlayers <= 4 && nFaces <= Pow2(bpt) && nFaces <= Pow2(TILE_NBITS)
    && forall t :: t in s.letters ==> t < nFaces
  }

  /** A blank shows a letter of the dictionary. */
  predicate BlanksShow(nFaces: nat, mv: Move) {
    forall k :: 0 <= k < |mv.tiles| && mv.tiles[k].blank ==> mv.tiles[k].tile < nFaces
  }

  predicate EntryShows(nFaces: nat, e: Entry) {
    e.MoveEntry? || e.PhonyEntry? ==> BlanksShow(nFaces, e.mv)
  }

  lemma Widths()
    ensures Pow2(2) == 4 && Pow2(NTILES_NBITS) == 8 && Pow2(NUMCOLS_NBITS_5) == 32
  {
    assert Pow2(1) == 2 && Pow2(2) == 4 && Pow2(3) == 8 && Pow2(4) == 16;
  }

  lemma FromBag(ts: seq<Tile>, bag: multiset<Tile>, t: Tile)
    requires multiset(ts) <= bag && t in ts
    ensures t in bag
  {
    assert t in multiset(ts);
    assert multiset(ts)[t] <= bag[t];
  }

  /** Tiles taken from among the letters, no more than a tray of them, fit. */
  lemma TilesFitIn(s: Setup, nFaces: nat, bpt: nat, bag: multiset<Tile>, ts: seq<Tile>)
    requires Stocked(s, nFaces, bpt) && multiset(ts) <= bag <= s.letters && |ts| <= MAX_TRAY_TILES
    ensures TilesFit(ts)
  {
    hide Pow2;
    Widths();
    forall k | 0 <= k < |ts|
      ensures ts[k] < Pow2(TILE_NBITS)
    {
      FromBag(ts, bag, ts[k]);
      assert ts[k] in s.letters by {
        assert bag[ts[k]] <= s.letters[ts[k]];
      }
    }
  }

  lemma {:induction false} RackTilesHas(rules: Rules, ts: seq<MoveTile>, k: nat)
    requires k < |ts|
    ensures RackTile(rules, ts[k].tile, ts[k].blank) in RackTiles(rules, ts)
  {
    if k < |ts| - 1 {
      RackTilesHas(rules, ts[..|ts| - 1], k);
    }
  }

  lemma {:induction false} RackTilesCount(rules: Rules, ts: seq<MoveTile>)
    ensures |RackTiles(rules, ts)| == |ts|
  {
    if ts != [] {
      RackTilesCount(rules, ts[..|ts| - 1]);
    }
  }

  lemma BagSizes(a: multiset<Tile>, b: multiset<Tile>)
    requires a <= b
    ensures |a| <= |b|
  {
    assert b == a + (b - a);
  }

  lemma MoveFitsIn(s: Setup, nFaces: nat, bpt: nat, g: Game, player: nat, mv: Move)
    requires Stocked(s, nFaces, bpt) && Playable(s, g, player, mv) && BlanksShow(nFaces, mv)
    requires SmallHands(g) && g.hands[player] <= s.letters
    ensures MoveFits(bpt, mv)
  {
    hide Pow2;
    Widths();
    var tiles := RackTiles(s.rules, mv.tiles);
    RackTilesCount(s.rules, mv.tiles);
    BagSizes(tiles, g.hands[player]);
    forall k | 0 <= k < |mv.tiles|
      ensures MoveTileFits(bpt, mv.tiles[k])
    {
      if !mv.tiles[k].blank {
        RackTilesHas(s.rules, mv.tiles, k);
        assert tiles[mv.tiles[k].tile] <= g.hands[player][mv.tiles[k].tile] <= s.letters[mv.tiles[k].tile];
      }
    }
  }

  /** An entry that can be logged, between two states in which every hand fits a tray, fits its bit fields. */
  lemma EntryFitsIn(s: Setup, nFaces: nat, bpt: nat, g: Game, e: Entry)
    requires Stocked(s, nFaces, bpt) && ValidEntry(s, g, e) && EntryShows(nFaces, e)
    requires SmallHands(g) && SmallHands(Apply(s, g, e))
    requires g.pool <= s.letters && forall i :: 0 <= i < |g.hands| ==> g.hands[i] <= s.letters
    ensures EntryFits(bpt, e)
  {
    hide Pow2, Playable, Stocked, TilesFit, MoveFits, BlanksShow, Scored, Place;
    Widths();
    assert s.nPlayers <= 4 by {
      FewPlayers(s, nFaces, bpt);
    }
    var after := Apply(s, g, e).hands[e.player];
    assert |after| <= MAX_TRAY_TILES;
    match e {
      case AssignEntry(_, tiles) =>
        BagSizes(multiset(tiles), after);
        TilesFitIn(s, nFaces, bpt, g.pool, tiles);
      case MoveEntry(player, mv, newTiles) =>
        BagSizes(multiset(newTiles), after);
        TilesFitIn(s, nFaces, bpt, g.pool, newTiles);
        MoveFitsIn(s, nFaces, bpt, g, player, mv);
      case TradeEntry(player, oldTiles, newTiles) =>
        BagSizes(multiset(newTiles), after);
        TilesFitIn(s, nFaces, bpt, g.pool, newTiles);
        TilesFitIn(s, nFaces, bpt, g.hands[player], oldTiles);
      case PhonyEntry(player, mv) =>
        MoveFitsIn(s, nFaces, bpt, g, player, mv);
    }
  }

  lemma FewPlayers(s: Setup, nFaces: nat, bpt: nat)
    requires Stocked(s, nFaces, bpt)
    ensures s.nPlayers <= 4
  {
  }

  /** Every log of a game in which nobody holds more than a tray of tiles can be stored. */
  lemma {:induction false} LogFits(s: Setup, nFaces: nat, bpt: nat, log: seq<Entry>)
    requires Stocked(s, nFaces, bpt) && SmallThroughout(s, log)
    requires forall e :: e in log ==> EntryShows(nFaces, e)
    ensures forall e :: e in log ==> EntryFits(bpt, e)
    decreases |log|
  {
    hide Stocked, EntryShows, EntryFits, SmallHands, ValidEntry, Apply;
    if log != [] {
      var n := |log| - 1;
      LogFits(s, nFaces, bpt, log[..n]);
      WithinLetters(s, log[..n]);
      EntryFitsIn(s, nFaces, bpt, Replay(s, log[..n]).value, log[n]);
      assert log == log[..n] + [log[n]];
    }
  }
}
