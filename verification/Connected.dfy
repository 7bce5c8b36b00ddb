/** The committed squares of a game are empty or one connected region that holds the star. */
module Connected {
  import opened Dawg
  import opened Grid
  import opened Score
  import opened Legality
  import opened GameLog
  import Legal

  predicate Adjacent(p: Pos, q: Pos) {
    || (p.row == q.row && (p.col + 1 == q.col || q.col + 1 == p.col))
    || (p.col == q.col && (p.row + 1 == q.row || q.row + 1 == p.row))
  }

  function Star(n: nat): Pos {
    Pos(n / 2, n / 2)
  }

  ghost predicate IsPath(stones: Stones, path: seq<Pos>) {
    && path != []
    && (forall k :: 0 <= k < |path| ==> path[k] in stones)
    && forall k :: 0 <= k < |path| - 1 ==> Adjacent(path[k], path[k + 1])
  }

  ghost predicate Joins(stones: Stones, path: seq<Pos>, p: Pos, q: Pos) {
    IsPath(stones, path) && path[0] == p && path[|path| - 1] == q
  }

  /** One can walk from `p` to `q` over stones, a square at a time. */
  ghost predicate Reaches(stones: Stones, p: Pos, q: Pos) {
    exists path :: Joins(stones, path, p, q)
  }

  ghost predicate OneRegion(n: nat, stones: Stones) {
    stones != map[] ==>
      Star(n) in stones && forall p :: p in stones ==> Reaches(stones, Star(n), p)
  }

  lemma ReachesSelf(stones: Stones, p: Pos)
    requires p in stones
    ensures Reaches(stones, p, p)
  {
    assert Joins(stones, [p], p, p);
  }

  lemma ReachesNext(stones: Stones, p: Pos, q: Pos, r: Pos)
    requires Reaches(stones, p, q) && r in stones && Adjacent(q, r)
    ensures Reaches(stones, p, r)
  {
    var path :| Joins(stones, path, p, q);
    assert Joins(stones, path + [r], p, r);
  }

  lemma ReachesMore(stones: Stones, more: Stones, p: Pos, q: Pos)
    requires Reaches(stones, p, q) && forall r :: r in stones ==> r in more
    ensures Reaches(more, p, q)
  {
    var path :| Joins(stones, path, p, q);
    assert Joins(more, path, p, q);
  }

  ghost predicate FilledLine(stones: Stones, horizontal: bool, r: nat, lo: nat, hi: nat) {
    forall c :: lo <= c <= hi ==> PosAt(horizontal, c, r) in stones
  }

  lemma {:induction false} AlongLine(stones: Stones, horizontal: bool, r: nat, lo: nat, hi: nat, p: Pos, a: nat, c: nat)
    requires FilledLine(stones, horizontal, r, lo, hi) && lo <= a <= hi && lo <= c <= hi
    requires Reaches(stones, p, PosAt(horizontal, a, r))
    ensures Reaches(stones, p, PosAt(horizontal, c, r))
    decreases if a < c then c - a else a - c
  {
    hide Reaches;
    if a < c {
      ReachesNext(stones, p, PosAt(horizontal, a, r), PosAt(horizontal, a + 1, r));
      AlongLine(stones, horizontal, r, lo, hi, p, a + 1, c);
    } else if c < a {
      ReachesNext(stones, p, PosAt(horizontal, a, r), PosAt(horizontal, a - 1, r));
      AlongLine(stones, horizontal, r, lo, hi, p, a - 1, c);
    }
  }

  /** After a legal move the line is filled from its first new tile to its last. */
  lemma NewLineFilled(s: Setup, g: Game, e: Entry)
    requires ValidEntry(s, g, e) && e.MoveEntry? && e.mv.tiles != []
    ensures var ts := e.mv.tiles;
            FilledLine(Apply(s, g, e).stones, e.mv.horizontal, e.mv.common, ts[0].varCoord, ts[|ts| - 1].varCoord)
  {
    hide Place, Lay, BoardOf, RackTiles, Scored, Touches;
    var mv, ts := e.mv, e.mv.tiles;
    var b := BoardOf(s.size, g.stones);
    assert NoGaps(RowOf(b, mv.horizontal, mv.common), ts);
    forall c | ts[0].varCoord <= c <= ts[|ts| - 1].varCoord
      ensures PosAt(mv.horizontal, c, mv.common) in Apply(s, g, e).stones
    {
      LayAt(RowOf(b, mv.horizontal, mv.common), ts, c);
      PlaceAt(g.stones, e.player, mv.horizontal, mv.common, ts, PosAt(mv.horizontal, c, mv.common));
    }
  }

  lemma EarlierStone(n: nat, stones: Stones, mv: Move, c: nat, r: nat)
    requires EarlierTile(BoardOf(n, stones), mv, c, r)
    ensures PosAt(mv.horizontal, c, r) in stones
  {
  }

  /** A new tile that touches: it lies next to some earlier stone. */
  lemma TouchedStone(n: nat, stones: Stones, mv: Move) returns (k: nat, q: Pos)
    requires Touches(BoardOf(n, stones), mv)
    ensures k < |mv.tiles| && q in stones && Adjacent(q, PosAt(mv.horizontal, mv.tiles[k].varCoord, mv.common))
  {
    hide BoardOf, EarlierTile;
    var b := BoardOf(n, stones);
    k :| 0 <= k < |mv.tiles| && HasContact(b, mv, mv.tiles[k].varCoord);
    var c, r := mv.tiles[k].varCoord, mv.common;
    if 0 < c && EarlierTile(b, mv, c - 1, r) {
      EarlierStone(n, stones, mv, c - 1, r);
      q := PosAt(mv.horizontal, c - 1, r);
    } else if EarlierTile(b, mv, c + 1, r) {
      EarlierStone(n, stones, mv, c + 1, r);
      q := PosAt(mv.horizontal, c + 1, r);
    } else if 0 < r && EarlierTile(b, mv, c, r - 1) {
      EarlierStone(n, stones, mv, c, r - 1);
      q := PosAt(mv.horizontal, c, r - 1);
    } else {
      EarlierStone(n, stones, mv, c, r + 1);
      q := PosAt(mv.horizontal, c, r + 1);
    }
  }

  lemma PlacedAll(stones: Stones, owner: nat, mv: Move)
    requires Ascending(mv.tiles)
    ensures var placed := Place(stones, owner, mv.horizontal, mv.common, mv.tiles);
            forall p :: p in placed <==> p in stones || IsNew(mv, p)
  {
    hide Place;
    forall p: Pos
      ensures p in Place(stones, owner, mv.horizontal, mv.common, mv.tiles) <==> p in stones || IsNew(mv, p)
    {
      PlaceAt(stones, owner, mv.horizontal, mv.common, mv.tiles, p);
    }
  }

  /** Some new tile can be reached from the star once the move is on the board. */
  lemma SomeNewReached(s: Setup, g: Game, e: Entry) returns (k: nat)
    requires ValidEntry(s, g, e) && e.MoveEntry? && e.mv.tiles != [] && OneRegion(s.size, g.stones)
    ensures k < |e.mv.tiles| && Star(s.size) in Apply(s, g, e).stones
    ensures Reaches(Apply(s, g, e).stones, Star(s.size), PosAt(e.mv.horizontal, e.mv.tiles[k].varCoord, e.mv.common))
  {
    hide Place, BoardOf, Reaches, RackTiles, Scored, NoGaps, Touches, OnBare;
    var mv, after := e.mv, Apply(s, g, e).stones;
    var b := BoardOf(s.size, g.stones);
    PlacedAll(g.stones, e.player, mv);
    assert forall j :: 0 <= j < |mv.tiles| ==> IsNew(mv, PosAt(mv.horizontal, mv.tiles[j].varCoord, mv.common));
    if Touches(b, mv) {
      var q;
      k, q := TouchedStone(s.size, g.stones, mv);
      ReachesMore(g.stones, after, Star(s.size), q);
      ReachesNext(after, Star(s.size), q, PosAt(mv.horizontal, mv.tiles[k].varCoord, mv.common));
    } else {
      assert OnStar(s.size, mv);
      k :| 0 <= k < |mv.tiles| && mv.tiles[k].varCoord == s.size / 2;
      ReachesSelf(after, Star(s.size));
    }
  }

  lemma PassKeepsStones(s: Setup, g: Game, e: Entry)
    requires ValidEntry(s, g, e) && !(e.MoveEntry? && e.mv.tiles != [])
    ensures Apply(s, g, e).stones == g.stones
  {
  }

  lemma MoveKeepsRegion(s: Setup, g: Game, e: Entry)
    requires ValidEntry(s, g, e) && OneRegion(s.size, g.stones)
    ensures OneRegion(s.size, Apply(s, g, e).stones)
  {
    hide Place, BoardOf, Reaches, RackTiles, Scored, NoGaps, Touches, OnBare;
    if e.MoveEntry? && e.mv.tiles != [] {
      var mv, after, star := e.mv, Apply(s, g, e).stones, Star(s.size);
      var ts := mv.tiles;
      NewLineFilled(s, g, e);
      PlacedAll(g.stones, e.player, mv);
      var k := SomeNewReached(s, g, e);
      forall p | p in after
        ensures Reaches(after, star, p)
      {
        if p in g.stones {
          ReachesMore(g.stones, after, star, p);
        } else {
          AlongLine(after, mv.horizontal, mv.common, ts[0].varCoord, ts[|ts| - 1].varCoord, star,
                    ts[k].varCoord, Along(mv.horizontal, p));
        }
      }
    } else {
      PassKeepsStones(s, g, e);
    }
  }

  /** At every point of every game, with any number of moves undone, the stones are one connected region
      holding the star, or there are none. */
  lemma {:induction false} AlwaysOneRegion(s: Setup, log: seq<Entry>)
    requires Replay(s, log).Some?
    ensures OneRegion(s.size, Replay(s, log).value.stones)
    decreases |log|
  {
    hide ValidEntry, Apply, OneRegion;
    if log == [] {
      assert OneRegion(s.size, map[]) by { NoStones(s.size); }
    } else {
      var before := log[..|log| - 1];
      AlwaysOneRegion(s, before);
      MoveKeepsRegion(s, Replay(s, before).value, log[|log| - 1]);
    }
  }

  lemma NoStones(n: nat)
    ensures OneRegion(n, map[])
  {
  }

  /** So the star is bare only on an empty board, which is what the move generator takes for granted when
      it makes the star its only anchor. */
  lemma StarOpens(s: Setup, log: seq<Entry>)
    requires Replay(s, log).Some?
    ensures Legal.StarFirst(BoardOf(s.size, Replay(s, log).value.stones))
  {
    hide Reaches;
    var stones := Replay(s, log).value.stones;
    var b := BoardOf(s.size, stones);
    AlwaysOneRegion(s, log);
    assert forall r, c :: 0 <= r < s.size && 0 <= c < s.size ==> b[r][c] == Cell(b, true, c, r);
  }

  lemma TwoApart(stones: Stones, p: Pos, q: Pos)
    requires p in stones && q in stones && p != q
    ensures 2 <= |stones|
  {
    assert stones.Keys == {p} + (stones.Keys - {p});
    assert q in stones.Keys - {p};
  }

  ghost predicate HasTwo(stones: Stones) {
    exists p, q :: p in stones && q in stones && p != q
  }

  lemma MoveKeepsTwo(s: Setup, g: Game, e: Entry)
    requires ValidEntry(s, g, e) && (g.stones == map[] || HasTwo(g.stones))
    ensures var after := Apply(s, g, e).stones; after == map[] || HasTwo(after)
  {
    hide Place, BoardOf, RackTiles, Scored, NoGaps, OnBare;
    if e.MoveEntry? && e.mv.tiles != [] {
      var mv, ts := e.mv, e.mv.tiles;
      PlacedAll(g.stones, e.player, mv);
      assert forall j :: 0 <= j < |ts| ==> IsNew(mv, PosAt(mv.horizontal, ts[j].varCoord, mv.common));
      if g.stones == map[] {
        NoneToTouch(s.size, mv);
        assert PosAt(mv.horizontal, ts[0].varCoord, mv.common) != PosAt(mv.horizontal, ts[1].varCoord, mv.common);
      }
    } else {
      PassKeepsStones(s, g, e);
    }
  }

  lemma NoneToTouch(n: nat, mv: Move)
    ensures !Touches(BoardOf(n, map[]), mv)
  {
    var b := BoardOf(n, map[]);
    assert forall r, c :: 0 <= r < n && 0 <= c < n ==> b[r][c] == Cell(b, true, c, r);
    BareTouchesNothing(b, mv);
  }

  /** No game ever has just one stone: the move that opens it lays two at least. */
  lemma {:induction false} NeverOneStone(s: Setup, log: seq<Entry>)
    requires Replay(s, log).Some?
    ensures |Replay(s, log).value.stones| != 1
  {
    var stones := Replay(s, log).value.stones;
    NoneOrTwo(s, log);
    if stones != map[] {
      var p, q :| p in stones && q in stones && p != q;
      TwoApart(stones, p, q);
    }
  }

  lemma {:induction false} NoneOrTwo(s: Setup, log: seq<Entry>)
    requires Replay(s, log).Some?
    ensures var stones := Replay(s, log).value.stones; stones == map[] || HasTwo(stones)
    decreases |log|
  {
    hide ValidEntry, Apply, HasTwo;
    if log != [] {
      var before := log[..|log| - 1];
      NoneOrTwo(s, before);
      MoveKeepsTwo(s, Replay(s, before).value, log[|log| - 1]);
    }
  }
}
