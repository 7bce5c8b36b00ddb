/** A player's side of a game (PlayerCtxt of xwords4/common/modelp.h): tray, tiles pending on the board,
    and tiles taken back that can be put down again. */
module TurnState {
  import opened Dawg
  import opened Grid
  import opened Score
  import opened Legality
  import opened GameLog

  /** `pending` and `undone` are the two parts of the source's `pendingTiles` buffer: `undone` follows
      `pending` in it. */
  datatype Player = Player(score: int, curMoveScore: int, curMoveValid: bool,
                           tray: seq<Tile>, pending: seq<PendingTile>, undone: seq<PendingTile>)

  const ILLEGAL_MOVE_SCORE := -1

  function PosOf(pt: PendingTile): Pos {
    Pos(pt.col, pt.row)
  }

  function Squares(pending: seq<PendingTile>): (ps: seq<Pos>)
    ensures |ps| == |pending|
    ensures forall k :: 0 <= k < |pending| ==> ps[k] == PosOf(pending[k])
  {
    seq(|pending|, k requires 0 <= k < |pending| => PosOf(pending[k]))
  }

  predicate DistinctSquares(pending: seq<PendingTile>) {
    forall j, k :: 0 <= j < k < |pending| ==> PosOf(pending[j]) != PosOf(pending[k])
  }

  lemma LessLast<T>(a: seq<T>, b: seq<T>)
    requires b != []
    ensures (a + b)[..|a + b| - 1] == a + b[..|b| - 1] && (a + b)[|a + b| - 1] == b[|b| - 1]
  {
  }

  lemma SplitAround<T>(s: seq<T>, i: nat)
    requires i < |s|
    ensures s == s[..i] + [s[i]] + s[i + 1..]
  {
  }

  function RemoveAt<T>(s: seq<T>, i: nat): (r: seq<T>)
    requires i < |s|
    ensures |r| == |s| - 1
    ensures multiset(r) + multiset{s[i]} == multiset(s)
  {
    SplitAround(s, i);
    s[..i] + s[i + 1..]
  }

  /** What the pending tiles are in the tray. */
  function PendingTiles(rules: Rules, pending: seq<PendingTile>): multiset<Tile> {
    if pending == [] then multiset{}
    else
      var pt := pending[|pending| - 1];
      PendingTiles(rules, pending[..|pending| - 1]) + multiset{RackTile(rules, pt.tile, pt.blank)}
  }

  lemma {:induction false} PendingConcat(rules: Rules, a: seq<PendingTile>, b: seq<PendingTile>)
    ensures PendingTiles(rules, a + b) == PendingTiles(rules, a) + PendingTiles(rules, b)
    decreases |b|
  {
    if b == [] {
      assert a + b == a;
    } else {
      LessLast(a, b);
      PendingConcat(rules, a, b[..|b| - 1]);
    }
  }

  lemma PendingOne(rules: Rules, pt: PendingTile)
    ensures PendingTiles(rules, [pt]) == multiset{RackTile(rules, pt.tile, pt.blank)}
  {
    assert [pt][..0] == [];
  }

  lemma PendingRemoved(rules: Rules, pending: seq<PendingTile>, i: nat)
    requires i < |pending|
    ensures PendingTiles(rules, RemoveAt(pending, i)) + multiset{RackTile(rules, pending[i].tile, pending[i].blank)}
            == PendingTiles(rules, pending)
  {
    hide PendingTiles;
    SplitAround(pending, i);
    PendingConcat(rules, pending[..i], pending[i + 1..]);
    PendingConcat(rules, pending[..i] + [pending[i]], pending[i + 1..]);
    PendingConcat(rules, pending[..i], [pending[i]]);
    PendingOne(rules, pending[i]);
  }

  function Hand(rules: Rules, pl: Player): multiset<Tile> {
    multiset(pl.tray) + PendingTiles(rules, pl.pending)
  }

  /** The pending tile goes down on the board and can no longer be confused with those taken back. */
  function Played(pl: Player, tileIndex: nat, pt: PendingTile): Player
    requires tileIndex < |pl.tray|
  {
    pl.(tray := RemoveAt(pl.tray, tileIndex), pending := pl.pending + [pt], undone := [], curMoveValid := false)
  }

  function IndexAt(pending: seq<PendingTile>, p: Pos): (i: nat)
    ensures i <= |pending|
    ensures i < |pending| ==> PosOf(pending[i]) == p
    ensures forall k :: 0 <= k < i ==> PosOf(pending[k]) != p
    decreases |pending|
  {
    if pending == [] then 0
    else
      var i := IndexAt(pending[..|pending| - 1], p);
      if i < |pending| - 1 || PosOf(pending[|pending| - 1]) == p then i else |pending|
  }

  function InsertAt<T>(s: seq<T>, i: nat, x: T): (r: seq<T>)
    requires i <= |s|
    ensures multiset(r) == multiset(s) + multiset{x}
  {
    assert s == s[..i] + s[i..];
    s[..i] + [x] + s[i..]
  }

  /** The pending tile on `p`, if there is one, goes back to the tray, the last slot when `offset` is
      negative, and becomes the first of those that can be put down again. */
  function TakenBack(rules: Rules, pl: Player, p: Pos, offset: int): Player
    requires offset <= |pl.tray|
  {
    var i := IndexAt(pl.pending, p);
    if i == |pl.pending| then pl
    else
      var pt := pl.pending[i];
      var at: nat := if offset < 0 then |pl.tray| else offset;
      pl.(tray := InsertAt(pl.tray, at, RackTile(rules, pt.tile, pt.blank)),
          pending := RemoveAt(pl.pending, i), undone := [pt] + pl.undone, curMoveValid := false)
  }

  /** A tile leaves a slot of the tray and is the last of those pending; nothing can be put down again any more. */
  ghost predicate WentDown(was: Player, now: Player, slot: nat, pt: PendingTile)
    requires slot < |was.tray|
  {
    && now.tray == was.tray[..slot] + was.tray[slot + 1..] && now.pending == was.pending + [pt] && now.undone == []
    && now.score == was.score && now.curMoveScore == was.curMoveScore && !now.curMoveValid
  }

  /** The pending tile `i` is in the tray, before slot `at`, a blank as a blank, and is the first of those that can
      be put down again. */
  ghost predicate CameBack(rules: Rules, was: Player, now: Player, i: nat, at: nat)
    requires i < |was.pending| && at <= |was.tray|
  {
    var pt := was.pending[i];
    && now.tray == was.tray[..at] + [if pt.blank then rules.blank else pt.tile] + was.tray[at..]
    && now.pending == was.pending[..i] + was.pending[i + 1..] && now.undone == [pt] + was.undone
    && now.score == was.score && now.curMoveScore == was.curMoveScore && !now.curMoveValid
  }

  /** Only the square of the pending tile `i` is another. */
  ghost predicate ChangedSquare(was: Player, now: Player, i: nat, p: Pos)
    requires i < |was.pending|
  {
    && |now.pending| == |was.pending| && now.pending[..i] == was.pending[..i] && now.pending[i + 1..] == was.pending[i + 1..]
    && now.pending[i] == PendingTile(p.col, p.row, was.pending[i].tile, was.pending[i].blank)
    && now.tray == was.tray && now.undone == was.undone
    && now.score == was.score && now.curMoveScore == was.curMoveScore && !now.curMoveValid
  }

  /** Those whose squares hold no committed tile. */
  function Placeable(stones: Stones, ps: seq<PendingTile>): (r: seq<PendingTile>)
    ensures forall pt :: pt in r <==> pt in ps && PosOf(pt) !in stones
  {
    if ps == [] then []
    else
      assert forall pt :: pt in ps <==> pt in ps[..|ps| - 1] || pt == ps[|ps| - 1];
      Placeable(stones, ps[..|ps| - 1]) + if PosOf(ps[|ps| - 1]) in stones then [] else [ps[|ps| - 1]]
  }

  lemma PlaceableNext(stones: Stones, ps: seq<PendingTile>, n: nat)
    requires n < |ps|
    ensures Placeable(stones, ps[..n + 1]) ==
            if PosOf(ps[n]) in stones then Placeable(stones, ps[..n]) else Placeable(stones, ps[..n]) + [ps[n]]
  {
    assert ps[..n + 1][..n] == ps[..n];
  }

  lemma {:induction false} AllPlaceable(stones: Stones, ps: seq<PendingTile>)
    requires forall k :: 0 <= k < |ps| ==> PosOf(ps[k]) !in stones
    ensures Placeable(stones, ps) == ps
  {
    if ps != [] {
      hide Placeable;
      var n := |ps| - 1;
      AllPlaceable(stones, ps[..n]);
      PlaceableNext(stones, ps, n);
      assert ps[..n + 1] == ps && ps == ps[..n] + [ps[n]];
    }
  }

  lemma PendingFirst(rules: Rules, ps: seq<PendingTile>)
    requires ps != []
    ensures PendingTiles(rules, ps) == multiset{RackTile(rules, ps[0].tile, ps[0].blank)} + PendingTiles(rules, ps[1..])
  {
    PendingOne(rules, ps[0]);
    PendingConcat(rules, ps[..1], ps[1..]);
    assert ps == ps[..1] + ps[1..] && ps[..1] == [ps[0]];
  }

  function Reversed<T>(s: seq<T>): seq<T> {
    if s == [] then [] else Reversed(s[1..]) + [s[0]]
  }

  lemma {:induction false} ReversedTiles(rules: Rules, ps: seq<PendingTile>)
    ensures PendingTiles(rules, Reversed(ps)) == PendingTiles(rules, ps)
    ensures forall pt :: pt in Reversed(ps) <==> pt in ps
    decreases |ps|
  {
    if ps != [] {
      ReversedTiles(rules, ps[1..]);
      PendingFirst(rules, ps);
      PendingConcat(rules, Reversed(ps[1..]), [ps[0]]);
      PendingOne(rules, ps[0]);
      assert ps == [ps[0]] + ps[1..];
    }
  }

  lemma {:induction false} ReversedSame<T>(s: seq<T>)
    ensures |Reversed(s)| == |s| && multiset(Reversed(s)) == multiset(s)
  {
    if s != [] {
      ReversedSame(s[1..]);
      assert s == [s[0]] + s[1..];
    }
  }

  lemma {:induction false} PendingCount(rules: Rules, ps: seq<PendingTile>)
    ensures |PendingTiles(rules, ps)| == |ps|
  {
    if ps != [] {
      PendingCount(rules, ps[..|ps| - 1]);
    }
  }

  lemma FirstBack(rules: Rules, pl: Player)
    requires pl.pending != []
    ensures var pl' := TakenBack(rules, pl, PosOf(pl.pending[0]), -1);
            && pl'.pending == pl.pending[1..] && pl'.undone == [pl.pending[0]] + pl.undone
            && Reversed(pl'.pending) + pl'.undone == Reversed(pl.pending) + pl.undone
            && pl'.score == pl.score && pl'.curMoveScore == pl.curMoveScore && !pl'.curMoveValid
  {
  }

  /** The pending tile at `i` moved to another square. */
  function Moved(pl: Player, i: nat, p: Pos): Player
    requires i < |pl.pending|
  {
    pl.(pending := pl.pending[i := pl.pending[i].(col := p.col, row := p.row)], curMoveValid := false)
  }

  lemma MovedKeepsHand(rules: Rules, pl: Player, i: nat, p: Pos)
    requires i < |pl.pending|
    ensures Hand(rules, Moved(pl, i, p)) == Hand(rules, pl)
  {
    hide PendingTiles;
    var pt := pl.pending[i].(col := p.col, row := p.row);
    PendingRemoved(rules, pl.pending, i);
    PendingRemoved(rules, pl.pending[i := pt], i);
    assert RemoveAt(pl.pending[i := pt], i) == RemoveAt(pl.pending, i);
  }

  lemma MovedSquares(pl: Player, i: nat, p: Pos)
    requires i < |pl.pending|
    ensures Squares(Moved(pl, i, p).pending) == Squares(pl.pending)[i := p]
    ensures multiset(Squares(Moved(pl, i, p).pending)) + multiset{PosOf(pl.pending[i])} ==
            multiset(Squares(pl.pending)) + multiset{p}
  {
    var was, now := Squares(pl.pending), Squares(Moved(pl, i, p).pending);
    assert now == was[i := p];
    assert RemoveAt(now, i) == RemoveAt(was, i);
    assert multiset(RemoveAt(was, i)) + multiset{was[i]} == multiset(was);
    assert multiset(RemoveAt(now, i)) + multiset{p} == multiset(now);
  }

  /** The pending tiles that are not on any of the squares. */
  function NotOn(pending: seq<PendingTile>, squares: set<Pos>): seq<PendingTile> {
    if pending == [] then []
    else
      var pt := pending[|pending| - 1];
      NotOn(pending[..|pending| - 1], squares) + if PosOf(pt) in squares then [] else [pt]
  }

  lemma {:induction false} NotOnTwice(pending: seq<PendingTile>, a: set<Pos>, b: set<Pos>)
    ensures NotOn(NotOn(pending, a), b) == NotOn(pending, a + b)
    decreases |pending|
  {
    if pending != [] {
      var less, pt := pending[..|pending| - 1], pending[|pending| - 1];
      NotOnTwice(less, a, b);
      if PosOf(pt) !in a {
        assert (NotOn(less, a) + [pt])[..|NotOn(less, a)|] == NotOn(less, a);
      } else {
        assert NotOn(pending, a) == NotOn(less, a);
      }
    }
  }

  lemma {:induction false} NotOnNone(pending: seq<PendingTile>, squares: set<Pos>)
    requires forall k :: 0 <= k < |pending| ==> PosOf(pending[k]) !in squares
    ensures NotOn(pending, squares) == pending
    decreases |pending|
  {
    if pending != [] {
      NotOnNone(pending[..|pending| - 1], squares);
    }
  }

  lemma DistinctLess(pending: seq<PendingTile>)
    requires pending != [] && DistinctSquares(pending)
    ensures var n := |pending| - 1;
            DistinctSquares(pending[..n]) && forall k :: 0 <= k < n ==> PosOf(pending[k]) != PosOf(pending[n])
  {
  }

  lemma {:induction false} TakenBackNotOn(pending: seq<PendingTile>, i: nat)
    requires i < |pending| && DistinctSquares(pending)
    ensures RemoveAt(pending, i) == NotOn(pending, {PosOf(pending[i])})
    decreases |pending|
  {
    hide DistinctSquares;
    var less, pt := pending[..|pending| - 1], pending[|pending| - 1];
    DistinctLess(pending);
    if i < |less| {
      TakenBackNotOn(less, i);
      assert RemoveAt(pending, i) == RemoveAt(less, i) + [pt];
    } else {
      NotOnNone(less, {PosOf(pt)});
      assert RemoveAt(pending, i) == less;
    }
  }

  lemma PlayedKeepsHand(rules: Rules, pl: Player, tileIndex: nat, pt: PendingTile)
    requires tileIndex < |pl.tray| && pl.tray[tileIndex] == RackTile(rules, pt.tile, pt.blank)
    ensures Hand(rules, Played(pl, tileIndex, pt)) == Hand(rules, pl)
  {
    hide PendingTiles, RemoveAt;
    PendingConcat(rules, pl.pending, [pt]);
    PendingOne(rules, pt);
  }

  lemma TakenBackKeepsHand(rules: Rules, pl: Player, p: Pos, offset: int)
    requires offset <= |pl.tray|
    ensures Hand(rules, TakenBack(rules, pl, p, offset)) == Hand(rules, pl)
  {
    hide PendingTiles, RemoveAt, InsertAt, IndexAt;
    var i := IndexAt(pl.pending, p);
    if i < |pl.pending| {
      PendingRemoved(rules, pl.pending, i);
    }
  }

  lemma TrayIsHand(rules: Rules, pl: Player)
    requires pl.pending == []
    ensures Hand(rules, pl) == multiset(pl.tray)
  {
  }

  /** Where the tile stands last in the tray, or the length of the tray when it is not there. */
  function LastAt(tray: seq<Tile>, t: Tile): (i: nat)
    ensures t in tray ==> i < |tray| && tray[i] == t && forall k :: i < k < |tray| ==> tray[k] != t
    ensures t !in tray ==> i == |tray|
  {
    if tray == [] then 0
    else if tray[|tray| - 1] == t then |tray| - 1
    else
      var i := LastAt(tray[..|tray| - 1], t);
      if i == |tray| - 1 then |tray| else i
  }

  /** Each old tile gives its place to the new one: the last place where the tile stands. */
  function InPlace(tray: seq<Tile>, oldTiles: seq<Tile>, newTiles: seq<Tile>): (r: seq<Tile>)
    requires |oldTiles| == |newTiles|
    ensures |r| == |tray|
    decreases |oldTiles|
  {
    if oldTiles == [] then tray
    else
      var n := |oldTiles| - 1;
      var before := InPlace(tray, oldTiles[..n], newTiles[..n]);
      var i := LastAt(before, oldTiles[n]);
      if i < |before| then before[i := newTiles[n]] else before
  }

  lemma InPlaceStep(tray: seq<Tile>, oldTiles: seq<Tile>, newTiles: seq<Tile>, ii: nat)
    requires |oldTiles| == |newTiles| && ii < |oldTiles|
    requires oldTiles[ii] in InPlace(tray, oldTiles[..ii], newTiles[..ii])
    ensures var before := InPlace(tray, oldTiles[..ii], newTiles[..ii]);
            InPlace(tray, oldTiles[..ii + 1], newTiles[..ii + 1]) == before[LastAt(before, oldTiles[ii]) := newTiles[ii]]
  {
    assert oldTiles[..ii + 1][..ii] == oldTiles[..ii] && newTiles[..ii + 1][..ii] == newTiles[..ii];
  }

  /** A tile that is not traded stays where it is, and where the tile has changed a new one stands. */
  lemma {:induction false} OthersStay(tray: seq<Tile>, oldTiles: seq<Tile>, newTiles: seq<Tile>, k: nat)
    requires |oldTiles| == |newTiles| && k < |tray|
    ensures var now := InPlace(tray, oldTiles, newTiles);
            && (tray[k] !in oldTiles ==> now[k] == tray[k])
            && (now[k] == tray[k] || now[k] in newTiles)
    decreases |oldTiles|
  {
    if oldTiles != [] {
      var n := |oldTiles| - 1;
      OthersStay(tray, oldTiles[..n], newTiles[..n], k);
      assert oldTiles == oldTiles[..n] + [oldTiles[n]] && newTiles == newTiles[..n] + [newTiles[n]];
    }
  }

  /** Where redo takes a tile from: its own slot, or the last one when the tile is no longer in the tray. */
  function SlotFor(tray: seq<Tile>, t: Tile): (slot: nat)
    requires tray != []
    ensures slot < |tray| && (t in tray ==> tray[slot] == t)
  {
    if t in tray then LastAt(tray, t) else |tray| - 1
  }

  function AsPlaced(rules: Rules, got: Tile, pt: PendingTile): PendingTile {
    PendingTile(pt.col, pt.row, if got == rules.blank then pt.tile else got, got == rules.blank)
  }

  /** A tile that was taken back is put down again, from whatever slot redo takes it. */
  function Redoing(rules: Rules, pl: Player, pt: PendingTile): (r: Player)
    requires pl.tray != []
    ensures |r.tray| == |pl.tray| - 1
  {
    var slot := SlotFor(pl.tray, RackTile(rules, pt.tile, pt.blank));
    Played(pl, slot, AsPlaced(rules, pl.tray[slot], pt))
  }

  /** All of the tiles put down again, in order, except where a committed tile has come in the way. */
  function RedoAll(rules: Rules, stones: Stones, pl: Player, pts: seq<PendingTile>): (r: Player)
    requires |Placeable(stones, pts)| <= |pl.tray|
    ensures |r.tray| == |pl.tray| - |Placeable(stones, pts)|
  {
    if pts == [] then pl
    else
      var mid := RedoAll(rules, stones, pl, pts[..|pts| - 1]);
      if PosOf(pts[|pts| - 1]) in stones then mid else Redoing(rules, mid, pts[|pts| - 1])
  }

  lemma RedoingIs(rules: Rules, pl: Player, pt: PendingTile)
    requires pl.tray != []
    ensures var r := Redoing(rules, pl, pt);
            && r.pending == pl.pending + [r.pending[|pl.pending|]] && PosOf(r.pending[|pl.pending|]) == PosOf(pt)
            && Squares(r.pending) == Squares(pl.pending) + [PosOf(pt)]
            && r.undone == [] && !r.curMoveValid && r.score == pl.score && Hand(rules, r) == Hand(rules, pl)
    ensures (pt.tile == rules.blank ==> pt.blank) && RackTile(rules, pt.tile, pt.blank) in pl.tray ==>
              Redoing(rules, pl, pt).pending == pl.pending + [pt]
  {
    var slot := SlotFor(pl.tray, RackTile(rules, pt.tile, pt.blank));
    PlayedKeepsHand(rules, pl, slot, AsPlaced(rules, pl.tray[slot], pt));
  }

  /** Redo puts a tile on every free square of those taken back, whatever the tray has come to hold. */
  lemma {:induction false} RedoneSquares(rules: Rules, stones: Stones, pl: Player, pts: seq<PendingTile>)
    requires |Placeable(stones, pts)| <= |pl.tray|
    ensures var r, placed := RedoAll(rules, stones, pl, pts), Placeable(stones, pts);
            && Squares(r.pending) == Squares(pl.pending) + Squares(placed)
            && (placed == [] ==> r == pl) && (placed != [] ==> r.undone == [] && !r.curMoveValid)
            && r.score == pl.score && Hand(rules, r) == Hand(rules, pl)
    decreases |pts|
  {
    hide Redoing, Hand, RedoAll, Placeable;
    if pts == [] {
      NoneRedone(rules, stones, pl);
      assert Squares([]) == [];
    } else {
      var n := |pts| - 1;
      LastPlaceable(stones, pts);
      LastRedone(rules, stones, pl, pts);
      RedoneSquares(rules, stones, pl, pts[..n]);
      if PosOf(pts[n]) !in stones {
        var mid := RedoAll(rules, stones, pl, pts[..n]);
        RedoingIs(rules, mid, pts[n]);
        var before := Placeable(stones, pts[..n]);
        assert Squares(before + [pts[n]]) == Squares(before) + [PosOf(pts[n])];
      }
    }
  }

  lemma {:induction false} RedoneTiles(rules: Rules, stones: Stones, pl: Player, pts: seq<PendingTile>)
    requires |Placeable(stones, pts)| <= |pl.tray|
    requires PendingTiles(rules, Placeable(stones, pts)) <= multiset(pl.tray)
    requires forall pt :: pt in pts && pt.tile == rules.blank ==> pt.blank
    ensures RedoAll(rules, stones, pl, pts).pending == pl.pending + Placeable(stones, pts)
    decreases |pts|
  {
    hide Redoing, PendingTiles, RackTile, Placeable, RedoAll, Hand, Squares;
    if pts == [] {
      NoneRedone(rules, stones, pl);
    } else {
      var n := |pts| - 1;
      var pt, before := pts[n], Placeable(stones, pts[..n]);
      LastPlaceable(stones, pts);
      PendingConcat(rules, before, [pt]);
      PendingOne(rules, pt);
      MoreThan(PendingTiles(rules, before), PendingTiles(rules, [pt]), multiset(pl.tray));
      RedoneTiles(rules, stones, pl, pts[..n]);
      LastRedone(rules, stones, pl, pts);
      if PosOf(pt) !in stones {
        var mid := RedoAll(rules, stones, pl, pts[..n]);
        RedoneSquares(rules, stones, pl, pts[..n]);
        NextIsThere(rules, pl, mid, before, pt);
        RedoingIs(rules, mid, pt);
        assert pl.pending + before + [pt] == pl.pending + (before + [pt]);
      }
    }
  }

  lemma NextIsThere(rules: Rules, pl: Player, mid: Player, before: seq<PendingTile>, pt: PendingTile)
    requires Hand(rules, mid) == Hand(rules, pl) && mid.pending == pl.pending + before
    requires PendingTiles(rules, before) + multiset{RackTile(rules, pt.tile, pt.blank)} <= multiset(pl.tray)
    ensures RackTile(rules, pt.tile, pt.blank) in mid.tray
  {
    hide PendingTiles, RackTile;
    PendingConcat(rules, pl.pending, before);
    StillThere(multiset(mid.tray), multiset(pl.tray), PendingTiles(rules, pl.pending), PendingTiles(rules, before),
               RackTile(rules, pt.tile, pt.blank));
  }

  lemma LastRedone(rules: Rules, stones: Stones, pl: Player, pts: seq<PendingTile>)
    requires pts != [] && |Placeable(stones, pts)| <= |pl.tray|
    ensures var n := |pts| - 1;
            && |Placeable(stones, pts[..n])| <= |pl.tray|
            && var mid := RedoAll(rules, stones, pl, pts[..n]);
               if PosOf(pts[n]) in stones then RedoAll(rules, stones, pl, pts) == mid
               else mid.tray != [] && RedoAll(rules, stones, pl, pts) == Redoing(rules, mid, pts[n])
  {
    hide Redoing;
  }

  lemma NoneRedone(rules: Rules, stones: Stones, pl: Player)
    ensures Placeable(stones, []) == [] && RedoAll(rules, stones, pl, []) == pl
  {
  }

  lemma LastPlaceable(stones: Stones, pts: seq<PendingTile>)
    requires pts != []
    ensures var n := |pts| - 1;
            Placeable(stones, pts) ==
            if PosOf(pts[n]) in stones then Placeable(stones, pts[..n]) else Placeable(stones, pts[..n]) + [pts[n]]
  {
  }

  lemma MoreThan<T>(a: multiset<T>, b: multiset<T>, c: multiset<T>)
    ensures a + b <= c ==> a <= c
  {
  }

  lemma StillThere<T>(left: multiset<T>, tray: multiset<T>, down: multiset<T>, laid: multiset<T>, x: T)
    requires left + (down + laid) == tray + down && laid + multiset{x} <= tray
    ensures x in left
  {
    assert (left + (down + laid))[x] == left[x] + down[x] + laid[x];
    assert (tray + down)[x] == tray[x] + down[x] && (laid + multiset{x})[x] == laid[x] + 1;
  }

  /** The very tiles taken back come down again exactly when those that find their squares free are all in
      the tray. */
  lemma RedoneIff(rules: Rules, stones: Stones, pl: Player, pts: seq<PendingTile>)
    requires |Placeable(stones, pts)| <= |pl.tray|
    requires forall pt :: pt in pts && pt.tile == rules.blank ==> pt.blank
    ensures RedoAll(rules, stones, pl, pts).pending == pl.pending + Placeable(stones, pts) <==>
            PendingTiles(rules, Placeable(stones, pts)) <= multiset(pl.tray)
  {
    hide PendingTiles, RedoAll, Placeable;
    var r, placed := RedoAll(rules, stones, pl, pts), Placeable(stones, pts);
    if PendingTiles(rules, placed) <= multiset(pl.tray) {
      RedoneTiles(rules, stones, pl, pts);
    }
    if r.pending == pl.pending + placed {
      RedoneSquares(rules, stones, pl, pts);
      PendingConcat(rules, pl.pending, placed);
      CameFrom(multiset(r.tray), multiset(pl.tray), PendingTiles(rules, pl.pending), PendingTiles(rules, placed));
    }
  }

  lemma CameFrom<T>(left: multiset<T>, tray: multiset<T>, down: multiset<T>, laid: multiset<T>)
    requires left + (down + laid) == tray + down
    ensures laid <= tray
  {
    forall x
      ensures laid[x] <= tray[x]
    {
      assert (left + (down + laid))[x] == left[x] + down[x] + laid[x] && (tray + down)[x] == tray[x] + down[x];
    }
  }

  lemma {:induction false} PlaceableConcat(stones: Stones, a: seq<PendingTile>, b: seq<PendingTile>)
    ensures Placeable(stones, a + b) == Placeable(stones, a) + Placeable(stones, b)
    decreases |b|
  {
    if b == [] {
      assert a + b == a;
    } else {
      LessLast(a, b);
      PlaceableConcat(stones, a, b[..|b| - 1]);
    }
  }

  /** The tiles taken back are still in the tray. */
  predicate HasUndone(rules: Rules, pl: Player) {
    PendingTiles(rules, pl.undone) <= multiset(pl.tray)
  }

  predicate AllKeep(rules: Rules, was: seq<Player>, now: seq<Player>) {
    |was| == |now| && forall i :: 0 <= i < |was| && HasUndone(rules, was[i]) ==> HasUndone(rules, now[i])
  }

  lemma KeepSame(rules: Rules, players: seq<Player>)
    ensures AllKeep(rules, players, players)
  {
  }

  lemma KeepTwice(rules: Rules, was: seq<Player>, mid: seq<Player>, now: seq<Player>)
    requires AllKeep(rules, was, mid) && AllKeep(rules, mid, now)
    ensures AllKeep(rules, was, now)
  {
    hide HasUndone;
  }

  lemma TakenBackHas(rules: Rules, pl: Player, p: Pos, offset: int)
    requires offset <= |pl.tray| && HasUndone(rules, pl)
    ensures HasUndone(rules, TakenBack(rules, pl, p, offset))
  {
    hide PendingTiles, InsertAt, RemoveAt;
    var i := IndexAt(pl.pending, p);
    if i < |pl.pending| {
      var pt := pl.pending[i];
      PendingConcat(rules, [pt], pl.undone);
      PendingOne(rules, pt);
    }
  }

  lemma ResetHas(rules: Rules, was: Player, now: Player)
    requires now.pending == [] && now.undone == Reversed(was.pending) + was.undone && Hand(rules, now) == Hand(rules, was)
    ensures HasUndone(rules, now) <==> HasUndone(rules, was)
  {
    hide PendingTiles, Reversed, Hand;
    var tray, down, back := multiset(was.tray), PendingTiles(rules, was.pending), PendingTiles(rules, was.undone);
    PendingConcat(rules, Reversed(was.pending), was.undone);
    ReversedTiles(rules, was.pending);
    TrayIsHand(rules, now);
    assert multiset(now.tray) == tray + down by { assert Hand(rules, was) == tray + down by { HandParts(rules, was); } }
    forall t
      ensures (down + back)[t] <= (tray + down)[t] <==> back[t] <= tray[t]
    {
    }
  }

  lemma HandParts(rules: Rules, pl: Player)
    ensures Hand(rules, pl) == multiset(pl.tray) + PendingTiles(rules, pl.pending)
  {
  }

  lemma RedoneHas(rules: Rules, stones: Stones, pl: Player, pts: seq<PendingTile>)
    requires |Placeable(stones, pts)| <= |pl.tray| && HasUndone(rules, pl)
    ensures HasUndone(rules, RedoAll(rules, stones, pl, pts))
  {
    RedoneSquares(rules, stones, pl, pts);
  }

  function Hands(rules: Rules, players: seq<Player>): (hands: seq<multiset<Tile>>)
    ensures |hands| == |players|
    ensures forall i :: 0 <= i < |players| ==> hands[i] == Hand(rules, players[i])
  {
    seq(|players|, i requires 0 <= i < |players| => Hand(rules, players[i]))
  }

  function Scores(players: seq<Player>): (scores: seq<int>)
    ensures |scores| == |players|
    ensures forall i :: 0 <= i < |players| ==> scores[i] == players[i].score
  {
    seq(|players|, i requires 0 <= i < |players| => players[i].score)
  }

  lemma PlayerChanged(rules: Rules, players: seq<Player>, i: nat, pl: Player)
    requires i < |players|
    ensures Hands(rules, players[i := pl]) == Hands(rules, players)[i := Hand(rules, pl)]
    ensures Scores(players[i := pl]) == Scores(players)[i := pl.score]
  {
  }

  lemma HandKept(rules: Rules, players: seq<Player>, i: nat, pl: Player)
    requires i < |players| && Hand(rules, pl) == Hand(rules, players[i]) && pl.score == players[i].score
    ensures Hands(rules, players[i := pl]) == Hands(rules, players)
    ensures Scores(players[i := pl]) == Scores(players)
  {
  }

  // How many pending tiles there are on each square.

  function AllPending(players: seq<Player>): multiset<Pos> {
    if players == [] then multiset{}
    else AllPending(players[..|players| - 1]) + multiset(Squares(players[|players| - 1].pending))
  }

  lemma BothMore<T>(a: multiset<T>, b: multiset<T>, x: multiset<T>, y: multiset<T>, more: multiset<T>)
    requires a + x == b + y
    ensures a + more + x == b + more + y
  {
    assert a + more + x == a + x + more && b + more + y == b + y + more;
  }

  lemma {:induction false} PendingChanged(players: seq<Player>, i: nat, pl: Player)
    requires i < |players|
    ensures AllPending(players[i := pl]) + multiset(Squares(players[i].pending)) ==
            AllPending(players) + multiset(Squares(pl.pending))
    decreases |players|
  {
    var last := |players| - 1;
    if i < last {
      assert players[i := pl][..last] == players[..last][i := pl];
      assert players[i := pl][last] == players[last] && players[..last][i] == players[i];
      PendingChanged(players[..last], i, pl);
      BothMore(AllPending(players[..last][i := pl]), AllPending(players[..last]), multiset(Squares(players[i].pending)),
               multiset(Squares(pl.pending)), multiset(Squares(players[last].pending)));
    } else {
      assert players[i := pl][..last] == players[..last];
      assert players[i := pl][last] == pl;
    }
  }

  lemma {:induction false} SamePending(a: seq<Player>, b: seq<Player>)
    requires |a| == |b| && forall i :: 0 <= i < |a| ==> a[i].pending == b[i].pending
    ensures AllPending(a) == AllPending(b)
    decreases |a|
  {
    if a != [] {
      SamePending(a[..|a| - 1], b[..|b| - 1]);
    }
  }

  lemma {:induction false} OwnAmongAll(players: seq<Player>, i: nat)
    requires i < |players|
    ensures multiset(Squares(players[i].pending)) <= AllPending(players)
    decreases |players|
  {
    if i < |players| - 1 {
      OwnAmongAll(players[..|players| - 1], i);
    }
  }

  lemma {:induction false} NonePending(players: seq<Player>, p: Pos)
    requires forall i :: 0 <= i < |players| ==> players[i].pending == []
    ensures AllPending(players)[p] == 0
  {
    if players != [] {
      var last := players[|players| - 1];
      NonePending(players[..|players| - 1], p);
      assert last.pending == [] && Squares(last.pending) == [];
      assert multiset(Squares(last.pending))[p] == 0;
    }
  }

  /** How many of the players have a pending tile on the square. */
  function PlayersAt(players: seq<Player>, p: Pos): nat {
    if players == [] then 0
    else PlayersAt(players[..|players| - 1], p) + if p in Squares(players[|players| - 1].pending) then 1 else 0
  }

  lemma {:induction false} OncePerPlayer(ps: seq<PendingTile>, p: Pos)
    requires DistinctSquares(ps)
    ensures multiset(Squares(ps))[p] == if p in Squares(ps) then 1 else 0
    decreases |ps|
  {
    if ps != [] {
      var less := ps[..|ps| - 1];
      OncePerPlayer(less, p);
      assert Squares(ps) == Squares(less) + [PosOf(ps[|ps| - 1])];
      assert forall k :: 0 <= k < |less| ==> Squares(less)[k] == PosOf(ps[k]);
    } else {
      assert Squares(ps) == [];
    }
  }

  /** As long as no player has two tiles on one square, the number of pending tiles there is the number
      of players holding one there. */
  lemma {:induction false} RefcountIsPlayers(players: seq<Player>, p: Pos)
    requires forall i :: 0 <= i < |players| ==> DistinctSquares(players[i].pending)
    ensures AllPending(players)[p] == PlayersAt(players, p)
    decreases |players|
  {
    if players != [] {
      RefcountIsPlayers(players[..|players| - 1], p);
      OncePerPlayer(players[|players| - 1].pending, p);
    }
  }

  lemma {:induction false} NoMoreThanPending(players: seq<Player>, p: Pos)
    ensures PlayersAt(players, p) <= AllPending(players)[p]
    decreases |players|
  {
    if players != [] {
      NoMoreThanPending(players[..|players| - 1], p);
      var ps := Squares(players[|players| - 1].pending);
      assert p in ps ==> p in multiset(ps);
    }
  }

  /** And fewer players than pending tiles when one of them holds two there. */
  lemma {:induction false} Doubled(players: seq<Player>, i: nat, p: Pos)
    requires i < |players| && multiset(Squares(players[i].pending))[p] >= 2
    ensures PlayersAt(players, p) < AllPending(players)[p]
    decreases |players|
  {
    var last := |players| - 1;
    if i < last {
      Doubled(players[..last], i, p);
      var ps := Squares(players[last].pending);
      assert p in ps ==> p in multiset(ps);
    } else {
      NoMoreThanPending(players[..last], p);
    }
  }

  lemma {:induction false} SomeoneThere(players: seq<Player>, i: nat, p: Pos)
    requires i < |players| && p in Squares(players[i].pending)
    ensures PlayersAt(players, p) >= 1
    decreases |players|
  {
    if i < |players| - 1 {
      SomeoneThere(players[..|players| - 1], i, p);
    }
  }

  lemma {:induction false} NooneThere(players: seq<Player>, p: Pos)
    requires forall i :: 0 <= i < |players| ==> p !in Squares(players[i].pending)
    ensures PlayersAt(players, p) == 0
    decreases |players|
  {
    if players != [] {
      NooneThere(players[..|players| - 1], p);
    }
  }

  lemma {:induction false} OnlyMine(players: seq<Player>, me: nat, p: Pos)
    requires me < |players| && p in Squares(players[me].pending)
    ensures PlayersAt(players, p) == 1 <==>
            forall i :: 0 <= i < |players| && i != me ==> p !in Squares(players[i].pending)
    decreases |players|
  {
    var last := |players| - 1;
    var less := players[..last];
    assert forall i :: 0 <= i < last ==> less[i] == players[i];
    if me < last {
      OnlyMine(less, me, p);
      SomeoneThere(less, me, p);
    } else if forall i :: 0 <= i < last ==> p !in Squares(less[i].pending) {
      NooneThere(less, p);
    } else {
      var i :| 0 <= i < last && p in Squares(less[i].pending);
      SomeoneThere(less, i, p);
    }
  }

  // The pending tiles as a move.

  function MoveTiles(horizontal: bool, pending: seq<PendingTile>): (ts: seq<MoveTile>)
    ensures |ts| == |pending|
    ensures forall k :: 0 <= k < |pending| ==> ts[k] == AsMoveTile(horizontal, pending[k])
  {
    seq(|pending|, k requires 0 <= k < |pending| => AsMoveTile(horizontal, pending[k]))
  }

  function InsertTile(ts: seq<MoveTile>, t: MoveTile): seq<MoveTile> {
    if ts == [] || ts[|ts| - 1].varCoord < t.varCoord then ts + [t]
    else InsertTile(ts[..|ts| - 1], t) + [ts[|ts| - 1]]
  }

  function SortTiles(ts: seq<MoveTile>): seq<MoveTile> {
    if ts == [] then [] else InsertTile(SortTiles(ts[..|ts| - 1]), ts[|ts| - 1])
  }

  lemma {:induction false} InsertKeeps(ts: seq<MoveTile>, t: MoveTile)
    requires Ascending(ts) && forall k :: 0 <= k < |ts| ==> ts[k].varCoord != t.varCoord
    ensures Ascending(InsertTile(ts, t)) && |InsertTile(ts, t)| == |ts| + 1
    ensures forall x :: x in InsertTile(ts, t) <==> x in ts || x == t
    decreases |ts|
  {
    if ts != [] && !(ts[|ts| - 1].varCoord < t.varCoord) {
      var us := ts[..|ts| - 1];
      assert forall k :: 0 <= k < |us| ==> us[k] == ts[k];
      InsertKeeps(us, t);
      assert forall x :: x in ts <==> x in us || x == ts[|ts| - 1];
      assert forall k :: 0 <= k < |InsertTile(us, t)| ==> InsertTile(us, t)[k] in us || InsertTile(us, t)[k] == t;
    }
  }

  lemma {:induction false} SortKeeps(ts: seq<MoveTile>)
    requires Distinct(ts)
    ensures Ascending(SortTiles(ts)) && SameTiles(ts, SortTiles(ts))
    decreases |ts|
  {
    if ts != [] {
      var us := ts[..|ts| - 1];
      assert forall k :: 0 <= k < |us| ==> us[k] == ts[k];
      SortKeeps(us);
      assert forall x :: x in ts <==> x in us || x == ts[|ts| - 1];
      forall k | 0 <= k < |SortTiles(us)|
        ensures SortTiles(us)[k].varCoord != ts[|ts| - 1].varCoord
      {
        assert SortTiles(us)[k] in us;
      }
      InsertKeeps(SortTiles(us), ts[|ts| - 1]);
    }
  }

  lemma {:induction false} SortedAlready(ts: seq<MoveTile>)
    requires Ascending(ts)
    ensures SortTiles(ts) == ts
    decreases |ts|
  {
    if ts != [] {
      var us := ts[..|ts| - 1];
      assert forall k :: 0 <= k < |us| ==> us[k] == ts[k];
      SortedAlready(us);
      assert us != [] ==> us[|us| - 1].varCoord < ts[|ts| - 1].varCoord;
      assert InsertTile(us, ts[|ts| - 1]) == us + [ts[|ts| - 1]] == ts;
    }
  }

  lemma LastIsGreatest(a: seq<MoveTile>, t: MoveTile)
    requires Ascending(a) && t in a
    ensures t.varCoord <= a[|a| - 1].varCoord
    ensures t.varCoord == a[|a| - 1].varCoord ==> t == a[|a| - 1]
  {
  }

  lemma WithoutLast(a: seq<MoveTile>)
    requires Ascending(a) && a != []
    ensures Ascending(a[..|a| - 1])
    ensures forall t :: t in a[..|a| - 1] <==> t in a && t != a[|a| - 1]
  {
    var less := a[..|a| - 1];
    forall t | t in a && t != a[|a| - 1]
      ensures t in less
    {
      var k :| 0 <= k < |a| && a[k] == t;
      assert less[k] == t;
    }
  }

  /** There is only one way to put tiles in order. */
  lemma {:induction false} OneOrder(a: seq<MoveTile>, b: seq<MoveTile>)
    requires Ascending(a) && Ascending(b) && SameTiles(a, b)
    ensures a == b
    decreases |a|
  {
    if a != [] {
      var n := |a| - 1;
      LastIsGreatest(a, b[n]);
      LastIsGreatest(b, a[n]);
      WithoutLast(a);
      WithoutLast(b);
      assert a[n] == b[n];
      forall t
        ensures t in a[..n] <==> t in b[..n]
      {
        assert t in a <==> t in b;
      }
      OneOrder(a[..n], b[..n]);
      assert a == a[..n] + [a[n]] && b == b[..n] + [b[n]];
    }
  }

  lemma {:induction false} RackConcat(rules: Rules, a: seq<MoveTile>, b: seq<MoveTile>)
    ensures RackTiles(rules, a + b) == RackTiles(rules, a) + RackTiles(rules, b)
    decreases |b|
  {
    if b == [] {
      assert a + b == a;
    } else {
      LessLast(a, b);
      RackConcat(rules, a, b[..|b| - 1]);
    }
  }

  lemma {:induction false} InsertRack(rules: Rules, ts: seq<MoveTile>, t: MoveTile)
    ensures RackTiles(rules, InsertTile(ts, t)) == RackTiles(rules, ts) + multiset{RackTile(rules, t.tile, t.blank)}
    decreases |ts|
  {
    if ts == [] || ts[|ts| - 1].varCoord < t.varCoord {
      assert (ts + [t])[..|ts|] == ts;
    } else {
      var us := ts[..|ts| - 1];
      InsertRack(rules, us, t);
      assert (InsertTile(us, t) + [ts[|ts| - 1]])[..|InsertTile(us, t)|] == InsertTile(us, t);
    }
  }

  lemma {:induction false} SortRack(rules: Rules, ts: seq<MoveTile>)
    ensures RackTiles(rules, SortTiles(ts)) == RackTiles(rules, ts)
    decreases |ts|
  {
    if ts != [] {
      SortRack(rules, ts[..|ts| - 1]);
      InsertRack(rules, SortTiles(ts[..|ts| - 1]), ts[|ts| - 1]);
    }
  }

  lemma {:induction false} MoveRack(rules: Rules, horizontal: bool, pending: seq<PendingTile>)
    ensures RackTiles(rules, MoveTiles(horizontal, pending)) == PendingTiles(rules, pending)
    decreases |pending|
  {
    if pending != [] {
      MoveRack(rules, horizontal, pending[..|pending| - 1]);
      assert MoveTiles(horizontal, pending)[..|pending| - 1] == MoveTiles(horizontal, pending[..|pending| - 1]);
    }
  }

  /** The pending tiles in order along their line. One tile makes a vertical move. */
  function MoveOf(pending: seq<PendingTile>): Move {
    var horizontal := !InOneLine(pending, false);
    Move(horizontal, if pending == [] then 0 else CommonCoord(horizontal, pending[0]),
         SortTiles(MoveTiles(horizontal, pending)))
  }

  predicate InALine(pending: seq<PendingTile>) {
    InOneLine(pending, true) || InOneLine(pending, false)
  }

  predicate PendingInBounds(n: nat, pending: seq<PendingTile>) {
    forall k :: 0 <= k < |pending| ==> pending[k].col < n && pending[k].row < n
  }

  lemma MoveOfPending(n: nat, pending: seq<PendingTile>)
    requires DistinctSquares(pending) && InALine(pending) && PendingInBounds(n, pending) && 0 < n
    ensures var mv := MoveOf(pending);
            && Distinct(MoveTiles(mv.horizontal, pending))
            && OnBoard(n, mv) && Ascending(mv.tiles) && |mv.tiles| == |pending|
            && (forall k :: 0 <= k < |pending| ==>
                  CommonCoord(mv.horizontal, pending[k]) == mv.common && AsMoveTile(mv.horizontal, pending[k]) in mv.tiles)
            && forall t :: t in mv.tiles ==>
                 exists k :: 0 <= k < |pending| && AsMoveTile(mv.horizontal, pending[k]) == t
  {
    hide SortTiles;
    var mv := MoveOf(pending);
    var ts := MoveTiles(mv.horizontal, pending);
    assert Distinct(ts) by {
      assert forall k :: 0 <= k < |pending| ==> CommonCoord(mv.horizontal, pending[k]) == mv.common;
      forall j, k | 0 <= j < k < |pending|
        ensures ts[j].varCoord != ts[k].varCoord
      {
        assert PosOf(pending[j]) != PosOf(pending[k]);
      }
    }
    SortKeeps(ts);
    forall k | 0 <= k < |mv.tiles|
      ensures mv.tiles[k].varCoord < n
    {
      assert mv.tiles[k] in ts;
    }
    forall k | 0 <= k < |pending|
      ensures AsMoveTile(mv.horizontal, pending[k]) in mv.tiles
    {
      assert ts[k] in ts;
    }
  }

  // What the pending tiles score.

  ghost function CurScore(s: Setup, stones: Stones, pending: seq<PendingTile>): int
    requires DistinctSquares(pending) && PendingInBounds(s.size, pending)
  {
    if pending == [] then 0
    else if !InALine(pending) then ILLEGAL_MOVE_SCORE
    else
      MoveOfPending(s.size, pending);
      var mv := MoveOf(pending);
      if IsLegal(BoardOf(s.size, stones), mv) then Scored(s, stones, mv) else ILLEGAL_MOVE_SCORE
  }

  /** The score comes out the same once the pending tiles have been made part of the board. */
  lemma ScoredWhenPlaced(s: Setup, stones: Stones, owner: nat, pending: seq<PendingTile>)
    requires DistinctSquares(pending) && PendingInBounds(s.size, pending) && InALine(pending)
    ensures var mv := MoveOf(pending);
            CurScore(s, Place(stones, owner, mv.horizontal, mv.common, mv.tiles), pending) == CurScore(s, stones, pending)
  {
    hide IsLegal, MoveScore, BoardOf, MoveOf, Place, SameElsewhere;
    if pending != [] {
      MoveOfPending(s.size, pending);
      var mv := MoveOf(pending);
      var b := BoardOf(s.size, stones);
      var b' := BoardOf(s.size, Place(stones, owner, mv.horizontal, mv.common, mv.tiles));
      PlacedElsewhere(s.size, stones, owner, mv);
      ScoreIgnoresOwnSquares(s.rules, b, b', mv);
      LegalIgnoresOwnSquares(b, b', mv);
    }
  }

  function AsPending(mv: Move, k: nat): PendingTile
    requires k < |mv.tiles|
  {
    var p := PosAt(mv.horizontal, mv.tiles[k].varCoord, mv.common);
    PendingTile(p.col, p.row, mv.tiles[k].tile, mv.tiles[k].blank)
  }

  function PendingOf(mv: Move): (ps: seq<PendingTile>)
    ensures |ps| == |mv.tiles|
  {
    seq(|mv.tiles|, k requires 0 <= k < |mv.tiles| => AsPending(mv, k))
  }

  /** A logged move put on the board again is the same move. */
  lemma MoveOfPendingOf(n: nat, mv: Move)
    requires OnBoard(n, mv) && Ascending(mv.tiles) && Canonical(mv)
    ensures MoveOf(PendingOf(mv)) == mv && InALine(PendingOf(mv))
    ensures DistinctSquares(PendingOf(mv)) && PendingInBounds(n, PendingOf(mv))
  {
    hide SortTiles;
    var pending := PendingOf(mv);
    assert InOneLine(pending, mv.horizontal);
    if 1 < |mv.tiles| {
      assert AsPending(mv, 0) == pending[0] && AsPending(mv, 1) == pending[1];
      assert VarCoord(mv.horizontal, pending[0]) < VarCoord(mv.horizontal, pending[1]);
    }
    assert MoveTiles(mv.horizontal, pending) == mv.tiles;
    SortedAlready(mv.tiles);
  }

  /** The pending tiles made part of the board, in the order they were put down. */
  function PutStones(stones: Stones, owner: nat, pending: seq<PendingTile>): Stones {
    if pending == [] then stones
    else
      var pt := pending[|pending| - 1];
      PutStones(stones, owner, pending[..|pending| - 1])[PosOf(pt) := Stone(pt.tile, pt.blank, owner)]
  }

  lemma {:induction false} PutAt(stones: Stones, owner: nat, pending: seq<PendingTile>, p: Pos)
    requires DistinctSquares(pending)
    ensures var put := PutStones(stones, owner, pending);
            && (p in put <==> p in stones || exists k :: 0 <= k < |pending| && PosOf(pending[k]) == p)
            && (p in put && (forall k :: 0 <= k < |pending| ==> PosOf(pending[k]) != p) ==> put[p] == stones[p])
            && forall k :: 0 <= k < |pending| && PosOf(pending[k]) == p ==>
                 put[p] == Stone(pending[k].tile, pending[k].blank, owner)
    decreases |pending|
  {
    if pending != [] {
      var less := pending[..|pending| - 1];
      assert forall k :: 0 <= k < |less| ==> less[k] == pending[k];
      PutAt(stones, owner, less, p);
    }
  }

  /** In whatever order they were put down, they make the stones of the move. */
  lemma PutIsPlace(n: nat, stones: Stones, owner: nat, pending: seq<PendingTile>)
    requires DistinctSquares(pending) && InALine(pending) && PendingInBounds(n, pending) && 0 < n
    ensures var mv := MoveOf(pending);
            PutStones(stones, owner, pending) == Place(stones, owner, mv.horizontal, mv.common, mv.tiles)
  {
    hide PutStones, Place, MoveOf, InALine;
    var mv := MoveOf(pending);
    MoveOfPending(n, pending);
    var put, placed := PutStones(stones, owner, pending), Place(stones, owner, mv.horizontal, mv.common, mv.tiles);
    forall p: Pos
      ensures p in put <==> p in placed
      ensures p in put ==> put[p] == placed[p]
    {
      PutAt(stones, owner, pending, p);
      PlaceAt(stones, owner, mv.horizontal, mv.common, mv.tiles, p);
      SameSquare(mv, pending, p);
    }
  }

  lemma SameSquare(mv: Move, pending: seq<PendingTile>, p: Pos)
    requires forall k :: 0 <= k < |pending| ==>
               CommonCoord(mv.horizontal, pending[k]) == mv.common && AsMoveTile(mv.horizontal, pending[k]) in mv.tiles
    requires forall t :: t in mv.tiles ==> exists k :: 0 <= k < |pending| && AsMoveTile(mv.horizontal, pending[k]) == t
    ensures IsNew(mv, p) <==> exists k :: 0 <= k < |pending| && PosOf(pending[k]) == p
    ensures forall k :: 0 <= k < |pending| && PosOf(pending[k]) == p ==>
              exists j :: 0 <= j < |mv.tiles| && PosAt(mv.horizontal, mv.tiles[j].varCoord, mv.common) == p
                          && mv.tiles[j] == AsMoveTile(mv.horizontal, pending[k])
  {
    if IsNew(mv, p) {
      var j :| 0 <= j < |mv.tiles| && mv.tiles[j].varCoord == Along(mv.horizontal, p);
      assert mv.tiles[j] in mv.tiles;
      var k :| 0 <= k < |pending| && AsMoveTile(mv.horizontal, pending[k]) == mv.tiles[j];
      assert PosOf(pending[k]) == p;
    }
    forall k | 0 <= k < |pending| && PosOf(pending[k]) == p
      ensures IsNew(mv, p)
      ensures exists j :: 0 <= j < |mv.tiles| && PosAt(mv.horizontal, mv.tiles[j].varCoord, mv.common) == p
                          && mv.tiles[j] == AsMoveTile(mv.horizontal, pending[k])
    {
      var j :| 0 <= j < |mv.tiles| && mv.tiles[j] == AsMoveTile(mv.horizontal, pending[k]);
      assert mv.tiles[j].varCoord == Along(mv.horizontal, p);
    }
  }
}
