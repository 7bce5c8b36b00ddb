/** The state of a game and the operations on it (xwords4/common/model.c): board cells, trays, pending
    tiles counted on their squares, scores, and the log of moves. */
module Model {
  import opened Dawg
  import opened Grid
  import opened Score
  import opened Legality
  import opened GameLog
  import opened TurnState
  import Pool

  /** A cell is bare, holds a committed tile, or counts the pending tiles on it. */
  datatype CellTile = Bare | Pending(count: nat) | Placed(stone: Stone)

  ghost predicate CellOk(cell: CellTile, stones: Stones, pending: multiset<Pos>, p: Pos) {
    match cell
    case Bare => p !in stones && pending[p] == 0
    case Pending(count) => p !in stones && 0 < count == pending[p]
    case Placed(stone) => p in stones && stones[p] == stone && pending[p] == 0
  }

  /** Every tile the player has down or has taken back is on the board, and a blank is marked as one. */
  ghost predicate PlayerIn(s: Setup, pl: Player) {
    && PendingInBounds(s.size, pl.pending + pl.undone)
    && forall pt :: pt in pl.pending + pl.undone && pt.tile == s.rules.blank ==> pt.blank
  }

  /** And no two of them claim one square. */
  ghost predicate PlayerOk(s: Setup, pl: Player) {
    DistinctSquares(pl.pending + pl.undone) && PlayerIn(s, pl)
  }

  lemma PlayedIsIn(s: Setup, pl: Player, tileIndex: nat, pt: PendingTile)
    requires PlayerIn(s, pl) && tileIndex < |pl.tray|
    requires pt.col < s.size && pt.row < s.size && (pt.tile == s.rules.blank ==> pt.blank)
    ensures PlayerIn(s, Played(pl, tileIndex, pt))
    ensures Squares(pl.pending + [pt]) == Squares(pl.pending) + [PosOf(pt)]
  {
    var ps := pl.pending + pl.undone;
    var qs := Played(pl, tileIndex, pt).pending + Played(pl, tileIndex, pt).undone;
    assert forall k :: 0 <= k < |pl.pending| ==> ps[k] == pl.pending[k] == qs[k];
    assert forall x :: x in qs ==> x in ps || x == pt;
  }

  lemma PlayedIsOk(s: Setup, pl: Player, tileIndex: nat, pt: PendingTile)
    requires PlayerOk(s, pl) && tileIndex < |pl.tray|
    requires PosOf(pt) !in Squares(pl.pending) && pt.col < s.size && pt.row < s.size
    requires pt.tile == s.rules.blank ==> pt.blank
    ensures PlayerOk(s, Played(pl, tileIndex, pt))
  {
    var ps := pl.pending + pl.undone;
    var qs := Played(pl, tileIndex, pt).pending + Played(pl, tileIndex, pt).undone;
    PlayedIsIn(s, pl, tileIndex, pt);
    assert forall k :: 0 <= k < |pl.pending| ==> ps[k] == pl.pending[k] == qs[k] && Squares(pl.pending)[k] == PosOf(ps[k]);
  }

  lemma TakenBackIsIn(s: Setup, pl: Player, p: Pos, offset: int)
    requires PlayerIn(s, pl) && offset <= |pl.tray|
    ensures PlayerIn(s, TakenBack(s.rules, pl, p, offset))
    ensures var pl' := TakenBack(s.rules, pl, p, offset);
            multiset(Squares(pl'.pending)) + (if pl' == pl then multiset{} else multiset{p}) == multiset(Squares(pl.pending))
    ensures TakenBack(s.rules, pl, p, offset) == pl <==> p !in Squares(pl.pending)
  {
    var i := IndexAt(pl.pending, p);
    if i < |pl.pending| {
      var pl' := TakenBack(s.rules, pl, p, offset);
      var ps, qs := pl.pending + pl.undone, pl'.pending + pl'.undone;
      assert Squares(pl'.pending) == RemoveAt(Squares(pl.pending), i);
      forall k | 0 <= k < |qs|
        ensures qs[k] in ps
      {
      }
      assert forall x :: x in ps ==> x.col < s.size && x.row < s.size;
      assert Squares(pl.pending)[i] == p;
      assert |pl'.pending| != |pl.pending|;
    } else {
      assert forall k :: 0 <= k < |pl.pending| ==> Squares(pl.pending)[k] != p;
    }
  }

  lemma TakenBackIsOk(s: Setup, pl: Player, p: Pos, offset: int)
    requires PlayerOk(s, pl) && offset <= |pl.tray|
    ensures PlayerOk(s, TakenBack(s.rules, pl, p, offset))
    ensures p !in Squares(TakenBack(s.rules, pl, p, offset).pending)
  {
    hide DistinctSquares, PlayerIn, Squares;
    var i := IndexAt(pl.pending, p);
    TakenBackIsIn(s, pl, p, offset);
    TakenBackIsGone(s.rules, pl, p, offset);
    if i < |pl.pending| {
      Rotated(pl.pending, i, pl.undone);
    }
  }

  lemma TakenBackIsGone(rules: Rules, pl: Player, p: Pos, offset: int)
    requires DistinctSquares(pl.pending + pl.undone) && offset <= |pl.tray|
    ensures p !in Squares(TakenBack(rules, pl, p, offset).pending)
  {
    var i := IndexAt(pl.pending, p);
    if i < |pl.pending| {
      var now, ps := RemoveAt(pl.pending, i), pl.pending + pl.undone;
      assert forall k :: 0 <= k < |pl.pending| ==> ps[k] == pl.pending[k];
      forall k | 0 <= k < |now|
        ensures PosOf(now[k]) != p
      {
        var j := if k < i then k else k + 1;
        assert now[k] == ps[j] && ps[i] == pl.pending[i];
      }
    }
  }

  lemma AllTakenBack(s: Setup, was: seq<Player>, turn: nat, p: Pos, offset: int, hidden: multiset<Pos>)
    requires turn < |was| && offset <= |was[turn].tray| && p in Squares(was[turn].pending)
    requires hidden <= AllPending(was) && p !in hidden && forall i :: 0 <= i < |was| ==> PlayerIn(s, was[i])
    ensures var now := was[turn := TakenBack(s.rules, was[turn], p, offset)];
            && (forall i :: 0 <= i < |now| ==> PlayerIn(s, now[i]))
            && ((forall i :: 0 <= i < |was| ==> PlayerOk(s, was[i])) ==> forall i :: 0 <= i < |now| ==> PlayerOk(s, now[i]))
            && hidden <= AllPending(now) && AllPending(now) - hidden == AllPending(was) - hidden - multiset{p}
            && p in AllPending(was) - hidden
            && Hands(s.rules, now) == Hands(s.rules, was) && Scores(now) == Scores(was)
  {
    hide PlayerIn, PlayerOk, AllPending, Hands, Scores, Hand, TakenBack, Squares;
    var pl := was[turn];
    var after := TakenBack(s.rules, pl, p, offset);
    TakenBackKeepsHand(s.rules, pl, p, offset);
    TakenBackIsIn(s, pl, p, offset);
    if forall i :: 0 <= i < |was| ==> PlayerOk(s, was[i]) {
      TakenBackIsOk(s, pl, p, offset);
    }
    PendingChanged(was, turn, after);
    ScoreKept(s.rules, pl, p, offset);
    HandKept(s.rules, was, turn, after);
    OwnAmongAll(was, turn);
    OneLess(AllPending(was[turn := after]), AllPending(was), hidden, multiset(Squares(pl.pending)),
            multiset(Squares(after.pending)), p);
  }

  /** What putting a tile down comes to. */
  lemma DownIs(pl: Player, slot: nat, pt: PendingTile)
    requires slot < |pl.tray|
    ensures WentDown(pl, Played(pl, slot, pt), slot, pt)
  {
  }

  /** What taking a tile back comes to. */
  lemma BackIs(rules: Rules, pl: Player, p: Pos, offset: int)
    requires offset <= |pl.tray|
    ensures var i := IndexAt(pl.pending, p);
            i < |pl.pending| ==>
              CameBack(rules, pl, TakenBack(rules, pl, p, offset), i, if offset < 0 then |pl.tray| else offset)
  {
  }

  lemma ScoreKept(rules: Rules, pl: Player, p: Pos, offset: int)
    requires offset <= |pl.tray|
    ensures TakenBack(rules, pl, p, offset).score == pl.score
  {
  }

  /** Moving one pending tile behind the others keeps squares distinct and in bounds. */
  lemma Rotated(pending: seq<PendingTile>, i: nat, undone: seq<PendingTile>)
    requires i < |pending| && DistinctSquares(pending + undone)
    ensures DistinctSquares(RemoveAt(pending, i) + ([pending[i]] + undone))
    ensures forall x :: x in RemoveAt(pending, i) + ([pending[i]] + undone) ==> x in pending + undone
  {
    var ps := pending + undone;
    var qs := RemoveAt(pending, i) + ([pending[i]] + undone);
    forall j, k | 0 <= j < k < |qs|
      ensures PosOf(qs[j]) != PosOf(qs[k])
    {
      var n := |pending| - 1;
      var j' := if j < i then j else if j < n then j + 1 else if j == n then i else j;
      var k' := if k < i then k else if k < n then k + 1 else if k == n then i else k;
      assert qs[j] == ps[j'] && qs[k] == ps[k'];
    }
  }

  lemma OneLess<T>(a: multiset<T>, b: multiset<T>, hidden: multiset<T>, own: multiset<T>, own': multiset<T>, x: T)
    requires a + own == b + own' && own' + multiset{x} == own
    requires hidden <= b && x !in hidden && own <= b
    ensures hidden <= a && a - hidden == b - hidden - multiset{x} && x in b - hidden
  {
    assert forall y :: (a + own)[y] == a[y] + own[y];
    assert forall y :: (b + own')[y] == b[y] + own'[y];
    assert forall y :: own[y] == own'[y] + multiset{x}[y];
  }

  lemma NextToRedo(s: Setup, pl: Player, stones: Stones, n: nat)
    requires n < |pl.undone| && PlayerIn(s, pl)
    ensures var pt := pl.undone[n];
            pt.col < s.size && pt.row < s.size && (pt.tile == s.rules.blank ==> pt.blank)
    ensures |Placeable(stones, pl.undone[..n + 1])| <= |Placeable(stones, pl.undone)|
  {
    hide Placeable;
    assert pl.undone[n] == (pl.pending + pl.undone)[|pl.pending| + n];
    PlaceableNext(stones, pl.undone, n);
    PlaceableConcat(stones, pl.undone[..n + 1], pl.undone[n + 1..]);
    assert pl.undone == pl.undone[..n + 1] + pl.undone[n + 1..];
  }

  lemma OneRedone(rules: Rules, stones: Stones, pl: Player, n: nat)
    requires n < |pl.undone| && |Placeable(stones, pl.undone[..n + 1])| <= |pl.tray|
    requires |Placeable(stones, pl.undone[..n])| <= |pl.tray|
    ensures var mid := RedoAll(rules, stones, pl, pl.undone[..n]);
            RedoAll(rules, stones, pl, pl.undone[..n + 1]) ==
            if PosOf(pl.undone[n]) in stones then mid else
              (assert mid.tray != [] by { PlaceableNext(stones, pl.undone, n); } Redoing(rules, mid, pl.undone[n]))
  {
    assert pl.undone[..n + 1][..n] == pl.undone[..n];
  }

  /** Tiles put down so far are on squares apart from that of the next one. */
  lemma SquareFree(rules: Rules, was: Player, stones: Stones, n: nat)
    requires DistinctSquares(was.pending + was.undone) && n < |was.undone|
    requires |Placeable(stones, was.undone[..n])| <= |was.tray|
    ensures PosOf(was.undone[n]) !in Squares(RedoAll(rules, stones, was, was.undone[..n]).pending)
  {
    hide RedoAll;
    RedoneSquares(rules, stones, was, was.undone[..n]);
    var ps := was.pending + was.undone;
    var placed := Placeable(stones, was.undone[..n]);
    assert ps[|was.pending| + n] == was.undone[n];
    forall k | 0 <= k < |was.pending|
      ensures Squares(was.pending)[k] != PosOf(was.undone[n])
    {
      assert was.pending[k] == ps[k];
    }
    forall k | 0 <= k < |placed|
      ensures Squares(placed)[k] != PosOf(was.undone[n])
    {
      assert placed[k] in was.undone[..n];
      var j :| 0 <= j < n && was.undone[j] == placed[k];
      assert ps[|was.pending| + j] == placed[k];
    }
  }

  /** `now` is `was` with the first `upto` players other than `me` cleared off the squares. */
  ghost predicate Cleared(was: seq<Player>, now: seq<Player>, me: nat, squares: set<Pos>, upto: nat) {
    && |was| == |now| && me < |was| && now[me] == was[me]
    && (forall i :: 0 <= i < |was| && i < upto && i != me ==> now[i].pending == NotOn(was[i].pending, squares))
    && forall i :: upto <= i < |was| ==> now[i] == was[i]
  }

  lemma NextCleared(s: Setup, was: seq<Player>, before: seq<Player>, me: nat, p: Pos, turn: nat)
    requires Cleared(was, before, me, {p}, turn) && turn < |was| && turn != me && PlayerOk(s, was[turn])
    ensures Cleared(was, before[turn := TakenBack(s.rules, before[turn], p, -1)], me, {p}, turn + 1)
  {
    var pl := was[turn];
    var i := IndexAt(pl.pending, p);
    assert DistinctSquares(pl.pending) by { PendingDistinct(s, pl); }
    if i < |pl.pending| {
      TakenBackNotOn(pl.pending, i);
    } else {
      NotOnNone(pl.pending, {p});
    }
  }

  lemma PendingDistinct(s: Setup, pl: Player)
    requires PlayerOk(s, pl)
    ensures DistinctSquares(pl.pending) && PendingInBounds(s.size, pl.pending)
  {
    var ps := pl.pending + pl.undone;
    assert forall k :: 0 <= k < |pl.pending| ==> ps[k] == pl.pending[k];
  }

  lemma ClearedMore(was: seq<Player>, mid: seq<Player>, now: seq<Player>, me: nat, squares: set<Pos>, p: Pos)
    requires Cleared(was, mid, me, squares, |was|) && Cleared(mid, now, me, {p}, |was|)
    ensures Cleared(was, now, me, squares + {p}, |was|)
  {
    forall i | 0 <= i < |was| && i != me
      ensures now[i].pending == NotOn(was[i].pending, squares + {p})
    {
      NotOnTwice(was[i].pending, squares, {p});
    }
  }

  lemma NotOnHasNone(pending: seq<PendingTile>, squares: set<Pos>, p: Pos)
    requires p in squares
    ensures p !in Squares(NotOn(pending, squares))
  {
    NotOnMembers(pending, squares);
  }

  lemma {:induction false} NotOnMembers(pending: seq<PendingTile>, squares: set<Pos>)
    ensures forall k :: 0 <= k < |NotOn(pending, squares)| ==> PosOf(NotOn(pending, squares)[k]) !in squares
    decreases |pending|
  {
    if pending != [] {
      NotOnMembers(pending[..|pending| - 1], squares);
    }
  }

  /** With the others off the square, one pending tile is left there; and if there is only one, there is
      nobody to clear. */
  lemma OneLeft(s: Setup, players: seq<Player>, me: nat, p: Pos)
    requires me < |players| && p in Squares(players[me].pending)
    requires forall i :: 0 <= i < |players| ==> PlayerOk(s, players[i])
    ensures AllPending(players)[p] == 1 <==>
            forall i :: 0 <= i < |players| && i != me ==> p !in Squares(players[i].pending)
    ensures AllPending(players)[p] == 1 ==> Cleared(players, players, me, {p}, |players|)
    ensures AllPending(players)[p] >= 1
  {
    forall i | 0 <= i < |players|
      ensures DistinctSquares(players[i].pending)
    {
      PendingDistinct(s, players[i]);
    }
    RefcountIsPlayers(players, p);
    OnlyMine(players, me, p);
    SomeoneThere(players, me, p);
    forall i | 0 <= i < |players| && p !in Squares(players[i].pending)
      ensures NotOn(players[i].pending, {p}) == players[i].pending
    {
      assert forall k :: 0 <= k < |players[i].pending| ==> Squares(players[i].pending)[k] != p;
      NotOnNone(players[i].pending, {p});
    }
  }

  function SquareSet(pending: seq<PendingTile>): set<Pos> {
    set p | p in Squares(pending)
  }

  lemma OneMoreSquare(pending: seq<PendingTile>, ii: nat)
    requires ii < |pending|
    ensures SquareSet(pending[..ii + 1]) == SquareSet(pending[..ii]) + {PosOf(pending[ii])}
  {
    assert Squares(pending[..ii + 1]) == Squares(pending[..ii]) + [PosOf(pending[ii])];
  }

  lemma NothingCleared(players: seq<Player>, me: nat)
    requires me < |players|
    ensures Cleared(players, players, me, SquareSet([]), |players|)
  {
    forall i | 0 <= i < |players|
      ensures NotOn(players[i].pending, SquareSet([])) == players[i].pending
    {
      NotOnNone(players[i].pending, SquareSet([]));
    }
  }

  lemma UnplaceOne(stones: Stones, horizontal: bool, common: nat, ts: seq<MoveTile>, ii: nat)
    requires Ascending(ts) && ii < |ts|
    ensures Unplace(stones, horizontal, common, ts[..ii + 1]) ==
            Unplace(stones, horizontal, common, ts[..ii]) - {PosAt(horizontal, ts[ii].varCoord, common)}
    ensures PosAt(horizontal, ts[ii].varCoord, common) in stones ==>
            PosAt(horizontal, ts[ii].varCoord, common) in Unplace(stones, horizontal, common, ts[..ii])
  {
    assert ts[..ii + 1][..ii] == ts[..ii];
    UnplaceAt(stones, horizontal, common, ts[..ii], PosAt(horizontal, ts[ii].varCoord, common));
    assert !Covers(ts[..ii], ts[ii].varCoord);
  }

  lemma RackOne(rules: Rules, ts: seq<MoveTile>, ii: nat)
    requires ii < |ts|
    ensures RackTiles(rules, ts[..ii + 1]) == RackTiles(rules, ts[..ii]) + multiset{RackTile(rules, ts[ii].tile, ts[ii].blank)}
  {
    assert ts[..ii + 1][..ii] == ts[..ii];
  }

  lemma RackPrefix(rules: Rules, ts: seq<MoveTile>, k: nat)
    requires k <= |ts|
    ensures RackTiles(rules, ts[..k]) <= RackTiles(rules, ts)
  {
    hide RackTiles;
    assert ts == ts[..k] + ts[k..];
    RackConcat(rules, ts[..k], ts[k..]);
  }

  /** `now` has the first `n` tiles of the move pending, out of the tray of `was`. */
  ghost predicate PutDown(rules: Rules, was: Player, now: Player, mv: Move, n: nat) {
    && n <= |mv.tiles| && now.pending == PendingOf(mv)[..n] && now.score == was.score
    && multiset(now.tray) == multiset(was.tray) - RackTiles(rules, mv.tiles[..n])
    && now.curMoveValid == (was.curMoveValid && n == 0) && now.curMoveScore == was.curMoveScore
    && RackTiles(rules, mv.tiles) <= multiset(was.tray)
  }

  lemma NextToPutDown(rules: Rules, was: Player, now: Player, mv: Move, n: nat)
    requires PutDown(rules, was, now, mv, n) && n < |mv.tiles| && Ascending(mv.tiles)
    ensures RackTile(rules, mv.tiles[n].tile, mv.tiles[n].blank) in now.tray
    ensures PosOf(AsPending(mv, n)) !in Squares(now.pending)
    ensures forall i :: 0 <= i < |now.tray| && now.tray[i] == RackTile(rules, mv.tiles[n].tile, mv.tiles[n].blank) ==>
              PutDown(rules, was, Played(now, i, AsPending(mv, n)), mv, n + 1)
  {
    hide RackTiles, RackTile;
    var x := RackTile(rules, mv.tiles[n].tile, mv.tiles[n].blank);
    RackOne(rules, mv.tiles, n);
    RackPrefix(rules, mv.tiles, n + 1);
    assert x in multiset(now.tray);
    forall i | 0 <= i < |now.tray| && now.tray[i] == x
      ensures PutDown(rules, was, Played(now, i, AsPending(mv, n)), mv, n + 1)
    {
      assert PendingOf(mv)[..n + 1] == PendingOf(mv)[..n] + [AsPending(mv, n)];
      TakenOut(multiset(was.tray), RackTiles(rules, mv.tiles[..n]), multiset(RemoveAt(now.tray, i)), x);
    }
    forall k | 0 <= k < n
      ensures PosOf(now.pending[k]) != PosOf(AsPending(mv, n))
    {
      assert now.pending[k] == AsPending(mv, k) && mv.tiles[k].varCoord < mv.tiles[n].varCoord;
    }
  }

  lemma TakenOut<T>(all: multiset<T>, some: multiset<T>, left: multiset<T>, x: T)
    requires left + multiset{x} == all - some
    ensures left == all - (some + multiset{x})
  {
    assert forall y :: (left + multiset{x})[y] == left[y] + multiset{x}[y];
  }

  lemma PassScoresNothing(s: Setup, stones: Stones, mv: Move)
    requires OnBoard(s.size, mv)
    ensures mv.tiles == [] ==> Scored(s, stones, mv) == 0
  {
  }

  /** What committing comes to: the pending tiles are stones, the hand has changed as drawn, the score is
      up, no score is marked current, and nobody has a tile pending on the new stones. */
  ghost predicate Committed(s: Setup, was: seq<Player>, before: Stones, now: seq<Player>, after: Stones,
                            turn: nat, newTiles: seq<Tile>, score: int) {
    && turn < |was| == |now|
    && after == PutStones(before, turn, was[turn].pending)
    && Hands(s.rules, now) ==
       Hands(s.rules, was)[turn := Hand(s.rules, was[turn]) - PendingTiles(s.rules, was[turn].pending) + multiset(newTiles)]
    && Scores(now) == Scores(was)[turn := was[turn].score + score]
    && now[turn].pending == [] && now[turn].undone == []
    && (forall i :: 0 <= i < |now| ==> !now[i].curMoveValid) && AllKeep(s.rules, was, now)
    && forall i :: 0 <= i < |now| && i != turn ==> now[i].pending == NotOn(was[i].pending, SquareSet(was[turn].pending))
  }

  /** The pending tiles are on the board, others have made way, and the score is figured. */
  ghost predicate PlacedAndScored(s: Setup, was: seq<Player>, now: seq<Player>, turn: nat, score: int) {
    && turn < |was| == |now|
    && exists placed: seq<Player> :: Cleared(was, placed, turn, SquareSet(was[turn].pending), |was|)
         && Hands(s.rules, placed) == Hands(s.rules, was) && Scores(placed) == Scores(was) && AllKeep(s.rules, was, placed)
         && now == placed[turn := placed[turn].(curMoveScore := score, curMoveValid := true)]
  }

  ghost predicate Finished(was: seq<Player>, now: seq<Player>, turn: nat, newTiles: seq<Tile>, score: int) {
    && turn < |was| == |now|
    && now[turn].pending == [] && now[turn].undone == [] && now[turn].score == was[turn].score + score
    && multiset(now[turn].tray) == multiset(was[turn].tray) + multiset(newTiles)
    && (forall i :: 0 <= i < |was| ==> !now[i].curMoveValid)
    && forall i :: 0 <= i < |was| && i != turn ==> now[i] == was[i].(curMoveValid := false)
  }

  lemma FinishedHands(rules: Rules, was: seq<Player>, placed: seq<Player>, now: seq<Player>, turn: nat, newTiles: seq<Tile>)
    requires turn < |was| == |placed| == |now| && Hands(rules, placed) == Hands(rules, was) && placed[turn] == was[turn]
    requires now[turn].pending == [] && multiset(now[turn].tray) == multiset(was[turn].tray) + multiset(newTiles)
    requires forall i :: 0 <= i < |was| && i != turn ==> now[i].tray == placed[i].tray && now[i].pending == placed[i].pending
    ensures Hands(rules, now) ==
            Hands(rules, was)[turn := Hand(rules, was[turn]) - PendingTiles(rules, was[turn].pending) + multiset(newTiles)]
  {
    var changed := Hand(rules, was[turn]) - PendingTiles(rules, was[turn].pending) + multiset(newTiles);
    assert Hand(rules, now[turn]) == changed;
    forall i | 0 <= i < |was| && i != turn
      ensures Hands(rules, now)[i] == Hands(rules, was)[i]
    {
      assert Hands(rules, placed)[i] == Hands(rules, was)[i];
    }
  }

  lemma FinishedScores(was: seq<Player>, placed: seq<Player>, now: seq<Player>, turn: nat, score: int)
    requires turn < |was| == |placed| == |now| && Scores(placed) == Scores(was)
    requires now[turn].score == was[turn].score + score
    requires forall i :: 0 <= i < |was| && i != turn ==> now[i].score == placed[i].score
    ensures Scores(now) == Scores(was)[turn := was[turn].score + score]
  {
    forall i | 0 <= i < |was| && i != turn
      ensures Scores(now)[i] == Scores(was)[i]
    {
      assert Scores(placed)[i] == Scores(was)[i];
    }
  }

  lemma FinishedIsCommitted(s: Setup, was: seq<Player>, before: Stones, mid: seq<Player>, now: seq<Player>,
                            turn: nat, newTiles: seq<Tile>, score: int)
    requires PlacedAndScored(s, was, mid, turn, score) && Finished(mid, now, turn, newTiles, score)
    ensures Committed(s, was, before, now, PutStones(before, turn, was[turn].pending), turn, newTiles, score)
  {
    hide PutStones, NotOn, SquareSet, Hand, Hands, Scores, PendingTiles, HasUndone;
    var placed: seq<Player> :| Cleared(was, placed, turn, SquareSet(was[turn].pending), |was|)
         && Hands(s.rules, placed) == Hands(s.rules, was) && Scores(placed) == Scores(was) && AllKeep(s.rules, was, placed)
         && mid == placed[turn := placed[turn].(curMoveScore := score, curMoveValid := true)];
    FinishedHands(s.rules, was, placed, now, turn, newTiles);
    assert Scores(placed)[turn] == Scores(was)[turn];
    FinishedScores(was, placed, now, turn, score);
    FinishedKeeps(s.rules, was, placed, now, turn);
  }

  lemma FinishedKeeps(rules: Rules, was: seq<Player>, placed: seq<Player>, now: seq<Player>, turn: nat)
    requires turn < |placed| == |now| && AllKeep(rules, was, placed) && now[turn].undone == []
    requires forall i :: 0 <= i < |now| && i != turn ==> now[i].undone == placed[i].undone && now[i].tray == placed[i].tray
    ensures AllKeep(rules, was, now)
  {
  }

  lemma OneMoreKeeps(rules: Rules, was: seq<Player>, mid: seq<Player>, turn: nat, p: Pos)
    requires AllKeep(rules, was, mid) && turn < |mid|
    ensures AllKeep(rules, was, mid[turn := TakenBack(rules, mid[turn], p, -1)])
  {
    hide PendingTiles, TakenBack;
    if HasUndone(rules, mid[turn]) {
      TakenBackHas(rules, mid[turn], p, -1);
    }
  }

  /** On the committed game that is the entry applied, with the score that was added. */
  lemma CommittedIsApplied(s: Setup, was: seq<Player>, before: Stones, now: seq<Player>, after: Stones,
                           turn: nat, newTiles: seq<Tile>, score: int, pool: multiset<Tile>)
    requires Committed(s, was, before, now, after, turn, newTiles, score)
    requires |was| == s.nPlayers && PlayerOk(s, was[turn]) && InALine(was[turn].pending)
    requires PendingTiles(s.rules, was[turn].pending) == RackTiles(s.rules, MoveOf(was[turn].pending).tiles)
    requires var g := Game(before, Hands(s.rules, was), Scores(was), pool);
             ValidEntry(s, g, MoveEntry(turn, MoveOf(was[turn].pending), newTiles))
    ensures var g := Game(before, Hands(s.rules, was), Scores(was), pool);
            Game(after, Hands(s.rules, now), Scores(now), pool - multiset(newTiles)) ==
            Apply(s, g, MoveEntry(turn, MoveOf(was[turn].pending), newTiles))
              .(scores := Scores(was)[turn := was[turn].score + score])
  {
    hide PutStones, Place, MoveOf, PendingTiles, RackTiles, NotOn, SquareSet, Scored, Playable;
    PendingDistinct(s, was[turn]);
    PutIsPlace(s.size, before, turn, was[turn].pending);
  }

  lemma Without<T>(a: multiset<T>, b: multiset<T>, x: multiset<T>)
    requires a + x == b + multiset{}
    ensures a == b - x
  {
    assert forall y :: (a + x)[y] == a[y] + x[y];
    assert forall y :: (b + multiset{})[y] == b[y];
  }

  lemma NothingHidden<T>(a: multiset<T>)
    ensures a - multiset{} == a
  {
  }

  lemma OneMore<T>(a: multiset<T>, b: multiset<T>, own: multiset<T>, x: T)
    requires a + own == b + (own + multiset{x})
    ensures a == b + multiset{x}
  {
    assert forall y :: (a + own)[y] == a[y] + own[y];
    assert forall y :: (b + (own + multiset{x}))[y] == b[y] + own[y] + multiset{x}[y];
  }

  /** Only the tray of the one player differs. */
  ghost predicate TrayOnly(was: seq<Player>, now: seq<Player>, turn: nat) {
    turn < |was| == |now| && now == was[turn := was[turn].(tray := now[turn].tray)]
  }

  lemma TrayOnlyTwice(was: seq<Player>, mid: seq<Player>, now: seq<Player>, turn: nat)
    requires TrayOnly(was, mid, turn) && TrayOnly(mid, now, turn)
    ensures TrayOnly(was, now, turn)
  {
  }

  lemma TrayOnlySame(was: seq<Player>, turn: nat)
    requires turn < |was|
    ensures TrayOnly(was, was, turn)
  {
  }

  lemma TrayOnlyLength(was: seq<Player>, now: seq<Player>, turn: nat)
    requires TrayOnly(was, now, turn)
    ensures turn < |was| == |now|
  {
  }

  class Model {
    const setup: Setup
    const tiles: array2<CellTile>
    var players: seq<Player>
    /** The move stack, as the list of entries it stands for. */
    var log: seq<Entry>
    /** The committed tiles, which the cells hold. */
    ghost var stones: Stones
    /** By how much each player's score is off what the log gives. */
    ghost var drift: seq<int>

    ghost predicate CellsOk(pending: multiset<Pos>)
      reads this`stones, tiles
    {
      && tiles.Length0 == tiles.Length1 == setup.size
      && InBounds(setup.size, stones)
      && forall c: nat, r: nat :: c < setup.size && r < setup.size ==> CellOk(tiles[r, c], stones, pending, Pos(c, r))
    }

    ghost predicate PlayersOk()
      reads this`players
    {
      |players| == setup.nPlayers && forall i :: 0 <= i < |players| ==> PlayerOk(setup, players[i])
    }

    ghost predicate Valid()
      reads this`players, this`stones, tiles
    {
      PlayersOk() && CellsOk(AllPending(players))
    }

    /** The same, but a player may have two tiles that claim one square. */
    ghost predicate Sound()
      reads this`players, this`stones, tiles
    {
      PlayersIn() && CellsOk(AllPending(players))
    }

    ghost predicate PlayersIn()
      reads this`players
    {
      |players| == setup.nPlayers && forall i :: 0 <= i < |players| ==> PlayerIn(setup, players[i])
    }

    lemma OkIsIn()
      requires PlayersOk()
      ensures PlayersIn()
    {
    }

    lemma InPlayer(turn: nat)
      requires PlayersIn() && turn < setup.nPlayers
      ensures turn < |players| && PlayerIn(setup, players[turn])
    {
    }

    /** The committed game, with each hand the tray and the pending tiles together. */
    ghost function Now(pool: multiset<Tile>): Game
      reads this`players, this`stones
    {
      Game(stones, Hands(setup.rules, players), Scores(players), pool)
    }

    /** The game that is on the board and in the trays is the one the log describes. */
    ghost predicate Faithful()
      reads this`players, this`stones, this`log
    {
      Replay(setup, log).Some? && Replay(setup, log).value == Now(LogPool())
    }

    /** The same, except that the scores are off by the drift. */
    ghost predicate Tracks()
      reads this`players, this`stones, this`log, this`drift
    {
      && Replay(setup, log).Some? && |drift| == |Replay(setup, log).value.scores| == setup.nPlayers
      && Now(LogPool()) == Drifted(Replay(setup, log).value, drift)
    }

    ghost predicate NoDrift()
      reads this`drift
    {
      forall i :: 0 <= i < |drift| ==> drift[i] == 0
    }

    lemma PoolAtStart()
      requires log == []
      ensures LogPool() == setup.letters
    {
    }

    lemma NoDriftAt()
      ensures NoDrift() <==> forall i :: 0 <= i < |drift| ==> drift[i] == 0
    {
    }

    lemma FaithfulIff()
      requires Tracks()
      ensures Faithful() <==> NoDrift()
    {
      DriftedSame(Replay(setup, log).value, Replay(setup, log).value, drift);
    }

    /** An entry that made the live game what it is has been added to the log of the game before. */
    lemma TracksEntry(before: seq<Entry>, g: Game, e: Entry)
      requires log == before + [e] && Replay(setup, before).Some?
      requires |drift| == |Replay(setup, before).value.scores| == setup.nPlayers
      requires g == Drifted(Replay(setup, before).value, drift)
      requires ValidEntry(setup, g, e) && Now(Apply(setup, g, e).pool) == Apply(setup, g, e)
      ensures Tracks() && LogPool() == Apply(setup, g, e).pool
    {
      hide ValidEntry, Apply;
      var r := Replay(setup, before).value;
      ApplyDrifted(setup, r, e, drift);
      ReplayPushed(setup, before, e);
    }

    /** What the pool must hold, by the log. */
    ghost function LogPool(): multiset<Tile>
      reads this`log
    {
      var r := Replay(setup, log);
      if r.Some? then r.value.pool else multiset{}
    }

    constructor (setup: Setup)
      ensures this.setup == setup && Valid() && fresh(tiles) && Faithful() && Tracks() && Settled() && Now(setup.letters) == Start(setup)
      ensures log == [] && stones == map[] && forall i :: 0 <= i < |players| ==> players[i] == Player(0, 0, false, [], [], [])
    {
      this.setup := setup;
      tiles := new CellTile[setup.size, setup.size]((_, _) => Bare);
      players := seq(setup.nPlayers, _ => Player(0, 0, false, [], [], []));
      log := [];
      stones := map[];
      drift := seq(setup.nPlayers, _ => 0);
      new;
      forall c: nat, r: nat | c < setup.size && r < setup.size
        ensures CellOk(tiles[r, c], stones, AllPending(players), Pos(c, r))
      {
        NonePending(players, Pos(c, r));
      }
      EmptyGame(setup, players);
      DriftedSame(Start(setup), Start(setup), drift);
    }

    static lemma EmptyGame(s: Setup, players: seq<Player>)
      requires |players| == s.nPlayers && forall i :: 0 <= i < |players| ==> players[i] == Player(0, 0, false, [], [], [])
      ensures Game(map[], Hands(s.rules, players), Scores(players), s.letters) == Start(s)
      ensures Replay(s, []) == Some(Start(s))
    {
      forall i | 0 <= i < |players|
        ensures Hands(s.rules, players)[i] == Start(s).hands[i]
      {
        TrayIsHand(s.rules, players[i]);
        assert Hands(s.rules, players)[i] == Hand(s.rules, players[i]);
      }
      assert Scores(players) == Start(s).scores;
    }

    method IncrPendingTileCountAt(col: nat, row: nat, ghost pending: multiset<Pos>)
      requires CellsOk(pending) && col < setup.size && row < setup.size && Pos(col, row) !in stones
      modifies tiles
      ensures CellsOk(pending + multiset{Pos(col, row)})
    {
      var val := 0;
      if tiles[row, col].Pending? {
        val := tiles[row, col].count;
      }
      tiles[row, col] := Pending(val + 1);
    }

    method DecrPendingTileCountAt(col: nat, row: nat, ghost pending: multiset<Pos>)
      requires CellsOk(pending) && col < setup.size && row < setup.size && Pos(col, row) in pending
      modifies tiles
      ensures CellsOk(pending - multiset{Pos(col, row)})
    {
      var val := tiles[row, col].count - 1;
      tiles[row, col] := if val > 0 then Pending(val) else Bare;
    }

    /** A tile of the tray, the last one when no slot is given, goes on the board, a blank as the face the
        player gives it. No committed tile is there. */
    method MoveTrayToBoard(turn: nat, col: nat, row: nat, tileIndex: int, blankFace: Tile)
      requires Sound() && turn < setup.nPlayers && tileIndex < |players[turn].tray| && players[turn].tray != []
      requires col < setup.size && row < setup.size && Pos(col, row) !in stones
      modifies this`players, tiles
      ensures Sound()
      ensures old(PlayersOk()) && Pos(col, row) !in old(Squares(players[turn].pending)) ==> Valid()
      ensures var slot: nat := if tileIndex < 0 then |old(players[turn].tray)| - 1 else tileIndex;
              var tile := old(players[turn].tray)[slot];
              var blank := tile == setup.rules.blank;
              players == old(players)[turn := Played(old(players[turn]), slot,
                                                     PendingTile(col, row, if blank then blankFace else tile, blank))]
      ensures var slot: nat := if tileIndex < 0 then |old(players[turn].tray)| - 1 else tileIndex;
              var tile := old(players[turn].tray)[slot];
              WentDown(old(players[turn]), players[turn], slot,
                       if tile == setup.rules.blank then PendingTile(col, row, blankFace, true) else PendingTile(col, row, tile, false))
      ensures forall pool :: Now(pool) == old(Now(pool))
    {
      hide CellsOk, PlayerIn, PlayerOk, Hand, Hands, Scores, RemoveAt, AllPending, WentDown;
      var player := players[turn];
      var slot: nat := if tileIndex < 0 then |player.tray| - 1 else tileIndex;
      var tile := player.tray[slot];
      var blank := false;
      if tile == setup.rules.blank {
        tile, blank := blankFace, true;
      }
      var pt := PendingTile(col, row, tile, blank);
      ghost var was := players;
      PlayedKeepsHand(setup.rules, player, slot, pt);
      DownIs(player, slot, pt);
      PlayedIsIn(setup, player, slot, pt);
      if PlayersOk() && PosOf(pt) !in Squares(player.pending) {
        PlayedIsOk(setup, player, slot, pt);
      }
      PendingChanged(players, turn, Played(player, slot, pt));
      HandKept(setup.rules, players, turn, Played(player, slot, pt));
      players := players[turn := player.(tray := RemoveAt(player.tray, slot), undone := [],
                                         pending := player.pending + [pt], curMoveValid := false)];
      IncrPendingTileCountAt(col, row, AllPending(was));
      OneMore(AllPending(players), AllPending(was), multiset(Squares(player.pending)), Pos(col, row));
    }

    /** The player's pending tile on the square, if there is one, goes back to the tray. `hidden` are pending
        squares whose cells are already committed, while a turn is being committed. */
    method MoveBoardToTray(turn: nat, col: nat, row: nat, trayOffset: int, ghost hidden: multiset<Pos>)
      requires PlayersIn() && hidden <= AllPending(players) && CellsOk(AllPending(players) - hidden)
      requires turn < setup.nPlayers && trayOffset <= |players[turn].tray| && Pos(col, row) !in hidden
      modifies this`players, tiles
      ensures PlayersIn() && hidden <= AllPending(players) && CellsOk(AllPending(players) - hidden)
      ensures old(PlayersOk()) ==> PlayersOk()
      ensures players == old(players)[turn := TakenBack(setup.rules, old(players[turn]), Pos(col, row), trayOffset)]
      ensures var was := old(players[turn]);
              var i := IndexAt(was.pending, Pos(col, row));
              if i < |was.pending| then
                CameBack(setup.rules, was, players[turn], i, if trayOffset < 0 then |was.tray| else trayOffset)
              else players == old(players)
      ensures forall pool :: Now(pool) == old(Now(pool))
    {
      hide CellsOk, PlayerIn, PlayerOk, Hand, Hands, Scores, RemoveAt, AllPending, InsertAt, CameBack;
      BackIs(setup.rules, players[turn], Pos(col, row), trayOffset);
      var player := players[turn];
      var index := 0;
      while index < |player.pending|
        invariant 0 <= index <= |player.pending|
        invariant forall k :: 0 <= k < index ==> PosOf(player.pending[k]) != Pos(col, row)
      {
        if player.pending[index].col == col && player.pending[index].row == row {
          break;
        }
        index := index + 1;
      }
      if index < |player.pending| {
        var pt := player.pending[index];
        assert Squares(player.pending)[index] == Pos(col, row);
        AllTakenBack(setup, players, turn, Pos(col, row), trayOffset, hidden);
        OwnInBounds(turn, index);
        DecrPendingTileCountAt(col, row, AllPending(players) - hidden);
        var tile: Tile := if pt.blank then setup.rules.blank else pt.tile;
        var at: nat := if trayOffset < 0 then |player.tray| else trayOffset;
        players := players[turn := player.(tray := InsertAt(player.tray, at, tile), curMoveValid := false,
                                           pending := RemoveAt(player.pending, index), undone := [pt] + player.undone)];
      }
    }

    lemma OwnInBounds(turn: nat, index: nat)
      requires PlayersIn() && turn < setup.nPlayers && index < |players[turn].pending|
      ensures players[turn].pending[index].col < setup.size && players[turn].pending[index].row < setup.size
    {
      assert (players[turn].pending + players[turn].undone)[index] == players[turn].pending[index];
    }

    /** Everything goes back to the tray, and can be put down again, last one first. */
    method ResetCurrentTurn(whose: nat)
      requires Sound() && whose < setup.nPlayers
      modifies this`players, tiles
      ensures Sound() && (old(PlayersOk()) ==> Valid())
      ensures var was, now := old(players[whose]), players[whose];
              && players == old(players)[whose := now]
              && now.pending == [] && now.undone == Reversed(was.pending) + was.undone
              && now.score == was.score && now.curMoveScore == was.curMoveScore
              && now.curMoveValid == (was.curMoveValid && was.pending == [])
              && (was.pending == [] ==> now == was)
      ensures forall pool :: Now(pool) == old(Now(pool))
    {
      hide CellsOk, PlayerIn, PlayerOk, Hand, Hands, Scores, RemoveAt, InsertAt, AllPending, CameBack;
      ghost var was := players;
      while players[whose].pending != []
        invariant Sound() && (old(PlayersOk()) ==> PlayersOk())
        invariant var now := players[whose];
                  && players == was[whose := now]
                  && now.score == was[whose].score && now.curMoveScore == was[whose].curMoveScore
                  && now.curMoveValid == (was[whose].curMoveValid && now.pending == was[whose].pending)
                  && Reversed(now.pending) + now.undone == Reversed(was[whose].pending) + was[whose].undone
                  && |now.pending| <= |was[whose].pending|
                  && (was[whose].pending == [] ==> now == was[whose])
        invariant forall pool :: Now(pool) == old(Now(pool))
        decreases |players[whose].pending|
      {
        ghost var before := players[whose];
        FirstBack(setup.rules, before);
        NothingHidden(AllPending(players));
        MoveBoardToTray(whose, players[whose].pending[0].col, players[whose].pending[0].row, -1, multiset{});
        NothingHidden(AllPending(players));
      }
    }

    /** Searched from the top down. */
    method TrayContains(turn: nat, tile: Tile) returns (index: int)
      requires turn < |players|
      ensures index == if tile in players[turn].tray then LastAt(players[turn].tray, tile) else -1
      ensures index < |players[turn].tray| && (0 <= index ==> players[turn].tray[index] == tile)
    {
      index := |players[turn].tray| - 1;
      while 0 <= index
        invariant -1 <= index < |players[turn].tray|
        invariant tile !in players[turn].tray[index + 1..]
      {
        if players[turn].tray[index] == tile {
          LastIs(players[turn].tray, tile, index);
          return;
        }
        index := index - 1;
      }
    }

    static lemma LastIs(tray: seq<Tile>, tile: Tile, i: nat)
      requires i < |tray| && tray[i] == tile && tile !in tray[i + 1..]
      ensures LastAt(tray, tile) == i
    {
      assert forall k :: i < k < |tray| ==> tray[k] == tray[i + 1..][k - i - 1];
    }

    /** Puts a tile down again, out of its slot in the tray or, failing that, out of the last one. */
    method RedoOne(turn: nat, pt: PendingTile) returns (placed: bool, strayed: bool)
      requires Sound() && turn < setup.nPlayers && pt.col < setup.size && pt.row < setup.size
      modifies this`players, tiles
      ensures Sound() && (old(PlayersOk()) && PosOf(pt) !in old(Squares(players[turn].pending)) ==> Valid())
      ensures strayed <==> PosOf(pt) !in stones && old(players[turn].tray) == []
      ensures placed <==> PosOf(pt) !in stones && !strayed
      ensures players == if placed then old(players)[turn := Redoing(setup.rules, old(players[turn]), pt)] else old(players)
      ensures forall pool :: Now(pool) == old(Now(pool))
    {
      hide Hand, Hands, Scores, RemoveAt, AllPending, PlayerIn, PlayerOk;
      var tile := if pt.blank then setup.rules.blank else pt.tile;
      var foundAt := TrayContains(turn, tile);
      CellAt(pt.col, pt.row, AllPending(players));
      placed, strayed := !tiles[pt.row, pt.col].Placed?, false;
      if placed && players[turn].tray == [] {
        return false, true;
      }
      if placed {
        MoveTrayToBoard(turn, pt.col, pt.row, foundAt, pt.tile);
      }
    }

    /** Puts down again what was taken back, wherever no committed tile has come in the way. When the tray runs
        out first the original reads the tile before its array: the redo strays. */
    method RedoPendingTiles(turn: nat) returns (any: bool, strayed: bool)
      requires Sound() && turn < setup.nPlayers
      modifies this`players, tiles
      ensures Sound() && (old(PlayersOk()) ==> Valid())
      ensures |players| == old(|players|) && players == old(players)[turn := players[turn]]
      ensures strayed <==> |old(players[turn].tray)| < |Placeable(stones, old(players[turn].undone))|
      ensures !strayed ==>
                var was := old(players[turn]);
                && players[turn] == RedoAll(setup.rules, stones, was, was.undone)
                && (any <==> Placeable(stones, was.undone) != [])
      ensures forall pool :: Now(pool) == old(Now(pool))
    {
      hide CellsOk, PlayerIn, PlayerOk, Hands, Scores, AllPending, RackTile, Squares, RedoAll, Redoing, Placeable, LastAt,
        PlayersOk, PlayersIn;
      InPlayer(turn);
      ghost var all, was := players, players[turn];
      ghost var ok := PlayersOk();
      if ok {
        OkPlayer(turn);
      }
      var undone := players[turn].undone;
      var ii := 0;
      any, strayed := false, false;
      NothingRedone(setup.rules, stones, was);
      while ii < |undone|
        invariant 0 <= ii <= |undone| && Sound() && (ok ==> PlayersOk()) && !strayed
        invariant |Placeable(stones, undone[..ii])| <= |was.tray|
        invariant players == all[turn := RedoAll(setup.rules, stones, was, undone[..ii])]
        invariant any <==> Placeable(stones, undone[..ii]) != []
        invariant forall pool :: Now(pool) == old(Now(pool))
      {
        NextToRedo(setup, was, stones, ii);
        PlaceableNext(stones, undone, ii);
        if ok {
          FreeToRedo(was, ii);
        }
        var placed;
        placed, strayed := RedoOne(turn, undone[ii]);
        if strayed {
          return;
        }
        OneRedone(setup.rules, stones, was, ii);
        any := any || placed;
        ii := ii + 1;
      }
      assert undone[..|undone|] == undone;
    }

    static lemma NothingRedone(rules: Rules, stones: Stones, pl: Player)
      ensures Placeable(stones, pl.undone[..0]) == [] && RedoAll(rules, stones, pl, pl.undone[..0]) == pl
    {
    }

    lemma FreeToRedo(was: Player, n: nat)
      requires PlayerOk(setup, was) && n < |was.undone| && |Placeable(stones, was.undone[..n])| <= |was.tray|
      ensures PosOf(was.undone[n]) !in Squares(RedoAll(setup.rules, stones, was, was.undone[..n]).pending)
    {
      SquareFree(setup.rules, was, stones, n);
    }

    /** A turn taken back and put down again. The placements are the same exactly when nothing that was
        taken back before finds its square free. */
    method ResetThenRedo(turn: nat) returns (strayed: bool)
      requires Valid() && turn < setup.nPlayers
      modifies this`players, tiles
      ensures Valid() && |players| == old(|players|) && players == old(players)[turn := players[turn]]
      ensures strayed <==> |old(players[turn].tray)| < |Placeable(stones, old(players[turn].undone))|
      ensures !strayed ==>
              var was, now := old(players[turn]), players[turn];
              var more := Placeable(stones, was.undone);
              && Squares(now.pending) == Squares(Reversed(was.pending) + more)
              && (more == [] ==> now.pending == Reversed(was.pending))
              && (multiset(now.pending) == multiset(was.pending) <==> more == [])
      ensures forall pool :: Now(pool) == old(Now(pool))
    {
      hide CellsOk, PlayerIn, PlayerOk, AllPending, Hands, Scores, Hand, PendingTiles, Reversed, Placeable, RedoAll;
      ghost var was := players;
      OkIsIn();
      OwnOffStones(turn);
      BackAgain(setup.rules, stones, was[turn]);
      ResetCurrentTurn(turn);
      assert Now(multiset{}) == old(Now(multiset{}));
      TrayAfterReset(was, turn);
      ghost var mid := players[turn];
      assert PlayerIn(setup, mid);
      var any;
      any, strayed := RedoPendingTiles(turn);
      if !strayed {
        SameAgain(setup, stones, was[turn], mid);
      }
    }

    static lemma BackAgain(rules: Rules, stones: Stones, pl: Player)
      requires forall pt :: pt in pl.pending ==> PosOf(pt) !in stones
      ensures Placeable(stones, Reversed(pl.pending) + pl.undone) == Reversed(pl.pending) + Placeable(stones, pl.undone)
      ensures |Reversed(pl.pending)| == |pl.pending|
    {
      hide Placeable;
      ReversedTiles(rules, pl.pending);
      ReversedSame(pl.pending);
      AllPlaceable(stones, Reversed(pl.pending));
      PlaceableConcat(stones, Reversed(pl.pending), pl.undone);
    }

    /** `mid` is `was` with everything taken back. */
    static lemma SameAgain(s: Setup, stones: Stones, was: Player, mid: Player)
      requires PlayerIn(s, mid) && mid.pending == [] && mid.undone == Reversed(was.pending) + was.undone
      requires Placeable(stones, mid.undone) == Reversed(was.pending) + Placeable(stones, was.undone)
      requires |Placeable(stones, mid.undone)| <= |mid.tray|
      requires PendingTiles(s.rules, was.pending) <= multiset(mid.tray)
      ensures var now, more := RedoAll(s.rules, stones, mid, mid.undone), Placeable(stones, was.undone);
              && Squares(now.pending) == Squares(Reversed(was.pending) + more)
              && (more == [] ==> now.pending == Reversed(was.pending))
              && (multiset(now.pending) == multiset(was.pending) <==> more == [])
    {
      hide Placeable, RedoAll, Reversed, PendingTiles, Hand;
      var now, more := RedoAll(s.rules, stones, mid, mid.undone), Placeable(stones, was.undone);
      ReversedSame(was.pending);
      ReversedTiles(s.rules, was.pending);
      RedoneSquares(s.rules, stones, mid, mid.undone);
      assert Squares([]) == [];
      if more == [] {
        assert Reversed(was.pending) + [] == Reversed(was.pending);
        forall pt | pt in mid.undone && pt.tile == s.rules.blank
          ensures pt.blank
        {
          assert pt in mid.pending + mid.undone;
        }
        RedoneTiles(s.rules, stones, mid, mid.undone);
        assert now.pending == [] + Reversed(was.pending);
      } else {
        assert |now.pending| == |was.pending| + |more|;
        assert |multiset(now.pending)| == |now.pending| && |multiset(was.pending)| == |was.pending|;
      }
    }

    lemma TrayAfterReset(was: seq<Player>, turn: nat)
      requires turn < |players| == |was| && players[turn].pending == []
      requires Hands(setup.rules, players) == Hands(setup.rules, was)
      ensures PendingTiles(setup.rules, was[turn].pending) <= multiset(players[turn].tray)
      ensures |players[turn].tray| == |was[turn].tray| + |was[turn].pending|
    {
      PendingCount(setup.rules, was[turn].pending);
      assert |multiset(players[turn].tray)| == |players[turn].tray| && |multiset(was[turn].tray)| == |was[turn].tray|;
      HandIs(was, turn);
      HandIs(players, turn);
      TrayIsHand(setup.rules, players[turn]);
    }

    lemma OwnOffStones(turn: nat)
      requires Sound() && turn < setup.nPlayers
      ensures forall k :: 0 <= k < |players[turn].pending| ==> PosOf(players[turn].pending[k]) !in stones
      ensures forall pt :: pt in players[turn].pending ==> PosOf(pt) !in stones
    {
      hide AllPending;
      forall k | 0 <= k < |players[turn].pending|
        ensures PosOf(players[turn].pending[k]) !in stones
      {
        var p := PosOf(players[turn].pending[k]);
        OwnAmongAll(players, turn);
        OwnInBounds(turn, k);
        assert Squares(players[turn].pending)[k] == p;
        assert CellOk(tiles[p.row, p.col], stones, AllPending(players), p);
        assert AllPending(players)[p] >= multiset(Squares(players[turn].pending))[p] > 0;
      }
    }

    /** A cell is bare, committed, or counts exactly the players with a tile pending on it. */
    lemma CellCountsPlayers(col: nat, row: nat)
      requires Valid() && col < setup.size && row < setup.size
      ensures tiles.Length0 == tiles.Length1 == setup.size
      ensures match tiles[row, col]
              case Bare => Pos(col, row) !in stones && PlayersAt(players, Pos(col, row)) == 0
              case Pending(count) => Pos(col, row) !in stones && 0 < count == PlayersAt(players, Pos(col, row))
              case Placed(stone) => Pos(col, row) in stones && stones[Pos(col, row)] == stone
                                    && PlayersAt(players, Pos(col, row)) == 0
    {
      hide AllPending, PlayersAt;
      forall i | 0 <= i < |players|
        ensures DistinctSquares(players[i].pending)
      {
        PendingDistinct(setup, players[i]);
      }
      RefcountIsPlayers(players, Pos(col, row));
      assert CellOk(tiles[row, col], stones, AllPending(players), Pos(col, row));
    }

    lemma OkPlayer(turn: nat)
      requires PlayersOk() && turn < setup.nPlayers
      ensures |players| == setup.nPlayers && PlayerOk(setup, players[turn])
    {
    }

    lemma CellAt(col: nat, row: nat, pending: multiset<Pos>)
      requires CellsOk(pending) && col < setup.size && row < setup.size
      ensures tiles.Length0 == tiles.Length1 == setup.size
      ensures tiles[row, col].Placed? <==> Pos(col, row) in stones
    {
      assert CellOk(tiles[row, col], stones, pending, Pos(col, row));
    }

    /** Whatever other players have pending on the square goes back to their trays. */
    method PutBackOtherPlayersTiles(notMyTurn: nat, col: nat, row: nat, ghost hidden: multiset<Pos>)
      requires PlayersOk() && hidden <= AllPending(players) && CellsOk(AllPending(players) - hidden)
      requires notMyTurn < setup.nPlayers && Pos(col, row) !in hidden
      modifies this`players, tiles
      ensures PlayersOk() && hidden <= AllPending(players) && CellsOk(AllPending(players) - hidden)
      ensures Cleared(old(players), players, notMyTurn, {Pos(col, row)}, setup.nPlayers)
      ensures AllKeep(setup.rules, old(players), players)
      ensures forall pool :: Now(pool) == old(Now(pool))
    {
      hide CellsOk, PlayerOk, Hands, Scores, AllPending, TakenBack, HasUndone;
      ghost var was := players;
      for turn := 0 to setup.nPlayers
        invariant PlayersOk() && hidden <= AllPending(players) && CellsOk(AllPending(players) - hidden)
        invariant Cleared(was, players, notMyTurn, {Pos(col, row)}, turn) && AllKeep(setup.rules, was, players)
        invariant forall pool :: Now(pool) == old(Now(pool))
      {
        if turn != notMyTurn {
          NextCleared(setup, was, players, notMyTurn, Pos(col, row), turn);
          OneMoreKeeps(setup.rules, was, players, turn, Pos(col, row));
          OkIsIn();
          MoveBoardToTray(turn, col, row, -1, hidden);
        }
      }
    }

    method CommitCell(col: nat, row: nat, stone: Stone, ghost pending: multiset<Pos>)
      requires CellsOk(pending) && col < setup.size && row < setup.size && pending[Pos(col, row)] == 1
      modifies tiles, this`stones
      ensures CellsOk(pending - multiset{Pos(col, row)}) && stones == old(stones)[Pos(col, row) := stone]
    {
      tiles[row, col] := Placed(stone);
      stones := stones[Pos(col, row) := stone];
    }

    /** One pending tile becomes part of the board, and other players' tiles on its square make way. */
    method PlaceOne(turn: nat, ii: nat)
      requires PlayersOk() && turn < setup.nPlayers && ii < |players[turn].pending|
      requires var hidden := multiset(Squares(players[turn].pending[..ii]));
               hidden <= AllPending(players) && CellsOk(AllPending(players) - hidden)
      modifies this`players, this`stones, tiles
      ensures PlayersOk() && players[turn] == old(players[turn])
      ensures var hidden := multiset(Squares(players[turn].pending[..ii + 1]));
              hidden <= AllPending(players) && CellsOk(AllPending(players) - hidden)
      ensures var pt := players[turn].pending[ii];
              && stones == old(stones)[PosOf(pt) := Stone(pt.tile, pt.blank, turn)]
              && Cleared(old(players), players, turn, {PosOf(pt)}, setup.nPlayers)
      ensures AllKeep(setup.rules, old(players), players)
      ensures Hands(setup.rules, players) == old(Hands(setup.rules, players)) && Scores(players) == old(Scores(players))
    {
      hide CellsOk, PlayerOk, Hands, Scores, AllPending, Cleared, NotOn, HasUndone;
      var pt := players[turn].pending[ii];
      ghost var p, mine := PosOf(pt), players[turn].pending;
      ghost var hidden := multiset(Squares(mine[..ii]));
      FirstSquares(setup, players[turn], ii);
      OneLeft(setup, players, turn, p);
      OkIsIn();
      OwnInBounds(turn, ii);
      CellCount(pt.col, pt.row, AllPending(players) - hidden);
      ghost var was := players;
      if tiles[pt.row, pt.col].count > 1 {
        PutBackOtherPlayersTiles(turn, pt.col, pt.row, hidden);
        OthersGone(was, players, turn, p);
        OneLeft(setup, players, turn, p);
      }
      assert Now(multiset{}) == old(Now(multiset{}));
      HideOneMore(AllPending(players), hidden, p);
      CommitCell(pt.col, pt.row, Stone(pt.tile, pt.blank, turn), AllPending(players) - hidden);
    }

    static lemma OthersGone(was: seq<Player>, now: seq<Player>, me: nat, p: Pos)
      requires Cleared(was, now, me, {p}, |was|)
      ensures |now| == |was| && me < |was| && now[me] == was[me]
      ensures forall i :: 0 <= i < |now| && i != me ==> p !in Squares(now[i].pending)
    {
      forall i | 0 <= i < |now| && i != me
        ensures p !in Squares(now[i].pending)
      {
        NotOnHasNone(was[i].pending, {p}, p);
      }
    }

    static lemma HideOneMore(all: multiset<Pos>, hidden: multiset<Pos>, p: Pos)
      requires hidden <= all && all[p] == 1 && p !in hidden
      ensures (all - hidden)[p] == 1 && hidden + multiset{p} <= all
      ensures all - (hidden + multiset{p}) == all - hidden - multiset{p}
    {
    }

    static lemma FirstSquares(s: Setup, pl: Player, ii: nat)
      requires PlayerOk(s, pl) && ii < |pl.pending|
      ensures PosOf(pl.pending[ii]) in Squares(pl.pending)
      ensures PosOf(pl.pending[ii]) !in multiset(Squares(pl.pending[..ii]))
      ensures multiset(Squares(pl.pending[..ii + 1])) == multiset(Squares(pl.pending[..ii])) + multiset{PosOf(pl.pending[ii])}
    {
      PendingDistinct(s, pl);
      assert Squares(pl.pending)[ii] == PosOf(pl.pending[ii]);
      assert Squares(pl.pending[..ii + 1]) == Squares(pl.pending[..ii]) + [PosOf(pl.pending[ii])];
      assert forall k :: 0 <= k < ii ==> pl.pending[..ii][k] == pl.pending[k];
    }

    lemma CellCount(col: nat, row: nat, pending: multiset<Pos>)
      requires CellsOk(pending) && col < setup.size && row < setup.size && pending[Pos(col, row)] > 0
      ensures tiles.Length0 == tiles.Length1 == setup.size
      ensures tiles[row, col] == Pending(pending[Pos(col, row)])
    {
      assert CellOk(tiles[row, col], stones, pending, Pos(col, row));
    }

    /** The player's pending tiles become part of the board. Until they are dropped from the list of
        pending tiles, their squares are the hidden ones. */
    method PlacePending(turn: nat)
      requires Valid() && turn < setup.nPlayers
      modifies this`players, this`stones, tiles
      ensures PlayersOk() && players[turn] == old(players[turn])
      ensures var hidden := multiset(Squares(players[turn].pending));
              hidden <= AllPending(players) && CellsOk(AllPending(players) - hidden)
      ensures stones == PutStones(old(stones), turn, players[turn].pending)
      ensures Cleared(old(players), players, turn, SquareSet(players[turn].pending), setup.nPlayers)
      ensures AllKeep(setup.rules, old(players), players)
      ensures Hands(setup.rules, players) == old(Hands(setup.rules, players)) && Scores(players) == old(Scores(players))
    {
      hide CellsOk, PlayerOk, Hands, Scores, AllPending, Cleared, SquareSet, Squares, HasUndone;
      ghost var was := players;
      var pending := players[turn].pending;
      ghost var hidden: multiset<Pos> := multiset{};
      NothingHidden(AllPending(players));
      NothingCleared(players, turn);
      assert pending[..0] == [] && pending[..|pending|] == pending;
      assert multiset(Squares(pending[..0])) == multiset{} by { NoSquares(); }
      for ii := 0 to |pending|
        invariant PlayersOk() && players[turn] == was[turn]
        invariant var hidden := multiset(Squares(pending[..ii]));
                  hidden <= AllPending(players) && CellsOk(AllPending(players) - hidden)
        invariant stones == PutStones(old(stones), turn, pending[..ii])
        invariant Cleared(was, players, turn, SquareSet(pending[..ii]), setup.nPlayers) && AllKeep(setup.rules, was, players)
        invariant Hands(setup.rules, players) == Hands(setup.rules, was) && Scores(players) == Scores(was)
      {
        ghost var before := players;
        PlaceOne(turn, ii);
        ClearedMore(was, before, players, turn, SquareSet(pending[..ii]), PosOf(pending[ii]));
        OneMoreSquare(pending, ii);
        assert pending[..ii + 1][..ii] == pending[..ii];
      }
    }

    static lemma NoSquares()
      ensures multiset(Squares([])) == multiset{}
    {
      assert Squares([]) == [];
    }

    /** What `model_getTile` shows when pending tiles are left out. */
    function Shown(): (b: Board)
      requires tiles.Length0 == tiles.Length1 == setup.size
      reads tiles
    {
      seq(setup.size, r requires 0 <= r < setup.size reads tiles =>
        seq(setup.size, c requires 0 <= c < setup.size reads tiles => ShownAt(c, r)))
    }

    function ShownAt(col: nat, row: nat): Square
      requires tiles.Length0 == tiles.Length1 == setup.size && col < setup.size && row < setup.size
      reads tiles
    {
      if tiles[row, col].Placed? then Filled(tiles[row, col].stone.tile, tiles[row, col].stone.blank) else Empty
    }

    lemma ShownIsBoard(pending: multiset<Pos>)
      requires CellsOk(pending)
      ensures tiles.Length0 == tiles.Length1 == setup.size && Shown() == BoardOf(setup.size, stones)
    {
      var shown, board := Shown(), BoardOf(setup.size, stones);
      forall r: nat, c: nat | r < setup.size && c < setup.size
        ensures shown[r][c] == board[r][c]
      {
        assert CellOk(tiles[r, c], stones, pending, Pos(c, r));
        assert shown[r][c] == ShownAt(c, r);
        assert board[r][c] == Cell(board, true, c, r);
      }
      forall r: nat | r < setup.size
        ensures shown[r] == board[r]
      {
        assert forall c: nat :: c < setup.size ==> shown[r][c] == board[r][c];
      }
    }

    method NormalizeMoves(pending: seq<PendingTile>, isHorizontal: bool) returns (moveInfo: Move)
      requires DistinctSquares(pending) && PendingInBounds(setup.size, pending) && InALine(pending)
      requires isHorizontal <==> !InOneLine(pending, false)
      ensures moveInfo == MoveOf(pending)
    {
      hide SortTiles, DistinctSquares, InALine, IsLegal;
      MoveOfPending(setup.size, pending);
      var moveTiles: seq<MoveTile> := [];
      for ii := 0 to |pending|
        invariant moveTiles == MoveTiles(isHorizontal, pending[..ii])
      {
        moveTiles := moveTiles + [MoveTile(if isHorizontal then pending[ii].col else pending[ii].row,
                                           pending[ii].tile, pending[ii].blank)];
      }
      assert pending[..|pending|] == pending;
      var commonCoord: nat := 0;
      if 0 < |pending| {
        commonCoord := if isHorizontal then pending[0].row else pending[0].col;
      }
      var sorted := NormalizeMI(moveTiles);
      SortKeeps(moveTiles);
      OneOrder(sorted, SortTiles(moveTiles));
      moveInfo := Move(isHorizontal, commonCoord, sorted);
    }

    method CheckScoreMove(turn: nat, ghost pending: multiset<Pos>) returns (score: int)
      requires PlayersOk() && CellsOk(pending) && turn < setup.nPlayers
      requires DistinctSquares(players[turn].pending) && PendingInBounds(setup.size, players[turn].pending)
      ensures score == CurScore(setup, stones, players[turn].pending)
      ensures var pts := players[turn].pending;
              var b, mv := BoardOf(setup.size, stones), MoveOf(pts);
              if pts == [] then score == 0
              else if (InOneLine(pts, true) || InOneLine(pts, false)) && OnBoard(|b|, mv) && IsLegal(b, mv) then
                score == MoveScore(setup.rules, b, mv)
              else score == -1
    {
      hide CellsOk, PlayersOk, MoveOf, IsLegal, BoardOf, MoveScore;
      OkPlayer(turn);
      ShownIsBoard(pending);
      var pts := players[turn].pending;
      score := ILLEGAL_MOVE_SCORE;
      if |pts| == 0 {
        return 0;
      }
      var inLine, isHorizontal := TilesInLine(pts);
      if inLine {
        var moveInfo := NormalizeMoves(pts, isHorizontal);
        MoveOfPending(setup.size, pts);
        var legal := IsLegalMove(Shown(), moveInfo);
        if legal {
          LegalHasNoGaps(Shown(), moveInfo);
          score := FigureMoveScore(setup.rules, Shown(), moveInfo, NoCache);
        }
      }
    }

    static lemma LegalHasNoGaps(b: Board, mv: Move)
      requires OnBoard(|b|, mv) && IsLegal(b, mv)
      ensures NoGaps(RowOf(b, mv.horizontal, mv.common), mv.tiles)
    {
    }

    /** The score kept with the player, figured first if it is not marked current. */
    method GetCurrentMoveScoreIfLegal(turn: nat, ghost pending: multiset<Pos>) returns (score: int)
      requires PlayersOk() && CellsOk(pending) && turn < setup.nPlayers
      requires DistinctSquares(players[turn].pending) && PendingInBounds(setup.size, players[turn].pending)
      modifies this`players
      ensures PlayersOk()
      ensures var was := old(players[turn]);
              && score == (if was.curMoveValid then was.curMoveScore else CurScore(setup, stones, was.pending))
              && players == old(players)[turn := was.(curMoveScore := score, curMoveValid := true)]
    {
      hide CurScore;
      if !players[turn].curMoveValid {
        var figured := CheckScoreMove(turn, pending);
        players := players[turn := players[turn].(curMoveScore := figured, curMoveValid := true)];
      }
      score := players[turn].curMoveScore;
    }

    method InvalidateScores()
      modifies this`players
      ensures |players| == |old(players)|
      ensures forall i :: 0 <= i < |players| ==> players[i] == old(players[i]).(curMoveValid := false)
    {
      ghost var was := players;
      for ii := 0 to |players|
        invariant |players| == |was|
        invariant forall i :: 0 <= i < ii ==> players[i] == was[i].(curMoveValid := false)
        invariant forall i :: ii <= i < |players| ==> players[i] == was[i]
      {
        players := players[ii := players[ii].(curMoveValid := false)];
      }
    }

    method AddPlayerTile(turn: nat, index: int, tile: Tile)
      requires turn < |players| && index <= |players[turn].tray|
      modifies this`players
      ensures var was := old(players[turn]);
              var at: nat := if index < 0 then |was.tray| else index;
              players == old(players)[turn := was.(tray := InsertAt(was.tray, at, tile))]
    {
      var player := players[turn];
      var at: nat := if index < 0 then |player.tray| else index;
      players := players[turn := player.(tray := InsertAt(player.tray, at, tile))];
    }

    /** The new tiles go into the tray, last one first. */
    method TakeNewTiles(turn: nat, newTiles: seq<Tile>)
      requires turn < |players|
      modifies this`players
      ensures |players| == old(|players|)
      ensures var was, now := old(players[turn]), players[turn];
              && players == old(players)[turn := was.(tray := now.tray)]
              && multiset(now.tray) == multiset(was.tray) + multiset(newTiles)
    {
      hide InsertAt;
      ghost var was := players;
      var ii := |newTiles|;
      assert newTiles[|newTiles|..] == [];
      while ii > 0
        invariant 0 <= ii <= |newTiles|
        invariant turn < |players| == |was| && players == was[turn := was[turn].(tray := players[turn].tray)]
        invariant multiset(players[turn].tray) == multiset(was[turn].tray) + multiset(newTiles[ii..])
      {
        ii := ii - 1;
        assert newTiles[ii..] == [newTiles[ii]] + newTiles[ii + 1..];
        AddPlayerTile(turn, -1, newTiles[ii]);
      }
      assert newTiles[0..] == newTiles;
    }

    /** Once nothing of the turn is pending any more, nothing is hidden. */
    static lemma TurnDropped(was: seq<Player>, now: seq<Player>, turn: nat)
      requires turn < |was| == |now| && now[turn].pending == []
      requires forall i :: 0 <= i < |was| && i != turn ==> now[i].pending == was[i].pending
      ensures AllPending(now) == AllPending(was) - multiset(Squares(was[turn].pending))
    {
      hide AllPending;
      var mid := was[turn := now[turn]];
      SamePending(mid, now);
      PendingChanged(was, turn, now[turn]);
      NoSquares();
      Without(AllPending(mid), AllPending(was), multiset(Squares(was[turn].pending)));
    }

    /** What is left of committing: the score is added, nothing is pending, and the tray is filled up. */
    method FinishTurn(turn: nat, score: int, newTiles: seq<Tile>)
      requires PlayersOk() && turn < setup.nPlayers
      requires CellsOk(AllPending(players) - multiset(Squares(players[turn].pending)))
      modifies this`players
      ensures Valid()
      ensures Finished(old(players), players, turn, newTiles, score)
    {
      hide CellsOk, AllPending, Squares, RemoveAt;
      ghost var was := players;
      players := players[turn := players[turn].(score := players[turn].score + score)];
      InvalidateScores();
      players := players[turn := players[turn].(pending := [], undone := [])];
      TakeNewTiles(turn, newTiles);
      TurnDropped(was, players, turn);
      StillOk(setup, was, players, turn);
    }

    static lemma StillOk(s: Setup, was: seq<Player>, now: seq<Player>, turn: nat)
      requires turn < |was| == |now| && forall i :: 0 <= i < |was| ==> PlayerOk(s, was[i])
      requires now[turn].pending == [] && now[turn].undone == []
      requires forall i :: 0 <= i < |was| && i != turn ==> now[i] == was[i].(curMoveValid := false)
      ensures forall i :: 0 <= i < |now| ==> PlayerOk(s, now[i])
    {
      assert now[turn].pending + now[turn].undone == [];
    }

    /** The entry that committing the player's pending tiles makes. */
    ghost function TurnEntry(turn: nat, newTiles: seq<Tile>): Entry
      requires turn < |players|
      reads this`players
    {
      MoveEntry(turn, MoveOf(players[turn].pending), newTiles)
    }

    /** The player's score is up to date if it is marked so. */
    ghost predicate Fresh(turn: nat)
      requires PlayersOk() && turn < setup.nPlayers
      reads this`players, this`stones
    {
      PendingDistinct(setup, players[turn]);
      players[turn].curMoveValid ==> players[turn].curMoveScore == CurScore(setup, stones, players[turn].pending)
    }

    ghost function TurnScore(turn: nat): int
      requires PlayersOk() && turn < setup.nPlayers
      reads this`players, this`stones
    {
      PendingDistinct(setup, players[turn]);
      CurScore(setup, stones, players[turn].pending)
    }

    /** Tiles pending on free squares of one line, making a legal move, make an entry that can be logged. */
    lemma PendingIsPlayable(turn: nat, newTiles: seq<Tile>, pool: multiset<Tile>)
      requires Valid() && turn < setup.nPlayers && TurnScore(turn) >= 0 && multiset(newTiles) <= pool
      ensures ValidEntry(setup, Now(pool), TurnEntry(turn, newTiles))
      ensures TurnScore(turn) == Scored(setup, stones, MoveOf(players[turn].pending))
      ensures PendingTiles(setup.rules, players[turn].pending)
              == RackTiles(setup.rules, MoveOf(players[turn].pending).tiles)
      ensures InALine(players[turn].pending)
    {
      hide BoardOf, IsLegal, MoveScore, SortTiles, CellsOk, RackTiles, PendingTiles, AllPending, RackTile;
      var pending := players[turn].pending;
      var mv := MoveOf(pending);
      PendingDistinct(setup, players[turn]);
      assert InALine(pending);
      MoveOfPending(setup.size, pending);
      SortRack(setup.rules, MoveTiles(mv.horizontal, pending));
      MoveRack(setup.rules, mv.horizontal, pending);
      OwnAreFree(turn, mv);
      OwnAreMarked(turn, mv);
      PassScoresNothing(setup, stones, mv);
      assert InBounds(setup.size, stones) by { StonesInBounds(AllPending(players)); }
    }

    lemma StonesInBounds(pending: multiset<Pos>)
      requires CellsOk(pending)
      ensures InBounds(setup.size, stones)
    {
    }

    lemma OwnAreMarked(turn: nat, mv: Move)
      requires PlayersOk() && turn < setup.nPlayers
      requires forall t :: t in mv.tiles ==>
                 exists k :: 0 <= k < |players[turn].pending| && AsMoveTile(mv.horizontal, players[turn].pending[k]) == t
      ensures forall k :: 0 <= k < |mv.tiles| && mv.tiles[k].tile == setup.rules.blank ==> mv.tiles[k].blank
    {
      var pl := players[turn];
      forall k | 0 <= k < |mv.tiles| && mv.tiles[k].tile == setup.rules.blank
        ensures mv.tiles[k].blank
      {
        assert mv.tiles[k] in mv.tiles;
        var j :| 0 <= j < |pl.pending| && AsMoveTile(mv.horizontal, pl.pending[j]) == mv.tiles[k];
        assert (pl.pending + pl.undone)[j] == pl.pending[j];
      }
    }

    lemma OwnAreFree(turn: nat, mv: Move)
      requires Valid() && turn < setup.nPlayers
      requires forall k :: 0 <= k < |players[turn].pending| ==>
                 CommonCoord(mv.horizontal, players[turn].pending[k]) == mv.common
      requires forall t :: t in mv.tiles ==>
                 exists k :: 0 <= k < |players[turn].pending| && AsMoveTile(mv.horizontal, players[turn].pending[k]) == t
      ensures OnBare(stones, mv)
    {
      hide AllPending;
      var pl := players[turn];
      forall k | 0 <= k < |mv.tiles|
        ensures PosAt(mv.horizontal, mv.tiles[k].varCoord, mv.common) !in stones
      {
        assert mv.tiles[k] in mv.tiles;
        var j :| 0 <= j < |pl.pending| && AsMoveTile(mv.horizontal, pl.pending[j]) == mv.tiles[k];
        var p := PosOf(pl.pending[j]);
        OwnAmongAll(players, turn);
        OkIsIn();
        OwnInBounds(turn, j);
        assert Squares(pl.pending)[j] == p;
        assert CellOk(tiles[p.row, p.col], stones, AllPending(players), p);
        assert AllPending(players)[p] >= multiset(Squares(pl.pending))[p] > 0;
      }
    }

    lemma ScoredInLine(turn: nat)
      requires PlayersOk() && turn < setup.nPlayers && TurnScore(turn) >= 0
      ensures InALine(players[turn].pending) && |players| == setup.nPlayers
    {
    }

    method LogTurn(turn: nat, newTiles: seq<Tile>)
      requires PlayersOk() && turn < setup.nPlayers && InALine(players[turn].pending)
      modifies this`log
      ensures log == old(log) + [TurnEntry(turn, newTiles)]
    {
      PendingDistinct(setup, players[turn]);
      var inLine, isHorizontal := TilesInLine(players[turn].pending);
      var moveInfo := NormalizeMoves(players[turn].pending, isHorizontal);
      log := log + [MoveEntry(turn, moveInfo, newTiles)];
    }

    /** The tiles go down for good and the turn is scored with them on the board. */
    method PlaceAndScore(turn: nat) returns (score: int)
      requires Valid() && turn < setup.nPlayers && TurnScore(turn) >= 0 && InALine(players[turn].pending)
      modifies this`players, this`stones, tiles
      ensures PlayersOk() && players[turn].pending == old(players[turn].pending)
      ensures CellsOk(AllPending(players) - multiset(Squares(players[turn].pending)))
      ensures stones == PutStones(old(stones), turn, players[turn].pending)
      ensures score == if old(players[turn].curMoveValid) then old(players[turn].curMoveScore) else old(TurnScore(turn))
      ensures PlacedAndScored(setup, old(players), players, turn, score)
    {
      hide CellsOk, PlayerOk, CurScore, AllPending, Squares, PutStones, Place, NotOn, SquareSet, Hands, Scores, MoveOf, InALine, HasUndone;
      ghost var was, before := players, stones;
      PendingDistinct(setup, players[turn]);
      PlacePending(turn);
      PutIsPlace(setup.size, before, turn, was[turn].pending);
      ScoredWhenPlaced(setup, before, turn, was[turn].pending);
      ghost var placed := players;
      score := GetCurrentMoveScoreIfLegal(turn, AllPending(players) - multiset(Squares(players[turn].pending)));
      SamePending(placed, players);
    }

    /** Makes the player's pending tiles a permanent part of the board; other players' tiles on those squares
        go back to their trays. The score added is the one kept with the player when that is marked current. */
    method CommitTurn(turn: nat, newTiles: seq<Tile>, useStack: bool) returns (score: int)
      requires Valid() && turn < setup.nPlayers && TurnScore(turn) >= 0
      modifies this`players, this`stones, this`log, tiles
      ensures Valid()
      ensures log == if useStack then old(log) + [old(TurnEntry(turn, newTiles))] else old(log)
      ensures score == if old(players[turn].curMoveValid) then old(players[turn].curMoveScore) else old(TurnScore(turn))
      ensures Committed(setup, old(players), old(stones), players, stones, turn, newTiles, score)
    {
      hide CellsOk, PlayerOk, AllPending, Squares, MoveOf, PutStones, Committed, PlacedAndScored, Finished, TurnScore;
      ScoredInLine(turn);
      ghost var was, before := players, stones;
      if useStack {
        LogTurn(turn, newTiles);
      }
      score := PlaceAndScore(turn);
      ghost var mid := players;
      FinishTurn(turn, score, newTiles);
      FinishedIsCommitted(setup, was, before, mid, players, turn, newTiles, score);
    }

    /** Commits a turn and logs it. The player's score goes further off by as much as the score kept differs
        from what the turn is worth. */
    method ModelCommitTurn(turn: nat, newTiles: seq<Tile>) returns (score: int)
      requires Valid() && Tracks() && turn < setup.nPlayers && TurnScore(turn) >= 0
      requires multiset(newTiles) <= LogPool()
      modifies this, tiles
      ensures Valid() && Tracks() && log == old(log) + [old(TurnEntry(turn, newTiles))]
      ensures LogPool() == old(LogPool()) - multiset(newTiles)
      ensures drift == old(drift)[turn := old(drift)[turn] + score - old(TurnScore(turn))]
      ensures score == if old(players[turn].curMoveValid) then old(players[turn].curMoveScore) else old(TurnScore(turn))
      ensures score == old(TurnScore(turn)) <==> old(Fresh(turn))
      ensures old(Faithful()) ==> (Faithful() <==> old(Fresh(turn)))
      ensures Committed(setup, old(players), old(stones), players, stones, turn, newTiles, score)
    {
      hide CellsOk, PlayersOk, PlayerOk, AllPending, Squares, MoveOf, PutStones, Committed, Apply, ValidEntry, PendingTiles,
        CurScore, Scored, Replay, Hands, Scores, Drifted, NoDrift;
      ghost var pool, worth := LogPool(), TurnScore(turn);
      ghost var was, before := players, stones;
      FaithfulIff();
      NoDriftAt();
      TracksLength();
      OkPlayer(turn);
      PendingIsPlayable(turn, newTiles, pool);
      score := CommitTurn(turn, newTiles, true);
      CommittedIsApplied(setup, was, before, players, stones, turn, newTiles, score, pool);
      drift := drift[turn := drift[turn] + score - worth];
      CommittedTracks(old(log), was, before, turn, newTiles, score, old(drift));
      FaithfulIff();
      OneDrifts(old(drift), turn, score - worth);
    }

    lemma OneDrifts(off: seq<int>, turn: nat, more: int)
      requires turn < |off| && drift == off[turn := off[turn] + more]
      ensures (forall i :: 0 <= i < |off| ==> off[i] == 0) ==> (NoDrift() <==> more == 0)
    {
      assert drift[turn] == off[turn] + more;
    }

    /** The entry of a commit has been added to the log, and the drift by the score it was committed at. */
    lemma CommittedTracks(full: seq<Entry>, was: seq<Player>, before: Stones, turn: nat, newTiles: seq<Tile>, score: int, off: seq<int>)
      requires Replay(setup, full).Some? && |off| == |Replay(setup, full).value.scores| == setup.nPlayers
      requires turn < |was| == setup.nPlayers && log == full + [MoveEntry(turn, MoveOf(was[turn].pending), newTiles)]
      requires var g := Game(before, Hands(setup.rules, was), Scores(was), Replay(setup, full).value.pool);
               var e := MoveEntry(turn, MoveOf(was[turn].pending), newTiles);
               && g == Drifted(Replay(setup, full).value, off) && ValidEntry(setup, g, e)
               && drift == off[turn := off[turn] + score - Scored(setup, before, e.mv)]
               && Now(g.pool - multiset(newTiles)) == Apply(setup, g, e).(scores := Scores(was)[turn := was[turn].score + score])
      ensures Tracks() && LogPool() == Replay(setup, full).value.pool - multiset(newTiles)
    {
      hide MoveOf, Apply, ValidEntry, Scored, Hands;
      var r, e := Replay(setup, full).value, MoveEntry(turn, MoveOf(was[turn].pending), newTiles);
      ApplyDrifted(setup, r, e, off);
      ReplayPushed(setup, full, e);
      CommittedDrift(setup, r, e, off, score);
      DriftedLike(setup, r, e, off);
    }

    static lemma DriftedLike(s: Setup, r: Game, e: Entry, drift: seq<int>)
      requires |drift| == |r.scores| && ValidEntry(s, r, e) && e.MoveEntry?
      ensures Drifted(r, drift).stones == r.stones && Drifted(r, drift).pool == r.pool
      ensures |Apply(s, r, e).scores| == |r.scores| && Apply(s, r, e).pool == r.pool - multiset(e.newTiles)
    {
      hide Place, RackTiles, Scored;
    }

    static lemma AppliedMove(s: Setup, g: Game, e: Entry, score: int)
      requires ValidEntry(s, g, e) && e.MoveEntry?
      ensures Apply(s, g, e).pool == g.pool - multiset(e.newTiles)
      ensures Apply(s, g, e).(scores := g.scores[e.player := g.scores[e.player] + score]) == Apply(s, g, e)
              <==> score == Scored(s, g.stones, e.mv)
    {
      hide Place, RackTiles, Scored;
      assert Apply(s, g, e).scores[e.player] == g.scores[e.player] + Scored(s, g.stones, e.mv);
    }

    method RemovePlayerTile(turn: nat, index: nat) returns (tile: Tile)
      requires turn < |players| && index < |players[turn].tray|
      modifies this`players
      ensures tile == old(players[turn].tray[index])
      ensures players == old(players)[turn := old(players[turn]).(tray := RemoveAt(old(players[turn].tray), index))]
    {
      tile := players[turn].tray[index];
      players := players[turn := players[turn].(tray := RemoveAt(players[turn].tray, index))];
    }

    method TradeOne(turn: nat, oldTile: Tile, newTile: Tile)
      requires turn < |players| && oldTile in multiset(players[turn].tray)
      modifies this`players
      ensures |players| == old(|players|)
      ensures var was, now := old(players[turn]), players[turn];
              && players == old(players)[turn := was.(tray := now.tray)]
              && multiset(now.tray) == multiset(was.tray) - multiset{oldTile} + multiset{newTile}
              && oldTile in was.tray && now.tray == was.tray[LastAt(was.tray, oldTile) := newTile]
    {
      hide InsertAt, RemoveAt;
      var tileIndex := TrayContains(turn, oldTile);
      assert oldTile in players[turn].tray;
      OutAndIn(players[turn].tray, tileIndex, newTile);
      var _ := RemovePlayerTile(turn, tileIndex);
      AddPlayerTile(turn, tileIndex, newTile);
    }

    static lemma OutAndIn(tray: seq<Tile>, i: nat, tile: Tile)
      requires i < |tray|
      ensures InsertAt(RemoveAt(tray, i), i, tile) == tray[i := tile]
    {
    }

    /** Each old tile is replaced by a new one in the same place in the tray. */
    method MakeTileTrade(turn: nat, oldTiles: seq<Tile>, newTiles: seq<Tile>)
      requires turn < |players| && |oldTiles| == |newTiles| && multiset(oldTiles) <= multiset(players[turn].tray)
      modifies this`players
      ensures |players| == old(|players|)
      ensures var was, now := old(players[turn]), players[turn];
              && players == old(players)[turn := was.(tray := now.tray)]
              && multiset(now.tray) == Traded(multiset(was.tray), oldTiles, newTiles)
              && now.tray == InPlace(was.tray, oldTiles, newTiles)
    {
      hide Traded, InPlace, LastAt;
      ghost var was := players;
      assert InPlace(was[turn].tray, oldTiles[..0], newTiles[..0]) == was[turn].tray by {
        NoneInPlace(was[turn].tray, oldTiles, newTiles);
      }
      assert Traded(multiset(was[turn].tray), oldTiles[..0], newTiles[..0]) == multiset(was[turn].tray) by {
        NothingTraded(multiset(was[turn].tray), oldTiles, newTiles);
      }
      for ii := 0 to |newTiles|
        invariant |players| == |was| && players == was[turn := was[turn].(tray := players[turn].tray)]
        invariant multiset(players[turn].tray) == Traded(multiset(was[turn].tray), oldTiles[..ii], newTiles[..ii])
        invariant players[turn].tray == InPlace(was[turn].tray, oldTiles[..ii], newTiles[..ii])
      {
        TradeStep(multiset(was[turn].tray), oldTiles, newTiles, ii);
        TradeOne(turn, oldTiles[ii], newTiles[ii]);
        InPlaceStep(was[turn].tray, oldTiles, newTiles, ii);
      }
      assert oldTiles[..|newTiles|] == oldTiles && newTiles[..|newTiles|] == newTiles;
    }

    static lemma NoneInPlace(tray: seq<Tile>, oldTiles: seq<Tile>, newTiles: seq<Tile>)
      requires |oldTiles| == |newTiles|
      ensures InPlace(tray, oldTiles[..0], newTiles[..0]) == tray
    {
    }

    static ghost function Traded(tray: multiset<Tile>, oldTiles: seq<Tile>, newTiles: seq<Tile>): multiset<Tile> {
      tray - multiset(oldTiles) + multiset(newTiles)
    }

    static lemma NothingTraded(tray: multiset<Tile>, oldTiles: seq<Tile>, newTiles: seq<Tile>)
      ensures Traded(tray, oldTiles[..0], newTiles[..0]) == tray
    {
    }

    static lemma TradeStep(tray: multiset<Tile>, oldTiles: seq<Tile>, newTiles: seq<Tile>, ii: nat)
      requires ii < |oldTiles| == |newTiles| && multiset(oldTiles) <= tray
      ensures var before := Traded(tray, oldTiles[..ii], newTiles[..ii]);
              && oldTiles[ii] in before
              && Traded(tray, oldTiles[..ii + 1], newTiles[..ii + 1]) == before - multiset{oldTiles[ii]} + multiset{newTiles[ii]}
    {
      assert oldTiles[..ii + 1] == oldTiles[..ii] + [oldTiles[ii]];
      assert newTiles[..ii + 1] == newTiles[..ii] + [newTiles[ii]];
      assert oldTiles == oldTiles[..ii + 1] + oldTiles[ii + 1..];
    }

    lemma TrayChanged(was: seq<Player>, turn: nat)
      requires |was| == |players| && turn < |was| && players == was[turn := was[turn].(tray := players[turn].tray)]
      requires |was| == setup.nPlayers && forall i :: 0 <= i < |was| ==> PlayerOk(setup, was[i])
      ensures PlayersOk() && AllPending(players) == AllPending(was)
      ensures Scores(players) == Scores(was)
      ensures Hands(setup.rules, players) ==
              Hands(setup.rules, was)[turn := multiset(players[turn].tray) + PendingTiles(setup.rules, was[turn].pending)]
    {
      hide PlayerOk, PendingTiles, AllPending;
      SamePending(was, players);
      PlayerChanged(setup.rules, was, turn, players[turn]);
      TrayOk(setup, was[turn], players[turn].tray);
    }

    static lemma TrayOk(s: Setup, pl: Player, tray: seq<Tile>)
      requires PlayerOk(s, pl)
      ensures PlayerOk(s, pl.(tray := tray))
    {
    }

    /** Trades tiles from the tray and logs it. */
    method ModelMakeTileTrade(turn: nat, oldTiles: seq<Tile>, newTiles: seq<Tile>)
      requires Valid() && Tracks() && turn < setup.nPlayers && |oldTiles| == |newTiles|
      requires multiset(oldTiles) <= multiset(players[turn].tray) && multiset(newTiles) <= LogPool()
      modifies this`players, this`log
      ensures Valid() && Tracks() && (old(Faithful()) ==> Faithful()) && log == old(log) + [TradeEntry(turn, oldTiles, newTiles)]
      ensures LogPool() == old(LogPool()) - multiset(newTiles) + multiset(oldTiles)
      ensures players == old(players)[turn := old(players[turn]).(tray := players[turn].tray)]
      ensures multiset(players[turn].tray) == Traded(multiset(old(players[turn]).tray), oldTiles, newTiles)
      ensures players[turn].tray == InPlace(old(players[turn]).tray, oldTiles, newTiles)
    {
      hide CellsOk, PlayersOk, AllPending, PendingTiles, Hands, Scores, NoDrift, Drifted, Replay, Apply, Traded, InPlace;
      ghost var e, g, pool := TradeEntry(turn, oldTiles, newTiles), Now(LogPool()), LogPool();
      FaithfulIff();
      LogIsWellFormed();
      HandAt(turn);
      TracksLength();
      assert ValidEntry(setup, g, e);
      log := log + [TradeEntry(turn, oldTiles, newTiles)];
      TradeInTray(turn, oldTiles, newTiles, pool);
      TradedPool(pool, multiset(oldTiles), multiset(newTiles));
      TracksEntry(old(log), g, e);
      FaithfulIff();
    }

    /** The tray after a trade, and what it makes of the game. */
    method TradeInTray(turn: nat, oldTiles: seq<Tile>, newTiles: seq<Tile>, ghost pool: multiset<Tile>)
      requires Valid() && turn < setup.nPlayers == |players| && |oldTiles| == |newTiles|
      requires multiset(oldTiles) <= multiset(players[turn].tray)
      requires ValidEntry(setup, Now(pool), TradeEntry(turn, oldTiles, newTiles))
      modifies this`players
      ensures Valid() && |players| == old(|players|)
      ensures players == old(players)[turn := old(players[turn]).(tray := players[turn].tray)]
      ensures multiset(players[turn].tray) == Traded(multiset(old(players[turn]).tray), oldTiles, newTiles)
      ensures players[turn].tray == InPlace(old(players[turn]).tray, oldTiles, newTiles)
      ensures CameBy(setup, old(Now(pool)), TradeEntry(turn, oldTiles, newTiles), Now(pool + multiset(oldTiles) - multiset(newTiles)))
    {
      hide CellsOk, PlayerOk, AllPending, Hands, Scores, PendingTiles, Hand;
      ghost var was := players;
      HandAt(turn);
      MakeTileTrade(turn, oldTiles, newTiles);
      TrayChanged(was, turn);
      TradedHand(multiset(was[turn].tray), PendingTiles(setup.rules, was[turn].pending), multiset(oldTiles), multiset(newTiles));
    }

    static lemma TradedHand(tray: multiset<Tile>, pending: multiset<Tile>, gone: multiset<Tile>, drawn: multiset<Tile>)
      requires gone <= tray
      ensures tray - gone + drawn + pending == tray + pending - gone + drawn
    {
    }

    static lemma TradedPool(pool: multiset<Tile>, gone: multiset<Tile>, drawn: multiset<Tile>)
      requires drawn <= pool
      ensures pool + gone - drawn == pool - drawn + gone
    {
    }

    lemma HandAt(turn: nat)
      requires turn < |players|
      ensures Hands(setup.rules, players)[turn] ==
              multiset(players[turn].tray) + PendingTiles(setup.rules, players[turn].pending)
    {
    }

    lemma PlayersCount()
      requires Valid()
      ensures |players| == setup.nPlayers
    {
    }

    lemma TracksReplay()
      requires Tracks()
      ensures Replay(setup, log).Some?
    {
    }

    lemma LogIsWellFormed()
      requires Tracks()
      ensures GameLog.WellFormed(setup, Now(LogPool()))
    {
      ReplayWellFormed(setup, log);
    }

    /** Puts the first tiles in a player's tray and logs it. */
    method ModelAssignPlayerTiles(turn: nat, newTiles: seq<Tile>)
      requires Valid() && Tracks() && turn < setup.nPlayers && multiset(newTiles) <= LogPool()
      modifies this`players, this`log
      ensures Valid() && Tracks() && (old(Faithful()) ==> Faithful()) && log == old(log) + [AssignEntry(turn, newTiles)]
      ensures LogPool() == old(LogPool()) - multiset(newTiles)
      ensures players == old(players)[turn := old(players[turn]).(tray := players[turn].tray)]
      ensures multiset(players[turn].tray) == multiset(old(players[turn]).tray) + multiset(newTiles)
    {
      hide CellsOk, PlayerOk, AllPending, PendingTiles, Hands, Scores, NoDrift, Drifted, Replay;
      ghost var was, e, g := players, AssignEntry(turn, newTiles), Now(LogPool());
      FaithfulIff();
      LogIsWellFormed();
      HandAt(turn);
      log := log + [AssignEntry(turn, newTiles)];
      AddNewTiles(turn, newTiles);
      TrayChanged(was, turn);
      assert ValidEntry(setup, g, e);
      MoreInHand(multiset(was[turn].tray), PendingTiles(setup.rules, was[turn].pending), multiset(newTiles));
      TracksEntry(old(log), g, e);
      FaithfulIff();
    }

    static lemma MoreInHand(tray: multiset<Tile>, pending: multiset<Tile>, drawn: multiset<Tile>)
      ensures tray + drawn + pending == tray + pending + drawn
    {
    }

    method AddNewTiles(turn: nat, newTiles: seq<Tile>)
      requires turn < |players|
      modifies this`players
      ensures |players| == old(|players|)
      ensures var was, now := old(players[turn]), players[turn];
              && players == old(players)[turn := was.(tray := now.tray)]
              && multiset(now.tray) == multiset(was.tray) + multiset(newTiles)
    {
      hide InsertAt;
      ghost var was := players;
      for ii := 0 to |newTiles|
        invariant |players| == |was| && players == was[turn := was[turn].(tray := players[turn].tray)]
        invariant multiset(players[turn].tray) == multiset(was[turn].tray) + multiset(newTiles[..ii])
      {
        assert newTiles[..ii + 1] == newTiles[..ii] + [newTiles[ii]];
        AddPlayerTile(turn, -1, newTiles[ii]);
      }
      assert newTiles[..|newTiles|] == newTiles;
    }

    method RemoveOneOf(turn: nat, tile: Tile)
      requires turn < |players| && tile in multiset(players[turn].tray)
      modifies this`players
      ensures TrayOnly(old(players), players, turn)
      ensures multiset(players[turn].tray) == multiset(old(players[turn].tray)) - multiset{tile}
    {
      hide RemoveAt;
      var index := TrayContains(turn, tile);
      assert tile in players[turn].tray;
      var _ := RemovePlayerTile(turn, index);
    }

    method RemovePlayerTiles(turn: nat, tileSet: seq<Tile>)
      requires turn < |players| && multiset(tileSet) <= multiset(players[turn].tray)
      modifies this`players
      ensures TrayOnly(old(players), players, turn)
      ensures multiset(players[turn].tray) == multiset(old(players[turn].tray)) - multiset(tileSet)
    {
      hide TrayOnly;
      ghost var was, tray := players, multiset(players[turn].tray);
      assert tileSet[..0] == [];
      TrayOnlySame(was, turn);
      for ii := 0 to |tileSet|
        invariant |players| == |was| && TrayOnly(was, players, turn)
        invariant multiset(players[turn].tray) == tray - multiset(tileSet[..ii])
      {
        ghost var mid := players;
        OneFewer(tray, tileSet, ii);
        RemoveOneOf(turn, tileSet[ii]);
        TrayOnlyTwice(was, mid, players, turn);
        TrayOnlyLength(was, players, turn);
      }
      assert tileSet[..|tileSet|] == tileSet;
    }

    /** Tiles drawn go from the tray back to the pool. */
    method ReplaceNewTiles(pool: Pool.Pool, turn: nat, tileSet: seq<Tile>)
      requires turn < |players| && multiset(tileSet) <= multiset(players[turn].tray)
      requires pool.Valid() && Pool.Letters(pool.lettersLeft.Length, tileSet)
      modifies this`players, pool, pool.lettersLeft
      ensures pool.Valid() && pool.Contents() == old(pool.Contents()) + multiset(tileSet)
      ensures TrayOnly(old(players), players, turn)
      ensures multiset(players[turn].tray) == multiset(old(players[turn].tray)) - multiset(tileSet)
    {
      RemovePlayerTiles(turn, tileSet);
      pool.ReplaceTiles(tileSet);
    }

    static lemma OneFewer(tray: multiset<Tile>, tileSet: seq<Tile>, ii: nat)
      requires ii < |tileSet| && multiset(tileSet) <= tray
      ensures tileSet[ii] in tray - multiset(tileSet[..ii])
      ensures tray - multiset(tileSet[..ii + 1]) == tray - multiset(tileSet[..ii]) - multiset{tileSet[ii]}
    {
      assert tileSet[..ii + 1] == tileSet[..ii] + [tileSet[ii]];
      assert tileSet == tileSet[..ii + 1] + tileSet[ii + 1..];
    }

    method ClearCell(col: nat, row: nat, ghost pending: multiset<Pos>)
      requires CellsOk(pending) && col < setup.size && row < setup.size && Pos(col, row) in stones
      modifies tiles, this`stones
      ensures CellsOk(pending) && stones == old(stones) - {Pos(col, row)}
    {
      assert CellOk(tiles[row, col], stones, pending, Pos(col, row));
      tiles[row, col] := Bare;
      stones := stones - {Pos(col, row)};
    }

    /** The tiles of the move leave the board for the player's tray. */
    method TakeOffBoard(turn: nat, mi: Move)
      requires Valid() && turn < setup.nPlayers && OnBoard(setup.size, mi) && Ascending(mi.tiles)
      requires forall k :: 0 <= k < |mi.tiles| ==> PosAt(mi.horizontal, mi.tiles[k].varCoord, mi.common) in stones
      modifies this`players, this`stones, tiles
      ensures CellsOk(AllPending(old(players))) && TrayOnly(old(players), players, turn)
      ensures stones == Unplace(old(stones), mi.horizontal, mi.common, mi.tiles)
      ensures multiset(players[turn].tray) == multiset(old(players[turn].tray)) + RackTiles(setup.rules, mi.tiles)
    {
      hide CellsOk, AllPending, RackTiles, Unplace, InsertAt, PlayerOk;
      ghost var was, before := players, stones;
      ghost var pending := AllPending(players);
      var ts := mi.tiles;
      assert ts[..|ts|] == ts;
      NothingOff(before, mi);
      assert RackTiles(setup.rules, ts[..0]) == multiset{} by { NoRack(setup.rules); }
      for ii := 0 to |ts|
        invariant CellsOk(pending) && TrayOnly(was, players, turn)
        invariant stones == Unplace(before, mi.horizontal, mi.common, ts[..ii])
        invariant multiset(players[turn].tray) == multiset(was[turn].tray) + RackTiles(setup.rules, ts[..ii])
      {
        var p := PosAt(mi.horizontal, ts[ii].varCoord, mi.common);
        UnplaceOne(before, mi.horizontal, mi.common, ts, ii);
        RackOne(setup.rules, ts, ii);
        ClearCell(p.col, p.row, pending);
        AddPlayerTile(turn, -1, if ts[ii].blank then setup.rules.blank else ts[ii].tile);
      }
    }

    static lemma NothingOff(stones: Stones, mi: Move)
      ensures Unplace(stones, mi.horizontal, mi.common, mi.tiles[..0]) == stones
    {
    }

    static lemma NoRack(rules: Rules)
      ensures RackTiles(rules, []) == multiset{}
    {
    }

    /** What the move is worth on the board as it is now comes off the score. */
    method AdjustScoreForUndone(turn: nat, mi: Move, ghost pending: multiset<Pos>)
      requires CellsOk(pending) && turn < |players| && OnBoard(setup.size, mi) && Ascending(mi.tiles)
      requires mi.tiles == [] || IsLegal(BoardOf(setup.size, stones), mi)
      modifies this`players
      ensures players == old(players)[turn := old(players[turn]).(score := old(players[turn].score) - Scored(setup, stones, mi),
                                                                  curMoveScore := 0, curMoveValid := true)]
    {
      hide CellsOk, BoardOf, IsLegal, MoveScore;
      var moveScore := 0;
      PassScoresNothing(setup, stones, mi);
      ShownIsBoard(pending);
      if |mi.tiles| != 0 {
        LegalHasNoGaps(Shown(), mi);
        moveScore := FigureMoveScore(setup.rules, Shown(), mi, NoCache);
      }
      players := players[turn := players[turn].(score := players[turn].score - moveScore, curMoveScore := 0, curMoveValid := true)];
    }

    /** The pool holds what the log says, and every letter of the set has a place in it. */
    ghost predicate InStep(pool: Pool.Pool)
      reads this`log, pool, pool.lettersLeft
    {
      && pool.Valid() && pool.Contents() == LogPool()
      && forall t :: t in setup.letters ==> t < pool.lettersLeft.Length
    }

    /** The tiles and the score of a move: drawn tiles to the pool, played tiles to the tray, its score off. */
    method TakeBackMove(pool: Pool.Pool, turn: nat, mi: Move, newTiles: seq<Tile>, ghost before: Stones)
      requires Valid() && pool.Valid() && Pool.Letters(pool.lettersLeft.Length, newTiles) && turn < setup.nPlayers
      requires multiset(newTiles) <= multiset(players[turn].tray)
      requires OnBoard(setup.size, mi) && Ascending(mi.tiles)
      requires forall k :: 0 <= k < |mi.tiles| ==> PosAt(mi.horizontal, mi.tiles[k].varCoord, mi.common) in stones
      requires before == Unplace(stones, mi.horizontal, mi.common, mi.tiles)
      requires mi.tiles == [] || IsLegal(BoardOf(setup.size, before), mi)
      modifies this`players, this`stones, tiles, pool, pool.lettersLeft
      ensures pool.Valid() && pool.Contents() == old(pool.Contents()) + multiset(newTiles)
      ensures stones == before && CellsOk(old(AllPending(players))) && |players| == old(|players|)
      ensures var was := old(players[turn]);
              && players == old(players)[turn := was.(tray := players[turn].tray, curMoveScore := 0, curMoveValid := true,
                                                       score := was.score - Scored(setup, before, mi))]
              && multiset(players[turn].tray) == multiset(was.tray) - multiset(newTiles) + RackTiles(setup.rules, mi.tiles)
    {
      hide CellsOk, PlayerOk, AllPending, RackTiles, Unplace, IsLegal, BoardOf, Scored, OnBoard, Ascending, PosAt;
      hide Pool.Pool.Contents, Pool.Letters, Pool.Pool.Valid;
      ghost var was := players;
      ReplaceNewTiles(pool, turn, newTiles);
      TrayKeepsOk(was, turn);
      TakeOffBoard(turn, mi);
      AdjustScoreForUndone(turn, mi, AllPending(was));
    }

    /** A committed move is taken back. */
    method UndoMove(pool: Pool.Pool, turn: nat, mi: Move, newTiles: seq<Tile>, ghost g: Game)
      requires Valid() && pool.Valid() && Pool.Letters(pool.lettersLeft.Length, newTiles)
      requires turn < setup.nPlayers && players[turn].pending == []
      requires CameBy(setup, g, MoveEntry(turn, mi, newTiles), Now(pool.Contents()))
      modifies this`players, this`stones, tiles, pool, pool.lettersLeft
      ensures Valid() && pool.Valid() && Now(pool.Contents()) == g
      ensures |players| == old(|players|) && players == old(players)[turn := players[turn]]
      ensures players[turn].pending == [] && players[turn].undone == old(players[turn].undone)
      ensures players[turn].curMoveScore == 0 && players[turn].curMoveValid
    {
      hide CellsOk, PlayerOk, AllPending, RackTiles, Unplace, Place, IsLegal, BoardOf, Hand, Hands, Scores, PendingTiles, Scored,
        Playable;
      ghost var was := players;
      ghost var e := MoveEntry(turn, mi, newTiles);
      UndoneMoveFacts(g, e, pool.Contents());
      TakeBackMove(pool, turn, mi, newTiles, g.stones);
      UndoneMoveDone(was, g, e, pool.Contents());
    }

    /** What the log entry tells about the game it led to. */
    lemma UndoneMoveFacts(g: Game, e: Entry, pool: multiset<Tile>)
      requires ValidEntry(setup, g, e) && e.MoveEntry? && Now(pool) == Apply(setup, g, e)
      requires e.player < |players| && players[e.player].pending == []
      ensures multiset(e.newTiles) <= multiset(players[e.player].tray)
      ensures forall k :: 0 <= k < |e.mv.tiles| ==> PosAt(e.mv.horizontal, e.mv.tiles[k].varCoord, e.mv.common) in stones
      ensures Unplace(stones, e.mv.horizontal, e.mv.common, e.mv.tiles) == g.stones
      ensures g.pool == pool + multiset(e.newTiles)
      ensures OnBoard(setup.size, e.mv) && Ascending(e.mv.tiles)
    {
      hide RackTiles, Unplace, Place, IsLegal, Scored, Hand;
      UnplacePlace(g.stones, e.player, e.mv);
      forall k | 0 <= k < |e.mv.tiles|
        ensures PosAt(e.mv.horizontal, e.mv.tiles[k].varCoord, e.mv.common) in stones
      {
        PlaceAt(g.stones, e.player, e.mv.horizontal, e.mv.common, e.mv.tiles,
                PosAt(e.mv.horizontal, e.mv.tiles[k].varCoord, e.mv.common));
      }
      TrayIsHand(setup.rules, players[e.player]);
      assert Hands(setup.rules, players)[e.player] == Hand(setup.rules, players[e.player]);
      assert Hands(setup.rules, players)[e.player] ==
             g.hands[e.player] - RackTiles(setup.rules, e.mv.tiles) + multiset(e.newTiles);
    }

    static lemma UndoneHands(rules: Rules, was: seq<Player>, now: seq<Player>, p: nat, hands: seq<multiset<Tile>>,
                             played: multiset<Tile>, drawn: multiset<Tile>)
      requires |was| == |hands| && p < |was| && played <= hands[p]
      requires Hands(rules, was) == hands[p := hands[p] - played + drawn]
      requires |now| == |was| && was[p].pending == [] && now == was[p := now[p]] && now[p].pending == []
      requires multiset(now[p].tray) == multiset(was[p].tray) - drawn + played
      ensures Hands(rules, now) == hands
    {
      hide Hand, PendingTiles;
      TrayIsHand(rules, was[p]);
      TrayIsHand(rules, now[p]);
      assert Hands(rules, was)[p] == Hand(rules, was[p]);
      UndoInvertsHand(hands[p], played, drawn);
      PlayerChanged(rules, was, p, now[p]);
      PutBack(hands, p, hands[p] - played + drawn, hands[p]);
    }

    static lemma UndoneScores(was: seq<Player>, now: seq<Player>, p: nat, scores: seq<int>, score: int)
      requires |was| == |scores| && p < |was|
      requires Scores(was) == scores[p := scores[p] + score]
      requires |now| == |was| && now == was[p := now[p]] && now[p].score == was[p].score - score
      ensures Scores(now) == scores
    {
      assert Scores(was)[p] == was[p].score;
      forall i | 0 <= i < |was|
        ensures Scores(now)[i] == scores[i]
      {
        assert Scores(was)[i] == was[i].score;
      }
    }

    lemma UndoneMoveDone(was: seq<Player>, g: Game, e: Entry, pool: multiset<Tile>)
      requires |was| == setup.nPlayers && ValidEntry(setup, g, e) && e.MoveEntry?
      requires forall i :: 0 <= i < |was| ==> PlayerOk(setup, was[i])
      requires Hands(setup.rules, was) == Apply(setup, g, e).hands && Scores(was) == Apply(setup, g, e).scores
      requires was[e.player].pending == [] && |players| == |was|
      requires players == was[e.player := was[e.player].(tray := players[e.player].tray, curMoveScore := 0, curMoveValid := true,
                 score := was[e.player].score - Scored(setup, g.stones, e.mv))]
      requires multiset(players[e.player].tray) ==
               multiset(was[e.player].tray) - multiset(e.newTiles) + RackTiles(setup.rules, e.mv.tiles)
      requires stones == g.stones && pool == g.pool
      ensures PlayersOk() && AllPending(players) == AllPending(was)
      ensures Now(pool) == g
    {
      hide AllPending, RackTiles, Scored, Hand, Hands, Scores, PlayerOk, Apply, ValidEntry, Squares, Place, Unplace;
      var p := e.player;
      AppliedParts(setup, g, e);
      assert players == was[p := players[p]] && players[p].pending == [];
      SamePending(was, players);
      OtherFieldsOk(setup, was[p], players[p]);
      UndoneHands(setup.rules, was, players, p, g.hands, RackTiles(setup.rules, e.mv.tiles), multiset(e.newTiles));
      UndoneScores(was, players, p, g.scores, Scored(setup, g.stones, e.mv));
    }

    static lemma AppliedParts(s: Setup, g: Game, e: Entry)
      requires ValidEntry(s, g, e) && e.MoveEntry?
      ensures e.player < |g.hands| == |g.scores| == s.nPlayers && OnBoard(s.size, e.mv)
      ensures RackTiles(s.rules, e.mv.tiles) <= g.hands[e.player]
      ensures Apply(s, g, e).hands == g.hands[e.player := g.hands[e.player] - RackTiles(s.rules, e.mv.tiles) + multiset(e.newTiles)]
      ensures Apply(s, g, e).scores == g.scores[e.player := g.scores[e.player] + Scored(s, g.stones, e.mv)]
    {
      hide RackTiles, Place, IsLegal, Scored;
    }

    static lemma OtherFieldsOk(s: Setup, pl: Player, now: Player)
      requires PlayerOk(s, pl) && now.pending == pl.pending && now.undone == pl.undone
      ensures PlayerOk(s, now)
    {
    }

    /** A trade is taken back: the new tiles go to the pool and the old ones come out of it. */
    method UndoTrade(pool: Pool.Pool, turn: nat, oldTiles: seq<Tile>, newTiles: seq<Tile>, ghost g: Game)
      requires Valid() && pool.Valid()
      requires Pool.Letters(pool.lettersLeft.Length, newTiles) && Pool.Letters(pool.lettersLeft.Length, oldTiles)
      requires turn < setup.nPlayers && players[turn].pending == []
      requires CameBy(setup, g, TradeEntry(turn, oldTiles, newTiles), Now(pool.Contents()))
      modifies this`players, pool, pool.lettersLeft
      ensures Valid() && pool.Valid() && Now(pool.Contents()) == g
      ensures |players| == old(|players|) && players == old(players)[turn := old(players[turn]).(tray := players[turn].tray)]
    {
      hide CellsOk, PlayerOk, AllPending, Hand, Hands, Scores, CameBy;
      ghost var was, before := players, pool.Contents();
      TradeCanBeUndone(setup, was, stones, g, TradeEntry(turn, oldTiles, newTiles), before);
      SwapBack(pool, turn, oldTiles, newTiles);
      TrayKeepsOk(was, turn);
      TradeUndone(setup, was, players, stones, g, TradeEntry(turn, oldTiles, newTiles), before, pool.Contents());
    }

    static lemma TradeCanBeUndone(s: Setup, was: seq<Player>, stones: Stones, g: Game, e: Entry, pool: multiset<Tile>)
      requires CameBy(s, g, e, Game(stones, Hands(s.rules, was), Scores(was), pool)) && e.TradeEntry?
      requires e.player < |was| && was[e.player].pending == []
      ensures multiset(e.newTiles) <= multiset(was[e.player].tray) && multiset(e.oldTiles) <= pool + multiset(e.newTiles)
    {
      hide Hand, Apply, ValidEntry;
      TradedParts(s, g, e);
      TrayIsHand(s.rules, was[e.player]);
      assert Hands(s.rules, was)[e.player] == Hand(s.rules, was[e.player]);
      PoolAfterTrade(g.pool, multiset(e.oldTiles), multiset(e.newTiles));
    }

    static lemma TradeUndone(s: Setup, was: seq<Player>, now: seq<Player>, stones: Stones, g: Game, e: Entry,
                             before: multiset<Tile>, pool: multiset<Tile>)
      requires CameBy(s, g, e, Game(stones, Hands(s.rules, was), Scores(was), before)) && e.TradeEntry?
      requires e.player < |was| == |now| && was[e.player].pending == []
      requires now == was[e.player := was[e.player].(tray := now[e.player].tray)]
      requires multiset(now[e.player].tray) == multiset(was[e.player].tray) - multiset(e.newTiles) + multiset(e.oldTiles)
      requires pool + multiset(e.oldTiles) == before + multiset(e.newTiles)
      ensures Game(stones, Hands(s.rules, now), Scores(now), pool) == g
    {
      hide Hand, Hands, Apply, ValidEntry;
      TradedParts(s, g, e);
      PoolAfterTrade(g.pool, multiset(e.oldTiles), multiset(e.newTiles));
      UndoneHands(s.rules, was, now, e.player, g.hands, multiset(e.oldTiles), multiset(e.newTiles));
      assert Scores(now) == Scores(was);
    }

    lemma TrayKeepsOk(was: seq<Player>, turn: nat)
      requires TrayOnly(was, players, turn) && |was| == setup.nPlayers && forall i :: 0 <= i < |was| ==> PlayerOk(setup, was[i])
      ensures PlayersOk() && AllPending(players) == AllPending(was)
    {
      hide PlayerOk, AllPending;
      SamePending(was, players);
      TrayOk(setup, was[turn], players[turn].tray);
    }

    method SwapBack(pool: Pool.Pool, turn: nat, oldTiles: seq<Tile>, newTiles: seq<Tile>)
      requires pool.Valid() && turn < |players| && multiset(newTiles) <= multiset(players[turn].tray)
      requires Pool.Letters(pool.lettersLeft.Length, newTiles) && Pool.Letters(pool.lettersLeft.Length, oldTiles)
      requires multiset(oldTiles) <= pool.Contents() + multiset(newTiles)
      modifies this`players, pool, pool.lettersLeft
      ensures pool.Valid() && pool.Contents() + multiset(oldTiles) == old(pool.Contents()) + multiset(newTiles)
      ensures TrayOnly(old(players), players, turn)
      ensures multiset(players[turn].tray) == multiset(old(players[turn].tray)) - multiset(newTiles) + multiset(oldTiles)
    {
      ReplaceNewTiles(pool, turn, newTiles);
      TakeFromPool(pool, oldTiles);
      AddNewTiles(turn, oldTiles);
    }

    static lemma TradedParts(s: Setup, g: Game, e: Entry)
      requires ValidEntry(s, g, e) && e.TradeEntry?
      ensures var gone, drawn := multiset(e.oldTiles), multiset(e.newTiles);
              && e.player < |g.hands| && gone <= g.hands[e.player] && drawn <= g.pool
              && Apply(s, g, e) == Game(g.stones, g.hands[e.player := g.hands[e.player] - gone + drawn],
                                        g.scores, g.pool + gone - drawn)
    {
    }

    method TakeFromPool(pool: Pool.Pool, oldTiles: seq<Tile>)
      requires pool.Valid() && Pool.Letters(pool.lettersLeft.Length, oldTiles) && multiset(oldTiles) <= pool.Contents()
      modifies pool, pool.lettersLeft
      ensures pool.Valid() && pool.Contents() + multiset(oldTiles) == old(pool.Contents())
    {
      Pool.SafeIffContained(pool.lettersLeft[..], oldTiles);
      pool.RemoveTiles(oldTiles);
    }

    static lemma PoolAfterTrade(pool: multiset<Tile>, gone: multiset<Tile>, drawn: multiset<Tile>)
      requires drawn <= pool
      ensures gone <= pool + gone - drawn + drawn
      ensures forall left: multiset<Tile> :: left + gone == pool + gone - drawn + drawn ==> left == pool
    {
      assert pool + gone - drawn + drawn == pool + gone;
      forall left: multiset<Tile> | left + gone == pool + gone
        ensures left == pool
      {
        assert forall t :: (left + gone)[t] == left[t] + gone[t] && (pool + gone)[t] == pool[t] + gone[t];
      }
    }

    lemma LettersHave(pool: Pool.Pool, before: seq<Entry>, ts: seq<Tile>)
      requires Replay(setup, before).Some? && forall t :: t in setup.letters ==> t < pool.lettersLeft.Length
      requires multiset(ts) <= Replay(setup, before).value.pool
               || exists i :: 0 <= i < |Replay(setup, before).value.hands| && multiset(ts) <= Replay(setup, before).value.hands[i]
      ensures Pool.Letters(pool.lettersLeft.Length, ts)
    {
      hide Replay;
      WithinLetters(setup, before);
      forall k | 0 <= k < |ts|
        ensures ts[k] < pool.lettersLeft.Length
      {
        assert ts[k] in multiset(ts);
        assert ts[k] in setup.letters;
      }
    }

    method PopEntry() returns (e: Entry)
      requires log != []
      modifies this`log
      ensures e == old(log)[|old(log)| - 1] && log == old(log)[..|old(log)| - 1]
    {
      e := log[|log| - 1];
      log := log[..|log| - 1];
    }

    /** The player has nothing pending any more, and no score kept but that of nothing. */
    static ghost predicate Rested(was: Player, now: Player) {
      && now.pending == []
      && (now.curMoveValid && now.curMoveScore != 0 ==>
            was.pending == [] && was.curMoveValid && now.curMoveScore == was.curMoveScore)
    }

    /** Takes back the last entry of the log, whatever is pending; the live game and the pool again are what
        the log describes. An assignment is popped and otherwise left as it is. */
    method UndoOne(pool: Pool.Pool) returns (e: Entry)
      requires Valid() && Tracks() && InStep(pool) && log != []
      modifies this`players, this`stones, this`log, tiles, pool, pool.lettersLeft
      ensures Valid() && e == old(log)[|old(log)| - 1] && log == old(log)[..|old(log)| - 1]
      ensures if e.AssignEntry? then AtLog(pool, old(log)) else Tracks() && InStep(pool)
      ensures e.player < |players| == |old(players)| && players == old(players)[e.player := players[e.player]]
      ensures Rested(old(players[e.player]), players[e.player])
    {
      hide CellsOk, PlayersOk, PlayersIn, AllPending, Hands, Scores, Replay, Drifted, CameBy, Pool.Pool.Contents,
        Pool.Pool.Valid, Pool.Letters;
      ghost var full, contents := log, pool.Contents();
      OkIsIn();
      TracksLength();
      PoppedFacts(pool, full);
      e := PopEntry();
      ghost var g := Replay(setup, log).value;
      ResetCurrentTurn(e.player);
      assert Now(contents) == Drifted(Replay(setup, full).value, drift);
      UndoPopped(pool, e, Drifted(g, drift));
    }

    /** What there is to know of the last entry before it is undone. */
    lemma PoppedFacts(pool: Pool.Pool, full: seq<Entry>)
      requires full != [] && Replay(setup, full).Some? && |drift| == |Replay(setup, full).value.scores| == setup.nPlayers
      requires forall t :: t in setup.letters ==> t < pool.lettersLeft.Length
      ensures var less, e := full[..|full| - 1], full[|full| - 1];
              && Replay(setup, less).Some? && |Replay(setup, less).value.scores| == |drift| && e.player < setup.nPlayers
              && CameBy(setup, Drifted(Replay(setup, less).value, drift), e, Drifted(Replay(setup, full).value, drift))
              && Drifted(Replay(setup, less).value, drift).pool == Replay(setup, less).value.pool
              && Drifted(Replay(setup, full).value, drift).pool == Replay(setup, full).value.pool
              && (e.MoveEntry? || e.TradeEntry? ==> Pool.Letters(pool.lettersLeft.Length, e.newTiles))
              && (e.TradeEntry? ==> Pool.Letters(pool.lettersLeft.Length, e.oldTiles))
    {
      hide Apply, ValidEntry, Replay, Drifted, CameBy, Pool.Letters;
      var less, e := full[..|full| - 1], full[|full| - 1];
      PoppedDrifted(full, drift);
      LastApplied(full);
      MoveLetters(pool, less, e);
      AppliedPlayers(setup, Replay(setup, less).value, e, Replay(setup, full).value);
    }

    /** What was popped made the live game of the one before, the scores of both off by the same. */
    lemma PoppedDrifted(full: seq<Entry>, drift: seq<int>)
      requires full != [] && Replay(setup, full).Some? && |drift| == |Replay(setup, full).value.scores| == setup.nPlayers
      ensures var less, e := full[..|full| - 1], full[|full| - 1];
              && Replay(setup, less).Some? && |Replay(setup, less).value.scores| == |drift|
              && CameBy(setup, Drifted(Replay(setup, less).value, drift), e, Drifted(Replay(setup, full).value, drift))
              && Drifted(Replay(setup, less).value, drift).pool == Replay(setup, less).value.pool
              && Drifted(Replay(setup, full).value, drift).pool == Replay(setup, full).value.pool
    {
      hide Apply, ValidEntry;
      LastApplied(full);
      ApplyDrifted(setup, Replay(setup, full[..|full| - 1]).value, full[|full| - 1], drift);
    }

    /** Undoes an entry that has been popped, its player having nothing pending any more. */
    method UndoPopped(pool: Pool.Pool, e: Entry, ghost g: Game)
      requires Valid() && pool.Valid() && e.player < setup.nPlayers && players[e.player].pending == []
      requires CameBy(setup, g, e, Now(pool.Contents()))
      requires e.MoveEntry? || e.TradeEntry? ==> Pool.Letters(pool.lettersLeft.Length, e.newTiles)
      requires e.TradeEntry? ==> Pool.Letters(pool.lettersLeft.Length, e.oldTiles)
      modifies this`players, this`stones, tiles, pool, pool.lettersLeft
      ensures Valid() && pool.Valid()
      ensures if e.AssignEntry? then
                players == old(players) && stones == old(stones) && pool.Contents() == old(pool.Contents())
              else Now(pool.Contents()) == g
      ensures |players| == old(|players|) && players == old(players)[e.player := players[e.player]]
      ensures players[e.player].pending == []
      ensures players[e.player].curMoveScore == 0
              || (players[e.player].curMoveScore == old(players[e.player]).curMoveScore
                  && players[e.player].curMoveValid == old(players[e.player]).curMoveValid)
    {
      hide CellsOk, PlayersOk, AllPending, Hands, Scores, Apply, ValidEntry;
      match e {
        case MoveEntry(turn, mi, newTiles) => UndoMove(pool, turn, mi, newTiles, g);
        case TradeEntry(turn, oldTiles, newTiles) => UndoTrade(pool, turn, oldTiles, newTiles, g);
        case PhonyEntry(_, _) => PhonyChangesNothing(setup, g, e);
        case AssignEntry(_, _) =>
      }
    }

    lemma LastApplied(full: seq<Entry>)
      requires full != [] && Replay(setup, full).Some?
      ensures var less, e := full[..|full| - 1], full[|full| - 1];
              && Replay(setup, less).Some? && ValidEntry(setup, Replay(setup, less).value, e)
              && Replay(setup, full).value == Apply(setup, Replay(setup, less).value, e)
              && |Replay(setup, less).value.scores| == |Replay(setup, full).value.scores|
    {
      hide Apply;
      ReplayWellFormed(setup, full);
      ReplayWellFormed(setup, full[..|full| - 1]);
    }

    /** The tiles of an entry have a place in the pool. */
    lemma MoveLetters(pool: Pool.Pool, before: seq<Entry>, e: Entry)
      requires Replay(setup, before).Some? && ValidEntry(setup, Replay(setup, before).value, e)
      requires forall t :: t in setup.letters ==> t < pool.lettersLeft.Length
      ensures e.MoveEntry? || e.TradeEntry? ==> Pool.Letters(pool.lettersLeft.Length, e.newTiles)
      ensures e.TradeEntry? ==> Pool.Letters(pool.lettersLeft.Length, e.oldTiles)
    {
      hide Replay, Playable, IsLegal, BoardOf;
      if e.MoveEntry? {
        LettersHave(pool, before, e.newTiles);
      } else if e.TradeEntry? {
        LettersHave(pool, before, e.newTiles);
        LettersHave(pool, before, e.oldTiles);
      }
    }

    static lemma AppliedPlayers(s: Setup, g: Game, e: Entry, now: Game)
      requires ValidEntry(s, g, e) && now == Apply(s, g, e)
      ensures e.player < s.nPlayers
    {
    }

    static lemma PhonyChangesNothing(s: Setup, g: Game, e: Entry)
      requires ValidEntry(s, g, e) && e.PhonyEntry?
      ensures Apply(s, g, e) == g
    {
    }

    /** What could be made as a move can be logged as a phony, and then changes nothing. */
    static lemma PhonyAfter(s: Setup, log: seq<Entry>, e: Entry)
      requires Replay(s, log).Some? && e.MoveEntry? && ValidEntry(s, Replay(s, log).value, e)
      ensures Replay(s, log + [PhonyEntry(e.player, e.mv)]) == Replay(s, log)
    {
      hide IsLegal, Place, RackTiles;
      assert ValidEntry(s, Replay(s, log).value, PhonyEntry(e.player, e.mv));
      ReplayPushed(s, log, PhonyEntry(e.player, e.mv));
      PhonyChangesNothing(s, Replay(s, log).value, PhonyEntry(e.player, e.mv));
    }

    method LogPhony(e: Entry, pool: Pool.Pool)
      requires Valid() && Tracks() && InStep(pool) && e.MoveEntry?
      requires Replay(setup, log).Some? && ValidEntry(setup, Replay(setup, log).value, e)
      modifies this`log
      ensures Valid() && Tracks() && InStep(pool) && log == old(log) + [PhonyEntry(e.player, e.mv)]
    {
      hide CellsOk, PlayersOk, AllPending, Hands, Scores, ValidEntry, Replay;
      PhonyAfter(setup, log, e);
      log := log + [PhonyEntry(e.player, e.mv)];
    }

    /** Turns the last move into a phony: it is taken back and logged as a turn lost. */
    method RejectPreviousMove(pool: Pool.Pool) returns (turn: nat)
      requires Valid() && Tracks() && InStep(pool) && log != [] && log[|log| - 1].MoveEntry?
      modifies this`players, this`stones, this`log, tiles, pool, pool.lettersLeft
      ensures Valid() && Tracks() && InStep(pool) && (old(Faithful()) ==> Faithful())
      ensures var e := old(log)[|old(log)| - 1];
              turn == e.player && log == old(log)[..|old(log)| - 1] + [PhonyEntry(e.player, e.mv)]
      ensures turn < setup.nPlayers == |players| && players == old(players)[turn := players[turn]]
      ensures Rested(old(players[turn]), players[turn])
    {
      hide Valid, Faithful, InStep, ValidEntry, Replay, Tracks, NoDrift, Apply;
      TracksReplay();
      LastApplied(log);
      FaithfulIff();
      TracksLength();
      var e := UndoOne(pool);
      LogPhony(e, pool);
      turn := e.player;
      FaithfulIff();
    }

    lemma TracksLength()
      requires Valid() && Tracks()
      ensures |players| == |drift| == setup.nPlayers
    {
    }

    /** Which players' entries there are from `n` on. */
    static ghost function Popped(full: seq<Entry>, n: int): set<nat> {
      set k | 0 <= k < |full| && n <= k :: full[k].player
    }

    /** The players of popped entries have nothing pending; nothing has changed for the others. */
    static ghost predicate OnlyRested(was: seq<Player>, now: seq<Player>, popped: set<nat>) {
      && |was| == |now|
      && forall i :: 0 <= i < |was| ==> if i in popped then Rested(was[i], now[i]) else now[i] == was[i]
    }

    static lemma OneMoreRested(was: seq<Player>, mid: seq<Player>, now: seq<Player>, full: seq<Entry>, n: nat)
      requires n < |full| && OnlyRested(was, mid, Popped(full, n + 1)) && full[n].player < |mid|
      requires |now| == |mid| && now == mid[full[n].player := now[full[n].player]]
      requires Rested(mid[full[n].player], now[full[n].player])
      ensures OnlyRested(was, now, Popped(full, n))
    {
      assert Popped(full, n) == Popped(full, n + 1) + {full[n].player};
    }

    /** Whether undoing down to `target` can begin: there are that many entries, and more than first hands. */
    predicate CanUndo(nMovesSought: nat, moveSought: int)
      reads this`log
    {
      moveSought < |log| && nMovesSought <= |log| && setup.nPlayers < |log|
    }

    static function Target(full: seq<Entry>, nMovesSought: nat, moveSought: int): int {
      if 0 <= moveSought then moveSought else |full| - nMovesSought
    }

    /** Undoes entries until the wanted number, or the wanted entry, has been undone. It refuses when there
        are not that many, or only the first hands to undo. When an assignment comes up on the way it fails,
        and puts the log, but nothing else, back as it was. */
    method UndoLatestMoves(pool: Pool.Pool, nMovesSought: nat, moveSought: int) returns (success: bool)
      requires Valid() && Tracks() && InStep(pool) && 0 < nMovesSought
      modifies this`players, this`stones, this`log, tiles, pool, pool.lettersLeft
      ensures Valid()
      ensures success <==> old(CanUndo(nMovesSought, moveSought)) && LastAssign(old(log)) < Target(old(log), nMovesSought, moveSought)
      ensures success ==> Tracks() && InStep(pool) && log == old(log)[..Target(old(log), nMovesSought, moveSought)]
                          && OnlyRested(old(players), players, Popped(old(log), |log|))
      ensures !success ==> log == old(log)
      ensures !old(CanUndo(nMovesSought, moveSought)) ==>
                players == old(players) && stones == old(stones) && Tracks() && InStep(pool)
      ensures !success && old(CanUndo(nMovesSought, moveSought)) ==> Failed(pool, old(players), old(log))
      ensures old(Faithful()) && Tracks() ==> Faithful()
    {
      hide Valid, Faithful, InStep, Tracks, AtLog, Replay, OnlyRested, Popped, Failed;
      var nStackEntries := |log|;
      if 0 <= moveSought && moveSought >= nStackEntries {
        return false;
      } else if nStackEntries < nMovesSought {
        return false;
      } else if nStackEntries <= setup.nPlayers {
        return false;
      }
      success := UndoOrStrand(pool, nMovesSought, moveSought);
    }

    /** Undoing has met an assignment: the log is as it was, and the game is what it was after the assignment.
        The two still agree exactly when the entries undone had changed nothing. */
    ghost predicate Failed(pool: Pool.Pool, was: seq<Player>, full: seq<Entry>)
      reads this`players, this`stones, this`log, this`drift, pool, pool.lettersLeft
    {
      var a := LastAssign(full);
      && log == full && 0 <= a && Stranded(pool, a) && OnlyRested(was, players, Popped(full, a))
      && (Tracks() && InStep(pool) <==> Replay(setup, full[..a + 1]) == Replay(setup, full))
    }

    /** Undoes until there or, when an assignment comes up on the way, puts the log back. */
    method UndoOrStrand(pool: Pool.Pool, nMovesSought: nat, moveSought: int) returns (success: bool)
      requires Valid() && Tracks() && InStep(pool) && 0 < nMovesSought && CanUndo(nMovesSought, moveSought)
      modifies this`players, this`stones, this`log, tiles, pool, pool.lettersLeft
      ensures Valid()
      ensures success <==> LastAssign(old(log)) < Target(old(log), nMovesSought, moveSought)
      ensures success ==> Tracks() && InStep(pool) && log == old(log)[..Target(old(log), nMovesSought, moveSought)]
                          && OnlyRested(old(players), players, Popped(old(log), |log|))
      ensures !success ==> log == old(log) && Failed(pool, old(players), old(log))
      ensures old(Faithful()) && Tracks() ==> Faithful()
    {
      hide Valid, Faithful, InStep, Tracks, AtLog, Replay, OnlyRested, Popped, LastAssign, Drifted, NoDrift, Failed, NoAssignAfter, PoppedOff;
      TracksReplay();
      ghost var full, was := log, players;
      FaithfulIff();
      var popped: seq<Entry>;
      success, popped := UndoDownTo(pool, nMovesSought, moveSought);
      if success {
        AssignBefore(full, |log|);
        FaithfulIff();
      } else {
        assert PoppedOff(popped, full, log) && NoAssignAfter(full, |log| + 1);
        assert full[|log|].AssignEntry? && AtLog(pool, full[..|log| + 1]);
        assert OnlyRested(was, players, Popped(full, |log|));
        PutBackLog(pool, popped, was, full);
      }
    }

    /** The log as it was, and the game as it is after undoing down to an assignment. */
    method PutBackLog(pool: Pool.Pool, popped: seq<Entry>, ghost was: seq<Player>, ghost full: seq<Entry>)
      requires PoppedOff(popped, full, log) && Replay(setup, full).Some?
      requires |log| < |full| && full[|log|].AssignEntry? && AtLog(pool, full[..|log| + 1])
      requires NoAssignAfter(full, |log| + 1)
      requires OnlyRested(was, players, Popped(full, |log|))
      modifies this`log
      ensures log == full && Failed(pool, was, full) && LastAssign(full) == old(|log|)
      ensures Tracks() ==> (Faithful() <==> NoDrift())
    {
      hide Faithful, InStep, Tracks, AtLog, Replay, LastAssign, NoDrift, OnlyRested, Popped, PoppedOff;
      ghost var a := |log|;
      LastAssignIs(full, a);
      RedoPopped(popped, full);
      StrandedIff(pool, a);
      if Tracks() {
        FaithfulIff();
      }
    }

    static ghost predicate NoAssignAfter(full: seq<Entry>, n: nat) {
      forall k :: n <= k < |full| ==> !full[k].AssignEntry?
    }

    /** What has been popped, last one first, and what is left. */
    static ghost predicate PoppedOff(popped: seq<Entry>, full: seq<Entry>, log: seq<Entry>) {
      && |popped| + |log| == |full| && log == full[..|log|]
      && forall k :: 0 <= k < |popped| ==> popped[k] == full[|full| - 1 - k]
    }

    static lemma AssignBefore(full: seq<Entry>, n: nat)
      requires NoAssignAfter(full, n)
      ensures LastAssign(full) < n
    {
    }

    /** Pops and undoes until there, or until an assignment has been popped. */
    method UndoDownTo(pool: Pool.Pool, nMovesSought: nat, moveSought: int) returns (success: bool, popped: seq<Entry>)
      requires Valid() && Tracks() && InStep(pool) && 0 < nMovesSought && CanUndo(nMovesSought, moveSought)
      modifies this`players, this`stones, this`log, tiles, pool, pool.lettersLeft
      ensures Valid() && PoppedOff(popped, old(log), log)
      ensures OnlyRested(old(players), players, Popped(old(log), |log|))
      ensures NoAssignAfter(old(log), if success then |log| else |log| + 1)
      ensures success ==> Tracks() && InStep(pool) && |log| == Target(old(log), nMovesSought, moveSought)
                          && log == old(log)[..|log|]
      ensures !success ==> Target(old(log), nMovesSought, moveSought) <= |log| < |old(log)| && old(log)[|log|].AssignEntry?
                           && AtLog(pool, old(log)[..|log| + 1])
    {
      hide Valid, Faithful, InStep, Tracks, AtLog;
      ghost var full, was := log, players;
      var nMovesUndone := 0;
      popped := [];
      NothingPopped(full);
      success := true;
      while true
        invariant Valid() && Tracks() && InStep(pool) && success
        invariant nMovesUndone == |popped| && PoppedOff(popped, full, log)
        invariant if 0 <= moveSought then moveSought < |log| else nMovesUndone < nMovesSought
        invariant OnlyRested(was, players, Popped(full, |log|))
        invariant NoAssignAfter(full, |log|)
        decreases |log|
      {
        ghost var mid, m := players, |log|;
        var e := UndoOne(pool);
        nMovesUndone, popped := nMovesUndone + 1, popped + [e];
        OneMoreRested(was, mid, players, full, |log|);
        if e.AssignEntry? {
          success := false;
          break;
        }
        if 0 <= moveSought {
          if moveSought == |log| {
            break;
          }
        } else if nMovesSought == nMovesUndone {
          break;
        }
      }
    }

    /** Puts popped entries back, last one first. */
    method RedoPopped(popped: seq<Entry>, ghost full: seq<Entry>)
      requires PoppedOff(popped, full, log)
      modifies this`log
      ensures log == full
    {
      var n := |popped|;
      while n > 0
        invariant 0 <= n <= |popped| && n + |log| == |full| && log == full[..|log|]
        decreases n
      {
        n := n - 1;
        log := log + [popped[n]];
      }
    }

    static lemma NothingPopped(full: seq<Entry>)
      ensures Popped(full, |full|) == {}
    {
    }

    /** The live game and the pool are what the log up to and with entry `a` describes. */
    ghost predicate Stranded(pool: Pool.Pool, a: nat)
      reads this`players, this`stones, this`log, this`drift, pool, pool.lettersLeft
    {
      a < |log| && AtLog(pool, log[..a + 1])
    }

    ghost predicate AtLog(pool: Pool.Pool, part: seq<Entry>)
      reads this`players, this`stones, this`drift, pool, pool.lettersLeft
    {
      && pool.Valid() && (forall t :: t in setup.letters ==> t < pool.lettersLeft.Length)
      && Replay(setup, part).Some? && |drift| == |Replay(setup, part).value.scores| == setup.nPlayers
      && Now(pool.Contents()) == Drifted(Replay(setup, part).value, drift)
    }

    lemma StrandedIff(pool: Pool.Pool, a: nat)
      requires Stranded(pool, a) && Replay(setup, log).Some?
      ensures Tracks() && InStep(pool) <==> Replay(setup, log[..a + 1]) == Replay(setup, log)
    {
      hide Replay;
      ReplayWellFormed(setup, log);
      DriftedSame(Replay(setup, log[..a + 1]).value, Replay(setup, log).value, drift);
    }

    /** How long the longest beginning of the log with this hash is; zero if no beginning but the empty one has it. */
    static function LongestWithHash(log: seq<Entry>, hashOf: seq<Entry> -> nat, hash: nat): (n: nat)
      ensures n <= |log|
      ensures 0 < n ==> hashOf(log[..n]) == hash
      ensures forall k :: n < k <= |log| ==> hashOf(log[..k]) != hash
    {
      if log == [] then 0
      else if hashOf(log) == hash then
        assert log[..|log|] == log;
        |log|
      else
        var n := LongestWithHash(log[..|log| - 1], hashOf, hash);
        assert log[..|log|] == log;
        assert forall k :: 0 <= k < |log| ==> log[..|log| - 1][..k] == log[..k];
        n
    }

    /** Pops entries until the hash fits, and then puts back all that were popped. */
    method FindHash(hashOf: seq<Entry> -> nat, hash: nat) returns (foundAt: int)
      modifies this`log
      ensures log == old(log)
      ensures var n := LongestWithHash(log, hashOf, hash); foundAt == if 0 < n then |log| - n else -1
    {
      ghost var full := log;
      var nEntries := |log|;
      var entries: seq<Entry> := [];
      foundAt := -1;
      while |entries| < nEntries
        invariant |entries| + |log| == nEntries == |full| && log == full[..|log|] && foundAt == -1
        invariant forall k :: 0 <= k < |entries| ==> entries[k] == full[nEntries - 1 - k]
        invariant forall k :: |log| < k <= nEntries ==> hashOf(full[..k]) != hash
        decreases nEntries - |entries|
      {
        if hashOf(log) == hash {
          foundAt := |entries|;
          break;
        }
        var e := PopEntry();
        entries := entries + [e];
      }
      RedoPopped(entries, full);
    }

    /** Undoes moves until the log has the hash, if it ever had. A log no longer than the players are many is left as
        it is, and the answer is then still yes if some beginning of it has the hash; and so it is when an
        assignment comes up on the way, with the log put back but not the game. */
    method PopToHash(pool: Pool.Pool, hashOf: seq<Entry> -> nat, hash: nat) returns (found: bool)
      requires Valid() && Tracks() && InStep(pool)
      modifies this`players, this`stones, this`log, tiles, pool, pool.lettersLeft
      ensures Valid()
      ensures found <==> exists n :: 0 < n <= |old(log)| && hashOf(old(log)[..n]) == hash
      ensures var n, a := LongestWithHash(old(log), hashOf, hash), LastAssign(old(log));
              if !found || n == |old(log)| || |old(log)| <= setup.nPlayers then
                log == old(log) && players == old(players) && stones == old(stones) && Tracks() && InStep(pool)
              else if a < n then
                log == old(log)[..n] && hashOf(log) == hash && Tracks() && InStep(pool)
                && OnlyRested(old(players), players, Popped(old(log), n))
              else Failed(pool, old(players), old(log))
      ensures old(Faithful()) && Tracks() ==> Faithful()
    {
      hide Valid, Faithful, InStep, Tracks, AtLog, Replay, OnlyRested, Popped, Failed;
      ghost var full, n := log, LongestWithHash(log, hashOf, hash);
      assert 0 < n ==> hashOf(full[..n]) == hash;
      var foundAt := FindHash(hashOf, hash);
      found := foundAt != -1;
      if 0 < foundAt {
        var success := UndoLatestMoves(pool, foundAt, -1);
      } else {
        assert full[..|full|] == full;
      }
    }

    /** A logged move is put on the board from the player's tray. */
    method MakeTurnFromMoveInfo(turn: nat, newMove: Move, ghost pool: multiset<Tile>)
      requires Valid() && turn < setup.nPlayers && players[turn].pending == []
      requires Playable(setup, Now(pool), turn, newMove)
      modifies this`players, tiles
      ensures Valid() && |players| == old(|players|) && players == old(players)[turn := players[turn]]
      ensures PutDown(setup.rules, old(players[turn]), players[turn], newMove, |newMove.tiles|)
      ensures forall pool :: Now(pool) == old(Now(pool))
    {
      hide CellsOk, PlayersOk, PlayerOk, AllPending, Hands, Scores, PutDown, Played, Squares, RackTiles;
      OkPlayer(turn);
      ghost var was := players;
      ReadyToPut(setup, was, turn, newMove, stones, pool);
      var ts := newMove.tiles;
      for ii := 0 to |ts|
        invariant Valid() && |players| == |was| && players == was[turn := players[turn]]
        invariant PutDown(setup.rules, was[turn], players[turn], newMove, ii)
        invariant forall pool :: Now(pool) == old(Now(pool))
      {
        NextToPutDown(setup.rules, was[turn], players[turn], newMove, ii);
        var tile := if ts[ii].blank then setup.rules.blank else ts[ii].tile;
        var tileIndex := TrayContains(turn, tile);
        var p := PosAt(newMove.horizontal, ts[ii].varCoord, newMove.common);
        OkIsIn();
        MoveTrayToBoard(turn, p.col, p.row, tileIndex, ts[ii].tile);
        OkPlayer(turn);
      }
    }

    static lemma ReadyToPut(s: Setup, was: seq<Player>, turn: nat, mv: Move, stones: Stones, pool: multiset<Tile>)
      requires turn < |was| && was[turn].pending == []
      requires Playable(s, Game(stones, Hands(s.rules, was), Scores(was), pool), turn, mv)
      ensures PutDown(s.rules, was[turn], was[turn], mv, 0)
    {
      hide Hand;
      assert Hands(s.rules, was)[turn] == Hand(s.rules, was[turn]);
      TrayIsHand(s.rules, was[turn]);
    }

    /** Between entries nobody has anything pending. */
    ghost predicate Settled()
      reads this`players
    {
      forall i :: 0 <= i < |players| ==> players[i].pending == [] && (players[i].curMoveValid ==> players[i].curMoveScore == 0)
    }

    /** Commits pending tiles with their score up to date, without logging them. */
    method CommitFresh(turn: nat, newTiles: seq<Tile>, ghost pool: multiset<Tile>)
      requires Valid() && turn < setup.nPlayers && TurnScore(turn) >= 0 && multiset(newTiles) <= pool && Fresh(turn)
      modifies this, tiles
      ensures Valid() && log == old(log)
      ensures CameBy(setup, old(Now(pool)), old(TurnEntry(turn, newTiles)), Now(pool - multiset(newTiles)))
      ensures exists score :: Committed(setup, old(players), old(stones), players, stones, turn, newTiles, score)
    {
      hide CellsOk, PlayerOk, AllPending, Squares, MoveOf, PutStones, Committed, Apply, ValidEntry, PendingTiles, CurScore, Scored;
      ghost var g, e, was, before := Now(pool), TurnEntry(turn, newTiles), players, stones;
      PendingIsPlayable(turn, newTiles, pool);
      var score := CommitTurn(turn, newTiles, false);
      CommittedIsApplied(setup, was, before, players, stones, turn, newTiles, score, pool);
      AppliedMove(setup, g, e, score);
    }

    /** Replays one logged move: put down from the tray and committed again. */
    method AddMove(turn: nat, mi: Move, newTiles: seq<Tile>, ghost pool: multiset<Tile>)
      requires Valid() && Settled() && ValidEntry(setup, Now(pool), MoveEntry(turn, mi, newTiles))
      modifies this, tiles
      ensures Valid() && Settled() && log == old(log)
      ensures CameBy(setup, old(Now(pool)), MoveEntry(turn, mi, newTiles), Now(pool - multiset(newTiles)))
    {
      hide CellsOk, PlayersOk, PlayerOk, AllPending, Hands, Scores, Committed, MoveOf, IsLegal, PutDown, CurScore, RackTiles, BoardOf;
      ghost var was := players;
      OkPlayer(turn);
      MakeTurnFromMoveInfo(turn, mi, pool);
      ghost var mid, before := players, stones;
      AllPutDown(setup, was[turn], players[turn], mi);
      MoveOfPendingOf(setup.size, mi);
      ScoreOfLogged(turn, mi);
      OkPlayer(turn);
      CommitFresh(turn, newTiles, pool);
      CommittedSettles(setup, mid, before, players, stones, turn, newTiles);
    }

    static lemma AllPutDown(s: Setup, was: Player, now: Player, mv: Move)
      requires PutDown(s.rules, was, now, mv, |mv.tiles|)
      ensures now.pending == PendingOf(mv) && now.curMoveScore == was.curMoveScore
      ensures now.curMoveValid ==> was.curMoveValid && mv.tiles == []
    {
      assert PendingOf(mv)[..|mv.tiles|] == PendingOf(mv);
    }

    lemma ScoreOfLogged(turn: nat, mi: Move)
      requires PlayersOk() && turn < setup.nPlayers && players[turn].pending == PendingOf(mi)
      requires OnBoard(setup.size, mi) && MoveOf(PendingOf(mi)) == mi && InALine(PendingOf(mi))
      requires mi.tiles == [] || IsLegal(BoardOf(setup.size, stones), mi)
      ensures TurnScore(turn) == Scored(setup, stones, mi)
      ensures mi.tiles == [] ==> TurnScore(turn) == 0
    {
      hide IsLegal, BoardOf, MoveScore, MoveOf;
      PassScoresNothing(setup, stones, mi);
    }

    static lemma CommittedSettles(s: Setup, was: seq<Player>, before: Stones, now: seq<Player>, after: Stones,
                                  turn: nat, newTiles: seq<Tile>)
      requires exists score :: Committed(s, was, before, now, after, turn, newTiles, score)
      requires forall i :: 0 <= i < |was| && i != turn ==> was[i].pending == []
      ensures forall i :: 0 <= i < |now| ==> now[i].pending == [] && !now[i].curMoveValid
    {
    }

    /** Replays one logged phony: put down, scored for display, and taken back. */
    method AddPhony(turn: nat, mi: Move, ghost pool: multiset<Tile>)
      requires Valid() && Settled() && ValidEntry(setup, Now(pool), PhonyEntry(turn, mi))
      modifies this`players, tiles
      ensures Valid() && Settled() && Now(pool) == old(Now(pool))
    {
      hide CellsOk, PlayersOk, PlayerOk, AllPending, Hands, Scores, MoveOf, PutDown, CurScore, RackTiles;
      ghost var was := players;
      OkPlayer(turn);
      MakeTurnFromMoveInfo(turn, mi, pool);
      AllPutDown(setup, was[turn], players[turn], mi);
      OkPlayer(turn);
      PendingDistinct(setup, players[turn]);
      ghost var mid := players;
      var _ := GetCurrentMoveScoreIfLegal(turn, AllPending(players));
      SamePending(mid, players);
      HandKept(setup.rules, mid, turn, players[turn]);
      NothingScoresNothing(mi);
      OkIsIn();
      ResetCurrentTurn(turn);
    }

    lemma NothingScoresNothing(mi: Move)
      ensures mi.tiles == [] ==> PendingOf(mi) == []
      ensures CurScore(setup, stones, []) == 0
    {
    }

    method AddTrade(turn: nat, oldTiles: seq<Tile>, newTiles: seq<Tile>, ghost pool: multiset<Tile>)
      requires Valid() && Settled() && ValidEntry(setup, Now(pool), TradeEntry(turn, oldTiles, newTiles))
      modifies this`players
      ensures Valid() && Settled()
      ensures CameBy(setup, old(Now(pool)), TradeEntry(turn, oldTiles, newTiles), Now(pool + multiset(oldTiles) - multiset(newTiles)))
    {
      hide CellsOk, PlayersOk, AllPending, Hands, Scores, PendingTiles, Hand, Apply, Traded, InPlace;
      OkPlayer(turn);
      TrayIsHand(setup.rules, players[turn]);
      HandIs(players, turn);
      TradeInTray(turn, oldTiles, newTiles, pool);
    }

    method AddAssign(turn: nat, newTiles: seq<Tile>, ghost pool: multiset<Tile>)
      requires Valid() && Settled() && ValidEntry(setup, Now(pool), AssignEntry(turn, newTiles))
      modifies this`players
      ensures Valid() && Settled()
      ensures CameBy(setup, old(Now(pool)), AssignEntry(turn, newTiles), Now(pool - multiset(newTiles)))
    {
      hide CellsOk, PlayerOk, AllPending, Hands, Scores, PendingTiles, Hand;
      ghost var was, g := players, Now(pool);
      HandAt(turn);
      AddNewTiles(turn, newTiles);
      TrayChanged(was, turn);
      MoreInHand(multiset(was[turn].tray), PendingTiles(setup.rules, was[turn].pending), multiset(newTiles));
    }

    /** Replays one entry of a log: it has the effect the entry stands for. */
    method ModelAddEntry(e: Entry, ghost pool: multiset<Tile>)
      requires Valid() && Settled() && ValidEntry(setup, Now(pool), e)
      modifies this, tiles
      ensures Valid() && Settled() && log == old(log)
      ensures CameBy(setup, old(Now(pool)), e, Now(Apply(setup, old(Now(pool)), e).pool))
    {
      hide CellsOk, PlayersOk, AllPending, Hands, Scores, Settled, Playable, IsLegal, BoardOf;
      match e {
        case MoveEntry(turn, mi, newTiles) => AddMove(turn, mi, newTiles, pool);
        case TradeEntry(turn, oldTiles, newTiles) => AddTrade(turn, oldTiles, newTiles, pool);
        case AssignEntry(turn, newTiles) => AddAssign(turn, newTiles, pool);
        case PhonyEntry(turn, mi) => AddPhony(turn, mi, pool);
      }
    }

    lemma HandIs(ps: seq<Player>, turn: nat)
      requires turn < |ps|
      ensures Hands(setup.rules, ps)[turn] == Hand(setup.rules, ps[turn])
    {
    }

    /** Builds the game a log describes, entry by entry, on an empty model. */
    method BuildModelFromStack(stack: seq<Entry>)
      requires Valid() && Settled() && Replay(setup, stack).Some? && Now(setup.letters) == Start(setup)
      modifies this, tiles
      ensures Valid() && log == old(log)
      ensures Now(Replay(setup, stack).value.pool) == Replay(setup, stack).value
    {
      hide ValidEntry, Apply;
      for ii := 0 to |stack|
        invariant Valid() && Settled() && log == old(log)
        invariant Replay(setup, stack[..ii]).Some?
        invariant Now(Replay(setup, stack[..ii]).value.pool) == Replay(setup, stack[..ii]).value
      {
        hide Valid;
        EntryFollows(setup, stack, ii);
        ModelAddEntry(stack[ii], Replay(setup, stack[..ii]).value.pool);
      }
      assert stack[..|stack|] == stack;
    }

    static lemma {:induction false} EntryFollows(s: Setup, stack: seq<Entry>, ii: nat)
      requires Replay(s, stack).Some? && ii < |stack|
      ensures Replay(s, stack[..ii]).Some? && ValidEntry(s, Replay(s, stack[..ii]).value, stack[ii])
      ensures Replay(s, stack[..ii + 1]) == Some(Apply(s, Replay(s, stack[..ii]).value, stack[ii]))
      decreases |stack|
    {
      hide ValidEntry, Apply;
      if ii == |stack| - 1 {
        assert stack[..ii + 1] == stack;
      } else {
        EntryFollows(s, stack[..|stack| - 1], ii);
        assert stack[..|stack| - 1][..ii] == stack[..ii] && stack[..|stack| - 1][..ii + 1] == stack[..ii + 1];
      }
    }

    /** A pending tile is moved to another square. The player is left with two tiles that will claim one
        square exactly when a tile taken back earlier, and still to be put down again, lay there. */
    method MoveTileOnBoard(turn: nat, colCur: nat, rowCur: nat, colNew: nat, rowNew: nat) returns (found: bool)
      requires Sound() && turn < setup.nPlayers && colNew < setup.size && rowNew < setup.size
      requires Pos(colNew, rowNew) !in stones && Pos(colNew, rowNew) !in Squares(players[turn].pending)
      modifies this`players, tiles
      ensures Sound()
      ensures found <==> Pos(colCur, rowCur) in old(Squares(players[turn].pending))
      ensures !found ==> players == old(players)
      ensures found ==>
                (exists i :: 0 <= i < |old(players[turn]).pending|
                             && PosOf(old(players[turn]).pending[i]) == Pos(colCur, rowCur)
                             && players == old(players)[turn := Moved(old(players[turn]), i, Pos(colNew, rowNew))]
                             && ChangedSquare(old(players[turn]), players[turn], i, Pos(colNew, rowNew)))
      ensures found && old(PlayersOk()) ==> (Valid() <==> Pos(colNew, rowNew) !in Squares(players[turn].undone))
      ensures forall pool :: Now(pool) == old(Now(pool))
    {
      hide CellsOk, PlayerIn, PlayerOk, AllPending, Hands, Scores, Hand, Squares;
      var player := players[turn];
      ghost var was := players;
      var index := |player.pending|;
      found := false;
      while index > 0
        invariant 0 <= index <= |player.pending|
        invariant forall k :: index <= k < |player.pending| ==> PosOf(player.pending[k]) != Pos(colCur, rowCur)
      {
        index := index - 1;
        if player.pending[index].col == colCur && player.pending[index].row == rowCur {
          found := true;
          break;
        }
      }
      SquaresHas(player.pending, Pos(colCur, rowCur));
      if found {
        OwnInBounds(turn, index);
        MovedKeepsHand(setup.rules, player, index, Pos(colNew, rowNew));
        HandKept(setup.rules, players, turn, Moved(player, index, Pos(colNew, rowNew)));
        PendingMoved(players, turn, index, Pos(colNew, rowNew));
        MovedIsIn(setup, player, index, Pos(colNew, rowNew));
        if PlayersOk() {
          MovedIsOk(setup, player, index, Pos(colNew, rowNew));
        }
        players := players[turn := player.(pending := player.pending[index := player.pending[index].(col := colNew, row := rowNew)],
                                           curMoveValid := false)];
        DecrPendingTileCountAt(colCur, rowCur, AllPending(was));
        IncrPendingTileCountAt(colNew, rowNew, AllPending(was) - multiset{Pos(colCur, rowCur)});
      }
    }

    static lemma SquaresHas(pending: seq<PendingTile>, p: Pos)
      ensures p in Squares(pending) <==> exists k :: 0 <= k < |pending| && PosOf(pending[k]) == p
    {
      forall k | 0 <= k < |pending| && PosOf(pending[k]) == p
        ensures p in Squares(pending)
      {
        assert Squares(pending)[k] == p;
      }
    }

    static lemma PendingMoved(players: seq<Player>, turn: nat, i: nat, p: Pos)
      requires turn < |players| && i < |players[turn].pending|
      ensures var was := PosOf(players[turn].pending[i]);
              && was in AllPending(players)
              && AllPending(players[turn := Moved(players[turn], i, p)]) == AllPending(players) - multiset{was} + multiset{p}
    {
      hide AllPending;
      var pl := players[turn];
      var was := PosOf(pl.pending[i]);
      var mine, now := multiset(Squares(pl.pending)), multiset(Squares(Moved(pl, i, p).pending));
      MovedSquares(pl, i, p);
      PendingChanged(players, turn, Moved(pl, i, p));
      OwnAmongAll(players, turn);
      assert Squares(pl.pending)[i] == was;
      Shifted(AllPending(players[turn := Moved(pl, i, p)]), AllPending(players), mine, now, was, p);
    }

    static lemma Shifted<T>(a: multiset<T>, b: multiset<T>, mine: multiset<T>, now: multiset<T>, x: T, y: T)
      requires a + mine == b + now && now + multiset{x} == mine + multiset{y} && x in b
      ensures a == b - multiset{x} + multiset{y}
    {
      assert forall z :: (a + mine)[z] == a[z] + mine[z] && (b + now)[z] == b[z] + now[z];
      assert forall z :: (now + multiset{x})[z] == now[z] + multiset{x}[z];
      assert forall z :: (mine + multiset{y})[z] == mine[z] + multiset{y}[z];
    }

    static lemma MovedIsIn(s: Setup, pl: Player, i: nat, p: Pos)
      requires PlayerIn(s, pl) && i < |pl.pending| && p.col < s.size && p.row < s.size
      ensures PlayerIn(s, Moved(pl, i, p))
    {
      var ps, qs := pl.pending + pl.undone, Moved(pl, i, p).pending + pl.undone;
      var pt := pl.pending[i].(col := p.col, row := p.row);
      assert qs == ps[i := pt] && ps[i] == pl.pending[i];
      assert forall x :: x in qs ==> x in ps || x == pt;
    }

    static lemma MovedIsOk(s: Setup, pl: Player, i: nat, p: Pos)
      requires PlayerOk(s, pl) && i < |pl.pending| && p.col < s.size && p.row < s.size && p !in Squares(pl.pending)
      ensures PlayerOk(s, Moved(pl, i, p)) <==> p !in Squares(pl.undone)
    {
      var ps, qs := pl.pending + pl.undone, Moved(pl, i, p).pending + pl.undone;
      var pt := pl.pending[i].(col := p.col, row := p.row);
      assert qs == ps[i := pt];
      SquaresHas(pl.undone, p);
      SquaresHas(pl.pending, p);
      if k :| 0 <= k < |pl.undone| && PosOf(pl.undone[k]) == p {
        assert qs[|pl.pending| + k] == pl.undone[k] && PosOf(qs[i]) == p;
      } else {
        forall j | 0 <= j < |ps| && j != i
          ensures PosOf(ps[j]) != p
        {
          if j < |pl.pending| {
            assert ps[j] == pl.pending[j];
          } else {
            assert ps[j] == pl.undone[j - |pl.pending|];
          }
        }
        MovedIsIn(s, pl, i, p);
      }
    }
  }

  /** Commits a turn the way the server does, drawing the new tiles from the pool first. */
  method CommitMove(model: Model, pool: Pool.Pool, turn: nat, newTiles: seq<Tile>) returns (score: int)
    requires model.Valid() && model.Tracks() && model.InStep(pool) && turn < model.setup.nPlayers
    requires model.TurnScore(turn) >= 0
    requires Pool.Letters(pool.lettersLeft.Length, newTiles) && Pool.RemovalSafe(pool.lettersLeft[..], newTiles)
    modifies model, model.tiles, pool, pool.lettersLeft
    ensures model.Valid() && model.Tracks() && model.InStep(pool)
    ensures model.log == old(model.log) + [old(model.TurnEntry(turn, newTiles))]
    ensures score == if old(model.players[turn].curMoveValid) then old(model.players[turn].curMoveScore)
                     else old(model.TurnScore(turn))
    ensures model.drift == old(model.drift)[turn := old(model.drift)[turn] + score - old(model.TurnScore(turn))]
    ensures score == old(model.TurnScore(turn)) <==> old(model.Fresh(turn))
    ensures Committed(model.setup, old(model.players), old(model.stones), model.players, model.stones, turn, newTiles, score)
  {
    hide Model.CellsOk, Model.PlayersOk, Model.Tracks, Model.Faithful, Committed, Replay, CurScore, MoveOf, Pool.RemovalSafe,
      Pool.Pool.Valid, Pool.Pool.Contents, AllPending;
    Pool.SafeIffContained(pool.lettersLeft[..], newTiles);
    pool.RemoveTiles(newTiles);
    score := model.ModelCommitTurn(turn, newTiles);
  }

  method DrawAndReturn(pool: Pool.Pool, newTiles: seq<Tile>, oldTiles: seq<Tile>)
    requires pool.Valid() && Pool.Letters(pool.lettersLeft.Length, oldTiles)
    requires Pool.Letters(pool.lettersLeft.Length, newTiles) && Pool.RemovalSafe(pool.lettersLeft[..], newTiles)
    modifies pool, pool.lettersLeft
    ensures pool.Valid() && multiset(newTiles) <= old(pool.Contents())
    ensures pool.Contents() == old(pool.Contents()) - multiset(newTiles) + multiset(oldTiles)
  {
    Pool.SafeIffContained(pool.lettersLeft[..], newTiles);
    pool.RemoveTiles(newTiles);
    pool.ReplaceTiles(oldTiles);
  }

  /** Trades tiles the way the server does: new ones out of the pool, then old ones into it. */
  method CommitTrade(model: Model, pool: Pool.Pool, turn: nat, oldTiles: seq<Tile>, newTiles: seq<Tile>)
    requires model.Valid() && model.Tracks() && model.InStep(pool) && turn < model.setup.nPlayers
    requires |oldTiles| == |newTiles| && multiset(oldTiles) <= multiset(model.players[turn].tray)
    requires Pool.Letters(pool.lettersLeft.Length, newTiles) && Pool.RemovalSafe(pool.lettersLeft[..], newTiles)
    requires Pool.Letters(pool.lettersLeft.Length, oldTiles)
    modifies model`players, model`log, pool, pool.lettersLeft
    ensures model.Valid() && model.Tracks() && (old(model.Faithful()) ==> model.Faithful()) && model.InStep(pool)
    ensures model.log == old(model.log) + [TradeEntry(turn, oldTiles, newTiles)]
    ensures |model.players| == |old(model.players)|
    ensures model.players == old(model.players)[turn := old(model.players[turn]).(tray := model.players[turn].tray)]
    ensures multiset(model.players[turn].tray) == Model.Traded(multiset(old(model.players[turn]).tray), oldTiles, newTiles)
    ensures model.players[turn].tray == InPlace(old(model.players[turn]).tray, oldTiles, newTiles)
  {
    hide Model.Valid, Model.Faithful, Model.Tracks, Model.Traded, Replay, InPlace, Pool.RemovalSafe, Pool.Pool.Valid, Pool.Pool.Contents;
    model.PlayersCount();
    DrawAndReturn(pool, newTiles, oldTiles);
    model.ModelMakeTileTrade(turn, oldTiles, newTiles);
  }

  /** The game rebuilt from a faithful model's log has the same stones with their owners, the same hands and
      the same scores, although the tiles went down in another order. */
  method Rebuild(live: Model) returns (built: Model)
    requires live.Faithful()
    ensures fresh(built) && built.Valid() && built.setup == live.setup
    ensures forall pool :: built.Now(pool) == live.Now(pool)
  {
    built := new Model(live.setup);
    built.BuildModelFromStack(live.log);
  }
}
