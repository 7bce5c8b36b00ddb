/** Runs of the model's operations that end where they should not. */
module Findings {
  import opened Dawg
  import opened Grid
  import opened CrossChecks
  import opened Score
  import opened Legality
  import opened GameLog
  import opened TurnState
  import opened Model
  import opened GameRun
  import Pool

  /** Two players, a board of three by three, and five tiles of one letter, worth a point each. */
  function ThreeByThree(): Setup {
    GameSetup(3, RuleSet([1, 0], 1, []), 2, multiset{0, 0, 0, 0, 0})
  }

  function Tile0(owner: nat): Stone {
    Stone(0, false, owner)
  }

  /** A word on the middle row, and a second one that the first player plays on the last row. */
  function FirstWord(): Stones {
    map[Pos(1, 1) := Tile0(0), Pos(2, 1) := Tile0(0)]
  }

  function SecondMove(): Move {
    Move(true, 2, [MoveTile(0, 0, false), MoveTile(1, 0, false)])
  }

  /** The second player's tile at the start of the middle row, figured with the second word in place. */
  function Waiting(): seq<PendingTile> {
    [PendingTile(0, 1, 0, false)]
  }

  function WaitingMove(): Move {
    Move(false, 0, [MoveTile(1, 0, false)])
  }

  lemma WaitingIsMove()
    ensures MoveOf(Waiting()) == WaitingMove()
  {
    assert MoveTiles(false, Waiting()) == [MoveTile(1, 0, false)];
    assert [MoveTile(1, 0, false)][..0] == [];
  }

  lemma WaitingIsLegal(stones: Stones)
    requires Pos(1, 1) in stones
    ensures IsLegal(BoardOf(3, stones), WaitingMove())
  {
    var b, mv := BoardOf(3, stones), WaitingMove();
    OneTileNoGaps(RowOf(b, false, 0), mv.tiles[0]);
    assert Cell(b, false, 1, 1) == SquareAt(stones, Pos(1, 1));
    assert EarlierTile(b, mv, 1, 1);
    assert HasContact(b, mv, mv.tiles[0].varCoord);
  }

  lemma DownScore(stones: Stones)
    ensures Pos(0, 0) !in stones && Pos(0, 2) !in stones ==>
              WordScore(ThreeByThree().rules, BoardOf(3, stones), false, 0, WaitingMove().tiles) == 0
    ensures Pos(0, 0) !in stones && Pos(0, 2) in stones && stones[Pos(0, 2)] == Tile0(0) ==>
              WordScore(ThreeByThree().rules, BoardOf(3, stones), false, 0, WaitingMove().tiles) == 2
  {
    var g, b := ThreeByThree().rules, BoardOf(3, stones);
    var l := ColumnOf(b, true, 0);
    CachedScore(g, b, false, 0, WaitingMove().tiles[0]);
    assert l[0] == Cell(b, true, 0, 0) == SquareAt(stones, Pos(0, 0));
    assert l[2] == Cell(b, true, 0, 2) == SquareAt(stones, Pos(0, 2));
    if l[0].Empty? {
      assert LeftEdge(l, 1) == 1;
      if l[2].Empty? {
        assert RightEdge(l, 2) == 2;
      } else {
        assert RightEdge(l, 3) == 3 && RightEdge(l, 2) == 3;
        assert Points(g.values, g.blank, l, 3, 3) == 0;
      }
    }
  }

  /** The row the tile extends is the same with and without the second word. */
  lemma AcrossSame(stones: Stones, more: Stones)
    requires forall c :: 0 <= c < 3 ==> SquareAt(stones, Pos(c, 1)) == SquareAt(more, Pos(c, 1))
    ensures var g := ThreeByThree().rules;
            CrossScores(g, BoardOf(3, stones), false, 0, WaitingMove().tiles)
            == CrossScores(g, BoardOf(3, more), false, 0, WaitingMove().tiles)
  {
    var b, b' := BoardOf(3, stones), BoardOf(3, more);
    assert RowOf(b, true, 1) == RowOf(b', true, 1);
    assert WaitingMove().tiles[..0] == [];
  }

  lemma WaitingScore(stones: Stones)
    ensures var g, b := ThreeByThree().rules, BoardOf(3, stones);
            MoveScore(g, b, WaitingMove()) ==
            WordScore(g, b, false, 0, WaitingMove().tiles) + CrossScores(g, b, false, 0, WaitingMove().tiles)
  {
    hide WordScore, CrossScores;
    assert WaitingMove().tiles[..0] == [];
  }

  /** The second word goes down on the last row and nowhere else. */
  lemma SecondPlaced(before: Stones)
    ensures var mv := SecondMove();
            var after := Place(before, 0, mv.horizontal, mv.common, mv.tiles);
            && Pos(0, 2) in after && after[Pos(0, 2)] == Tile0(0)
            && (Pos(0, 0) in after <==> Pos(0, 0) in before)
            && (forall c :: 0 <= c < 3 ==>
                  (Pos(c, 1) in after <==> Pos(c, 1) in before)
                  && SquareAt(after, Pos(c, 1)) == SquareAt(before, Pos(c, 1)))
  {
    var mv := SecondMove();
    PlaceAt(before, 0, mv.horizontal, mv.common, mv.tiles, Pos(0, 0));
    PlaceAt(before, 0, mv.horizontal, mv.common, mv.tiles, Pos(0, 1));
    PlaceAt(before, 0, mv.horizontal, mv.common, mv.tiles, Pos(1, 1));
    PlaceAt(before, 0, mv.horizontal, mv.common, mv.tiles, Pos(2, 1));
    PlaceAt(before, 0, mv.horizontal, mv.common, mv.tiles, Pos(0, 2));
    assert PosAt(true, mv.tiles[0].varCoord, 2) == Pos(0, 2);
  }

  /** The second player's tile is worth more while the second word is there. */
  lemma WorthMore(after: Stones)
    requires var mv := SecondMove(); after == Place(FirstWord(), 0, mv.horizontal, mv.common, mv.tiles)
    ensures 0 <= CurScore(ThreeByThree(), FirstWord(), Waiting()) < CurScore(ThreeByThree(), after, Waiting())
  {
    var before := FirstWord();
    SecondPlaced(before);
    hide Place, IsLegal, MoveOf, MoveScore, WordScore, CrossScores, BoardOf, InALine, CurScore;
    WaitingIsMove();
    assert InALine(Waiting()) by { InOne(); }
    WaitingIsLegal(before);
    WaitingIsLegal(after);
    DownScore(before);
    DownScore(after);
    AcrossSame(before, after);
    WaitingScore(before);
    WaitingScore(after);
    WaitingCurScore(before);
    WaitingCurScore(after);
  }

  lemma WaitingCurScore(stones: Stones)
    requires MoveOf(Waiting()) == WaitingMove() && InALine(Waiting()) && IsLegal(BoardOf(3, stones), WaitingMove())
    ensures CurScore(ThreeByThree(), stones, Waiting()) == MoveScore(ThreeByThree().rules, BoardOf(3, stones), WaitingMove())
  {
    hide IsLegal, MoveScore, BoardOf, MoveOf, InALine;
  }

  lemma InOne()
    ensures InALine(Waiting())
  {
  }

  function First(): seq<PendingTile> {
    [PendingTile(1, 1, 0, false), PendingTile(2, 1, 0, false)]
  }

  function Second(): seq<PendingTile> {
    [PendingTile(0, 2, 0, false), PendingTile(1, 2, 0, false)]
  }

  /** Two tiles side by side in a row. */
  lemma TwoInRow(c: nat, r: nat)
    ensures var ps := [PendingTile(c, r, 0, false), PendingTile(c + 1, r, 0, false)];
            && MoveOf(ps) == Move(true, r, [MoveTile(c, 0, false), MoveTile(c + 1, 0, false)])
            && InALine(ps) && DistinctSquares(ps) && (c + 1 < 3 && r < 3 ==> PendingInBounds(3, ps))
  {
    var ps := [PendingTile(c, r, 0, false), PendingTile(c + 1, r, 0, false)];
    var ts := [MoveTile(c, 0, false), MoveTile(c + 1, 0, false)];
    assert MoveTiles(true, ps) == ts;
    SortedAlready(ts);
    assert InOneLine(ps, true) && !InOneLine(ps, false) by {
      assert ps[0].col != ps[1].col;
    }
  }

  lemma PairNoGaps(b: Board, c: nat, r: nat)
    requires c + 1 < |b| && r < |b|
    ensures var mv := Move(true, r, [MoveTile(c, 0, false), MoveTile(c + 1, 0, false)]);
            NoGaps(RowOf(b, true, r), mv.tiles) && Ascending(mv.tiles)
  {
    var ts := [MoveTile(c, 0, false), MoveTile(c + 1, 0, false)];
    SideBySideNoGaps(RowOf(b, true, r), ts);
  }

  lemma FirstIsLegal()
    ensures CurScore(ThreeByThree(), map[], First()) >= 0
  {
    var b, mv := BoardOf(3, map[]), Move(true, 1, [MoveTile(1, 0, false), MoveTile(2, 0, false)]);
    TwoInRow(1, 1);
    PairNoGaps(b, 1, 1);
    assert mv.tiles[0].varCoord == 1;
    assert OnStar(3, mv);
    hide MoveOf, BoardOf, InALine;
    assert IsLegal(b, mv);
  }

  lemma SecondIsLegal()
    ensures CurScore(ThreeByThree(), FirstWord(), Second()) >= 0
    ensures MoveOf(Second()) == SecondMove()
  {
    hide MoveOf, BoardOf, InALine;
    var stones := FirstWord();
    var b, mv := BoardOf(3, stones), SecondMove();
    TwoInRow(0, 2);
    PairNoGaps(b, 0, 2);
    assert Cell(b, true, 1, 1) == SquareAt(stones, PosAt(true, 1, 1));
    assert EarlierTile(b, mv, 1, 1);
    assert HasContact(b, mv, mv.tiles[1].varCoord);
    assert IsLegal(b, mv);
  }

  lemma FirstIsPut()
    ensures PutStones(map[], 0, First()) == FirstWord()
  {
    assert First()[..1] == [PendingTile(1, 1, 0, false)] && First()[..1][..0] == [];
  }

  lemma SecondIsPut()
    ensures var mv := SecondMove();
            PutStones(FirstWord(), 0, Second()) == Place(FirstWord(), 0, mv.horizontal, mv.common, mv.tiles)
  {
    TwoInRow(0, 2);
    PutIsPlace(3, FirstWord(), 0, Second());
  }
}
