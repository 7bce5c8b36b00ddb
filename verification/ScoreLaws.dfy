/** What the score of a move is, square by square: what it comes to without bonus squares, and what each bonus
    square adds (xwords4/common/mscore.c). Every table of bonus squares is got from one that has none under the
    new tiles by changing one square after the other, so together these laws say what any move scores. */
module ScoreLaws {
  import opened Dawg
  import opened Grid
  import opened CrossChecks
  import opened Score
  import Geometry = RuleBook

  /** The rules with the bonus of one square changed. */
  function WithBonus(g: Rules, col: nat, row: nat, x: Bonus): (h: Rules)
    requires row < |g.bonuses| && col < |g.bonuses[row]|
  {
    g.(bonuses := g.bonuses[row := g.bonuses[row][col := x]])
  }

  function ColumnOfTile(mv: Move, k: nat): nat
    requires k < |mv.tiles|
  {
    if mv.horizontal then mv.tiles[k].varCoord else mv.common
  }

  function RowOfTile(mv: Move, k: nat): nat
    requires k < |mv.tiles|
  {
    if mv.horizontal then mv.common else mv.tiles[k].varCoord
  }

  /** The square of a new tile has a place in the table of bonus squares. */
  predicate InTable(g: Rules, mv: Move, k: nat)
    requires k < |mv.tiles|
  {
    RowOfTile(mv, k) < |g.bonuses| && ColumnOfTile(mv, k) < |g.bonuses[RowOfTile(mv, k)]|
  }

  function Under(g: Rules, mv: Move, k: nat, x: Bonus): Rules
    requires k < |mv.tiles| && InTable(g, mv, k)
  {
    WithBonus(g, ColumnOfTile(mv, k), RowOfTile(mv, k), x)
  }

  /** What a tile is worth: a blank what the blank is worth, whatever it shows. */
  function Value(g: Rules, tile: Tile, blank: bool): nat {
    if blank then g.values[g.blank] else if tile < |g.values| then g.values[tile] else 0
  }

  function ValueSum(g: Rules, l: Line, s: nat, e: nat): nat
    requires s <= e <= |l| && forall k :: s <= k < e ==> l[k].Filled?
    decreases e - s
  {
    if s == e then 0 else Value(g, l[s].tile, l[s].blank) + ValueSum(g, l, s + 1, e)
  }

  /** A tile alone in a line is no word there. */
  predicate HasNeighbour(l: Line, c: nat)
    requires c < |l|
  {
    (0 < c && l[c - 1].Filled?) || (c + 1 < |l| && l[c + 1].Filled?)
  }

  function LineAlong(b: Board, mv: Move): (l: Line)
    requires OnBoard(|b|, mv)
    ensures |l| == |b|
  {
    Lay(RowOf(b, mv.horizontal, mv.common), mv.tiles)
  }

  function LineAcross(b: Board, mv: Move, k: nat): (l: Line)
    requires OnBoard(|b|, mv) && k < |mv.tiles|
    ensures |l| == |b|
  {
    var t := mv.tiles[k];
    RowOf(b, !mv.horizontal, t.varCoord)[mv.common := Filled(t.tile, t.blank)]
  }

  // The parts of a score.

  /** What the word along the move adds. */
  function MainScore(g: Rules, b: Board, mv: Move): nat
    requires OnBoard(|b|, mv) && mv.tiles != []
  {
    Times(WordScore(g, b, mv.horizontal, mv.common, mv.tiles), MoveMultiplier(g, mv.horizontal, mv.common, mv.tiles))
  }

  /** What the word across the move at one of its tiles adds. */
  function AcrossScore(g: Rules, b: Board, mv: Move, k: nat): nat
    requires OnBoard(|b|, mv) && k < |mv.tiles|
  {
    CrossScore(g, b, mv.horizontal, mv.common, mv.tiles[k])
  }

  function AcrossFrom(g: Rules, b: Board, mv: Move, k: nat): nat
    requires OnBoard(|b|, mv) && k <= |mv.tiles|
    decreases |mv.tiles| - k
  {
    if k == |mv.tiles| then 0 else AcrossScore(g, b, mv, k) + AcrossFrom(g, b, mv, k + 1)
  }

  lemma {:induction false} CrossFrom(g: Rules, b: Board, mv: Move, k: nat)
    requires OnBoard(|b|, mv) && k <= |mv.tiles|
    ensures CrossScores(g, b, mv.horizontal, mv.common, mv.tiles) ==
            CrossScores(g, b, mv.horizontal, mv.common, mv.tiles[..k]) + AcrossFrom(g, b, mv, k)
    decreases |mv.tiles| - k
  {
    hide CrossScore;
    if k < |mv.tiles| {
      CrossFrom(g, b, mv, k + 1);
      assert mv.tiles[..k + 1][..k] == mv.tiles[..k];
    } else {
      assert mv.tiles[..k] == mv.tiles;
    }
  }

  /** The score is that of the word along the move and of every word across it, and fifty points more for a
      move of seven tiles. */
  lemma ScoreParts(g: Rules, b: Board, mv: Move)
    requires OnBoard(|b|, mv) && mv.tiles != []
    ensures MoveScore(g, b, mv) ==
            MainScore(g, b, mv) + AcrossFrom(g, b, mv, 0) + if |mv.tiles| == 7 then 50 else 0
  {
    hide CrossScores, WordScore, MoveMultiplier;
    CrossFrom(g, b, mv, 0);
    assert CrossScores(g, b, mv.horizontal, mv.common, mv.tiles[..0]) == 0 by {
      NothingAcross(g, b, mv);
    }
  }

  lemma NothingAcross(g: Rules, b: Board, mv: Move)
    requires OnBoard(|b|, mv)
    ensures CrossScores(g, b, mv.horizontal, mv.common, mv.tiles[..0]) == 0
  {
  }

  // Without bonus squares.

  predicate NoBonus(g: Rules, mv: Move) {
    forall k :: 0 <= k < |mv.tiles| ==> BonusAt(g, mv.horizontal, mv.common, mv.tiles[k].varCoord) == BONUS_NONE
  }

  lemma {:induction false} PlainSum(g: Rules, horizontal: bool, common: nat, m: Line, ts: seq<MoveTile>, s: nat, e: nat)
    requires s <= e <= |m| && forall k :: s <= k < e ==> m[k].Filled?
    requires forall k :: 0 <= k < |ts| ==> BonusAt(g, horizontal, common, ts[k].varCoord) == BONUS_NONE
    ensures WordSum(g, horizontal, common, m, ts, s, e) == ValueSum(g, m, s, e)
    decreases e - s
  {
    hide BonusAt;
    if s < e {
      PlainSum(g, horizontal, common, m, ts, s, e - 1);
      ValueSumLast(g, m, s, e);
      TimesOne(SquareValue(g.values, g.blank, m[e - 1]));
    }
  }

  lemma {:induction false} ValueSumLast(g: Rules, l: Line, s: nat, e: nat)
    requires s < e <= |l| && forall k :: s <= k < e ==> l[k].Filled?
    ensures ValueSum(g, l, s, e) == ValueSum(g, l, s, e - 1) + Value(g, l[e - 1].tile, l[e - 1].blank)
    decreases e - s
  {
    hide Value;
    if s + 1 < e {
      ValueSumLast(g, l, s + 1, e);
    } else {
      assert ValueSum(g, l, e, e) == 0 && ValueSum(g, l, s, s) == 0;
    }
  }

  lemma TimesOne(a: nat)
    ensures Times(a, 1) == a
  {
  }

  lemma {:induction false} PlainMultiplier(g: Rules, horizontal: bool, common: nat, ts: seq<MoveTile>)
    requires forall k :: 0 <= k < |ts| ==> BonusAt(g, horizontal, common, ts[k].varCoord) == BONUS_NONE
    ensures MoveMultiplier(g, horizontal, common, ts) == 1
    decreases |ts|
  {
    hide BonusAt;
    if ts != [] {
      var us := ts[..|ts| - 1];
      assert forall k :: 0 <= k < |us| ==> us[k] == ts[k];
      PlainMultiplier(g, horizontal, common, us);
    }
  }

  /** Without bonus squares under its new tiles a word counts the values of its letters. */
  lemma PlainWord(g: Rules, b: Board, horizontal: bool, common: nat, ts: seq<MoveTile>, s: nat, e: nat)
    requires common < |b| && InLine(|b|, ts) && ts != []
    requires forall k :: 0 <= k < |ts| ==> BonusAt(g, horizontal, common, ts[k].varCoord) == BONUS_NONE
    requires Geometry.WholeRun(Lay(RowOf(b, horizontal, common), ts), s, e) && s <= ts[0].varCoord < e
    ensures WordScore(g, b, horizontal, common, ts) ==
            if e == s + 1 then 0 else ValueSum(g, Lay(RowOf(b, horizontal, common), ts), s, e)
  {
    hide BonusAt, Lay;
    var m := Lay(RowOf(b, horizontal, common), ts);
    LeftEdgeIs(m, ts[0].varCoord, s);
    RightEdgeIs(m, ts[0].varCoord, e);
    PlainSum(g, horizontal, common, m, ts, s, e);
  }

  lemma OneTileLine(b: Board, mv: Move, k: nat)
    requires OnBoard(|b|, mv) && k < |mv.tiles|
    ensures var t := mv.tiles[k];
            Lay(RowOf(b, !mv.horizontal, t.varCoord), [MoveTile(mv.common, t.tile, t.blank)]) == LineAcross(b, mv, k)
  {
    var t := mv.tiles[k];
    var ts := [MoveTile(mv.common, t.tile, t.blank)];
    assert ts[..0] == [];
  }

  lemma BonusBothWays(g: Rules, mv: Move, k: nat)
    requires k < |mv.tiles|
    ensures BonusAt(g, !mv.horizontal, mv.tiles[k].varCoord, mv.common) ==
            BonusAt(g, mv.horizontal, mv.common, mv.tiles[k].varCoord)
  {
  }

  /** With no bonus square under a new tile a move scores the values of the letters of its word and of each word
      across it, a word being of two letters at least. */
  lemma PlainScore(g: Rules, b: Board, mv: Move, s: nat, e: nat)
    requires OnBoard(|b|, mv) && mv.tiles != [] && NoBonus(g, mv)
    requires Geometry.WholeRun(LineAlong(b, mv), s, e) && s <= mv.tiles[0].varCoord < e
    ensures MainScore(g, b, mv) == if e == s + 1 then 0 else ValueSum(g, LineAlong(b, mv), s, e)
    ensures forall k, x: nat, y: nat :: 0 <= k < |mv.tiles| && Geometry.WholeRun(LineAcross(b, mv, k), x, y) && x <= mv.common < y ==>
              AcrossScore(g, b, mv, k) == if y == x + 1 then 0 else ValueSum(g, LineAcross(b, mv, k), x, y)
  {
    hide WordScore, BonusAt, Lay, LineAcross, ValueSum;
    PlainWord(g, b, mv.horizontal, mv.common, mv.tiles, s, e);
    PlainMultiplier(g, mv.horizontal, mv.common, mv.tiles);
    TimesOne(WordScore(g, b, mv.horizontal, mv.common, mv.tiles));
    forall k, x: nat, y: nat | 0 <= k < |mv.tiles| && Geometry.WholeRun(LineAcross(b, mv, k), x, y) && x <= mv.common < y
      ensures AcrossScore(g, b, mv, k) == if y == x + 1 then 0 else ValueSum(g, LineAcross(b, mv, k), x, y)
    {
      PlainAcross(g, b, mv, k, x, y);
    }
  }

  lemma PlainAcross(g: Rules, b: Board, mv: Move, k: nat, x: nat, y: nat)
    requires OnBoard(|b|, mv) && k < |mv.tiles| && BonusAt(g, mv.horizontal, mv.common, mv.tiles[k].varCoord) == BONUS_NONE
    requires Geometry.WholeRun(LineAcross(b, mv, k), x, y) && x <= mv.common < y
    ensures AcrossScore(g, b, mv, k) == if y == x + 1 then 0 else ValueSum(g, LineAcross(b, mv, k), x, y)
  {
    hide WordScore, BonusAt, Lay, LineAcross, ValueSum, Geometry.WholeRun;
    var t := mv.tiles[k];
    var ts := [MoveTile(mv.common, t.tile, t.blank)];
    OneTileLine(b, mv, k);
    BonusBothWays(g, mv, k);
    PlainWord(g, b, !mv.horizontal, t.varCoord, ts, x, y);
    TimesOne(WordScore(g, b, !mv.horizontal, t.varCoord, ts));
  }

  // One bonus square changed.

  /** The two rules differ only in the bonus of a square of the line. */
  ghost predicate SameButAt(g: Rules, h: Rules, horizontal: bool, common: nat, c: nat) {
    && h.values == g.values && h.blank == g.blank
    && forall x: nat :: x != c ==> BonusAt(h, horizontal, common, x) == BonusAt(g, horizontal, common, x)
  }

  lemma OneChanged(g: Rules, mv: Move, k: nat, x: Bonus, y: Bonus)
    requires k < |mv.tiles| && InTable(g, mv, k)
    ensures SameButAt(Under(g, mv, k, x), Under(g, mv, k, y), mv.horizontal, mv.common, mv.tiles[k].varCoord)
    ensures BonusAt(Under(g, mv, k, x), mv.horizontal, mv.common, mv.tiles[k].varCoord) == x
    ensures SameButAt(Under(g, mv, k, x), Under(g, mv, k, y), !mv.horizontal, mv.tiles[k].varCoord, mv.common)
  {
  }

  lemma {:induction false} SumChanged(g: Rules, h: Rules, horizontal: bool, common: nat, m: Line, ts: seq<MoveTile>,
                                      s: nat, e: nat, c: nat)
    requires s <= e <= |m| && (forall k :: s <= k < e ==> m[k].Filled?) && SameButAt(g, h, horizontal, common, c)
    ensures WordSum(h, horizontal, common, m, ts, s, e) ==
            WordSum(g, horizontal, common, m, ts, s, e)
            + if s <= c < e && Covers(ts, c) then
                Times(SquareValue(g.values, g.blank, m[c]), TileMultiplier(BonusAt(h, horizontal, common, c)))
                - Times(SquareValue(g.values, g.blank, m[c]), TileMultiplier(BonusAt(g, horizontal, common, c)))
              else 0
    decreases e - s
  {
    hide BonusAt, TileMultiplier, SquareValue, Covers, Times;
    if s < e {
      SumChanged(g, h, horizontal, common, m, ts, s, e - 1, c);
    }
  }

  /** A tile of a run has a neighbour in it if and only if the run is of two or more. */
  lemma NeighbourIff(l: Line, s: nat, e: nat, c: nat)
    requires Geometry.WholeRun(l, s, e) && s <= c < e
    ensures HasNeighbour(l, c) <==> s + 1 < e
    ensures LeftEdge(l, c) == s && RightEdge(l, c) == e
  {
    LeftEdgeIs(l, c, s);
    RightEdgeIs(l, c, e);
  }

  /** What a change of the bonus under one tile of a word does to the word. */
  lemma {:induction false} WordChanged(g: Rules, h: Rules, b: Board, horizontal: bool, common: nat, ts: seq<MoveTile>, k: nat)
    requires common < |b| && InLine(|b|, ts) && Ascending(ts) && k < |ts|
    requires NoGaps(RowOf(b, horizontal, common), ts) && SameButAt(g, h, horizontal, common, ts[k].varCoord)
    ensures var t, m := ts[k], Lay(RowOf(b, horizontal, common), ts);
            var v := Value(g, t.tile, t.blank);
            WordScore(h, b, horizontal, common, ts) ==
            WordScore(g, b, horizontal, common, ts)
            + if HasNeighbour(m, t.varCoord) then
                Times(v, TileMultiplier(BonusAt(h, horizontal, common, t.varCoord)))
                - Times(v, TileMultiplier(BonusAt(g, horizontal, common, t.varCoord)))
              else 0
  {
    hide Lay, BonusAt, TileMultiplier, Times, HasNeighbour, WordSum;
    var l, t := RowOf(b, horizontal, common), ts[k];
    var m := Lay(l, ts);
    LayAt(l, ts, t.varCoord);
    assert Covers(ts, t.varCoord);
    var s, e := RunOfMove(l, ts, k);
    NeighbourIff(m, s, e, t.varCoord);
    NeighbourIff(m, s, e, ts[0].varCoord);
    SumChanged(g, h, horizontal, common, m, ts, s, e, t.varCoord);
  }

  /** The new tiles are all in one run. */
  lemma RunOfMove(l: Line, ts: seq<MoveTile>, k: nat) returns (s: nat, e: nat)
    requires InLine(|l|, ts) && Ascending(ts) && k < |ts| && NoGaps(l, ts)
    ensures Geometry.WholeRun(Lay(l, ts), s, e) && s <= ts[0].varCoord <= ts[k].varCoord < e
  {
    hide Lay;
    var m := Lay(l, ts);
    LayAt(l, ts, ts[0].varCoord);
    Geometry.RunAround(m, ts[0].varCoord);
    s, e := LeftEdge(m, ts[0].varCoord), RightEdge(m, ts[0].varCoord);
    assert ts[0].varCoord <= ts[k].varCoord <= ts[|ts| - 1].varCoord;
    assert forall c :: ts[0].varCoord <= c <= ts[k].varCoord ==> m[c].Filled?;
  }

  lemma TimesSwap(a: nat, x: nat, y: nat)
    ensures Times(Times(a, x), y) == Times(Times(a, y), x)
    ensures Times(a, Times(x, y)) == Times(Times(a, x), y)
  {
    assert a * x * y == a * y * x;
    assert a * (x * y) == a * x * y;
  }

  lemma {:induction false} MultiplierSame(g: Rules, h: Rules, horizontal: bool, common: nat, ts: seq<MoveTile>)
    requires forall k :: 0 <= k < |ts| ==>
      BonusAt(h, horizontal, common, ts[k].varCoord) == BonusAt(g, horizontal, common, ts[k].varCoord)
    ensures MoveMultiplier(h, horizontal, common, ts) == MoveMultiplier(g, horizontal, common, ts)
    decreases |ts|
  {
    hide BonusAt;
    if ts != [] {
      var us := ts[..|ts| - 1];
      assert forall k :: 0 <= k < |us| ==> us[k] == ts[k];
      MultiplierSame(g, h, horizontal, common, us);
    }
  }

  lemma {:induction false} MultiplierChanged(g: Rules, h: Rules, horizontal: bool, common: nat, ts: seq<MoveTile>, k: nat)
    requires Ascending(ts) && k < |ts| && SameButAt(g, h, horizontal, common, ts[k].varCoord)
    requires WordMultiplier(BonusAt(g, horizontal, common, ts[k].varCoord)) == 1
    ensures MoveMultiplier(h, horizontal, common, ts) ==
            Times(MoveMultiplier(g, horizontal, common, ts), WordMultiplier(BonusAt(h, horizontal, common, ts[k].varCoord)))
    decreases |ts|
  {
    hide BonusAt, WordMultiplier, Times;
    var us, last := ts[..|ts| - 1], ts[|ts| - 1];
    assert forall j :: 0 <= j < |us| ==> us[j] == ts[j];
    if k < |us| {
      MultiplierChanged(g, h, horizontal, common, us, k);
      TimesSwap(MoveMultiplier(g, horizontal, common, us), WordMultiplier(BonusAt(h, horizontal, common, ts[k].varCoord)),
                WordMultiplier(BonusAt(g, horizontal, common, last.varCoord)));
    } else {
      MultiplierSame(g, h, horizontal, common, us);
      TimesOne(MoveMultiplier(g, horizontal, common, us));
    }
  }

  lemma {:induction false} SumSame(g: Rules, h: Rules, horizontal: bool, common: nat, m: Line, ts: seq<MoveTile>, s: nat, e: nat)
    requires s <= e <= |m| && (forall k :: s <= k < e ==> m[k].Filled?) && h.values == g.values && h.blank == g.blank
    requires forall k :: 0 <= k < |ts| ==>
      BonusAt(h, horizontal, common, ts[k].varCoord) == BonusAt(g, horizontal, common, ts[k].varCoord)
    ensures WordSum(h, horizontal, common, m, ts, s, e) == WordSum(g, horizontal, common, m, ts, s, e)
    decreases e - s
  {
    hide BonusAt, TileMultiplier, SquareValue, Times;
    if s < e {
      SumSame(g, h, horizontal, common, m, ts, s, e - 1);
    }
  }

  /** Rules with the same bonus under every new tile. */
  ghost predicate SameUnder(g: Rules, h: Rules, mv: Move) {
    && h.values == g.values && h.blank == g.blank
    && forall k :: 0 <= k < |mv.tiles| ==>
         BonusAt(h, mv.horizontal, mv.common, mv.tiles[k].varCoord) == BonusAt(g, mv.horizontal, mv.common, mv.tiles[k].varCoord)
  }

  lemma MainSame(g: Rules, h: Rules, b: Board, mv: Move)
    requires OnBoard(|b|, mv) && mv.tiles != [] && SameUnder(g, h, mv)
    ensures MainScore(h, b, mv) == MainScore(g, b, mv)
  {
    hide BonusAt, Times, WordSum, MoveMultiplier, Lay;
    var m := LineAlong(b, mv);
    var s, e := LeftEdge(m, mv.tiles[0].varCoord), RightEdge(m, mv.tiles[0].varCoord);
    SumSame(g, h, mv.horizontal, mv.common, m, mv.tiles, s, e);
    MultiplierSame(g, h, mv.horizontal, mv.common, mv.tiles);
  }

  lemma AcrossSame(g: Rules, h: Rules, b: Board, mv: Move, k: nat)
    requires OnBoard(|b|, mv) && k < |mv.tiles| && h.values == g.values && h.blank == g.blank
    requires BonusAt(h, mv.horizontal, mv.common, mv.tiles[k].varCoord) == BonusAt(g, mv.horizontal, mv.common, mv.tiles[k].varCoord)
    ensures AcrossScore(h, b, mv, k) == AcrossScore(g, b, mv, k)
  {
    hide BonusAt, Times, WordSum, Lay;
    var t := mv.tiles[k];
    var ts := [MoveTile(mv.common, t.tile, t.blank)];
    var m := Lay(RowOf(b, !mv.horizontal, t.varCoord), ts);
    BonusBothWays(g, mv, k);
    BonusBothWays(h, mv, k);
    SumSame(g, h, !mv.horizontal, t.varCoord, m, ts, LeftEdge(m, mv.common), RightEdge(m, mv.common));
  }

  lemma {:induction false} FromSame(g: Rules, h: Rules, b: Board, mv: Move, k: nat)
    requires OnBoard(|b|, mv) && k <= |mv.tiles|
    requires forall j :: k <= j < |mv.tiles| ==> AcrossScore(h, b, mv, j) == AcrossScore(g, b, mv, j)
    ensures AcrossFrom(h, b, mv, k) == AcrossFrom(g, b, mv, k)
    decreases |mv.tiles| - k
  {
    hide AcrossScore;
    if k < |mv.tiles| {
      FromSame(g, h, b, mv, k + 1);
    }
  }

  /** If only one word across is scored differently, the score differs by it. */
  lemma {:induction false} FromChanged(g: Rules, h: Rules, b: Board, mv: Move, i: nat, k: nat)
    requires OnBoard(|b|, mv) && i <= k < |mv.tiles|
    requires forall j :: i <= j < |mv.tiles| && j != k ==> AcrossScore(h, b, mv, j) == AcrossScore(g, b, mv, j)
    ensures AcrossFrom(h, b, mv, i) == AcrossFrom(g, b, mv, i) + AcrossScore(h, b, mv, k) - AcrossScore(g, b, mv, k)
    decreases |mv.tiles| - i
  {
    hide AcrossScore;
    if i < k {
      FromChanged(g, h, b, mv, i + 1, k);
    } else {
      FromSame(g, h, b, mv, i + 1);
    }
  }

  /** A bonus square that no new tile lies on, under an earlier tile or none, changes nothing. */
  lemma ElsewhereBonus(g: Rules, b: Board, mv: Move, col: nat, row: nat, x: Bonus)
    requires OnBoard(|b|, mv) && row < |g.bonuses| && col < |g.bonuses[row]|
    requires forall k :: 0 <= k < |mv.tiles| ==> !(ColumnOfTile(mv, k) == col && RowOfTile(mv, k) == row)
    ensures MoveScore(WithBonus(g, col, row, x), b, mv) == MoveScore(g, b, mv)
  {
    hide MoveScore, AcrossScore, MainScore;
    var h := WithBonus(g, col, row, x);
    if mv.tiles == [] {
      NoScore(g, b, mv);
      NoScore(h, b, mv);
    } else {
      forall k | 0 <= k < |mv.tiles|
        ensures BonusAt(h, mv.horizontal, mv.common, mv.tiles[k].varCoord) ==
                BonusAt(g, mv.horizontal, mv.common, mv.tiles[k].varCoord)
      {
        assert !(ColumnOfTile(mv, k) == col && RowOfTile(mv, k) == row);
      }
      MainSame(g, h, b, mv);
      forall k | 0 <= k < |mv.tiles|
        ensures AcrossScore(h, b, mv, k) == AcrossScore(g, b, mv, k)
      {
        AcrossSame(g, h, b, mv, k);
      }
      FromSame(g, h, b, mv, 0);
      ScoreParts(g, b, mv);
      ScoreParts(h, b, mv);
    }
  }

  lemma NoScore(g: Rules, b: Board, mv: Move)
    requires OnBoard(|b|, mv) && mv.tiles == []
    ensures MoveScore(g, b, mv) == 0
  {
  }

  // The change of one bonus square under a new tile.

  /** The words across at the other tiles stay as they were. */
  lemma OthersAcross(g: Rules, b: Board, mv: Move, k: nat, x: Bonus, y: Bonus)
    requires OnBoard(|b|, mv) && Ascending(mv.tiles) && k < |mv.tiles| && InTable(g, mv, k)
    ensures forall j :: 0 <= j < |mv.tiles| && j != k ==>
      AcrossScore(Under(g, mv, k, y), b, mv, j) == AcrossScore(Under(g, mv, k, x), b, mv, j)
    ensures AcrossFrom(Under(g, mv, k, y), b, mv, 0) ==
            AcrossFrom(Under(g, mv, k, x), b, mv, 0)
            + AcrossScore(Under(g, mv, k, y), b, mv, k) - AcrossScore(Under(g, mv, k, x), b, mv, k)
  {
    hide AcrossScore, Under, BonusAt;
    OneChanged(g, mv, k, x, y);
    forall j | 0 <= j < |mv.tiles| && j != k
      ensures AcrossScore(Under(g, mv, k, y), b, mv, j) == AcrossScore(Under(g, mv, k, x), b, mv, j)
    {
      assert mv.tiles[j].varCoord != mv.tiles[k].varCoord;
      AcrossSame(Under(g, mv, k, x), Under(g, mv, k, y), b, mv, j);
    }
    FromChanged(Under(g, mv, k, x), Under(g, mv, k, y), b, mv, 0, k);
  }

  lemma AcrossChanged(g: Rules, h: Rules, b: Board, mv: Move, k: nat)
    requires OnBoard(|b|, mv) && k < |mv.tiles|
    requires SameButAt(g, h, !mv.horizontal, mv.tiles[k].varCoord, mv.common)
    ensures var t := mv.tiles[k];
            var x, y := BonusAt(g, mv.horizontal, mv.common, t.varCoord), BonusAt(h, mv.horizontal, mv.common, t.varCoord);
            var v := Value(g, t.tile, t.blank);
            var ts := [MoveTile(mv.common, t.tile, t.blank)];
            && AcrossScore(g, b, mv, k) == Times(WordScore(g, b, !mv.horizontal, t.varCoord, ts), WordMultiplier(x))
            && AcrossScore(h, b, mv, k) == Times(WordScore(h, b, !mv.horizontal, t.varCoord, ts), WordMultiplier(y))
            && WordScore(h, b, !mv.horizontal, t.varCoord, ts) ==
               WordScore(g, b, !mv.horizontal, t.varCoord, ts)
               + if HasNeighbour(LineAcross(b, mv, k), mv.common) then Times(v, TileMultiplier(y)) - Times(v, TileMultiplier(x)) else 0
  {
    hide WordScore, BonusAt, TileMultiplier, WordMultiplier, Times, LineAcross, HasNeighbour, Lay;
    var t := mv.tiles[k];
    var ts := [MoveTile(mv.common, t.tile, t.blank)];
    OneTileLine(b, mv, k);
    OneTileNoGaps(RowOf(b, !mv.horizontal, t.varCoord), ts[0]);
    BonusBothWays(g, mv, k);
    BonusBothWays(h, mv, k);
    WordChanged(g, h, b, !mv.horizontal, t.varCoord, ts, 0);
  }

  /** A double word square doubles, and a triple word square triples, the word along the move and the word across
      it at that tile, and does nothing to the other words. */
  lemma WordBonus(g: Rules, b: Board, mv: Move, k: nat)
    requires OnBoard(|b|, mv) && Ascending(mv.tiles) && NoGaps(RowOf(b, mv.horizontal, mv.common), mv.tiles)
    requires k < |mv.tiles| && InTable(g, mv, k)
    ensures var none := Under(g, mv, k, BONUS_NONE);
            var two, three := Under(g, mv, k, BONUS_DOUBLE_WORD), Under(g, mv, k, BONUS_TRIPLE_WORD);
            var main, across := MainScore(none, b, mv), AcrossScore(none, b, mv, k);
            && MainScore(two, b, mv) == 2 * main && MainScore(three, b, mv) == 3 * main
            && AcrossScore(two, b, mv, k) == 2 * across && AcrossScore(three, b, mv, k) == 3 * across
            && MoveScore(two, b, mv) == MoveScore(none, b, mv) + main + across
            && MoveScore(three, b, mv) == MoveScore(none, b, mv) + 2 * main + 2 * across
  {
    hide MoveScore, MainScore, AcrossScore, Under, AcrossFrom;
    var none, two, three := Under(g, mv, k, BONUS_NONE), Under(g, mv, k, BONUS_DOUBLE_WORD), Under(g, mv, k, BONUS_TRIPLE_WORD);
    WordBonusParts(g, b, mv, k, BONUS_DOUBLE_WORD, 2);
    WordBonusParts(g, b, mv, k, BONUS_TRIPLE_WORD, 3);
    OthersAcross(g, b, mv, k, BONUS_NONE, BONUS_DOUBLE_WORD);
    OthersAcross(g, b, mv, k, BONUS_NONE, BONUS_TRIPLE_WORD);
    ScoreParts(none, b, mv);
    ScoreParts(two, b, mv);
    ScoreParts(three, b, mv);
  }

  lemma TimesIs(a: nat, n: nat)
    ensures Times(a, n) == n * a
  {
  }

  lemma WordBonusParts(g: Rules, b: Board, mv: Move, k: nat, x: Bonus, n: nat)
    requires OnBoard(|b|, mv) && Ascending(mv.tiles) && NoGaps(RowOf(b, mv.horizontal, mv.common), mv.tiles)
    requires k < |mv.tiles| && InTable(g, mv, k) && WordMultiplier(x) == n && TileMultiplier(x) == 1
    ensures MainScore(Under(g, mv, k, x), b, mv) == n * MainScore(Under(g, mv, k, BONUS_NONE), b, mv)
    ensures AcrossScore(Under(g, mv, k, x), b, mv, k) == n * AcrossScore(Under(g, mv, k, BONUS_NONE), b, mv, k)
  {
    hide WordScore, BonusAt, Under, Times, AcrossScore, Lay, HasNeighbour, MoveMultiplier, LineAcross, NoGaps, RowOf, Value;
    var none, more := Under(g, mv, k, BONUS_NONE), Under(g, mv, k, x);
    OneChanged(g, mv, k, BONUS_NONE, x);
    OneChanged(g, mv, k, x, x);
    WordChanged(none, more, b, mv.horizontal, mv.common, mv.tiles, k);
    MultiplierChanged(none, more, mv.horizontal, mv.common, mv.tiles, k);
    var w := WordScore(none, b, mv.horizontal, mv.common, mv.tiles);
    var a := MoveMultiplier(none, mv.horizontal, mv.common, mv.tiles);
    TimesSwap(w, a, n);
    TimesIs(Times(w, a), n);
    AcrossChanged(none, more, b, mv, k);
    var t := mv.tiles[k];
    var c := WordScore(none, b, !mv.horizontal, t.varCoord, [MoveTile(mv.common, t.tile, t.blank)]);
    TimesOne(c);
    TimesIs(c, n);
  }

  /** No new tile but perhaps this one lies on a word bonus. */
  predicate NoOtherWordBonus(g: Rules, mv: Move, k: nat) {
    forall j :: 0 <= j < |mv.tiles| && j != k ==>
      var x := BonusAt(g, mv.horizontal, mv.common, mv.tiles[j].varCoord); x != BONUS_DOUBLE_WORD && x != BONUS_TRIPLE_WORD
  }

  lemma {:induction false} NoWordMultiplier(g: Rules, horizontal: bool, common: nat, ts: seq<MoveTile>)
    requires forall k :: 0 <= k < |ts| ==>
      var x := BonusAt(g, horizontal, common, ts[k].varCoord); x != BONUS_DOUBLE_WORD && x != BONUS_TRIPLE_WORD
    ensures MoveMultiplier(g, horizontal, common, ts) == 1
    decreases |ts|
  {
    hide BonusAt;
    if ts != [] {
      var us := ts[..|ts| - 1];
      assert forall k :: 0 <= k < |us| ==> us[k] == ts[k];
      NoWordMultiplier(g, horizontal, common, us);
    }
  }

  lemma OthersPlain(g: Rules, mv: Move, k: nat)
    requires k < |mv.tiles| && InTable(g, mv, k) && Ascending(mv.tiles)
    ensures NoOtherWordBonus(g, mv, k) ==>
              MoveMultiplier(Under(g, mv, k, BONUS_NONE), mv.horizontal, mv.common, mv.tiles) == 1
  {
    hide Under, BonusAt;
    var none := Under(g, mv, k, BONUS_NONE);
    if NoOtherWordBonus(g, mv, k) {
      forall j | 0 <= j < |mv.tiles|
        ensures j != k ==> BonusAt(none, mv.horizontal, mv.common, mv.tiles[j].varCoord) ==
                           BonusAt(g, mv.horizontal, mv.common, mv.tiles[j].varCoord)
        ensures j == k ==> BonusAt(none, mv.horizontal, mv.common, mv.tiles[j].varCoord) == BONUS_NONE
      {
        UnderOther(g, mv, k, j, BONUS_NONE);
      }
      NoWordMultiplier(none, mv.horizontal, mv.common, mv.tiles);
    }
  }

  lemma UnderOther(g: Rules, mv: Move, k: nat, j: nat, x: Bonus)
    requires k < |mv.tiles| && j < |mv.tiles| && InTable(g, mv, k) && Ascending(mv.tiles)
    ensures BonusAt(Under(g, mv, k, x), mv.horizontal, mv.common, mv.tiles[j].varCoord) ==
            if j == k then x else BonusAt(g, mv.horizontal, mv.common, mv.tiles[j].varCoord)
  {
    assert j != k ==> mv.tiles[j].varCoord != mv.tiles[k].varCoord;
  }

  lemma TimesMore(w: nat, a: nat, extra: nat, m: nat)
    ensures Times(w + extra * a, m) == Times(w, m) + extra * Times(a, m)
  {
    assert (w + extra * a) * m == w * m + (extra * a) * m;
    assert (extra * a) * m == extra * (a * m);
  }

  lemma LetterBonusParts(g: Rules, b: Board, mv: Move, k: nat, x: Bonus, extra: nat)
    requires OnBoard(|b|, mv) && Ascending(mv.tiles) && NoGaps(RowOf(b, mv.horizontal, mv.common), mv.tiles)
    requires k < |mv.tiles| && InTable(g, mv, k) && WordMultiplier(x) == 1 && TileMultiplier(x) == 1 + extra
    ensures var none, t := Under(g, mv, k, BONUS_NONE), mv.tiles[k];
            var along := if HasNeighbour(LineAlong(b, mv), t.varCoord) then Value(g, t.tile, t.blank) else 0;
            var across := if HasNeighbour(LineAcross(b, mv, k), mv.common) then Value(g, t.tile, t.blank) else 0;
            && MainScore(Under(g, mv, k, x), b, mv) ==
               MainScore(none, b, mv) + extra * Times(along, MoveMultiplier(none, mv.horizontal, mv.common, mv.tiles))
            && AcrossScore(Under(g, mv, k, x), b, mv, k) == AcrossScore(none, b, mv, k) + extra * across
  {
    hide WordScore, BonusAt, Under, Times, AcrossScore, Lay, HasNeighbour, MoveMultiplier, LineAcross, NoGaps, RowOf, Value;
    var none, more, t := Under(g, mv, k, BONUS_NONE), Under(g, mv, k, x), mv.tiles[k];
    var v := Value(none, t.tile, t.blank);
    SameValues(g, mv, k, x);
    OneChanged(g, mv, k, BONUS_NONE, x);
    OneChanged(g, mv, k, x, x);
    WordChanged(none, more, b, mv.horizontal, mv.common, mv.tiles, k);
    MultiplierChanged(none, more, mv.horizontal, mv.common, mv.tiles, k);
    TimesIs(v, 1 + extra);
    TimesIs(v, 1);
    MoreOf(v, extra);
    var a := MoveMultiplier(none, mv.horizontal, mv.common, mv.tiles);
    TimesOne(a);
    TimesMore(WordScore(none, b, mv.horizontal, mv.common, mv.tiles),
              if HasNeighbour(LineAlong(b, mv), t.varCoord) then v else 0, extra, a);
    AcrossChanged(none, more, b, mv, k);
    TimesOne(WordScore(none, b, !mv.horizontal, t.varCoord, [MoveTile(mv.common, t.tile, t.blank)]));
    TimesOne(WordScore(more, b, !mv.horizontal, t.varCoord, [MoveTile(mv.common, t.tile, t.blank)]));
  }

  lemma MoreOf(v: nat, extra: nat)
    ensures (1 + extra) * v - 1 * v == extra * v && extra * 0 == 0
  {
  }

  lemma SameValues(g: Rules, mv: Move, k: nat, x: Bonus)
    requires k < |mv.tiles| && InTable(g, mv, k)
    ensures Value(Under(g, mv, k, x), mv.tiles[k].tile, mv.tiles[k].blank) == Value(g, mv.tiles[k].tile, mv.tiles[k].blank)
    ensures Value(Under(g, mv, k, BONUS_NONE), mv.tiles[k].tile, mv.tiles[k].blank) == Value(g, mv.tiles[k].tile, mv.tiles[k].blank)
  {
  }

  /** A double letter square adds the value of the tile once more, and a triple letter square twice more, to each
      word that the tile is part of, before word bonuses under other tiles. */
  lemma LetterBonus(g: Rules, b: Board, mv: Move, k: nat)
    requires OnBoard(|b|, mv) && Ascending(mv.tiles) && NoGaps(RowOf(b, mv.horizontal, mv.common), mv.tiles)
    requires k < |mv.tiles| && InTable(g, mv, k)
    ensures var none := Under(g, mv, k, BONUS_NONE);
            var two, three := Under(g, mv, k, BONUS_DOUBLE_LETTER), Under(g, mv, k, BONUS_TRIPLE_LETTER);
            var t := mv.tiles[k];
            var along := if HasNeighbour(LineAlong(b, mv), t.varCoord) then Value(g, t.tile, t.blank) else 0;
            var across := if HasNeighbour(LineAcross(b, mv, k), mv.common) then Value(g, t.tile, t.blank) else 0;
            && AcrossScore(two, b, mv, k) == AcrossScore(none, b, mv, k) + across
            && AcrossScore(three, b, mv, k) == AcrossScore(none, b, mv, k) + 2 * across
            && MainScore(three, b, mv) - MainScore(two, b, mv) == MainScore(two, b, mv) - MainScore(none, b, mv)
            && (NoOtherWordBonus(g, mv, k) ==>
                && MainScore(two, b, mv) == MainScore(none, b, mv) + along
                && MoveScore(two, b, mv) == MoveScore(none, b, mv) + along + across
                && MoveScore(three, b, mv) == MoveScore(none, b, mv) + 2 * along + 2 * across)
  {
    hide MoveScore, MainScore, AcrossScore, Under, AcrossFrom, LineAlong, LineAcross, HasNeighbour, Value, NoOtherWordBonus;
    var none, two, three := Under(g, mv, k, BONUS_NONE), Under(g, mv, k, BONUS_DOUBLE_LETTER), Under(g, mv, k, BONUS_TRIPLE_LETTER);
    LetterBonusParts(g, b, mv, k, BONUS_DOUBLE_LETTER, 1);
    LetterBonusParts(g, b, mv, k, BONUS_TRIPLE_LETTER, 2);
    OthersPlain(g, mv, k);
    TimesOne(if HasNeighbour(LineAlong(b, mv), mv.tiles[k].varCoord) then Value(g, mv.tiles[k].tile, mv.tiles[k].blank) else 0);
    OthersAcross(g, b, mv, k, BONUS_NONE, BONUS_DOUBLE_LETTER);
    OthersAcross(g, b, mv, k, BONUS_NONE, BONUS_TRIPLE_LETTER);
    ScoreParts(none, b, mv);
    ScoreParts(two, b, mv);
    ScoreParts(three, b, mv);
  }
}
