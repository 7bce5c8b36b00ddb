/** Scoring of moves (xwords4/common/mscore.c), on the board as `model_getTile` shows it with pending
    tiles left out. */
module Score {
  import opened Dawg
  import opened Grid
  import opened CrossChecks

  const EMPTIED_TRAY_BONUS: nat := 50

  datatype Bonus = BONUS_NONE | BONUS_DOUBLE_LETTER | BONUS_DOUBLE_WORD | BONUS_TRIPLE_LETTER | BONUS_TRIPLE_WORD

  datatype RuleSet = RuleSet(values: seq<nat>, blank: nat, bonuses: seq<seq<Bonus>>)

  /** Tile values, the index of the blank, and the bonus squares by row and column. */
  type Rules = g: RuleSet | g.blank < |g.values| witness RuleSet([0], 0, [])

  /** A new tile of a move, at its coordinate along the move. */
  datatype MoveTile = MoveTile(varCoord: nat, tile: Tile, blank: bool)

  datatype Move = Move(horizontal: bool, common: nat, tiles: seq<MoveTile>)

  predicate InLine(n: nat, ts: seq<MoveTile>) {
    forall k :: 0 <= k < |ts| ==> ts[k].varCoord < n
  }

  predicate OnBoard(n: nat, mv: Move) {
    mv.common < n && InLine(n, mv.tiles)
  }

  predicate Ascending(ts: seq<MoveTile>) {
    forall j, k :: 0 <= j < k < |ts| ==> ts[j].varCoord < ts[k].varCoord
  }

  predicate Covers(ts: seq<MoveTile>, c: nat) {
    exists k :: 0 <= k < |ts| && ts[k].varCoord == c
  }

  function BonusAt(g: Rules, horizontal: bool, common: nat, c: nat): Bonus {
    var row, col := if horizontal then common else c, if horizontal then c else common;
    if row < |g.bonuses| && col < |g.bonuses[row]| then g.bonuses[row][col] else BONUS_NONE
  }

  function WordMultiplier(b: Bonus): nat {
    match b case BONUS_DOUBLE_WORD => 2 case BONUS_TRIPLE_WORD => 3 case _ => 1
  }

  function TileMultiplier(b: Bonus): nat {
    match b case BONUS_DOUBLE_LETTER => 2 case BONUS_TRIPLE_LETTER => 3 case _ => 1
  }

  /** Products are kept behind a name, so that the proofs never open them. */
  function Times(a: nat, multiplier: nat): nat {
    a * multiplier
  }

  // What a move is worth, said on the board with the move's tiles on it.

  function TileSquare(t: MoveTile): Square {
    Filled(t.tile, t.blank)
  }

  /** A line with new tiles laid over whatever is there. */
  function Lay(l: Line, ts: seq<MoveTile>): (m: Line)
    requires InLine(|l|, ts)
    ensures |m| == |l|
    decreases |ts|
  {
    if ts == [] then l
    else
      var t := ts[|ts| - 1];
      Lay(l, ts[..|ts| - 1])[t.varCoord := TileSquare(t)]
  }

  /** Bonus squares count under new tiles only. */
  function Multiplier(g: Rules, horizontal: bool, common: nat, ts: seq<MoveTile>, c: nat): nat {
    if Covers(ts, c) then TileMultiplier(BonusAt(g, horizontal, common, c)) else 1
  }

  function WordSum(g: Rules, horizontal: bool, common: nat, m: Line, ts: seq<MoveTile>, s: nat, e: nat): nat
    requires s <= e <= |m|
    requires forall k :: s <= k < e ==> m[k].Filled?
    decreases e - s
  {
    if s == e then 0
    else
      WordSum(g, horizontal, common, m, ts, s, e - 1)
      + Times(SquareValue(g.values, g.blank, m[e - 1]), Multiplier(g, horizontal, common, ts, e - 1))
  }

  /** The word the new tiles make along a line; a single letter is no word. */
  function WordScore(g: Rules, b: Board, horizontal: bool, common: nat, ts: seq<MoveTile>): nat
    requires common < |b| && InLine(|b|, ts) && ts != []
  {
    var m := Lay(RowOf(b, horizontal, common), ts);
    var s, e := LeftEdge(m, ts[0].varCoord), RightEdge(m, ts[0].varCoord);
    if e <= s + 1 then 0
    else WordSum(g, horizontal, common, m, ts, s, e)
  }

  function MoveMultiplier(g: Rules, horizontal: bool, common: nat, ts: seq<MoveTile>): nat
    decreases |ts|
  {
    if ts == [] then 1
    else
      Times(MoveMultiplier(g, horizontal, common, ts[..|ts| - 1]),
            WordMultiplier(BonusAt(g, horizontal, common, ts[|ts| - 1].varCoord)))
  }

  /** The word across the move at one of its tiles, with its multiplier. */
  function CrossScore(g: Rules, b: Board, horizontal: bool, common: nat, t: MoveTile): nat
    requires common < |b| && t.varCoord < |b|
  {
    Times(WordScore(g, b, !horizontal, t.varCoord, [MoveTile(common, t.tile, t.blank)]),
          WordMultiplier(BonusAt(g, horizontal, common, t.varCoord)))
  }

  function CrossScores(g: Rules, b: Board, horizontal: bool, common: nat, ts: seq<MoveTile>): nat
    requires common < |b| && InLine(|b|, ts)
    decreases |ts|
  {
    if ts == [] then 0
    else CrossScores(g, b, horizontal, common, ts[..|ts| - 1]) + CrossScore(g, b, horizontal, common, ts[|ts| - 1])
  }

  /** The word along the move with every word bonus under it, the words across it, and the bonus for
      playing a whole tray. */
  function MoveScore(g: Rules, b: Board, mv: Move): nat
    requires OnBoard(|b|, mv)
  {
    if mv.tiles == [] then 0
    else
      Times(WordScore(g, b, mv.horizontal, mv.common, mv.tiles),
            MoveMultiplier(g, mv.horizontal, mv.common, mv.tiles))
      + CrossScores(g, b, mv.horizontal, mv.common, mv.tiles)
      + if |mv.tiles| == MAX_TRAY_TILES then EMPTIED_TRAY_BONUS else 0
  }

  // The move's own squares do not matter.

  predicate OwnSquare(mv: Move, c: nat, r: nat) {
    r == mv.common && Covers(mv.tiles, c)
  }

  /** Two boards that differ at most on the squares of the move. */
  ghost predicate SameElsewhere(b: Board, b': Board, mv: Move) {
    && |b| == |b'|
    && forall c, r :: 0 <= c < |b| && 0 <= r < |b| && !OwnSquare(mv, c, r) ==>
         Cell(b, mv.horizontal, c, r) == Cell(b', mv.horizontal, c, r)
  }

  lemma {:induction false} LayAt(l: Line, ts: seq<MoveTile>, c: nat)
    requires Ascending(ts) && c < |l| && InLine(|l|, ts)
    ensures forall k :: 0 <= k < |ts| && ts[k].varCoord == c ==> Lay(l, ts)[c] == TileSquare(ts[k])
    ensures !Covers(ts, c) ==> Lay(l, ts)[c] == l[c]
    decreases |ts|
  {
    if ts != [] {
      var us := ts[..|ts| - 1];
      LayAt(l, us, c);
      assert forall k :: 0 <= k < |us| ==> us[k] == ts[k];
    }
  }

  lemma LaySame(b: Board, b': Board, mv: Move)
    requires OnBoard(|b|, mv) && Ascending(mv.tiles) && SameElsewhere(b, b', mv)
    ensures Lay(RowOf(b, mv.horizontal, mv.common), mv.tiles) == Lay(RowOf(b', mv.horizontal, mv.common), mv.tiles)
  {
    var l, l' := RowOf(b, mv.horizontal, mv.common), RowOf(b', mv.horizontal, mv.common);
    forall c | 0 <= c < |b|
      ensures Lay(l, mv.tiles)[c] == Lay(l', mv.tiles)[c]
    {
      LayAt(l, mv.tiles, c);
      LayAt(l', mv.tiles, c);
    }
  }

  lemma CrossScoreSame(g: Rules, b: Board, b': Board, mv: Move, t: MoveTile)
    requires OnBoard(|b|, mv) && SameElsewhere(b, b', mv) && t.varCoord < |b|
    ensures CrossScore(g, b, mv.horizontal, mv.common, t) == CrossScore(g, b', mv.horizontal, mv.common, t)
  {
    var ts := [MoveTile(mv.common, t.tile, t.blank)];
    var l, l' := RowOf(b, !mv.horizontal, t.varCoord), RowOf(b', !mv.horizontal, t.varCoord);
    assert ts[..0] == [];
    forall r | 0 <= r < |b| && r != mv.common
      ensures l[r] == l'[r]
    {
      assert l[r] == Cell(b, mv.horizontal, t.varCoord, r) && l'[r] == Cell(b', mv.horizontal, t.varCoord, r);
    }
    assert Lay(l, ts) == Lay(l', ts);
  }

  lemma {:induction false} CrossScoresSame(g: Rules, b: Board, b': Board, mv: Move, ts: seq<MoveTile>)
    requires OnBoard(|b|, mv) && SameElsewhere(b, b', mv) && InLine(|b|, ts)
    ensures CrossScores(g, b, mv.horizontal, mv.common, ts) == CrossScores(g, b', mv.horizontal, mv.common, ts)
    decreases |ts|
  {
    if ts != [] {
      CrossScoresSame(g, b, b', mv, ts[..|ts| - 1]);
      CrossScoreSame(g, b, b', mv, ts[|ts| - 1]);
    }
  }

  /** A move is worth the same whether or not its own tiles are already on the board: what stands on its
      squares does not matter. Committing adds this and undoing subtracts it. */
  lemma ScoreIgnoresOwnSquares(g: Rules, b: Board, b': Board, mv: Move)
    requires OnBoard(|b|, mv) && Ascending(mv.tiles) && SameElsewhere(b, b', mv)
    ensures MoveScore(g, b, mv) == MoveScore(g, b', mv)
  {
    hide WordSum, Times;
    LaySame(b, b', mv);
    CrossScoresSame(g, b, b', mv, mv.tiles);
  }

  // The crosswise score cache of the move generator.

  lemma {:induction false} SumIsPoints(g: Rules, horizontal: bool, common: nat, l: Line, m: Line,
                                       ts: seq<MoveTile>, s: nat, e: nat)
    requires s <= e <= |m| == |l|
    requires forall k :: s <= k < e ==> m[k].Filled? && m[k] == l[k] && !Covers(ts, k)
    ensures WordSum(g, horizontal, common, m, ts, s, e) == Points(g.values, g.blank, l, s, e)
    decreases e - s
  {
    if s < e {
      SumIsPoints(g, horizontal, common, l, m, ts, s, e - 1);
      PointsConcat(g.values, g.blank, l, s, e - 1, e);
      assert Points(g.values, g.blank, l, e, e) == 0;
    }
  }

  lemma {:induction false} SumConcat(g: Rules, horizontal: bool, common: nat, m: Line,
                                     ts: seq<MoveTile>, s: nat, x: nat, e: nat)
    requires s <= x <= e <= |m|
    requires forall k :: s <= k < e ==> m[k].Filled?
    ensures WordSum(g, horizontal, common, m, ts, s, e) ==
            WordSum(g, horizontal, common, m, ts, s, x) + WordSum(g, horizontal, common, m, ts, x, e)
    decreases e - x
  {
    if x < e {
      SumConcat(g, horizontal, common, m, ts, s, x, e - 1);
    }
  }

  lemma OneTileEdges(l: Line, t: MoveTile)
    requires t.varCoord < |l|
    ensures var m := Lay(l, [t]);
            var c := t.varCoord;
            && m == l[c := TileSquare(t)]
            && LeftEdge(m, c) == LeftEdge(l, c) && RightEdge(m, c) == RightEdge(l, c + 1)
  {
    assert [t][..0] == [];
    var m := l[t.varCoord := TileSquare(t)];
    LeftEdgeIs(m, t.varCoord, LeftEdge(l, t.varCoord));
    RightEdgeIs(m, t.varCoord, RightEdge(l, t.varCoord + 1));
  }

  lemma SumAround(g: Rules, horizontal: bool, common: nat, l: Line, t: MoveTile, s: nat, e: nat)
    requires s <= t.varCoord < e <= |l|
    requires forall k :: s <= k < e && k != t.varCoord ==> l[k].Filled?
    ensures var c := t.varCoord;
            WordSum(g, horizontal, common, l[c := TileSquare(t)], [t], s, e) ==
            Points(g.values, g.blank, l, s, c) + Points(g.values, g.blank, l, c + 1, e)
            + Times(SquareValue(g.values, g.blank, TileSquare(t)), TileMultiplier(BonusAt(g, horizontal, common, c)))
  {
    hide Points, Times, TileMultiplier, BonusAt;
    var c, m, ts := t.varCoord, l[t.varCoord := TileSquare(t)], [t];
    assert Covers(ts, c) by { assert ts[0].varCoord == c; }
    SumConcat(g, horizontal, common, m, ts, s, c + 1, e);
    SumIsPoints(g, horizontal, common, l, m, ts, s, c);
    SumIsPoints(g, horizontal, common, l, m, ts, c + 1, e);
  }

  /** What the move generator caches for a square, plus the tile put there with its own letter bonus, is
      the score of the crosswise word: the scorer may take the cached part instead of adding it up. */
  lemma CachedScore(g: Rules, b: Board, horizontal: bool, common: nat, t: MoveTile)
    requires common < |b| && t.varCoord < |b|
    ensures var l := ColumnOf(b, !horizontal, common);
            var c := t.varCoord;
            WordScore(g, b, horizontal, common, [t]) ==
            if LeftEdge(l, c) == c && RightEdge(l, c + 1) == c + 1 then 0
            else
              NeighbourPoints(g.values, g.blank, l, c)
              + Times(SquareValue(g.values, g.blank, TileSquare(t)), TileMultiplier(BonusAt(g, horizontal, common, c)))
  {
    hide LeftEdge, RightEdge, Points, Times, Lay, WordSum, SquareValue, BonusAt, TileMultiplier;
    var l, c := RowOf(b, horizontal, common), t.varCoord;
    assert l == ColumnOf(b, !horizontal, common);
    OneTileEdges(l, t);
    SumAround(g, horizontal, common, l, t, LeftEdge(l, c), RightEdge(l, c + 1));
  }

  // The scorer itself.

  /** The new tiles and what was there before leave no gap between the first and the last of them. */
  ghost predicate NoGaps(l: Line, ts: seq<MoveTile>)
    requires InLine(|l|, ts)
  {
    ts != [] && forall c :: ts[0].varCoord <= c <= ts[|ts| - 1].varCoord ==> Lay(l, ts)[c].Filled?
  }

  lemma EdgesOfLay(l: Line, ts: seq<MoveTile>)
    requires InLine(|l|, ts) && Ascending(ts) && NoGaps(l, ts)
    ensures LeftEdge(Lay(l, ts), ts[0].varCoord) == LeftEdge(l, ts[0].varCoord)
    ensures RightEdge(Lay(l, ts), ts[0].varCoord) == RightEdge(l, ts[|ts| - 1].varCoord + 1)
  {
    var m, lo, hi := Lay(l, ts), ts[0].varCoord, ts[|ts| - 1].varCoord;
    forall c | 0 <= c < |l| && (c < lo || hi < c)
      ensures m[c] == l[c]
    {
      LayAt(l, ts, c);
    }
    LeftEdgeIs(m, lo, LeftEdge(l, lo));
    RightEdgeIs(m, lo, RightEdge(l, hi + 1));
  }

  method FindStart(b: Board, horizontal: bool, common: nat, c: nat) returns (start: nat)
    requires common < |b| && c < |b|
    ensures start == LeftEdge(RowOf(b, horizontal, common), c)
  {
    start := c;
    while start > 0
      invariant start <= c
      invariant LeftEdge(RowOf(b, horizontal, common), start) == LeftEdge(RowOf(b, horizontal, common), c)
    {
      if Cell(b, horizontal, start - 1, common).Empty? {
        return;
      }
      start := start - 1;
    }
  }

  method FindEnd(b: Board, horizontal: bool, common: nat, c: nat) returns (end: nat)
    requires common < |b| && c < |b|
    ensures c <= end && end + 1 == RightEdge(RowOf(b, horizontal, common), c + 1)
  {
    end := c;
    var limit := |b| - 1;
    while end != limit
      invariant c <= end <= limit
      invariant RightEdge(RowOf(b, horizontal, common), end + 1) == RightEdge(RowOf(b, horizontal, common), c + 1)
      decreases limit - end
    {
      if Cell(b, horizontal, end + 1, common).Empty? {
        return;
      }
      end := end + 1;
    }
  }

  /** `tiles` points at the `taken`-th new tile when the scan reaches `c`. */
  ghost predicate Reached(ts: seq<MoveTile>, taken: nat, c: nat) {
    && taken <= |ts|
    && (forall k :: 0 <= k < taken ==> ts[k].varCoord < c)
    && (forall k :: taken <= k < |ts| ==> c <= ts[k].varCoord)
  }

  lemma ReachedStep(ts: seq<MoveTile>, taken: nat, c: nat)
    requires Ascending(ts) && Reached(ts, taken, c)
    ensures var here := taken < |ts| && ts[taken].varCoord == c;
            (here <==> Covers(ts, c)) && Reached(ts, if here then taken + 1 else taken, c + 1)
  {
  }

  /** Adds up the tiles from `start` to `end`, leaving out the first of the move. */
  method AddUp(g: Rules, b: Board, horizontal: bool, common: nat, ts: seq<MoveTile>, start: nat, end: nat)
    returns (restScore: nat)
    requires common < |b| && InLine(|b|, ts) && Ascending(ts)
    requires NoGaps(RowOf(b, horizontal, common), ts)
    requires start == LeftEdge(Lay(RowOf(b, horizontal, common), ts), ts[0].varCoord)
    requires end + 1 == RightEdge(Lay(RowOf(b, horizontal, common), ts), ts[0].varCoord)
    requires start <= ts[0].varCoord <= end
    ensures restScore + Times(SquareValue(g.values, g.blank, TileSquare(ts[0])),
                              TileMultiplier(BonusAt(g, horizontal, common, ts[0].varCoord)))
            == WordSum(g, horizontal, common, Lay(RowOf(b, horizontal, common), ts), ts, start, end + 1)
  {
    hide RowOf, Lay, LeftEdge, RightEdge, Reached, Covers, Times, NoGaps, Ascending;
    ghost var l := RowOf(b, horizontal, common);
    NotEmpty(l, ts);
    ghost var m := Lay(l, ts);
    ghost var thisTileValue := Times(SquareValue(g.values, g.blank, TileSquare(ts[0])),
                                     TileMultiplier(BonusAt(g, horizontal, common, ts[0].varCoord)));
    restScore := 0;
    var firstCoord := ts[0].varCoord;
    var taken, c := 0, start;
    StartsBefore(ts, start);
    while c <= end
      invariant start <= c <= end + 1
      invariant Reached(ts, taken, c) && taken <= |ts|
      invariant firstCoord < c <==> taken > 0
      invariant restScore + (if firstCoord < c then thisTileValue else 0)
                == WordSum(g, horizontal, common, m, ts, start, c)
    {
      ReachedStep(ts, taken, c);
      LayAt(l, ts, c);
      var square, tileMultiplier;
      if taken < |ts| && c == ts[taken].varCoord {
        square := TileSquare(ts[taken]);
        tileMultiplier := TileMultiplier(BonusAt(g, horizontal, common, c));
        taken := taken + 1;
      } else {
        tileMultiplier := 1;
        square := Cell(b, horizontal, c, common);
      }
      assert square == m[c] && tileMultiplier == Multiplier(g, horizontal, common, ts, c);
      if c != firstCoord {
        restScore := restScore + Times(SquareValue(g.values, g.blank, square), tileMultiplier);
      }
      c := c + 1;
    }
  }

  /** What the move generator lends the scorer for the words across its row: nothing, or a score for each
      square of the row. */
  datatype ScoreCache = NoCache | Cached(scores: seq<nat>)

  ghost predicate CacheRight(g: Rules, b: Board, horizontal: bool, common: nat, ts: seq<MoveTile>, cache: ScoreCache)
    requires common < |b| && InLine(|b|, ts)
  {
    cache.Cached? ==>
      && |ts| == 1 && common < |cache.scores|
      && cache.scores[common] == NeighbourPoints(g.values, g.blank, RowOf(b, horizontal, common), ts[0].varCoord)
  }

  /** The two ways of getting the rest of the word, adding it up and looking it up, give the same score. */
  method ScoreWord(g: Rules, b: Board, horizontal: bool, common: nat, ts: seq<MoveTile>, cache: ScoreCache)
    returns (restScore: nat)
    requires common < |b| && InLine(|b|, ts) && Ascending(ts)
    requires NoGaps(RowOf(b, horizontal, common), ts)
    requires CacheRight(g, b, horizontal, common, ts, cache)
    ensures restScore == WordScore(g, b, horizontal, common, ts)
  {
    hide RowOf, Lay, LeftEdge, RightEdge, Covers, Times, WordSum, NeighbourPoints, Ascending;
    ghost var l := RowOf(b, horizontal, common);
    EdgesOfLay(l, ts);
    var end := FindEnd(b, horizontal, common, ts[|ts| - 1].varCoord);
    var start := FindStart(b, horizontal, common, ts[0].varCoord);
    restScore := 0;
    if start < end {
      var thisTileValue := Times(SquareValue(g.values, g.blank, TileSquare(ts[0])),
                                 TileMultiplier(BonusAt(g, horizontal, common, ts[0].varCoord)));
      match cache {
        case NoCache =>
          Lasts(ts);
          restScore := AddUp(g, b, horizontal, common, ts, start, end);
        case Cached(scores) =>
          restScore := scores[common];
          assert ts == [ts[0]];
          assert l == ColumnOf(b, !horizontal, common);
          CachedScore(g, b, horizontal, common, ts[0]);
      }
      restScore := restScore + thisTileValue;
    }
  }

  lemma Lasts(ts: seq<MoveTile>)
    requires Ascending(ts) && ts != []
    ensures ts[0].varCoord <= ts[|ts| - 1].varCoord
  {
  }

  lemma StartsBefore(ts: seq<MoveTile>, c: nat)
    requires Ascending(ts) && ts != [] && c <= ts[0].varCoord
    ensures Reached(ts, 0, c)
  {
  }

  /** Where the generator lends its cache, it is right at the squares of the move. */
  ghost predicate RowCacheRight(g: Rules, b: Board, mv: Move, cache: ScoreCache)
    requires OnBoard(|b|, mv)
  {
    cache.Cached? ==>
      forall k :: 0 <= k < |mv.tiles| ==>
        && mv.tiles[k].varCoord < |cache.scores|
        && cache.scores[mv.tiles[k].varCoord] ==
             NeighbourPoints(g.values, g.blank, ColumnOf(b, mv.horizontal, mv.tiles[k].varCoord), mv.common)
  }

  lemma CacheAcross(g: Rules, b: Board, mv: Move, cache: ScoreCache, k: nat)
    requires OnBoard(|b|, mv) && RowCacheRight(g, b, mv, cache) && k < |mv.tiles|
    ensures var t := mv.tiles[k];
            CacheRight(g, b, !mv.horizontal, t.varCoord, [MoveTile(mv.common, t.tile, t.blank)], cache)
  {
    var c := mv.tiles[k].varCoord;
    assert ColumnOf(b, mv.horizontal, c) == RowOf(b, !mv.horizontal, c);
  }

  lemma NoCacheRight(g: Rules, b: Board, horizontal: bool, common: nat, ts: seq<MoveTile>)
    requires common < |b| && InLine(|b|, ts)
    ensures CacheRight(g, b, horizontal, common, ts, NoCache)
  {
  }

  method FigureMoveScore(g: Rules, b: Board, mv: Move, cache: ScoreCache) returns (score: nat)
    requires OnBoard(|b|, mv) && Ascending(mv.tiles)
    requires NoGaps(RowOf(b, mv.horizontal, mv.common), mv.tiles)
    requires RowCacheRight(g, b, mv, cache)
    ensures score == MoveScore(g, b, mv)
  {
    hide NoGaps, WordScore, RowOf, Ascending, Times, CacheRight, RowCacheRight;
    var horizontal, common, ts := mv.horizontal, mv.common, mv.tiles;
    var moveMultiplier, multipliers, ii := 1, [], 0;
    assert ts[..|ts|] == ts;
    while ii < |ts|
      invariant 0 <= ii == |multipliers| <= |ts|
      invariant forall k :: 0 <= k < ii ==> multipliers[k] == WordMultiplier(BonusAt(g, horizontal, common, ts[k].varCoord))
      invariant moveMultiplier == MoveMultiplier(g, horizontal, common, ts[..ii])
    {
      assert ts[..ii + 1][..ii] == ts[..ii];
      multipliers := multipliers + [WordMultiplier(BonusAt(g, horizontal, common, ts[ii].varCoord))];
      moveMultiplier := Times(moveMultiplier, multipliers[ii]);
      ii := ii + 1;
    }
    NoCacheRight(g, b, horizontal, common, ts);
    var oneScore := ScoreWord(g, b, horizontal, common, ts, NoCache);
    var base := Times(oneScore, moveMultiplier);
    score := base;
    ii := 0;
    while ii < |ts|
      invariant 0 <= ii <= |ts|
      invariant score == base + CrossScores(g, b, horizontal, common, ts[..ii])
    {
      assert ts[..ii + 1][..ii] == ts[..ii];
      var t := ts[ii];
      var one := [MoveTile(common, t.tile, t.blank)];
      OneTileNoGaps(RowOf(b, !horizontal, t.varCoord), one[0]);
      CacheAcross(g, b, mv, cache, ii);
      oneScore := ScoreWord(g, b, !horizontal, t.varCoord, one, cache);
      score := score + Times(oneScore, multipliers[ii]);
      ii := ii + 1;
    }
    assert ts != [] by { NotEmpty(RowOf(b, horizontal, common), ts); }
    if |ts| == MAX_TRAY_TILES {
      score := score + EMPTIED_TRAY_BONUS;
    }
  }

  lemma NotEmpty(l: Line, ts: seq<MoveTile>)
    requires InLine(|l|, ts) && NoGaps(l, ts)
    ensures ts != []
  {
  }

  lemma OneTileNoGaps(l: Line, t: MoveTile)
    requires t.varCoord < |l|
    ensures Ascending([t]) && NoGaps(l, [t])
  {
  }
}
