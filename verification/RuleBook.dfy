/** What a move is by the rules of the game, said on the board before it and after it, and that the move
    generator's idea of a legal placement comes to the same. */
module RuleBook {
  import opened Dawg
  import opened Grid
  import opened Legal
  import opened SearchSpec
  import opened RowSearch
  import Geometry = MoveGeometry
  import Score
  import Legality

  // The board after a move.

  /** Each new tile is on the board. */
  predicate Fits(b: Board, m: MoveInfo) {
    m.common < |b| && forall k :: 0 <= k < |m.tiles| ==> m.tiles[k].col < |b|
  }

  /** The new tile on a square, if there is one there. */
  function NewAt(ts: Placement, c: nat): (k: nat)
    ensures k <= |ts|
    ensures k < |ts| ==> ts[k].col == c
    ensures forall j :: 0 <= j < k ==> ts[j].col != c
  {
    if ts == [] || ts[0].col == c then 0 else 1 + NewAt(ts[1..], c)
  }

  function SquareAfter(b: Board, m: MoveInfo, col: nat, row: nat): Square
    requires col < |b| && row < |b|
  {
    var along, across := if m.horizontal then col else row, if m.horizontal then row else col;
    var k := NewAt(m.tiles, along);
    if across == m.common && k < |m.tiles| then Filled(m.tiles[k].tile, false) else b[row][col]
  }

  ghost function BoardAfter(b: Board, m: MoveInfo): (a: Board)
    ensures |a| == |b|
    ensures forall r, c :: 0 <= r < |b| && 0 <= c < |b| ==> a[r][c] == SquareAfter(b, m, c, r)
  {
    seq(|b|, r requires 0 <= r < |b| => seq(|b|, c requires 0 <= c < |b| => SquareAfter(b, m, c, r)))
  }

  /** The line through a new tile, along the move or across it, and where on it the tile is. */
  function LineThrough(a: Board, m: MoveInfo, k: nat, along: bool): Line
    requires Fits(a, m) && k < |m.tiles|
  {
    if along then RowOf(a, m.horizontal, m.common) else RowOf(a, !m.horizontal, m.tiles[k].col)
  }

  function PlaceIn(m: MoveInfo, k: nat, along: bool): nat
    requires k < |m.tiles|
  {
    if along then m.tiles[k].col else m.common
  }

  // Words.

  /** From `s` up to `e` there are tiles, and none before or after. */
  predicate WholeRun(l: Line, s: nat, e: nat) {
    && s < e <= |l| && (forall k :: s <= k < e ==> l[k].Filled?)
    && (s == 0 || l[s - 1].Empty?) && (e == |l| || l[e].Empty?)
  }

  /** If that is a run, it spells a word. */
  predicate RunIsWord(d: Dict, l: Line, s: nat, e: nat) {
    WholeRun(l, s, e) ==> InDict(d, Letters(l, s, e))
  }

  /** Every run of two tiles or more that a new tile is part of, either way, spells a word. */
  ghost predicate MakesWords(d: Dict, b: Board, m: MoveInfo)
    requires Fits(b, m)
  {
    forall k, along, s: nat, e: nat :: 0 <= k < |m.tiles| && s <= PlaceIn(m, k, along) < e && s + 2 <= e ==>
      RunIsWord(d, LineThrough(BoardAfter(b, m), m, k, along), s, e)
  }

  /** A tile with no other next to it along the move is a word by itself. */
  ghost predicate LoneHere(d: Dict, b: Board, m: MoveInfo, k: nat)
    requires Fits(b, m) && k < |m.tiles|
  {
    WholeRun(LineThrough(BoardAfter(b, m), m, k, true), m.tiles[k].col, m.tiles[k].col + 1) ==> InDict(d, [m.tiles[k].tile])
  }

  ghost predicate LoneIsWord(d: Dict, b: Board, m: MoveInfo)
    requires Fits(b, m)
  {
    forall k :: 0 <= k < |m.tiles| ==> LoneHere(d, b, m, k)
  }

  // Squares.

  /** The new tiles are on bare squares, from left to right or from top to bottom, and with the tiles that were
      there before they leave no gap. */
  ghost predicate InOneRun(b: Board, m: MoveInfo)
    requires Fits(b, m)
  {
    && m.tiles != []
    && (forall k :: 0 <= k < |m.tiles| ==> Cell(b, m.horizontal, m.tiles[k].col, m.common).Empty?)
    && (forall j, k :: 0 <= j < k < |m.tiles| ==> m.tiles[j].col < m.tiles[k].col)
    && forall c :: m.tiles[0].col <= c <= m.tiles[|m.tiles| - 1].col ==>
         c < |b| && Cell(BoardAfter(b, m), m.horizontal, c, m.common).Filled?
  }

  /** The move as the scorer takes it. */
  function AsMove(m: MoveInfo): Score.Move {
    Score.Move(m.horizontal, m.common,
               seq(|m.tiles|, k requires 0 <= k < |m.tiles| => Score.MoveTile(m.tiles[k].col, m.tiles[k].tile, false)))
  }

  predicate CoversCentre(b: Board, m: MoveInfo) {
    m.common == |b| / 2 && exists k :: 0 <= k < |m.tiles| && m.tiles[k].col == |b| / 2
  }

  /** A placement that is all a move must be but for where on the board it is. */
  ghost predicate Playable(d: Dict, b: Board, rack: Rack, blank: nat, n: nat, m: MoveInfo)
    requires blank < |rack|
  {
    && Fits(b, m) && InOneRun(b, m) && MakesWords(d, b, m) && LoneIsWord(d, b, m)
    && |m.tiles| <= n && CanSupply(rack, blank, TilesOf(m.tiles))
  }

  /** The first move covers the centre, and every other one touches a tile played earlier. */
  ghost predicate ByRules(d: Dict, b: Board, rack: Rack, blank: nat, n: nat, m: MoveInfo)
    requires blank < |rack|
  {
    && Playable(d, b, rack, blank, n, m)
    && if BareBoard(b) then CoversCentre(b, m) else Legality.Touches(b, AsMove(m))
  }

  // The two descriptions agree.

  lemma RunAround(l: Line, c: nat)
    requires c < |l| && l[c].Filled?
    ensures WholeRun(l, LeftEdge(l, c), RightEdge(l, c)) && LeftEdge(l, c) <= c < RightEdge(l, c)
    ensures |RunWord(l, c)| == RightEdge(l, c) - LeftEdge(l, c)
  {
    assert RightEdge(l, c) == RightEdge(l, c + 1);
  }

  /** What a new tile's line is after the move, along it and across it. */
  lemma LinesAfter(b: Board, m: MoveInfo, k: nat)
    requires Fits(b, m) && OnEmpties(RowOf(b, m.horizontal, m.common), m.tiles) && k < |m.tiles|
    ensures LineThrough(BoardAfter(b, m), m, k, true) == Overlay(RowOf(b, m.horizontal, m.common), m.tiles)
    ensures LineThrough(BoardAfter(b, m), m, k, false) ==
            ColumnOf(b, m.horizontal, m.tiles[k].col)[m.common := Filled(m.tiles[k].tile, false)]
  {
    hide BoardAfter, Overlay;
    LineAlong(b, m);
    LineAcross(b, m, k);
  }

  lemma LineAlong(b: Board, m: MoveInfo)
    requires Fits(b, m) && OnEmpties(RowOf(b, m.horizontal, m.common), m.tiles)
    ensures RowOf(BoardAfter(b, m), m.horizontal, m.common) == Overlay(RowOf(b, m.horizontal, m.common), m.tiles)
  {
    hide Overlay;
    var a, l := BoardAfter(b, m), RowOf(b, m.horizontal, m.common);
    Geometry.OverlayAt(l, m.tiles);
    forall c | 0 <= c < |b|
      ensures RowOf(a, m.horizontal, m.common)[c] == Overlay(l, m.tiles)[c]
    {
      var j := NewAt(m.tiles, c);
      assert RowOf(a, m.horizontal, m.common)[c] == Cell(a, m.horizontal, c, m.common);
      assert l[c] == Cell(b, m.horizontal, c, m.common);
    }
  }

  lemma LineAcross(b: Board, m: MoveInfo, k: nat)
    requires Fits(b, m) && OnEmpties(RowOf(b, m.horizontal, m.common), m.tiles) && k < |m.tiles|
    ensures RowOf(BoardAfter(b, m), !m.horizontal, m.tiles[k].col) ==
            ColumnOf(b, m.horizontal, m.tiles[k].col)[m.common := Filled(m.tiles[k].tile, false)]
  {
    var a, col := BoardAfter(b, m), m.tiles[k].col;
    var across := ColumnOf(b, m.horizontal, col)[m.common := Filled(m.tiles[k].tile, false)];
    var j := NewAt(m.tiles, col);
    assert j == k;
    forall r | 0 <= r < |b|
      ensures RowOf(a, !m.horizontal, col)[r] == across[r]
    {
      assert RowOf(a, !m.horizontal, col)[r] == Cell(a, !m.horizontal, r, col) == Cell(a, m.horizontal, col, r);
      assert ColumnOf(b, m.horizontal, col)[r] == Cell(b, m.horizontal, col, r);
    }
  }

  lemma OneRunIff(b: Board, m: MoveInfo)
    requires Fits(b, m)
    ensures var l := RowOf(b, m.horizontal, m.common);
            InOneRun(b, m) <==> m.tiles != [] && OnEmpties(l, m.tiles) && Unbroken(l, m.tiles)
  {
    hide Overlay;
    var l, a := RowOf(b, m.horizontal, m.common), BoardAfter(b, m);
    assert forall k :: 0 <= k < |m.tiles| ==> l[m.tiles[k].col] == Cell(b, m.horizontal, m.tiles[k].col, m.common);
    if m.tiles != [] && OnEmpties(l, m.tiles) {
      LinesAfter(b, m, 0);
      assert forall c :: 0 <= c < |b| ==> Overlay(l, m.tiles)[c] == Cell(a, m.horizontal, c, m.common);
    }
  }

  lemma WordsIff(d: Dict, b: Board, m: MoveInfo)
    requires Fits(b, m) && InOneRun(b, m)
    ensures var l := RowOf(b, m.horizontal, m.common);
            && OnEmpties(l, m.tiles) && Unbroken(l, m.tiles)
            && (MakesWords(d, b, m) && LoneIsWord(d, b, m) <==>
                InDict(d, RunWord(Overlay(l, m.tiles), m.tiles[0].col))
                && forall k :: 0 <= k < |m.tiles| ==> CrossOk(d, b, m.horizontal, m.tiles[k].col, m.common, m.tiles[k].tile))
  {
    hide InDict, RunWord, Overlay, BoardAfter, CrossOk, RunIsWord, WholeRun;
    OneRunIff(b, m);
    var l := RowOf(b, m.horizontal, m.common);
    MainWordIff(d, b, m);
    forall k | 0 <= k < |m.tiles|
      ensures CrossOk(d, b, m.horizontal, m.tiles[k].col, m.common, m.tiles[k].tile) <==> WordsThrough(d, b, m, k, false)
    {
      CrossIff(d, b, m, k);
    }
    AllThrough(d, b, m);
  }

  /** The runs through one new tile, one way, spell words. */
  ghost predicate WordsThrough(d: Dict, b: Board, m: MoveInfo, k: nat, along: bool)
    requires Fits(b, m) && k < |m.tiles|
  {
    var l := LineThrough(BoardAfter(b, m), m, k, along);
    forall s: nat, e: nat :: s <= PlaceIn(m, k, along) < e && s + 2 <= e ==> RunIsWord(d, l, s, e)
  }

  lemma AllThrough(d: Dict, b: Board, m: MoveInfo)
    requires Fits(b, m)
    ensures MakesWords(d, b, m) <==> forall k, along :: 0 <= k < |m.tiles| ==> WordsThrough(d, b, m, k, along)
  {
    hide RunIsWord, BoardAfter;
    if forall k, along :: 0 <= k < |m.tiles| ==> WordsThrough(d, b, m, k, along) {
      forall k, along, s: nat, e: nat | 0 <= k < |m.tiles| && s <= PlaceIn(m, k, along) < e && s + 2 <= e
        ensures RunIsWord(d, LineThrough(BoardAfter(b, m), m, k, along), s, e)
      {
        assert WordsThrough(d, b, m, k, along);
      }
    }
  }

  lemma CrossIff(d: Dict, b: Board, m: MoveInfo, k: nat)
    requires Fits(b, m) && OnEmpties(RowOf(b, m.horizontal, m.common), m.tiles) && k < |m.tiles|
    ensures CrossOk(d, b, m.horizontal, m.tiles[k].col, m.common, m.tiles[k].tile) <==> WordsThrough(d, b, m, k, false)
  {
    hide InDict, RunIsWord, BoardAfter, LeftEdge, RightEdge, RunWord;
    LinesAfter(b, m, k);
    OneRunOnly(d, LineThrough(BoardAfter(b, m), m, k, false), m.common);
  }

  /** The square is in one run only, and that is the one the word is read from. */
  lemma OneRunOnly(d: Dict, l: Line, c: nat)
    requires c < |l| && l[c].Filled?
    ensures |RunWord(l, c)| >= 1
    ensures (|RunWord(l, c)| == 1 || InDict(d, RunWord(l, c))) <==>
            forall s: nat, e: nat :: s <= c < e && s + 2 <= e ==> RunIsWord(d, l, s, e)
    ensures |RunWord(l, c)| == 1 <==> WholeRun(l, c, c + 1)
    ensures |RunWord(l, c)| == 1 ==> RunWord(l, c) == [l[c].tile]
  {
    hide InDict;
    RunAround(l, c);
    var s0, e0 := LeftEdge(l, c), RightEdge(l, c);
    forall s: nat, e: nat | WholeRun(l, s, e) && s <= c < e
      ensures s == s0 && e == e0 && Letters(l, s, e) == RunWord(l, c)
    {
      LeftEdgeIs(l, c, s);
      RightEdgeIs(l, c, e);
    }
    assert RunIsWord(d, l, s0, e0) <==> InDict(d, RunWord(l, c));
  }

  lemma MainWordIff(d: Dict, b: Board, m: MoveInfo)
    requires Fits(b, m) && m.tiles != []
    requires OnEmpties(RowOf(b, m.horizontal, m.common), m.tiles) && Unbroken(RowOf(b, m.horizontal, m.common), m.tiles)
    ensures InDict(d, RunWord(Overlay(RowOf(b, m.horizontal, m.common), m.tiles), m.tiles[0].col)) <==>
            LoneIsWord(d, b, m) && forall k :: 0 <= k < |m.tiles| ==> WordsThrough(d, b, m, k, true)
  {
    hide InDict, RunIsWord, WholeRun, BoardAfter, Overlay, RunWord, WordsThrough, LoneHere, Unbroken;
    var main := RunWord(Overlay(RowOf(b, m.horizontal, m.common), m.tiles), m.tiles[0].col);
    forall k | 0 <= k < |m.tiles|
      ensures WordsThrough(d, b, m, k, true) <==> |main| == 1 || InDict(d, main)
      ensures LoneHere(d, b, m, k) <==> (|main| == 1 ==> InDict(d, main))
    {
      MainThrough(d, b, m, k);
    }
    assert LoneIsWord(d, b, m) ==> LoneHere(d, b, m, 0);
    MainThrough(d, b, m, 0);
  }

  /** Through every new tile runs the same word. */
  lemma MainThrough(d: Dict, b: Board, m: MoveInfo, k: nat)
    requires Fits(b, m) && m.tiles != [] && k < |m.tiles|
    requires OnEmpties(RowOf(b, m.horizontal, m.common), m.tiles) && Unbroken(RowOf(b, m.horizontal, m.common), m.tiles)
    ensures var main := RunWord(Overlay(RowOf(b, m.horizontal, m.common), m.tiles), m.tiles[0].col);
            && (WordsThrough(d, b, m, k, true) <==> |main| == 1 || InDict(d, main))
            && (LoneHere(d, b, m, k) <==> (|main| == 1 ==> InDict(d, main)))
  {
    hide InDict, WholeRun, RunIsWord, BoardAfter, LeftEdge, RightEdge, Overlay, RunWord;
    var now := Overlay(RowOf(b, m.horizontal, m.common), m.tiles);
    Geometry.OverlayAt(RowOf(b, m.horizontal, m.common), m.tiles);
    LineAlong(b, m);
    SameRun(now, m.tiles[0].col, m.tiles[k].col);
    OneRunOnly(d, now, m.tiles[k].col);
    assert LineThrough(BoardAfter(b, m), m, k, true) == now && now[m.tiles[k].col].tile == m.tiles[k].tile;
  }

  lemma SameRun(l: Line, c: nat, x: nat)
    requires c <= x < |l| && forall k :: c <= k <= x ==> l[k].Filled?
    ensures RunWord(l, x) == RunWord(l, c)
  {
    RunAround(l, c);
    LeftEdgeIs(l, x, LeftEdge(l, c));
    RunReaches(l, c, x);
    RightEdgeIs(l, x, RightEdge(l, c));
  }

  /** Where the other clauses hold, a placement is legal if and only if it touches an earlier tile, once the
      centre is covered; on a bare board, if and only if it covers the centre. */
  lemma AnchoredIff(b: Board, m: MoveInfo)
    requires Fits(b, m) && StarFirst(b) && OnEmpties(RowOf(b, m.horizontal, m.common), m.tiles)
    ensures (exists k :: 0 <= k < |m.tiles| && IsAnchor(b, m.horizontal, m.tiles[k].col, m.common)) <==>
            if FirstMove(b) then CoversCentre(b, m) else Legality.Touches(b, AsMove(m))
  {
    var mv := AsMove(m);
    var l := RowOf(b, m.horizontal, m.common);
    forall k | 0 <= k < |m.tiles|
      ensures !FirstMove(b) ==> (IsAnchor(b, m.horizontal, m.tiles[k].col, m.common) <==> Legality.HasContact(b, mv, m.tiles[k].col))
      ensures FirstMove(b) ==> (IsAnchor(b, m.horizontal, m.tiles[k].col, m.common) <==> m.common == m.tiles[k].col == |b| / 2)
    {
      assert l[m.tiles[k].col] == Cell(b, m.horizontal, m.tiles[k].col, m.common);
      if !FirstMove(b) {
        ContactIff(b, m, k);
      }
    }
    if !FirstMove(b) {
      forall k | 0 <= k < |m.tiles|
        ensures mv.tiles[k].varCoord == m.tiles[k].col
      {
      }
    }
  }

  lemma ContactIff(b: Board, m: MoveInfo, k: nat)
    requires Fits(b, m) && !FirstMove(b) && OnEmpties(RowOf(b, m.horizontal, m.common), m.tiles) && k < |m.tiles|
    ensures IsAnchor(b, m.horizontal, m.tiles[k].col, m.common) <==> Legality.HasContact(b, AsMove(m), m.tiles[k].col)
  {
    var mv, h := AsMove(m), m.horizontal;
    var l := RowOf(b, h, m.common);
    var c, r := m.tiles[k].col, m.common;
    assert l[c] == Cell(b, h, c, r);
    forall x: nat, y: nat | x < |b| && y < |b| && Score.OwnSquare(mv, x, y)
      ensures Cell(b, h, x, y).Empty?
    {
      var j :| 0 <= j < |mv.tiles| && mv.tiles[j].varCoord == x;
      assert l[m.tiles[j].col] == Cell(b, h, x, y);
    }
  }

  lemma BareIff(b: Board)
    requires StarFirst(b) && 0 < |b|
    ensures BareBoard(b) <==> FirstMove(b)
  {
  }

  /** What the search calls legal is what the rules allow. */
  lemma RulesIff(d: Dict, b: Board, rack: Rack, blank: nat, n: nat, m: MoveInfo)
    requires blank < |rack| && StarFirst(b)
    ensures LegalMove(d, b, rack, blank, n, m) <==> ByRules(d, b, rack, blank, n, m)
  {
    hide InDict, RunWord, Overlay, BoardAfter, CrossOk, CanSupply, InOneRun, MakesWords, LoneIsWord, StarFirst, FirstMove, BareBoard,
      CoversCentre, IsAnchor, Legality.Touches;
    if m.common < |b| {
      BareIff(b);
      var l := RowOf(b, m.horizontal, m.common);
      if Fits(b, m) {
        OneRunIff(b, m);
        if InOneRun(b, m) {
          WordsIff(d, b, m);
          AnchoredIff(b, m);
        }
      }
    }
  }

  /** What the scorer's own check makes of such a move: it accepts it, unless it opens the game with one tile. */
  lemma ScorerAccepts(d: Dict, b: Board, rack: Rack, blank: nat, n: nat, m: MoveInfo)
    requires blank < |rack| && StarFirst(b) && ByRules(d, b, rack, blank, n, m)
    ensures var mv := AsMove(m);
            Score.OnBoard(|b|, mv) && (Legality.IsLegal(b, mv) <==> !BareBoard(b) || 1 < |m.tiles|)
  {
    hide MakesWords, LoneIsWord, CanSupply, BoardAfter, StarFirst;
    var mv := AsMove(m);
    NoGapLeft(b, m);
    if BareBoard(b) {
      Legality.BareTouchesNothing(b, mv);
      var k :| 0 <= k < |m.tiles| && m.tiles[k].col == |b| / 2;
      assert mv.tiles[k].varCoord == |b| / 2;
    }
  }

  lemma NoGapLeft(b: Board, m: MoveInfo)
    requires Fits(b, m) && InOneRun(b, m)
    ensures Score.OnBoard(|b|, AsMove(m)) && Score.NoGaps(RowOf(b, m.horizontal, m.common), AsMove(m).tiles)
  {
    hide Score.Lay;
    var l, ts := RowOf(b, m.horizontal, m.common), AsMove(m).tiles;
    forall c | ts[0].varCoord <= c <= ts[|ts| - 1].varCoord
      ensures Score.Lay(l, ts)[c].Filled?
    {
      Score.LayAt(l, ts, c);
      assert Cell(BoardAfter(b, m), m.horizontal, c, m.common).Filled?;
      var k := NewAt(m.tiles, c);
      assert k < |m.tiles| ==> ts[k].varCoord == c;
      assert l[c] == Cell(b, m.horizontal, c, m.common);
    }
  }
}
