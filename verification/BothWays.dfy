/** The two passes of a search over one board. A single new tile can make a word each way and is
    then found by both passes; the pass over the columns gives it up. */
module BothWays {
  import opened Dawg
  import opened Grid
  import opened Legal

  /** Where a placement puts its tiles on the board itself, by column and row. */
  function Put(horizontal: bool, row: nat, p: Placement): set<(nat, nat, Tile)> {
    set k | 0 <= k < |p| :: if horizontal then (p[k].col, row, p[k].tile) else (row, p[k].col, p[k].tile)
  }

  /** The word along the row the search goes through. */
  function MainWord(b: Board, horizontal: bool, row: nat, p: Placed): Word
    requires row < |b| && p.col < |b|
  {
    RunWord(RowOf(b, horizontal, row)[p.col := Filled(p.tile, false)], p.col)
  }

  /** The word across it. */
  function CrossWord(b: Board, horizontal: bool, row: nat, p: Placed): Word
    requires row < |b| && p.col < |b|
  {
    RunWord(ColumnOf(b, horizontal, p.col)[row := Filled(p.tile, false)], row)
  }

  /** What a pass does with a placement it finds: the pass down the columns counts the words of
      more than one letter that a single tile makes and drops the move when there are two. */
  predicate Dropped(b: Board, horizontal: bool, row: nat, p: Placement)
    requires row < |b| && forall k :: 0 <= k < |p| ==> p[k].col < |b|
  {
    && !horizontal && |p| == 1
    && |MainWord(b, horizontal, row, p[0])| > 1 && |CrossWord(b, horizontal, row, p[0])| > 1
  }

  ghost predicate HandedOn(d: Dict, b: Board, horizontal: bool, row: nat,
                           rack: Rack, blank: nat, maxTiles: nat, p: Placement)
    requires row < |b| && blank < |rack|
  {
    IsLegal(d, b, horizontal, row, rack, blank, maxTiles, p) && !Dropped(b, horizontal, row, p)
  }

  /** The word along a row is the word across the column. */
  lemma WordsSwap(b: Board, r: nat, c: nat, t: Tile)
    requires r < |b| && c < |b|
    ensures MainWord(b, true, r, Placed(c, t)) == CrossWord(b, false, c, Placed(r, t))
    ensures CrossWord(b, true, r, Placed(c, t)) == MainWord(b, false, c, Placed(r, t))
  {
    assert RowOf(b, true, r) == ColumnOf(b, false, r);
    assert ColumnOf(b, true, c) == RowOf(b, false, c);
  }

  /** What legality comes to for a single tile. */
  lemma OneTileLegal(d: Dict, b: Board, horizontal: bool, row: nat, rack: Rack, blank: nat, maxTiles: nat, p: Placed)
    requires row < |b| && blank < |rack| && p.col < |b|
    ensures IsLegal(d, b, horizontal, row, rack, blank, maxTiles, [p]) <==>
      && Cell(b, horizontal, p.col, row).Empty? && IsAnchor(b, horizontal, p.col, row)
      && InDict(d, MainWord(b, horizontal, row, p))
      && (|CrossWord(b, horizontal, row, p)| == 1 || InDict(d, CrossWord(b, horizontal, row, p)))
      && 1 <= maxTiles && CanSupply(rack, blank, [p.tile])
  {
    hide InDict, CanSupply, RunWord, IsAnchor;
    var l := RowOf(b, horizontal, row);
    assert [p][..0] == [];
    assert Overlay(l, [p]) == l[p.col := Filled(p.tile, false)];
    assert TilesOf([p]) == [p.tile];
    if l[p.col].Empty? {
      assert OnEmpties(l, [p]) && Unbroken(l, [p]);
      if IsLegal(d, b, horizontal, row, rack, blank, maxTiles, [p]) {
        assert CrossOk(d, b, horizontal, [p][0].col, row, [p][0].tile);
      } else if IsAnchor(b, horizontal, p.col, row) {
        assert IsAnchor(b, horizontal, [p][0].col, row);
      }
    } else {
      assert !l[[p][0].col].Empty?;
    }
  }

  /** A word of one letter is the new tile. */
  lemma LoneLetter(l: Line, c: nat, t: Tile)
    requires c < |l| && l[c] == Filled(t, false)
    ensures |RunWord(l, c)| >= 1
    ensures |RunWord(l, c)| == 1 ==> RunWord(l, c) == [t]
  {
    assert RightEdge(l, c) >= c + 1;
    if |RunWord(l, c)| == 1 {
      assert LeftEdge(l, c) == c;
    }
  }

  lemma SquareIs(horizontal: bool, row: nat, p: Placement, s: (nat, nat, Tile))
    requires |p| == 1
    ensures s in Put(horizontal, row, p) <==>
      s == (if horizontal then (p[0].col, row, p[0].tile) else (row, p[0].col, p[0].tile))
  {
  }

  /** Nothing is lost by the drop: what it gives up is handed on by the pass over the rows. */
  lemma DroppedIsAcross(d: Dict, b: Board, c: nat, rack: Rack, blank: nat, maxTiles: nat, q: Placement)
    requires c < |b| && blank < |rack|
    requires IsLegal(d, b, false, c, rack, blank, maxTiles, q) && Dropped(b, false, c, q)
    ensures var p := [Placed(c, q[0].tile)];
      q[0].col < |b| && HandedOn(d, b, true, q[0].col, rack, blank, maxTiles, p)
      && Put(true, q[0].col, p) == Put(false, c, q)
  {
    hide InDict, CanSupply, RunWord, IsAnchor;
    var r, t := q[0].col, q[0].tile;
    assert q == [q[0]];
    OneTileLegal(d, b, false, c, rack, blank, maxTiles, q[0]);
    WordsSwap(b, r, c, t);
    AnchorSwaps(b, r, c);
    OneTileLegal(d, b, true, r, rack, blank, maxTiles, Placed(c, t));
    forall s ensures s in Put(true, r, [Placed(c, t)]) <==> s in Put(false, c, q) {
      SquareIs(true, r, [Placed(c, t)], s);
      SquareIs(false, c, q, s);
    }
  }

  lemma AnchorSwaps(b: Board, r: nat, c: nat)
    requires r < |b| && c < |b|
    ensures IsAnchor(b, true, c, r) == IsAnchor(b, false, r, c)
  {
  }

  /** More than one tile lies along one line only. */
  lemma TwoTilesOneWay(l: Line, m: Line, r: nat, c: nat, p: Placement, q: Placement)
    requires OnEmpties(l, p) && OnEmpties(m, q) && p != [] && q != []
    requires Put(true, r, p) == Put(false, c, q)
    ensures |p| == |q| == 1 && p[0].col == c && q[0].col == r && p[0].tile == q[0].tile
  {
    assert |p| > 1 ==> p[0].col < p[1].col;
    assert |q| > 1 ==> q[0].col < q[1].col;
    forall k | 0 <= k < |p| ensures p[k].col == c {
      assert (p[k].col, r, p[k].tile) in Put(false, c, q);
    }
    forall k | 0 <= k < |q| ensures q[k].col == r {
      assert (c, q[k].col, q[k].tile) in Put(true, r, p);
    }
    SquareIs(true, r, p, (p[0].col, r, p[0].tile));
    SquareIs(false, c, q, (p[0].col, r, p[0].tile));
  }

  /** A move both passes hand on is a single tile that is a word by itself. */
  lemma TwiceIsAWord(d: Dict, b: Board, r: nat, c: nat, rack: Rack, blank: nat, maxTiles: nat,
                     p: Placement, q: Placement)
    requires r < |b| && c < |b| && blank < |rack|
    requires HandedOn(d, b, true, r, rack, blank, maxTiles, p)
    requires HandedOn(d, b, false, c, rack, blank, maxTiles, q)
    requires Put(true, r, p) == Put(false, c, q)
    ensures |p| == 1 && InDict(d, [p[0].tile])
  {
    hide InDict, CanSupply, RunWord, IsAnchor;
    TwoTilesOneWay(RowOf(b, true, r), RowOf(b, false, c), r, c, p, q);
    assert p == [p[0]] && q == [q[0]];
    var t := p[0].tile;
    OneTileLegal(d, b, true, r, rack, blank, maxTiles, p[0]);
    OneTileLegal(d, b, false, c, rack, blank, maxTiles, q[0]);
    LoneLetter(RowOf(b, false, c)[r := Filled(t, false)], r, t);
    LoneLetter(ColumnOf(b, false, r)[c := Filled(t, false)], c, t);
    WordsSwap(b, r, c, t);
  }

  /** A pass over the rows, or over the columns, hands on a move that lays these squares. */
  ghost predicate FoundBy(d: Dict, b: Board, horizontal: bool, rack: Rack, blank: nat, maxTiles: nat,
                          squares: set<(nat, nat, Tile)>)
    requires blank < |rack|
  {
    exists row: nat, p :: row < |b| && HandedOn(d, b, horizontal, row, rack, blank, maxTiles, p)
      && Put(horizontal, row, p) == squares
  }

  /** Every legal move is handed on by one of the passes, and by both only when it is a single tile
      that is a word by itself. */
  lemma OncePerMove(d: Dict, b: Board, rack: Rack, blank: nat, maxTiles: nat, horizontal: bool, row: nat, p: Placement)
    requires row < |b| && blank < |rack|
    requires IsLegal(d, b, horizontal, row, rack, blank, maxTiles, p)
    ensures var squares := Put(horizontal, row, p);
      && (FoundBy(d, b, true, rack, blank, maxTiles, squares) || FoundBy(d, b, false, rack, blank, maxTiles, squares))
      && (FoundBy(d, b, true, rack, blank, maxTiles, squares) && FoundBy(d, b, false, rack, blank, maxTiles, squares)
          ==> |p| == 1 && InDict(d, [p[0].tile]))
  {
    hide InDict, CanSupply, RunWord, IsAnchor;
    var squares := Put(horizontal, row, p);
    if Dropped(b, horizontal, row, p) {
      DroppedIsAcross(d, b, row, rack, blank, maxTiles, p);
      assert FoundBy(d, b, true, rack, blank, maxTiles, squares);
    } else {
      assert HandedOn(d, b, horizontal, row, rack, blank, maxTiles, p);
      assert FoundBy(d, b, horizontal, rack, blank, maxTiles, squares);
    }
    if FoundBy(d, b, true, rack, blank, maxTiles, squares) && FoundBy(d, b, false, rack, blank, maxTiles, squares) {
      var r: nat, m :| r < |b| && HandedOn(d, b, true, r, rack, blank, maxTiles, m) && Put(true, r, m) == squares;
      var c: nat, q :| c < |b| && HandedOn(d, b, false, c, rack, blank, maxTiles, q) && Put(false, c, q) == squares;
      TwiceIsAWord(d, b, r, c, rack, blank, maxTiles, m, q);
      TwoTilesOneWay(RowOf(b, true, r), RowOf(b, false, c), r, c, m, q);
      SameSquares(b, horizontal, row, p, r, c, m, q);
    }
  }

  lemma SameSquares(b: Board, horizontal: bool, row: nat, p: Placement, r: nat, c: nat, m: Placement, q: Placement)
    requires |m| == |q| == 1 && m[0] == Placed(c, q[0].tile) && q[0].col == r
    requires Put(true, r, m) == Put(horizontal, row, p) == Put(false, c, q)
    requires p != [] && forall j, k :: 0 <= j < k < |p| ==> p[j].col < p[k].col
    ensures |p| == 1 && p[0].tile == m[0].tile
  {
    assert |p| > 1 ==> p[0].col < p[1].col;
    var t := m[0].tile;
    forall k | 0 <= k < |p|
      ensures p[k].tile == t && p[k].col == if horizontal then c else r
    {
      var s := if horizontal then (p[k].col, row, p[k].tile) else (row, p[k].col, p[k].tile);
      assert s in Put(horizontal, row, p);
      SquareIs(true, r, m, s);
    }
  }

  /** So where no single letter is a word, every legal move is handed on by exactly one pass. */
  lemma ExactlyOnePass(d: Dict, b: Board, rack: Rack, blank: nat, maxTiles: nat, horizontal: bool, row: nat, p: Placement)
    requires row < |b| && blank < |rack|
    requires IsLegal(d, b, horizontal, row, rack, blank, maxTiles, p)
    requires forall t: Tile :: !InDict(d, [t])
    ensures var squares := Put(horizontal, row, p);
      FoundBy(d, b, true, rack, blank, maxTiles, squares) != FoundBy(d, b, false, rack, blank, maxTiles, squares)
  {
    hide IsLegal, FoundBy, Put;
    OncePerMove(d, b, rack, blank, maxTiles, horizontal, row, p);
  }
}
