/** What a legal placement in one row is, said without reference to any search. */
module Legal {
  import opened Dawg
  import opened Grid

  /** One newly placed tile of a row. */
  datatype Placed = Placed(col: nat, tile: Tile)

  type Placement = seq<Placed>

  /** How many of each tile the player holds; the blank has an index like any other tile. */
  type Rack = r: seq<nat> | |r| == MAX_UNIQUE_TILES + 1 witness seq(MAX_UNIQUE_TILES + 1, _ => 0)

  function TilesOf(p: Placement): (ts: seq<Tile>)
    ensures |ts| == |p|
  {
    seq(|p|, k requires 0 <= k < |p| => p[k].tile)
  }

  /** The row with the new tiles on it. */
  function Overlay(l: Line, p: Placement): (m: Line)
    requires forall k :: 0 <= k < |p| ==> p[k].col < |l|
    ensures |m| == |l|
    decreases |p|
  {
    if p == [] then l
    else Overlay(l, p[..|p| - 1])[p[|p| - 1].col := Filled(p[|p| - 1].tile, false)]
  }

  /** New tiles go on distinct empty squares, listed from left to right. */
  predicate OnEmpties(l: Line, p: Placement) {
    && (forall k :: 0 <= k < |p| ==> p[k].col < |l| && l[p[k].col].Empty?)
    && (forall j, k :: 0 <= j < k < |p| ==> p[j].col < p[k].col)
  }

  /** No gap between the first and the last new tile. */
  predicate Unbroken(l: Line, p: Placement)
    requires p != [] && OnEmpties(l, p)
  {
    forall c :: p[0].col <= c <= p[|p| - 1].col ==> Overlay(l, p)[c].Filled?
  }

  /** The word across the row at (col, row), with tile `t` there, is in the dictionary, or there is
      no such word because the square has no neighbour on that side. */
  predicate CrossOk(d: Dict, b: Board, horizontal: bool, col: nat, row: nat, t: Tile)
    requires col < |b| && row < |b|
  {
    var l := ColumnOf(b, horizontal, col)[row := Filled(t, false)];
    |RunWord(l, row)| == 1 || InDict(d, RunWord(l, row))
  }

  /** The tiles wanted can be split into some the player has and some for which he has blanks. */
  ghost predicate CanSupply(rack: Rack, blank: nat, ts: seq<Tile>)
    requires blank < |rack|
  {
    exists own: multiset<Tile>, subs: multiset<Tile> :: Splits(rack, blank, ts, own, subs)
  }

  ghost predicate Splits(rack: Rack, blank: nat, ts: seq<Tile>, own: multiset<Tile>, subs: multiset<Tile>)
    requires blank < |rack|
  {
    && multiset(ts) == own + subs
    && (forall t :: t in own ==> t < |rack| && own[t] <= rack[t])
    && |subs| <= rack[blank]
  }

  /** A square new tiles must touch: on an empty board the star, otherwise an empty square next
      to a filled one. */
  predicate IsAnchor(b: Board, horizontal: bool, col: nat, row: nat)
    requires col < |b| && row < |b|
  {
    && Cell(b, horizontal, col, row).Empty?
    && if FirstMove(b) then col == row == |b| / 2
       else
         || (0 < col && Cell(b, horizontal, col - 1, row).Filled?)
         || (col + 1 < |b| && Cell(b, horizontal, col + 1, row).Filled?)
         || (0 < row && Cell(b, horizontal, col, row - 1).Filled?)
         || (row + 1 < |b| && Cell(b, horizontal, col, row + 1).Filled?)
  }

  predicate FirstMove(b: Board) {
    |b| > 0 && b[|b| / 2][|b| / 2].Empty?
  }

  /** Every game starts on the star, so the star is bare only on an empty board. */
  predicate StarFirst(b: Board) {
    FirstMove(b) ==> forall r, c :: 0 <= r < |b| && 0 <= c < |b| ==> b[r][c].Empty?
  }

  /** A placement the rules allow in this row, within the player's rack. */
  ghost predicate IsLegal(d: Dict, b: Board, horizontal: bool, row: nat,
                          rack: Rack, blank: nat, maxTiles: nat, p: Placement)
    requires row < |b| && blank < |rack|
  {
    var l := RowOf(b, horizontal, row);
    && p != [] && OnEmpties(l, p) && Unbroken(l, p)
    && (exists k :: 0 <= k < |p| && IsAnchor(b, horizontal, p[k].col, row))
    && InDict(d, RunWord(Overlay(l, p), p[0].col))
    && (forall k :: 0 <= k < |p| ==> CrossOk(d, b, horizontal, p[k].col, row, p[k].tile))
    && |p| <= maxTiles && CanSupply(rack, blank, TilesOf(p))
  }
}
