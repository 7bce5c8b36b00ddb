/** The board as the move generator and the scorer see it (`model_getTile`), and lines of squares
    cut out of it. */
module Grid {
  import opened Dawg

  /** As the Linux and Android builds define it. */
  const MAX_ROWS: nat := 32

  const MAX_TRAY_TILES: nat := 7

  /** A filled square shows a letter; a blank shows the letter it stands for. */
  datatype Square = Empty | Filled(tile: Tile, blank: bool)

  type Line = seq<Square>

  /** A square board, by row and then column. */
  type Board = b: seq<Line> | forall r :: 0 <= r < |b| ==> |b[r]| == |b| witness []

  predicate BareBoard(b: Board) {
    forall r, c :: 0 <= r < |b| && 0 <= c < |b| ==> b[r][c].Empty?
  }

  /** What is at (col, row) when the board is searched along rows, or along columns with the
      two coordinates exchanged. */
  function Cell(b: Board, horizontal: bool, col: nat, row: nat): Square
    requires col < |b| && row < |b|
  {
    if horizontal then b[row][col] else b[col][row]
  }

  function RowOf(b: Board, horizontal: bool, row: nat): (l: Line)
    requires row < |b|
    ensures |l| == |b|
    ensures forall c :: 0 <= c < |b| ==> l[c] == Cell(b, horizontal, c, row)
  {
    seq(|b|, c requires 0 <= c < |b| => Cell(b, horizontal, c, row))
  }

  function ColumnOf(b: Board, horizontal: bool, col: nat): (l: Line)
    requires col < |b|
    ensures |l| == |b|
    ensures forall r :: 0 <= r < |b| ==> l[r] == Cell(b, horizontal, col, r)
  {
    seq(|b|, r requires 0 <= r < |b| => Cell(b, horizontal, col, r))
  }

  /** Where the run of filled squares that ends just before `c` begins. */
  function LeftEdge(l: Line, c: nat): (s: nat)
    requires c <= |l|
    ensures s <= c
    ensures forall k :: s <= k < c ==> l[k].Filled?
    ensures s == 0 || l[s - 1].Empty?
  {
    if c == 0 || l[c - 1].Empty? then c else LeftEdge(l, c - 1)
  }

  /** Where the run of filled squares that begins at `c` ends. */
  function RightEdge(l: Line, c: nat): (e: nat)
    requires c <= |l|
    ensures c <= e <= |l|
    ensures forall k :: c <= k < e ==> l[k].Filled?
    ensures e == |l| || l[e].Empty?
    decreases |l| - c
  {
    if c == |l| || l[c].Empty? then c else RightEdge(l, c + 1)
  }

  function Letters(l: Line, s: nat, e: nat): (w: Word)
    requires s <= e <= |l|
    requires forall k :: s <= k < e ==> l[k].Filled?
    ensures |w| == e - s
  {
    seq(e - s, k requires 0 <= k < e - s => l[s + k].tile)
  }

  /** The word made by the whole run of filled squares around `c`. */
  function RunWord(l: Line, c: nat): Word
    requires c <= |l|
  {
    Letters(l, LeftEdge(l, c), RightEdge(l, c))
  }

  lemma LeftEdgeIs(l: Line, c: nat, s: nat)
    requires s <= c <= |l|
    requires forall k :: s <= k < c ==> l[k].Filled?
    requires s == 0 || l[s - 1].Empty?
    ensures LeftEdge(l, c) == s
  {
    if s < c {
      LeftEdgeIs(l, c - 1, s);
    }
  }

  lemma RightEdgeIs(l: Line, c: nat, e: nat)
    requires c <= e <= |l|
    requires forall k :: c <= k < e ==> l[k].Filled?
    requires e == |l| || l[e].Empty?
    ensures RightEdge(l, c) == e
    decreases e - c
  {
    if c < e {
      RightEdgeIs(l, c + 1, e);
    }
  }

  lemma LettersConcat(l: Line, s: nat, m: nat, e: nat)
    requires s <= m <= e <= |l|
    requires forall k :: s <= k < e ==> l[k].Filled?
    ensures Letters(l, s, e) == Letters(l, s, m) + Letters(l, m, e)
  {
  }
}
