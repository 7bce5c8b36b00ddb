/** Cross-checks: what the bits and the cached score computed for a square stand for. */
module CrossChecks {
  import opened Dawg
  import opened Grid
  import opened Legal

  /** A tile's points; a blank counts as the blank whatever it stands for. */
  function SquareValue(values: seq<nat>, blank: nat, s: Square): nat
    requires s.Filled? && blank < |values|
  {
    if s.blank then values[blank] else if s.tile < |values| then values[s.tile] else 0
  }

  function Points(values: seq<nat>, blank: nat, l: Line, s: nat, e: nat): nat
    requires s <= e <= |l| && blank < |values|
    requires forall k :: s <= k < e ==> l[k].Filled?
    decreases e - s
  {
    if s == e then 0 else SquareValue(values, blank, l[s]) + Points(values, blank, l, s + 1, e)
  }

  lemma {:induction false} PointsConcat(values: seq<nat>, blank: nat, l: Line, s: nat, m: nat, e: nat)
    requires s <= m <= e <= |l| && blank < |values|
    requires forall k :: s <= k < e ==> l[k].Filled?
    ensures Points(values, blank, l, s, e) == Points(values, blank, l, s, m) + Points(values, blank, l, m, e)
    decreases m - s
  {
    if s < m {
      PointsConcat(values, blank, l, s + 1, m, e);
    }
  }

  /** What the tiles adjoining square `row` of a column line are worth, without the square itself. */
  function NeighbourPoints(values: seq<nat>, blank: nat, l: Line, row: nat): nat
    requires row < |l| && blank < |values|
  {
    Points(values, blank, l, LeftEdge(l, row), row) + Points(values, blank, l, row + 1, RightEdge(l, row + 1))
  }

  lemma CrossEdges(l: Line, row: nat, t: Tile)
    requires row < |l|
    ensures LeftEdge(l[row := Filled(t, false)], row) == LeftEdge(l, row)
    ensures RightEdge(l[row := Filled(t, false)], row) == RightEdge(l, row + 1)
  {
    LeftEdgeIs(l[row := Filled(t, false)], row, LeftEdge(l, row));
    RightEdgeIs(l[row := Filled(t, false)], row, RightEdge(l, row + 1));
  }

  /** The word a new tile makes across the row: the tiles before it, itself, the tiles after. */
  lemma CrossWord(l: Line, row: nat, t: Tile)
    requires row < |l|
    ensures RunWord(l[row := Filled(t, false)], row) ==
            Letters(l, LeftEdge(l, row), row) + [t] + Letters(l, row + 1, RightEdge(l, row + 1))
  {
    hide LeftEdge, RightEdge;
    CrossEdges(l, row, t);
    SplitAt(l, l[row := Filled(t, false)], LeftEdge(l, row), row, RightEdge(l, row + 1), t);
  }

  lemma SplitAt(l: Line, m: Line, s: nat, row: nat, e: nat, t: Tile)
    requires s <= row < e <= |l| && m == l[row := Filled(t, false)]
    requires forall k :: s <= k < e ==> m[k].Filled?
    ensures forall k :: s <= k < row || row < k < e ==> l[k].Filled?
    ensures Letters(m, s, e) == Letters(l, s, row) + [t] + Letters(l, row + 1, e)
  {
    assert forall k :: s <= k < row || row < k < e ==> l[k] == m[k];
  }

  /** Walking the tiles before the square once leaves only the rest to be looked up per tile. */
  lemma CrossOkByWalk(d: Dict, b: Board, horizontal: bool, col: nat, row: nat, t: Tile)
    requires col < |b| && row < |b|
    ensures var l := ColumnOf(b, horizontal, col);
            var s, e := LeftEdge(l, row), RightEdge(l, row + 1);
            CrossOk(d, b, horizontal, col, row, t) <==>
              || (s == row && e == row + 1)
              || Accepts(d, Walk(d, d.top, Letters(l, s, row)), [t] + Letters(l, row + 1, e))
  {
    hide LeftEdge, RightEdge, Walk, Accepts, Letters, ColumnOf;
    var l := ColumnOf(b, horizontal, col);
    var s, e := LeftEdge(l, row), RightEdge(l, row + 1);
    var before, after := Letters(l, s, row), Letters(l, row + 1, e);
    CrossWord(l, row, t);
    assert before + [t] + after == before + ([t] + after);
    AcceptsAfterWalk(d, d.top, before, [t] + after);
  }

  lemma {:induction false} WalkMore(d: Dict, p: Ptr, u: Word, t: Tile)
    requires NodePtr(d, p)
    ensures var q := Walk(d, p, u);
            Walk(d, p, u + [t]) == var e := EdgeFor(d, q, t); if e.Null? then Null else Follow(d, e.i)
    decreases |u|
  {
    if u == [] {
      assert u + [t] == [t] && [t][1..] == [];
    } else {
      assert (u + [t])[0] == u[0] && (u + [t])[1..] == u[1..] + [t];
      var e := EdgeFor(d, p, u[0]);
      if e.At? {
        WalkMore(d, Follow(d, e.i), u[1..], t);
      }
    }
  }

  lemma {:induction false} WalkConcat(d: Dict, p: Ptr, u: Word, v: Word)
    requires NodePtr(d, p) && Walk(d, p, u) == Null
    ensures Walk(d, p, u + v) == Null
    decreases |u| + |v|
  {
    if u == [] {
      assert u + v == v;
      if v != [] {
        WalkConcat(d, p, u, v[1..]);
        assert u + v[1..] == v[1..];
      }
    } else {
      assert (u + v)[0] == u[0] && (u + v)[1..] == u[1..] + v;
      var e := EdgeFor(d, p, u[0]);
      if e.At? {
        WalkConcat(d, Follow(d, e.i), u[1..], v);
      }
    }
  }
}
