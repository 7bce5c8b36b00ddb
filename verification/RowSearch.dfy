/** From the anchors of one row to all its legal placements. */
module RowSearch {
  import opened Dawg
  import opened Grid
  import opened Legal
  import opened MoveSearch
  import opened MoveGeometry
  import opened AnchorSearch
  import opened SearchSpec

  /** The anchors of a row, by column. */
  ghost function Anchors(b: Board, horizontal: bool, row: nat): (a: seq<bool>)
    requires row < |b|
    ensures |a| == |b| && forall c :: 0 <= c < |b| ==> a[c] == IsAnchor(b, horizontal, c, row)
  {
    seq(|b|, c requires 0 <= c < |b| => IsAnchor(b, horizontal, c, row))
  }

  /** A row whose cross-checks have been worked out. */
  ghost predicate Checked(d: Dict, b: Board, horizontal: bool, row: nat, r: Row)
    requires row < |b|
  {
    && RowOk(r) && r.d == d && r.line == RowOf(b, horizontal, row)
    && forall c :: 0 <= c < |b| && r.line[c].Empty? ==>
         forall t: nat :: t in r.allowed[c] <==> t < MAX_UNIQUE_TILES && CrossOk(d, b, horizontal, c, row, t)
  }

  /** Where nothing adjoins a square crosswise, every tile fits. */
  lemma NothingAcross(d: Dict, b: Board, horizontal: bool, row: nat, col: nat, t: Tile)
    requires row < |b| && col < |b| && Cell(b, horizontal, col, row).Empty?
    requires row > 0 ==> Cell(b, horizontal, col, row - 1).Empty?
    requires row + 1 < |b| ==> Cell(b, horizontal, col, row + 1).Empty?
    ensures CrossOk(d, b, horizontal, col, row, t)
  {
    var l := ColumnOf(b, horizontal, col)[row := Filled(t, false)];
    LeftEdgeIs(l, row, row);
    RightEdgeIs(l, row, row + 1);
  }

  lemma RowIsSetting(d: Dict, b: Board, horizontal: bool, row: nat, r: Row)
    requires row < |b| && StarFirst(b) && Checked(d, b, horizontal, row, r)
    ensures Setting(r, Anchors(b, horizontal, row))
  {
    var anchors := Anchors(b, horizontal, row);
    forall c | 0 <= c < |b| && r.line[c].Empty?
      ensures NextToFilled(r.line, c) ==> anchors[c]
      ensures !anchors[c] ==> forall t :: 0 <= t < MAX_UNIQUE_TILES ==> t in r.allowed[c]
    {
      if !anchors[c] {
        forall t | 0 <= t < MAX_UNIQUE_TILES
          ensures t in r.allowed[c]
        {
          NothingAcross(d, b, horizontal, row, c, t);
        }
      }
    }
  }

  lemma {:induction false} AcceptedNoBlank(r: Row, p: Ptr, w: Word)
    requires RowOk(r) && NodePtr(r.d, p) && Accepts(r.d, p, w)
    ensures forall k :: 0 <= k < |w| ==> w[k] != r.blank
    decreases |w|
  {
    var e := EdgeFor(r.d, p, w[0]);
    if |w| > 1 {
      AcceptedNoBlank(r, Follow(r.d, e.i), w[1..]);
      assert forall k :: 1 <= k < |w| ==> w[k] == w[1..][k - 1];
    }
  }

  /** The tiles of a placement are letters of its main word. */
  lemma TileInMainWord(l: Line, p: Placement, k: nat)
    requires p != [] && OnEmpties(l, p) && Unbroken(l, p) && k < |p|
    ensures var m := Overlay(l, p);
            var s := LeftEdge(m, p[0].col);
            s <= p[k].col && p[k].col - s < |RunWord(m, p[0].col)| && RunWord(m, p[0].col)[p[k].col - s] == p[k].tile
  {
    hide Overlay, LeftEdge, RightEdge;
    var m := Overlay(l, p);
    OverlayAt(l, p);
    var c := p[k].col;
    assert forall i :: p[0].col <= i <= c ==> m[i].Filled?;
    RunReaches(m, p[0].col, c);
  }

  lemma {:induction false} RunReaches(l: Line, f: nat, c: nat)
    requires f <= c < |l| && forall i :: f <= i <= c ==> l[i].Filled?
    ensures c < RightEdge(l, f)
    decreases c - f
  {
    if f < c {
      RunReaches(l, f + 1, c);
    }
  }

  /** What the row search calls legal is what the rules call legal, anchors apart. */
  lemma RowLegalIsLegal(d: Dict, b: Board, horizontal: bool, row: nat, r: Row, rack: Rack, n: nat, p: Placement)
    requires row < |b| && Checked(d, b, horizontal, row, r) && r.blank < |rack|
    ensures IsLegal(d, b, horizontal, row, rack, r.blank, n, p) <==>
            RowLegal(r, rack, n, p) && exists k :: 0 <= k < |p| && IsAnchor(b, horizontal, p[k].col, row)
  {
    hide Overlay, RunWord, CrossOk, IsAnchor, Supplies, CanSupply;
    var l := r.line;
    if p != [] && OnEmpties(l, p) && Unbroken(l, p) && InDict(d, RunWord(Overlay(l, p), p[0].col)) {
      var w := RunWord(Overlay(l, p), p[0].col);
      AcceptedLettersSmall(d, d.top, w);
      AcceptedNoBlank(r, d.top, w);
      forall k | 0 <= k < |p|
        ensures p[k].tile < MAX_UNIQUE_TILES && p[k].tile != r.blank
        ensures p[k].tile in r.allowed[p[k].col] <==> CrossOk(d, b, horizontal, p[k].col, row, p[k].tile)
      {
        TileInMainWord(l, p, k);
      }
      SuppliesIffCanSupply(rack, r.blank, TilesOf(p));
    }
  }

  /** A placement that covers an anchor covers a leftmost one. */
  lemma {:induction false} LeftmostAnchor(anchors: seq<bool>, p: Placement, k: nat) returns (a: nat)
    requires k < |p| && (forall i :: 0 <= i < |p| ==> p[i].col < |anchors|)
    requires forall i, j :: 0 <= i < j < |p| ==> p[i].col < p[j].col
    requires anchors[p[k].col]
    ensures a <= p[k].col && anchors[a] && FirstAnchor(anchors, a, p)
    decreases k
  {
    if j :| 0 <= j < k && anchors[p[j].col] {
      a := LeftmostAnchor(anchors, p, j);
    } else {
      a := p[k].col;
      assert Covers(p, a);
    }
  }

  /** The leftmost anchor is unique. */
  lemma OneFirstAnchor(anchors: seq<bool>, a: nat, b: nat, p: Placement)
    requires FirstAnchor(anchors, a, p) && FirstAnchor(anchors, b, p)
    requires a < |anchors| && b < |anchors| && anchors[a] && anchors[b]
    ensures a == b
  {
    var i :| 0 <= i < |p| && p[i].col == a;
    var j :| 0 <= j < |p| && p[j].col == b;
  }

  /** The legal placements whose leftmost anchor lies before column `bound`. */
  ghost predicate LegalBefore(r: Row, anchors: seq<bool>, rack: Rack, n: nat, bound: nat, p: Placement)
    requires r.blank < |rack| && |r.allowed| == |r.line|
  {
    RowLegal(r, rack, n, p) && exists a :: 0 <= a < bound && a < |anchors| && anchors[a] && FirstAnchor(anchors, a, p)
  }

  ghost predicate ListsBefore(ps: seq<Placement>, r: Row, anchors: seq<bool>, rack: Rack, n: nat, bound: nat)
    requires r.blank < |rack| && |r.allowed| == |r.line|
  {
    NoDup(ps) && forall p: Placement :: p in ps <==> LegalBefore(r, anchors, rack, n, bound, p)
  }

  function Landing(r: Row, c: Cand): Placement {
    if c.first <= |r.line| then Spread(r.line, c.first, c.tiles) else []
  }

  ghost function Landings(r: Row, cs: seq<Cand>): (ps: seq<Placement>)
    ensures |ps| == |cs|
  {
    seq(|cs|, k requires 0 <= k < |cs| => Landing(r, cs[k]))
  }

  /** Different candidates of one anchor land differently. */
  lemma LandingsDistinct(r: Row, anchors: seq<bool>, prev: int, a: nat, rack: Rack, n: nat, c: Cand, e: Cand)
    requires Setting(r, anchors) && Consecutive(anchors, prev, a)
    requires Considers(r, prev, a, rack, n, c) && Considers(r, prev, a, rack, n, e)
    requires Landing(r, c) == Landing(r, e)
    ensures c == e
  {
    AnchorSound(r, anchors, prev, a, rack, n, c);
    AnchorSound(r, anchors, prev, a, rack, n, e);
    SpreadTiles(r.line, c.first, c.tiles);
    SpreadTiles(r.line, e.first, e.tiles);
    if 0 < a && r.line[a - 1].Empty? {
      FirstColumn(r, anchors, prev, a, rack, n, c);
      FirstColumn(r, anchors, prev, a, rack, n, e);
    }
  }

  lemma FirstColumn(r: Row, anchors: seq<bool>, prev: int, a: nat, rack: Rack, n: nat, c: Cand)
    requires Setting(r, anchors) && Consecutive(anchors, prev, a) && Considers(r, prev, a, rack, n, c)
    requires 0 < a && r.line[a - 1].Empty?
    ensures Landing(r, c) != [] && Landing(r, c)[0].col == c.first
  {
    AnchorSound(r, anchors, prev, a, rack, n, c);
    if c.first < a {
      BareBetween(r, anchors, prev, a, c.first);
    }
  }

  lemma LandingsExact(r: Row, anchors: seq<bool>, prev: int, a: nat, rack: Rack, n: nat, found: seq<Cand>, p: Placement)
    requires Setting(r, anchors) && Consecutive(anchors, prev, a)
    requires forall c :: c in found <==> Considers(r, prev, a, rack, n, c)
    ensures p in Landings(r, found) <==> RowLegal(r, rack, n, p) && FirstAnchor(anchors, a, p)
  {
    hide RowLegal, FirstAnchor;
    var ps := Landings(r, found);
    AnchorFindsExactly(r, anchors, prev, a, rack, n, p);
    if p in ps {
      var k :| 0 <= k < |ps| && ps[k] == p;
      assert found[k] in found;
      AnchorSound(r, anchors, prev, a, rack, n, found[k]);
    }
    if RowLegal(r, rack, n, p) && FirstAnchor(anchors, a, p) {
      var c := AnchorComplete(r, anchors, prev, a, rack, n, p);
      var k :| 0 <= k < |found| && found[k] == c;
      assert ps[k] == p;
    }
  }

  lemma LandingsNoDup(r: Row, anchors: seq<bool>, prev: int, a: nat, rack: Rack, n: nat, found: seq<Cand>)
    requires Setting(r, anchors) && Consecutive(anchors, prev, a)
    requires NoDup(found) && forall c :: c in found <==> Considers(r, prev, a, rack, n, c)
    ensures NoDup(Landings(r, found))
  {
    hide Considers;
    var ps := Landings(r, found);
    forall i, j | 0 <= i < j < |ps|
      ensures ps[i] != ps[j]
    {
      assert found[i] in found && found[j] in found;
      if Landing(r, found[i]) == Landing(r, found[j]) {
        LandingsDistinct(r, anchors, prev, a, rack, n, found[i], found[j]);
      }
    }
  }

  /** One more anchor. */
  lemma JoinAnchor(r: Row, anchors: seq<bool>, prev: int, a: nat, rack: Rack, n: nat,
                   before: seq<Placement>, found: seq<Cand>)
    requires Setting(r, anchors) && Consecutive(anchors, prev, a)
    requires ListsBefore(before, r, anchors, rack, n, a)
    requires NoDup(found) && forall c :: c in found <==> Considers(r, prev, a, rack, n, c)
    ensures ListsBefore(before + Landings(r, found), r, anchors, rack, n, a + 1)
  {
    hide RowLegal, Considers, FirstAnchor;
    var ps := Landings(r, found);
    forall p: Placement
      ensures p in ps <==> RowLegal(r, rack, n, p) && FirstAnchor(anchors, a, p)
    {
      LandingsExact(r, anchors, prev, a, rack, n, found, p);
    }
    LandingsNoDup(r, anchors, prev, a, rack, n, found);
    forall p: Placement | p in before
      ensures p !in ps
    {
      var b :| 0 <= b < a && b < |anchors| && anchors[b] && FirstAnchor(anchors, b, p);
      if FirstAnchor(anchors, a, p) {
        OneFirstAnchor(anchors, a, b, p);
      }
    }
    NoDupConcat(before, ps);
    assert anchors[a];
  }

  /** Moving past a square that is no anchor finds nothing more. */
  lemma SkipSquare(ps: seq<Placement>, r: Row, anchors: seq<bool>, rack: Rack, n: nat, c: nat)
    requires r.blank < |rack| && |r.allowed| == |r.line|
    requires ListsBefore(ps, r, anchors, rack, n, c) && c < |anchors| && !anchors[c]
    ensures ListsBefore(ps, r, anchors, rack, n, c + 1)
  {
    hide RowLegal, FirstAnchor;
  }

  /** With the whole row behind it the list holds the legal placements, once each. */
  lemma RowComplete(ps: seq<Placement>, d: Dict, b: Board, horizontal: bool, row: nat, r: Row, rack: Rack, n: nat)
    requires row < |b| && Checked(d, b, horizontal, row, r) && r.blank < |rack|
    requires ListsBefore(ps, r, Anchors(b, horizontal, row), rack, n, |b|)
    ensures NoDup(ps) && forall p: Placement :: p in ps <==> IsLegal(d, b, horizontal, row, rack, r.blank, n, p)
  {
    hide IsLegal;
    var anchors := Anchors(b, horizontal, row);
    forall p: Placement
      ensures LegalBefore(r, anchors, rack, n, |b|, p) <==> IsLegal(d, b, horizontal, row, rack, r.blank, n, p)
    {
      RowLegalIsLegal(d, b, horizontal, row, r, rack, n, p);
      if RowLegal(r, rack, n, p) {
        if k :| 0 <= k < |p| && IsAnchor(b, horizontal, p[k].col, row) {
          var a := LeftmostAnchor(anchors, p, k);
        }
        if a :| 0 <= a < |b| && anchors[a] && FirstAnchor(anchors, a, p) {
          var k :| 0 <= k < |p| && p[k].col == a;
          assert IsAnchor(b, horizontal, p[k].col, row);
        }
      }
    }
  }

  // From placements of a row to moves of the board.

  ghost function RowMoves(horizontal: bool, row: nat, ps: seq<Placement>): (ms: seq<MoveInfo>)
    ensures |ms| == |ps|
  {
    seq(|ps|, k requires 0 <= k < |ps| => MoveInfo(horizontal, row, ps[k]))
  }

  /** What is handed on for a list of moves. */
  ghost function Entries(rack: Rack, blank: nat, ms: seq<MoveInfo>): (es: seq<Considered>)
    requires blank < |rack|
    ensures |es| == |ms|
  {
    seq(|ms|, k requires 0 <= k < |ms| => Considered(ms[k], BlanksFor(rack, blank, TilesOf(ms[k].tiles))))
  }

  lemma EntriesJoin(rack: Rack, blank: nat, ms: seq<MoveInfo>, ns: seq<MoveInfo>)
    requires blank < |rack|
    ensures Entries(rack, blank, ms + ns) == Entries(rack, blank, ms) + Entries(rack, blank, ns)
    ensures Entries(rack, blank, []) == []
  {
  }

  lemma RowMovesJoin(horizontal: bool, row: nat, ps: seq<Placement>, qs: seq<Placement>)
    ensures RowMoves(horizontal, row, ps + qs) == RowMoves(horizontal, row, ps) + RowMoves(horizontal, row, qs)
    ensures RowMoves(horizontal, row, []) == []
  {
  }

  lemma AnchorEntries(r: Row, anchors: seq<bool>, prev: int, a: nat, rack: Rack, n: nat, found: seq<Cand>,
                      horizontal: bool, row: nat)
    requires Setting(r, anchors) && Consecutive(anchors, prev, a)
    requires forall c :: c in found <==> Considers(r, prev, a, rack, n, c)
    ensures EntriesFor(horizontal, row, r, rack, found) ==
            Entries(rack, r.blank, RowMoves(horizontal, row, Landings(r, found)))
  {
    forall k | 0 <= k < |found|
      ensures TilesOf(Landings(r, found)[k]) == found[k].tiles
    {
      assert found[k] in found;
      AnchorSound(r, anchors, prev, a, rack, n, found[k]);
      SpreadTiles(r.line, found[k].first, found[k].tiles);
    }
  }

  ghost predicate LegalMove(d: Dict, b: Board, rack: Rack, blank: nat, n: nat, m: MoveInfo)
    requires blank < |rack|
  {
    m.common < |b| && IsLegal(d, b, m.horizontal, m.common, rack, blank, n, m.tiles)
  }

  /** The moves of one direction in rows before `bound`, once each. */
  ghost predicate ListsRows(ms: seq<MoveInfo>, d: Dict, b: Board, rack: Rack, blank: nat, n: nat, horizontal: bool, bound: nat)
    requires blank < |rack|
  {
    && NoDup(ms)
    && forall m: MoveInfo :: m in ms <==>
         (m.horizontal == horizontal && m.common < bound && LegalMove(d, b, rack, blank, n, m))
  }

  lemma JoinRow(ms: seq<MoveInfo>, ps: seq<Placement>, d: Dict, b: Board, rack: Rack, blank: nat, n: nat,
                horizontal: bool, row: nat)
    requires blank < |rack| && row < |b|
    requires ListsRows(ms, d, b, rack, blank, n, horizontal, row)
    requires NoDup(ps) && forall p: Placement :: p in ps <==> IsLegal(d, b, horizontal, row, rack, blank, n, p)
    ensures ListsRows(ms + RowMoves(horizontal, row, ps), d, b, rack, blank, n, horizontal, row + 1)
  {
    hide IsLegal;
    var ns := RowMoves(horizontal, row, ps);
    forall m: MoveInfo
      ensures m in ns <==> m.horizontal == horizontal && m.common == row && m.tiles in ps
    {
      if m.horizontal == horizontal && m.common == row && m.tiles in ps {
        var k :| 0 <= k < |ps| && ps[k] == m.tiles;
        assert ns[k] == m;
      }
    }
    NoDupConcat(ms, ns);
  }

  /** On an empty board only the row of the star has an anchor. */
  lemma NoMovesOffStar(d: Dict, b: Board, rack: Rack, blank: nat, n: nat, horizontal: bool, row: nat, p: Placement)
    requires row < |b| && blank < |rack| && FirstMove(b) && row != |b| / 2
    ensures !IsLegal(d, b, horizontal, row, rack, blank, n, p)
  {
  }
}
