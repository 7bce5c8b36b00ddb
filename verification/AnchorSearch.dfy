/** Soundness and completeness of the search from one anchor. */
module AnchorSearch {
  import opened Dawg
  import opened Grid
  import opened Legal
  import opened MoveSearch
  import opened MoveGeometry

  /** The facts about anchors and cross-checks the search relies on: anchors are bare; a bare
      square next to a filled one in the row is an anchor; elsewhere nothing is ruled out. */
  ghost predicate Setting(r: Row, anchors: seq<bool>) {
    && RowOk(r) && |anchors| == |r.line|
    && (forall c :: 0 <= c < |anchors| && anchors[c] ==> r.line[c].Empty?)
    && (forall c :: 0 <= c < |anchors| && r.line[c].Empty? && NextToFilled(r.line, c) ==> anchors[c])
    && (forall c :: 0 <= c < |anchors| && r.line[c].Empty? && !anchors[c] ==>
          forall t :: 0 <= t < MAX_UNIQUE_TILES ==> t in r.allowed[c])
  }

  predicate NextToFilled(l: Line, c: nat)
    requires c < |l|
  {
    (0 < c && l[c - 1].Filled?) || (c + 1 < |l| && l[c + 1].Filled?)
  }

  /** `prev` is the anchor before `a`, or -1. */
  ghost predicate Consecutive(anchors: seq<bool>, prev: int, a: nat) {
    && -1 <= prev < a < |anchors| && anchors[a]
    && (prev >= 0 ==> anchors[prev])
    && forall c :: prev < c < a ==> !anchors[c]
  }

  /** A legal placement of the row, as far as the row can tell. */
  ghost predicate RowLegal(r: Row, rack: Rack, n: nat, p: Placement)
    requires r.blank < |rack| && |r.allowed| == |r.line|
  {
    && p != [] && OnEmpties(r.line, p) && Unbroken(r.line, p)
    && InDict(r.d, RunWord(Overlay(r.line, p), p[0].col))
    && AllAllowed(r, p)
    && |p| <= n && Supplies(rack, r.blank, TilesOf(p))
  }

  /** `a` is the leftmost anchor that `p` covers. */
  ghost predicate FirstAnchor(anchors: seq<bool>, a: nat, p: Placement) {
    && Covers(p, a)
    && forall k :: 0 <= k < |p| && p[k].col < a ==> p[k].col < |anchors| && !anchors[p[k].col]
  }

  /** Tiles to be laid from column `first` on. */
  datatype Cand = Cand(first: nat, tiles: seq<Tile>)

  /** What the search from anchor `a` considers. When a tile stands just left of the anchor the
      word must begin with what is there; otherwise up to `a - prev - 1` tiles may go leftwards. */
  predicate Considers(r: Row, prev: int, a: nat, rack: Rack, n: nat, c: Cand)
    requires r.blank < |rack| && -1 <= prev < a < |r.line| == |r.allowed|
  {
    if 0 < a && r.line[a - 1].Empty? then
      c.first <= a && a - c.first <= a - prev - 1
      && ExtendsBoth(r, r.d.top, a, rack, n, a - c.first, c.tiles)
    else
      c.first == prev + 1
      && Extends(r, Walk(r.d, r.d.top, Letters(r.line, LeftEdge(r.line, a), a)), false, a, rack, n, c.tiles)
  }

  // Between two anchors the row is either all bare or all filled.

  lemma {:induction false} FilledBetween(r: Row, anchors: seq<bool>, prev: int, a: nat, c: nat)
    requires Setting(r, anchors) && Consecutive(anchors, prev, a)
    requires a > 0 ==> r.line[a - 1].Filled?
    requires prev < c < a
    ensures r.line[c].Filled?
    decreases a - c
  {
    if c + 1 < a {
      FilledBetween(r, anchors, prev, a, c + 1);
      assert !anchors[c] && NextToFilled(r.line, c);
    }
  }

  lemma {:induction false} BareBetween(r: Row, anchors: seq<bool>, prev: int, a: nat, c: nat)
    requires Setting(r, anchors) && Consecutive(anchors, prev, a)
    requires a > 0 && r.line[a - 1].Empty?
    requires prev < c < a
    ensures r.line[c].Empty?
    decreases a - c
  {
    if c + 1 < a {
      BareBetween(r, anchors, prev, a, c + 1);
      assert !anchors[c + 1] && (r.line[c].Filled? ==> NextToFilled(r.line, c + 1));
    }
  }

  /** A placement whose leftmost anchor is `a` starts after the anchor before `a`. */
  lemma StartsAfter(r: Row, anchors: seq<bool>, prev: int, a: nat, p: Placement)
    requires Setting(r, anchors) && Consecutive(anchors, prev, a)
    requires p != [] && OnEmpties(r.line, p) && Unbroken(r.line, p) && FirstAnchor(anchors, a, p)
    ensures prev < p[0].col <= a <= p[|p| - 1].col
  {
    var k :| 0 <= k < |p| && p[k].col == a;
    OverlayCarries(r.line, p);
    assert prev >= 0 && p[0].col <= prev ==> Overlay(r.line, p)[prev].Filled?;
    assert prev >= 0 && p[0].col <= prev ==> Covers(p, prev);
  }

  lemma UnbrokenIsPacked(l: Line, p: Placement)
    requires p != [] && OnEmpties(l, p)
    ensures Unbroken(l, p) <==> Packed(l, p[0].col, p)
  {
    OverlayCarries(l, p);
    OverlayAt(l, p);
    var m := Overlay(l, p);
    forall c | p[0].col <= c <= p[|p| - 1].col
      ensures m[c].Filled? <==> l[c].Filled? || Covers(p, c)
    {
      if Covers(p, c) {
        var k :| 0 <= k < |p| && p[k].col == c;
      }
    }
  }

  lemma {:induction false} AcceptedLettersSmall(d: Dict, p: Ptr, w: Word)
    requires NodePtr(d, p) && Accepts(d, p, w)
    ensures forall k :: 0 <= k < |w| ==> w[k] < MAX_UNIQUE_TILES
    decreases |w|
  {
    var e := EdgeFor(d, p, w[0]);
    assert EdgeOk(d, e.i);
    if |w| > 1 {
      AcceptedLettersSmall(d, Follow(d, e.i), w[1..]);
      assert forall k :: 1 <= k < |w| ==> w[k] == w[1..][k - 1];
    }
  }

  /** Legality of a placement, read off from any column `f` from which only filled squares lead to
      its first tile. */
  lemma LegalIff(r: Row, rack: Rack, n: nat, f: nat, p: Placement)
    requires r.blank < |rack| && |r.allowed| == |r.line|
    requires p != [] && OnEmpties(r.line, p) && f <= p[0].col
    requires forall c :: f <= c < p[0].col ==> r.line[c].Filled?
    ensures RowLegal(r, rack, n, p) <==>
            && Spread(r.line, f, TilesOf(p)) == p
            && InDict(r.d, Letters(r.line, LeftEdge(r.line, f), f) + Reading(r.line, f, TilesOf(p)))
            && AllAllowed(r, p) && |p| <= n && Supplies(rack, r.blank, TilesOf(p))
  {
    hide InDict, AllAllowed;
    var l, ts := r.line, TilesOf(p);
    UnbrokenIsPacked(l, p);
    if Packed(l, p[0].col, p) {
      SpreadInverse(l, f, p);
    }
    if Spread(l, f, ts) == p {
      SpreadPacked(l, f, ts);
      RunWordOfSpread(l, f, ts);
      FilledBefore(l, f, p);
      RunWordShift(Overlay(l, p), f, p[0].col);
    }
  }

  lemma FilledBefore(l: Line, f: nat, p: Placement)
    requires p != [] && OnEmpties(l, p) && forall c :: f <= c < p[0].col ==> l[c].Filled?
    ensures forall c :: f <= c < p[0].col ==> Overlay(l, p)[c].Filled?
  {
    OverlayAt(l, p);
  }

  lemma SpreadTiles(l: Line, f: nat, ts: seq<Tile>)
    requires f <= |l| && |Spread(l, f, ts)| == |ts|
    ensures TilesOf(Spread(l, f, ts)) == ts && OnEmpties(l, Spread(l, f, ts))
  {
    SpreadShape(l, f, ts);
    assert ts[..|ts|] == ts;
  }

  /** With a tile, or the edge of the board, on the anchor's left, the first new tile goes on the
      anchor. */
  lemma AfterTile(r: Row, anchors: seq<bool>, prev: int, a: nat, rack: Rack, n: nat, p: Placement)
    requires Setting(r, anchors) && Consecutive(anchors, prev, a)
    requires a > 0 ==> r.line[a - 1].Filled?
    requires p != [] && OnEmpties(r.line, p) && p[0].col == a
    ensures RowLegal(r, rack, n, p) <==>
            Considers(r, prev, a, rack, n, Cand(prev + 1, TilesOf(p))) && Spread(r.line, prev + 1, TilesOf(p)) == p
  {
    hide RowLegal, AllAllowed, Supplies, Spread, LeftEdge, Walk, Extends;
    var l, ts := r.line, TilesOf(p);
    var before := Letters(l, LeftEdge(l, a), a);
    var node := Walk(r.d, r.d.top, before);
    forall c | prev < c < a
      ensures l[c].Filled?
    {
      FilledBetween(r, anchors, prev, a, c);
    }
    SkipFilled(l, prev + 1, a, ts);
    LegalIff(r, rack, n, a, p);
    ExtendsMeaning(r, node, false, a, rack, n, ts);
    if Reading(l, a, ts) != [] {
      AcceptsAfterWalk(r.d, r.d.top, before, Reading(l, a, ts));
    }
  }

  /** The same when the square on the anchor's left is bare: new tiles may start there or before. */
  lemma AfterBare(r: Row, anchors: seq<bool>, prev: int, a: nat, rack: Rack, n: nat, p: Placement)
    requires Setting(r, anchors) && Consecutive(anchors, prev, a)
    requires a > 0 && r.line[a - 1].Empty?
    requires p != [] && OnEmpties(r.line, p) && prev < p[0].col <= a <= p[|p| - 1].col
    ensures RowLegal(r, rack, n, p) <==>
            Considers(r, prev, a, rack, n, Cand(p[0].col, TilesOf(p))) && Spread(r.line, p[0].col, TilesOf(p)) == p
  {
    hide ExtendsBoth, RowLegal, AllAllowed, Accepts, Supplies, Reading, Spread, LeftEdge, Setting, Consecutive, RowOk;
    BareRun(r, anchors, prev, a);
    var l, ts, f := r.line, TilesOf(p), p[0].col;
    LegalIff(r, rack, n, f, p);
    LeftEdgeIs(l, f, f);
    assert Letters(l, f, f) + Reading(l, f, ts) == Reading(l, f, ts);
    ExtendsBothMeaning(r, r.d.top, a, rack, n, a - f, ts);
    if a - f < |ts| {
      LaidOverBare(r, anchors, prev, f, a, ts);
    } else {
      TooFew(l, f, a, ts);
    }
  }

  lemma BareRun(r: Row, anchors: seq<bool>, prev: int, a: nat)
    requires Setting(r, anchors) && Consecutive(anchors, prev, a)
    requires a > 0 && r.line[a - 1].Empty?
    ensures -1 <= prev < a < |r.line| == |r.allowed| && r.blank <= MAX_UNIQUE_TILES
    ensures forall c :: 0 <= c && prev <= c <= a ==> r.line[c].Empty?
  {
    forall c | prev < c < a
      ensures r.line[c].Empty?
    {
      BareBetween(r, anchors, prev, a, c);
    }
  }

  /** With more tiles than bare squares before the anchor, what the two sides of the search look at is what
      the whole placement is judged by. */
  lemma LaidOverBare(r: Row, anchors: seq<bool>, prev: int, f: nat, a: nat, ts: seq<Tile>)
    requires Setting(r, anchors) && Consecutive(anchors, prev, a)
    requires prev < f <= a && a - f < |ts|
    requires forall c :: f <= c < a ==> r.line[c].Empty?
    ensures Reading(r.line, f, ts) == ts[..a - f] + Reading(r.line, a, ts[a - f..])
    ensures |Spread(r.line, f, ts)| == a - f + |Spread(r.line, a, ts[a - f..])|
    ensures |Spread(r.line, f, ts)| == |ts| ==> TilesOf(Spread(r.line, f, ts)) == ts && OnEmpties(r.line, Spread(r.line, f, ts))
    ensures InDict(r.d, Reading(r.line, f, ts)) ==>
              (AllAllowed(r, Spread(r.line, f, ts)) <==> AllAllowed(r, Spread(r.line, a, ts[a - f..])))
  {
    hide AllAllowed, Accepts, Reading, Spread;
    OverBare(r.line, f, a - f, ts);
    ReadOverBare(r.line, f, a - f, ts);
    if |Spread(r.line, f, ts)| == |ts| {
      SpreadTiles(r.line, f, ts);
    }
    if InDict(r.d, Reading(r.line, f, ts)) {
      BareAllowed(r, anchors, prev, f, a, ts);
    }
  }

  /** Tiles that run out over the bare squares do not reach the anchor. */
  lemma TooFew(l: Line, f: nat, a: nat, ts: seq<Tile>)
    requires f <= a < |l| && |ts| <= a - f && forall c :: f <= c < a ==> l[c].Empty?
    ensures forall i :: 0 <= i < |Spread(l, f, ts)| ==> Spread(l, f, ts)[i].col < a
  {
    OverBare(l, f, |ts|, ts);
    assert Spread(l, f + |ts|, ts[|ts|..]) == [];
  }

  /** Left of the anchor no cross-check can fail. */
  lemma BareAllowed(r: Row, anchors: seq<bool>, prev: int, f: nat, a: nat, ts: seq<Tile>)
    requires Setting(r, anchors) && Consecutive(anchors, prev, a)
    requires prev < f <= a && a - f < |ts|
    requires forall c :: f <= c < a ==> r.line[c].Empty?
    requires Spread(r.line, f, ts) == Laid(f, a - f, ts) + Spread(r.line, a, ts[a - f..])
    requires Reading(r.line, f, ts) == ts[..a - f] + Reading(r.line, a, ts[a - f..])
    requires InDict(r.d, Reading(r.line, f, ts))
    ensures AllAllowed(r, Spread(r.line, f, ts)) <==> AllAllowed(r, Spread(r.line, a, ts[a - f..]))
  {
    var k := a - f;
    var p, q := Spread(r.line, f, ts), Spread(r.line, a, ts[k..]);
    AcceptedLettersSmall(r.d, r.d.top, Reading(r.line, f, ts));
    forall i | 0 <= i < k
      ensures p[i].col < |r.allowed| && p[i].tile in r.allowed[p[i].col]
    {
      assert p[i] == Placed(f + i, ts[i]) && Reading(r.line, f, ts)[i] == ts[i];
      assert !anchors[f + i];
    }
    assert forall i :: 0 <= i < |q| ==> p[k + i] == q[i];
    assert forall i :: k <= i < |p| ==> p[i] == q[i - k];
  }

  /** The search from one anchor finds a placement exactly when it is legal and the anchor is the
      leftmost one it covers. */
  lemma AnchorFindsExactly(r: Row, anchors: seq<bool>, prev: int, a: nat, rack: Rack, n: nat, p: Placement)
    requires Setting(r, anchors) && Consecutive(anchors, prev, a)
    ensures RowLegal(r, rack, n, p) && FirstAnchor(anchors, a, p) <==>
            exists c :: Considers(r, prev, a, rack, n, c) && c.first <= |r.line| && Spread(r.line, c.first, c.tiles) == p
  {
    if RowLegal(r, rack, n, p) && FirstAnchor(anchors, a, p) {
      var c := AnchorComplete(r, anchors, prev, a, rack, n, p);
    }
    forall c | Considers(r, prev, a, rack, n, c) && c.first <= |r.line| && Spread(r.line, c.first, c.tiles) == p
      ensures RowLegal(r, rack, n, p) && FirstAnchor(anchors, a, p)
    {
      AnchorSound(r, anchors, prev, a, rack, n, c);
    }
  }

  lemma AnchorComplete(r: Row, anchors: seq<bool>, prev: int, a: nat, rack: Rack, n: nat, p: Placement)
    returns (c: Cand)
    requires Setting(r, anchors) && Consecutive(anchors, prev, a)
    requires RowLegal(r, rack, n, p) && FirstAnchor(anchors, a, p)
    ensures Considers(r, prev, a, rack, n, c) && c.first <= |r.line| && Spread(r.line, c.first, c.tiles) == p
  {
    StartsAfter(r, anchors, prev, a, p);
    if 0 < a && r.line[a - 1].Empty? {
      c := Cand(p[0].col, TilesOf(p));
      AfterBare(r, anchors, prev, a, rack, n, p);
    } else {
      c := Cand(prev + 1, TilesOf(p));
      if p[0].col < a {
        FilledBetween(r, anchors, prev, a, p[0].col);
      }
      AfterTile(r, anchors, prev, a, rack, n, p);
    }
  }

  lemma AnchorSound(r: Row, anchors: seq<bool>, prev: int, a: nat, rack: Rack, n: nat, c: Cand)
    requires Setting(r, anchors) && Consecutive(anchors, prev, a) && Considers(r, prev, a, rack, n, c)
    ensures c.first <= |r.line|
    ensures var p := Spread(r.line, c.first, c.tiles);
            |p| == |c.tiles| && RowLegal(r, rack, n, p) && FirstAnchor(anchors, a, p)
  {
    hide RowLegal, AllAllowed, Supplies, LeftEdge, Letters, Walk, Extends, Accepts;
    var l, ts := r.line, c.tiles;
    var p := Spread(l, c.first, ts);
    if 0 < a && l[a - 1].Empty? {
      BareSound(r, anchors, prev, a, rack, n, c);
    } else {
      ExtendsMeaning(r, Walk(r.d, r.d.top, Letters(l, LeftEdge(l, a), a)), false, a, rack, n, ts);
      forall i | prev < i < a
        ensures l[i].Filled?
      {
        FilledBetween(r, anchors, prev, a, i);
      }
      SkipFilled(l, prev + 1, a, ts);
      SpreadTiles(l, a, ts);
      SpreadShape(l, a, ts);
      assert p[0].col == a;
      AfterTile(r, anchors, prev, a, rack, n, p);
    }
  }

  lemma BareSound(r: Row, anchors: seq<bool>, prev: int, a: nat, rack: Rack, n: nat, c: Cand)
    requires Setting(r, anchors) && Consecutive(anchors, prev, a) && Considers(r, prev, a, rack, n, c)
    requires 0 < a && r.line[a - 1].Empty?
    ensures c.first <= |r.line|
    ensures var p := Spread(r.line, c.first, c.tiles);
            |p| == |c.tiles| && RowLegal(r, rack, n, p) && FirstAnchor(anchors, a, p)
  {
    hide ExtendsBoth, RowLegal, AllAllowed, Accepts, Supplies, Reading, Spread;
    var l, f, ts := r.line, c.first, c.tiles;
    var k := a - f;
    var p := Spread(l, f, ts);
    ExtendsBothMeaning(r, r.d.top, a, rack, n, k, ts);
    forall i | prev < i < a
      ensures l[i].Empty?
    {
      BareBetween(r, anchors, prev, a, i);
    }
    OverBare(l, f, k, ts);
    SpreadTiles(l, f, ts);
    SpreadHead(l, a, ts[k..]);
    BareShape(l, f, a, p, Laid(f, k, ts), Spread(l, a, ts[k..]));
    AfterBare(r, anchors, prev, a, rack, n, p);
    assert Covers(p, a);
  }

  lemma SpreadHead(l: Line, a: nat, ts: seq<Tile>)
    requires a < |l| && l[a].Empty? && ts != []
    ensures Spread(l, a, ts) != [] && Spread(l, a, ts)[0].col == a
  {
  }

  lemma BareShape(l: Line, f: nat, a: nat, p: Placement, left: Placement, right: Placement)
    requires f <= a && OnEmpties(l, p) && p == left + right && |left| == a - f
    requires right != [] && right[0].col == a
    requires forall i :: 0 <= i < |left| ==> left[i].col == f + i
    ensures p[0].col == f && p[a - f].col == a <= p[|p| - 1].col
    ensures forall i :: 0 <= i < |p| && p[i].col < a ==> f <= p[i].col
  {
    assert p[a - f] == right[0];
    assert f < a ==> p[0] == left[0];
  }
}
