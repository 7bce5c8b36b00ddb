/** Where the tiles of a search land: the bridge between what the search accepts and the legal
    placements of a row whose leftmost anchor is the one searched from. */
module MoveGeometry {
  import opened Dawg
  import opened Grid
  import opened Legal
  import opened MoveSearch

  lemma {:induction false} OverlayAt(l: Line, p: Placement)
    requires OnEmpties(l, p)
    ensures forall k :: 0 <= k < |p| ==> Overlay(l, p)[p[k].col] == Filled(p[k].tile, false)
    ensures forall c :: 0 <= c < |l| && (forall k :: 0 <= k < |p| ==> p[k].col != c) ==> Overlay(l, p)[c] == l[c]
    decreases |p|
  {
    if p != [] {
      OverlayAt(l, p[..|p| - 1]);
      assert forall k :: 0 <= k < |p| - 1 ==> p[..|p| - 1][k] == p[k];
    }
  }

  /** Is there a new tile at column c? */
  ghost predicate Covers(p: Placement, c: nat) {
    exists k :: 0 <= k < |p| && p[k].col == c
  }

  /** Every square from `col` to the last new tile is filled, before or by the move. */
  ghost predicate Packed(l: Line, col: nat, p: Placement) {
    forall c {:trigger Covers(p, c)} :: col <= c < |l| && p != [] && c <= p[|p| - 1].col ==> l[c].Filled? || Covers(p, c)
  }

  lemma {:induction false} SpreadShape(l: Line, col: nat, ts: seq<Tile>)
    requires col <= |l|
    ensures var p := Spread(l, col, ts);
            && |p| <= |ts| && OnEmpties(l, p) && TilesOf(p) == ts[..|p|]
            && (forall k :: 0 <= k < |p| ==> col <= p[k].col)
    decreases |l| - col
  {
    var p := Spread(l, col, ts);
    if col < |l| && ts != [] {
      if l[col].Filled? {
        SpreadShape(l, col + 1, ts);
      } else {
        SpreadShape(l, col + 1, ts[1..]);
        ShapeCons(l, col, ts, Spread(l, col + 1, ts[1..]));
      }
    }
  }

  /** One more tile at the front of a placement. */
  lemma ShapeCons(l: Line, col: nat, ts: seq<Tile>, q: Placement)
    requires col < |l| && l[col].Empty? && ts != []
    requires |q| < |ts| && OnEmpties(l, q) && TilesOf(q) == ts[1..][..|q|]
    requires forall k :: 0 <= k < |q| ==> col + 1 <= q[k].col
    ensures var p := [Placed(col, ts[0])] + q;
            OnEmpties(l, p) && TilesOf(p) == ts[..|p|] && forall k :: 0 <= k < |p| ==> col <= p[k].col
  {
    var p := [Placed(col, ts[0])] + q;
    assert forall k :: 1 <= k < |p| ==> p[k] == q[k - 1];
    assert TilesOf(p) == [ts[0]] + TilesOf(q);
  }

  lemma CoversCons(p: Placement, q: Placement, c: nat)
    requires p != [] && q == p[1..]
    ensures Covers(p, c) <==> p[0].col == c || Covers(q, c)
  {
    if Covers(p, c) {
      var k :| 0 <= k < |p| && p[k].col == c;
      assert k > 0 ==> q[k - 1].col == c;
    }
    if Covers(q, c) {
      var k :| 0 <= k < |q| && q[k].col == c;
      assert p[k + 1].col == c;
    }
  }

  lemma {:induction false} SpreadPacked(l: Line, col: nat, ts: seq<Tile>)
    requires col <= |l|
    ensures Packed(l, col, Spread(l, col, ts))
    decreases |l| - col
  {
    var p := Spread(l, col, ts);
    if col < |l| && ts != [] {
      if l[col].Filled? {
        SpreadPacked(l, col + 1, ts);
      } else {
        var q := Spread(l, col + 1, ts[1..]);
        SpreadPacked(l, col + 1, ts[1..]);
        assert q == p[1..] && p[0].col == col;
        forall c | col <= c < |l| && c <= p[|p| - 1].col
          ensures l[c].Filled? || Covers(p, c)
        {
          CoversCons(p, q, c);
          assert q != [] ==> q[|q| - 1] == p[|p| - 1];
          assert col < c && q != [] ==> l[c].Filled? || Covers(q, c);
        }
      }
    }
  }

  /** Laying a packed placement's tiles in order puts each back where it was. */
  lemma {:induction false} SpreadInverse(l: Line, col: nat, p: Placement)
    requires col <= |l| && OnEmpties(l, p) && Packed(l, col, p)
    requires forall k :: 0 <= k < |p| ==> col <= p[k].col
    ensures Spread(l, col, TilesOf(p)) == p
    decreases |l| - col
  {
    if p != [] {
      assert col <= p[0].col <= p[|p| - 1].col < |l|;
      assert l[col].Filled? || Covers(p, col);
      if l[col].Filled? {
        SpreadInverse(l, col + 1, p);
      } else {
        assert p[0].col == col;
        var q := p[1..];
        assert TilesOf(p)[1..] == TilesOf(q);
        forall c | col + 1 <= c < |l| && q != [] && c <= q[|q| - 1].col
          ensures l[c].Filled? || Covers(q, c)
        {
          CoversCons(p, q, c);
        }
        SpreadInverse(l, col + 1, q);
        assert p == [p[0]] + q;
      }
    }
  }

  /** `m` is `l` with the tiles of `p` on it, as far as columns from `col` on go. */
  ghost predicate Carries(l: Line, m: Line, col: nat, p: Placement) {
    && |m| == |l|
    && (forall k :: 0 <= k < |p| ==> p[k].col < |m| && m[p[k].col] == Filled(p[k].tile, false))
    && (forall c {:trigger Covers(p, c)} :: col <= c < |m| && !Covers(p, c) ==> m[c] == l[c])
  }

  /** The filled squares of `m` from `col` on spell `w`, and then comes a bare one or the edge. */
  ghost predicate Reads(m: Line, col: nat, w: Word) {
    && col + |w| <= |m|
    && (forall c :: col <= c < col + |w| ==> m[c].Filled? && m[c].tile == w[c - col])
    && (col + |w| == |m| || m[col + |w|].Empty?)
  }

  lemma ReadsCons(m: Line, col: nat, t: Tile, w: Word)
    requires col < |m| && m[col].Filled? && m[col].tile == t && Reads(m, col + 1, w)
    ensures Reads(m, col, [t] + w)
  {
  }

  lemma CarriesRest(l: Line, m: Line, col: nat, p: Placement)
    requires p != [] && Carries(l, m, col, p) && p[0].col == col
    ensures Carries(l, m, col + 1, p[1..])
  {
    forall c | col + 1 <= c < |m| && !Covers(p[1..], c)
      ensures m[c] == l[c]
    {
      CoversCons(p, p[1..], c);
    }
  }

  lemma NotCovered(l: Line, m: Line, col: nat, p: Placement)
    requires col < |l| && Carries(l, m, col, p) && forall k :: 0 <= k < |p| ==> col < p[k].col
    ensures m[col] == l[col]
  {
    assert !Covers(p, col);
  }

  /** A line that carries the laid tiles reads as `Reading` says, up to its first bare square. */
  lemma {:induction false} ReadingMatches(l: Line, m: Line, col: nat, ts: seq<Tile>)
    requires col <= |l| && |Spread(l, col, ts)| == |ts| && Carries(l, m, col, Spread(l, col, ts))
    ensures Reads(m, col, Reading(l, col, ts))
    decreases |l| - col
  {
    var p := Spread(l, col, ts);
    if col < |l| {
      if l[col].Filled? {
        SpreadShape(l, col + 1, ts);
        NotCovered(l, m, col, p);
        ReadingMatches(l, m, col + 1, ts);
        ReadsCons(m, col, l[col].tile, Reading(l, col + 1, ts));
      } else if ts != [] {
        assert p[1..] == Spread(l, col + 1, ts[1..]) && p[0] == Placed(col, ts[0]);
        CarriesRest(l, m, col, p);
        ReadingMatches(l, m, col + 1, ts[1..]);
        ReadsCons(m, col, ts[0], Reading(l, col + 1, ts[1..]));
      } else {
        NotCovered(l, m, col, p);
      }
    }
  }

  lemma OverlayCarries(l: Line, p: Placement)
    requires OnEmpties(l, p)
    ensures Carries(l, Overlay(l, p), 0, p)
  {
    OverlayAt(l, p);
  }

  lemma ReadsIsRun(m: Line, f: nat, w: Word)
    requires Reads(m, f, w)
    ensures RunWord(m, f) == Letters(m, LeftEdge(m, f), f) + w
  {
    RightEdgeIs(m, f, f + |w|);
    LettersConcat(m, LeftEdge(m, f), f, f + |w|);
    assert Letters(m, f, f + |w|) == w;
  }

  /** The main word of a placement laid from `f` on: what is already there, then the reading. */
  lemma RunWordOfSpread(l: Line, f: nat, ts: seq<Tile>)
    requires f <= |l| && |Spread(l, f, ts)| == |ts|
    ensures var p := Spread(l, f, ts);
            && OnEmpties(l, p)
            && RunWord(Overlay(l, p), f) == Letters(l, LeftEdge(l, f), f) + Reading(l, f, ts)
  {
    var p := Spread(l, f, ts);
    SpreadShape(l, f, ts);
    OverlayCarries(l, p);
    var m := Overlay(l, p);
    ReadingMatches(l, m, f, ts);
    ReadsIsRun(m, f, Reading(l, f, ts));
    SameBefore(l, m, f, p);
  }

  lemma SameBefore(l: Line, m: Line, f: nat, p: Placement)
    requires f <= |l| && Carries(l, m, 0, p) && forall k :: 0 <= k < |p| ==> f <= p[k].col
    ensures LeftEdge(m, f) == LeftEdge(l, f) && Letters(m, LeftEdge(m, f), f) == Letters(l, LeftEdge(l, f), f)
  {
    forall c | 0 <= c < f
      ensures m[c] == l[c]
    {
      assert !Covers(p, c);
    }
    LeftEdgeIs(m, f, LeftEdge(l, f));
  }

  /** A run word is the same seen from any of its squares. */
  lemma {:induction false} RunWordShift(l: Line, c: nat, e: nat)
    requires c <= e <= |l| && forall k :: c <= k < e ==> l[k].Filled?
    ensures RunWord(l, c) == RunWord(l, e)
    decreases e - c
  {
    if c < e {
      RunWordShift(l, c + 1, e);
    }
  }

  /** Squares already filled before the first new tile do not matter to where tiles land. */
  lemma {:induction false} SkipFilled(l: Line, f: nat, a: nat, ts: seq<Tile>)
    requires f <= a <= |l| && forall c :: f <= c < a ==> l[c].Filled?
    ensures Spread(l, f, ts) == Spread(l, a, ts)
    decreases a - f
  {
    if f < a {
      SkipFilled(l, f + 1, a, ts);
    }
  }

  function Laid(f: nat, k: nat, ts: seq<Tile>): Placement
    requires k <= |ts|
  {
    seq(k, i requires 0 <= i < k => Placed(f + i, ts[i]))
  }

  /** Over `k` bare squares the first `k` tiles land one by one. */
  lemma {:induction false} OverBare(l: Line, f: nat, k: nat, ts: seq<Tile>)
    requires f + k <= |l| && k <= |ts| && forall c :: f <= c < f + k ==> l[c].Empty?
    ensures Spread(l, f, ts) == Laid(f, k, ts) + Spread(l, f + k, ts[k..])
    decreases k
  {
    if k == 0 {
      assert ts[0..] == ts;
    } else {
      OverBare(l, f + 1, k - 1, ts[1..]);
      assert ts[1..][k - 1..] == ts[k..];
      assert [Placed(f, ts[0])] + Laid(f + 1, k - 1, ts[1..]) == Laid(f, k, ts);
    }
  }

  lemma JoinHead(ts: seq<Tile>, k: nat, rest: Word)
    requires 0 < k <= |ts|
    ensures ts[1..][k - 1..] == ts[k..]
    ensures [ts[0]] + (ts[1..][..k - 1] + rest) == ts[..k] + rest
  {
  }

  lemma {:induction false} ReadOverBare(l: Line, f: nat, k: nat, ts: seq<Tile>)
    requires f + k <= |l| && k <= |ts| && forall c :: f <= c < f + k ==> l[c].Empty?
    ensures Reading(l, f, ts) == ts[..k] + Reading(l, f + k, ts[k..])
    decreases k
  {
    if k == 0 {
      assert ts[0..] == ts;
    } else {
      ReadOverBare(l, f + 1, k - 1, ts[1..]);
      JoinHead(ts, k, Reading(l, f + k, ts[k..]));
    }
  }
}
