/** The vocabulary of the move generator's contracts: what each part of the search is to find, and how
    the finds of one edge, one square or one direction join into those of the whole. */
module SearchSpec {
  import opened Dawg
  import opened Grid
  import opened Legal
  import opened MoveSearch
  import opened MoveGeometry
  import opened AnchorSearch
  import opened CrossChecks

  /** One bit per tile, in two words of 32. */
  datatype Crosscheck = Crosscheck(low: seq<bool>, high: seq<bool>)

  predicate Contains(c: Crosscheck, t: Tile)
    requires |c.low| == |c.high| == 32 && t < MAX_UNIQUE_TILES
  {
    if t < 32 then c.low[t] else c.high[t - 32]
  }

  function AllowedBy(c: Crosscheck): (s: set<Tile>)
    requires |c.low| == |c.high| == 32
    ensures forall t: nat :: t in s <==> t < MAX_UNIQUE_TILES && Contains(c, t)
  {
    set t: nat | t < MAX_UNIQUE_TILES && Contains(c, t)
  }

  datatype MoveInfo = MoveInfo(horizontal: bool, common: nat, tiles: Placement)

  /** A placement as handed on for scoring, with the letters its blanks stand for, in the order the
      blanks were taken. */
  datatype Considered = Considered(move: MoveInfo, blanks: seq<Tile>)

  /** Which of the tiles, taken in order, had to be blanks. */
  function BlanksFor(rack: Rack, blank: nat, ts: seq<Tile>): (bs: seq<Tile>)
    requires blank < |rack|
    ensures |bs| <= |ts|
    decreases |ts|
  {
    if ts == [] || !CanTake(rack, blank, ts[0]) then []
    else (if rack[ts[0]] > 0 then [] else [ts[0]]) + BlanksFor(Take(rack, blank, ts[0]), blank, ts[1..])
  }

  lemma {:induction false} TakeOneMore(rack: Rack, blank: nat, ts: seq<Tile>, t: Tile)
    requires blank < |rack| && Supplies(rack, blank, ts)
    requires CanTake(TakeAll(rack, blank, ts), blank, t)
    ensures Supplies(rack, blank, ts + [t])
    ensures TakeAll(rack, blank, ts + [t]) == Take(TakeAll(rack, blank, ts), blank, t)
    ensures BlanksFor(rack, blank, ts + [t]) ==
            BlanksFor(rack, blank, ts) + if TakeAll(rack, blank, ts)[t] > 0 then [] else [t]
    decreases |ts|
  {
    if ts == [] {
      assert ts + [t] == [t] && [t][1..] == [];
    } else {
      assert (ts + [t])[0] == ts[0] && (ts + [t])[1..] == ts[1..] + [t];
      TakeOneMore(Take(rack, blank, ts[0]), blank, ts[1..], t);
    }
  }

  /** The rack, tile limit and blanks of a search that began with `rack0` and `n0` and has laid `pre`. */
  ghost predicate InHand(rack0: Rack, blank: nat, n0: nat, pre: seq<Tile>, rack: seq<nat>, n: nat, bs: seq<Tile>)
    requires blank <= MAX_UNIQUE_TILES
  {
    && |pre| <= n0 <= MAX_TRAY_TILES && n == n0 - |pre|
    && Supplies(rack0, blank, pre) && rack == TakeAll(rack0, blank, pre)
    && bs == BlanksFor(rack0, blank, pre)
  }

  lemma InHandBlanks(rack0: Rack, blank: nat, n0: nat, pre: seq<Tile>, rack: seq<nat>, n: nat, bs: seq<Tile>)
    requires blank <= MAX_UNIQUE_TILES && InHand(rack0, blank, n0, pre, rack, n, bs)
    ensures bs == BlanksFor(rack0, blank, pre)
  {
  }

  lemma LayOne(rack0: Rack, blank: nat, n0: nat, pre: seq<Tile>, rack: Rack, n: nat, bs: seq<Tile>, t: Tile)
    requires blank <= MAX_UNIQUE_TILES && InHand(rack0, blank, n0, pre, rack, n, bs) && n > 0
    ensures |bs| < MAX_TRAY_TILES && |pre| < MAX_TRAY_TILES
    ensures CanTake(rack, blank, t) ==>
            InHand(rack0, blank, n0, pre + [t], Take(rack, blank, t), n - 1,
                   if rack[t] > 0 then bs else bs + [t])
  {
    if CanTake(rack, blank, t) {
      TakeOneMore(rack0, blank, pre, t);
    }
  }

  function PutBack(rack: Rack, t: Tile): Rack
    requires t < |rack|
  {
    rack[t := rack[t] + 1]
  }

  lemma PutBackUndoesTake(rack: Rack, blank: nat, t: Tile)
    requires blank < |rack| && CanTake(rack, blank, t)
    ensures PutBack(Take(rack, blank, t), if rack[t] > 0 then t else blank) == rack
  {
  }

  // What the searches are to find, with the tiles `pre` already laid.

  predicate Continues(pre: seq<Tile>, ts: seq<Tile>) {
    |pre| <= |ts| && ts[..|pre|] == pre
  }

  ghost predicate FindsRight(r: Row, p: Ptr, accepting: bool, first: nat, col: nat, pre: seq<Tile>,
                             rack: Rack, n: nat, c: Cand)
    requires r.blank < |rack| && col <= |r.line| == |r.allowed| && NodePtr(r.d, p)
  {
    c.first == first && Continues(pre, c.tiles) && Extends(r, p, accepting, col, rack, n, c.tiles[|pre|..])
  }

  ghost predicate FindsLeft(r: Row, p: Ptr, limit: nat, first: nat, anchor: nat, pre: seq<Tile>,
                            rack: Rack, n: nat, c: Cand)
    requires r.blank < |rack| && anchor <= |r.line| == |r.allowed| && NodePtr(r.d, p)
  {
    && c.first <= first && first - c.first <= limit && Continues(pre, c.tiles)
    && ExtendsBoth(r, p, anchor, rack, n, first - c.first, c.tiles[|pre|..])
  }

  /** The edge of the node at `p` that carries the next tile after `pre`. */
  ghost predicate NextEdgeBefore(d: Dict, p: Ptr, pre: seq<Tile>, bound: nat, c: Cand) {
    |pre| < |c.tiles| && var e := EdgeFor(d, p, c.tiles[|pre|]); e.At? && e.i < bound
  }

  ghost predicate NoDup<T>(s: seq<T>) {
    forall i, j :: 0 <= i < j < |s| ==> s[i] != s[j]
  }

  lemma NoDupConcat<T>(s: seq<T>, t: seq<T>)
    requires NoDup(s) && NoDup(t) && forall x :: x in s ==> x !in t
    ensures NoDup(s + t)
  {
    forall i, j | 0 <= i < j < |s + t|
      ensures (s + t)[i] != (s + t)[j]
    {
      if i < |s| <= j {
        assert s[i] in s && t[j - |s|] in t;
      }
    }
  }

  /** The rightward search, square by square. */
  lemma RightCases(r: Row, p: Ptr, accepting: bool, first: nat, col: nat, pre: seq<Tile>,
                   rack: Rack, n: nat, c: Cand)
    requires r.blank < |rack| && col <= |r.line| == |r.allowed| && NodePtr(r.d, p)
    ensures
      var here := c == Cand(first, pre) && accepting;
      var finds := FindsRight(r, p, accepting, first, col, pre, rack, n, c);
      if col == |r.line| then finds <==> here
      else if r.line[col].Filled? then
        var e := EdgeFor(r.d, p, r.line[col].tile);
        finds <==> e.At? && FindsRight(r, Follow(r.d, e.i), r.d.edges[e.i].accepting, first, col + 1, pre, rack, n, c)
      else
        && (finds <==> here || (finds && |pre| < |c.tiles|))
        && (finds && |pre| < |c.tiles| ==> p.At? && n > 0 && EdgeFor(r.d, p, c.tiles[|pre|]).At?)
  {
    if |c.tiles| == |pre| {
      assert c.tiles[..|pre|] == c.tiles && c.tiles[|pre|..] == [];
    } else if |pre| < |c.tiles| {
      assert c.tiles[|pre|..][0] == c.tiles[|pre|];
    }
    assert c == Cand(first, pre) ==> Continues(pre, c.tiles);
  }

  /** One more edge of a node, rightwards: what starts with its tile. */
  lemma RightStep(r: Row, p: Ptr, accepting: bool, first: nat, col: nat, pre: seq<Tile>,
                  rack: Rack, n: nat, e: nat, c: Cand)
    requires r.blank < |rack| && col < |r.line| == |r.allowed| && NodePtr(r.d, p)
    requires r.line[col].Empty? && n > 0 && InNode(r.d, p, e)
    ensures var t := r.d.edges[e].tile;
            FindsRight(r, p, accepting, first, col, pre, rack, n, c)
            && NextEdgeBefore(r.d, p, pre, e + 1, c) && !NextEdgeBefore(r.d, p, pre, e, c) <==>
            t in r.allowed[col] && CanTake(rack, r.blank, t)
            && FindsRight(r, Follow(r.d, e), r.d.edges[e].accepting, first, col + 1, pre + [t],
                          Take(rack, r.blank, t), n - 1, c)
  {
    var t := r.d.edges[e].tile;
    EdgeForIs(r.d, p, t, e);
    if |pre| < |c.tiles| {
      assert c.tiles[..|pre| + 1] == c.tiles[..|pre|] + [c.tiles[|pre|]];
      assert c.tiles[|pre|..][1..] == c.tiles[|pre| + 1..];
      var x := EdgeFor(r.d, p, c.tiles[|pre|]);
      if x.At? && x.i == e {
        assert c.tiles[|pre|] == t;
      }
    }
    if Continues(pre + [t], c.tiles) {
      assert c.tiles[|pre|] == c.tiles[..|pre| + 1][|pre|] == t;
      assert c.tiles[..|pre|] == c.tiles[..|pre| + 1][..|pre|] == pre;
    }
  }

  /** `found` lists, once each, what the rightward search is to find. */
  ghost predicate AllRight(found: seq<Cand>, r: Row, p: Ptr, accepting: bool, first: nat, col: nat,
                           pre: seq<Tile>, rack: seq<nat>, n: nat)
    requires |rack| == MAX_UNIQUE_TILES + 1
    requires r.blank < |rack| && col <= |r.line| == |r.allowed| && NodePtr(r.d, p)
  {
    && NoDup(found)
    && forall c :: c in found <==> FindsRight(r, p, accepting, first, col, pre, rack, n, c)
  }

  /** The same, of those that lay at least one more tile, on an edge of the node before `bound`. */
  ghost predicate AllRightBefore(found: seq<Cand>, r: Row, p: Ptr, accepting: bool, first: nat, col: nat,
                                 pre: seq<Tile>, rack: seq<nat>, n: nat, bound: nat)
    requires |rack| == MAX_UNIQUE_TILES + 1
    requires r.blank < |rack| && col <= |r.line| == |r.allowed| && NodePtr(r.d, p)
  {
    && NoDup(found)
    && forall c :: c in found <==>
         (FindsRight(r, p, accepting, first, col, pre, rack, n, c) && NextEdgeBefore(r.d, p, pre, bound, c))
  }

  ghost predicate AllRightMore(found: seq<Cand>, r: Row, p: Ptr, accepting: bool, first: nat, col: nat,
                               pre: seq<Tile>, rack: seq<nat>, n: nat)
    requires |rack| == MAX_UNIQUE_TILES + 1
    requires r.blank < |rack| && col <= |r.line| == |r.allowed| && NodePtr(r.d, p)
  {
    && NoDup(found)
    && forall c :: c in found <==>
         (FindsRight(r, p, accepting, first, col, pre, rack, n, c) && |pre| < |c.tiles|)
  }

  lemma NoneBeforeNode(r: Row, first: nat, accepting: bool, firstCol: nat, col: nat, pre: seq<Tile>, rack: Rack, n: nat)
    requires r.blank < |rack| && col <= |r.line| == |r.allowed| && IsStart(r.d.edges, first)
    ensures AllRightBefore([], r, At(first), accepting, firstCol, col, pre, rack, n, first)
  {
  }

  lemma JoinEdge(r: Row, first: nat, accepting: bool, firstCol: nat, col: nat, pre: seq<Tile>,
                 rack: Rack, n: nat, edge: nat, found: seq<Cand>, sub: seq<Cand>)
    requires r.blank < |rack| && col < |r.line| == |r.allowed| && r.line[col].Empty? && n > 0
    requires IsStart(r.d.edges, first) && InRun(r.d, first, edge)
    requires AllRightBefore(found, r, At(first), accepting, firstCol, col, pre, rack, n, edge)
    requires var t := r.d.edges[edge].tile;
             if t in r.allowed[col] && CanTake(rack, r.blank, t) then
               AllRight(sub, r, Follow(r.d, edge), r.d.edges[edge].accepting, firstCol, col + 1,
                        pre + [t], Take(rack, r.blank, t), n - 1)
             else sub == []
    ensures AllRightBefore(found + sub, r, At(first), accepting, firstCol, col, pre, rack, n, edge + 1)
  {
    hide FindsRight, CanTake;
    forall c {
      RightStep(r, At(first), accepting, firstCol, col, pre, rack, n, edge, c);
    }
    NoDupConcat(found, sub);
  }

  lemma AllEdgesDone(r: Row, first: nat, accepting: bool, firstCol: nat, col: nat, pre: seq<Tile>,
                     rack: Rack, n: nat, edge: nat, found: seq<Cand>)
    requires r.blank < |rack| && col < |r.line| == |r.allowed| && r.line[col].Empty?
    requires IsStart(r.d.edges, first) && InRun(r.d, first, edge) && r.d.edges[edge].last
    requires AllRightBefore(found, r, At(first), accepting, firstCol, col, pre, rack, n, edge + 1)
    ensures AllRightMore(found, r, At(first), accepting, firstCol, col, pre, rack, n)
  {
    forall c | FindsRight(r, At(first), accepting, firstCol, col, pre, rack, n, c) && |pre| < |c.tiles|
      ensures NextEdgeBefore(r.d, At(first), pre, edge + 1, c)
    {
      assert c.tiles[|pre|..][0] == c.tiles[|pre|];
    }
  }

  /** What the rightward search finds from a square, given what it finds beyond. */
  lemma RightSquare(r: Row, p: Ptr, accepting: bool, first: nat, col: nat, pre: seq<Tile>,
                    rack: Rack, n: nat, beyond: seq<Cand>)
    requires r.blank < |rack| && col <= |r.line| == |r.allowed| && NodePtr(r.d, p)
    ensures
      var all := beyond + if accepting then [Cand(first, pre)] else [];
      if col == |r.line| then
        beyond == [] ==> AllRight(all, r, p, accepting, first, col, pre, rack, n)
      else if r.line[col].Filled? then
        var e := EdgeFor(r.d, p, r.line[col].tile);
        if e.Null? then AllRight([], r, p, accepting, first, col, pre, rack, n)
        else AllRight(beyond, r, Follow(r.d, e.i), r.d.edges[e.i].accepting, first, col + 1, pre, rack, n)
             ==> AllRight(beyond, r, p, accepting, first, col, pre, rack, n)
      else
        (if p.At? && n > 0 then AllRightMore(beyond, r, p, accepting, first, col, pre, rack, n) else beyond == [])
        ==> AllRight(all, r, p, accepting, first, col, pre, rack, n)
  {
    hide FindsRight;
    forall c {
      RightCases(r, p, accepting, first, col, pre, rack, n, c);
    }
    if !(col < |r.line| && r.line[col].Filled?) && NoDup(beyond) && Cand(first, pre) !in beyond {
      NoDupConcat(beyond, if accepting then [Cand(first, pre)] else []);
    }
  }

  /** One more edge of a node, leftwards. */
  lemma LeftStep(r: Row, p: Ptr, limit: nat, first: nat, anchor: nat, pre: seq<Tile>,
                 rack: Rack, n: nat, e: nat, c: Cand)
    requires r.blank < |rack| && anchor <= |r.line| == |r.allowed| && NodePtr(r.d, p)
    requires n > 0 && limit > 0 && first > 0 && InNode(r.d, p, e)
    ensures var t := r.d.edges[e].tile;
            FindsLeft(r, p, limit, first, anchor, pre, rack, n, c) && c.first < first
            && NextEdgeBefore(r.d, p, pre, e + 1, c) && !NextEdgeBefore(r.d, p, pre, e, c) <==>
            CanTake(rack, r.blank, t)
            && FindsLeft(r, Follow(r.d, e), limit - 1, first - 1, anchor, pre + [t],
                         Take(rack, r.blank, t), n - 1, c)
  {
    var t := r.d.edges[e].tile;
    EdgeForIs(r.d, p, t, e);
    if |pre| < |c.tiles| {
      assert c.tiles[..|pre| + 1] == c.tiles[..|pre|] + [c.tiles[|pre|]];
      assert c.tiles[|pre|..][1..] == c.tiles[|pre| + 1..];
      var x := EdgeFor(r.d, p, c.tiles[|pre|]);
      if x.At? && x.i == e {
        assert c.tiles[|pre|] == t;
      }
    }
    if Continues(pre + [t], c.tiles) {
      assert c.tiles[|pre|] == c.tiles[..|pre| + 1][|pre|] == t;
      assert c.tiles[..|pre|] == c.tiles[..|pre| + 1][..|pre|] == pre;
    }
  }

  /** The number of bare squares between two columns. */
  function Bare(l: Line, f: nat, c: nat): nat
    requires f <= c <= |l|
    decreases c - f
  {
    if f == c then 0 else (if l[f].Empty? then 1 else 0) + Bare(l, f + 1, c)
  }

  lemma {:induction false} BareNext(l: Line, f: nat, c: nat)
    requires f <= c < |l|
    ensures Bare(l, f, c + 1) == Bare(l, f, c) + if l[c].Empty? then 1 else 0
    decreases c - f
  {
    if f < c {
      BareNext(l, f + 1, c);
    }
  }

  /** Tiles for which there is room all land. */
  lemma {:induction false} AllLand(l: Line, f: nat, c: nat, ts: seq<Tile>)
    requires f <= c <= |l| && |ts| <= Bare(l, f, c)
    ensures |Spread(l, f, ts)| == |ts|
    decreases c - f
  {
    if f < c && ts != [] {
      AllLand(l, f + 1, c, if l[f].Filled? then ts else ts[1..]);
    }
  }

  ghost function EntryFor(horizontal: bool, row: nat, r: Row, rack: Rack, c: Cand): Considered
    requires r.blank < |rack|
  {
    Considered(MoveInfo(horizontal, row, if c.first <= |r.line| then Spread(r.line, c.first, c.tiles) else []),
               BlanksFor(rack, r.blank, c.tiles))
  }

  ghost function EntriesFor(horizontal: bool, row: nat, r: Row, rack: Rack, cs: seq<Cand>): (es: seq<Considered>)
    requires r.blank < |rack|
    ensures |es| == |cs|
  {
    seq(|cs|, k requires 0 <= k < |cs| => EntryFor(horizontal, row, r, rack, cs[k]))
  }

  // The leftward search, in the same way.

  ghost predicate AllLeft(found: seq<Cand>, r: Row, p: Ptr, limit: nat, first: nat, anchor: nat,
                          pre: seq<Tile>, rack: seq<nat>, n: nat)
    requires |rack| == MAX_UNIQUE_TILES + 1
    requires r.blank < |rack| && anchor <= |r.line| == |r.allowed| && NodePtr(r.d, p)
  {
    && NoDup(found)
    && forall c :: c in found <==> FindsLeft(r, p, limit, first, anchor, pre, rack, n, c)
  }

  /** Of those: the ones that lay another tile leftwards, on an edge of the node before `bound`. */
  ghost predicate AllLeftBefore(found: seq<Cand>, r: Row, p: Ptr, limit: nat, first: nat, anchor: nat,
                                pre: seq<Tile>, rack: seq<nat>, n: nat, bound: nat)
    requires |rack| == MAX_UNIQUE_TILES + 1
    requires r.blank < |rack| && anchor <= |r.line| == |r.allowed| && NodePtr(r.d, p)
  {
    && NoDup(found)
    && forall c :: c in found <==>
         (FindsLeft(r, p, limit, first, anchor, pre, rack, n, c) && c.first < first
          && NextEdgeBefore(r.d, p, pre, bound, c))
  }

  lemma NoneLeftBefore(r: Row, node: nat, limit: nat, first: nat, anchor: nat, pre: seq<Tile>, rack: Rack, n: nat)
    requires r.blank < |rack| && anchor <= |r.line| == |r.allowed| && IsStart(r.d.edges, node)
    ensures AllLeftBefore([], r, At(node), limit, first, anchor, pre, rack, n, node)
  {
  }

  lemma JoinLeftEdge(r: Row, node: nat, limit: nat, first: nat, anchor: nat, pre: seq<Tile>,
                     rack: Rack, n: nat, edge: nat, found: seq<Cand>, sub: seq<Cand>)
    requires r.blank < |rack| && anchor <= |r.line| == |r.allowed| && n > 0 && limit > 0 && first > 0
    requires IsStart(r.d.edges, node) && InRun(r.d, node, edge)
    requires AllLeftBefore(found, r, At(node), limit, first, anchor, pre, rack, n, edge)
    requires var t := r.d.edges[edge].tile;
             if CanTake(rack, r.blank, t) then
               AllLeft(sub, r, Follow(r.d, edge), limit - 1, first - 1, anchor, pre + [t], Take(rack, r.blank, t), n - 1)
             else sub == []
    ensures AllLeftBefore(found + sub, r, At(node), limit, first, anchor, pre, rack, n, edge + 1)
  {
    hide FindsLeft, CanTake;
    forall c {
      LeftStep(r, At(node), limit, first, anchor, pre, rack, n, edge, c);
    }
    NoDupConcat(found, sub);
  }

  /** Everything found leftwards begins at this column or takes another edge. */
  lemma LeftCases(r: Row, p: Ptr, limit: nat, first: nat, anchor: nat, pre: seq<Tile>, rack: Rack, n: nat, c: Cand)
    requires r.blank < |rack| && anchor <= |r.line| == |r.allowed| && NodePtr(r.d, p)
    ensures var finds := FindsLeft(r, p, limit, first, anchor, pre, rack, n, c);
            && (finds && c.first == first <==> FindsRight(r, p, false, first, anchor, pre, rack, n, c))
            && (finds ==> c.first <= first)
            && (finds && c.first < first ==>
                  limit > 0 && n > 0 && p.At? && |pre| < |c.tiles| && EdgeFor(r.d, p, c.tiles[|pre|]).At?)
  {
    if |pre| < |c.tiles| {
      assert c.tiles[|pre|..][0] == c.tiles[|pre|];
    }
  }

  lemma LeftDone(r: Row, p: Ptr, limit: nat, first: nat, anchor: nat, pre: seq<Tile>, rack: Rack, n: nat,
                 right: seq<Cand>, left: seq<Cand>, edge: nat)
    requires r.blank < |rack| && anchor <= |r.line| == |r.allowed| && NodePtr(r.d, p)
    requires AllRight(right, r, p, false, first, anchor, pre, rack, n)
    requires if limit > 0 && n > 0 && p.At? then
               InRun(r.d, p.i, edge) && r.d.edges[edge].last
               && AllLeftBefore(left, r, p, limit, first, anchor, pre, rack, n, edge + 1)
             else left == []
    ensures AllLeft(right + left, r, p, limit, first, anchor, pre, rack, n)
  {
    hide FindsLeft, FindsRight;
    forall c {
      LeftCases(r, p, limit, first, anchor, pre, rack, n, c);
    }
    NoDupConcat(right, left);
  }

  lemma {:induction false} BareAll(l: Line, f: nat, c: nat)
    requires f <= c <= |l| && forall k :: f <= k < c ==> l[k].Empty?
    ensures Bare(l, f, c) == c - f
    decreases c - f
  {
    if f < c {
      BareAll(l, f + 1, c);
    }
  }

  lemma EntriesConcat(horizontal: bool, row: nat, r: Row, rack: Rack, xs: seq<Cand>, ys: seq<Cand>)
    requires r.blank < |rack|
    ensures EntriesFor(horizontal, row, r, rack, xs + ys) ==
            EntriesFor(horizontal, row, r, rack, xs) + EntriesFor(horizontal, row, r, rack, ys)
    ensures EntriesFor(horizontal, row, r, rack, []) == []
  {
  }

  function NoBits(): Crosscheck {
    Crosscheck(seq(32, _ => false), seq(32, _ => false))
  }

  function AllBits(): Crosscheck {
    Crosscheck(seq(32, _ => true), seq(32, _ => true))
  }

  /** The bits worked out for a square are exactly the tiles that fit there, and where any does the
      score kept for it is that of the neighbouring tiles. */
  ghost predicate CrosscheckRight(d: Dict, b: Board, horizontal: bool, values: seq<nat>, blank: nat,
                                  col: nat, row: nat, check: Crosscheck, score: nat)
    requires col < |b| && row < |b| && blank < |values|
  {
    && |check.low| == |check.high| == 32
    && (forall t: nat :: t < MAX_UNIQUE_TILES ==>
         (Contains(check, t) <==> Cell(b, horizontal, col, row).Empty? && CrossOk(d, b, horizontal, col, row, t)))
    && (forall t: nat :: t < MAX_UNIQUE_TILES && Contains(check, t) ==>
         score == NeighbourPoints(values, blank, ColumnOf(b, horizontal, col), row))
  }

  lemma AllFit(d: Dict, b: Board, horizontal: bool, values: seq<nat>, blank: nat, col: nat, row: nat)
    requires col < |b| && row < |b| && blank < |values| && Cell(b, horizontal, col, row).Empty?
    requires var l := ColumnOf(b, horizontal, col); LeftEdge(l, row) == row && RightEdge(l, row + 1) == row + 1
    ensures CrosscheckRight(d, b, horizontal, values, blank, col, row, AllBits(), 0)
  {
    hide CrossOk, Walk, LeftEdge, RightEdge, NeighbourPoints, Accepts, ColumnOf;
    NothingAdjoins(values, blank, ColumnOf(b, horizontal, col), row);
    forall t: nat {
      CrossOkByWalk(d, b, horizontal, col, row, t);
    }
  }

  lemma NothingAdjoins(values: seq<nat>, blank: nat, l: Line, row: nat)
    requires row < |l| && blank < |values| && LeftEdge(l, row) == row && RightEdge(l, row + 1) == row + 1
    ensures NeighbourPoints(values, blank, l, row) == 0
  {
  }

  lemma NoneFit(d: Dict, b: Board, horizontal: bool, values: seq<nat>, blank: nat, col: nat, row: nat, score: nat)
    requires col < |b| && row < |b| && blank < |values|
    requires Cell(b, horizontal, col, row).Empty? ==>
               var l := ColumnOf(b, horizontal, col); var s := LeftEdge(l, row);
               s < row && Walk(d, d.top, Letters(l, s, row)) == Null
    ensures CrosscheckRight(d, b, horizontal, values, blank, col, row, NoBits(), score)
  {
    hide CrossOk, Walk, InDict;
    forall t: nat {
      CrossOkByWalk(d, b, horizontal, col, row, t);
    }
  }

  lemma SomeFit(d: Dict, b: Board, horizontal: bool, values: seq<nat>, blank: nat, col: nat, row: nat,
                check: Crosscheck, score: nat)
    requires col < |b| && row < |b| && blank < |values| && Cell(b, horizontal, col, row).Empty?
    requires |check.low| == |check.high| == 32
    requires var l := ColumnOf(b, horizontal, col);
             var s, e := LeftEdge(l, row), RightEdge(l, row + 1);
             && (s < row || row + 1 < e)
             && score == Points(values, blank, l, s, row) + Points(values, blank, l, row + 1, e)
             && forall t: nat :: t < MAX_UNIQUE_TILES ==>
                  (Contains(check, t) <==> Accepts(d, Walk(d, d.top, Letters(l, s, row)), [t] + Letters(l, row + 1, e)))
    ensures CrosscheckRight(d, b, horizontal, values, blank, col, row, check, score)
  {
    hide Accepts, CrossOk, Walk;
    forall t: nat {
      CrossOkByWalk(d, b, horizontal, col, row, t);
    }
  }
}
