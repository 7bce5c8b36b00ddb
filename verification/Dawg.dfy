/** The packed word graph behind a dictionary: an array of edges in which each node is a run of
    sibling edges, ended by the edge marked `last`, and each edge may point at the run of its children.

    Modelled from xwords4/common/dictnry.c (edge access) and engine.c (`lookup`). */
module Dawg {

  /** Letters are small numbers; MAX_UNIQUE_TILES bounds them. */
  type Tile = nat

  type Word = seq<Tile>

  const MAX_UNIQUE_TILES: nat := 64

  /** The longest word an iterator has room for. */
  const MAX_COLS_DICT: nat := 15

  /** One decoded node of the array. `child` is zero when the edge leads nowhere. */
  datatype Edge = Edge(tile: Tile, accepting: bool, last: bool, child: nat)

  /** An edge pointer, possibly NULL. */
  datatype Ptr = Null | At(i: nat)

  /** `rank` certifies that the graph is acyclic: it falls from each edge to its children. */
  datatype Graph = Graph(edges: seq<Edge>, top: Ptr, ghost rank: seq<nat>)

  /** The first edge of a run of siblings. */
  predicate IsStart(edges: seq<Edge>, i: nat) {
    i < |edges| && (i == 0 || edges[i - 1].last)
  }

  ghost predicate EdgeOk(d: Graph, i: nat)
    requires i < |d.edges| == |d.rank|
  {
    var e := d.edges[i];
    && e.tile < MAX_UNIQUE_TILES
    && 0 < d.rank[i] <= MAX_COLS_DICT
    && (!e.last ==> i + 1 < |d.edges| && e.tile < d.edges[i + 1].tile && d.rank[i + 1] == d.rank[i])
    && (e.child != 0 ==> IsStart(d.edges, e.child) && d.rank[e.child] < d.rank[i])
  }

  /** What the file format promises: siblings strictly increasing, child indices at the start of a
      run, no cycle, and no word longer than an iterator can hold. */
  ghost predicate WellFormed(d: Graph) {
    && |d.rank| == |d.edges|
    && (d.top.At? ==> IsStart(d.edges, d.top.i))
    && forall i :: 0 <= i < |d.edges| ==> EdgeOk(d, i)
  }

  type Dict = d: Graph | WellFormed(d) witness Graph([], Null, [])

  /** A pointer that is NULL or leads to the start of a run. */
  predicate NodePtr(d: Dict, p: Ptr) {
    p.At? ==> IsStart(d.edges, p.i)
  }

  function Follow(d: Dict, i: nat): (p: Ptr)
    requires i < |d.edges|
    ensures NodePtr(d, p)
  {
    assert EdgeOk(d, i);
    if d.edges[i].child == 0 then Null else At(d.edges[i].child)
  }

  /** `j` is an edge of the run that contains `i`, at or after `i`. */
  predicate InRun(d: Dict, i: nat, j: nat) {
    i <= j < |d.edges| && forall k :: i <= k < j ==> !d.edges[k].last
  }

  /** `i` is one of the edges of the node at `p`. */
  predicate InNode(d: Dict, p: Ptr, i: nat) {
    p.At? && InRun(d, p.i, i)
  }

  lemma {:induction false} RunSorted(d: Dict, i: nat, j: nat)
    requires InRun(d, i, j) && i < j
    ensures d.edges[i].tile < d.edges[j].tile
    ensures d.rank[i] == d.rank[j]
    decreases j - i
  {
    assert EdgeOk(d, i);
    if i + 1 < j {
      RunSorted(d, i + 1, j);
    }
  }

  /** In a node, the tile decides the edge and edge order is tile order. */
  lemma NodeOrder(d: Dict, p: Ptr, i: nat, j: nat)
    requires InNode(d, p, i) && InNode(d, p, j)
    ensures i < j <==> d.edges[i].tile < d.edges[j].tile
    ensures i == j <==> d.edges[i].tile == d.edges[j].tile
    ensures d.rank[i] == d.rank[j]
  {
    if i < j {
      RunSorted(d, i, j);
    } else if j < i {
      RunSorted(d, j, i);
    }
  }

  /** The edge of the node at `p` that carries tile `t`. */
  method EdgeWithTile(d: Dict, p: nat, t: Tile) returns (r: Ptr)
    requires p < |d.edges|
    ensures r == EdgeFor(d, At(p), t)
  {
    var from := p;
    while true
      invariant InRun(d, p, from)
      invariant forall k :: p <= k < from ==> d.edges[k].tile != t
      decreases |d.edges| - from
    {
      var candidate := d.edges[from].tile;
      if candidate == t {
        r := At(from);
        EdgeForIs(d, At(p), t, from);
        break;
      }
      if d.edges[from].last {
        r := Null;
        break;
      }
      assert EdgeOk(d, from);
      from := from + 1;
    }
  }

  /** Declarative reading of EdgeWithTile: the one edge of the node with that tile, if any. */
  function EdgeFor(d: Dict, p: Ptr, t: Tile): (r: Ptr)
    ensures r.At? ==> InNode(d, p, r.i) && d.edges[r.i].tile == t
    ensures r.Null? ==> forall i: nat :: InNode(d, p, i) ==> d.edges[i].tile != t
  {
    if p.Null? || |d.edges| <= p.i then Null
    else EdgeForFrom(d, p.i, t)
  }

  function EdgeForFrom(d: Dict, i: nat, t: Tile): (r: Ptr)
    requires i < |d.edges|
    ensures r.At? ==> InRun(d, i, r.i) && d.edges[r.i].tile == t
    ensures r.Null? ==> forall j: nat :: InRun(d, i, j) ==> d.edges[j].tile != t
    decreases |d.edges| - i
  {
    assert EdgeOk(d, i);
    if d.edges[i].tile == t then At(i)
    else if d.edges[i].last then Null
    else EdgeForFrom(d, i + 1, t)
  }

  lemma EdgeForIs(d: Dict, p: Ptr, t: Tile, i: nat)
    requires InNode(d, p, i) && d.edges[i].tile == t
    ensures EdgeFor(d, p, t) == At(i)
  {
    NodeOrder(d, p, i, EdgeFor(d, p, t).i);
  }

  /** The words spelled by a path that starts at the node `p` and ends on an accepting edge. */
  predicate Accepts(d: Dict, p: Ptr, w: Word)
    decreases |w|
  {
    && w != []
    && var e := EdgeFor(d, p, w[0]);
    && e.At?
    && if |w| == 1 then d.edges[e.i].accepting else Accepts(d, Follow(d, e.i), w[1..])
  }

  /** Whole-dictionary membership. */
  predicate InDict(d: Dict, w: Word) {
    Accepts(d, d.top, w)
  }

  /** The pointer reached by walking `w` from `p`; NULL as soon as a letter is missing. */
  function Walk(d: Dict, p: Ptr, w: Word): (q: Ptr)
    requires NodePtr(d, p)
    ensures NodePtr(d, q)
    decreases |w|
  {
    if w == [] then p
    else
      var e := EdgeFor(d, p, w[0]);
      if e.Null? then Null else Walk(d, Follow(d, e.i), w[1..])
  }

  /** Walking a prefix first leaves exactly the continuations of that prefix. */
  lemma {:induction false} AcceptsAfterWalk(d: Dict, p: Ptr, u: Word, v: Word)
    requires NodePtr(d, p) && v != []
    ensures Accepts(d, p, u + v) <==> Accepts(d, Walk(d, p, u), v)
    decreases |u|
  {
    if u == [] {
      assert u + v == v;
    } else {
      assert (u + v)[0] == u[0] && (u + v)[1..] == u[1..] + v;
      var e := EdgeFor(d, p, u[0]);
      if e.At? {
        AcceptsAfterWalk(d, Follow(d, e.i), u[1..], v);
      }
    }
  }

  /** Words of the dictionary fit in an iterator. */
  lemma {:induction false} AcceptedLength(d: Dict, p: Ptr, w: Word)
    requires NodePtr(d, p) && Accepts(d, p, w)
    ensures |w| <= d.rank[p.i] <= MAX_COLS_DICT
    decreases |w|
  {
    var e := EdgeFor(d, p, w[0]);
    assert EdgeOk(d, p.i) && EdgeOk(d, e.i);
    NodeOrder(d, p, p.i, e.i);
    if |w| > 1 {
      AcceptedLength(d, Follow(d, e.i), w[1..]);
    }
  }

  /** Dictionary lookup as the move generator does it: walk the letters of `buf` from the node at
      `edge`, accepting only on the last one. */
  method Lookup(d: Dict, edge: Ptr, buf: Word) returns (found: bool)
    requires NodePtr(d, edge) && buf != []
    ensures found == Accepts(d, edge, buf)
  {
    found := false;
    var p := edge;
    var tileIndex := 0;
    while p != Null
      invariant NodePtr(d, p) && 0 <= tileIndex < |buf| && !found
      invariant Accepts(d, edge, buf) == Accepts(d, p, buf[tileIndex..])
      decreases |buf| - tileIndex
    {
      var e := EdgeWithTile(d, p.i, buf[tileIndex]);
      if e == Null {
        break;
      }
      tileIndex := tileIndex + 1;
      if tileIndex == |buf| {
        found := d.edges[e.i].accepting;
        break;
      }
      assert buf[tileIndex - 1..][1..] == buf[tileIndex..];
      p := Follow(d, e.i);
    }
  }
}
