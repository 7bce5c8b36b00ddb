/** The check made of a packed word graph when it is opened (xwords4/common/dictnry.c, `checkSanity`), and
    how far it goes towards what the walkers need of the graph. */
module Sanity {
  import opened Dawg

  /** What the check makes sure of at an edge: a known tile, in order among its siblings, a child in the array. */
  predicate EdgePasses(edges: seq<Edge>, nFaces: nat, i: nat)
    requires i < |edges|
  {
    && edges[i].tile < nFaces && edges[i].child < |edges|
    && (0 < i && !edges[i - 1].last ==> edges[i - 1].tile <= edges[i].tile)
  }

  predicate EdgesPass(edges: seq<Edge>, nFaces: nat, n: nat)
    requires n <= |edges|
  {
    forall i :: 0 <= i < n ==> EdgePasses(edges, nFaces, i)
  }

  /** The last edge seems to end a run when it is marked so, and also when its tile is the first of all. */
  predicate EndSeems(edges: seq<Edge>) {
    edges != [] ==> edges[|edges| - 1].last || edges[|edges| - 1].tile == 0
  }

  method CheckSanity(edges: seq<Edge>, nFaces: nat) returns (passed: bool)
    ensures passed <==> EdgesPass(edges, nFaces, |edges|) && EndSeems(edges)
  {
    passed := true;
    var prevTile := 0;
    var ii := 0;
    while ii < |edges| && passed
      invariant ii <= |edges| && passed && EdgesPass(edges, nFaces, ii)
      invariant prevTile == if ii == 0 || edges[ii - 1].last then 0 else edges[ii - 1].tile
    {
      var tile := edges[ii].tile;
      if tile < prevTile || tile >= nFaces {
        assert !EdgePasses(edges, nFaces, ii);
        passed := false;
        break;
      }
      prevTile := tile;
      if edges[ii].child >= |edges| {
        assert !EdgePasses(edges, nFaces, ii);
        passed := false;
        break;
      }
      if edges[ii].last {
        prevTile := 0;
      }
      ii := ii + 1;
    }
    if passed {
      passed := prevTile == 0;
    }
  }

  /** Its tile is not that of the sibling before it, and its child index, if any, begins a run. */
  predicate EdgeSound(edges: seq<Edge>, i: nat)
    requires i < |edges|
  {
    && (0 < i && !edges[i - 1].last ==> edges[i - 1].tile != edges[i].tile)
    && (edges[i].child != 0 ==> IsStart(edges, edges[i].child))
  }

  predicate RunsSound(edges: seq<Edge>) {
    && (edges != [] ==> edges[|edges| - 1].last)
    && (forall i :: 0 <= i < |edges| ==> EdgeSound(edges, i))
  }

  predicate EdgeRanked(edges: seq<Edge>, rank: seq<nat>, i: nat)
    requires i < |edges| == |rank|
  {
    && 0 < rank[i] <= MAX_COLS_DICT
    && (0 < i && !edges[i - 1].last ==> rank[i] == rank[i - 1])
    && (0 < edges[i].child < |edges| ==> rank[edges[i].child] < rank[i])
  }

  /** The certificate that no path goes round or is longer than an iterator can hold. */
  ghost predicate Ranked(d: Graph) {
    |d.rank| == |d.edges| && forall i :: 0 <= i < |d.edges| ==> EdgeRanked(d.edges, d.rank, i)
  }

  predicate TilesKnown(edges: seq<Edge>, nFaces: nat) {
    forall i :: 0 <= i < |edges| ==> edges[i].tile < nFaces
  }

  lemma SoundPasses(d: Graph, nFaces: nat)
    requires WellFormed(d) && TilesKnown(d.edges, nFaces)
    ensures EdgesPass(d.edges, nFaces, |d.edges|) && EndSeems(d.edges) && RunsSound(d.edges) && Ranked(d)
  {
    forall i | 0 <= i < |d.edges|
      ensures EdgePasses(d.edges, nFaces, i) && EdgeSound(d.edges, i) && EdgeRanked(d.edges, d.rank, i)
    {
      assert EdgeOk(d, i);
      if 0 < i {
        assert EdgeOk(d, i - 1);
      }
    }
    if d.edges != [] {
      assert EdgeOk(d, |d.edges| - 1);
    }
  }

  lemma PassedIsSound(d: Graph, nFaces: nat)
    requires nFaces <= MAX_UNIQUE_TILES && (d.top.At? ==> IsStart(d.edges, d.top.i))
    requires EdgesPass(d.edges, nFaces, |d.edges|) && RunsSound(d.edges) && Ranked(d)
    ensures WellFormed(d)
  {
    forall i | 0 <= i < |d.edges| ensures EdgeOk(d, i) {
      assert EdgePasses(d.edges, nFaces, i) && EdgeSound(d.edges, i) && EdgeRanked(d.edges, d.rank, i);
      if i + 1 < |d.edges| {
        assert EdgePasses(d.edges, nFaces, i + 1) && EdgeSound(d.edges, i + 1) && EdgeRanked(d.edges, d.rank, i + 1);
      }
    }
  }

  /** Beyond what the check makes sure of, exactly this is left to be promised by whoever wrote the file. */
  lemma SoundIffPassedAnd(d: Graph, nFaces: nat)
    requires nFaces <= MAX_UNIQUE_TILES && (d.top.At? ==> IsStart(d.edges, d.top.i))
    ensures WellFormed(d) && TilesKnown(d.edges, nFaces) <==>
            EdgesPass(d.edges, nFaces, |d.edges|) && EndSeems(d.edges) && RunsSound(d.edges) && Ranked(d)
  {
    if WellFormed(d) && TilesKnown(d.edges, nFaces) {
      SoundPasses(d, nFaces);
    }
    if EdgesPass(d.edges, nFaces, |d.edges|) && RunsSound(d.edges) && Ranked(d) {
      PassedIsSound(d, nFaces);
      forall i | 0 <= i < |d.edges| ensures d.edges[i].tile < nFaces {
        assert EdgePasses(d.edges, nFaces, i);
      }
    }
  }

  /** The check lets through an array whose last run is not ended, if that run is of the first tile only. */
  lemma UnendedRunPasses(nFaces: nat, accepting: bool)
    requires 0 < nFaces
    ensures var edges := [Edge(0, accepting, false, 0)];
            && EdgesPass(edges, nFaces, 1) && EndSeems(edges)
            && forall top, rank: seq<nat> :: !WellFormed(Graph(edges, top, rank))
  {
    var edges := [Edge(0, accepting, false, 0)];
    forall top, rank: seq<nat> ensures !WellFormed(Graph(edges, top, rank)) {
      assert |rank| == 1 ==> !EdgeOk(Graph(edges, top, rank), 0);
    }
  }
}
