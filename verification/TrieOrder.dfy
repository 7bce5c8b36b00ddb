/** The order in which an iterator meets the words of a dictionary, and what lies between two of
    them. Paths of edge indices stand for words: inside a node, index order is tile order. */
module TrieOrder {
  import opened Dawg

  type Path = seq<nat>

  /** The node that the k-th edge of a path belongs to. */
  function NodeOf(d: Dict, p: Path, k: nat): (q: Ptr)
    requires k <= |p|
    requires forall i :: 0 <= i < k ==> p[i] < |d.edges|
    ensures NodePtr(d, q)
  {
    if k == 0 then d.top else Follow(d, p[k - 1])
  }

  predicate Linked(d: Dict, p: Path, k: nat)
    requires k < |p| && forall i :: 0 <= i < |p| ==> p[i] < |d.edges|
  {
    InNode(d, NodeOf(d, p, k), p[k])
  }

  /** A path from the top node: each edge belongs to the node its predecessor leads to. */
  predicate IsPath(d: Dict, p: Path) {
    && (forall k :: 0 <= k < |p| ==> p[k] < |d.edges|)
    && (forall k {:trigger Linked(d, p, k)} :: 0 <= k < |p| ==> Linked(d, p, k))
  }

  function WordOf(d: Dict, p: Path): (w: Word)
    requires forall k :: 0 <= k < |p| ==> p[k] < |d.edges|
    ensures |w| == |p|
  {
    seq(|p|, k requires 0 <= k < |p| => d.edges[p[k]].tile)
  }

  /** A path that spells a word whose length is within the iterator's limits. */
  predicate IsEntry(d: Dict, min: nat, max: nat, p: Path) {
    p != [] && IsPath(d, p) && d.edges[p[|p| - 1]].accepting && min <= |p| <= max
  }

  /** How far two sequences agree. */
  function Agree(p: seq<nat>, q: seq<nat>): (k: nat)
    ensures k <= |p| && k <= |q| && p[..k] == q[..k]
    ensures k < |p| && k < |q| ==> p[k] != q[k]
  {
    if p == [] || q == [] || p[0] != q[0] then 0
    else
      var k := Agree(p[1..], q[1..]);
      assert p[..k + 1] == [p[0]] + p[1..][..k];
      assert q[..k + 1] == [q[0]] + q[1..][..k];
      k + 1
  }

  /** Every extension of `p` comes before `q`. */
  predicate Beyond(p: seq<nat>, q: seq<nat>) {
    var k := Agree(p, q);
    k < |p| && k < |q| && p[k] < q[k]
  }

  /** Dictionary order on letter or edge sequences: a proper prefix comes first. */
  predicate Less(p: seq<nat>, q: seq<nat>) {
    var k := Agree(p, q);
    k < |q| && (k == |p| || p[k] < q[k])
  }

  lemma AgreeIs(p: seq<nat>, q: seq<nat>, k: nat)
    requires k <= |p| && k <= |q| && p[..k] == q[..k]
    requires k == |p| || k == |q| || p[k] != q[k]
    ensures Agree(p, q) == k
  {
    var j := Agree(p, q);
    assert forall i :: 0 <= i < k ==> p[..k][i] == q[..k][i];
    assert forall i :: 0 <= i < j ==> p[..j][i] == q[..j][i];
  }

  lemma LessTotal(p: seq<nat>, q: seq<nat>)
    ensures p == q || Less(p, q) || Less(q, p)
    ensures Less(p, q) ==> p != q && !Less(q, p)
  {
    AgreeIs(q, p, Agree(p, q));
  }

  lemma LessTransitive(p: seq<nat>, q: seq<nat>, r: seq<nat>)
    requires Less(p, q) && Less(q, r)
    ensures Less(p, r)
  {
    var j, k := Agree(p, q), Agree(q, r);
    var m := if j < k then j else k;
    assert p[..m] == p[..j][..m] == q[..m] == q[..k][..m] == r[..m];
    if j < k {
      assert q[j] == q[..k][j] == r[..k][j] == r[j];
    } else if k < j {
      assert p[k] == p[..j][k] == q[..j][k] == q[k];
    }
    AgreeIs(p, r, m);
  }

  // What one step of an iterator skips. In each lemma `q` stands for any other path of the graph.

  /** Going down to the first child of the last edge passes nothing but that child. */
  lemma AfterDescend(d: Dict, p: Path, q: Path)
    requires p != [] && IsPath(d, p) && IsPath(d, q) && Less(p, q)
    requires Follow(d, p[|p| - 1]).At?
    ensures var p' := p + [Follow(d, p[|p| - 1]).i]; q == p' || Less(p', q)
  {
    var n := |p|;
    var p' := p + [Follow(d, p[n - 1]).i];
    var k := Agree(p, q);
    if k == n {
      assert q[..n] == p && q[n - 1] == p[n - 1] && Linked(d, q, n);
      if q[n] == p'[n] {
        assert q[..n + 1] == p';
        AgreeIs(p', q, n + 1);
      } else {
        AgreeIs(p', q, n);
      }
    } else {
      assert p'[..k] == q[..k] && p'[k] == p[k];
      AgreeIs(p', q, k);
    }
  }

  /** What comes after `p` without extending it comes after every extension of it. */
  lemma BeyondUnlessExtends(p: Path, q: Path)
    requires Less(p, q) && !(|p| <= |q| && q[..|p|] == p)
    ensures Beyond(p, q)
  {
  }

  /** An edge that ends its node may be dropped. */
  lemma AfterDrop(d: Dict, p: Path, q: Path)
    requires p != [] && IsPath(d, p) && IsPath(d, q) && Beyond(p, q)
    requires d.edges[p[|p| - 1]].last
    ensures Beyond(p[..|p| - 1], q)
  {
    var n := |p|;
    var k := Agree(p, q);
    SameNode(d, p, q, k);
    assert k != n - 1;
    assert p[..n - 1][..k] == q[..k];
    AgreeIs(p[..n - 1], q, k);
  }

  lemma SameNode(d: Dict, p: Path, q: Path, k: nat)
    requires IsPath(d, p) && IsPath(d, q) && k < |p| && k < |q| && p[..k] == q[..k]
    ensures InNode(d, NodeOf(d, p, k), p[k]) && InNode(d, NodeOf(d, p, k), q[k])
  {
    if k > 0 {
      assert p[..k][k - 1] == q[..k][k - 1];
    }
    assert Linked(d, p, k) && Linked(d, q, k);
  }

  /** Moving on to the next sibling passes nothing but that sibling. */
  lemma AfterSibling(d: Dict, p: Path, q: Path)
    requires p != [] && IsPath(d, p) && IsPath(d, q) && Beyond(p, q)
    requires !d.edges[p[|p| - 1]].last
    ensures var p' := p[..|p| - 1] + [p[|p| - 1] + 1]; q == p' || Less(p', q)
  {
    var n := |p|;
    var p' := p[..n - 1] + [p[n - 1] + 1];
    var k := Agree(p, q);
    SameNode(d, p, q, k);
    assert p'[..k] == p[..k] == q[..k];
    if k == n - 1 && q[k] == p'[k] {
      assert q[..n] == p';
      AgreeIs(p', q, n);
    } else {
      AgreeIs(p', q, k);
    }
  }

  /** Backing up from the first edge of a node passes nothing but the parent. */
  lemma BeforeParent(d: Dict, p: Path, q: Path)
    requires p != [] && IsPath(d, p) && IsPath(d, q) && Less(q, p)
    requires IsStart(d.edges, p[|p| - 1])
    ensures var p' := p[..|p| - 1]; q == p' || Less(q, p')
  {
    var n := |p|;
    var k := Agree(q, p);
    if k < |q| {
      SameNode(d, p, q, k);
      assert k != n - 1;
    }
    assert q[..k] == p[..n - 1][..k];
    AgreeIs(q, p[..n - 1], k);
  }

  /** Backing up to the previous sibling passes nothing but extensions of that sibling. */
  lemma BeforeSibling(d: Dict, p: Path, q: Path)
    requires p != [] && IsPath(d, p) && IsPath(d, q) && Less(q, p)
    requires !IsStart(d.edges, p[|p| - 1])
    ensures var p' := p[..|p| - 1] + [p[|p| - 1] - 1];
            q == p' || Less(q, p') || (|p| < |q| && q[..|p|] == p')
  {
    var n := |p|;
    var p' := p[..n - 1] + [p[n - 1] - 1];
    var k := Agree(q, p);
    assert q[..k] == p[..k] == p'[..k];
    if k < |q| {
      SameNode(d, p, q, k);
    }
    if k == n - 1 && k < |q| && q[k] == p'[k] {
      assert q[..n] == p';
    } else {
      AgreeIs(q, p', k);
    }
  }

  /** A path that follows last edges down from position `m` is not passed by anything that shares
      its first `m` edges, except its own extensions. */
  lemma BeforeLast(d: Dict, p: Path, q: Path, m: nat)
    requires IsPath(d, p) && IsPath(d, q) && m <= |p| && m <= |q| && p[..m] == q[..m]
    requires forall k :: m <= k < |p| ==> d.edges[p[k]].last
    ensures q == p || Less(q, p) || (|p| < |q| && q[..|p|] == p)
  {
    var k := Agree(q, p);
    assert forall i :: 0 <= i < m ==> q[..m][i] == p[..m][i];
    if k < |p| && k < |q| {
      SameNode(d, p, q, k);
    }
  }

  // Paths against words.

  /** A path fits in an iterator's buffer: rank falls along it. */
  lemma {:induction false} PathLength(d: Dict, p: Path)
    requires IsPath(d, p)
    ensures |p| <= MAX_COLS_DICT
    ensures p != [] ==> d.rank[p[|p| - 1]] + |p| <= MAX_COLS_DICT + 1
  {
    if p != [] {
      var n := |p|;
      PathPrefix(d, p, n - 1);
      PathLength(d, p[..n - 1]);
      assert Linked(d, p, n - 1);
      var s := NodeOf(d, p, n - 1);
      assert EdgeOk(d, p[n - 1]) && EdgeOk(d, s.i);
      NodeOrder(d, s, s.i, p[n - 1]);
      if n > 1 {
        assert EdgeOk(d, p[n - 2]);
      }
    }
  }

  lemma PathPrefix(d: Dict, p: Path, n: nat)
    requires IsPath(d, p) && n <= |p|
    ensures IsPath(d, p[..n])
  {
    forall k | 0 <= k < n
      ensures Linked(d, p[..n], k)
    {
      assert Linked(d, p, k);
    }
  }

  lemma PathExtend(d: Dict, p: Path, i: nat)
    requires IsPath(d, p) && InNode(d, NodeOf(d, p, |p|), i)
    ensures IsPath(d, p + [i])
  {
    forall k | 0 <= k < |p| + 1
      ensures Linked(d, p + [i], k)
    {
      if k < |p| {
        assert Linked(d, p, k);
      }
    }
  }

  /** Path order is word order. */
  lemma PathOrderIsWordOrder(d: Dict, p: Path, q: Path)
    requires IsPath(d, p) && IsPath(d, q)
    ensures Less(p, q) <==> Less(WordOf(d, p), WordOf(d, q))
    ensures p == q <==> WordOf(d, p) == WordOf(d, q)
  {
    var u, v := WordOf(d, p), WordOf(d, q);
    var k := Agree(p, q);
    assert forall i :: 0 <= i < k ==> p[..k][i] == q[..k][i];
    assert u[..k] == v[..k];
    if k < |p| && k < |q| {
      SameNode(d, p, q, k);
      NodeOrder(d, NodeOf(d, p, k), p[k], q[k]);
    } else {
      assert p[..k] == p || q[..k] == q;
    }
    AgreeIs(u, v, k);
  }

  /** The word of a path is accepted exactly when the path ends on an accepting edge. */
  lemma {:induction false} PathAccepts(d: Dict, p: Path, k: nat)
    requires IsPath(d, p) && k < |p|
    ensures Accepts(d, NodeOf(d, p, k), WordOf(d, p)[k..]) <==> d.edges[p[|p| - 1]].accepting
    decreases |p| - k
  {
    assert Linked(d, p, k);
    var w := WordOf(d, p)[k..];
    EdgeForIs(d, NodeOf(d, p, k), w[0], p[k]);
    assert Accepts(d, NodeOf(d, p, k), w) ==
           if |w| == 1 then d.edges[p[k]].accepting else Accepts(d, Follow(d, p[k]), w[1..]);
    if k + 1 < |p| {
      assert w[1..] == WordOf(d, p)[k + 1..];
      PathAccepts(d, p, k + 1);
    }
  }

  /** Every accepted continuation of a path is spelled by a longer path. */
  lemma {:induction false} AcceptedHasPath(d: Dict, p: Path, w: Word) returns (q: Path)
    requires IsPath(d, p) && Accepts(d, NodeOf(d, p, |p|), w)
    ensures IsPath(d, q) && |q| == |p| + |w| && WordOf(d, q) == WordOf(d, p) + w
    ensures d.edges[q[|q| - 1]].accepting
    decreases |w|
  {
    var e := EdgeFor(d, NodeOf(d, p, |p|), w[0]);
    PathExtend(d, p, e.i);
    q := p + [e.i];
    assert WordOf(d, q) == WordOf(d, p) + [w[0]];
    if |w| > 1 {
      q := AcceptedHasPath(d, q, w[1..]);
      assert [w[0]] + w[1..] == w;
    }
  }
}
