/** The dictionary iterator of xwords4/common/dictiter.c: a buffer holding the edges of the current
    word, stepped forwards and backwards in place. */
module DictIter {
  import opened Dawg
  import opened TrieOrder

  /** The words an iterator with these length limits may stop on. */
  predicate IsWord(d: Dict, min: nat, max: nat, w: Word) {
    InDict(d, w) && min <= |w| <= max
  }

  lemma EntrySpellsWord(d: Dict, min: nat, max: nat, p: Path)
    requires IsPath(d, p)
    ensures IsEntry(d, min, max, p) <==> IsWord(d, min, max, WordOf(d, p))
  {
    if p != [] {
      PathAccepts(d, p, 0);
      assert WordOf(d, p)[0..] == WordOf(d, p);
    }
  }

  /** `r` is the first entry after `p`. */
  ghost predicate IsNext(d: Dict, min: nat, max: nat, p: Path, r: Path) {
    && IsEntry(d, min, max, r) && Less(p, r)
    && forall q :: IsEntry(d, min, max, q) && Less(p, q) ==> q == r || Less(r, q)
  }

  ghost predicate NoneAfter(d: Dict, min: nat, max: nat, p: Path) {
    forall q :: IsEntry(d, min, max, q) ==> !Less(p, q)
  }

  /** `r` is the last entry before `p`. */
  ghost predicate IsPrev(d: Dict, min: nat, max: nat, p: Path, r: Path) {
    && IsEntry(d, min, max, r) && Less(r, p)
    && forall q :: IsEntry(d, min, max, q) && Less(q, p) ==> q == r || Less(q, r)
  }

  ghost predicate NoneBefore(d: Dict, min: nat, max: nat, p: Path) {
    forall q :: IsEntry(d, min, max, q) ==> !Less(q, p)
  }

  // Progress: the number of graph paths that come after a path.

  ghost function RunSize(d: Dict, i: nat): nat
    requires i < |d.edges|
    decreases d.rank[i], |d.edges| - i
  {
    1 + Below(d, i) + Beside(d, i)
  }

  ghost function Below(d: Dict, i: nat): nat
    requires i < |d.edges|
    decreases d.rank[i], |d.edges| - i, 0
  {
    assert EdgeOk(d, i);
    if d.edges[i].child == 0 then 0 else RunSize(d, d.edges[i].child)
  }

  ghost function Beside(d: Dict, i: nat): nat
    requires i < |d.edges|
    decreases d.rank[i], |d.edges| - i, 0
  {
    assert EdgeOk(d, i);
    if d.edges[i].last then 0 else RunSize(d, i + 1)
  }

  ghost function BesideAll(d: Dict, p: Path): nat
    requires IsPath(d, p)
  {
    if p == [] then 0
    else
      PathPrefix(d, p, |p| - 1);
      Beside(d, p[|p| - 1]) + BesideAll(d, p[..|p| - 1])
  }

  ghost function Remaining(d: Dict, p: Path): nat
    requires IsPath(d, p)
  {
    if p == [] then 0 else BesideAll(d, p) + Below(d, p[|p| - 1])
  }

  lemma BesideAndBelow(d: Dict, p: Path)
    requires IsPath(d, p)
    ensures BesideAll(d, p) <= Remaining(d, p) && Remaining(d, []) == 0
  {
  }

  /** No path has more after it than there are paths in all. */
  lemma {:induction false} RemainingBound(d: Dict, p: Path)
    requires IsPath(d, p) && p != []
    ensures d.top.At? && Remaining(d, p) < RunSize(d, d.top.i)
  {
    var n := |p|;
    PathPrefix(d, p, n - 1);
    assert Linked(d, p, n - 1);
    assert Linked(d, p, 0);
    RunSizeFalls(d, NodeOf(d, p, n - 1).i, p[n - 1]);
    assert Remaining(d, p) == BesideAll(d, p[..n - 1]) + RunSize(d, p[n - 1]) - 1;
    if n > 1 {
      RemainingBound(d, p[..n - 1]);
    }
  }

  lemma {:induction false} RunSizeFalls(d: Dict, i: nat, j: nat)
    requires InRun(d, i, j)
    ensures RunSize(d, j) <= RunSize(d, i)
    decreases j - i
  {
    if i < j {
      assert EdgeOk(d, i);
      RunSizeFalls(d, i + 1, j);
    }
  }

  // One search for the next word, as the set of entries still ahead of it. `s` is where it began
  // and `p` where it is.

  ghost predicate FromOn(s: Path, p: Path) {
    p == s || Less(s, p)
  }

  /** Everything sought comes after `p`. */
  ghost predicate Ahead(d: Dict, min: nat, max: nat, s: Path, p: Path) {
    forall q :: IsEntry(d, min, max, q) && Less(s, q) ==> p != [] && Less(p, q)
  }

  /** Everything sought comes after every extension of `p`. */
  ghost predicate Passed(d: Dict, min: nat, max: nat, s: Path, p: Path) {
    forall q :: IsEntry(d, min, max, q) && Less(s, q) ==> Beyond(p, q)
  }

  /** `p` comes after the start and nothing sought lies between. */
  ghost predicate Reached(d: Dict, min: nat, max: nat, s: Path, p: Path) {
    && p != [] && Less(s, p)
    && forall q :: IsEntry(d, min, max, q) && Less(s, q) ==> q == p || Less(p, q)
  }

  lemma SearchStarts(d: Dict, min: nat, max: nat, s: Path)
    ensures FromOn(s, s)
    ensures s != [] ==> Ahead(d, min, max, s, s)
    ensures s != [] && Ahead(d, min, max, s, []) ==> NoneAfter(d, min, max, s)
    ensures Passed(d, min, max, s, []) ==> Ahead(d, min, max, s, [])
  {
  }

  lemma WhenReached(d: Dict, min: nat, max: nat, s: Path, p: Path)
    requires Reached(d, min, max, s, p)
    ensures FromOn(s, p)
    ensures IsEntry(d, min, max, p) ==> IsNext(d, min, max, s, p)
    ensures !IsEntry(d, min, max, p) ==> Ahead(d, min, max, s, p)
  {
  }

  lemma StepDown(d: Dict, min: nat, max: nat, s: Path, p: Path)
    requires p != [] && IsPath(d, p) && Follow(d, p[|p| - 1]).At?
    requires FromOn(s, p) && Ahead(d, min, max, s, p)
    ensures var p' := p + [Follow(d, p[|p| - 1]).i];
            && IsPath(d, p') && |p'| <= MAX_COLS_DICT && Remaining(d, p') < Remaining(d, p)
            && Reached(d, min, max, s, p')
  {
    var p' := p + [Follow(d, p[|p| - 1]).i];
    hide Less, IsPath, Remaining, BesideAll, IsEntry;
    ChildRemains(d, p);
    assert p'[..|p'| - 1] == p;
    ParentBefore(p');
    if s != p {
      LessTransitive(s, p, p');
    }
    forall q | IsEntry(d, min, max, q) && Less(s, q)
      ensures q == p' || Less(p', q)
    {
      EntryIsPath(d, min, max, q);
      AfterDescend(d, p, q);
    }
  }

  lemma ChildRemains(d: Dict, p: Path)
    requires p != [] && IsPath(d, p) && Follow(d, p[|p| - 1]).At?
    ensures var p' := p + [Follow(d, p[|p| - 1]).i];
            IsPath(d, p') && |p'| <= MAX_COLS_DICT && Remaining(d, p') < Remaining(d, p)
  {
    var i := Follow(d, p[|p| - 1]).i;
    var p' := p + [i];
    PathExtend(d, p, i);
    PathLength(d, p');
    assert p'[..|p|] == p;
    assert BesideAll(d, p') == Beside(d, i) + BesideAll(d, p);
    assert Below(d, p[|p| - 1]) == RunSize(d, i) == 1 + Below(d, i) + Beside(d, i);
  }

  lemma StepPast(d: Dict, min: nat, max: nat, s: Path, p: Path)
    requires p != [] && IsPath(d, p) && Ahead(d, min, max, s, p)
    requires |p| > max || Follow(d, p[|p| - 1]).Null?
    ensures Passed(d, min, max, s, p)
  {
    forall q | IsEntry(d, min, max, q) && Less(s, q)
      ensures Beyond(p, q)
    {
      assert |p| <= |q| && q[..|p|] == p ==> q[|p| - 1] == p[|p| - 1];
      if |p| < |q| {
        assert Linked(d, q, |p|);
      }
      LessTotal(p, q);
      BeyondUnlessExtends(p, q);
    }
  }

  lemma StepUp(d: Dict, min: nat, max: nat, s: Path, p: Path)
    requires p != [] && IsPath(d, p) && d.edges[p[|p| - 1]].last && Passed(d, min, max, s, p)
    ensures var p' := p[..|p| - 1];
            IsPath(d, p') && BesideAll(d, p') == BesideAll(d, p) && Passed(d, min, max, s, p')
  {
    PathPrefix(d, p, |p| - 1);
    forall q | IsEntry(d, min, max, q) && Less(s, q)
      ensures Beyond(p[..|p| - 1], q)
    {
      AfterDrop(d, p, q);
    }
  }

  lemma SiblingPath(d: Dict, p: Path)
    requires p != [] && IsPath(d, p) && !d.edges[p[|p| - 1]].last
    ensures var p' := p[|p| - 1 := p[|p| - 1] + 1];
            IsPath(d, p') && Remaining(d, p') < BesideAll(d, p)
  {
    var n := |p|;
    var p' := p[n - 1 := p[n - 1] + 1];
    PathPrefix(d, p, n - 1);
    assert Linked(d, p, n - 1) && EdgeOk(d, p[n - 1]);
    PathExtend(d, p[..n - 1], p[n - 1] + 1);
    assert p' == p[..n - 1] + [p[n - 1] + 1] && p'[..n - 1] == p[..n - 1];
    assert BesideAll(d, p') == Beside(d, p[n - 1] + 1) + BesideAll(d, p[..n - 1]);
    assert Beside(d, p[n - 1]) == RunSize(d, p[n - 1] + 1);
  }

  lemma LessSibling(s: Path, was: Path, p: Path)
    requires FromOn(s, was) && p != [] && |p| <= |was| && p == was[..|p|]
    ensures Less(s, p[|p| - 1 := p[|p| - 1] + 1])
  {
    var n := |p|;
    var p' := p[n - 1 := p[n - 1] + 1];
    assert p'[..n - 1] == was[..n - 1];
    AgreeIs(was, p', n - 1);
    if s != was {
      LessTransitive(s, was, p');
    }
  }

  lemma StepOver(d: Dict, min: nat, max: nat, s: Path, was: Path, p: Path)
    requires p != [] && |p| <= |was| && p == was[..|p|]
    requires IsPath(d, p) && !d.edges[p[|p| - 1]].last
    requires FromOn(s, was) && Passed(d, min, max, s, p)
    ensures var p' := p[|p| - 1 := p[|p| - 1] + 1];
            && IsPath(d, p') && Remaining(d, p') < BesideAll(d, p)
            && Reached(d, min, max, s, p')
  {
    SiblingPath(d, p);
    LessSibling(s, was, p);
    forall q | IsEntry(d, min, max, q) && Less(s, q)
      ensures var p' := p[|p| - 1 := p[|p| - 1] + 1]; q == p' || Less(p', q)
    {
      AfterSibling(d, p, q);
      assert p[|p| - 1 := p[|p| - 1] + 1] == p[..|p| - 1] + [p[|p| - 1] + 1];
    }
  }

  // The same for one search backwards.

  ghost predicate BackFrom(s: Path, p: Path) {
    p == s || Less(p, s)
  }

  /** Everything sought comes before `p`. */
  ghost predicate Behind(d: Dict, min: nat, max: nat, s: Path, p: Path) {
    forall q :: IsEntry(d, min, max, q) && Less(q, s) ==> Less(q, p)
  }

  /** `p` comes before the start and nothing sought lies between. */
  ghost predicate ReachedBack(d: Dict, min: nat, max: nat, s: Path, p: Path) {
    && Less(p, s)
    && forall q :: IsEntry(d, min, max, q) && Less(q, s) ==> q == p || Less(q, p)
  }

  lemma BackSearchStarts(d: Dict, min: nat, max: nat, s: Path)
    ensures BackFrom(s, s) && Behind(d, min, max, s, s)
    ensures Behind(d, min, max, s, []) ==> NoneBefore(d, min, max, s)
  {
  }

  lemma WhenReachedBack(d: Dict, min: nat, max: nat, s: Path, p: Path)
    requires ReachedBack(d, min, max, s, p)
    ensures BackFrom(s, p)
    ensures IsEntry(d, min, max, p) ==> IsPrev(d, min, max, s, p)
    ensures !IsEntry(d, min, max, p) ==> Behind(d, min, max, s, p)
  {
  }

  lemma BackUp(d: Dict, min: nat, max: nat, s: Path, p: Path)
    requires p != [] && IsPath(d, p) && IsStart(d.edges, p[|p| - 1])
    requires BackFrom(s, p) && Behind(d, min, max, s, p)
    ensures var p' := p[..|p| - 1];
            && IsPath(d, p') && ReachedBack(d, min, max, s, p')
            && (p' != [] ==> Remaining(d, p) < Remaining(d, p'))
  {
    hide Less, IsPath, Remaining, BesideAll, IsEntry, IsStart;
    var n := |p|;
    var p' := p[..n - 1];
    BackUpRemains(d, p);
    ParentBefore(p);
    if s != p {
      LessTransitive(p', p, s);
    }
    forall q | IsEntry(d, min, max, q) && Less(q, s)
      ensures q == p' || Less(q, p')
    {
      EntryIsPath(d, min, max, q);
      BeforeParent(d, p, q);
    }
  }

  lemma ParentBefore(p: Path)
    requires p != []
    ensures Less(p[..|p| - 1], p)
  {
    assert p[..|p| - 1][..|p| - 1] == p[..|p| - 1];
    AgreeIs(p[..|p| - 1], p, |p| - 1);
  }

  lemma BackUpRemains(d: Dict, p: Path)
    requires p != [] && IsPath(d, p) && IsStart(d.edges, p[|p| - 1])
    ensures var p' := p[..|p| - 1];
            IsPath(d, p') && (p' != [] ==> Remaining(d, p) < Remaining(d, p'))
  {
    var n := |p|;
    var p' := p[..n - 1];
    PathPrefix(d, p, n - 1);
    assert Linked(d, p, n - 1);
    assert NodeOf(d, p, n - 1).i == p[n - 1];
    if n > 1 {
      assert Remaining(d, p') == BesideAll(d, p') + RunSize(d, p[n - 1]);
      assert BesideAll(d, p) == Beside(d, p[n - 1]) + BesideAll(d, p');
    }
  }

  /** The path that takes the last edge wherever it can from position `m` on, as far as the
      length limit lets it. */
  ghost predicate Deepest(d: Dict, max: nat, r: Path, m: nat) {
    && IsPath(d, r) && m < |r|
    && (forall k :: m < k < |r| ==> d.edges[r[k]].last)
    && (Follow(d, r[|r| - 1]).Null? || |r| >= max)
  }

  lemma {:induction false} BesideGrows(d: Dict, r: Path, m: nat)
    requires IsPath(d, r) && m <= |r|
    ensures IsPath(d, r[..m]) && BesideAll(d, r[..m]) <= BesideAll(d, r)
    decreases |r|
  {
    PathPrefix(d, r, m);
    if m < |r| {
      PathPrefix(d, r, |r| - 1);
      BesideGrows(d, r[..|r| - 1], m);
      assert r[..|r| - 1][..m] == r[..m];
    } else {
      assert r[..m] == r;
    }
  }

  lemma PreviousSiblingPath(d: Dict, p: Path)
    requires p != [] && IsPath(d, p) && !IsStart(d.edges, p[|p| - 1])
    ensures var p' := p[|p| - 1 := p[|p| - 1] - 1];
            IsPath(d, p') && Remaining(d, p) < BesideAll(d, p')
  {
    var n := |p|;
    var p' := p[n - 1 := p[n - 1] - 1];
    PathPrefix(d, p, n - 1);
    assert Linked(d, p, n - 1);
    PathExtend(d, p[..n - 1], p[n - 1] - 1);
    assert p' == p[..n - 1] + [p[n - 1] - 1] && p'[..n - 1] == p[..n - 1];
    assert BesideAll(d, p) == Beside(d, p[n - 1]) + BesideAll(d, p[..n - 1]);
    assert BesideAll(d, p') == Beside(d, p[n - 1] - 1) + BesideAll(d, p[..n - 1]);
    assert Beside(d, p[n - 1] - 1) == RunSize(d, p[n - 1]) == 1 + Below(d, p[n - 1]) + Beside(d, p[n - 1]);
  }

  lemma BackOver(d: Dict, min: nat, max: nat, s: Path, p: Path, r: Path)
    requires p != [] && IsPath(d, p) && !IsStart(d.edges, p[|p| - 1])
    requires BackFrom(s, p) && Behind(d, min, max, s, p)
    requires Deepest(d, max, r, |p| - 1) && r[..|p|] == p[|p| - 1 := p[|p| - 1] - 1]
    ensures Remaining(d, p) < Remaining(d, r)
    ensures ReachedBack(d, min, max, s, r)
  {
    hide Less, IsPath, Deepest, Remaining, BesideAll, IsEntry;
    BackOverRemains(d, max, p, r);
    LowerAt(d, max, p, r);
    if s != p {
      LessTransitive(r, p, s);
    }
    forall q | IsEntry(d, min, max, q) && Less(q, s)
      ensures q == r || Less(q, r)
    {
      EntryIsPath(d, min, max, q);
      BehindSibling(d, max, p, p[|p| - 1 := p[|p| - 1] - 1], r, q);
    }
  }

  lemma EntryIsPath(d: Dict, min: nat, max: nat, q: Path)
    requires IsEntry(d, min, max, q)
    ensures IsPath(d, q) && |q| <= max
  {
  }

  lemma BackOverRemains(d: Dict, max: nat, p: Path, r: Path)
    requires p != [] && IsPath(d, p) && !IsStart(d.edges, p[|p| - 1])
    requires Deepest(d, max, r, |p| - 1) && r[..|p|] == p[|p| - 1 := p[|p| - 1] - 1]
    ensures Remaining(d, p) < Remaining(d, r)
  {
    hide Linked;
    PreviousSiblingPath(d, p);
    BesideGrows(d, r, |p|);
  }

  lemma LowerAt(d: Dict, max: nat, p: Path, r: Path)
    requires p != [] && IsPath(d, p) && !IsStart(d.edges, p[|p| - 1])
    requires Deepest(d, max, r, |p| - 1) && r[..|p|] == p[|p| - 1 := p[|p| - 1] - 1]
    ensures Less(r, p) && |p| <= |r| && 0 < p[|p| - 1]
  {
    var n := |p|;
    assert Linked(d, p, n - 1);
    assert r[n - 1] == r[..n][n - 1];
    assert r[..n - 1] == r[..n][..n - 1] == p[..n - 1];
    AgreeIs(r, p, n - 1);
  }

  /** An entry before `p` is not past the last path below the sibling before `p`. */
  lemma BehindSibling(d: Dict, max: nat, p: Path, p': Path, r: Path, q: Path)
    requires p != [] && IsPath(d, p) && !IsStart(d.edges, p[|p| - 1])
    requires 0 < p[|p| - 1] && p' == p[|p| - 1 := p[|p| - 1] - 1]
    requires Deepest(d, max, r, |p| - 1) && |p| <= |r| && r[..|p|] == p'
    requires IsPath(d, q) && |q| <= max && Less(q, p)
    ensures q == r || Less(q, r)
  {
    hide Deepest, IsStart, Less, IsPath, Agree;
    var n := |p|;
    assert p' == p[..n - 1] + [p[n - 1] - 1];
    BeforeSibling(d, p, q);
    if q == p' || (n < |q| && q[..n] == p') {
      assert q[..n] == p';
      AboveDeepest(d, max, r, n, q);
    } else {
      BeforePrefix(q, p', r);
    }
  }

  /** Nothing that begins as the last path does comes after it. */
  lemma AboveDeepest(d: Dict, max: nat, r: Path, n: nat, q: Path)
    requires 0 < n && Deepest(d, max, r, n - 1) && IsPath(d, q) && |q| <= max
    requires n <= |r| && n <= |q| && q[..n] == r[..n]
    ensures q == r || Less(q, r)
  {
    hide Less, IsPath, Agree;
    BeforeLast(d, r, q, n);
    NotPastDeepest(d, max, r, n - 1, q);
  }

  lemma BeforePrefix(q: Path, p: Path, r: Path)
    requires Less(q, p) && |p| <= |r| && r[..|p|] == p
    ensures Less(q, r)
  {
    var k := Agree(q, p);
    assert r[..k] == r[..|p|][..k] == q[..k];
    assert k < |p| ==> r[k] == r[..|p|][k];
    AgreeIs(q, r, k);
  }

  lemma NotPastDeepest(d: Dict, max: nat, r: Path, m: nat, q: Path)
    requires Deepest(d, max, r, m) && IsPath(d, q) && |q| <= max
    ensures !(|r| < |q| && q[..|r|] == r)
  {
    assert |r| <= |q| && q[..|r|] == r ==> q[|r| - 1] == r[|r| - 1];
    if |r| < |q| {
      assert Linked(d, q, |r|);
    }
  }

  lemma NodeEdges(d: Dict, p: Ptr, i: nat)
    requires InNode(d, p, i)
    ensures i < |d.edges| && (!d.edges[i].last ==> InNode(d, p, i + 1) && i + 1 < |d.edges|)
  {
    assert EdgeOk(d, i);
  }

  lemma FirstChild(d: Dict, p: Path, next: Ptr)
    requires p != [] && IsPath(d, p) && next.At? && next == Follow(d, p[|p| - 1])
    ensures next.i < |d.edges| && InNode(d, NodeOf(d, p, |p|), next.i)
  {
  }

  class DictIter {
    const dict: Dict
    const min: nat
    const max: nat
    const edges: array<nat>
    var nEdges: nat
    var position: int
    var nWords: nat

    constructor (dict: Dict, min: nat, max: nat)
      ensures Valid() && CurPath() == [] && fresh(edges)
      ensures this.dict == dict && this.min == min && this.max == max
    {
      this.dict, this.min, this.max := dict, min, max;
      edges := new nat[MAX_COLS_DICT];
      nEdges, position, nWords := 0, 0, 0;
    }

    ghost predicate Valid()
      reads this, edges
    {
      && edges.Length == MAX_COLS_DICT && nEdges <= MAX_COLS_DICT
      && IsPath(dict, edges[..nEdges])
    }

    function CurPath(): Path
      requires nEdges <= edges.Length
      reads this, edges
    {
      edges[..nEdges]
    }

    predicate AcceptNode(n: nat)
      requires 0 < n <= edges.Length && edges[n - 1] < |dict.edges|
      reads edges
    {
      dict.edges[edges[n - 1]].accepting && min <= n <= max
    }

    /** Step to the following word. Starting anywhere in the graph, not only on a word. */
    method NextWord() returns (success: bool)
      requires Valid()
      modifies this`nEdges, edges
      ensures Valid()
      ensures success ==> IsNext(dict, min, max, old(CurPath()), CurPath())
      ensures !success ==> CurPath() == []
      ensures !success && old(CurPath()) != [] ==> NoneAfter(dict, min, max, old(CurPath()))
    {
      hide Ahead, Passed, Reached, IsNext, NoneAfter, FromOn, Less, Remaining, BesideAll;
      ghost var start := CurPath();
      ghost var cur := start;
      SearchStarts(dict, min, max, start);
      var n: nat := nEdges;
      success := false;
      while 0 < n && !success
        invariant n <= MAX_COLS_DICT && cur == edges[..n] && IsPath(dict, cur)
        invariant success ==> n > 0 && IsNext(dict, min, max, start, cur)
        invariant n > 0 ==> start != [] && FromOn(start, cur)
        invariant !success && start != [] ==> Ahead(dict, min, max, start, cur)
        decreases Remaining(dict, cur), n, !success
      {
        assert |cur| == n && cur[n - 1] == edges[n - 1];
        if n <= max {
          var next := Follow(dict, edges[n - 1]);
          if next.At? {
            StepDown(dict, min, max, start, cur);
            edges[n] := next.i;
            n := n + 1;
            assert edges[..n] == cur + [next.i];
            cur := edges[..n];
            success := AcceptNode(n);
            WhenReached(dict, min, max, start, cur);
            continue;
          }
        }
        StepPast(dict, min, max, start, cur);
        BesideAndBelow(dict, cur);
        n := DropFinished(n, start);
        ghost var was := cur;
        cur := edges[..n];
        assert cur == was[..n];
        if 0 < n {
          StepOver(dict, min, max, start, was, cur);
          edges[n - 1] := edges[n - 1] + 1;
          assert edges[..n] == cur[n - 1 := cur[n - 1] + 1];
          cur := edges[..n];
          success := AcceptNode(n);
          WhenReached(dict, min, max, start, cur);
        }
      }
      nEdges := n;
    }

    /** Back off the edges that end their node. */
    method DropFinished(top: nat, ghost start: Path) returns (n: nat)
      requires 0 < top <= edges.Length && IsPath(dict, edges[..top])
      requires Passed(dict, min, max, start, edges[..top])
      ensures n <= top && IsPath(dict, edges[..n])
      ensures Passed(dict, min, max, start, edges[..n])
      ensures BesideAll(dict, edges[..n]) == BesideAll(dict, edges[..top])
      ensures 0 < n ==> !dict.edges[edges[n - 1]].last
    {
      n := top;
      while dict.edges[edges[n - 1]].last
        invariant 0 < n <= top && IsPath(dict, edges[..n])
        invariant Passed(dict, min, max, start, edges[..n])
        invariant BesideAll(dict, edges[..n]) == BesideAll(dict, edges[..top])
        decreases n
      {
        StepUp(dict, min, max, start, edges[..n]);
        assert edges[..n - 1] == edges[..n][..n - 1];
        n := n - 1;
        if n == 0 {
          break;
        }
      }
    }

    /** Is this the first edge of its node? */
    predicate IsFirstEdge(edge: nat)
      requires edge < |dict.edges|
    {
      edge == 0 || dict.edges[edge - 1].last
    }

    /** The last edge of a node, from any of its edges on. */
    method LastSibling(from: nat, ghost node: Ptr) returns (edge: nat)
      requires InNode(dict, node, from)
      ensures InNode(dict, node, edge) && dict.edges[edge].last
    {
      hide InNode;
      edge := from;
      NodeEdges(dict, node, edge);
      while !dict.edges[edge].last
        invariant edge < |dict.edges| && InNode(dict, node, edge)
        decreases |dict.edges| - edge
      {
        NodeEdges(dict, node, edge);
        edge := edge + 1;
      }
    }

    /** From the edge at the top of the buffer, go to the last path below its node. */
    method LastEdges(top: nat) returns (accept: bool, n: nat)
      requires 0 < top <= edges.Length == MAX_COLS_DICT && IsPath(dict, edges[..top])
      modifies edges
      ensures top <= n <= edges.Length
      ensures edges[..top - 1] == old(edges[..top - 1])
      ensures IsPath(dict, edges[..n])
      ensures forall k :: top - 1 <= k < n ==> dict.edges[edges[k]].last
      ensures Follow(dict, edges[n - 1]).Null? || n >= max
      ensures accept == AcceptNode(n)
    {
      n := top;
      var edge: nat := edges[n - 1];
      ghost var cur := edges[..n - 1];
      PathPrefix(dict, edges[..top], top - 1);
      assert edges[..top][..top - 1] == cur;
      assert Linked(dict, edges[..top], top - 1);
      hide InNode, WellFormed;
      while true
        invariant top <= n <= edges.Length && cur == edges[..n - 1]
        invariant edges[..top - 1] == old(edges[..top - 1])
        invariant IsPath(dict, cur) && InNode(dict, NodeOf(dict, cur, n - 1), edge)
        invariant forall k :: top - 1 <= k < n - 1 ==> dict.edges[edges[k]].last
        decreases edges.Length - n
      {
        edge := LastSibling(edge, NodeOf(dict, cur, n - 1));
        PathExtend(dict, cur, edge);
        edges[n - 1] := edge;
        assert edges[..n] == cur + [edge];
        cur := cur + [edge];
        var next := Follow(dict, edge);
        if next == Null {
          break;
        }
        if !(n + 1 <= max) {
          break;
        }
        FirstChild(dict, cur, next);
        PathExtend(dict, cur, next.i);
        PathLength(dict, cur + [next.i]);
        n := n + 1;
        edge := next.i;
      }
      accept := AcceptNode(n);
    }

    /** Having moved to the previous sibling, go as deep and as far along below it as the length
        limit allows. */
    method BottomOut(top: nat, ghost cur: Path) returns (accept: bool, n: nat)
      requires 0 < top <= edges.Length == MAX_COLS_DICT && cur == edges[..top] && IsPath(dict, cur)
      modifies edges
      ensures top <= n <= edges.Length && edges[..top] == cur
      ensures Deepest(dict, max, edges[..n], top - 1)
      ensures accept <==> IsEntry(dict, min, max, edges[..n])
    {
      n := top;
      if n <= max {
        var next := Follow(dict, edges[n - 1]);
        if next != Null {
          PathExtend(dict, cur, next.i);
          PathLength(dict, cur + [next.i]);
          edges[n] := next.i;
          n := n + 1;
          assert edges[..n] == cur + [next.i];
          accept, n := LastEdges(n);
          if accept {
            return;
          }
        }
      }
      accept := AcceptNode(n);
    }

    /** Step to the preceding word. */
    method PrevWord() returns (success: bool)
      requires Valid()
      modifies this`nEdges, edges
      ensures Valid()
      ensures success ==> IsPrev(dict, min, max, old(CurPath()), CurPath())
      ensures !success ==> CurPath() == [] && NoneBefore(dict, min, max, old(CurPath()))
    {
      hide Behind, ReachedBack, IsPrev, NoneBefore, BackFrom, Less, Remaining, BesideAll, RunSize;
      ghost var start := CurPath();
      ghost var cur := start;
      BackSearchStarts(dict, min, max, start);
      var n: nat := nEdges;
      success := false;
      while 0 < n && !success
        invariant n <= MAX_COLS_DICT && cur == edges[..n] && IsPath(dict, cur)
        invariant success ==> n > 0 && IsPrev(dict, min, max, start, cur)
        invariant BackFrom(start, cur)
        invariant !success ==> Behind(dict, min, max, start, cur)
        decreases if n == 0 then 0 else CountAll() - Remaining(dict, cur), !success
      {
        RemainingBound(dict, cur);
        if IsFirstEdge(edges[n - 1]) {
          BackUp(dict, min, max, start, cur);
          n := n - 1;
          cur := cur[..n];
          success := 0 < n && AcceptNode(n);
          WhenReachedBack(dict, min, max, start, cur);
          if 0 < n {
            RemainingBound(dict, cur);
          }
          continue;
        }
        ghost var was := cur;
        PreviousSiblingPath(dict, cur);
        edges[n - 1] := edges[n - 1] - 1;
        cur := was[n - 1 := was[n - 1] - 1];
        assert edges[..n] == cur;
        success, n := BottomOut(n, cur);
        cur := edges[..n];
        BackOver(dict, min, max, start, was, cur);
        WhenReachedBack(dict, min, max, start, cur);
        RemainingBound(dict, cur);
      }
      nEdges := n;
    }

    ghost function CountAll(): nat {
      if dict.top.Null? then 0 else RunSize(dict, dict.top.i)
    }

    /** The first word of all. */
    method FirstWord() returns (success: bool)
      requires Valid()
      modifies this`nEdges, edges
      ensures Valid()
      ensures success ==> IsNext(dict, min, max, [], CurPath())
      ensures !success ==> NoneAfter(dict, min, max, [])
    {
      var top := dict.top;
      success := top != Null;
      if success {
        nEdges := 1;
        edges[0] := top.i;
        TopPath(dict, min, max);
        assert CurPath() == [top.i];
        if !AcceptNode(1) {
          success := NextWord();
          NextFromTop(dict, min, max, success, CurPath());
        }
      } else {
        NoTop(dict, min, max);
      }
    }

    /** The last word of all; the dictionary must not be empty. */
    method LastWord() returns (success: bool)
      requires Valid() && dict.top.At?
      modifies this`nEdges, edges
      ensures Valid()
      ensures success ==> IsEntry(dict, min, max, CurPath()) && NoneAfter(dict, min, max, CurPath())
      ensures !success ==> NoneAfter(dict, min, max, [])
    {
      TopPath(dict, min, max);
      edges[0] := dict.top.i;
      nEdges := 1;
      assert edges[..nEdges] == [dict.top.i];
      var n;
      success, n := LastEdges(nEdges);
      nEdges := n;
      ghost var r := CurPath();
      DeepestIsLast(dict, min, max, r);
      if !success {
        success := PrevWord();
        PrevFromLast(dict, min, max, r, success, CurPath());
      }
    }
  }

  lemma NoTop(d: Dict, min: nat, max: nat)
    requires d.top.Null?
    ensures NoneAfter(d, min, max, [])
  {
    assert forall q :: q != [] && IsPath(d, q) ==> Linked(d, q, 0);
  }

  /** The first edge of the top node comes first of all paths. */
  lemma TopPath(d: Dict, min: nat, max: nat)
    requires d.top.At?
    ensures IsPath(d, [d.top.i])
    ensures forall q :: q != [] && IsPath(d, q) ==> q == [d.top.i] || Less([d.top.i], q)
    ensures IsEntry(d, min, max, [d.top.i]) ==> IsNext(d, min, max, [], [d.top.i])
  {
    PathExtend(d, [], d.top.i);
    assert [] + [d.top.i] == [d.top.i];
    forall q | q != [] && IsPath(d, q)
      ensures q == [d.top.i] || Less([d.top.i], q)
    {
      assert Linked(d, q, 0);
      if q[0] == d.top.i {
        AgreeIs([d.top.i], q, 1);
      } else {
        AgreeIs([d.top.i], q, 0);
      }
    }
  }

  lemma NextFromTop(d: Dict, min: nat, max: nat, success: bool, r: Path)
    requires d.top.At? && !IsEntry(d, min, max, [d.top.i])
    requires success ==> IsNext(d, min, max, [d.top.i], r)
    requires !success ==> NoneAfter(d, min, max, [d.top.i])
    ensures success ==> IsNext(d, min, max, [], r)
    ensures !success ==> NoneAfter(d, min, max, [])
  {
    TopPath(d, min, max);
  }

  lemma DeepestIsLast(d: Dict, min: nat, max: nat, r: Path)
    requires IsPath(d, r) && r != [] && (Follow(d, r[|r| - 1]).Null? || |r| >= max)
    requires forall k :: 0 <= k < |r| ==> d.edges[r[k]].last
    ensures NoneAfter(d, min, max, r)
  {
    forall q | IsEntry(d, min, max, q)
      ensures !Less(r, q)
    {
      BeforeLast(d, r, q, 0);
      NotPastDeepest(d, max, r, 0, q);
      LessTotal(r, q);
      LessTotal(q, r);
    }
  }

  lemma PrevFromLast(d: Dict, min: nat, max: nat, r: Path, success: bool, p: Path)
    requires NoneAfter(d, min, max, r) && !IsEntry(d, min, max, r)
    requires success ==> IsPrev(d, min, max, r, p)
    requires !success ==> NoneBefore(d, min, max, r)
    ensures success ==> IsEntry(d, min, max, p) && NoneAfter(d, min, max, p)
    ensures !success ==> NoneAfter(d, min, max, [])
  {
    forall q | IsEntry(d, min, max, q)
      ensures success && !Less(p, q)
    {
      LessTotal(q, r);
      if success {
        LessTotal(q, p);
      }
    }
  }
}
