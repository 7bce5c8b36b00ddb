/** The list an iterator walks: every word of the dictionary within the length limits, in order. */
module WordList {
  import opened Dawg
  import opened TrieOrder
  import opened DictIter

  ghost predicate Sorted(l: seq<seq<nat>>) {
    forall a, b :: 0 <= a < b < |l| ==> Less(l[a], l[b])
  }

  /** `q` is an entry that continues `pre` with edge `i` or a later one of its node. */
  ghost predicate EntryFrom(d: Dict, min: nat, max: nat, pre: Path, i: nat, q: Path) {
    IsEntry(d, min, max, q) && |pre| < |q| && q[..|pre|] == pre && InRun(d, i, q[|pre|])
  }

  function EntriesFrom(d: Dict, min: nat, max: nat, pre: Path, i: nat): seq<Path>
    requires i < |d.edges|
    decreases d.rank[i], |d.edges| - i
  {
    assert EdgeOk(d, i);
    var p := pre + [i];
    var e := d.edges[i];
    (if e.accepting && min <= |p| <= max then [p] else [])
    + (if e.child == 0 then [] else EntriesFrom(d, min, max, p, e.child))
    + (if e.last then [] else EntriesFrom(d, min, max, pre, i + 1))
  }

  function Entries(d: Dict, min: nat, max: nat): seq<Path> {
    if d.top.Null? then [] else EntriesFrom(d, min, max, [], d.top.i)
  }

  ghost predicate Lists(d: Dict, min: nat, max: nat, pre: Path, i: nat, l: seq<Path>) {
    && Sorted(l)
    && forall q :: q in l <==> EntryFrom(d, min, max, pre, i, q)
  }

  lemma {:induction false} EntriesFromLists(d: Dict, min: nat, max: nat, pre: Path, i: nat)
    requires IsPath(d, pre) && InNode(d, NodeOf(d, pre, |pre|), i)
    ensures Lists(d, min, max, pre, i, EntriesFrom(d, min, max, pre, i))
    decreases d.rank[i], |d.edges| - i
  {
    var p := pre + [i];
    PathExtend(d, pre, i);
    assert EdgeOk(d, i);
    var e := d.edges[i];
    if e.child != 0 {
      assert InNode(d, NodeOf(d, p, |p|), e.child);
      EntriesFromLists(d, min, max, p, e.child);
    }
    if !e.last {
      assert InNode(d, NodeOf(d, pre, |pre|), i + 1);
      EntriesFromLists(d, min, max, pre, i + 1);
    }
    ListsStep(d, min, max, pre, i);
  }

  lemma ListsStep(d: Dict, min: nat, max: nat, pre: Path, i: nat)
    requires IsPath(d, pre) && InNode(d, NodeOf(d, pre, |pre|), i) && IsPath(d, pre + [i])
    requires EdgeOk(d, i)
    requires d.edges[i].child != 0 ==>
      Lists(d, min, max, pre + [i], d.edges[i].child, EntriesFrom(d, min, max, pre + [i], d.edges[i].child))
    requires !d.edges[i].last ==> Lists(d, min, max, pre, i + 1, EntriesFrom(d, min, max, pre, i + 1))
    ensures Lists(d, min, max, pre, i, EntriesFrom(d, min, max, pre, i))
  {
    hide Lists, IsPath;
    var p := pre + [i];
    var e := d.edges[i];
    var here := if e.accepting && min <= |p| <= max then [p] else [];
    var below := if e.child == 0 then [] else EntriesFrom(d, min, max, p, e.child);
    var beside := if e.last then [] else EntriesFrom(d, min, max, pre, i + 1);
    assert EntriesFrom(d, min, max, pre, i) == here + below + beside;
    JoinLists(d, min, max, pre, i, here, below, beside);
  }

  lemma JoinLists(d: Dict, min: nat, max: nat, pre: Path, i: nat,
                  here: seq<Path>, below: seq<Path>, beside: seq<Path>)
    requires IsPath(d, pre) && i < |d.edges| && InNode(d, NodeOf(d, pre, |pre|), i) && IsPath(d, pre + [i])
    requires here == if d.edges[i].accepting && min <= |pre| + 1 <= max then [pre + [i]] else []
    requires if d.edges[i].child == 0 then below == [] else Lists(d, min, max, pre + [i], d.edges[i].child, below)
    requires if d.edges[i].last then beside == [] else Lists(d, min, max, pre, i + 1, beside)
    ensures Lists(d, min, max, pre, i, here + below + beside)
  {
    hide IsEntry, Less, Sorted;
    var l := here + below + beside;
    forall q
      ensures q in l <==> EntryFrom(d, min, max, pre, i, q)
    {
      SplitEntry(d, min, max, pre, i, q);
      assert q in l <==> q in here || q in below || q in beside;
    }
    JoinSorted(pre, i, here, below, beside);
  }

  lemma JoinSorted(pre: Path, i: nat, here: seq<Path>, below: seq<Path>, beside: seq<Path>)
    requires here == [] || here == [pre + [i]]
    requires Sorted(below) && Sorted(beside)
    requires forall x :: x in below ==> |pre| + 1 < |x| && x[..|pre| + 1] == pre + [i]
    requires forall x :: x in beside ==> |pre| < |x| && x[..|pre|] == pre && i < x[|pre|]
    ensures Sorted(here + below + beside)
  {
    forall y | y in below
      ensures |pre| < |y| && y[..|pre|] == pre && y[|pre|] == i && Less(pre + [i], y)
    {
      PrefixFirst(pre, i, y);
    }
    forall x, y | (x in here || x in below) && y in beside
      ensures Less(x, y)
    {
      assert x[..|pre|] == pre;
      AgreeIs(x, y, |pre|);
    }
    SortedConcat(here, below);
    SortedConcat(here + below, beside);
  }

  lemma PrefixFirst(pre: Path, i: nat, y: Path)
    requires |pre| + 1 < |y| && y[..|pre| + 1] == pre + [i]
    ensures y[..|pre|] == pre && y[|pre|] == i && Less(pre + [i], y)
  {
    assert y[..|pre|] == y[..|pre| + 1][..|pre|];
    assert y[|pre|] == y[..|pre| + 1][|pre|];
    AgreeIs(pre + [i], y, |pre| + 1);
  }

  lemma SortedConcat(l: seq<Path>, m: seq<Path>)
    requires Sorted(l) && Sorted(m)
    requires forall x, y :: x in l && y in m ==> Less(x, y)
    ensures Sorted(l + m)
  {
    hide Less;
    forall a, b | 0 <= a < b < |l + m|
      ensures Less((l + m)[a], (l + m)[b])
    {
      if |l| <= a {
        assert Less(m[a - |l|], m[b - |l|]);
      } else if b < |l| {
        assert Less(l[a], l[b]);
      } else {
        assert l[a] in l && m[b - |l|] in m;
      }
    }
  }

  lemma SplitEntry(d: Dict, min: nat, max: nat, pre: Path, i: nat, q: Path)
    requires IsPath(d, pre) && InNode(d, NodeOf(d, pre, |pre|), i) && IsPath(d, pre + [i])
    ensures EntryFrom(d, min, max, pre, i, q) <==>
            || (q == pre + [i] && d.edges[i].accepting && min <= |q| <= max)
            || (d.edges[i].child != 0 && EntryFrom(d, min, max, pre + [i], d.edges[i].child, q))
            || (!d.edges[i].last && EntryFrom(d, min, max, pre, i + 1, q))
  {
    var p := pre + [i];
    assert EdgeOk(d, i);
    if EntryFrom(d, min, max, pre, i, q) {
      if q[|pre|] == i {
        assert q[..|p|] == p;
        if |q| > |p| {
          assert Linked(d, q, |p|);
        } else {
          assert q == p;
        }
      }
    } else if |p| <= |q| && q[..|p|] == p {
      assert q[..|pre|] == q[..|p|][..|pre|] == pre;
      assert q[|pre|] == q[..|p|][|pre|] == i;
    }
  }

  /** The list holds exactly the entries, in strictly increasing order. */
  lemma EntriesComplete(d: Dict, min: nat, max: nat)
    ensures var l := Entries(d, min, max);
            Sorted(l) && forall q :: q in l <==> IsEntry(d, min, max, q)
  {
    if d.top.Null? {
      NoTop(d, min, max);
      assert forall q :: q != [] && IsPath(d, q) ==> Linked(d, q, 0);
    } else {
      EntriesFromLists(d, min, max, [], d.top.i);
      forall q
        ensures EntryFrom(d, min, max, [], d.top.i, q) <==> IsEntry(d, min, max, q)
      {
        if IsEntry(d, min, max, q) {
          assert Linked(d, q, 0);
        }
      }
    }
  }

  function Words(d: Dict, min: nat, max: nat): (l: seq<Word>) {
    var l := Entries(d, min, max);
    EntriesComplete(d, min, max);
    seq(|l|, k requires 0 <= k < |l| => assert l[k] in l; WordOf(d, l[k]))
  }

  /** In terms of words: strictly increasing, and exactly those the dictionary accepts. */
  lemma WordsComplete(d: Dict, min: nat, max: nat)
    ensures var l := Words(d, min, max);
            && (forall a, b :: 0 <= a < b < |l| ==> Less(l[a], l[b]))
            && (forall w :: w in l <==> IsWord(d, min, max, w))
  {
    var ps, l := Entries(d, min, max), Words(d, min, max);
    EntriesComplete(d, min, max);
    forall a, b | 0 <= a < b < |l|
      ensures Less(l[a], l[b])
    {
      assert ps[a] in ps && ps[b] in ps;
      PathOrderIsWordOrder(d, ps[a], ps[b]);
    }
    forall w
      ensures w in l <==> IsWord(d, min, max, w)
    {
      if w in l {
        var k :| 0 <= k < |l| && l[k] == w;
        assert ps[k] in ps;
        EntrySpellsWord(d, min, max, ps[k]);
      }
      if IsWord(d, min, max, w) {
        var q := AcceptedHasPath(d, [], w);
        assert WordOf(d, []) + w == w;
        EntrySpellsWord(d, min, max, q);
        var k :| 0 <= k < |ps| && ps[k] == q;
        assert l[k] == w;
      }
    }
  }

  // Steps of the iterator as steps along the list.

  lemma SortedDistinct(l: seq<seq<nat>>, a: nat, b: nat)
    requires Sorted(l) && a < |l| && b < |l|
    ensures Less(l[a], l[b]) <==> a < b
    ensures l[a] == l[b] <==> a == b
  {
    LessTotal(l[a], l[b]);
    if b < a {
      LessTotal(l[b], l[a]);
    }
  }

  /** The entry after the k-th is the one at k + 1. */
  lemma NextIsSuccessor(d: Dict, min: nat, max: nat, k: nat, r: Path)
    requires k < |Entries(d, min, max)|
    ensures var l := Entries(d, min, max);
            && (IsNext(d, min, max, l[k], r) ==> k + 1 < |l| && r == l[k + 1])
            && (NoneAfter(d, min, max, l[k]) ==> k + 1 == |l|)
  {
    var l := Entries(d, min, max);
    EntriesComplete(d, min, max);
    if k + 1 < |l| {
      assert l[k + 1] in l && Less(l[k], l[k + 1]);
    }
    if IsNext(d, min, max, l[k], r) {
      var j :| 0 <= j < |l| && l[j] == r;
      SortedDistinct(l, k, j);
      SortedDistinct(l, j, k + 1);
    }
  }

  /** The entry before the k-th is the one at k - 1. */
  lemma PrevIsPredecessor(d: Dict, min: nat, max: nat, k: nat, r: Path)
    requires k < |Entries(d, min, max)|
    ensures var l := Entries(d, min, max);
            && (IsPrev(d, min, max, l[k], r) ==> k > 0 && r == l[k - 1])
            && (NoneBefore(d, min, max, l[k]) ==> k == 0)
  {
    var l := Entries(d, min, max);
    EntriesComplete(d, min, max);
    if k > 0 {
      assert l[k - 1] in l && Less(l[k - 1], l[k]);
    }
    if IsPrev(d, min, max, l[k], r) {
      var j :| 0 <= j < |l| && l[j] == r;
      SortedDistinct(l, j, k);
      SortedDistinct(l, k - 1, j);
    }
  }

  lemma FirstAndLast(d: Dict, min: nat, max: nat, r: Path)
    ensures var l := Entries(d, min, max);
            && (IsNext(d, min, max, [], r) ==> 0 < |l| && r == l[0])
            && (NoneAfter(d, min, max, []) ==> l == [])
            && (IsEntry(d, min, max, r) && NoneAfter(d, min, max, r) ==> 0 < |l| && r == l[|l| - 1])
  {
    var l := Entries(d, min, max);
    EntriesComplete(d, min, max);
    if l != [] {
      assert l[0] in l && l[|l| - 1] in l && l[0] != [];
    }
    if IsNext(d, min, max, [], r) {
      var j :| 0 <= j < |l| && l[j] == r;
      SortedDistinct(l, 0, j);
      SortedDistinct(l, j, 0);
    }
    if IsEntry(d, min, max, r) && NoneAfter(d, min, max, r) {
      var j :| 0 <= j < |l| && l[j] == r;
      SortedDistinct(l, j, |l| - 1);
    }
  }
}
