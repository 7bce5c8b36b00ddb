/** Counting words, finding the first word with a prefix, building an index of prefixes, and going to the
    n-th word (xwords4/common/dictiter.c). */
module DictIndex {
  import opened Dawg
  import opened TrieOrder
  import opened WordList
  import opened WordIndex
  import opened DictIter

  /** The iterator stands on the k-th word of its list. */
  ghost predicate On(iter: DictIter, k: nat)
    reads iter, iter.edges
  {
    && iter.Valid()
    && k < |Entries(iter.dict, iter.min, iter.max)| && iter.CurPath() == Entries(iter.dict, iter.min, iter.max)[k]
  }

  function WordsOf(iter: DictIter): seq<Word> {
    Words(iter.dict, iter.min, iter.max)
  }

  lemma WordsAreEntries(d: Dict, min: nat, max: nat, k: nat)
    requires k < |Entries(d, min, max)|
    ensures |Words(d, min, max)| == |Entries(d, min, max)|
    ensures IsEntry(d, min, max, Entries(d, min, max)[k])
    ensures Words(d, min, max)[k] == WordOf(d, Entries(d, min, max)[k])
  {
    EntriesComplete(d, min, max);
    assert Entries(d, min, max)[k] in Entries(d, min, max);
  }

  lemma WordsSorted(d: Dict, min: nat, max: nat)
    ensures SortedWords(Words(d, min, max)) && |Words(d, min, max)| == |Entries(d, min, max)|
  {
    WordsComplete(d, min, max);
  }

  // Steps, as steps along the list.

  method Next(iter: DictIter, ghost k: nat) returns (ok: bool)
    requires On(iter, k)
    modifies iter`nEdges, iter.edges
    ensures ok <==> k + 1 < |Entries(iter.dict, iter.min, iter.max)|
    ensures ok ==> On(iter, k + 1)
  {
    hide IsNext, NoneAfter;
    WordsAreEntries(iter.dict, iter.min, iter.max, k);
    ok := iter.NextWord();
    NextIsSuccessor(iter.dict, iter.min, iter.max, k, iter.CurPath());
  }

  method Prev(iter: DictIter, ghost k: nat) returns (ok: bool)
    requires On(iter, k)
    modifies iter`nEdges, iter.edges
    ensures ok <==> 0 < k
    ensures ok ==> On(iter, k - 1)
  {
    hide IsPrev, NoneBefore;
    ok := iter.PrevWord();
    PrevIsPredecessor(iter.dict, iter.min, iter.max, k, iter.CurPath());
  }

  method First(iter: DictIter) returns (ok: bool)
    requires iter.Valid()
    modifies iter`nEdges, iter.edges
    ensures ok <==> Entries(iter.dict, iter.min, iter.max) != []
    ensures ok ==> On(iter, 0)
  {
    hide IsNext, NoneAfter;
    ok := iter.FirstWord();
    FirstAndLast(iter.dict, iter.min, iter.max, iter.CurPath());
  }

  function OfLength(l: seq<Path>, n: nat): nat {
    if l == [] then 0 else OfLength(l[..|l| - 1], n) + if |l[|l| - 1]| == n then 1 else 0
  }

  /** Counts the words, and those of each length, by walking them all. */
  method CountWords(iter: DictIter) returns (count: nat, lens: array<nat>)
    ensures count == |Entries(iter.dict, iter.min, iter.max)|
    ensures fresh(lens) && lens.Length == MAX_COLS_DICT + 1
    ensures forall n :: 0 <= n <= MAX_COLS_DICT ==> lens[n] == OfLength(Entries(iter.dict, iter.min, iter.max), n)
  {
    hide Entries;
    var counter := new DictIter(iter.dict, iter.min, iter.max);
    ghost var l := Entries(iter.dict, iter.min, iter.max);
    lens := new nat[MAX_COLS_DICT + 1](_ => 0);
    count := 0;
    var ok := First(counter);
    while ok
      invariant fresh(counter) && fresh(counter.edges) && counter.edges != lens
      invariant counter.dict == iter.dict && counter.min == iter.min && counter.max == iter.max
      invariant count <= |l| && (ok <==> count < |l|) && (ok ==> On(counter, count))
      invariant forall n :: 0 <= n <= MAX_COLS_DICT ==> lens[n] == OfLength(l[..count], n)
      decreases |l| - count
    {
      PathLength(iter.dict, counter.CurPath());
      assert l[..count + 1][..count] == l[..count];
      lens[counter.nEdges] := lens[counter.nEdges] + 1;
      ghost var was := count;
      count := count + 1;
      ok := Next(counter, was);
    }
    assert l[..|l|] == l;
  }

  // Finding the first word with a prefix.

  /** Paths that spell the same thing so far are the same so far. */
  lemma SpelledPrefix(d: Dict, p: Path, q: Path)
    requires IsPath(d, p) && IsPath(d, q) && HasPrefix(WordOf(d, q), WordOf(d, p))
    ensures |p| <= |q| && q[..|p|] == p
  {
    PathPrefix(d, q, |p|);
    assert WordOf(d, q[..|p|]) == WordOf(d, q)[..|p|];
    PathOrderIsWordOrder(d, p, q[..|p|]);
  }

  lemma NextLetterEdge(d: Dict, p: Path, q: Path, tiles: Word)
    requires IsPath(d, p) && IsPath(d, q) && |p| < |tiles| && WordOf(d, p) == tiles[..|p|]
    requires HasPrefix(WordOf(d, q), tiles)
    ensures EdgeFor(d, NodeOf(d, p, |p|), tiles[|p|]).At?
  {
    assert WordOf(d, q)[..|p|] == WordOf(d, q)[..|tiles|][..|p|] == tiles[..|p|];
    SpelledPrefix(d, p, q);
    assert Linked(d, q, |p|);
    PrefixAt(WordOf(d, q), tiles, |p|);
    assert NodeOf(d, q, |p|) == NodeOf(d, p, |p|) by { assert |p| > 0 ==> q[..|p|][|p| - 1] == p[|p| - 1]; }
  }

  /** No edge for the next letter: nothing spells that. */
  lemma NoEdgeNoWord(d: Dict, min: nat, max: nat, p: Path, tiles: Word)
    requires IsPath(d, p) && |p| < |tiles| && WordOf(d, p) == tiles[..|p|]
    requires EdgeFor(d, NodeOf(d, p, |p|), tiles[|p|]).Null?
    ensures NoneWith(Words(d, min, max), tiles)
  {
    forall j | 0 <= j < |Words(d, min, max)|
      ensures !HasPrefix(Words(d, min, max)[j], tiles)
    {
      WordsAreEntries(d, min, max, j);
      if HasPrefix(Words(d, min, max)[j], tiles) {
        NextLetterEdge(d, p, Entries(d, min, max)[j], tiles);
      }
    }
  }

  lemma TooLong(d: Dict, min: nat, max: nat, tiles: Word)
    requires max < |tiles|
    ensures NoneWith(Words(d, min, max), tiles)
  {
    forall j | 0 <= j < |Words(d, min, max)|
      ensures !HasPrefix(Words(d, min, max)[j], tiles)
    {
      WordsAreEntries(d, min, max, j);
    }
  }

  /** Walks the letters from the top; a missing edge is no match. */
  method FindStartsWithTiles(iter: DictIter, tiles: Word) returns (success: bool)
    requires iter.Valid()
    modifies iter`nEdges, iter.edges
    ensures iter.Valid()
    ensures success ==> WordOf(iter.dict, iter.CurPath()) == tiles
    ensures !success ==> NoneWith(WordsOf(iter), tiles)
  {
    hide NoneWith, Words;
    var edge := iter.dict.top;
    iter.nEdges := 0;
    assert iter.CurPath() == [];
    while iter.nEdges <= iter.max && iter.nEdges < |tiles|
      invariant iter.Valid() && iter.nEdges <= |tiles|
      invariant WordOf(iter.dict, iter.CurPath()) == tiles[..iter.nEdges]
      invariant edge == NodeOf(iter.dict, iter.CurPath(), iter.nEdges)
      decreases |tiles| - iter.nEdges
    {
      ghost var p := iter.CurPath();
      var e := Null;
      if edge != Null {
        e := EdgeWithTile(iter.dict, edge.i, tiles[iter.nEdges]);
      }
      if e == Null {
        NoEdgeNoWord(iter.dict, iter.min, iter.max, p, tiles);
        return false;
      }
      PathExtend(iter.dict, p, e.i);
      PathLength(iter.dict, p + [e.i]);
      iter.edges[iter.nEdges] := e.i;
      iter.nEdges := iter.nEdges + 1;
      assert iter.CurPath() == p + [e.i];
      edge := Follow(iter.dict, e.i);
    }
    success := iter.nEdges == |tiles|;
    if !success {
      TooLong(iter.dict, iter.min, iter.max, tiles);
    } else {
      assert tiles[..iter.nEdges] == tiles;
    }
  }

  method StartsWith(iter: DictIter, tiles: Word) returns (success: bool)
    requires iter.Valid()
    ensures success <==> HasPrefix(WordOf(iter.dict, iter.CurPath()), tiles)
  {
    ghost var w := WordOf(iter.dict, iter.CurPath());
    success := |tiles| <= iter.nEdges;
    var nTiles := |tiles|;
    while success && nTiles > 0
      invariant 0 <= nTiles <= |tiles| && (success || nTiles < |tiles| || |tiles| > iter.nEdges)
      invariant success ==> |tiles| <= iter.nEdges && forall k :: nTiles <= k < |tiles| ==> w[k] == tiles[k]
      invariant !success && |tiles| <= iter.nEdges ==> w[nTiles] != tiles[nTiles]
      decreases nTiles, success
    {
      nTiles := nTiles - 1;
      success := tiles[nTiles] == iter.dict.edges[iter.edges[nTiles]].tile;
    }
    if success {
      assert w[..|tiles|] == tiles;
    } else if |tiles| <= iter.nEdges {
      assert w[..|tiles|][nTiles] == w[nTiles];
    }
  }

  method WordsEqual(word1: DictIter, word2: DictIter) returns (success: bool)
    requires word1.Valid() && word2.Valid()
    ensures success <==> word1.CurPath() == word2.CurPath()
  {
    success := word1.nEdges == word2.nEdges;
    if success {
      success := word1.edges[..word1.nEdges] == word2.edges[..word2.nEdges];
    }
  }

  lemma PrefixIsFirst(p: Path, q: Path)
    requires |p| <= |q| && q[..|p|] == p
    ensures q == p || Less(p, q)
  {
    if |p| < |q| {
      AgreeIs(p, q, |p|);
    }
  }

  lemma AgreeAt(p: Path, r: Path, i: nat)
    requires i < Agree(p, r)
    ensures p[i] == r[i]
  {
    assert p[..Agree(p, r)][i] == r[..Agree(p, r)][i];
  }

  lemma AgreeThrough(p: Path, r: Path, q: Path, i: nat)
    requires i < Agree(p, r) && HasPrefix(q, p)
    ensures r[i] == q[i]
  {
    AgreeAt(p, r, i);
    PrefixAt(q, p, i);
  }

  /** What lies between a path and an extension of it extends it too. */
  lemma Between(p: Path, r: Path, q: Path)
    requires Less(p, r) && Less(r, q) && HasPrefix(q, p)
    ensures HasPrefix(r, p)
  {
    hide HasPrefix;
    PrefixLength(q, p);
    var k, j := Agree(p, r), Agree(r, q);
    if k < |p| {
      PrefixAt(q, p, k);
      if j < k {
        AgreeThrough(p, r, q, j);
      } else if k < j {
        AgreeAt(r, q, k);
      }
    } else {
      WholePrefix(r, p);
    }
  }

  lemma PrefixLength(q: Path, p: Path)
    requires HasPrefix(q, p)
    ensures |p| <= |q|
  {
  }

  lemma WholePrefix(r: Path, p: Path)
    requires Agree(p, r) == |p|
    ensures HasPrefix(r, p)
  {
    assert p[..|p|] == p;
  }

  /** The first entry at or after the path that spells the prefix, if it has the prefix, is the first word
      with it. */
  lemma FoundFirst(d: Dict, min: nat, max: nat, p: Path, r: Path) returns (k: nat)
    requires IsPath(d, p) && IsEntry(d, min, max, r) && HasPrefix(WordOf(d, r), WordOf(d, p))
    requires r == p || (!IsEntry(d, min, max, p) && IsNext(d, min, max, p, r))
    ensures k < |Entries(d, min, max)| && Entries(d, min, max)[k] == r
    ensures IsFirstWith(Words(d, min, max), WordOf(d, p), k)
  {
    var l := Entries(d, min, max);
    EntriesComplete(d, min, max);
    k :| 0 <= k < |l| && l[k] == r;
    WordsAreEntries(d, min, max, k);
    forall j | 0 <= j < |l| && HasPrefix(Words(d, min, max)[j], WordOf(d, p))
      ensures k <= j
    {
      WordsAreEntries(d, min, max, j);
      SpelledPrefix(d, p, l[j]);
      PrefixIsFirst(p, l[j]);
      SortedDistinct(l, j, k);
      LessTotal(l[k], l[j]);
      if l[j] == p {
        LessTotal(p, r);
      }
    }
  }

  /** If any entry spells the prefix and more, so does the next one. */
  lemma NextHasPrefix(d: Dict, min: nat, max: nat, p: Path, r: Path, q: Path)
    requires IsPath(d, p) && !IsEntry(d, min, max, p) && IsNext(d, min, max, p, r)
    requires IsEntry(d, min, max, q) && HasPrefix(WordOf(d, q), WordOf(d, p))
    ensures HasPrefix(WordOf(d, r), WordOf(d, p))
  {
    SpelledPrefix(d, p, q);
    PrefixIsFirst(p, q);
    if q != r {
      Between(p, r, q);
      assert forall i :: 0 <= i < |p| ==> r[..|p|][i] == p[i];
      assert WordOf(d, r)[..|p|] == WordOf(d, p);
    }
  }

  lemma SomethingAfter(d: Dict, min: nat, max: nat, p: Path, q: Path)
    requires IsPath(d, p) && !IsEntry(d, min, max, p)
    requires IsEntry(d, min, max, q) && HasPrefix(WordOf(d, q), WordOf(d, p))
    ensures !NoneAfter(d, min, max, p)
  {
    SpelledPrefix(d, p, q);
    PrefixIsFirst(p, q);
  }

  lemma NoneFound(d: Dict, min: nat, max: nat, p: Path, ok: bool, r: Path)
    requires IsPath(d, p) && !IsEntry(d, min, max, p)
    requires if ok then IsNext(d, min, max, p, r) && !HasPrefix(WordOf(d, r), WordOf(d, p)) else NoneAfter(d, min, max, p)
    ensures NoneWith(Words(d, min, max), WordOf(d, p))
  {
    forall j | 0 <= j < |Words(d, min, max)|
      ensures !HasPrefix(Words(d, min, max)[j], WordOf(d, p))
    {
      WordsAreEntries(d, min, max, j);
      if HasPrefix(Words(d, min, max)[j], WordOf(d, p)) {
        if ok {
          NextHasPrefix(d, min, max, p, r, Entries(d, min, max)[j]);
        } else {
          SomethingAfter(d, min, max, p, Entries(d, min, max)[j]);
        }
      }
    }
  }

  /** Goes to the first word that begins with the tiles, if there is one. */
  method FindWordStartsWith(iter: DictIter, tiles: Word) returns (found: bool, ghost k: nat)
    requires iter.Valid() && tiles != []
    modifies iter`nEdges, iter.edges
    ensures iter.Valid()
    ensures found ==> On(iter, k) && IsFirstWith(WordsOf(iter), tiles, k)
    ensures !found ==> NoneWith(WordsOf(iter), tiles)
  {
    hide NoneWith, IsNext, NoneAfter, Words, Entries, IsFirstWith, HasPrefix;
    k := 0;
    found := FindStartsWithTiles(iter, tiles);
    if found {
      ghost var p := iter.CurPath();
      found := iter.AcceptNode(iter.nEdges);
      if found {
        SelfPrefix(tiles);
        k := FoundFirst(iter.dict, iter.min, iter.max, p, p);
      } else {
        var ok := iter.NextWord();
        ghost var r := iter.CurPath();
        if ok {
          found := StartsWith(iter, tiles);
        }
        if found {
          NextIsEntry(iter.dict, iter.min, iter.max, p, r);
          k := FoundFirst(iter.dict, iter.min, iter.max, p, r);
        } else {
          NoneFound(iter.dict, iter.min, iter.max, p, ok, r);
        }
      }
    }
  }

  lemma SelfPrefix(u: Word)
    ensures HasPrefix(u, u)
  {
  }

  lemma NextIsEntry(d: Dict, min: nat, max: nat, p: Path, r: Path)
    requires IsNext(d, min, max, p, r)
    ensures IsEntry(d, min, max, r)
  {
  }

  // Building the index.

  /** The caller's arrays, and how much of them is filled; one row of `prefixes` for each index. */
  class IndexData {
    const indices: array<nat>
    const prefixes: array<Word>
    var count: nat

    constructor (room: nat)
      ensures fresh(indices) && fresh(prefixes) && indices.Length == prefixes.Length == room && count == 0
    {
      indices := new nat[room];
      prefixes := new Word[room](_ => []);
      count := 0;
    }

    predicate Valid()
      reads this
    {
      indices.Length == prefixes.Length && count <= indices.Length
    }

    function Ranks(): seq<nat>
      requires Valid()
      reads this, indices
    {
      indices[..count]
    }

    function Rows(): seq<Word>
      requires Valid()
      reads this, prefixes
    {
      prefixes[..count]
    }
  }

  /** The iterator left by the last prefix indexed stands on its first word, or on the first word of all. */
  ghost predicate InStep(data: IndexData, prevIter: DictIter, prevIndex: nat)
    reads data, data.indices, prevIter, prevIter.edges
  {
    && data.Valid() && On(prevIter, prevIndex) && data.indices != prevIter.edges
    && prevIndex == if data.count == 0 then 0 else data.indices[data.count - 1]
  }

  ghost predicate IndexedTo(data: IndexData, prevIter: DictIter, depth: nat, bound: Word)
    requires data.Valid()
    reads data, data.indices, data.prefixes
  {
    Indexed(WordsOf(prevIter), depth, data.Rows(), data.Ranks(), bound)
  }

  /** The last indexed prefix comes before the next one that occurs, and so does its first word. */
  lemma LastRank(words: seq<Word>, depth: nat, prefixes: seq<Word>, ranks: seq<nat>, u: Word, k: nat)
    requires SortedWords(words) && |u| == depth && Indexed(words, depth, prefixes, ranks, u) && IsFirstWith(words, u, k)
    ensures ranks != [] ==> ranks[|ranks| - 1] < k
  {
    if ranks != [] {
      var i := |ranks| - 1;
      assert EntryOk(words, depth, prefixes[i], ranks[i], u);
      IsUnder(prefixes[i], u);
      RanksIncrease(words, prefixes[i], u, ranks[i], k);
    }
  }

  /** If the prefix occurs, its first word is found, counted up to from the last one indexed, and entered. */
  method IndexOne(depth: nat, ghost pre: Word, ghost t: nat, tiles: Word, data: IndexData, prevIter: DictIter, prev: nat)
    returns (prevIndex: nat)
    requires |tiles| == depth > 0 && tiles == pre + [t]
    requires InStep(data, prevIter, prev) && IndexedTo(data, prevIter, depth, tiles) && data.count < data.indices.Length
    modifies data, data.indices, data.prefixes, prevIter`nEdges, prevIter.edges
    ensures data.Valid() && InStep(data, prevIter, prevIndex) && IndexedTo(data, prevIter, depth, pre + [t + 1])
    ensures data.count <= old(data.count) + 1
  {
    hide Indexed, IsFirstWith, NoneWith, Words, Entries, SortedWords;
    prevIndex := prev;
    ghost var words := WordsOf(prevIter);
    ghost var rows, ranks := data.Rows(), data.Ranks();
    WordsSorted(prevIter.dict, prevIter.min, prevIter.max);
    var curIter := new DictIter(prevIter.dict, prevIter.min, prevIter.max);
    var found;
    ghost var k;
    found, k := FindWordStartsWith(curIter, tiles);
    if found {
      LastRank(words, depth, rows, ranks, tiles, k);
      prevIndex := CatchUp(curIter, k, prevIter, prev);
      OneIndexed(words, depth, rows, ranks, pre, t, k);
      data.indices[data.count] := prevIndex;
      data.prefixes[data.count] := tiles;
      data.count := data.count + 1;
      assert data.Rows() == rows + [tiles] && data.Ranks() == ranks + [k];
    } else {
      NoneIndexed(words, depth, rows, ranks, pre, t);
    }
  }

  /** Steps forward to where the other iterator stands; it never runs off the end. */
  method CatchUp(curIter: DictIter, ghost k: nat, prevIter: DictIter, prev: nat) returns (prevIndex: nat)
    requires On(curIter, k) && On(prevIter, prev) && prev <= k
    requires curIter.dict == prevIter.dict && curIter.min == prevIter.min && curIter.max == prevIter.max
    requires curIter != prevIter && curIter.edges != prevIter.edges
    modifies prevIter`nEdges, prevIter.edges
    ensures prevIndex == k && On(prevIter, k)
  {
    hide Entries;
    prevIndex := prev;
    EntriesComplete(curIter.dict, curIter.min, curIter.max);
    while true
      invariant prev <= prevIndex <= k && On(prevIter, prevIndex) && On(curIter, k)
      decreases k - prevIndex
    {
      SortedDistinct(Entries(curIter.dict, curIter.min, curIter.max), prevIndex, k);
      var equal := WordsEqual(curIter, prevIter);
      if equal {
        return;
      }
      prevIndex := prevIndex + 1;
      var ok := Next(prevIter, prevIndex - 1);
      assert ok;
    }
  }

  function Pow(n: nat, e: nat): nat {
    if e == 0 then 1 else n * Pow(n, e - 1)
  }

  /** The faces of the dictionary in order, without the blank. */
  predicate Faces(allTiles: seq<Tile>, nFaces: nat, blank: int) {
    forall ii :: 0 <= ii <= |allTiles| ==> FaceAt(allTiles, ii, nFaces, blank)
  }

  /** What follows the face before `ii` is the face at `ii`, or the end, with at most the blank between. */
  predicate FaceAt(allTiles: seq<Tile>, ii: nat, nFaces: nat, blank: int)
    requires ii <= |allTiles|
  {
    var from := if ii == 0 then 0 else allTiles[ii - 1] + 1;
    var to := if ii == |allTiles| then nFaces else allTiles[ii];
    from == to || (from + 1 == to && from == blank)
  }

  method NonBlankFaces(nFaces: nat, blank: int) returns (allTiles: seq<Tile>)
    ensures Faces(allTiles, nFaces, blank)
    ensures |allTiles| == if 0 <= blank < nFaces then nFaces - 1 else nFaces
  {
    allTiles := [];
    for ii := 0 to nFaces
      invariant |allTiles| == if 0 <= blank < ii then ii - 1 else ii
      invariant Faces(allTiles, ii, blank)
      invariant blank == ii - 1 ==> allTiles == [] || allTiles[|allTiles| - 1] + 1 == ii - 1
      invariant blank != ii - 1 && 0 < ii ==> allTiles != [] && allTiles[|allTiles| - 1] + 1 == ii
      invariant ii == 1 && blank == 0 ==> allTiles == []
      invariant ii > 1 && blank == ii - 1 ==> allTiles != []
    {
      ghost var was := allTiles;
      if ii != blank {
        allTiles := allTiles + [ii];
      }
      ghost var next := ii + 1;
      forall j | 0 <= j <= |allTiles|
        ensures FaceAt(allTiles, j, next, blank)
      {
        if j <= |was| {
          assert FaceAt(was, j, ii, blank);
        }
      }
    }
  }

  lemma RoomStep(n: nat, ii: nat, p: nat)
    requires ii < n
    ensures ii * p + p == (ii + 1) * p <= n * p
  {
  }

  /** Indexes every prefix that begins with `pre`, in order. */
  method DoOneDepth(allTiles: seq<Tile>, pre: Word, maxDepth: nat, data: IndexData, prevIter: DictIter, prev: nat,
                    ghost nFaces: nat, ghost blank: int)
    returns (prevIndex: nat)
    requires |pre| < maxDepth && Faces(allTiles, nFaces, blank) && Spelled(WordsOf(prevIter), nFaces, blank)
    requires InStep(data, prevIter, prev) && IndexedTo(data, prevIter, maxDepth, pre)
    requires data.count + Pow(|allTiles|, maxDepth - |pre|) <= data.indices.Length
    modifies data, data.indices, data.prefixes, prevIter`nEdges, prevIter.edges
    ensures data.Valid() && InStep(data, prevIter, prevIndex) && IndexedTo(data, prevIter, maxDepth, pre + [nFaces])
    ensures data.count <= old(data.count) + Pow(|allTiles|, maxDepth - |pre|)
    decreases maxDepth - |pre|
  {
    hide Indexed, Words, Spelled, InStep, Pow, FaceAt;
    prevIndex := prev;
    ghost var words := WordsOf(prevIter);
    ghost var room := Pow(|allTiles|, maxDepth - |pre| - 1);
    PowStep(|allTiles|, maxDepth - |pre|);
    StepIsValid(data, prevIter, prev);
    EnterPrefix(words, maxDepth, data.Rows(), data.Ranks(), pre);
    ghost var from := 0;
    for ii := 0 to |allTiles|
      invariant data.Valid() && InStep(data, prevIter, prevIndex)
      invariant from == if ii == 0 then 0 else allTiles[ii - 1] + 1
      invariant IndexedTo(data, prevIter, maxDepth, pre + [from])
      invariant data.count <= old(data.count) + ii * room
    {
      FaceIs(allTiles, ii, nFaces, blank);
      NextLetter(words, maxDepth, data.Rows(), data.Ranks(), pre, from, allTiles[ii], nFaces, blank);
      RoomStep(|allTiles|, ii, room);
      var prefix := pre + [allTiles[ii]];
      if |pre| + 1 == maxDepth {
        OneRoom(|allTiles|);
        prevIndex := IndexOne(maxDepth, pre, allTiles[ii], prefix, data, prevIter, prevIndex);
      } else {
        prevIndex := DoOneDepth(allTiles, prefix, maxDepth, data, prevIter, prevIndex, nFaces, blank);
        LeavePrefix(words, maxDepth, data.Rows(), data.Ranks(), pre, allTiles[ii], nFaces, blank);
      }
      from := allTiles[ii] + 1;
    }
    FaceIs(allTiles, |allTiles|, nFaces, blank);
    NextLetter(words, maxDepth, data.Rows(), data.Ranks(), pre, from, nFaces, nFaces, blank);
  }

  lemma PowStep(n: nat, e: nat)
    requires 0 < e
    ensures Pow(n, e) == n * Pow(n, e - 1)
  {
  }

  lemma OneRoom(n: nat)
    ensures Pow(n, 0) == 1
  {
  }

  lemma StepIsValid(data: IndexData, prevIter: DictIter, prev: nat)
    requires InStep(data, prevIter, prev)
    ensures data.Valid()
  {
  }

  lemma FaceIs(allTiles: seq<Tile>, ii: nat, nFaces: nat, blank: int)
    requires Faces(allTiles, nFaces, blank) && ii <= |allTiles|
    ensures var from := if ii == 0 then 0 else allTiles[ii - 1] + 1;
            var to := if ii == |allTiles| then nFaces else allTiles[ii];
            from == to || (from + 1 == to && from == blank)
  {
    assert FaceAt(allTiles, ii, nFaces, blank);
  }

  /** Builds the complete index: for each prefix of that length that occurs, in order, the true rank of its
      first word. There must be room for every string of that length. */
  method MakeIndex(iter: DictIter, depth: nat, nFaces: nat, blank: int, data: IndexData)
    requires 0 < depth && Spelled(WordsOf(iter), nFaces, blank)
    requires data.indices.Length == data.prefixes.Length
    requires Pow(if 0 <= blank < nFaces then nFaces - 1 else nFaces, depth) <= data.indices.Length
    modifies data, data.indices, data.prefixes
    ensures data.Valid() && CompleteIndex(WordsOf(iter), depth, data.Rows(), data.Ranks())
  {
    hide Indexed, Words, Spelled, Entries, CompleteIndex;
    var allTiles := NonBlankFaces(nFaces, blank);
    data.count := 0;
    assert data.Rows() == [] && data.Ranks() == [];
    NothingIndexed(WordsOf(iter), depth);
    var prevIter := new DictIter(iter.dict, iter.min, iter.max);
    var ok := First(prevIter);
    if ok {
      var _ := DoOneDepth(allTiles, [], depth, data, prevIter, 0, nFaces, blank);
      assert [] + [nFaces] == [nFaces];
      AllIndexed(WordsOf(iter), depth, data.Rows(), data.Ranks(), nFaces, blank);
    } else {
      NoWords(iter.dict, iter.min, iter.max, depth);
    }
  }

  lemma NoWords(d: Dict, min: nat, max: nat, depth: nat)
    requires Entries(d, min, max) == []
    ensures CompleteIndex(Words(d, min, max), depth, [], [])
  {
  }

  // Going to the n-th word.

  function Distance(a: int, b: int): nat {
    if a < b then b - a else a - b
  }

  ghost predicate Increasing(ranks: seq<nat>) {
    forall i, j :: 0 <= i < j < |ranks| ==> ranks[i] < ranks[j]
  }

  /** Binary search for the last rank not above the position, then the next one if that is closer. Past the
      last entry the search reads `beyond`, whatever is in memory there; the result does not depend on it.
      With no ranks at all it ends before the first. */
  method ClosestRank(ranks: seq<nat>, position: nat, beyond: int) returns (index: int)
    requires Increasing(ranks)
    ensures index == -1 <==> ranks == []
    ensures -1 <= index < |ranks|
    ensures index != -1 ==> forall i :: 0 <= i < |ranks| ==> Distance(ranks[index], position) <= Distance(ranks[i], position)
  {
    var low, high, at := 0, |ranks| - 1, -1;
    while true
      invariant 0 <= low <= high + 1 <= |ranks| && -1 <= at < |ranks|
      invariant 0 < low ==> ranks[if low < |ranks| then low else low - 1] <= position
      invariant high + 1 < |ranks| ==> position < ranks[high + 1]
      invariant at == -1 ==> low == 0 && high == |ranks| - 1
      invariant at != -1 ==> at == low - 1 || at == high + 1
      invariant low > high && ranks != [] ==> at != -1
      decreases high + 1 - low
    {
      if low > high {
        break;
      }
      at := low + (high - low) / 2;
      if position < ranks[at] {
        high := at - 1;
      } else if (if at + 1 < |ranks| then ranks[at + 1] else beyond) <= position {
        low := at + 1;
      } else {
        break;
      }
    }
    index := at;
    if index + 1 < |ranks| && ranks[index + 1] - position < position - ranks[index] {
      index := index + 1;
    }
  }

  lemma OneFirst(words: seq<Word>, u: Word, j: nat, k: nat)
    requires IsFirstWith(words, u, j)
    ensures !NoneWith(words, u) && (IsFirstWith(words, u, k) ==> k == j)
  {
  }

  lemma IndexRanks(words: seq<Word>, depth: nat, prefixes: seq<Word>, ranks: seq<nat>)
    requires CompleteIndex(words, depth, prefixes, ranks)
    ensures |prefixes| == |ranks| && Increasing(ranks)
    ensures forall i :: 0 <= i < |ranks| ==> |prefixes[i]| == depth && IsFirstWith(words, prefixes[i], ranks[i])
  {
  }

  /** Goes to the first word of an indexed prefix, the one nearest to the position. When nothing is indexed,
      because every word is shorter than the prefixes, the original reads the entry before its arrays: the
      search strays. */
  method PlaceWordClose(iter: DictIter, position: nat, depth: nat, data: IndexData, beyond: int)
    returns (rank: nat, strayed: bool)
    requires iter.Valid() && data.Valid() && 0 < depth && data.indices != iter.edges
    requires CompleteIndex(WordsOf(iter), depth, data.Rows(), data.Ranks())
    modifies iter`nEdges, iter.edges
    ensures strayed <==> AllShorter(WordsOf(iter), depth)
    ensures strayed <==> data.count == 0
    ensures !strayed ==> On(iter, rank) && rank in data.Ranks()
    ensures !strayed ==> forall r :: r in data.Ranks() ==> Distance(rank, position) <= Distance(r, position)
    ensures strayed ==> iter.nEdges == old(iter.nEdges) && iter.edges[..] == old(iter.edges[..])
  {
    hide CompleteIndex, IsFirstWith, NoneWith, Words, Entries, Increasing, Distance;
    ghost var words := WordsOf(iter);
    EmptyIndexIff(words, depth, data.Rows(), data.Ranks());
    IndexRanks(words, depth, data.Rows(), data.Ranks());
    var index := ClosestRank(data.indices[..data.count], position, beyond);
    if index == -1 {
      return 0, true;
    }
    var found;
    ghost var k;
    found, k := FindWordStartsWith(iter, data.prefixes[index]);
    assert IsFirstWith(words, data.Rows()[index], data.Ranks()[index]);
    OneFirst(words, data.Rows()[index], data.Ranks()[index], k);
    rank, strayed := data.indices[index], false;
    assert rank == data.Ranks()[index];
  }

  predicate AllShorter(words: seq<Word>, depth: nat) {
    forall k :: 0 <= k < |words| ==> |words[k]| < depth
  }

  /** What a caller sees between calls: no word, or the word at `position` with all words counted. */
  ghost predicate Positioned(iter: DictIter)
    reads iter, iter.edges
  {
    && iter.Valid()
    && (0 < iter.nEdges ==>
          && 0 <= iter.position && On(iter, iter.position)
          && iter.nWords == |Entries(iter.dict, iter.min, iter.max)|)
  }

  method InitWord(iter: DictIter)
    modifies iter`nWords
    ensures iter.nWords == |Entries(iter.dict, iter.min, iter.max)|
  {
    var count, _ := CountWords(iter);
    iter.nWords := count;
  }

  method DiFirstWord(iter: DictIter) returns (success: bool)
    requires iter.Valid()
    modifies iter, iter.edges
    ensures success <==> Entries(iter.dict, iter.min, iter.max) != []
    ensures success ==> Positioned(iter) && iter.position == 0 && 0 < iter.nEdges
  {
    hide Entries;
    success := First(iter);
    if success {
      InitWord(iter);
      iter.position := 0;
      OnHasEdges(iter, 0);
    }
  }

  method DiLastWord(iter: DictIter) returns (success: bool)
    requires iter.Valid() && iter.dict.top.At?
    modifies iter, iter.edges
    ensures success <==> Entries(iter.dict, iter.min, iter.max) != []
    ensures success ==> Positioned(iter) && iter.position == |Entries(iter.dict, iter.min, iter.max)| - 1 && 0 < iter.nEdges
  {
    hide Entries, NoneAfter, IsEntry;
    success := iter.LastWord();
    LastOrNone(iter.dict, iter.min, iter.max, success, iter.CurPath());
    if success {
      InitWord(iter);
      iter.position := iter.nWords - 1;
      OnHasEdges(iter, iter.nWords - 1);
    }
  }

  lemma LastOrNone(d: Dict, min: nat, max: nat, success: bool, r: Path)
    requires success ==> IsEntry(d, min, max, r) && NoneAfter(d, min, max, r)
    requires !success ==> NoneAfter(d, min, max, [])
    ensures success <==> Entries(d, min, max) != []
    ensures success ==> r == Entries(d, min, max)[|Entries(d, min, max)| - 1]
  {
    FirstAndLast(d, min, max, r);
  }

  lemma OnHasEdges(iter: DictIter, k: nat)
    requires On(iter, k)
    ensures 0 < iter.nEdges && iter.dict.top.At?
  {
    WordsAreEntries(iter.dict, iter.min, iter.max, k);
    assert Linked(iter.dict, iter.CurPath(), 0);
  }

  lemma SomeWordsHaveTop(d: Dict, min: nat, max: nat)
    requires Entries(d, min, max) != []
    ensures d.top.At?
  {
  }

  /** Steps from the word at `from` to the word at `to`, forwards or backwards; no step fails. */
  method Walk(iter: DictIter, from: nat, to: nat)
    requires On(iter, from) && to < |Entries(iter.dict, iter.min, iter.max)|
    modifies iter`nEdges, iter.edges
    ensures On(iter, to)
  {
    hide Entries;
    var repeats := if from < to then to - from else from - to;
    ghost var at: nat := from;
    while repeats > 0
      invariant On(iter, at) && repeats == (if from < to then to - at else at - to)
      invariant from < to ==> at <= to
      invariant from >= to ==> to <= at
      decreases repeats
    {
      var ok;
      if from < to {
        ok := Next(iter, at);
        at := at + 1;
      } else {
        ok := Prev(iter, at);
        at := at - 1;
      }
      assert ok;
      repeats := repeats - 1;
    }
  }

  /** Without an index: from the current word, or, when there is none or it is more than half the list away,
      from the nearer end. */
  method StartWithoutIndex(iter: DictIter, position: nat, wordCount: nat, valid: bool) returns (wordIndex: nat)
    requires Positioned(iter) && valid == (0 < iter.nEdges)
    requires position < wordCount == |Entries(iter.dict, iter.min, iter.max)|
    modifies iter, iter.edges
    ensures iter.Valid() && On(iter, wordIndex) && iter.nWords == |Entries(iter.dict, iter.min, iter.max)|
  {
    hide Entries;
    var validWord, middle := valid, wordCount / 2;
    if validWord && (if position < iter.position then iter.position - position else position - iter.position) > middle {
      validWord := false;
    }
    if !validWord {
      var ok;
      SomeWordsHaveTop(iter.dict, iter.min, iter.max);
      if position >= middle {
        ok := DiLastWord(iter);
      } else {
        ok := DiFirstWord(iter);
      }
      assert ok;
    }
    wordIndex := iter.position;
  }

  /** Steps on to the next word and keeps count. */
  method DiGetNextWord(iter: DictIter) returns (success: bool)
    requires 0 <= iter.position && On(iter, iter.position)
    modifies iter`nEdges, iter`position, iter.edges
    ensures success <==> old(iter.position) + 1 < |Entries(iter.dict, iter.min, iter.max)|
    ensures success ==> iter.position == old(iter.position) + 1 && On(iter, iter.position)
    ensures !success ==> iter.position == old(iter.position)
  {
    hide Entries;
    success := Next(iter, iter.position);
    if success {
      iter.position := iter.position + 1;
    }
  }

  method DiGetPrevWord(iter: DictIter) returns (success: bool)
    requires 0 <= iter.position && On(iter, iter.position)
    modifies iter`nEdges, iter`position, iter.edges
    ensures success <==> 0 < old(iter.position)
    ensures success ==> iter.position == old(iter.position) - 1 && 0 <= iter.position && On(iter, iter.position)
    ensures !success ==> iter.position == old(iter.position)
  {
    hide Entries;
    success := Prev(iter, iter.position);
    if success {
      iter.position := iter.position - 1;
    }
  }

  /** It is on the word sought, or next to it. */
  predicate Near(iter: DictIter, position: nat)
    reads iter
  {
    0 < iter.nEdges && -1 <= iter.position - position <= 1
  }

  /** Goes to the word at `position`, whichever way is quickest: it is there already, or one step away, or
      from an indexed prefix, or from the current word or an end of the list. It arrives exactly when there is
      such a word, unless it needs an index in which there is nothing. */
  method GetNthWord(iter: DictIter, position: nat, depth: nat, data: IndexData?, beyond: int, dictWords: nat)
    returns (success: bool, strayed: bool)
    requires Positioned(iter) && dictWords == |Entries(iter.dict, iter.min, iter.max)|
    requires data != null ==>
               data.Valid() && 0 < depth && data.indices != iter.edges
               && CompleteIndex(WordsOf(iter), depth, data.Rows(), data.Ranks())
    modifies iter, iter.edges
    ensures Positioned(iter)
    ensures strayed <==> position < |Entries(iter.dict, iter.min, iter.max)| && data != null
                         && AllShorter(WordsOf(iter), depth) && !old(Near(iter, position))
    ensures success <==> position < |Entries(iter.dict, iter.min, iter.max)| && !strayed
    ensures success ==> On(iter, position) && iter.position == position
    ensures !success ==> iter.CurPath() == old(iter.CurPath()) && iter.position == old(iter.position)
  {
    hide Entries, CompleteIndex, Words, Distance, AllShorter;
    strayed := false;
    var validWord := 0 < iter.nEdges;
    var wordCount := if validWord then iter.nWords else dictWords;
    success := position < wordCount;
    if success {
      success := false;
      if validWord {
        if iter.position == position {
          success := true;
        } else if iter.position == position - 1 {
          success := DiGetNextWord(iter);
        } else if iter.position == position + 1 {
          success := DiGetPrevWord(iter);
        }
      }
      if !success {
        var wordIndex;
        if data != null {
          wordIndex, strayed := PlaceWordClose(iter, position, depth, data, beyond);
          if strayed {
            return;
          }
          if !validWord {
            InitWord(iter);
          }
        } else {
          wordIndex := StartWithoutIndex(iter, position, wordCount, validWord);
        }
        Walk(iter, wordIndex, position);
        iter.position := position;
        success := true;
      }
      OnHasEdges(iter, position);
    }
  }

  /** A dictionary of one word of one letter, indexed by its prefixes of two: the first word of all is not
      reached. */
  method ShortWordsStray(beyond: int) returns (success: bool, strayed: bool)
    ensures strayed && !success
  {
    var d: Dict := Graph([Edge(0, true, true, 0)], At(0), [1]);
    OneWord(d);
    var iter := new DictIter(d, 0, MAX_COLS_DICT);
    var data := new IndexData(2);
    MakeIndex(iter, 2, 1, -1, data);
    var walker := new DictIter(d, 0, MAX_COLS_DICT);
    success, strayed := GetNthWord(walker, 0, 2, data, beyond, 1);
  }

  lemma OneWord(d: Dict)
    requires d.edges == [Edge(0, true, true, 0)] && d.top == At(0)
    ensures |Entries(d, 0, MAX_COLS_DICT)| == 1 && Words(d, 0, MAX_COLS_DICT) == [[0]]
  {
    var p: Path := [] + [0];
    assert p == [0];
    assert EntriesFrom(d, 0, MAX_COLS_DICT, [], 0) == [p] + [] + [];
    assert Entries(d, 0, MAX_COLS_DICT) == [p];
    assert WordOf(d, p) == [0];
  }
}
