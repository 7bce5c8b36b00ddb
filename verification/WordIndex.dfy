/** An index into a sorted list of words: for each prefix of some length that occurs, in order, the rank of
    the first word that has it. */
module WordIndex {
  import opened Dawg
  import opened TrieOrder

  predicate HasPrefix(w: Word, u: Word) {
    |u| <= |w| && w[..|u|] == u
  }

  ghost predicate SortedWords(words: seq<Word>) {
    forall a, b :: 0 <= a < b < |words| ==> Less(words[a], words[b])
  }

  ghost predicate IsFirstWith(words: seq<Word>, u: Word, k: nat) {
    k < |words| && HasPrefix(words[k], u) && forall j :: 0 <= j < |words| && HasPrefix(words[j], u) ==> k <= j
  }

  ghost predicate NoneWith(words: seq<Word>, u: Word) {
    forall j :: 0 <= j < |words| ==> !HasPrefix(words[j], u)
  }

  /** Words are ordered as their differing prefixes are. */
  lemma PrefixesOrderWords(u: Word, v: Word, w: Word, x: Word)
    requires |u| == |v| && Less(u, v) && HasPrefix(w, u) && HasPrefix(x, v)
    ensures Less(w, x)
  {
    var k := Agree(u, v);
    assert w[..k] == w[..|u|][..k] == u[..k] == v[..k] == x[..|v|][..k] == x[..k];
    assert w[k] == w[..|u|][k] && x[k] == x[..|v|][k];
    AgreeIs(w, x, k);
  }

  /** The first words with differing prefixes are ordered as the prefixes are. */
  lemma RanksIncrease(words: seq<Word>, u: Word, v: Word, j: nat, k: nat)
    requires SortedWords(words) && |u| == |v| && Less(u, v)
    requires IsFirstWith(words, u, j) && IsFirstWith(words, v, k)
    ensures j < k
  {
    PrefixesOrderWords(u, v, words[j], words[k]);
    if k <= j {
      LessTotal(words[j], words[k]);
    }
  }

  /** Whether the prefix comes before everything that begins with `bound`. */
  predicate Under(u: Word, bound: Word) {
    Less(u, bound)
  }

  ghost predicate EntryOk(words: seq<Word>, depth: nat, u: Word, rank: nat, bound: Word) {
    |u| == depth && IsFirstWith(words, u, rank) && Under(u, bound)
  }

  /** Exactly the prefixes that occur and come before `bound` are listed, in order, with the rank of the
      first word that has each. */
  ghost predicate Indexed(words: seq<Word>, depth: nat, prefixes: seq<Word>, ranks: seq<nat>, bound: Word) {
    && |prefixes| == |ranks|
    && (forall i :: 0 <= i < |ranks| ==> EntryOk(words, depth, prefixes[i], ranks[i], bound))
    && (forall i, j :: 0 <= i < j < |ranks| ==> Less(prefixes[i], prefixes[j]) && ranks[i] < ranks[j])
    && forall k :: 0 <= k < |words| && depth <= |words[k]| && Under(words[k][..depth], bound) ==>
         words[k][..depth] in prefixes
  }

  /** The bound may move on over prefixes that do not occur. */
  lemma BoundMoves(words: seq<Word>, depth: nat, prefixes: seq<Word>, ranks: seq<nat>, bound: Word, next: Word)
    requires Indexed(words, depth, prefixes, ranks, bound)
    requires forall i :: 0 <= i < |prefixes| && Under(prefixes[i], bound) ==> Under(prefixes[i], next)
    requires forall k :: 0 <= k < |words| && depth <= |words[k]| && Under(words[k][..depth], next) ==>
               Under(words[k][..depth], bound) || words[k][..depth] in prefixes
    ensures Indexed(words, depth, prefixes, ranks, next)
  {
    hide Under, IsFirstWith;
  }

  lemma NothingIndexed(words: seq<Word>, depth: nat)
    ensures Indexed(words, depth, [], [], [])
  {
  }

  // Bounds: the strings that begin with `pre` come between `pre` and `pre` with its last letter raised.

  lemma PrefixAt(u: Word, pre: Word, k: nat)
    requires HasPrefix(u, pre) && k < |pre|
    ensures u[k] == pre[k]
  {
    assert u[..|pre|][k] == pre[k];
  }

  lemma UnderNext(u: Word, pre: Word, t: nat)
    requires |pre| < |u|
    ensures Under(u, pre + [t + 1]) <==> Under(u, pre + [t]) || HasPrefix(u, pre + [t])
    ensures Under(u, pre + [t]) <==> Under(u, pre) || (HasPrefix(u, pre) && u[|pre|] < t)
  {
    var k := Agree(u, pre);
    if k < |pre| {
      assert u[..k] == pre[..k] == (pre + [t])[..k] == (pre + [t + 1])[..k];
      AgreeIs(u, pre + [t], k);
      AgreeIs(u, pre + [t + 1], k);
      if HasPrefix(u, pre) {
        PrefixAt(u, pre, k);
      }
      if HasPrefix(u, pre + [t]) {
        PrefixAt(u, pre + [t], k);
      }
    } else {
      assert pre == pre[..k] == u[..|pre|];
      assert u[..|pre| + 1] == pre + [u[|pre|]];
      assert (pre + [t])[..|pre|] == pre == (pre + [t + 1])[..|pre|];
      UnderAt(u, pre, t);
      UnderAt(u, pre, t + 1);
      assert !Under(u, pre);
      if HasPrefix(u, pre + [t]) {
        PrefixAt(u, pre + [t], |pre|);
      }
    }
  }

  lemma UnderAt(u: Word, pre: Word, t: nat)
    requires |pre| < |u| && u[..|pre|] == pre
    ensures Under(u, pre + [t]) <==> u[|pre|] < t
  {
    assert (pre + [t])[..|pre|] == pre;
    if u[|pre|] == t {
      assert u[..|pre| + 1] == pre + [t];
      AgreeIs(u, pre + [t], |pre| + 1);
    } else {
      AgreeIs(u, pre + [t], |pre|);
    }
  }

  /** A prefix that occurs is added after those before it. */
  lemma OneIndexed(words: seq<Word>, depth: nat, prefixes: seq<Word>, ranks: seq<nat>, pre: Word, t: nat, k: nat)
    requires SortedWords(words) && |pre| + 1 == depth && Indexed(words, depth, prefixes, ranks, pre + [t])
    requires IsFirstWith(words, pre + [t], k)
    ensures Indexed(words, depth, prefixes + [pre + [t]], ranks + [k], pre + [t + 1])
  {
    hide Under, IsFirstWith;
    var u := pre + [t];
    UnderNext(u, pre, t);
    assert u[..depth] == u;
    forall i | 0 <= i < |ranks|
      ensures EntryOk(words, depth, prefixes[i], ranks[i], pre + [t + 1]) && Less(prefixes[i], u) && ranks[i] < k
    {
      assert EntryOk(words, depth, prefixes[i], ranks[i], u);
      UnderNext(prefixes[i], pre, t);
      IsUnder(prefixes[i], u);
      RanksIncrease(words, prefixes[i], u, ranks[i], k);
    }
    forall j | 0 <= j < |words| && depth <= |words[j]| && Under(words[j][..depth], pre + [t + 1])
      ensures words[j][..depth] in prefixes + [u]
    {
      var v := words[j][..depth];
      UnderNext(v, pre, t);
      assert v[..depth] == v;
    }
  }

  lemma IsUnder(u: Word, v: Word)
    ensures Under(u, v) <==> Less(u, v)
  {
  }

  /** A prefix that does not occur is passed over. */
  lemma NoneIndexed(words: seq<Word>, depth: nat, prefixes: seq<Word>, ranks: seq<nat>, pre: Word, t: nat)
    requires |pre| + 1 == depth && Indexed(words, depth, prefixes, ranks, pre + [t]) && NoneWith(words, pre + [t])
    ensures Indexed(words, depth, prefixes, ranks, pre + [t + 1])
  {
    hide Under, IsFirstWith;
    forall i | 0 <= i < |prefixes|
      ensures Under(prefixes[i], pre + [t]) ==> Under(prefixes[i], pre + [t + 1])
    {
      assert EntryOk(words, depth, prefixes[i], ranks[i], pre + [t]);
      UnderNext(prefixes[i], pre, t);
    }
    forall k | 0 <= k < |words| && depth <= |words[k]| && Under(words[k][..depth], pre + [t + 1])
      ensures Under(words[k][..depth], pre + [t])
    {
      UnderNext(words[k][..depth], pre, t);
      assert !HasPrefix(words[k], pre + [t]);
    }
    BoundMoves(words, depth, prefixes, ranks, pre + [t], pre + [t + 1]);
  }

  /** The letters of every word are among the `nFaces` faces and are not the blank. */
  ghost predicate Spelled(words: seq<Word>, nFaces: nat, blank: int) {
    forall k, i :: 0 <= k < |words| && 0 <= i < |words[k]| ==> words[k][i] < nFaces && words[k][i] != blank
  }

  /** Between letters `t` and `t'` lies at most the blank, which no word has. */
  lemma NextLetter(words: seq<Word>, depth: nat, prefixes: seq<Word>, ranks: seq<nat>, pre: Word, t: nat, t': nat,
                   nFaces: nat, blank: int)
    requires |pre| < depth && Indexed(words, depth, prefixes, ranks, pre + [t]) && Spelled(words, nFaces, blank)
    requires t == t' || (t + 1 == t' && t == blank)
    ensures Indexed(words, depth, prefixes, ranks, pre + [t'])
  {
    hide Under, IsFirstWith;
    forall i | 0 <= i < |prefixes|
      ensures Under(prefixes[i], pre + [t]) ==> Under(prefixes[i], pre + [t'])
    {
      assert EntryOk(words, depth, prefixes[i], ranks[i], pre + [t]);
      UnderNext(prefixes[i], pre, t);
      UnderNext(prefixes[i], pre, t');
    }
    forall k | 0 <= k < |words| && depth <= |words[k]| && Under(words[k][..depth], pre + [t'])
      ensures Under(words[k][..depth], pre + [t])
    {
      UnderNext(words[k][..depth], pre, t);
      UnderNext(words[k][..depth], pre, t');
      assert words[k][|pre|] != blank;
    }
    BoundMoves(words, depth, prefixes, ranks, pre + [t], pre + [t']);
  }

  /** Having come to `pre` is having come to `pre` followed by the lowest letter. */
  lemma EnterPrefix(words: seq<Word>, depth: nat, prefixes: seq<Word>, ranks: seq<nat>, pre: Word)
    requires |pre| < depth && Indexed(words, depth, prefixes, ranks, pre)
    ensures Indexed(words, depth, prefixes, ranks, pre + [0])
  {
    hide Under, IsFirstWith;
    forall i | 0 <= i < |prefixes|
      ensures Under(prefixes[i], pre) ==> Under(prefixes[i], pre + [0])
    {
      assert EntryOk(words, depth, prefixes[i], ranks[i], pre);
      UnderNext(prefixes[i], pre, 0);
    }
    forall k | 0 <= k < |words| && depth <= |words[k]| && Under(words[k][..depth], pre + [0])
      ensures Under(words[k][..depth], pre)
    {
      UnderNext(words[k][..depth], pre, 0);
    }
    BoundMoves(words, depth, prefixes, ranks, pre, pre + [0]);
  }

  /** Having gone through every letter after `pre + [t]` is having come to the letter after `t`. */
  lemma LeavePrefix(words: seq<Word>, depth: nat, prefixes: seq<Word>, ranks: seq<nat>, pre: Word, t: nat,
                    nFaces: nat, blank: int)
    requires |pre| + 1 < depth && Indexed(words, depth, prefixes, ranks, pre + [t] + [nFaces])
    requires Spelled(words, nFaces, blank)
    ensures Indexed(words, depth, prefixes, ranks, pre + [t + 1])
  {
    hide Under, IsFirstWith;
    forall i | 0 <= i < |prefixes|
      ensures Under(prefixes[i], pre + [t] + [nFaces]) ==> Under(prefixes[i], pre + [t + 1])
    {
      assert EntryOk(words, depth, prefixes[i], ranks[i], pre + [t] + [nFaces]);
      UnderNext(prefixes[i], pre + [t], nFaces);
      UnderNext(prefixes[i], pre, t);
    }
    forall k | 0 <= k < |words| && depth <= |words[k]| && Under(words[k][..depth], pre + [t + 1])
      ensures Under(words[k][..depth], pre + [t] + [nFaces])
    {
      UnderNext(words[k][..depth], pre + [t], nFaces);
      UnderNext(words[k][..depth], pre, t);
      assert words[k][..depth][|pre| + 1] == words[k][|pre| + 1] < nFaces;
    }
    BoundMoves(words, depth, prefixes, ranks, pre + [t] + [nFaces], pre + [t + 1]);
  }

  /** A complete index: every prefix of that length that occurs, each with the rank of its first word. */
  ghost predicate CompleteIndex(words: seq<Word>, depth: nat, prefixes: seq<Word>, ranks: seq<nat>) {
    && |prefixes| == |ranks|
    && (forall i :: 0 <= i < |ranks| ==> |prefixes[i]| == depth && IsFirstWith(words, prefixes[i], ranks[i]))
    && (forall i, j :: 0 <= i < j < |ranks| ==> ranks[i] < ranks[j])
    && forall k :: 0 <= k < |words| && depth <= |words[k]| ==> words[k][..depth] in prefixes
  }

  lemma AllIndexed(words: seq<Word>, depth: nat, prefixes: seq<Word>, ranks: seq<nat>, nFaces: nat, blank: int)
    requires 0 < depth && Indexed(words, depth, prefixes, ranks, [nFaces]) && Spelled(words, nFaces, blank)
    ensures CompleteIndex(words, depth, prefixes, ranks)
  {
    hide Under, IsFirstWith;
    forall i | 0 <= i < |ranks|
      ensures |prefixes[i]| == depth && IsFirstWith(words, prefixes[i], ranks[i])
    {
      assert EntryOk(words, depth, prefixes[i], ranks[i], [nFaces]);
    }
    forall k | 0 <= k < |words| && depth <= |words[k]|
      ensures words[k][..depth] in prefixes
    {
      UnderNext(words[k][..depth], [], nFaces);
      assert [] + [nFaces] == [nFaces];
      assert words[k][..depth][0] == words[k][0];
    }
  }

  /** The index is empty exactly when every word is shorter than its prefixes. */
  lemma EmptyIndexIff(words: seq<Word>, depth: nat, prefixes: seq<Word>, ranks: seq<nat>)
    requires CompleteIndex(words, depth, prefixes, ranks)
    ensures ranks == [] <==> forall k :: 0 <= k < |words| ==> |words[k]| < depth
  {
    if ranks != [] {
      assert HasPrefix(words[ranks[0]], prefixes[0]);
    }
  }
}
