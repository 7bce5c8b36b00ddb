/** The bag of tiles not yet drawn (xwords4/common/pool.c): a count for each letter and their sum. */
module Pool {
  import opened Dawg

  function Sum(counts: seq<nat>): nat {
    if counts == [] then 0 else Sum(counts[..|counts| - 1]) + counts[|counts| - 1]
  }

  /** The tiles the counts stand for. */
  ghost function Bag(counts: seq<nat>): multiset<Tile> {
    if counts == [] then multiset{}
    else Bag(counts[..|counts| - 1])[|counts| - 1 := counts[|counts| - 1]]
  }

  lemma {:induction false} BagCounts(counts: seq<nat>, t: Tile)
    ensures Bag(counts)[t] == if t < |counts| then counts[t] else 0
  {
    if counts != [] {
      BagCounts(counts[..|counts| - 1], t);
    }
  }

  /** The number of tiles left is the number the letters add up to. */
  lemma {:induction false} BagSize(counts: seq<nat>)
    ensures |Bag(counts)| == Sum(counts)
  {
    if counts != [] {
      var less := counts[..|counts| - 1];
      BagSize(less);
      BagCounts(less, |less|);
    }
  }

  lemma BagChanged(counts: seq<nat>, t: Tile, n: nat)
    requires t < |counts|
    ensures Bag(counts[t := n]) == Bag(counts)[t := n]
  {
    var was, now := Bag(counts)[t := n], Bag(counts[t := n]);
    forall u: Tile
      ensures now[u] == was[u]
    {
      BagCounts(counts, u);
      BagCounts(counts[t := n], u);
    }
  }

  lemma {:induction false} SumChanged(counts: seq<nat>, t: Tile, n: nat)
    requires t < |counts|
    ensures Sum(counts[t := n]) + counts[t] == Sum(counts) + n
  {
    var last := |counts| - 1;
    if t < last {
      SumChanged(counts[..last], t, n);
      assert counts[t := n][..last] == counts[..last][t := n];
    } else {
      assert counts[t := n][..last] == counts[..last];
    }
  }

  predicate Letters(n: nat, tiles: seq<Tile>) {
    forall k :: 0 <= k < |tiles| ==> tiles[k] < n
  }

  /** Taking the tiles out one at a time never finds a letter used up. */
  predicate RemovalSafe(counts: seq<nat>, tiles: seq<Tile>)
    requires Letters(|counts|, tiles)
    decreases |tiles|
  {
    tiles == [] || (counts[tiles[0]] > 0 && RemovalSafe(counts[tiles[0] := counts[tiles[0]] - 1], tiles[1..]))
  }

  lemma {:induction false} SafeIffContained(counts: seq<nat>, tiles: seq<Tile>)
    requires Letters(|counts|, tiles)
    ensures RemovalSafe(counts, tiles) <==> multiset(tiles) <= Bag(counts)
    decreases |tiles|
  {
    hide Bag;
    if tiles != [] {
      var t := tiles[0];
      assert tiles == [t] + tiles[1..];
      BagCounts(counts, t);
      OneInBag(tiles, Bag(counts));
      if counts[t] > 0 {
        BagChanged(counts, t, counts[t] - 1);
        SafeIffContained(counts[t := counts[t] - 1], tiles[1..]);
      }
    }
  }

  /** Taking one tile out of a bag, and the rest out of what is left. */
  lemma OneInBag(tiles: seq<Tile>, bag: multiset<Tile>)
    requires tiles != []
    ensures multiset(tiles) <= bag <==> bag[tiles[0]] > 0 && multiset(tiles[1..]) <= bag[tiles[0] := bag[tiles[0]] - 1]
  {
    var t := tiles[0];
    assert tiles == [t] + tiles[1..];
    assert multiset(tiles) == multiset{t} + multiset(tiles[1..]);
    if bag[t] > 0 {
      assert bag == bag[t := bag[t] - 1] + multiset{t};
    } else {
      assert multiset(tiles)[t] > 0;
    }
  }

  class Pool {
    const lettersLeft: array<nat>
    var numTilesLeft: nat

    ghost predicate Valid()
      reads this, lettersLeft
    {
      numTilesLeft == Sum(lettersLeft[..])
    }

    ghost function Contents(): multiset<Tile>
      reads lettersLeft
    {
      Bag(lettersLeft[..])
    }

    /** From the number of tiles of each face in the dictionary. */
    constructor (numTiles: seq<nat>)
      ensures Valid() && fresh(lettersLeft) && lettersLeft[..] == numTiles
    {
      var letters := new nat[|numTiles|];
      var left: nat := 0;
      for ii := 0 to |numTiles|
        invariant forall k :: 0 <= k < ii ==> letters[k] == numTiles[k]
        invariant left == Sum(numTiles[..ii])
      {
        letters[ii] := numTiles[ii];
        left := left + numTiles[ii];
        assert numTiles[..ii + 1][..ii] == numTiles[..ii];
      }
      assert letters[..] == numTiles && numTiles[..|numTiles|] == numTiles;
      lettersLeft := letters;
      numTilesLeft := left;
    }

    /** With the tiles laid out letter by letter, the one at `index`. */
    method GetNthPoolTile(index: nat) returns (curLetter: Tile)
      requires Valid() && index < numTilesLeft
      ensures curLetter < lettersLeft.Length && lettersLeft[curLetter] > 0
      ensures Sum(lettersLeft[..curLetter]) <= index < Sum(lettersLeft[..curLetter + 1])
    {
      var nextCount: int := index;
      curLetter := 0;
      while true
        invariant curLetter <= lettersLeft.Length
        invariant 0 <= nextCount == index - Sum(lettersLeft[..curLetter])
        decreases lettersLeft.Length - curLetter
      {
        assert lettersLeft[..lettersLeft.Length] == lettersLeft[..];
        assert lettersLeft[..curLetter + 1][..curLetter] == lettersLeft[..curLetter];
        nextCount := nextCount - lettersLeft[curLetter];
        if nextCount < 0 {
          return;
        }
        curLetter := curLetter + 1;
      }
    }

    method TakeOne(t: Tile)
      requires Valid() && t < lettersLeft.Length && lettersLeft[t] > 0
      modifies this, lettersLeft
      ensures Valid() && numTilesLeft == old(numTilesLeft) - 1
      ensures lettersLeft[..] == old(lettersLeft[..])[t := old(lettersLeft[t]) - 1]
      ensures Contents() + multiset{t} == old(Contents())
    {
      SumChanged(lettersLeft[..], t, lettersLeft[t] - 1);
      BagChanged(lettersLeft[..], t, lettersLeft[t] - 1);
      BagCounts(lettersLeft[..], t);
      lettersLeft[t] := lettersLeft[t] - 1;
      numTilesLeft := numTilesLeft - 1;
      assert lettersLeft[..] == old(lettersLeft[..])[t := old(lettersLeft[t]) - 1];
    }

    /** `random` is the number drawn from the generator. */
    method GetRandomTile(random: nat) returns (t: Tile)
      requires Valid() && numTilesLeft > 0
      modifies this, lettersLeft
      ensures Valid() && numTilesLeft == old(numTilesLeft) - 1
      ensures t < lettersLeft.Length && Contents() + multiset{t} == old(Contents())
      ensures var index := random % old(numTilesLeft);
              Sum(old(lettersLeft[..])[..t]) <= index < Sum(old(lettersLeft[..])[..t + 1])
    {
      t := GetNthPoolTile(random % numTilesLeft);
      assert lettersLeft[..][..t] == lettersLeft[..t] && lettersLeft[..][..t + 1] == lettersLeft[..t + 1];
      TakeOne(t);
    }

    /** As many tiles as wanted, or all there are; what is drawn leaves the pool. */
    method RequestTiles(maxNum: nat, random: seq<nat>) returns (tiles: seq<Tile>)
      requires Valid() && maxNum <= |random|
      modifies this, lettersLeft
      ensures Valid() && |tiles| == if maxNum < old(numTilesLeft) then maxNum else old(numTilesLeft)
      ensures Letters(lettersLeft.Length, tiles)
      ensures Contents() + multiset(tiles) == old(Contents())
    {
      tiles := [];
      while numTilesLeft > 0 && |tiles| < maxNum
        invariant Valid() && |tiles| <= maxNum && |tiles| + numTilesLeft == old(numTilesLeft)
        invariant Letters(lettersLeft.Length, tiles)
        invariant Contents() + multiset(tiles) == old(Contents())
        decreases numTilesLeft
      {
        var t := GetRandomTile(random[|tiles|]);
        tiles := tiles + [t];
      }
    }

    method PutOne(t: Tile)
      requires Valid() && t < lettersLeft.Length
      modifies this, lettersLeft
      ensures Valid() && Contents() == old(Contents()) + multiset{t}
    {
      ghost var counts: seq<nat> := lettersLeft[..];
      SumChanged(counts, t, counts[t] + 1);
      BagChanged(counts, t, counts[t] + 1);
      BagCounts(counts, t);
      lettersLeft[t] := lettersLeft[t] + 1;
      numTilesLeft := numTilesLeft + 1;
      assert lettersLeft[..] == counts[t := counts[t] + 1];
    }

    method ReplaceTiles(tiles: seq<Tile>)
      requires Valid() && Letters(lettersLeft.Length, tiles)
      modifies this, lettersLeft
      ensures Valid() && Contents() == old(Contents()) + multiset(tiles)
    {
      for ii := 0 to |tiles|
        invariant Valid() && Contents() == old(Contents()) + multiset(tiles[..ii])
      {
        PutOne(tiles[ii]);
        assert tiles[..ii + 1] == tiles[..ii] + [tiles[ii]];
      }
      assert tiles[..|tiles|] == tiles;
    }

    method RemoveTiles(tiles: seq<Tile>)
      requires Valid() && Letters(lettersLeft.Length, tiles) && RemovalSafe(lettersLeft[..], tiles)
      modifies this, lettersLeft
      ensures Valid() && Contents() + multiset(tiles) == old(Contents())
    {
      for ii := 0 to |tiles|
        invariant Valid() && RemovalSafe(lettersLeft[..], tiles[ii..])
        invariant Contents() + multiset(tiles[..ii]) == old(Contents())
      {
        assert tiles[ii..][0] == tiles[ii] && tiles[ii..][1..] == tiles[ii + 1..];
        TakeOne(tiles[ii]);
        assert tiles[..ii + 1] == tiles[..ii] + [tiles[ii]];
      }
      assert tiles[..|tiles|] == tiles;
    }

    /** Answers yes exactly when the tiles can be removed, which is when they are all in the pool. */
    method ContainsTiles(tiles: seq<Tile>) returns (allThere: bool)
      requires Letters(lettersLeft.Length, tiles)
      ensures allThere <==> RemovalSafe(lettersLeft[..], tiles)
      ensures allThere <==> multiset(tiles) <= Contents()
    {
      SafeIffContained(lettersLeft[..], tiles);
      var counts: seq<nat> := lettersLeft[..];
      allThere := true;
      var ii := 0;
      while allThere && ii < |tiles|
        invariant 0 <= ii <= |tiles| && |counts| == lettersLeft.Length
        invariant allThere ==> (RemovalSafe(counts, tiles[ii..]) <==> RemovalSafe(lettersLeft[..], tiles))
        invariant !allThere ==> !RemovalSafe(lettersLeft[..], tiles)
      {
        assert tiles[ii..][0] == tiles[ii] && tiles[ii..][1..] == tiles[ii + 1..];
        allThere := 0 < counts[tiles[ii]];
        if allThere {
          counts := counts[tiles[ii] := counts[tiles[ii]] - 1];
        }
        ii := ii + 1;
      }
    }
  }
}
