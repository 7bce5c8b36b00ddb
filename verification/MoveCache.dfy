/** The cache of best moves found (xwords4/common/engine.c), for a human player stepping forward: each
    search keeps the best few moves below the last one seen, and they are handed out best first. */
module MoveCache {

  const NUM_SAVED_ENGINE_MOVES: nat := 10

  /** Above any score. */
  const NO_LIMIT: nat := 0xffff

  /** A scored move; `key` stands for its bytes, which break ties in the order `memcmp` gives them. */
  datatype PossibleMove = PossibleMove(score: nat, key: nat)

  datatype Option<T> = None | Some(value: T)

  predicate Less(a: PossibleMove, b: PossibleMove) {
    a.score < b.score || (a.score == b.score && a.key < b.key)
  }

  function CmpMoves(a: PossibleMove, b: PossibleMove): int {
    if a.score == b.score then a.key - b.key
    else if a.score < b.score then -1
    else 1
  }

  /** The entries that hold a move: a score of zero marks a free one. */
  ghost function Kept(saved: seq<PossibleMove>): multiset<PossibleMove> {
    if saved == [] then multiset{}
    else Kept(saved[..|saved| - 1]) + AsBag(saved[|saved| - 1])
  }

  function AsBag(m: PossibleMove): multiset<PossibleMove> {
    if m.score > 0 then multiset{m} else multiset{}
  }

  predicate Qualifies(m: PossibleMove, limit: PossibleMove) {
    m.score > 0 && Less(m, limit)
  }

  /** The candidates a search may keep. */
  ghost function Eligible(cands: seq<PossibleMove>, limit: PossibleMove): multiset<PossibleMove> {
    if cands == [] then multiset{}
    else
      var last := cands[|cands| - 1];
      Eligible(cands[..|cands| - 1], limit) + if Qualifies(last, limit) then multiset{last} else multiset{}
  }

  /** The `n` greatest of `all`, or all of them when there are fewer. */
  ghost predicate Greatest(best: multiset<PossibleMove>, all: multiset<PossibleMove>, n: nat) {
    && best <= all
    && |best| == (if |all| < n then |all| else n)
    && forall x, y :: x in best && y in all - best ==> !Less(x, y)
  }

  lemma {:induction false} KeptHas(saved: seq<PossibleMove>, m: PossibleMove)
    ensures m in Kept(saved) <==> m in saved && m.score > 0
    ensures |Kept(saved)| <= |saved|
  {
    if saved != [] {
      var less := saved[..|saved| - 1];
      KeptHas(less, m);
      assert m in saved <==> m in less || m == saved[|saved| - 1];
    }
  }

  lemma {:induction false} KeptChangedAt(saved: seq<PossibleMove>, i: nat, m: PossibleMove, x: PossibleMove)
    requires i < |saved|
    ensures Kept(saved[i := m])[x] + AsBag(saved[i])[x] == Kept(saved)[x] + AsBag(m)[x]
    decreases |saved|
  {
    hide AsBag;
    var n := |saved| - 1;
    if i < n {
      assert saved[i := m][..n] == saved[..n][i := m];
      KeptChangedAt(saved[..n], i, m, x);
    } else {
      assert saved[i := m][..n] == saved[..n];
    }
  }

  lemma KeptChanged(saved: seq<PossibleMove>, i: nat, m: PossibleMove)
    requires i < |saved|
    ensures Kept(saved[i := m]) == Kept(saved) - AsBag(saved[i]) + AsBag(m)
    ensures AsBag(saved[i]) <= Kept(saved)
  {
    hide Kept;
    var free := PossibleMove(0, 0);
    forall x
      ensures Kept(saved[i := m])[x] + AsBag(saved[i])[x] == Kept(saved)[x] + AsBag(m)[x]
      ensures AsBag(saved[i])[x] <= Kept(saved)[x]
    {
      KeptChangedAt(saved, i, m, x);
      KeptChangedAt(saved, i, free, x);
    }
  }

  lemma {:induction false} KeptAll(saved: seq<PossibleMove>)
    requires forall k :: 0 <= k < |saved| ==> saved[k].score > 0
    ensures Kept(saved) == multiset(saved)
  {
    if saved != [] {
      var less := saved[..|saved| - 1];
      assert forall k :: 0 <= k < |less| ==> less[k] == saved[k];
      KeptAll(less);
      assert saved == less + [saved[|saved| - 1]];
    }
  }

  lemma {:induction false} KeptNone(saved: seq<PossibleMove>)
    requires forall k :: 0 <= k < |saved| ==> saved[k].score == 0
    ensures Kept(saved) == multiset{}
  {
    if saved != [] {
      var less := saved[..|saved| - 1];
      assert forall k :: 0 <= k < |less| ==> less[k] == saved[k];
      KeptNone(less);
    }
  }

  lemma {:induction false} KeptConcat(a: seq<PossibleMove>, b: seq<PossibleMove>)
    ensures Kept(a + b) == Kept(a) + Kept(b)
    decreases |b|
  {
    if b == [] {
      assert a + b == a;
    } else {
      assert (a + b)[..|a + b| - 1] == a + b[..|b| - 1];
      KeptConcat(a, b[..|b| - 1]);
    }
  }

  lemma {:induction false} EligibleHas(cands: seq<PossibleMove>, limit: PossibleMove, m: PossibleMove)
    ensures m in Eligible(cands, limit) <==> m in cands && Qualifies(m, limit)
    ensures Eligible(cands, limit)[m] <= multiset(cands)[m]
  {
    if cands != [] {
      var less := cands[..|cands| - 1];
      EligibleHas(less, limit, m);
      assert cands == less + [cands[|cands| - 1]];
    }
  }

  lemma RoomForOne(best: multiset<PossibleMove>, all: multiset<PossibleMove>, n: nat, m: PossibleMove)
    requires Greatest(best, all, n) && |best| < n
    ensures Greatest(best + multiset{m}, all + multiset{m}, n)
  {
    SubsetFull(best, all);
  }

  lemma SubsetFull<T>(a: multiset<T>, b: multiset<T>)
    requires a <= b && |a| == |b|
    ensures a == b
  {
    assert b == a + (b - a);
    assert |b - a| == 0;
  }

  /** With no room, the newcomer takes the place of the least kept move if it is greater, and is dropped
      otherwise. */
  lemma ReplaceLeast(best: multiset<PossibleMove>, all: multiset<PossibleMove>, n: nat, least: PossibleMove, m: PossibleMove)
    requires Greatest(best, all, n) && |best| == n && least in best && forall x :: x in best ==> !Less(x, least)
    ensures Greatest(if Less(least, m) then best - multiset{least} + multiset{m} else best, all + multiset{m}, n)
  {
    if Less(least, m) {
      var best' := best - multiset{least} + multiset{m};
      forall x, y | x in best' && y in all + multiset{m} - best'
        ensures !Less(x, y)
      {
        assert y == least || y in all - best;
        assert x == m || x in best;
        if y in all - best {
          assert !Less(least, y);
        }
      }
    } else {
      forall x, y | x in best && y in all + multiset{m} - best
        ensures !Less(x, y)
      {
        assert y == m || y in all - best;
      }
    }
  }

  ghost predicate IsLeast(least: PossibleMove, best: multiset<PossibleMove>) {
    least in best && forall x :: x in best ==> !Less(x, least)
  }

  /** A candidate that does not qualify changes nothing; one that does is added, or, with no room, takes the
      place of the least one kept if it is greater. */
  ghost predicate Absorbs(was: multiset<PossibleMove>, now: multiset<PossibleMove>, m: PossibleMove, limit: PossibleMove) {
    if !Qualifies(m, limit) then now == was
    else if |was| < NUM_SAVED_ENGINE_MOVES then now == was + multiset{m}
    else exists least :: IsLeast(least, was) && now == if Less(least, m) then was - multiset{least} + multiset{m} else was
  }

  /** What is kept stays the greatest of what has come by. */
  lemma AbsorbsGreatest(was: multiset<PossibleMove>, now: multiset<PossibleMove>, m: PossibleMove, limit: PossibleMove,
                        all: multiset<PossibleMove>)
    requires Greatest(was, all, NUM_SAVED_ENGINE_MOVES) && Absorbs(was, now, m, limit)
    ensures Greatest(now, all + (if Qualifies(m, limit) then multiset{m} else multiset{}), NUM_SAVED_ENGINE_MOVES)
  {
    hide Greatest;
    if !Qualifies(m, limit) {
      assert all + multiset{} == all;
    } else if |was| < NUM_SAVED_ENGINE_MOVES {
      RoomForOne(was, all, NUM_SAVED_ENGINE_MOVES, m);
    } else {
      var least :| IsLeast(least, was) && now == if Less(least, m) then was - multiset{least} + multiset{m} else was;
      GreatestSize(was, all);
      ReplaceLeast(was, all, NUM_SAVED_ENGINE_MOVES, least, m);
    }
  }

  lemma GreatestSize(best: multiset<PossibleMove>, all: multiset<PossibleMove>)
    requires Greatest(best, all, NUM_SAVED_ENGINE_MOVES)
    ensures |best| <= NUM_SAVED_ENGINE_MOVES
  {
  }

  predicate Sorted(saved: seq<PossibleMove>) {
    forall j, k :: 0 <= j < k < |saved| ==> !Less(saved[k], saved[j])
  }

  predicate Descending(listed: seq<PossibleMove>) {
    forall j, k :: 0 <= j < k < |listed| ==> !Less(listed[j], listed[k])
  }

  /** Part way through handing out the moves of a position: `batch` is what the last search kept, the moves of
      it from `cur` up have been handed out, and `listed` is everything handed out so far. Every candidate
      with a score was handed out, is still to come from the batch, or is below the whole batch. */
  ghost predicate Listing(cands: seq<PossibleMove>, listed: seq<PossibleMove>, batch: seq<PossibleMove>, cur: nat) {
    && cur < |batch| && listed != [] && listed[|listed| - 1] == batch[cur]
    && Descending(listed) && Sorted(batch)
    && (forall k :: 0 <= k < |batch| ==> 0 < batch[k].score)
    && (forall c :: c in cands && 0 < c.score ==> c in listed || c in batch[..cur] || Less(c, batch[0]))
    && multiset(listed) + multiset(batch[..cur]) <= multiset(cands)
  }

  /** Handing out the next one of the batch. */
  lemma NextOfBatch(cands: seq<PossibleMove>, listed: seq<PossibleMove>, batch: seq<PossibleMove>, cur: nat)
    requires Listing(cands, listed, batch, cur) && 0 < cur
    ensures Listing(cands, listed + [batch[cur - 1]], batch, cur - 1)
  {
    var more := listed + [batch[cur - 1]];
    assert batch[..cur] == batch[..cur - 1] + [batch[cur - 1]];
    assert Descending(more) by {
      forall j | 0 <= j < |listed|
        ensures !Less(listed[j], batch[cur - 1])
      {
        assert !Less(listed[j], listed[|listed| - 1]);
      }
    }
  }

  /** When a batch is used up and the search below it keeps nothing, everything was handed out. */
  lemma NothingLeft(cands: seq<PossibleMove>, listed: seq<PossibleMove>, batch: seq<PossibleMove>, kept: multiset<PossibleMove>)
    requires Listing(cands, listed, batch, 0)
    requires Greatest(kept, Eligible(cands, batch[0]), NUM_SAVED_ENGINE_MOVES) && kept == multiset{}
    ensures forall c :: c in cands && 0 < c.score ==> c in listed
  {
    forall c | c in cands && 0 < c.score
      ensures c in listed
    {
      EligibleHas(cands, batch[0], c);
      assert batch[..0] == [];
      assert Eligible(cands, batch[0]) == multiset{};
    }
  }

  /** The next batch: its greatest is handed out after all of the one before. */
  lemma NextBatch(cands: seq<PossibleMove>, listed: seq<PossibleMove>, batch: seq<PossibleMove>, next: seq<PossibleMove>)
    requires Listing(cands, listed, batch, 0) && Batch(cands, batch[0], next)
    ensures Listing(cands, listed + [next[|next| - 1]], next, |next| - 1)
  {
    hide Greatest, Batch, Descending;
    BatchShape(cands, batch[0], next);
    var limit, last := batch[0], next[|next| - 1];
    assert batch[..0] == [];
    BatchAccounts(cands, limit, next);
    assert next == next[..|next| - 1] + [last];
    StillDescends(listed, last);
    NotListed(listed, next, limit);
    assert multiset(listed + [last]) + multiset(next[..|next| - 1]) == multiset(listed) + multiset(next);
    forall x
      ensures (multiset(listed) + multiset(next))[x] <= multiset(cands)[x]
    {
      if x in next {
        assert x !in listed;
      }
    }
  }

  lemma BatchShape(cands: seq<PossibleMove>, limit: PossibleMove, next: seq<PossibleMove>)
    requires Batch(cands, limit, next)
    ensures next != [] && Sorted(next) && forall k :: 0 <= k < |next| ==> 0 < next[k].score
  {
  }

  lemma StillDescends(listed: seq<PossibleMove>, last: PossibleMove)
    requires Descending(listed) && listed != [] && Less(last, listed[|listed| - 1])
    ensures Descending(listed + [last])
  {
    forall j | 0 <= j < |listed|
      ensures !Less(listed[j], last)
    {
      assert j < |listed| - 1 ==> !Less(listed[j], listed[|listed| - 1]);
    }
  }

  /** What has been listed is not below its last. */
  lemma NotListed(listed: seq<PossibleMove>, next: seq<PossibleMove>, limit: PossibleMove)
    requires Descending(listed) && listed != [] && listed[|listed| - 1] == limit
    requires forall x :: x in next ==> Less(x, limit)
    ensures forall x :: x in next ==> x !in listed
  {
    forall j | 0 <= j < |listed|
      ensures !Less(listed[j], limit)
    {
      assert j < |listed| - 1 ==> !Less(listed[j], listed[|listed| - 1]);
    }
  }

  /** The first batch of all. */
  lemma FirstBatch(cands: seq<PossibleMove>, limit: PossibleMove, next: seq<PossibleMove>)
    requires Batch(cands, limit, next) && forall c :: c in cands ==> c.score < limit.score
    ensures Listing(cands, [next[|next| - 1]], next, |next| - 1)
  {
    hide Greatest;
    var last := next[|next| - 1];
    BatchAccounts(cands, limit, next);
    assert next == next[..|next| - 1] + [last];
    assert multiset([last]) + multiset(next[..|next| - 1]) == multiset(next);
  }

  /** What a search below `limit` keeps, sorted. */
  ghost predicate Batch(cands: seq<PossibleMove>, limit: PossibleMove, next: seq<PossibleMove>) {
    && next != [] && Sorted(next) && (forall k :: 0 <= k < |next| ==> 0 < next[k].score)
    && Greatest(multiset(next), Eligible(cands, limit), NUM_SAVED_ENGINE_MOVES)
  }

  lemma BatchAccounts(cands: seq<PossibleMove>, limit: PossibleMove, next: seq<PossibleMove>)
    requires Batch(cands, limit, next)
    ensures forall x :: x in next ==> Less(x, limit)
    ensures forall x :: multiset(next)[x] <= multiset(cands)[x]
    ensures forall c :: c in cands && Qualifies(c, limit) ==> c in next || Less(c, next[0])
  {
    forall x
      ensures x in next ==> Less(x, limit)
      ensures multiset(next)[x] <= multiset(cands)[x]
    {
      EligibleHas(cands, limit, x);
      assert x in next <==> x in multiset(next);
    }
    forall c | c in cands && Qualifies(c, limit) && c !in next
      ensures Less(c, next[0])
    {
      EligibleHas(cands, limit, c);
      assert c in Eligible(cands, limit) - multiset(next);
      assert next[0] in multiset(next);
      assert !Less(next[0], c) && c != next[0];
    }
  }

  class MoveCache {
    const savedMoves: array<PossibleMove>
    var lastSeenMove: PossibleMove
    var nInMoveCache: nat
    var bottom: nat
    var curCacheIndex: int
    /** What has been handed out since the list was last begun. */
    ghost var listed: seq<PossibleMove>

    constructor ()
      ensures fresh(savedMoves) && savedMoves.Length == NUM_SAVED_ENGINE_MOVES && nInMoveCache == 0 && listed == []
      ensures forall cands :: Valid(cands)
    {
      savedMoves := new PossibleMove[NUM_SAVED_ENGINE_MOVES](_ => PossibleMove(0, 0));
      lastSeenMove := PossibleMove(NO_LIMIT, 0);
      nInMoveCache := 0;
      bottom := 0;
      curCacheIndex := 0;
      listed := [];
    }

    /** The state between calls, for a position whose searches come up with these candidates. */
    ghost predicate Valid(cands: seq<PossibleMove>)
      reads this, savedMoves
    {
      && savedMoves.Length == NUM_SAVED_ENGINE_MOVES
      && if nInMoveCache == 0 then listed == []
         else
           && bottom + nInMoveCache == NUM_SAVED_ENGINE_MOVES
           && bottom <= curCacheIndex < NUM_SAVED_ENGINE_MOVES
           && Listing(cands, listed, savedMoves[bottom..], curCacheIndex - bottom)
    }

    method EngineReset()
      requires savedMoves.Length == NUM_SAVED_ENGINE_MOVES
      modifies this, savedMoves
      ensures lastSeenMove == PossibleMove(NO_LIMIT, 0) && nInMoveCache == 0 && listed == []
      ensures forall k :: 0 <= k < savedMoves.Length ==> savedMoves[k].score == 0
    {
      ClearSaved();
      bottom, curCacheIndex := 0, 0;
      nInMoveCache := 0;
      lastSeenMove := PossibleMove(NO_LIMIT, 0);
      listed := [];
    }

    method ClearSaved()
      modifies savedMoves
      ensures forall k :: 0 <= k < savedMoves.Length ==> savedMoves[k] == PossibleMove(0, 0)
    {
      for ii := 0 to savedMoves.Length
        invariant forall k :: 0 <= k < ii ==> savedMoves[k] == PossibleMove(0, 0)
      {
        savedMoves[ii] := PossibleMove(0, 0);
      }
    }

    /** The first free entry, or failing that the least move. */
    method FindSlot() returns (mostest: nat, foundEmpty: bool)
      requires savedMoves.Length == NUM_SAVED_ENGINE_MOVES
      ensures mostest < savedMoves.Length && (foundEmpty <==> savedMoves[mostest].score == 0)
      ensures !foundEmpty ==> forall k :: 0 <= k < savedMoves.Length ==>
                0 < savedMoves[k].score && !Less(savedMoves[k], savedMoves[mostest])
    {
      var most: int := -1;
      var ii := 0;
      while ii < NUM_SAVED_ENGINE_MOVES
        invariant 0 <= ii <= NUM_SAVED_ENGINE_MOVES && -1 <= most < ii && (most == -1 <==> ii == 0)
        invariant forall k :: 0 <= k < ii ==> 0 < savedMoves[k].score && !Less(savedMoves[k], savedMoves[most])
      {
        if 0 == savedMoves[ii].score {
          return ii, true;
        } else if -1 == most {
          most := ii;
        } else {
          var cmpVal := CmpMoves(savedMoves[most], savedMoves[ii]);
          if cmpVal > 0 {
            most := ii;
          }
        }
        ii := ii + 1;
      }
      return most, false;
    }

    /** Keeps the move if it is below the last one seen and there is room, or a lesser one to give way. */
    method SaveMoveIfQualifies(posmove: PossibleMove)
      requires savedMoves.Length == NUM_SAVED_ENGINE_MOVES
      modifies savedMoves
      ensures Absorbs(old(Kept(savedMoves[..])), Kept(savedMoves[..]), posmove, lastSeenMove)
    {
      hide Kept;
      ghost var was := savedMoves[..];
      var cmpVal := CmpMoves(posmove, lastSeenMove);
      if cmpVal >= 0 {
        return;
      }
      var mostest, foundEmpty := FindSlot();
      KeptChanged(was, mostest, posmove);
      if foundEmpty {
        FreeSlot(was, mostest);
        savedMoves[mostest] := posmove;
        assert savedMoves[..] == was[mostest := posmove];
        return;
      }
      FullSlots(was, mostest);
      cmpVal := CmpMoves(posmove, savedMoves[mostest]);
      assert IsLeast(was[mostest], Kept(was));
      if cmpVal > 0 {
        savedMoves[mostest] := posmove;
        assert savedMoves[..] == was[mostest := posmove];
      }
    }

    static lemma FreeSlot(saved: seq<PossibleMove>, i: nat)
      requires i < |saved| && saved[i].score == 0
      ensures |Kept(saved)| < |saved|
    {
      hide AsBag;
      var before, after := saved[..i], saved[i..];
      assert saved == before + after && after == [saved[i]] + after[1..];
      KeptConcat(before, after);
      KeptConcat([saved[i]], after[1..]);
      KeptNone([saved[i]]);
      KeptHas(before, saved[i]);
      KeptHas(after[1..], saved[i]);
    }

    static lemma FullSlots(saved: seq<PossibleMove>, i: nat)
      requires i < |saved| && forall k :: 0 <= k < |saved| ==> 0 < saved[k].score && !Less(saved[k], saved[i])
      ensures |Kept(saved)| == |saved| && saved[i] in Kept(saved) && forall x :: x in Kept(saved) ==> !Less(x, saved[i])
    {
      KeptAll(saved);
      assert saved[i] in saved;
    }

    /** One search: every candidate the move generator comes up with is offered. */
    method Search(cands: seq<PossibleMove>)
      requires savedMoves.Length == NUM_SAVED_ENGINE_MOVES
      modifies savedMoves
      ensures Greatest(Kept(savedMoves[..]), Eligible(cands, lastSeenMove), NUM_SAVED_ENGINE_MOVES)
    {
      hide Greatest, Kept, Absorbs, Qualifies;
      ClearSaved();
      KeptNone(savedMoves[..]);
      NothingYet();
      for ii := 0 to |cands|
        invariant Greatest(Kept(savedMoves[..]), Eligible(cands[..ii], lastSeenMove), NUM_SAVED_ENGINE_MOVES)
      {
        ghost var was := Kept(savedMoves[..]);
        SaveMoveIfQualifies(cands[ii]);
        AbsorbsGreatest(was, Kept(savedMoves[..]), cands[ii], lastSeenMove, Eligible(cands[..ii], lastSeenMove));
        assert cands[..ii + 1][..ii] == cands[..ii];
      }
      assert cands[..|cands|] == cands;
    }

    static lemma NothingYet()
      ensures Greatest(multiset{}, multiset{}, NUM_SAVED_ENGINE_MOVES)
    {
    }

    ghost predicate Settled(n: nat)
      requires savedMoves.Length == NUM_SAVED_ENGINE_MOVES
      reads savedMoves
    {
      forall j, k :: 0 <= j < k < savedMoves.Length && savedMoves.Length - n <= k ==> !Less(savedMoves[k], savedMoves[j])
    }

    method CompareExchange(ii: nat) returns (swapped: bool)
      requires savedMoves.Length == NUM_SAVED_ENGINE_MOVES && ii + 1 < NUM_SAVED_ENGINE_MOVES
      modifies savedMoves
      ensures swapped <==> old(Less(savedMoves[ii + 1], savedMoves[ii]))
      ensures multiset(savedMoves[..]) == multiset(old(savedMoves[..]))
      ensures savedMoves[ii] == (if swapped then old(savedMoves[ii + 1]) else old(savedMoves[ii]))
      ensures savedMoves[ii + 1] == (if swapped then old(savedMoves[ii]) else old(savedMoves[ii + 1]))
      ensures forall k :: 0 <= k < savedMoves.Length && k != ii && k != ii + 1 ==> savedMoves[k] == old(savedMoves[k])
    {
      var cur, next := savedMoves[ii], savedMoves[ii + 1];
      swapped := CmpMoves(cur, next) > 0;
      if swapped {
        savedMoves[ii], savedMoves[ii + 1] := next, cur;
      }
    }

    /** One pass of the bubble sort; it reports whether there was anything to exchange. */
    method BubblePass(ghost n: nat) returns (done: bool)
      requires savedMoves.Length == NUM_SAVED_ENGINE_MOVES && Settled(n)
      modifies savedMoves
      ensures multiset(savedMoves[..]) == multiset(old(savedMoves[..]))
      ensures Settled(n + 1) && (done ==> Sorted(savedMoves[..]))
      ensures NUM_SAVED_ENGINE_MOVES <= n ==> done
    {
      done := true;
      var ii := 0;
      while ii < NUM_SAVED_ENGINE_MOVES - 1
        invariant 0 <= ii <= NUM_SAVED_ENGINE_MOVES - 1
        invariant multiset(savedMoves[..]) == multiset(old(savedMoves[..]))
        invariant forall k :: 0 <= k < ii ==> !Less(savedMoves[ii], savedMoves[k])
        invariant Settled(n) && (NUM_SAVED_ENGINE_MOVES - 1 - n <= ii ==> Settled(n + 1))
        invariant NUM_SAVED_ENGINE_MOVES <= n ==> done
        invariant done ==> forall j, k :: 0 <= j < k <= ii ==> !Less(savedMoves[k], savedMoves[j])
      {
        var swapped := CompareExchange(ii);
        if swapped {
          done := false;
        }
        ii := ii + 1;
      }
    }

    method SortSaved()
      requires savedMoves.Length == NUM_SAVED_ENGINE_MOVES
      modifies savedMoves
      ensures multiset(savedMoves[..]) == multiset(old(savedMoves[..])) && Sorted(savedMoves[..])
      ensures forall j, k :: 0 <= j < k < savedMoves.Length ==>
        savedMoves[j].score < savedMoves[k].score
        || (savedMoves[j].score == savedMoves[k].score && savedMoves[j].key <= savedMoves[k].key)
    {
      var done := false;
      ghost var n := 0;
      while !done
        invariant multiset(savedMoves[..]) == multiset(old(savedMoves[..]))
        invariant Settled(n) && n <= NUM_SAVED_ENGINE_MOVES + 1
        invariant done ==> Sorted(savedMoves[..])
        invariant n == NUM_SAVED_ENGINE_MOVES + 1 ==> done
        decreases NUM_SAVED_ENGINE_MOVES + 1 - n
      {
        done := BubblePass(n);
        n := n + 1;
      }
    }

    predicate MoveCacheEmpty()
      reads this
    {
      nInMoveCache == 0 || curCacheIndex <= bottom
    }

    /** The next search is to stay below the least move kept, or begins afresh. */
    method SetSearchLimits(ghost cands: seq<PossibleMove>)
      requires Valid(cands)
      modifies this, savedMoves
      ensures savedMoves.Length == NUM_SAVED_ENGINE_MOVES && nInMoveCache == old(nInMoveCache) && listed == old(listed)
      ensures if old(nInMoveCache) > 0 then lastSeenMove == old(savedMoves[bottom])
              else lastSeenMove == PossibleMove(NO_LIMIT, 0)
    {
      if 0 < nInMoveCache {
        lastSeenMove := savedMoves[bottom];
      } else {
        EngineReset();
      }
    }

    /** Counts the moves at the high end of the sorted array and stands just above them. */
    method InitMoveCache()
      requires savedMoves.Length == NUM_SAVED_ENGINE_MOVES && Sorted(savedMoves[..])
      modifies this
      ensures lastSeenMove == old(lastSeenMove) && listed == old(listed)
      ensures bottom + nInMoveCache == NUM_SAVED_ENGINE_MOVES == curCacheIndex
      ensures forall k :: bottom <= k < NUM_SAVED_ENGINE_MOVES ==> 0 < savedMoves[k].score
      ensures Kept(savedMoves[..]) == multiset(savedMoves[bottom..])
    {
      nInMoveCache := NUM_SAVED_ENGINE_MOVES;
      var ii := 0;
      while ii < NUM_SAVED_ENGINE_MOVES
        invariant 0 <= ii <= NUM_SAVED_ENGINE_MOVES && nInMoveCache == NUM_SAVED_ENGINE_MOVES - ii
        invariant lastSeenMove == old(lastSeenMove) && listed == old(listed)
        invariant forall k :: 0 <= k < ii ==> savedMoves[k].score == 0
      {
        if 0 == savedMoves[ii].score {
          nInMoveCache := nInMoveCache - 1;
        } else {
          break;
        }
        ii := ii + 1;
      }
      bottom := NUM_SAVED_ENGINE_MOVES - nInMoveCache;
      curCacheIndex := NUM_SAVED_ENGINE_MOVES;
      ghost var saved := savedMoves[..];
      assert forall k :: ii < k < NUM_SAVED_ENGINE_MOVES ==> !Less(saved[k], saved[ii]);
      KeptHigh(saved, bottom);
    }

    static lemma KeptHigh(saved: seq<PossibleMove>, bottom: nat)
      requires bottom <= |saved|
      requires forall k :: 0 <= k < bottom ==> saved[k].score == 0
      requires forall k :: bottom <= k < |saved| ==> 0 < saved[k].score
      ensures Kept(saved) == multiset(saved[bottom..])
    {
      hide Kept;
      assert saved == saved[..bottom] + saved[bottom..];
      KeptConcat(saved[..bottom], saved[bottom..]);
      KeptNone(saved[..bottom]);
      KeptAll(saved[bottom..]);
    }

    /** Searches below the limit and sorts what was kept: none, or a batch. */
    method Refill(cands: seq<PossibleMove>)
      requires savedMoves.Length == NUM_SAVED_ENGINE_MOVES
      modifies this, savedMoves
      ensures lastSeenMove == old(lastSeenMove) && listed == old(listed)
      ensures bottom + nInMoveCache == NUM_SAVED_ENGINE_MOVES == curCacheIndex
      ensures nInMoveCache == 0 ==> Greatest(multiset{}, Eligible(cands, lastSeenMove), NUM_SAVED_ENGINE_MOVES)
      ensures nInMoveCache > 0 ==> Batch(cands, lastSeenMove, savedMoves[bottom..])
    {
      hide Greatest, Kept, Eligible;
      Search(cands);
      ghost var was := savedMoves[..];
      SortSaved();
      SameKept(was, savedMoves[..]);
      InitMoveCache();
      assert nInMoveCache == 0 ==> savedMoves[bottom..] == [];
    }

    static lemma SameKept(a: seq<PossibleMove>, b: seq<PossibleMove>)
      requires multiset(a) == multiset(b)
      ensures Kept(a) == Kept(b)
    {
      forall x
        ensures Kept(a)[x] == Kept(b)[x]
      {
        KeptCount(a, x);
        KeptCount(b, x);
      }
    }

    static lemma {:induction false} KeptCount(a: seq<PossibleMove>, x: PossibleMove)
      ensures Kept(a)[x] == if 0 < x.score then multiset(a)[x] else 0
    {
      if a != [] {
        KeptCount(a[..|a| - 1], x);
        assert a == a[..|a| - 1] + [a[|a| - 1]];
      }
    }

    method NextFromCache() returns (move: PossibleMove)
      requires savedMoves.Length == NUM_SAVED_ENGINE_MOVES
      requires !MoveCacheEmpty() && curCacheIndex <= NUM_SAVED_ENGINE_MOVES
      modifies this`curCacheIndex, this`listed
      ensures curCacheIndex == old(curCacheIndex) - 1 && move == savedMoves[curCacheIndex]
      ensures listed == old(listed) + [move]
    {
      curCacheIndex := curCacheIndex - 1;
      move := savedMoves[curCacheIndex];
      listed := listed + [move];
    }

    /** One attempt: the next of the batch, or the best of the next batch. It finds nothing only when all the
        candidates with a score have been handed out. */
    method FindOnce(cands: seq<PossibleMove>) returns (found: Option<PossibleMove>)
      requires Valid(cands) && forall c :: c in cands ==> c.score < NO_LIMIT
      modifies this, savedMoves
      ensures savedMoves.Length == NUM_SAVED_ENGINE_MOVES
      ensures found.Some? ==> Valid(cands) && listed == old(listed) + [found.value]
      ensures found.None? ==> forall c :: c in cands && 0 < c.score ==> c in old(listed)
    {
      hide Listing, Batch, Greatest;
      if MoveCacheEmpty() {
        ghost var before, batch := listed, if nInMoveCache > 0 then savedMoves[bottom..] else [];
        ghost var fresh' := nInMoveCache == 0;
        SetSearchLimits(cands);
        Refill(cands);
        if nInMoveCache == 0 {
          if !fresh' {
            NothingLeft(cands, before, batch, multiset{});
          } else {
            NoneAtAll(cands, lastSeenMove);
          }
          return None;
        }
        if !fresh' {
          NextBatch(cands, before, batch, savedMoves[bottom..]);
        } else {
          FirstBatch(cands, lastSeenMove, savedMoves[bottom..]);
        }
      } else {
        NextOfBatch(cands, listed, savedMoves[bottom..], curCacheIndex - bottom);
      }
      ghost var so, from := listed, savedMoves[bottom..];
      var move := NextFromCache();
      found := Some(move);
      assert savedMoves[bottom..] == from && from[curCacheIndex - bottom] == move;
      assert so == [] ==> listed == [move];
    }

    static lemma NoneAtAll(cands: seq<PossibleMove>, limit: PossibleMove)
      requires Greatest(multiset{}, Eligible(cands, limit), NUM_SAVED_ENGINE_MOVES)
      requires forall c :: c in cands ==> c.score < limit.score
      ensures forall c :: c in cands ==> c.score == 0
    {
      forall c | c in cands
        ensures c.score == 0
      {
        EligibleHas(cands, limit, c);
        assert Eligible(cands, limit) == multiset{};
      }
    }

    /** Asks for the next move. Moves come best first; after every candidate with a score has been handed out
        the list begins again from the best, and there is no move only if no candidate has a score. */
    method EngineFindMove(cands: seq<PossibleMove>) returns (found: Option<PossibleMove>)
      requires Valid(cands) && forall c :: c in cands ==> c.score < NO_LIMIT
      modifies this, savedMoves
      ensures Valid(cands)
      ensures found.None? <==> forall c :: c in cands ==> c.score == 0
      ensures found.Some? ==>
                (listed == old(listed) + [found.value]
                 || (listed == [found.value] && forall c :: c in cands && 0 < c.score ==> c in old(listed)))
      ensures found.Some? ==> found.value in cands && 0 < found.value.score
      ensures Descending(listed) && multiset(listed) <= multiset(cands)
      ensures found.Some? && |listed| == 1 ==> forall c :: c in cands ==> !Less(found.value, c)
      ensures found.None? ==> listed == []
    {
      hide Listing;
      found := FindOnce(cands);
      if found.None? {
        EngineReset();
        found := FindOnce(cands);
        if found.None? {
          EngineReset();
        }
      }
      if found.Some? {
        ListingInCands(cands, listed, savedMoves[bottom..], curCacheIndex - bottom);
      }
    }

    static lemma ListingInCands(cands: seq<PossibleMove>, listed: seq<PossibleMove>, batch: seq<PossibleMove>, cur: nat)
      requires Listing(cands, listed, batch, cur)
      ensures listed[|listed| - 1] in cands && 0 < listed[|listed| - 1].score
      ensures Descending(listed) && multiset(listed) <= multiset(cands)
      ensures |listed| == 1 ==> forall c :: c in cands ==> !Less(listed[0], c)
    {
      var last := listed[|listed| - 1];
      forall c | c in cands && |listed| == 1
        ensures !Less(last, c)
      {
        assert 0 < c.score ==> c in listed || c in batch[..cur] || Less(c, batch[0]);
        assert cur > 0 ==> !Less(batch[cur], batch[0]);
      }
      assert multiset(listed)[last] > 0;
      assert (multiset(listed) + multiset(batch[..cur]))[last] <= multiset(cands)[last];
      assert last in multiset(cands);
    }
  }
}
