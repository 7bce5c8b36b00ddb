/** Choosing which of a move's tiles are its blanks (`considerScoreWordHasBlanks` of
    xwords4/common/engine.c). A move is a list of letters; a choice marks some of them as blanks. */
module BlankChoice {
  import opened Dawg
  import opened Legal
  import opened MoveSearch
  import opened SearchSpec

  type Marks = seq<bool>

  /** Every choice the search makes from `m`, in its order: the last of the `b` blanks left goes on each
      unmarked tile that shows its letter, and the others are placed after it. */
  function Choices(ts: seq<Tile>, m: Marks, blanks: seq<Tile>, b: nat): seq<Marks>
    requires |m| == |ts| && b <= |blanks|
    decreases b, |ts| + 1
  {
    if b == 0 then [m] else ChoicesFrom(ts, m, blanks, b, 0)
  }

  function ChoicesFrom(ts: seq<Tile>, m: Marks, blanks: seq<Tile>, b: nat, i: nat): seq<Marks>
    requires |m| == |ts| && 0 < b <= |blanks| && i <= |ts|
    decreases b, |ts| - i
  {
    if i == |ts| then []
    else
      (if ts[i] == blanks[b - 1] && !m[i] then Choices(ts, m[i := true], blanks, b - 1) else [])
      + ChoicesFrom(ts, m, blanks, b, i + 1)
  }

  /** The loop of the original, marking and unmarking the move in place. */
  method ConsiderBlanks(ts: seq<Tile>, marks: array<bool>, blanks: seq<Tile>, blanksLeft: nat)
    returns (saved: seq<Marks>)
    requires marks.Length == |ts| && blanksLeft <= |blanks|
    modifies marks
    ensures marks[..] == old(marks[..])
    ensures saved == Choices(ts, old(marks[..]), blanks, blanksLeft)
    decreases blanksLeft
  {
    hide ChoicesFrom;
    ghost var m := marks[..];
    if blanksLeft == 0 {
      saved := [marks[..]];
    } else {
      var bTile := blanks[blanksLeft - 1];
      saved := [];
      var i := 0;
      while i < |ts|
        invariant 0 <= i <= |ts| && marks[..] == m
        invariant saved + ChoicesFrom(ts, m, blanks, blanksLeft, i) == Choices(ts, m, blanks, blanksLeft)
      {
        ChoicesStep(ts, m, blanks, blanksLeft, i);
        assert marks[i] == m[i];
        if ts[i] == bTile && !marks[i] {
          marks[i] := true;
          assert marks[..] == m[i := true];
          var more := ConsiderBlanks(ts, marks, blanks, blanksLeft - 1);
          marks[i] := false;
          assert marks[..] == m;
          saved := saved + more;
        }
        i := i + 1;
      }
      NoChoicesLeft(ts, m, blanks, blanksLeft);
    }
  }

  lemma ChoicesStep(ts: seq<Tile>, m: Marks, blanks: seq<Tile>, b: nat, i: nat)
    requires |m| == |ts| && 0 < b <= |blanks| && i < |ts|
    ensures ChoicesFrom(ts, m, blanks, b, i) ==
            (if ts[i] == blanks[b - 1] && !m[i] then Choices(ts, m[i := true], blanks, b - 1) else [])
            + ChoicesFrom(ts, m, blanks, b, i + 1)
  {
  }

  lemma NoChoicesLeft(ts: seq<Tile>, m: Marks, blanks: seq<Tile>, b: nat)
    requires |m| == |ts| && 0 < b <= |blanks|
    ensures ChoicesFrom(ts, m, blanks, b, |ts|) == []
  {
  }

  /** The letters marked in `v` and not in `m`. */
  ghost function Added(ts: seq<Tile>, m: Marks, v: Marks): multiset<Tile>
    requires |m| == |v| == |ts|
  {
    if ts == [] then multiset{}
    else (if v[0] && !m[0] then multiset{ts[0]} else multiset{}) + Added(ts[1..], m[1..], v[1..])
  }

  /** `v` keeps the marks of `m` and adds exactly the letters of the first `b` blanks. */
  ghost predicate IsChoice(ts: seq<Tile>, m: Marks, blanks: seq<Tile>, b: nat, v: Marks)
    requires |m| == |ts| && b <= |blanks|
  {
    && |v| == |ts| && (forall i :: 0 <= i < |m| && m[i] ==> v[i])
    && Added(ts, m, v) == multiset(blanks[..b])
  }

  lemma {:induction false} AddedOne(ts: seq<Tile>, m: Marks, v: Marks, i: nat)
    requires |m| == |v| == |ts| && i < |ts| && v[i] && !m[i]
    ensures Added(ts, m, v) == Added(ts, m[i := true], v) + multiset{ts[i]}
    decreases |ts|
  {
    var m' := m[i := true];
    if i == 0 {
      assert m'[1..] == m[1..];
    } else {
      assert m'[1..] == m[1..][i - 1 := true] && m'[0] == m[0];
      AddedOne(ts[1..], m[1..], v[1..], i - 1);
    }
  }

  lemma {:induction false} AddedNone(ts: seq<Tile>, m: Marks, v: Marks)
    requires |m| == |v| == |ts| && forall i :: 0 <= i < |m| && m[i] ==> v[i]
    ensures Added(ts, m, v) == multiset{} <==> v == m
    decreases |ts|
  {
    if ts != [] {
      AddedNone(ts[1..], m[1..], v[1..]);
      assert m == [m[0]] + m[1..] && v == [v[0]] + v[1..];
      if v[0] && !m[0] {
        assert ts[0] in Added(ts, m, v);
      }
    }
  }

  /** A letter added was added somewhere. */
  lemma {:induction false} AddedSomewhere(ts: seq<Tile>, m: Marks, v: Marks, t: Tile) returns (i: nat)
    requires |m| == |v| == |ts| && t in Added(ts, m, v)
    ensures i < |ts| && v[i] && !m[i] && ts[i] == t
    decreases |ts|
  {
    if v[0] && !m[0] && ts[0] == t {
      i := 0;
    } else {
      i := AddedSomewhere(ts[1..], m[1..], v[1..], t);
      i := i + 1;
    }
  }

  lemma StepChoice(ts: seq<Tile>, m: Marks, blanks: seq<Tile>, b: nat, v: Marks, i: nat)
    requires |m| == |ts| && 0 < b <= |blanks| && |v| == |ts| && i < |ts|
    requires v[i] && !m[i] && ts[i] == blanks[b - 1]
    ensures IsChoice(ts, m, blanks, b, v) <==> IsChoice(ts, m[i := true], blanks, b - 1, v)
  {
    AddedOne(ts, m, v, i);
    assert blanks[..b] == blanks[..b - 1] + [blanks[b - 1]];
    var x, y := Added(ts, m[i := true], v), multiset(blanks[..b - 1]);
    forall t
      ensures x + multiset{ts[i]} == y + multiset{ts[i]} ==> x[t] == y[t]
    {
      assert (x + multiset{ts[i]})[t] == x[t] + multiset{ts[i]}[t];
      assert (y + multiset{ts[i]})[t] == y[t] + multiset{ts[i]}[t];
    }
  }

  /** Can the last blank go on tile `i`? */
  predicate Takes(ts: seq<Tile>, m: Marks, blanks: seq<Tile>, b: nat, i: nat)
    requires |m| == |ts| && 0 < b <= |blanks|
  {
    i < |ts| && ts[i] == blanks[b - 1] && !m[i]
  }

  /** `v` comes of putting the last blank on tile `i`. */
  ghost predicate ComesBy(ts: seq<Tile>, m: Marks, blanks: seq<Tile>, b: nat, v: Marks, i: nat)
    requires |m| == |ts| && 0 < b <= |blanks|
  {
    Takes(ts, m, blanks, b, i) && IsChoice(ts, m[i := true], blanks, b - 1, v)
  }

  /** The choices made are exactly the ways of marking tiles with the letters the blanks stand for. */
  lemma {:induction false} ChoicesExact(ts: seq<Tile>, m: Marks, blanks: seq<Tile>, b: nat, v: Marks)
    requires |m| == |ts| && b <= |blanks|
    ensures v in Choices(ts, m, blanks, b) <==> IsChoice(ts, m, blanks, b, v)
    decreases b, |ts| + 1
  {
    if b == 0 {
      assert blanks[..0] == [];
      if |v| == |ts| && forall i :: 0 <= i < |m| && m[i] ==> v[i] {
        AddedNone(ts, m, v);
      }
      AddedNone(ts, m, m);
    } else {
      ChoicesFromExact(ts, m, blanks, b, v, 0);
      LastBlankSomewhere(ts, m, blanks, b, v);
    }
  }

  lemma LastBlankSomewhere(ts: seq<Tile>, m: Marks, blanks: seq<Tile>, b: nat, v: Marks)
    requires |m| == |ts| && 0 < b <= |blanks|
    ensures IsChoice(ts, m, blanks, b, v) <==> exists i: nat :: i < |ts| && ComesBy(ts, m, blanks, b, v, i)
  {
    if IsChoice(ts, m, blanks, b, v) {
      assert blanks[..b][b - 1] in blanks[..b];
      var i := AddedSomewhere(ts, m, v, blanks[b - 1]);
      StepChoice(ts, m, blanks, b, v, i);
      assert ComesBy(ts, m, blanks, b, v, i);
    }
    forall i: nat | i < |ts| && ComesBy(ts, m, blanks, b, v, i)
      ensures IsChoice(ts, m, blanks, b, v)
    {
      assert m[i := true][i];
      StepChoice(ts, m, blanks, b, v, i);
    }
  }

  lemma {:induction false} ChoicesFromExact(ts: seq<Tile>, m: Marks, blanks: seq<Tile>, b: nat, v: Marks, i: nat)
    requires |m| == |ts| && 0 < b <= |blanks| && i <= |ts|
    ensures v in ChoicesFrom(ts, m, blanks, b, i) <==>
            exists j: nat :: i <= j < |ts| && ComesBy(ts, m, blanks, b, v, j)
    decreases b, |ts| - i
  {
    hide IsChoice;
    if i < |ts| {
      ChoicesFromExact(ts, m, blanks, b, v, i + 1);
      if Takes(ts, m, blanks, b, i) {
        ChoicesExact(ts, m[i := true], blanks, b - 1, v);
      }
      assert v in ChoicesFrom(ts, m, blanks, b, i) <==>
             ComesBy(ts, m, blanks, b, v, i) || v in ChoicesFrom(ts, m, blanks, b, i + 1);
    }
  }

  // Repeats.

  lemma {:induction false} AddedCount(ts: seq<Tile>, m: Marks, v: Marks, i: nat, j: nat)
    requires |m| == |v| == |ts| && i < j < |ts|
    requires v[i] && !m[i] && v[j] && !m[j] && ts[i] == ts[j]
    ensures Added(ts, m, v)[ts[i]] >= 2
  {
    AddedOne(ts, m, v, i);
    AddedOne(ts, m[i := true], v, j);
  }

  ghost predicate Room(ts: seq<Tile>, m: Marks, blanks: seq<Tile>, b: nat)
    requires |m| == |ts| && b <= |blanks|
  {
    exists v :: IsChoice(ts, m, blanks, b, v)
  }

  lemma DistinctCount(s: seq<Tile>, t: Tile)
    requires NoDup(s)
    ensures multiset(s)[t] <= 1
  {
    if s != [] {
      var n := |s| - 1;
      assert s == s[..n] + [s[n]];
      DistinctCount(s[..n], t);
      if t == s[n] {
        assert t !in s[..n];
      }
    }
  }

  /** When the blanks stand for different letters no choice is made twice. */
  lemma {:induction false} NoRepeats(ts: seq<Tile>, m: Marks, blanks: seq<Tile>, b: nat)
    requires |m| == |ts| && b <= |blanks| && NoDup(blanks[..b])
    ensures NoDup(Choices(ts, m, blanks, b))
    decreases b, |ts| + 1
  {
    if b > 0 {
      NoRepeatsFrom(ts, m, blanks, b, 0);
    }
  }

  lemma OnlyOneWay(ts: seq<Tile>, m: Marks, blanks: seq<Tile>, b: nat, v: Marks, i: nat, j: nat)
    requires |m| == |ts| && 0 < b <= |blanks| && NoDup(blanks[..b]) && i < j < |ts|
    requires ComesBy(ts, m, blanks, b, v, i)
    ensures !ComesBy(ts, m, blanks, b, v, j)
  {
    DistinctCount(blanks[..b], ts[i]);
    assert m[i := true][i] && v[i];
    StepChoice(ts, m, blanks, b, v, i);
    assert m[j := true][j];
    if v[j] && !m[j] && ts[i] == ts[j] {
      AddedCount(ts, m, v, i, j);
    }
  }

  lemma {:induction false} NoRepeatsFrom(ts: seq<Tile>, m: Marks, blanks: seq<Tile>, b: nat, i: nat)
    requires |m| == |ts| && 0 < b <= |blanks| && NoDup(blanks[..b]) && i <= |ts|
    ensures NoDup(ChoicesFrom(ts, m, blanks, b, i))
    decreases b, |ts| - i
  {
    if i < |ts| {
      NoRepeatsFrom(ts, m, blanks, b, i + 1);
      if Takes(ts, m, blanks, b, i) {
        assert blanks[..b - 1] == blanks[..b][..b - 1];
        NoRepeats(ts, m[i := true], blanks, b - 1);
        var inner, rest := Choices(ts, m[i := true], blanks, b - 1), ChoicesFrom(ts, m, blanks, b, i + 1);
        forall v | v in inner
          ensures v !in rest
        {
          ChoicesFromExact(ts, m, blanks, b, v, i + 1);
          ChoicesExact(ts, m[i := true], blanks, b - 1, v);
          forall j: nat | i + 1 <= j < |ts|
            ensures !ComesBy(ts, m, blanks, b, v, j)
          {
            OnlyOneWay(ts, m, blanks, b, v, i, j);
          }
        }
        NoDupConcat(Choices(ts, m[i := true], blanks, b - 1), ChoicesFrom(ts, m, blanks, b, i + 1));
      }
    }
  }

  /** When two of the blanks stand for the same letter some choice is made twice. */
  lemma {:induction false} Repeats(ts: seq<Tile>, m: Marks, blanks: seq<Tile>, b: nat, v: Marks)
    requires |m| == |ts| && b <= |blanks| && !NoDup(blanks[..b])
    requires IsChoice(ts, m, blanks, b, v)
    ensures !NoDup(Choices(ts, m, blanks, b))
    decreases b
  {
    LastBlankSomewhere(ts, m, blanks, b, v);
    var i: nat :| i < |ts| && ComesBy(ts, m, blanks, b, v, i);
    var inner := Choices(ts, m[i := true], blanks, b - 1);
    if NoDup(blanks[..b - 1]) {
      LastRepeats(blanks, b);
      assert blanks[b - 1] in multiset(blanks[..b - 1]);
      var j := AddedSomewhere(ts, m[i := true], v, blanks[b - 1]);
      assert m[i := true][i] && v[i] && j != i && !m[j];
      StepChoice(ts, m, blanks, b, v, i);
      StepChoice(ts, m, blanks, b, v, j);
      TwiceFrom(ts, m, blanks, b, v, if i < j then i else j, if i < j then j else i, 0);
    } else {
      Repeats(ts, m[i := true], blanks, b - 1, v);
      InnerRepeats(ts, m, blanks, b, i, 0);
    }
  }

  lemma LastRepeats(s: seq<Tile>, b: nat)
    requires 0 < b <= |s| && !NoDup(s[..b]) && NoDup(s[..b - 1])
    ensures s[b - 1] in s[..b - 1]
  {
    var x, y :| 0 <= x < y < |s[..b]| && s[..b][x] == s[..b][y];
    assert forall k {:trigger s[..b][k]} :: 0 <= k < b - 1 ==> s[..b][k] == s[..b - 1][k];
  }

  lemma {:induction false} InnerRepeats(ts: seq<Tile>, m: Marks, blanks: seq<Tile>, b: nat, i: nat, k: nat)
    requires |m| == |ts| && 0 < b <= |blanks| && k <= i < |ts| && Takes(ts, m, blanks, b, i)
    requires !NoDup(Choices(ts, m[i := true], blanks, b - 1))
    ensures !NoDup(ChoicesFrom(ts, m, blanks, b, k))
    decreases |ts| - k
  {
    var rest := ChoicesFrom(ts, m, blanks, b, k + 1);
    if k == i {
      NotNoDup(Choices(ts, m[i := true], blanks, b - 1), rest);
    } else {
      InnerRepeats(ts, m, blanks, b, i, k + 1);
      NotNoDup(if Takes(ts, m, blanks, b, k) then Choices(ts, m[k := true], blanks, b - 1) else [], rest);
    }
  }

  lemma NotNoDup<T>(s: seq<T>, t: seq<T>)
    ensures !NoDup(s) || !NoDup(t) || (exists x :: x in s && x in t) ==> !NoDup(s + t)
  {
    if !NoDup(s) {
      var i, j :| 0 <= i < j < |s| && s[i] == s[j];
      assert (s + t)[i] == (s + t)[j];
    }
    if !NoDup(t) {
      var i, j :| 0 <= i < j < |t| && t[i] == t[j];
      assert (s + t)[|s| + i] == (s + t)[|s| + j];
    }
    if x :| x in s && x in t {
      var i :| 0 <= i < |s| && s[i] == x;
      var j :| 0 <= j < |t| && t[j] == x;
      assert (s + t)[i] == (s + t)[|s| + j];
    }
  }

  lemma {:induction false} TwiceFrom(ts: seq<Tile>, m: Marks, blanks: seq<Tile>, b: nat, v: Marks, i: nat, j: nat, k: nat)
    requires |m| == |ts| && 0 < b <= |blanks| && k <= i < j < |ts|
    requires ComesBy(ts, m, blanks, b, v, i) && ComesBy(ts, m, blanks, b, v, j)
    ensures !NoDup(ChoicesFrom(ts, m, blanks, b, k))
    decreases |ts| - k
  {
    var rest := ChoicesFrom(ts, m, blanks, b, k + 1);
    if k == i {
      ChoicesFromExact(ts, m, blanks, b, v, k + 1);
      ChoicesExact(ts, m[i := true], blanks, b - 1, v);
      NotNoDup(Choices(ts, m[i := true], blanks, b - 1), rest);
    } else {
      TwiceFrom(ts, m, blanks, b, v, i, j, k + 1);
      NotNoDup(if Takes(ts, m, blanks, b, k) then Choices(ts, m[k := true], blanks, b - 1) else [], rest);
    }
  }

  /** A move is considered once per choice of blanks exactly when its blanks stand for different
      letters; with a repeated letter the same choice comes up more than once. */
  lemma OncePerChoiceIff(ts: seq<Tile>, m: Marks, blanks: seq<Tile>, b: nat)
    requires |m| == |ts| && b <= |blanks| && Room(ts, m, blanks, b)
    ensures NoDup(Choices(ts, m, blanks, b)) <==> NoDup(blanks[..b])
  {
    if NoDup(blanks[..b]) {
      NoRepeats(ts, m, blanks, b);
    } else {
      var v :| IsChoice(ts, m, blanks, b, v);
      Repeats(ts, m, blanks, b, v);
    }
  }

  /** The smallest case: two tiles of one letter, both of them blanks, come up twice. */
  lemma TwoBlanksOneLetter(t: Tile)
    ensures Choices([t, t], [false, false], [t, t], 2) == [[true, true], [true, true]]
  {
    var ts, bs := [t, t], [t, t];
    var fst, snd, both := [true, false], [false, true], [true, true];
    assert [false, false][0 := true] == fst && [false, false][1 := true] == snd;
    assert fst[1 := true] == both && snd[0 := true] == both;
    assert ChoicesFrom(ts, fst, bs, 1, 2) == [] && ChoicesFrom(ts, snd, bs, 1, 2) == [];
    assert ChoicesFrom(ts, fst, bs, 1, 1) == [both];
    assert ChoicesFrom(ts, snd, bs, 1, 1) == [];
    assert Choices(ts, fst, bs, 1) == [both] && Choices(ts, snd, bs, 1) == [both];
    assert ChoicesFrom(ts, [false, false], bs, 2, 1) == [both];
  }

  // The blanks a legal placement needs.

  /** A blank is used for a tile exactly as often as the rack runs out of it. */
  lemma {:induction false} BlanksAreDeficits(rack: Rack, blank: nat, ts: seq<Tile>, t: Tile)
    requires blank < |rack| && Supplies(rack, blank, ts) && t < |rack| && t != blank
    ensures multiset(BlanksFor(rack, blank, ts))[t] ==
            if multiset(ts)[t] > rack[t] then multiset(ts)[t] - rack[t] else 0
    ensures |BlanksFor(rack, blank, ts)| <= rack[blank]
    decreases |ts|
  {
    if ts != [] {
      assert ts == [ts[0]] + ts[1..];
      assert multiset(ts)[t] == multiset(ts[1..])[t] + if ts[0] == t then 1 else 0;
      BlanksAreDeficits(Take(rack, blank, ts[0]), blank, ts[1..], t);
      if rack[ts[0]] == 0 && ts[0] != t {
        BlanksAreDeficits(Take(rack, blank, ts[0]), blank, ts[1..], ts[0]);
      }
    }
  }

  lemma {:induction false} BlanksAmongTiles(rack: Rack, blank: nat, ts: seq<Tile>)
    requires blank < |rack|
    ensures multiset(BlanksFor(rack, blank, ts)) <= multiset(ts)
    decreases |ts|
  {
    if ts != [] {
      assert ts == [ts[0]] + ts[1..];
      if CanTake(rack, blank, ts[0]) {
        BlanksAmongTiles(Take(rack, blank, ts[0]), blank, ts[1..]);
      }
    }
  }

  function NoMarks(n: nat): (m: Marks)
    ensures |m| == n
  {
    seq(n, _ => false)
  }

  function MarkFirst(ts: seq<Tile>, need: multiset<Tile>): (v: Marks)
    ensures |v| == |ts|
  {
    if ts == [] then []
    else if ts[0] in need then [true] + MarkFirst(ts[1..], need - multiset{ts[0]})
    else [false] + MarkFirst(ts[1..], need)
  }

  lemma {:induction false} MarkFirstAdds(ts: seq<Tile>, need: multiset<Tile>)
    requires need <= multiset(ts)
    ensures Added(ts, NoMarks(|ts|), MarkFirst(ts, need)) == need
    decreases |ts|
  {
    if ts != [] {
      assert ts == [ts[0]] + ts[1..];
      assert NoMarks(|ts|)[1..] == NoMarks(|ts| - 1);
      var rest := if ts[0] in need then need - multiset{ts[0]} else need;
      forall t
        ensures rest[t] <= multiset(ts[1..])[t]
      {
        assert need[t] <= multiset(ts)[t];
      }
      MarkFirstAdds(ts[1..], rest);
    }
  }

  /** For every placement the rack can supply the blanks can be chosen; each choice is made once exactly
      when no two of the blanks stand for the same letter. */
  lemma BlanksOfPlacement(rack: Rack, blank: nat, ts: seq<Tile>)
    requires blank < |rack| && Supplies(rack, blank, ts)
    ensures var bs := BlanksFor(rack, blank, ts);
            var all := Choices(ts, NoMarks(|ts|), bs, |bs|);
            && all != []
            && (forall v :: v in all <==> IsChoice(ts, NoMarks(|ts|), bs, |bs|, v))
            && (NoDup(all) <==> NoDup(bs))
  {
    var bs, m := BlanksFor(rack, blank, ts), NoMarks(|ts|);
    BlanksAmongTiles(rack, blank, ts);
    MarkFirstAdds(ts, multiset(bs));
    assert bs[..|bs|] == bs;
    assert IsChoice(ts, m, bs, |bs|, MarkFirst(ts, multiset(bs)));
    forall v {
      ChoicesExact(ts, m, bs, |bs|, v);
    }
    OncePerChoiceIff(ts, m, bs, |bs|);
  }
}
