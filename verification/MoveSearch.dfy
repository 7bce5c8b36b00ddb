/** The search of xwords4/common/engine.c as predicates on the tiles it lays: which sequences the
    leftward and rightward extensions accept, and what that means in terms of words. */
module MoveSearch {
  import opened Dawg
  import opened Grid
  import opened Legal

  /** Everything a row search consults and never changes. `allowed[c]` holds the tiles whose
      cross-check bit is set at column c. */
  datatype Row = Row(d: Dict, line: Line, allowed: seq<set<Tile>>, blank: nat)

  ghost predicate RowOk(r: Row) {
    && |r.allowed| == |r.line|
    && r.blank <= MAX_UNIQUE_TILES
    && forall i :: 0 <= i < |r.d.edges| ==> r.d.edges[i].tile != r.blank
  }

  // The rack: the real tile first, a blank only when there is none.

  predicate CanTake(rack: Rack, blank: nat, t: Tile)
    requires blank < |rack|
  {
    t < |rack| && t != blank && (rack[t] > 0 || rack[blank] > 0)
  }

  function Take(rack: Rack, blank: nat, t: Tile): Rack
    requires blank < |rack| && CanTake(rack, blank, t)
  {
    if rack[t] > 0 then rack[t := rack[t] - 1] else rack[blank := rack[blank] - 1]
  }

  predicate Supplies(rack: Rack, blank: nat, ts: seq<Tile>)
    requires blank < |rack|
    decreases |ts|
  {
    ts == [] || (CanTake(rack, blank, ts[0]) && Supplies(Take(rack, blank, ts[0]), blank, ts[1..]))
  }

  function TakeAll(rack: Rack, blank: nat, ts: seq<Tile>): Rack
    requires blank < |rack| && Supplies(rack, blank, ts)
    decreases |ts|
  {
    if ts == [] then rack else TakeAll(Take(rack, blank, ts[0]), blank, ts[1..])
  }

  lemma {:induction false} SuppliesConcat(rack: Rack, blank: nat, us: seq<Tile>, vs: seq<Tile>)
    requires blank < |rack|
    ensures Supplies(rack, blank, us + vs) <==>
            Supplies(rack, blank, us) && Supplies(TakeAll(rack, blank, us), blank, vs)
    decreases |us|
  {
    if us == [] {
      assert us + vs == vs;
    } else {
      assert (us + vs)[0] == us[0] && (us + vs)[1..] == us[1..] + vs;
      if CanTake(rack, blank, us[0]) {
        SuppliesConcat(Take(rack, blank, us[0]), blank, us[1..], vs);
      }
    }
  }

  lemma RemoveOne(t: Tile, rest: multiset<Tile>, own: multiset<Tile>, subs: multiset<Tile>)
    requires multiset{t} + rest == own + subs
    ensures t in own ==> rest == (own - multiset{t}) + subs
    ensures t !in own ==> t in subs && rest == own + (subs - multiset{t}) && |subs - multiset{t}| == |subs| - 1
  {
    forall u
      ensures t in own ==> rest[u] == ((own - multiset{t}) + subs)[u]
      ensures t !in own ==> rest[u] == (own + (subs - multiset{t}))[u]
    {
      assert (multiset{t} + rest)[u] == (own + subs)[u];
    }
    assert (multiset{t} + rest)[t] == (own + subs)[t];
    if t !in own {
      assert subs == (subs - multiset{t}) + multiset{t};
    }
  }

  /** Taking tiles one by one, real ones first, never fails when some split exists. */
  lemma {:induction false} GreedyIsComplete(rack: Rack, blank: nat, ts: seq<Tile>,
                                            own: multiset<Tile>, subs: multiset<Tile>)
    requires blank < |rack| && Splits(rack, blank, ts, own, subs)
    requires forall t :: t in ts ==> t < |rack| && t != blank
    ensures Supplies(rack, blank, ts)
    decreases |ts|
  {
    if ts != [] {
      var t := ts[0];
      assert t in ts && ts == [t] + ts[1..];
      assert multiset(ts) == multiset{t} + multiset(ts[1..]);
      RemoveOne(t, multiset(ts[1..]), own, subs);
      assert blank !in ts && blank !in multiset(ts) && blank !in own + subs && own[blank] == 0;
      assert forall u :: u in ts[1..] ==> u in ts;
      if t in own {
        assert own[t] <= rack[t];
        assert Splits(Take(rack, blank, t), blank, ts[1..], own - multiset{t}, subs);
        GreedyIsComplete(Take(rack, blank, t), blank, ts[1..], own - multiset{t}, subs);
      } else {
        assert Splits(Take(rack, blank, t), blank, ts[1..], own, subs - multiset{t});
        GreedyIsComplete(Take(rack, blank, t), blank, ts[1..], own, subs - multiset{t});
      }
    }
  }

  lemma {:induction false} GreedyIsSound(rack: Rack, blank: nat, ts: seq<Tile>)
    returns (own: multiset<Tile>, subs: multiset<Tile>)
    requires blank < |rack| && Supplies(rack, blank, ts)
    ensures Splits(rack, blank, ts, own, subs) && blank !in own
    decreases |ts|
  {
    if ts == [] {
      own, subs := multiset{}, multiset{};
    } else {
      assert ts == [ts[0]] + ts[1..];
      own, subs := GreedyIsSound(Take(rack, blank, ts[0]), blank, ts[1..]);
      assert multiset(ts) == multiset{ts[0]} + multiset(ts[1..]);
      OneMoreTaken(rack, blank, ts, own, subs);
      if rack[ts[0]] > 0 {
        own := own + multiset{ts[0]};
      } else {
        subs := subs + multiset{ts[0]};
      }
    }
  }

  lemma OneMoreTaken(rack: Rack, blank: nat, ts: seq<Tile>, own: multiset<Tile>, subs: multiset<Tile>)
    requires blank < |rack| && ts != [] && CanTake(rack, blank, ts[0])
    requires multiset(ts) == multiset{ts[0]} + multiset(ts[1..])
    requires Splits(Take(rack, blank, ts[0]), blank, ts[1..], own, subs) && blank !in own
    ensures if rack[ts[0]] > 0 then Splits(rack, blank, ts, own + multiset{ts[0]}, subs) && blank !in own + multiset{ts[0]}
            else Splits(rack, blank, ts, own, subs + multiset{ts[0]})
  {
    var less := Take(rack, blank, ts[0]);
    forall t | t in own
      ensures t < |rack| && own[t] <= less[t] <= rack[t]
    {
    }
  }

  lemma SuppliesIffCanSupply(rack: Rack, blank: nat, ts: seq<Tile>)
    requires blank < |rack| && forall t :: t in ts ==> t < |rack| && t != blank
    ensures Supplies(rack, blank, ts) <==> CanSupply(rack, blank, ts)
  {
    if Supplies(rack, blank, ts) {
      var own, subs := GreedyIsSound(rack, blank, ts);
    }
    if CanSupply(rack, blank, ts) {
      var own, subs :| Splits(rack, blank, ts, own, subs);
      GreedyIsComplete(rack, blank, ts, own, subs);
    }
  }

  // Extending to the right.

  /** Laying `ts` on the empty squares from `col` on, and nothing after, ends on a word. */
  predicate Extends(r: Row, p: Ptr, accepting: bool, col: nat, rack: Rack, n: nat, ts: seq<Tile>)
    requires r.blank < |rack| && col <= |r.line| == |r.allowed| && NodePtr(r.d, p)
    decreases |r.line| - col
  {
    if col == |r.line| then ts == [] && accepting
    else if r.line[col].Filled? then
      var e := EdgeFor(r.d, p, r.line[col].tile);
      e.At? && Extends(r, Follow(r.d, e.i), r.d.edges[e.i].accepting, col + 1, rack, n, ts)
    else if ts == [] then accepting
    else
      var e := EdgeFor(r.d, p, ts[0]);
      && n > 0 && e.At? && ts[0] in r.allowed[col] && CanTake(rack, r.blank, ts[0])
      && Extends(r, Follow(r.d, e.i), r.d.edges[e.i].accepting, col + 1,
                 Take(rack, r.blank, ts[0]), n - 1, ts[1..])
  }

  /** Laying `k` tiles leftwards of the anchor, all on bare squares, and then the rest rightwards. */
  predicate ExtendsBoth(r: Row, p: Ptr, anchor: nat, rack: Rack, n: nat, k: nat, ts: seq<Tile>)
    requires r.blank < |rack| && anchor <= |r.line| == |r.allowed| && NodePtr(r.d, p)
    decreases k
  {
    if k == 0 then Extends(r, p, false, anchor, rack, n, ts)
    else
      && ts != [] && n > 0
      && var e := EdgeFor(r.d, p, ts[0]);
      && e.At? && CanTake(rack, r.blank, ts[0])
      && ExtendsBoth(r, Follow(r.d, e.i), anchor, Take(rack, r.blank, ts[0]), n - 1, k - 1, ts[1..])
  }

  /** Where consecutive new tiles land when laid from `col` on. */
  function Spread(l: Line, col: nat, ts: seq<Tile>): (p: Placement)
    requires col <= |l|
    decreases |l| - col
  {
    if col == |l| || ts == [] then []
    else if l[col].Filled? then Spread(l, col + 1, ts)
    else [Placed(col, ts[0])] + Spread(l, col + 1, ts[1..])
  }

  /** The letters read from `col` up to the first square left bare. */
  function Reading(l: Line, col: nat, ts: seq<Tile>): (w: Word)
    requires col <= |l|
    decreases |l| - col
  {
    if col == |l| then []
    else if l[col].Filled? then [l[col].tile] + Reading(l, col + 1, ts)
    else if ts == [] then []
    else [ts[0]] + Reading(l, col + 1, ts[1..])
  }

  predicate AllAllowed(r: Row, p: Placement) {
    forall k :: 0 <= k < |p| ==> p[k].col < |r.allowed| && p[k].tile in r.allowed[p[k].col]
  }

  /** The rightward search accepts exactly the tiles that fit on the row, respect the cross-checks
      and the rack, and whose reading the dictionary accepts from the node reached so far. */
  lemma {:induction false} ExtendsMeaning(r: Row, p: Ptr, accepting: bool, col: nat, rack: Rack, n: nat, ts: seq<Tile>)
    requires r.blank < |rack| && col <= |r.line| == |r.allowed| && NodePtr(r.d, p)
    ensures Extends(r, p, accepting, col, rack, n, ts) <==>
            && |Spread(r.line, col, ts)| == |ts| <= n
            && AllAllowed(r, Spread(r.line, col, ts))
            && Supplies(rack, r.blank, ts)
            && var w := Reading(r.line, col, ts);
               if w == [] then accepting else Accepts(r.d, p, w)
    decreases |r.line| - col
  {
    if col < |r.line| {
      var w := Reading(r.line, col, ts);
      if r.line[col].Filled? {
        var e := EdgeFor(r.d, p, r.line[col].tile);
        if e.At? {
          ExtendsMeaning(r, Follow(r.d, e.i), r.d.edges[e.i].accepting, col + 1, rack, n, ts);
        }
      } else if ts != [] {
        var e := EdgeFor(r.d, p, ts[0]);
        if e.At? && n > 0 && CanTake(rack, r.blank, ts[0]) {
          ExtendsMeaning(r, Follow(r.d, e.i), r.d.edges[e.i].accepting, col + 1,
                         Take(rack, r.blank, ts[0]), n - 1, ts[1..]);
        }
        SpreadAllowed(r, col, ts);
      }
    }
  }

  lemma SpreadAllowed(r: Row, col: nat, ts: seq<Tile>)
    requires col < |r.line| == |r.allowed| && r.line[col].Empty? && ts != []
    ensures AllAllowed(r, Spread(r.line, col, ts)) <==>
            ts[0] in r.allowed[col] && AllAllowed(r, Spread(r.line, col + 1, ts[1..]))
  {
    var q := Spread(r.line, col + 1, ts[1..]);
    var p := Spread(r.line, col, ts);
    assert p == [Placed(col, ts[0])] + q;
    assert p[0] == Placed(col, ts[0]) && forall k :: 0 <= k < |q| ==> p[k + 1] == q[k];
  }

  lemma NoneLeft(r: Row, p: Ptr, anchor: nat, rack: Rack, n: nat, ts: seq<Tile>)
    requires r.blank < |rack| && anchor < |r.line| == |r.allowed| && NodePtr(r.d, p) && r.line[anchor].Empty?
    ensures Extends(r, p, false, anchor, rack, n, ts) <==>
            && 0 < |ts| <= n && Supplies(rack, r.blank, ts)
            && |Spread(r.line, anchor, ts[0..])| == |ts|
            && AllAllowed(r, Spread(r.line, anchor, ts[0..]))
            && Accepts(r.d, p, ts[..0] + Reading(r.line, anchor, ts[0..]))
  {
    ExtendsMeaning(r, p, false, anchor, rack, n, ts);
    assert ts[0..] == ts && ts[..0] + Reading(r.line, anchor, ts) == Reading(r.line, anchor, ts);
    assert ts == [] ==> Reading(r.line, anchor, ts) == [];
    assert ts != [] ==> Reading(r.line, anchor, ts) != [];
  }

  /** The search to both sides, in the same terms. */
  lemma {:induction false} ExtendsBothMeaning(r: Row, p: Ptr, anchor: nat, rack: Rack, n: nat, k: nat, ts: seq<Tile>)
    requires r.blank < |rack| && anchor < |r.line| == |r.allowed| && NodePtr(r.d, p)
    requires r.line[anchor].Empty?
    ensures ExtendsBoth(r, p, anchor, rack, n, k, ts) <==>
            && k < |ts| <= n && Supplies(rack, r.blank, ts)
            && |Spread(r.line, anchor, ts[k..])| == |ts| - k
            && AllAllowed(r, Spread(r.line, anchor, ts[k..]))
            && Accepts(r.d, p, ts[..k] + Reading(r.line, anchor, ts[k..]))
    decreases k
  {
    hide Spread, AllAllowed, Extends;
    if k == 0 {
      NoneLeft(r, p, anchor, rack, n, ts);
    } else if ts != [] {
      var e := EdgeFor(r.d, p, ts[0]);
      if k < |ts| {
        var w := ts[..k] + Reading(r.line, anchor, ts[k..]);
        assert ts[1..][k - 1..] == ts[k..];
        assert w[0] == ts[0] && w[1..] == ts[1..][..k - 1] + Reading(r.line, anchor, ts[k..]);
      }
      if e.At? && n > 0 && CanTake(rack, r.blank, ts[0]) {
        ExtendsBothMeaning(r, Follow(r.d, e.i), anchor, Take(rack, r.blank, ts[0]), n - 1, k - 1, ts[1..]);
      }
    }
  }
}
