/** A whole search of xwords4/common/engine.c: the moves found, the choices of blanks, their scores and the
    cache that hands them out, one after the other. */
module BestMove {
  import opened Dawg
  import opened Grid
  import opened Legal
  import opened AnchorSearch
  import opened CrossChecks
  import opened SearchSpec
  import opened RowSearch
  import opened BlankChoice
  import opened Score
  import Legality
  import MoveSearch
  import BothWays
  import RuleBook
  import Cache = MoveCache
  import Search = Engine

  /** A placement with its blanks chosen, as the scorer takes it. */
  function Marked(m: MoveInfo, v: Marks): (mv: Move)
    ensures |mv.tiles| == |m.tiles|
  {
    Move(m.horizontal, m.common,
         seq(|m.tiles|, k requires 0 <= k < |m.tiles| => MoveTile(m.tiles[k].col, m.tiles[k].tile, k < |v| && v[k])))
  }

  /** A legal placement, and a way to choose which of its tiles are the blanks it needs. */
  ghost predicate Playable(d: Dict, b: Board, rack: Rack, blank: nat, n: nat, m: MoveInfo, v: Marks)
    requires blank < |rack|
  {
    && LegalMove(d, b, rack, blank, n, m)
    && ChoiceFor(rack, blank, TilesOf(m.tiles), v)
  }

  ghost predicate ChoiceFor(rack: Rack, blank: nat, ts: seq<Tile>, v: Marks)
    requires blank < |rack|
  {
    var bs := BlanksFor(rack, blank, ts);
    IsChoice(ts, NoMarks(|ts|), bs, |bs|, v)
  }

  /** The same, said by the rules of the game. */
  ghost predicate CanBePlayed(d: Dict, b: Board, rack: Rack, blank: nat, n: nat, m: MoveInfo, v: Marks)
    requires blank < |rack|
  {
    && RuleBook.ByRules(d, b, rack, blank, n, m)
    && ChoiceFor(rack, blank, TilesOf(m.tiles), v)
  }

  lemma SameByRules(d: Dict, b: Board, rack: Rack, blank: nat, n: nat)
    requires blank < |rack| && StarFirst(b)
    ensures forall m, v :: Playable(d, b, rack, blank, n, m, v) <==> CanBePlayed(d, b, rack, blank, n, m, v)
  {
    hide LegalMove, RuleBook.ByRules, ChoiceFor, StarFirst;
    forall m, v
      ensures Playable(d, b, rack, blank, n, m, v) <==> CanBePlayed(d, b, rack, blank, n, m, v)
    {
      RuleBook.RulesIff(d, b, rack, blank, n, m);
    }
  }

  /** Blanks are taken for a letter exactly as often as the rack has too few of it. */
  lemma {:induction false} BlanksAsNeeded(rack: Rack, blank: nat, ts: seq<Tile>, t: Tile)
    requires blank < |rack| && MoveSearch.Supplies(rack, blank, ts) && t < |rack| && t != blank
    ensures multiset(BlanksFor(rack, blank, ts))[t] == if multiset(ts)[t] < rack[t] then 0 else multiset(ts)[t] - rack[t]
    decreases |ts|
  {
    hide MoveSearch.Supplies, BlanksFor, MoveSearch.Take, MoveSearch.CanTake;
    if ts == [] {
      NoBlanks(rack, blank);
    } else {
      var less, first := FirstBlank(rack, blank, ts, t);
      BlanksAsNeeded(less, blank, ts[1..], t);
      CountFirst([ts[0]], ts[1..], ts, t);
      CountFirst(first, BlanksFor(less, blank, ts[1..]), BlanksFor(rack, blank, ts), t);
    }
  }

  lemma NoBlanks(rack: Rack, blank: nat)
    requires blank < |rack|
    ensures BlanksFor(rack, blank, []) == []
  {
  }

  lemma FirstBlank(rack: Rack, blank: nat, ts: seq<Tile>, t: Tile) returns (less: Rack, first: seq<Tile>)
    requires blank < |rack| && ts != [] && MoveSearch.Supplies(rack, blank, ts) && t < |rack| && t != blank
    ensures MoveSearch.Supplies(less, blank, ts[1..]) && |first| <= 1
    ensures BlanksFor(rack, blank, ts) == first + BlanksFor(less, blank, ts[1..])
    ensures first == [t] <==> ts[0] == t && rack[t] == 0
    ensures less[t] == if ts[0] == t && rack[t] > 0 then rack[t] - 1 else rack[t]
  {
    less := MoveSearch.Take(rack, blank, ts[0]);
    first := if rack[ts[0]] > 0 then [] else [ts[0]];
  }

  lemma CountFirst(first: seq<Tile>, rest: seq<Tile>, all: seq<Tile>, t: Tile)
    requires |first| <= 1 && all == first + rest
    ensures multiset(all)[t] == (if first == [t] then 1 else 0) + multiset(rest)[t]
  {
  }

  /** Nobody lays more tiles than he has, so the limit on a move matters only to a tray of more than a full one. */
  lemma WithinTray(tiles: seq<Tile>, blank: nat, ts: seq<Tile>)
    requires blank <= MAX_UNIQUE_TILES && blank !in ts && CanSupply(Search.RackOf(tiles), blank, ts)
    ensures |ts| <= |tiles|
  {
    var rack, all := Search.RackOf(tiles), multiset(tiles);
    var own, subs :| Splits(rack, blank, ts, own, subs);
    assert blank !in multiset(ts) && multiset(ts)[blank] == own[blank] + subs[blank];
    assert own <= all[blank := 0];
    FewerIn(own, all[blank := 0]);
    assert |multiset(ts)| == |own| + |subs|;
  }

  lemma FewerIn(a: multiset<Tile>, b: multiset<Tile>)
    requires a <= b
    ensures |a| <= |b|
  {
    assert b == a + (b - a);
  }

  predicate Fits(b: Board, m: MoveInfo) {
    m.common < |b| && forall k :: 0 <= k < |m.tiles| ==> m.tiles[k].col < |b|
  }

  /** What a placement on the board is worth. */
  function Worth(g: Rules, b: Board, m: MoveInfo, v: Marks): nat {
    if Fits(b, m) then MoveScore(g, b, Marked(m, v)) else 0
  }

  /** The move as the cache keeps it; `key` stands for its bytes. */
  function Scored(g: Rules, b: Board, key: Move -> nat, m: MoveInfo, v: Marks): Cache.PossibleMove {
    Cache.PossibleMove(Worth(g, b, m, v), key(Marked(m, v)))
  }

  /** What the scorer needs of a placement. */
  ghost predicate Scorable(b: Board, m: MoveInfo) {
    && Fits(b, m) && m.tiles != []
    && forall v: Marks ::
         Ascending(Marked(m, v).tiles) && NoGaps(RowOf(b, m.horizontal, m.common), Marked(m, v).tiles)
  }

  lemma {:induction false} LaidIsOverlay(l: Line, p: Placement, ts: seq<MoveTile>, c: nat)
    requires |ts| == |p| && c < |l|
    requires forall k :: 0 <= k < |p| ==> p[k].col < |l| && ts[k].varCoord == p[k].col
    ensures Lay(l, ts)[c].Filled? == Overlay(l, p)[c].Filled?
    decreases |p|
  {
    if p != [] {
      LaidIsOverlay(l, p[..|p| - 1], ts[..|p| - 1], c);
    }
  }

  lemma LegalIsScorable(d: Dict, b: Board, rack: Rack, blank: nat, n: nat, m: MoveInfo)
    requires blank < |rack| && LegalMove(d, b, rack, blank, n, m)
    ensures Scorable(b, m)
  {
    hide InDict, RunWord, CanSupply, IsAnchor, Lay, Overlay, CrossOk;
    var l := RowOf(b, m.horizontal, m.common);
    forall v: Marks
      ensures Ascending(Marked(m, v).tiles) && NoGaps(l, Marked(m, v).tiles)
    {
      var ts := Marked(m, v).tiles;
      forall c | ts[0].varCoord <= c <= ts[|ts| - 1].varCoord
        ensures Lay(l, ts)[c].Filled?
      {
        LaidIsOverlay(l, m.tiles, ts, c);
      }
    }
  }

  ghost predicate FromEntry(g: Rules, b: Board, key: Move -> nat, e: Considered, c: Cache.PossibleMove)
  {
    && Fits(b, e.move) && !BothWays.Dropped(b, e.move.horizontal, e.move.common, e.move.tiles)
    && exists v :: v in Choices(TilesOf(e.move.tiles), NoMarks(|e.move.tiles|), e.blanks, |e.blanks|) && c == Scored(g, b, key, e.move, v)
  }

  /** All the ways to choose the blanks of one placement, scored; or none, when the other pass has it. */
  method SaveChoices(g: Rules, b: Board, key: Move -> nat, e: Considered) returns (cands: seq<Cache.PossibleMove>)
    requires Scorable(b, e.move)
    ensures forall c :: c in cands <==> FromEntry(g, b, key, e, c)
  {
    hide Choices, NoGaps, MoveScore, BothWays.Dropped;
    var m, ts := e.move, TilesOf(e.move.tiles);
    cands := [];
    if BothWays.Dropped(b, m.horizontal, m.common, m.tiles) {
      return;
    }
    var marks := new bool[|ts|](_ => false);
    assert marks[..] == NoMarks(|ts|);
    var all := ConsiderBlanks(ts, marks, e.blanks, |e.blanks|);
    for ii := 0 to |all|
      invariant forall c :: c in cands <==>
        exists k :: 0 <= k < ii && c == Scored(g, b, key, m, all[k])
    {
      var score := FigureMoveScore(g, b, Marked(m, all[ii]), NoCache);
      cands := cands + [Cache.PossibleMove(score, key(Marked(m, all[ii])))];
    }
  }

  method SaveAll(g: Rules, b: Board, key: Move -> nat, es: seq<Considered>) returns (cands: seq<Cache.PossibleMove>)
    requires forall e :: e in es ==> Scorable(b, e.move)
    ensures forall c :: c in cands <==> exists e :: e in es && FromEntry(g, b, key, e, c)
  {
    hide FromEntry, Scorable;
    cands := [];
    for ii := 0 to |es|
      invariant forall c :: c in cands <==> exists e :: e in es[..ii] && FromEntry(g, b, key, e, c)
    {
      assert es[..ii + 1] == es[..ii] + [es[ii]];
      var more := SaveChoices(g, b, key, es[ii]);
      cands := cands + more;
    }
    assert es[..|es|] == es;
  }

  lemma OneTileScore(g: Rules, b: Board, horizontal: bool, common: nat, t: MoveTile)
    requires common < |b| && t.varCoord < |b|
    ensures MoveScore(g, b, Move(horizontal, common, [t]))
            == Times(WordScore(g, b, horizontal, common, [t]), WordMultiplier(BonusAt(g, horizontal, common, t.varCoord)))
               + CrossScore(g, b, horizontal, common, t)
  {
    hide WordScore, BonusAt, CrossScore, Times;
    var m := WordMultiplier(BonusAt(g, horizontal, common, t.varCoord));
    assert [t][..0] == [] && MoveMultiplier(g, horizontal, common, []) == 1;
    assert MoveMultiplier(g, horizontal, common, [t]) == Times(1, m);
    assert CrossScores(g, b, horizontal, common, []) == 0;
    TimesOne(m);
  }

  lemma TimesOne(m: nat)
    ensures Times(1, m) == m
  {
  }

  /** A single tile is worth the same whichever way the move is taken to run. */
  lemma ScoreSwaps(g: Rules, b: Board, r: nat, c: nat, t: Tile, blank: bool)
    requires r < |b| && c < |b|
    ensures MoveScore(g, b, Move(true, r, [MoveTile(c, t, blank)]))
            == MoveScore(g, b, Move(false, c, [MoveTile(r, t, blank)]))
  {
    hide WordScore, BonusAt, WordMultiplier, MoveScore, Times;
    BonusSwaps(g, r, c);
    OneTileScore(g, b, true, r, MoveTile(c, t, blank));
    OneTileScore(g, b, false, c, MoveTile(r, t, blank));
  }

  lemma BonusSwaps(g: Rules, r: nat, c: nat)
    ensures BonusAt(g, true, r, c) == BonusAt(g, false, c, r)
  {
  }

  /** Each playable move, or the same tile taken to run the other way, is handed on and is worth the same. */
  lemma HandedOnSomehow(d: Dict, b: Board, rack: Rack, blank: nat, n: nat, g: Rules, m: MoveInfo, v: Marks)
    returns (w: MoveInfo)
    requires blank < |rack| && Playable(d, b, rack, blank, n, m, v)
    ensures Playable(d, b, rack, blank, n, w, v) && Worth(g, b, w, v) == Worth(g, b, m, v)
    ensures Fits(b, w) && !BothWays.Dropped(b, w.horizontal, w.common, w.tiles)
  {
    hide IsLegal, MoveScore;
    LegalIsScorable(d, b, rack, blank, n, m);
    w := m;
    if BothWays.Dropped(b, m.horizontal, m.common, m.tiles) {
      var r, t := m.tiles[0].col, m.tiles[0].tile;
      BothWays.DroppedIsAcross(d, b, m.common, rack, blank, n, m.tiles);
      w := MoveInfo(true, r, [Placed(m.common, t)]);
      assert TilesOf(w.tiles) == TilesOf(m.tiles);
      ScoreSwaps(g, b, r, m.common, t, v[0]);
      assert Marked(w, v) == Move(true, r, [MoveTile(m.common, t, v[0])]);
      assert Marked(m, v) == Move(false, m.common, [MoveTile(r, t, v[0])]);
    }
  }

  /** What the scoring of everything found comes to. */
  ghost predicate Complete(d: Dict, b: Board, rack: Rack, blank: nat, n: nat, g: Rules, key: Move -> nat,
                           cands: seq<Cache.PossibleMove>)
    requires blank < |rack|
  {
    && (forall c :: c in cands ==> IsPlay(d, b, rack, blank, n, g, key, c))
    && (forall m, v :: Playable(d, b, rack, blank, n, m, v) ==> ScoredIn(b, g, m, v, cands))
  }

  ghost predicate ScoredIn(b: Board, g: Rules, m: MoveInfo, v: Marks, cands: seq<Cache.PossibleMove>) {
    exists c :: c in cands && c.score == Worth(g, b, m, v)
  }

  /** A candidate is the score of something playable. */
  ghost predicate IsPlay(d: Dict, b: Board, rack: Rack, blank: nat, n: nat, g: Rules, key: Move -> nat, c: Cache.PossibleMove)
    requires blank < |rack|
  {
    exists m, v :: Playable(d, b, rack, blank, n, m, v) && c == Scored(g, b, key, m, v)
  }

  /** A move by the rules that the scorer's own check accepts, at what it is worth. */
  ghost predicate IsTurn(d: Dict, b: Board, rack: Rack, blank: nat, n: nat, g: Rules, key: Move -> nat, c: Cache.PossibleMove)
    requires blank < |rack|
  {
    exists m, v :: CanBePlayed(d, b, rack, blank, n, m, v) && c == Scored(g, b, key, m, v)
                   && OnBoard(|b|, Marked(m, v)) && Legality.IsLegal(b, Marked(m, v))
  }

  lemma EntriesAreListed(rack: Rack, blank: nat, ms: seq<MoveInfo>, m: MoveInfo)
    requires blank < |rack|
    ensures m in ms <==> Considered(m, BlanksFor(rack, blank, TilesOf(m.tiles))) in Entries(rack, blank, ms)
    ensures forall e :: e in Entries(rack, blank, ms) ==>
      e.move in ms && e == Considered(e.move, BlanksFor(rack, blank, TilesOf(e.move.tiles)))
  {
    var es := Entries(rack, blank, ms);
    if m in ms {
      var k :| 0 <= k < |ms| && ms[k] == m;
      assert es[k] == Considered(m, BlanksFor(rack, blank, TilesOf(m.tiles)));
    }
  }

  lemma AllSaved(d: Dict, b: Board, rack: Rack, blank: nat, n: nat, g: Rules, key: Move -> nat,
                 across: seq<MoveInfo>, down: seq<MoveInfo>, cands: seq<Cache.PossibleMove>)
    requires blank < |rack|
    requires ListsRows(across, d, b, rack, blank, n, true, |b|) && ListsRows(down, d, b, rack, blank, n, false, |b|)
    requires forall e :: e in Entries(rack, blank, across + down) ==> Scorable(b, e.move)
    requires forall c :: c in cands <==>
      exists e :: e in Entries(rack, blank, across + down) && FromEntry(g, b, key, e, c)
    ensures Complete(d, b, rack, blank, n, g, key, cands)
  {
    hide IsLegal, Choices, IsChoice, MoveScore, BothWays.Dropped, Scorable, Entries, BlanksFor;
    var es := Entries(rack, blank, across + down);
    forall c | c in cands
      ensures IsPlay(d, b, rack, blank, n, g, key, c)
    {
      var e :| e in es && FromEntry(g, b, key, e, c);
      EntriesAreListed(rack, blank, across + down, e.move);
      var v :| v in Choices(TilesOf(e.move.tiles), NoMarks(|e.move.tiles|), e.blanks, |e.blanks|)
        && c == Scored(g, b, key, e.move, v);
      ChoicesExact(TilesOf(e.move.tiles), NoMarks(|e.move.tiles|), e.blanks, |e.blanks|, v);
      assert e.move in across || e.move in down;
      assert Playable(d, b, rack, blank, n, e.move, v);
    }
    forall m, v | Playable(d, b, rack, blank, n, m, v)
      ensures ScoredIn(b, g, m, v, cands)
    {
      var w := HandedOnSomehow(d, b, rack, blank, n, g, m, v);
      assert w in across || w in down;
      EntriesAreListed(rack, blank, across + down, w);
      var bs := BlanksFor(rack, blank, TilesOf(w.tiles));
      var e := Considered(w, bs);
      ChoicesExact(TilesOf(w.tiles), NoMarks(|w.tiles|), bs, |bs|, v);
      var c := Scored(g, b, key, w, v);
      assert FromEntry(g, b, key, e, c);
      assert c in cands;
    }
  }

  /** The first move a search offers is one that can be played, and nothing that can be played scores more;
      it offers none only if nothing that can be played scores at all. */
  method FindFirst(e: Search.Engine, cache: Cache.MoveCache, g: Rules, key: Move -> nat, ghost rack0: Rack, ghost n0: nat)
    returns (found: Cache.Option<Cache.PossibleMove>)
    requires e.Idle(rack0, n0) && e.considered == []
    requires cache.savedMoves.Length == Cache.NUM_SAVED_ENGINE_MOVES && cache.nInMoveCache == 0 && cache.listed == []
    requires forall m, v :: CanBePlayed(e.dict, e.board, rack0, e.blankTile, n0, m, v) ==>
      Worth(g, e.board, m, v) < Cache.NO_LIMIT
    modifies e`considered, e`searchHorizontal, e`nTilesMax, e`blankCount
    modifies e.rack, e.blankValues, e.rowChecks, e.scoreCache, cache, cache.savedMoves
    ensures e.Idle(rack0, n0)
    ensures found.Some? ==> IsTurn(e.dict, e.board, rack0, e.blankTile, n0, g, key, found.value)
    ensures forall m, v :: CanBePlayed(e.dict, e.board, rack0, e.blankTile, n0, m, v) ==>
      Worth(g, e.board, m, v) <= if found.Some? then found.value.score else 0
  {
    hide Playable, CanBePlayed, ListsRows, Scorable, FromEntry, Scored, Worth, RuleBook.ByRules, StarFirst, IsPlay, IsTurn;
    SameByRules(e.dict, e.board, rack0, e.blankTile, n0);
    ghost var across, down := e.FindMoves(rack0, n0);
    AllScorable(e.dict, e.board, rack0, e.blankTile, n0, across, down);
    var cands := SaveAll(g, e.board, key, e.considered);
    AllSaved(e.dict, e.board, rack0, e.blankTile, n0, g, key, across, down, cands);
    AllBelow(e.dict, e.board, rack0, e.blankTile, n0, g, key, cands);
    found := cache.EngineFindMove(cands);
    if found.Some? {
      PlayIsTurn(e.dict, e.board, rack0, e.blankTile, n0, g, key, found.value);
    }
  }

  /** What a player is offered first for the tiles in the tray: nothing without tiles or words; or else a move
      that can be played and that no other beats, or none when nothing that can be played scores. */
  method ForTray(d: Dict, b: Board, g: Rules, key: Move -> nat, tiles: seq<Tile>)
    returns (canMove: bool, found: Cache.Option<Cache.PossibleMove>)
    requires 0 < |b| <= MAX_ROWS && StarFirst(b) && g.blank <= MAX_UNIQUE_TILES && g.blank < |g.values|
    requires forall i :: 0 <= i < |d.edges| ==> d.edges[i].tile != g.blank
    requires forall t :: t in tiles ==> t < MAX_UNIQUE_TILES
    requires forall m, v :: CanBePlayed(d, b, Search.RackOf(tiles), g.blank, Search.AtMost(|tiles|), m, v) ==>
      Worth(g, b, m, v) < Cache.NO_LIMIT
    ensures canMove <==> d.top.At? && tiles != []
    ensures found.Some? ==> canMove && IsTurn(d, b, Search.RackOf(tiles), g.blank, Search.AtMost(|tiles|), g, key, found.value)
    ensures canMove ==> forall m, v :: CanBePlayed(d, b, Search.RackOf(tiles), g.blank, Search.AtMost(|tiles|), m, v) ==>
      Worth(g, b, m, v) <= if found.Some? then found.value.score else 0
  {
    hide CanBePlayed, IsTurn, Worth, Search.RackOf, Search.AtMost, StarFirst;
    var engine := new Search.Engine(d, b, g.values, g.blank);
    var cache := new Cache.MoveCache();
    found := Cache.None;
    canMove := engine.BeginSearch(tiles);
    if canMove {
      found := FindFirst(engine, cache, g, key, Search.RackOf(tiles), Search.AtMost(|tiles|));
    }
  }

  /** A tile alone on a bare board makes no word of two letters, and scores nothing. */
  lemma LoneOpening(g: Rules, b: Board, m: MoveInfo, v: Marks)
    requires BareBoard(b) && Fits(b, m) && |m.tiles| == 1
    ensures Worth(g, b, m, v) == 0
  {
    hide BonusAt, Times, WordSum, RowOf, BareBoard;
    var t := Marked(m, v).tiles[0];
    assert Marked(m, v) == Move(m.horizontal, m.common, [t]);
    OneTileScore(g, b, m.horizontal, m.common, t);
    LoneTile(g, b, m.horizontal, m.common, t);
    LoneTile(g, b, !m.horizontal, t.varCoord, MoveTile(m.common, t.tile, t.blank));
    TimesNothing(WordMultiplier(BonusAt(g, m.horizontal, m.common, t.varCoord)));
  }

  lemma TimesNothing(n: nat)
    ensures Times(0, n) == 0
  {
  }

  lemma LoneTile(g: Rules, b: Board, horizontal: bool, common: nat, t: MoveTile)
    requires BareBoard(b) && common < |b| && t.varCoord < |b|
    ensures WordScore(g, b, horizontal, common, [t]) == 0
  {
    var l := RowOf(b, horizontal, common);
    OneTileEdges(l, t);
    assert forall c :: 0 <= c < |b| ==> l[c] == Cell(b, horizontal, c, common);
  }

  /** Whatever is offered can be committed: the scorer accepts it. */
  lemma OfferedIsAccepted(d: Dict, b: Board, rack: Rack, blank: nat, n: nat, g: Rules, m: MoveInfo, v: Marks)
    requires blank < |rack| && StarFirst(b) && CanBePlayed(d, b, rack, blank, n, m, v) && 0 < Worth(g, b, m, v)
    ensures OnBoard(|b|, Marked(m, v)) && Legality.IsLegal(b, Marked(m, v))
  {
    hide Legality.IsLegal, BareBoard, StarFirst, ChoiceFor, MoveScore;
    RuleBook.ScorerAccepts(d, b, rack, blank, n, m);
    if BareBoard(b) && |m.tiles| <= 1 {
      LoneOpening(g, b, m, v);
    }
    Legality.LegalIgnoresLetters(b, RuleBook.AsMove(m), Marked(m, v));
  }

  lemma PlayIsTurn(d: Dict, b: Board, rack: Rack, blank: nat, n: nat, g: Rules, key: Move -> nat, c: Cache.PossibleMove)
    requires blank < |rack| && StarFirst(b) && IsPlay(d, b, rack, blank, n, g, key, c) && 0 < c.score
    ensures IsTurn(d, b, rack, blank, n, g, key, c)
  {
    hide Playable, CanBePlayed, Worth, StarFirst, Legality.IsLegal;
    var m, v :| Playable(d, b, rack, blank, n, m, v) && c == Scored(g, b, key, m, v);
    SameByRules(d, b, rack, blank, n);
    OfferedIsAccepted(d, b, rack, blank, n, g, m, v);
  }

  lemma AllScorable(d: Dict, b: Board, rack: Rack, blank: nat, n: nat, across: seq<MoveInfo>, down: seq<MoveInfo>)
    requires blank < |rack|
    requires ListsRows(across, d, b, rack, blank, n, true, |b|) && ListsRows(down, d, b, rack, blank, n, false, |b|)
    ensures forall e :: e in Entries(rack, blank, across + down) ==> Scorable(b, e.move)
  {
    hide LegalMove, Scorable, Entries;
    forall e | e in Entries(rack, blank, across + down)
      ensures Scorable(b, e.move)
    {
      EntriesAreListed(rack, blank, across + down, e.move);
      assert e.move in across || e.move in down;
      LegalIsScorable(d, b, rack, blank, n, e.move);
    }
  }

  lemma AllBelow(d: Dict, b: Board, rack: Rack, blank: nat, n: nat, g: Rules, key: Move -> nat,
                 cands: seq<Cache.PossibleMove>)
    requires blank < |rack| && Complete(d, b, rack, blank, n, g, key, cands)
    requires forall m, v :: Playable(d, b, rack, blank, n, m, v) ==>
      Worth(g, b, m, v) < Cache.NO_LIMIT
    ensures forall c :: c in cands ==> c.score < Cache.NO_LIMIT
  {
    hide Playable, Worth;
    forall c | c in cands
      ensures c.score < Cache.NO_LIMIT
    {
      assert IsPlay(d, b, rack, blank, n, g, key, c);
    }
  }

  /** The crosswise scores worked out for a row are right wherever a legal move of the row has a tile, so
      scoring it with them gives the score worked out without. */
  lemma LentCacheIsRight(d: Dict, b: Board, rack: Rack, blank: nat, n: nat, g: Rules, m: MoveInfo, v: Marks,
                         checks: seq<Crosscheck>, scores: seq<nat>)
    requires blank < |rack| && blank == g.blank && LegalMove(d, b, rack, blank, n, m) && |b| <= |checks| == |scores|
    requires forall c :: 0 <= c < |b| ==>
      CrosscheckRight(d, b, m.horizontal, g.values, blank, c, m.common, checks[c], scores[c])
    ensures Fits(b, m) && RowCacheRight(g, b, Marked(m, v), Cached(scores))
  {
    hide RunWord, CanSupply, IsAnchor, Overlay, CrossOk, NeighbourPoints;
    var l := RowOf(b, m.horizontal, m.common);
    forall k | 0 <= k < |m.tiles|
      ensures scores[m.tiles[k].col] ==
              NeighbourPoints(g.values, g.blank, ColumnOf(b, m.horizontal, m.tiles[k].col), m.common)
    {
      TileInMainWord(l, m.tiles, k);
      AcceptedLettersSmall(d, d.top, RunWord(Overlay(l, m.tiles), m.tiles[0].col));
      assert CrosscheckRight(d, b, m.horizontal, g.values, blank, m.tiles[k].col, m.common,
                             checks[m.tiles[k].col], scores[m.tiles[k].col]);
      assert Contains(checks[m.tiles[k].col], m.tiles[k].tile);
    }
  }
}
