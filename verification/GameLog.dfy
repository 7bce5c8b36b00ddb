/** What the move log of a game stands for: each entry carries the committed game to the next
    (xwords4/common/model.c), and undoing an entry carries it back. */
module GameLog {
  import opened Dawg
  import opened Grid
  import opened Score
  import opened Legality

  datatype Option<T> = None | Some(value: T)

  datatype Pos = Pos(col: nat, row: nat)

  /** A committed tile, with the player who put it there. */
  datatype Stone = Stone(tile: Tile, blank: bool, owner: nat)

  type Stones = map<Pos, Stone>

  datatype GameSetup = GameSetup(size: nat, rules: Rules, nPlayers: nat, letters: multiset<Tile>)

  type Setup = s: GameSetup | 0 < s.size <= MAX_ROWS witness GameSetup(1, RuleSet([0], 0, []), 0, multiset{})

  datatype Entry =
    | AssignEntry(player: nat, tiles: seq<Tile>)
    | MoveEntry(player: nat, mv: Move, newTiles: seq<Tile>)
    | TradeEntry(player: nat, oldTiles: seq<Tile>, newTiles: seq<Tile>)
    | PhonyEntry(player: nat, mv: Move)

  /** The committed part of a game. A hand is what a player has in the tray or pending on the board. */
  datatype Game = Game(stones: Stones, hands: seq<multiset<Tile>>, scores: seq<int>, pool: multiset<Tile>)

  function PosAt(horizontal: bool, c: nat, r: nat): Pos {
    if horizontal then Pos(c, r) else Pos(r, c)
  }

  function Along(horizontal: bool, p: Pos): nat {
    if horizontal then p.col else p.row
  }

  function Across(horizontal: bool, p: Pos): nat {
    if horizontal then p.row else p.col
  }

  predicate IsNew(mv: Move, p: Pos) {
    OwnSquare(mv, Along(mv.horizontal, p), Across(mv.horizontal, p))
  }

  function SquareAt(stones: Stones, p: Pos): Square {
    if p in stones then Filled(stones[p].tile, stones[p].blank) else Empty
  }

  /** The board as `model_getTile` shows it with pending tiles left out. */
  function BoardOf(n: nat, stones: Stones): (b: Board)
    ensures |b| == n
    ensures forall horizontal, c, r :: 0 <= c < n && 0 <= r < n ==>
              Cell(b, horizontal, c, r) == SquareAt(stones, PosAt(horizontal, c, r))
  {
    seq(n, r requires 0 <= r < n => seq(n, c requires 0 <= c < n => SquareAt(stones, Pos(c, r))))
  }

  /** What a tile is in the tray: a blank is a blank whatever it stands for on the board. */
  function RackTile(rules: Rules, tile: Tile, blank: bool): Tile {
    if blank then rules.blank else tile
  }

  function RackTiles(rules: Rules, ts: seq<MoveTile>): multiset<Tile> {
    if ts == [] then multiset{}
    else RackTiles(rules, ts[..|ts| - 1]) + multiset{RackTile(rules, ts[|ts| - 1].tile, ts[|ts| - 1].blank)}
  }

  function Place(stones: Stones, owner: nat, horizontal: bool, common: nat, ts: seq<MoveTile>): Stones {
    if ts == [] then stones
    else
      var t := ts[|ts| - 1];
      Place(stones, owner, horizontal, common, ts[..|ts| - 1])
        [PosAt(horizontal, t.varCoord, common) := Stone(t.tile, t.blank, owner)]
  }

  function Unplace(stones: Stones, horizontal: bool, common: nat, ts: seq<MoveTile>): Stones {
    if ts == [] then stones
    else
      Unplace(stones, horizontal, common, ts[..|ts| - 1]) - {PosAt(horizontal, ts[|ts| - 1].varCoord, common)}
  }

  predicate InBounds(n: nat, stones: Stones) {
    forall p :: p in stones ==> p.col < n && p.row < n
  }

  predicate WellFormed(s: Setup, g: Game) {
    |g.hands| == |g.scores| == s.nPlayers && InBounds(s.size, g.stones)
  }

  predicate OnBare(stones: Stones, mv: Move) {
    forall k :: 0 <= k < |mv.tiles| ==> PosAt(mv.horizontal, mv.tiles[k].varCoord, mv.common) !in stones
  }

  /** How single tiles and passes are logged. */
  predicate Canonical(mv: Move) {
    (|mv.tiles| <= 1 ==> !mv.horizontal) && (mv.tiles == [] ==> mv.common == 0)
  }

  /** The player has these tiles and puts them in order on bare squares of one line. */
  ghost predicate Playable(s: Setup, g: Game, player: nat, mv: Move) {
    && player < |g.hands| && Canonical(mv)
    && OnBoard(s.size, mv) && Ascending(mv.tiles) && OnBare(g.stones, mv)
    && RackTiles(s.rules, mv.tiles) <= g.hands[player]
    && forall k :: 0 <= k < |mv.tiles| && mv.tiles[k].tile == s.rules.blank ==> mv.tiles[k].blank
  }

  /** What must hold for an entry to be logged. A move without tiles is a pass. */
  ghost predicate ValidEntry(s: Setup, g: Game, e: Entry) {
    && WellFormed(s, g) && e.player < s.nPlayers
    && match e
       case AssignEntry(_, tiles) => multiset(tiles) <= g.pool
       case MoveEntry(player, mv, newTiles) =>
         && Playable(s, g, player, mv)
         && (mv.tiles == [] || IsLegal(BoardOf(s.size, g.stones), mv))
         && multiset(newTiles) <= g.pool
       case TradeEntry(player, oldTiles, newTiles) =>
         && |oldTiles| == |newTiles|
         && multiset(oldTiles) <= g.hands[player] && multiset(newTiles) <= g.pool
       case PhonyEntry(player, mv) => Playable(s, g, player, mv)
  }

  function Scored(s: Setup, stones: Stones, mv: Move): nat
    requires OnBoard(s.size, mv)
  {
    MoveScore(s.rules, BoardOf(s.size, stones), mv)
  }

  ghost function Apply(s: Setup, g: Game, e: Entry): (r: Game)
    requires ValidEntry(s, g, e)
    ensures |r.hands| == |r.scores| == s.nPlayers
  {
    var p := e.player;
    match e
    case AssignEntry(_, tiles) =>
      g.(hands := g.hands[p := g.hands[p] + multiset(tiles)], pool := g.pool - multiset(tiles))
    case MoveEntry(_, mv, newTiles) =>
      Game(Place(g.stones, p, mv.horizontal, mv.common, mv.tiles),
           g.hands[p := g.hands[p] - RackTiles(s.rules, mv.tiles) + multiset(newTiles)],
           g.scores[p := g.scores[p] + Scored(s, g.stones, mv)],
           g.pool - multiset(newTiles))
    case TradeEntry(_, oldTiles, newTiles) =>
      g.(hands := g.hands[p := g.hands[p] - multiset(oldTiles) + multiset(newTiles)],
         pool := g.pool + multiset(oldTiles) - multiset(newTiles))
    case PhonyEntry(_, _) => g
  }

  /** The entry could be made in `g`, and made it `now`. */
  ghost predicate CameBy(s: Setup, g: Game, e: Entry, now: Game) {
    ValidEntry(s, g, e) && now == Apply(s, g, e)
  }

  predicate Undoable(s: Setup, g: Game, e: Entry) {
    && |g.hands| == |g.scores| == s.nPlayers && e.player < s.nPlayers
    && !e.AssignEntry?
    && (e.MoveEntry? ==> OnBoard(s.size, e.mv))
  }

  /** Undoing: the tiles drawn go back to the pool, the tiles played go back to the hand, and the score
      comes off as it is figured with the tiles already off the board. */
  ghost function Unapply(s: Setup, g: Game, e: Entry): Game
    requires Undoable(s, g, e)
  {
    var p := e.player;
    match e
    case MoveEntry(_, mv, newTiles) =>
      var stones := Unplace(g.stones, mv.horizontal, mv.common, mv.tiles);
      Game(stones,
           g.hands[p := g.hands[p] - multiset(newTiles) + RackTiles(s.rules, mv.tiles)],
           g.scores[p := g.scores[p] - Scored(s, stones, mv)],
           g.pool + multiset(newTiles))
    case TradeEntry(_, oldTiles, newTiles) =>
      g.(hands := g.hands[p := g.hands[p] - multiset(newTiles) + multiset(oldTiles)],
         pool := g.pool + multiset(newTiles) - multiset(oldTiles))
    case PhonyEntry(_, _) => g
  }

  function Start(s: Setup): Game {
    Game(map[], seq(s.nPlayers, _ => multiset{}), seq(s.nPlayers, _ => 0), s.letters)
  }

  /** The game a log describes, or None when some entry could not have been made. */
  ghost function Replay(s: Setup, log: seq<Entry>): Option<Game> {
    if log == [] then Some(Start(s))
    else
      var before := Replay(s, log[..|log| - 1]);
      if before.Some? && ValidEntry(s, before.value, log[|log| - 1]) then
        Some(Apply(s, before.value, log[|log| - 1]))
      else None
  }

  // The stones of a move.

  lemma {:induction false} PlaceAt(stones: Stones, owner: nat, horizontal: bool, common: nat, ts: seq<MoveTile>, p: Pos)
    requires Ascending(ts)
    ensures var placed := Place(stones, owner, horizontal, common, ts);
            var isNew := IsNew(Move(horizontal, common, ts), p);
            && (p in placed <==> p in stones || isNew)
            && (p in placed && !isNew ==> placed[p] == stones[p])
            && forall k :: 0 <= k < |ts| && PosAt(horizontal, ts[k].varCoord, common) == p ==>
                 p in placed && placed[p] == Stone(ts[k].tile, ts[k].blank, owner)
    decreases |ts|
  {
    if ts != [] {
      var us := ts[..|ts| - 1];
      assert forall k :: 0 <= k < |us| ==> us[k] == ts[k];
      PlaceAt(stones, owner, horizontal, common, us, p);
      assert Covers(ts, Along(horizontal, p)) <==>
        Covers(us, Along(horizontal, p)) || ts[|ts| - 1].varCoord == Along(horizontal, p);
    }
  }

  lemma {:induction false} UnplaceAt(stones: Stones, horizontal: bool, common: nat, ts: seq<MoveTile>, p: Pos)
    ensures var left := Unplace(stones, horizontal, common, ts);
            && (p in left <==> p in stones && !IsNew(Move(horizontal, common, ts), p))
            && (p in left ==> left[p] == stones[p])
    decreases |ts|
  {
    if ts != [] {
      var us := ts[..|ts| - 1];
      assert forall k :: 0 <= k < |us| ==> us[k] == ts[k];
      UnplaceAt(stones, horizontal, common, us, p);
      assert Covers(ts, Along(horizontal, p)) <==>
        Covers(us, Along(horizontal, p)) || ts[|ts| - 1].varCoord == Along(horizontal, p);
    }
  }

  lemma UnplacePlace(stones: Stones, owner: nat, mv: Move)
    requires Ascending(mv.tiles) && OnBare(stones, mv)
    ensures Unplace(Place(stones, owner, mv.horizontal, mv.common, mv.tiles), mv.horizontal, mv.common, mv.tiles) == stones
  {
    hide Place, Unplace;
    var placed := Place(stones, owner, mv.horizontal, mv.common, mv.tiles);
    var back := Unplace(placed, mv.horizontal, mv.common, mv.tiles);
    forall p: Pos
      ensures p in back <==> p in stones
      ensures p in back && p in stones ==> back[p] == stones[p]
    {
      PlaceAt(stones, owner, mv.horizontal, mv.common, mv.tiles, p);
      UnplaceAt(placed, mv.horizontal, mv.common, mv.tiles, p);
    }
  }

  lemma PlacedElsewhere(n: nat, stones: Stones, owner: nat, mv: Move)
    requires OnBoard(n, mv) && Ascending(mv.tiles)
    ensures SameElsewhere(BoardOf(n, stones),
                          BoardOf(n, Place(stones, owner, mv.horizontal, mv.common, mv.tiles)), mv)
  {
    hide Place, BoardOf;
    var placed := Place(stones, owner, mv.horizontal, mv.common, mv.tiles);
    forall c, r | 0 <= c < n && 0 <= r < n && !OwnSquare(mv, c, r)
      ensures Cell(BoardOf(n, stones), mv.horizontal, c, r) == Cell(BoardOf(n, placed), mv.horizontal, c, r)
    {
      PlaceAt(stones, owner, mv.horizontal, mv.common, mv.tiles, PosAt(mv.horizontal, c, r));
    }
  }

  lemma PlaceInBounds(n: nat, stones: Stones, owner: nat, mv: Move)
    requires OnBoard(n, mv) && Ascending(mv.tiles) && InBounds(n, stones)
    ensures InBounds(n, Place(stones, owner, mv.horizontal, mv.common, mv.tiles))
  {
    hide Place;
    forall p | p in Place(stones, owner, mv.horizontal, mv.common, mv.tiles)
      ensures p.col < n && p.row < n
    {
      PlaceAt(stones, owner, mv.horizontal, mv.common, mv.tiles, p);
    }
  }

  // Undo inverts commit, and so does the log.

  lemma UndoInvertsHand(h: multiset<Tile>, a: multiset<Tile>, b: multiset<Tile>)
    requires a <= h
    ensures h - a + b - b + a == h && b <= h - a + b
  {
  }

  lemma PutBack<T>(xs: seq<T>, i: nat, x: T, y: T)
    requires i < |xs| && y == xs[i]
    ensures xs[i := x][i] == x && xs[i := x][i := y] == xs
  {
  }

  lemma UndoInvertsMove(s: Setup, g: Game, e: Entry)
    requires ValidEntry(s, g, e) && e.MoveEntry?
    ensures Undoable(s, Apply(s, g, e), e) && Unapply(s, Apply(s, g, e), e) == g
  {
    hide Place, Unplace, RackTiles, IsLegal, Scored, OnBare, InBounds;
    var p, played, drawn := e.player, RackTiles(s.rules, e.mv.tiles), multiset(e.newTiles);
    UnplacePlace(g.stones, p, e.mv);
    UndoInvertsHand(g.hands[p], played, drawn);
    PutBack(g.hands, p, g.hands[p] - played + drawn, g.hands[p] - played + drawn - drawn + played);
    PutBack(g.scores, p, g.scores[p] + Scored(s, g.stones, e.mv), g.scores[p]);
    assert g.pool - drawn + drawn == g.pool;
  }

  lemma UndoInvertsTrade(s: Setup, g: Game, e: Entry)
    requires ValidEntry(s, g, e) && e.TradeEntry?
    ensures Undoable(s, Apply(s, g, e), e) && Unapply(s, Apply(s, g, e), e) == g
  {
    var p, gone, drawn := e.player, multiset(e.oldTiles), multiset(e.newTiles);
    UndoInvertsHand(g.hands[p], gone, drawn);
    PutBack(g.hands, p, g.hands[p] - gone + drawn, g.hands[p] - gone + drawn - drawn + gone);
    assert g.pool + gone - drawn + drawn - gone == g.pool;
  }

  /** Committing a legal move, a trade or a phony and then undoing it restores the stones, the hand, the
      score and the pool exactly. */
  lemma UndoInvertsCommit(s: Setup, g: Game, e: Entry)
    requires ValidEntry(s, g, e) && !e.AssignEntry?
    ensures Undoable(s, Apply(s, g, e), e) && Unapply(s, Apply(s, g, e), e) == g
  {
    hide Playable, IsLegal, Place, Unplace, RackTiles, Scored;
    match e
    case MoveEntry(_, _, _) => UndoInvertsMove(s, g, e);
    case TradeEntry(_, _, _) => UndoInvertsTrade(s, g, e);
    case PhonyEntry(_, _) =>
  }

  lemma ApplyWellFormed(s: Setup, g: Game, e: Entry)
    requires ValidEntry(s, g, e)
    ensures WellFormed(s, Apply(s, g, e))
  {
    hide Place, RackTiles, IsLegal;
    if e.MoveEntry? {
      PlaceInBounds(s.size, g.stones, e.player, e.mv);
    }
  }

  lemma {:induction false} ReplayWellFormed(s: Setup, log: seq<Entry>)
    ensures Replay(s, log).Some? ==> WellFormed(s, Replay(s, log).value)
    decreases |log|
  {
    hide ValidEntry, Apply;
    if log != [] {
      var before := log[..|log| - 1];
      ReplayWellFormed(s, before);
      if Replay(s, log).Some? {
        ApplyWellFormed(s, Replay(s, before).value, log[|log| - 1]);
      }
    }
  }

  lemma ReplayPushed(s: Setup, log: seq<Entry>, e: Entry)
    requires Replay(s, log).Some? && ValidEntry(s, Replay(s, log).value, e)
    ensures Replay(s, log + [e]) == Some(Apply(s, Replay(s, log).value, e))
  {
    assert (log + [e])[..|log|] == log;
  }

  /** Undoing the last entry gives the game the shorter log describes. */
  lemma PoppedReplay(s: Setup, log: seq<Entry>)
    requires log != [] && Replay(s, log).Some? && !log[|log| - 1].AssignEntry?
    ensures Undoable(s, Replay(s, log).value, log[|log| - 1])
    ensures Replay(s, log[..|log| - 1]) == Some(Unapply(s, Replay(s, log).value, log[|log| - 1]))
  {
    hide ValidEntry, Apply, Unapply;
    UndoInvertsCommit(s, Replay(s, log[..|log| - 1]).value, log[|log| - 1]);
  }

  // Tiles are conserved.

  // A live game may be off in its scores.

  /** The game with each player's score off by so much. */
  function Drifted(g: Game, drift: seq<int>): (r: Game)
    requires |drift| == |g.scores|
    ensures |r.scores| == |g.scores| && forall i :: 0 <= i < |g.scores| ==> r.scores[i] == g.scores[i] + drift[i]
  {
    g.(scores := seq(|g.scores|, i requires 0 <= i < |g.scores| => g.scores[i] + drift[i]))
  }

  lemma DriftedSame(g: Game, h: Game, drift: seq<int>)
    requires |drift| == |g.scores| == |h.scores|
    ensures Drifted(g, drift) == Drifted(h, drift) <==> g == h
    ensures Drifted(g, drift) == g <==> forall i :: 0 <= i < |drift| ==> drift[i] == 0
  {
    assert forall i :: 0 <= i < |drift| ==> Drifted(g, drift).scores[i] - drift[i] == g.scores[i];
    if Drifted(g, drift) == Drifted(h, drift) {
      assert forall i :: 0 <= i < |drift| ==> g.scores[i] == h.scores[i];
      assert g.scores == h.scores;
    }
    if forall i :: 0 <= i < |drift| ==> drift[i] == 0 {
      assert Drifted(g, drift).scores == g.scores;
    }
  }

  /** Scores do not decide what can be logged, and an entry adds to a score that is off what it adds to one
      that is not. */
  lemma ApplyDrifted(s: Setup, g: Game, e: Entry, drift: seq<int>)
    requires |drift| == |g.scores|
    ensures ValidEntry(s, Drifted(g, drift), e) <==> ValidEntry(s, g, e)
    ensures ValidEntry(s, g, e) ==> Apply(s, Drifted(g, drift), e) == Drifted(Apply(s, g, e), drift)
  {
    hide IsLegal, BoardOf, Place, RackTiles, Scored, OnBare, InBounds;
    var h := Drifted(g, drift);
    assert ValidEntry(s, h, e) <==> ValidEntry(s, g, e);
    if ValidEntry(s, g, e) {
      assert Apply(s, h, e).scores == Drifted(Apply(s, g, e), drift).scores;
    }
  }

  /** A move committed at another score than it is worth. */
  lemma CommittedDrift(s: Setup, g: Game, e: Entry, drift: seq<int>, score: int)
    requires |drift| == |g.scores| && ValidEntry(s, g, e) && e.MoveEntry?
    ensures ValidEntry(s, Drifted(g, drift), e)
    ensures var h, p := Drifted(g, drift), e.player;
            Apply(s, h, e).(scores := h.scores[p := h.scores[p] + score]) ==
            Drifted(Apply(s, g, e), drift[p := drift[p] + score - Scored(s, g.stones, e.mv)])
  {
    hide IsLegal, BoardOf, Place, RackTiles, Scored, OnBare, InBounds;
    ApplyDrifted(s, g, e, drift);
    var h, p := Drifted(g, drift), e.player;
    assert h.scores[p := h.scores[p] + score] ==
           Drifted(Apply(s, g, e), drift[p := drift[p] + score - Scored(s, g.stones, e.mv)]).scores;
  }

  /** The last assignment of first tiles in a log, or -1. */
  function LastAssign(log: seq<Entry>): (a: int)
    ensures -1 <= a < |log| && (0 <= a ==> log[a].AssignEntry?)
    ensures forall k :: a < k < |log| ==> !log[k].AssignEntry?
  {
    if log == [] then -1
    else if log[|log| - 1].AssignEntry? then |log| - 1
    else LastAssign(log[..|log| - 1])
  }

  lemma LastAssignIs(log: seq<Entry>, a: nat)
    requires a < |log| && log[a].AssignEntry? && forall k :: a < k < |log| ==> !log[k].AssignEntry?
    ensures LastAssign(log) == a
  {
  }

  lemma {:induction false} StonesStay(s: Setup, log: seq<Entry>, n: nat)
    requires Replay(s, log).Some? && n <= |log|
    ensures Replay(s, log[..n]).Some?
    ensures forall p :: p in Replay(s, log[..n]).value.stones ==> p in Replay(s, log).value.stones
    decreases |log|
  {
    hide ValidEntry, Place;
    if n == |log| {
      assert log[..n] == log;
    } else {
      var less, e := log[..|log| - 1], log[|log| - 1];
      StonesStay(s, less, n);
      assert less[..n] == log[..n];
      AddsStones(s, Replay(s, less).value, e);
    }
  }

  lemma AddsStones(s: Setup, g: Game, e: Entry)
    requires ValidEntry(s, g, e)
    ensures forall p :: p in g.stones ==> p in Apply(s, g, e).stones
    ensures e.MoveEntry? ==> forall k :: 0 <= k < |e.mv.tiles| ==>
              var p := PosAt(e.mv.horizontal, e.mv.tiles[k].varCoord, e.mv.common); p !in g.stones && p in Apply(s, g, e).stones
  {
    hide IsLegal, BoardOf, Place, RackTiles, Scored;
    if e.MoveEntry? {
      forall p
        ensures p in g.stones ==> p in Apply(s, g, e).stones
      {
        PlaceAt(g.stones, e.player, e.mv.horizontal, e.mv.common, e.mv.tiles, p);
      }
      forall k | 0 <= k < |e.mv.tiles|
        ensures PosAt(e.mv.horizontal, e.mv.tiles[k].varCoord, e.mv.common) in Apply(s, g, e).stones
      {
        PlaceAt(g.stones, e.player, e.mv.horizontal, e.mv.common, e.mv.tiles,
                PosAt(e.mv.horizontal, e.mv.tiles[k].varCoord, e.mv.common));
      }
    }
  }

  /** A log and a beginning of it describe different games whenever tiles were laid in between. */
  lemma LaidInBetween(s: Setup, log: seq<Entry>, n: nat, k: nat)
    requires Replay(s, log).Some? && n <= k < |log| && log[k].MoveEntry? && log[k].mv.tiles != []
    ensures Replay(s, log[..n]) != Replay(s, log)
  {
    hide ValidEntry, Place, Scored, RackTiles;
    var e := log[k];
    StonesStay(s, log, k + 1);
    StonesStay(s, log, k);
    StonesStay(s, log[..k], n);
    assert log[..k][..n] == log[..n] && log[..k + 1][..k] == log[..k] && log[..k + 1][k] == e;
    AddsStones(s, Replay(s, log[..k]).value, e);
    var p := PosAt(e.mv.horizontal, e.mv.tiles[0].varCoord, e.mv.common);
    assert p !in Replay(s, log[..n]).value.stones && p in Replay(s, log).value.stones;
  }

  /** And the same game when there are only phonies in between. */
  lemma {:induction false} PhoniesInBetween(s: Setup, log: seq<Entry>, n: nat)
    requires Replay(s, log).Some? && n <= |log| && forall k :: n <= k < |log| ==> log[k].PhonyEntry?
    ensures Replay(s, log[..n]) == Replay(s, log)
    decreases |log|
  {
    if n == |log| {
      assert log[..n] == log;
    } else {
      var less := log[..|log| - 1];
      PhoniesInBetween(s, less, n);
      assert less[..n] == log[..n];
    }
  }

  /** How many committed tiles came out of the bag as `t`. */
  ghost function OnBoardCount(rules: Rules, stones: Stones, t: Tile): nat {
    |set p | p in stones && RackTile(rules, stones[p].tile, stones[p].blank) == t|
  }

  function InHands(hands: seq<multiset<Tile>>, t: Tile): nat {
    if hands == [] then 0 else InHands(hands[..|hands| - 1], t) + hands[|hands| - 1][t]
  }

  lemma {:induction false} HandChanged(hands: seq<multiset<Tile>>, i: nat, h: multiset<Tile>, t: Tile)
    requires i < |hands|
    ensures InHands(hands[i := h], t) + hands[i][t] == InHands(hands, t) + h[t]
    decreases |hands|
  {
    var last := |hands| - 1;
    if i < last {
      HandChanged(hands[..last], i, h, t);
      assert hands[i := h][..last] == hands[..last][i := h];
    } else {
      assert hands[i := h][..last] == hands[..last];
    }
  }

  lemma StoneAdded(rules: Rules, stones: Stones, p: Pos, stone: Stone, t: Tile)
    requires p !in stones
    ensures OnBoardCount(rules, stones[p := stone], t) ==
            OnBoardCount(rules, stones, t) + if RackTile(rules, stone.tile, stone.blank) == t then 1 else 0
  {
    var was := set q | q in stones && RackTile(rules, stones[q].tile, stones[q].blank) == t;
    var more := stones[p := stone];
    var now := set q | q in more && RackTile(rules, more[q].tile, more[q].blank) == t;
    if RackTile(rules, stone.tile, stone.blank) == t {
      assert now == was + {p};
    } else {
      assert now == was;
    }
  }

  lemma {:induction false} PlacedCount(rules: Rules, stones: Stones, owner: nat, mv: Move, k: nat, t: Tile)
    requires Ascending(mv.tiles) && OnBare(stones, mv) && k <= |mv.tiles|
    ensures OnBoardCount(rules, Place(stones, owner, mv.horizontal, mv.common, mv.tiles[..k]), t) ==
            OnBoardCount(rules, stones, t) + RackTiles(rules, mv.tiles[..k])[t]
    decreases k
  {
    hide OnBoardCount;
    if k > 0 {
      var ts, us := mv.tiles[..k], mv.tiles[..k - 1];
      assert ts[..|ts| - 1] == us;
      PlacedCount(rules, stones, owner, mv, k - 1, t);
      var q := PosAt(mv.horizontal, mv.tiles[k - 1].varCoord, mv.common);
      PlaceAt(stones, owner, mv.horizontal, mv.common, us, q);
      assert !Covers(us, mv.tiles[k - 1].varCoord);
      StoneAdded(rules, Place(stones, owner, mv.horizontal, mv.common, us), q,
                 Stone(mv.tiles[k - 1].tile, mv.tiles[k - 1].blank, owner), t);
    }
  }

  ghost function AllOf(s: Setup, g: Game, t: Tile): nat {
    g.pool[t] + InHands(g.hands, t) + OnBoardCount(s.rules, g.stones, t)
  }

  lemma ApplyConserves(s: Setup, g: Game, e: Entry, t: Tile)
    requires ValidEntry(s, g, e)
    ensures AllOf(s, Apply(s, g, e), t) == AllOf(s, g, t)
  {
    hide Place, RackTiles, IsLegal, OnBoardCount, InHands, Scored;
    var p := e.player;
    match e
    case AssignEntry(_, tiles) =>
      HandChanged(g.hands, p, g.hands[p] + multiset(tiles), t);
    case MoveEntry(_, mv, newTiles) =>
      HandChanged(g.hands, p, g.hands[p] - RackTiles(s.rules, mv.tiles) + multiset(newTiles), t);
      PlacedCount(s.rules, g.stones, p, mv, |mv.tiles|, t);
      assert mv.tiles[..|mv.tiles|] == mv.tiles;
    case TradeEntry(_, oldTiles, newTiles) =>
      HandChanged(g.hands, p, g.hands[p] - multiset(oldTiles) + multiset(newTiles), t);
    case PhonyEntry(_, _) =>
  }

  lemma {:induction false} NoHands(n: nat, t: Tile)
    ensures InHands(seq(n, _ => multiset{}), t) == 0
  {
    if n > 0 {
      NoHands(n - 1, t);
      var empty: multiset<Tile> := multiset{};
      assert seq(n, _ => empty)[..n - 1] == seq(n - 1, _ => empty);
    }
  }

  /** The letters of the set are always all there: in the pool, in the hands and on the board. */
  lemma {:induction false} Conserved(s: Setup, log: seq<Entry>, t: Tile)
    requires Replay(s, log).Some?
    ensures AllOf(s, Replay(s, log).value, t) == s.letters[t]
    decreases |log|
  {
    hide ValidEntry, Apply;
    if log == [] {
      NoHands(s.nPlayers, t);
      assert (set p | p in Start(s).stones && RackTile(s.rules, Start(s).stones[p].tile, Start(s).stones[p].blank) == t) == {};
    } else {
      var before := log[..|log| - 1];
      Conserved(s, before, t);
      ApplyConserves(s, Replay(s, before).value, log[|log| - 1], t);
    }
  }

  lemma {:induction false} OneHand(hands: seq<multiset<Tile>>, i: nat, t: Tile)
    requires i < |hands|
    ensures hands[i][t] <= InHands(hands, t)
    decreases |hands|
  {
    if i < |hands| - 1 {
      OneHand(hands[..|hands| - 1], i, t);
    }
  }

  /** Nothing is in the pool or in a hand that is not among the letters of the set. */
  lemma WithinLetters(s: Setup, log: seq<Entry>)
    requires Replay(s, log).Some?
    ensures Replay(s, log).value.pool <= s.letters
    ensures forall i :: 0 <= i < |Replay(s, log).value.hands| ==> Replay(s, log).value.hands[i] <= s.letters
  {
    hide Replay, OnBoardCount, InHands;
    var g := Replay(s, log).value;
    forall t
      ensures g.pool[t] <= s.letters[t]
    {
      Conserved(s, log, t);
    }
    forall i, t | 0 <= i < |g.hands|
      ensures g.hands[i][t] <= s.letters[t]
    {
      Conserved(s, log, t);
      OneHand(g.hands, i, t);
    }
  }
}
