/** What a player or the server can do to a game, as steps of its state, and what runs of such steps keep:
    whether the game on the board is still the one its log describes. */
module GameState {
  import opened Dawg
  import opened Score
  import opened Legality
  import opened GameLog
  import opened TurnState
  import opened Model

  /** What the players, or the server for them, ask of the model. */
  datatype Op =
    | Assign(turn: nat, tiles: seq<Tile>)
    | PutDown(turn: nat, col: nat, row: nat, slot: nat, face: Tile)
    | TakeBack(turn: nat, col: nat, row: nat, offset: int)
    | Shift(turn: nat, colCur: nat, rowCur: nat, colNew: nat, rowNew: nat)
    | Reset(turn: nat)
    | Redo(turn: nat)
    | Figure(turn: nat)
    | Commit(turn: nat, newTiles: seq<Tile>)
    | Trade(turn: nat, oldTiles: seq<Tile>, newTiles: seq<Tile>)
    | Reject
    | Undo(nMovesSought: nat, moveSought: int)

  datatype State = State(stones: Stones, players: seq<Player>, log: seq<Entry>)

  // The game and its log.

  ghost function PoolOf(s: Setup, log: seq<Entry>): multiset<Tile> {
    if Replay(s, log).Some? then Replay(s, log).value.pool else multiset{}
  }

  ghost function StonesOf(s: Setup, log: seq<Entry>): Stones {
    if Replay(s, log).Some? then Replay(s, log).value.stones else map[]
  }

  /** The stones on the board and what each player holds are what the log gives. */
  ghost predicate Good(s: Setup, st: State) {
    && |st.players| == s.nPlayers && (forall i :: 0 <= i < |st.players| ==> PlayerOk(s, st.players[i]))
    && Replay(s, st.log).Some? && |Replay(s, st.log).value.scores| == s.nPlayers
    && st.stones == Replay(s, st.log).value.stones && Hands(s.rules, st.players) == Replay(s, st.log).value.hands
  }

  /** And so are the scores: the live game is the one a replay of its log gives. */
  ghost predicate Agrees(s: Setup, st: State)
    requires Good(s, st)
  {
    Scores(st.players) == Replay(s, st.log).value.scores
  }

  /** By how much a player's score differs from what the log gives. */
  ghost function OffBy(s: Setup, st: State, i: nat): int
    requires Good(s, st) && i < s.nPlayers
  {
    st.players[i].score - Replay(s, st.log).value.scores[i]
  }

  lemma AgreesIff(s: Setup, st: State)
    requires Good(s, st)
    ensures Agrees(s, st) <==> forall i: nat :: i < s.nPlayers ==> OffBy(s, st, i) == 0
  {
    if forall i: nat :: i < s.nPlayers ==> OffBy(s, st, i) == 0 {
      forall i: nat | i < s.nPlayers
        ensures Scores(st.players)[i] == Replay(s, st.log).value.scores[i]
      {
        assert OffBy(s, st, i) == 0;
      }
    }
    if Agrees(s, st) {
      forall i: nat | i < s.nPlayers
        ensures OffBy(s, st, i) == 0
      {
        assert Scores(st.players)[i] == st.players[i].score;
      }
    }
  }

  // Scores kept.

  /** What a player's pending tiles are worth on these stones. */
  ghost function Worth(s: Setup, stones: Stones, pl: Player): int
    requires PlayerOk(s, pl)
  {
    PendingDistinct(s, pl);
    CurScore(s, stones, pl.pending)
  }

  /** The score a commit adds: the one kept, when it is marked valid. */
  ghost function Kept(s: Setup, stones: Stones, pl: Player): int
    requires PlayerOk(s, pl)
  {
    if pl.curMoveValid then pl.curMoveScore else Worth(s, stones, pl)
  }

  /** The score kept with the player, if it is marked valid, is that of the tiles pending. */
  ghost predicate Current(s: Setup, stones: Stones, pl: Player) {
    PlayerOk(s, pl) && (pl.curMoveValid ==> pl.curMoveScore == Worth(s, stones, pl))
  }

  ghost predicate AllCurrent(s: Setup, stones: Stones, players: seq<Player>) {
    forall i :: 0 <= i < |players| ==> Current(s, stones, players[i])
  }

  /** Nobody but those whose entries were popped has a score kept that the change of stones makes wrong. */
  ghost predicate KeepsWorth(s: Setup, players: seq<Player>, before: Stones, after: Stones, popped: set<nat>) {
    forall i :: 0 <= i < |players| && i !in popped ==>
      PlayerOk(s, players[i]) && (players[i].curMoveValid ==> Worth(s, before, players[i]) == Worth(s, after, players[i]))
  }

  // Steps.

  /** What the caller of an operation checks before it makes it. */
  ghost predicate Enabled(s: Setup, st: State, op: Op)
    requires Good(s, st)
  {
    match op
    case Assign(turn, tiles) => turn < s.nPlayers && multiset(tiles) <= PoolOf(s, st.log)
    case PutDown(turn, col, row, slot, face) =>
      && turn < s.nPlayers && col < s.size && row < s.size && slot < |st.players[turn].tray|
      && Pos(col, row) !in st.stones && Pos(col, row) !in Squares(st.players[turn].pending)
    case TakeBack(turn, col, row, offset) => turn < s.nPlayers && offset <= |st.players[turn].tray|
    case Shift(turn, colCur, rowCur, colNew, rowNew) =>
      && turn < s.nPlayers && colNew < s.size && rowNew < s.size && Pos(colNew, rowNew) !in st.stones
      && Pos(colCur, rowCur) in Squares(st.players[turn].pending)
      && Pos(colNew, rowNew) !in Squares(st.players[turn].pending)
      && Pos(colNew, rowNew) !in Squares(st.players[turn].undone)
    case Reset(turn) => turn < s.nPlayers
    case Redo(turn) => turn < s.nPlayers && |st.players[turn].undone| <= |st.players[turn].tray|
    case Figure(turn) => turn < s.nPlayers
    case Commit(turn, newTiles) =>
      && turn < s.nPlayers && multiset(newTiles) <= PoolOf(s, st.log) && 0 <= Worth(s, st.stones, st.players[turn])
    case Trade(turn, oldTiles, newTiles) =>
      && turn < s.nPlayers && |oldTiles| == |newTiles|
      && multiset(oldTiles) <= multiset(st.players[turn].tray) && multiset(newTiles) <= PoolOf(s, st.log)
    case Reject => st.log != [] && st.log[|st.log| - 1].MoveEntry?
    case Undo(nMovesSought, moveSought) =>
      && 0 < nMovesSought <= |st.log| && moveSought < |st.log| && s.nPlayers < |st.log|
      && LastAssign(st.log) < Model.Target(st.log, nMovesSought, moveSought)
  }

  lemma TargetInLog(s: Setup, st: State, op: Op)
    requires Good(s, st) && Enabled(s, st, op)
    ensures op.Reject? ==> 0 < |st.log|
    ensures op.Undo? ==> 0 <= Model.Target(st.log, op.nMovesSought, op.moveSought) < |st.log|
  {
    hide PlayerOk, Squares, Worth, Replay, Hands, LastAssign;
  }

  /** How much of the log is left once entries have been taken back, before a phony is logged. */
  ghost function Left(s: Setup, st: State, op: Op): nat
    requires Good(s, st) && Enabled(s, st, op)
  {
    TargetInLog(s, st, op);
    if op.Reject? then |st.log| - 1
    else if op.Undo? then Model.Target(st.log, op.nMovesSought, op.moveSought)
    else |st.log|
  }

  /** Nothing is new but one player's tray and one more entry in the log. */
  ghost predicate OnlyTray(a: State, b: State, turn: nat, e: Entry)
    requires turn < |a.players|
  {
    && b.stones == a.stones && b.log == a.log + [e] && |b.players| == |a.players|
    && b.players == a.players[turn := a.players[turn].(tray := b.players[turn].tray)]
  }

  /** What the operation makes of the state. */
  ghost predicate Effect(s: Setup, a: State, op: Op, b: State)
    requires Good(s, a) && Good(s, b) && Enabled(s, a, op)
  {
    match op
    case Assign(turn, tiles) =>
      && OnlyTray(a, b, turn, AssignEntry(turn, tiles))
      && multiset(b.players[turn].tray) == multiset(a.players[turn].tray) + multiset(tiles)
    case PutDown(turn, col, row, slot, face) =>
      var tile := a.players[turn].tray[slot];
      var blank := tile == s.rules.blank;
      var pt := PendingTile(col, row, if blank then face else tile, blank);
      b == a.(players := a.players[turn := Played(a.players[turn], slot, pt)])
    case TakeBack(turn, col, row, offset) =>
      b == a.(players := a.players[turn := TakenBack(s.rules, a.players[turn], Pos(col, row), offset)])
    case Shift(turn, colCur, rowCur, colNew, rowNew) =>
      var i := IndexAt(a.players[turn].pending, Pos(colCur, rowCur));
      i < |a.players[turn].pending| && b == a.(players := a.players[turn := Moved(a.players[turn], i, Pos(colNew, rowNew))])
    case Reset(turn) =>
      var was, now := a.players[turn], b.players[turn];
      && b == a.(players := a.players[turn := now])
      && now == Player(was.score, was.curMoveScore, was.curMoveValid && was.pending == [],
                       now.tray, [], Reversed(was.pending) + was.undone)
      && Hand(s.rules, now) == Hand(s.rules, was)
    case Redo(turn) =>
      FewPlaceable(a.stones, a.players[turn].undone);
      b == a.(players := a.players[turn := RedoAll(s.rules, a.stones, a.players[turn], a.players[turn].undone)])
    case Figure(turn) =>
      b == a.(players := a.players[turn := a.players[turn].(curMoveScore := Kept(s, a.stones, a.players[turn]), curMoveValid := true)])
    case Commit(turn, newTiles) =>
      && b.log == a.log + [MoveEntry(turn, MoveOf(a.players[turn].pending), newTiles)]
      && Committed(s, a.players, a.stones, b.players, b.stones, turn, newTiles, Kept(s, a.stones, a.players[turn]))
    case Trade(turn, oldTiles, newTiles) =>
      && OnlyTray(a, b, turn, TradeEntry(turn, oldTiles, newTiles))
      && b.players[turn].tray == InPlace(a.players[turn].tray, oldTiles, newTiles)
    case Reject =>
      var e := a.log[|a.log| - 1];
      && b.log == a.log[..|a.log| - 1] + [PhonyEntry(e.player, e.mv)]
      && Model.OnlyRested(a.players, b.players, {e.player})
      && forall i: nat :: i < s.nPlayers ==> OffBy(s, b, i) == OffBy(s, a, i)
    case Undo(_, _) =>
      && b.log == a.log[..Left(s, a, op)]
      && Model.OnlyRested(a.players, b.players, Model.Popped(a.log, |b.log|))
      && forall i: nat :: i < s.nPlayers ==> OffBy(s, b, i) == OffBy(s, a, i)
  }

  /** One step: the operation, or nothing when what its caller checks first does not hold. */
  ghost predicate Next(s: Setup, a: State, op: Op, b: State)
    requires Good(s, a) && Good(s, b)
  {
    if Enabled(s, a, op) then Effect(s, a, op, b) else b == a
  }

  /** What a step adds to a player's score beyond what it adds in the log. */
  ghost function Error(s: Setup, a: State, op: Op, i: nat): int
    requires Good(s, a)
  {
    if op.Commit? && op.turn == i && Enabled(s, a, op) then
      Kept(s, a.stones, a.players[i]) - Worth(s, a.stones, a.players[i])
    else 0
  }

  /** The players whose entries a step takes back. */
  ghost function PoppedBy(s: Setup, a: State, op: Op): set<nat>
    requires Good(s, a)
  {
    if Enabled(s, a, op) then Model.Popped(a.log, Left(s, a, op)) else {}
  }

  /** Nobody else has a valid score kept for tiles that are worth something else without the stones that the
      step takes off. */
  ghost predicate Clean(s: Setup, a: State, op: Op)
    requires Good(s, a)
  {
    Enabled(s, a, op) && (op.Reject? || op.Undo?) ==>
      KeepsWorth(s, a.players, a.stones, StonesOf(s, a.log[..Left(s, a, op)]), PoppedBy(s, a, op))
  }

  // What one step does to the scores.

  lemma {:induction false} FewPlaceable(stones: Stones, pts: seq<PendingTile>)
    ensures |Placeable(stones, pts)| <= |pts|
  {
    if pts != [] {
      FewPlaceable(stones, pts[..|pts| - 1]);
    }
  }

  /** A turn that may be committed is worth what its move scores in the log. */
  lemma WorthIsScored(s: Setup, stones: Stones, pl: Player)
    requires PlayerOk(s, pl) && 0 <= Worth(s, stones, pl)
    ensures OnBoard(s.size, MoveOf(pl.pending)) && Worth(s, stones, pl) == Scored(s, stones, MoveOf(pl.pending))
  {
    hide IsLegal, BoardOf, SortTiles;
    PendingDistinct(s, pl);
    if pl.pending != [] {
      MoveOfPending(s.size, pl.pending);
    } else {
      NothingPending(s, stones);
    }
  }

  lemma NothingPending(s: Setup, stones: Stones)
    ensures OnBoard(s.size, MoveOf([])) && Scored(s, stones, MoveOf([])) == 0
  {
    assert MoveTiles(false, []) == [] && SortTiles([]) == [];
  }

  /** Logging an entry adds its score, if it is a move, to its player's. */
  lemma LoggedScores(s: Setup, log: seq<Entry>, e: Entry)
    requires Replay(s, log + [e]).Some?
    ensures Replay(s, log).Some? && e.player < |Replay(s, log).value.scores| == |Replay(s, log + [e]).value.scores|
    ensures var was, now := Replay(s, log).value, Replay(s, log + [e]).value;
            if e.MoveEntry? then
              OnBoard(s.size, e.mv)
              && now.scores == was.scores[e.player := was.scores[e.player] + Scored(s, was.stones, e.mv)]
            else now.scores == was.scores && now.stones == was.stones
  {
    hide Apply, ValidEntry, Scored;
    assert (log + [e])[..|log + [e]| - 1] == log;
    AppliedScores(s, Replay(s, log).value, e);
  }

  lemma AppliedScores(s: Setup, g: Game, e: Entry)
    requires ValidEntry(s, g, e)
    ensures e.player < |g.scores| == |Apply(s, g, e).scores|
    ensures if e.MoveEntry? then
              OnBoard(s.size, e.mv)
              && Apply(s, g, e).scores == g.scores[e.player := g.scores[e.player] + Scored(s, g.stones, e.mv)]
            else Apply(s, g, e).scores == g.scores && Apply(s, g, e).stones == g.stones
  {
    hide Place, Scored, IsLegal, BoardOf, RackTiles, Ascending, OnBare;
  }

  lemma SameOff(s: Setup, a: State, b: State, i: nat)
    requires Good(s, a) && Good(s, b) && i < s.nPlayers && b.log == a.log && Scores(b.players) == Scores(a.players)
    ensures OffBy(s, b, i) == OffBy(s, a, i)
  {
    assert Scores(b.players)[i] == b.players[i].score && Scores(a.players)[i] == a.players[i].score;
  }

  lemma LoggedOff(s: Setup, a: State, op: Op, b: State, i: nat)
    requires Good(s, a) && Good(s, b) && i < s.nPlayers && Enabled(s, a, op) && Effect(s, a, op, b) && (op.Assign? || op.Trade?)
    ensures OffBy(s, b, i) == OffBy(s, a, i)
  {
    hide PlayerOk, Replay, Hands, InPlace, PoolOf;
    match op {
      case Assign(turn, tiles) => LoggedScores(s, a.log, AssignEntry(turn, tiles));
      case Trade(turn, oldTiles, newTiles) => LoggedScores(s, a.log, TradeEntry(turn, oldTiles, newTiles));
    }
  }

  lemma RestoredOff(s: Setup, a: State, op: Op, b: State, i: nat)
    requires Good(s, a) && Good(s, b) && i < s.nPlayers && Enabled(s, a, op) && Effect(s, a, op, b) && (op.Reject? || op.Undo?)
    ensures OffBy(s, b, i) == OffBy(s, a, i)
  {
    hide Good, Enabled, OffBy, Model.OnlyRested, Model.Popped;
  }

  lemma CommittedOff(s: Setup, a: State, b: State, turn: nat, newTiles: seq<Tile>, i: nat)
    requires Good(s, a) && Good(s, b) && i < s.nPlayers && Enabled(s, a, Commit(turn, newTiles))
    requires Effect(s, a, Commit(turn, newTiles), b)
    ensures OffBy(s, b, i) == OffBy(s, a, i) + Error(s, a, Commit(turn, newTiles), i)
  {
    hide PlayerOk, Replay, Hands, MoveOf, Worth, Committed;
    LoggedScores(s, a.log, MoveEntry(turn, MoveOf(a.players[turn].pending), newTiles));
    WorthIsScored(s, a.stones, a.players[turn]);
    CommittedScore(s, a.players, a.stones, b.players, b.stones, turn, newTiles, Kept(s, a.stones, a.players[turn]), i);
  }

  /** Operations that stay with one player's tiles leave log and scores alone. */
  lemma ScoresStay(s: Setup, a: State, op: Op, b: State)
    requires Good(s, a) && Good(s, b) && Enabled(s, a, op) && Effect(s, a, op, b)
    requires op.PutDown? || op.TakeBack? || op.Shift? || op.Reset? || op.Redo? || op.Figure?
    ensures b.log == a.log && Scores(b.players) == Scores(a.players)
  {
    hide PlayerOk, Squares, Worth, Replay, Hands, IndexAt, Placeable, RedoAll, Kept, Reversed, TakenBack, Hand;
    match op {
      case TakeBack(turn, col, row, offset) => ScoreKept(s.rules, a.players[turn], Pos(col, row), offset);
      case Redo(turn) =>
        FewPlaceable(a.stones, a.players[turn].undone);
        RedoneSquares(s.rules, a.stones, a.players[turn], a.players[turn].undone);
      case PutDown(turn, _, _, _, _) =>
      case Shift(turn, _, _, _, _) =>
      case Reset(turn) =>
      case Figure(turn) =>
    }
  }

  /** A step puts a player's score off by its error and by nothing else. */
  lemma StepOff(s: Setup, a: State, op: Op, b: State, i: nat)
    requires Good(s, a) && Good(s, b) && Next(s, a, op, b) && i < s.nPlayers
    ensures OffBy(s, b, i) == OffBy(s, a, i) + Error(s, a, op, i)
  {
    hide Good, Enabled, Effect, Worth, Kept, OffBy;
    if Enabled(s, a, op) {
      if op.Assign? || op.Trade? {
        LoggedOff(s, a, op, b, i);
      } else if op.Commit? {
        CommittedOff(s, a, b, op.turn, op.newTiles, i);
      } else if op.Reject? || op.Undo? {
        RestoredOff(s, a, op, b, i);
      } else {
        ScoresStay(s, a, op, b);
        SameOff(s, a, b, i);
      }
    }
  }

  lemma CommittedScore(s: Setup, was: seq<Player>, before: Stones, now: seq<Player>, after: Stones,
                       turn: nat, newTiles: seq<Tile>, score: int, i: nat)
    requires Committed(s, was, before, now, after, turn, newTiles, score) && i < |was|
    ensures now[i].score == was[i].score + if i == turn then score else 0
  {
    hide PutStones, Hands;
    assert Scores(now)[i] == now[i].score && Scores(was)[i] == was[i].score;
  }

  /** What a player's moves in the log scored, each on the board it was laid on. */
  ghost function Earned(s: Setup, log: seq<Entry>, i: nat): int {
    if log == [] then 0
    else
      var before, e := log[..|log| - 1], log[|log| - 1];
      Earned(s, before, i)
      + if e.MoveEntry? && e.player == i && OnBoard(s.size, e.mv) then
          MoveScore(s.rules, BoardOf(s.size, StonesOf(s, before)), e.mv)
        else 0
  }

  /** A player's score, as a log gives it, is what his moves in it scored. */
  lemma {:induction false} ScoresAddUp(s: Setup, log: seq<Entry>, i: nat)
    requires Replay(s, log).Some? && i < s.nPlayers
    ensures i < |Replay(s, log).value.scores| && Replay(s, log).value.scores[i] == Earned(s, log, i)
    decreases |log|
  {
    hide Apply, ValidEntry, MoveScore, BoardOf;
    if log != [] {
      var before, e := log[..|log| - 1], log[|log| - 1];
      assert log == before + [e];
      LoggedScores(s, before, e);
      ScoresAddUp(s, before, i);
    }
  }

  // What one step does to the scores kept.

  lemma StaysCurrent(s: Setup, stones: Stones, was: seq<Player>, now: seq<Player>, turn: nat)
    requires turn < |was| == |now| && now == was[turn := now[turn]] && PlayerOk(s, now[turn])
    requires now[turn].curMoveValid ==> now[turn].pending == was[turn].pending && was[turn].curMoveValid
                                        && now[turn].curMoveScore == was[turn].curMoveScore
    ensures AllCurrent(s, stones, was) ==> AllCurrent(s, stones, now)
  {
    hide PlayerOk, CurScore;
    if AllCurrent(s, stones, was) {
      assert Current(s, stones, was[turn]);
      forall i | 0 <= i < |now|
        ensures Current(s, stones, now[i])
      {
        assert Current(s, stones, was[i]);
      }
    }
  }

  lemma FiguredCurrent(s: Setup, stones: Stones, was: seq<Player>, turn: nat)
    requires turn < |was| && AllCurrent(s, stones, was) && PlayerOk(s, was[turn])
    ensures AllCurrent(s, stones, was[turn := was[turn].(curMoveScore := Kept(s, stones, was[turn]), curMoveValid := true)])
  {
    hide CurScore;
    assert Current(s, stones, was[turn]);
  }

  /** Once a turn is committed no score is marked valid. */
  lemma CommittedCurrent(s: Setup, was: seq<Player>, before: Stones, now: seq<Player>, after: Stones,
                         turn: nat, newTiles: seq<Tile>, score: int)
    requires Committed(s, was, before, now, after, turn, newTiles, score)
    requires forall i :: 0 <= i < |now| ==> PlayerOk(s, now[i])
    ensures AllCurrent(s, after, now) && AllKeep(s.rules, was, now)
  {
    hide PlayerOk, PutStones, Hands, HasUndone;
  }

  /** After taking entries back, scores kept still are right exactly when they are worth what they were. */
  lemma RestedCurrent(s: Setup, was: seq<Player>, now: seq<Player>, before: Stones, after: Stones, popped: set<nat>)
    requires Model.OnlyRested(was, now, popped) && AllCurrent(s, before, was)
    requires forall i :: 0 <= i < |now| ==> PlayerOk(s, now[i])
    ensures AllCurrent(s, after, now) <==> KeepsWorth(s, was, before, after, popped)
  {
    hide PlayerOk, CurScore;
    forall i | 0 <= i < |now|
      ensures Current(s, before, was[i])
      ensures i in popped ==> Current(s, after, now[i])
    {
      if i in popped {
        RestedIsCurrent(s, before, after, was[i], now[i]);
      }
    }
    if AllCurrent(s, after, now) {
      forall i | 0 <= i < |was| && i !in popped
        ensures was[i].curMoveValid ==> Worth(s, before, was[i]) == Worth(s, after, was[i])
      {
        assert Current(s, after, now[i]);
      }
    }
  }

  lemma RestedIsCurrent(s: Setup, before: Stones, after: Stones, was: Player, now: Player)
    requires Current(s, before, was) && PlayerOk(s, now) && Model.Rested(was, now)
    ensures Current(s, after, now)
  {
  }

  lemma LastPopped(log: seq<Entry>)
    requires log != []
    ensures Model.Popped(log, |log| - 1) == {log[|log| - 1].player}
  {
  }

  /** Operations on one player's tiles leave right scores right. */
  lemma TilesCurrent(s: Setup, a: State, op: Op, b: State)
    requires Good(s, a) && Good(s, b) && Enabled(s, a, op) && Effect(s, a, op, b) && AllCurrent(s, a.stones, a.players)
    requires !op.Commit? && !op.Reject? && !op.Undo?
    ensures AllCurrent(s, b.stones, b.players)
  {
    hide PlayerOk, Squares, Worth, Replay, Hands, IndexAt, InPlace, Placeable, RedoAll, AllCurrent, PoolOf;
    match op {
      case Assign(turn, tiles) => StaysCurrent(s, a.stones, a.players, b.players, turn);
      case PutDown(turn, _, _, _, _) => StaysCurrent(s, a.stones, a.players, b.players, turn);
      case TakeBack(turn, _, _, _) => StaysCurrent(s, a.stones, a.players, b.players, turn);
      case Shift(turn, _, _, _, _) => StaysCurrent(s, a.stones, a.players, b.players, turn);
      case Reset(turn) => StaysCurrent(s, a.stones, a.players, b.players, turn);
      case Redo(turn) =>
        FewPlaceable(a.stones, a.players[turn].undone);
        RedoneSquares(s.rules, a.stones, a.players[turn], a.players[turn].undone);
        StaysCurrent(s, a.stones, a.players, b.players, turn);
      case Figure(turn) => FiguredCurrent(s, a.stones, a.players, turn);
      case Trade(turn, _, _) => StaysCurrent(s, a.stones, a.players, b.players, turn);
    }
  }

  /** Taking entries back does so if and only if it is clean. */
  lemma BackCurrent(s: Setup, a: State, op: Op, b: State)
    requires Good(s, a) && Good(s, b) && Enabled(s, a, op) && Effect(s, a, op, b) && AllCurrent(s, a.stones, a.players)
    requires op.Reject? || op.Undo?
    ensures AllCurrent(s, b.stones, b.players) <==> Clean(s, a, op)
  {
    hide PlayerOk, Replay, Hands, AllCurrent, KeepsWorth, Model.OnlyRested, Model.Popped, LastAssign, OffBy;
    if op.Reject? {
      var e := a.log[|a.log| - 1];
      LastPopped(a.log);
      LoggedScores(s, a.log[..|a.log| - 1], PhonyEntry(e.player, e.mv));
      RestedCurrent(s, a.players, b.players, a.stones, b.stones, {e.player});
    } else {
      RestedCurrent(s, a.players, b.players, a.stones, b.stones, Model.Popped(a.log, |b.log|));
    }
  }

  /** Where every score kept was right, a step leaves them right if and only if it is clean. */
  lemma StepCurrent(s: Setup, a: State, op: Op, b: State)
    requires Good(s, a) && Good(s, b) && Next(s, a, op, b) && AllCurrent(s, a.stones, a.players)
    ensures AllCurrent(s, b.stones, b.players) <==> Clean(s, a, op)
    ensures forall i: nat :: Error(s, a, op, i) == 0
  {
    hide Good, Enabled, AllCurrent, KeepsWorth, Error;
    NoError(s, a, op);
    if Enabled(s, a, op) {
      if op.Commit? {
        CommitCurrent(s, a, op, b);
      } else if op.Reject? || op.Undo? {
        BackCurrent(s, a, op, b);
      } else {
        TilesCurrent(s, a, op, b);
      }
    }
  }

  lemma CommitCurrent(s: Setup, a: State, op: Op, b: State)
    requires Good(s, a) && Good(s, b) && Enabled(s, a, op) && Effect(s, a, op, b) && op.Commit?
    ensures AllCurrent(s, b.stones, b.players) && AllKeep(s.rules, a.players, b.players)
  {
    hide PlayerOk, Replay, Hands, AllCurrent, Committed, Worth, MoveOf, PoolOf, AllKeep;
    CommittedCurrent(s, a.players, a.stones, b.players, b.stones, op.turn, op.newTiles, Kept(s, a.stones, a.players[op.turn]));
  }

  lemma NoError(s: Setup, a: State, op: Op)
    requires Good(s, a) && AllCurrent(s, a.stones, a.players)
    ensures forall i: nat :: Error(s, a, op, i) == 0
  {
    hide PlayerOk, Worth, Enabled;
    forall i: nat
      ensures Error(s, a, op, i) == 0
    {
      if op.Commit? && op.turn == i && Enabled(s, a, op) {
        CommitterIsPlayer(s, a, op);
        assert Current(s, a.stones, a.players[i]);
      }
    }
  }

  lemma CommitterIsPlayer(s: Setup, a: State, op: Op)
    requires Good(s, a) && op.Commit? && Enabled(s, a, op)
    ensures op.turn < |a.players|
  {
  }

  // What one step does to the tiles taken back.

  /** Only trades and undoing can take from a tray a tile that was taken back to it. */
  predicate KeepsUndone(op: Op) {
    !op.Trade? && !op.Reject? && !op.Undo?
  }

  lemma OneKeeps(rules: Rules, was: seq<Player>, now: seq<Player>, turn: nat)
    requires turn < |was| == |now| && now == was[turn := now[turn]]
    requires HasUndone(rules, was[turn]) ==> HasUndone(rules, now[turn])
    ensures AllKeep(rules, was, now)
  {
  }

  lemma NothingUndone(rules: Rules, pl: Player)
    ensures pl.undone == [] ==> HasUndone(rules, pl)
  {
  }

  lemma MoreInTray(rules: Rules, was: Player, now: Player)
    requires now == was.(tray := now.tray) && multiset(was.tray) <= multiset(now.tray)
    ensures HasUndone(rules, was) ==> HasUndone(rules, now)
  {
  }

  lemma SameUndone(rules: Rules, was: Player, now: Player)
    requires now.tray == was.tray && now.undone == was.undone
    ensures HasUndone(rules, was) ==> HasUndone(rules, now)
  {
  }

  lemma StepKeeps(s: Setup, a: State, op: Op, b: State)
    requires Good(s, a) && Good(s, b) && Next(s, a, op, b) && KeepsUndone(op)
    ensures AllKeep(s.rules, a.players, b.players)
  {
    hide PlayerOk, Squares, Worth, Replay, Hands, Scores, MoveOf, CurScore, IndexAt, Placeable, RedoAll, AllKeep, HasUndone,
      TakenBack, Reversed, OffBy, Committed, InPlace, Hand;
    if !Enabled(s, a, op) {
      KeepSame(s.rules, a.players);
    } else {
      match op {
        case Assign(turn, tiles) =>
          MoreInTray(s.rules, a.players[turn], b.players[turn]);
          OneKeeps(s.rules, a.players, b.players, turn);
        case PutDown(turn, _, _, _, _) =>
          NothingUndone(s.rules, b.players[turn]);
          OneKeeps(s.rules, a.players, b.players, turn);
        case TakeBack(turn, col, row, offset) =>
          if HasUndone(s.rules, a.players[turn]) {
            TakenBackHas(s.rules, a.players[turn], Pos(col, row), offset);
          }
          OneKeeps(s.rules, a.players, b.players, turn);
        case Shift(turn, _, _, _, _) =>
          SameUndone(s.rules, a.players[turn], b.players[turn]);
          OneKeeps(s.rules, a.players, b.players, turn);
        case Reset(turn) =>
          ResetHas(s.rules, a.players[turn], b.players[turn]);
          OneKeeps(s.rules, a.players, b.players, turn);
        case Redo(turn) =>
          FewPlaceable(a.stones, a.players[turn].undone);
          if HasUndone(s.rules, a.players[turn]) {
            RedoneHas(s.rules, a.stones, a.players[turn], a.players[turn].undone);
          }
          OneKeeps(s.rules, a.players, b.players, turn);
        case Figure(turn) =>
          SameUndone(s.rules, a.players[turn], b.players[turn]);
          OneKeeps(s.rules, a.players, b.players, turn);
        case Commit(turn, newTiles) =>
          CommittedCurrent(s, a.players, a.stones, b.players, b.stones, turn, newTiles, Kept(s, a.stones, a.players[turn]));
      }
    }
  }

  // Runs.

  ghost predicate AllGood(s: Setup, trace: seq<State>) {
    forall k :: 0 <= k < |trace| ==> Good(s, trace[k])
  }

  /** The states a run of operations goes through, from the first to the last. */
  ghost predicate IsRun(s: Setup, ops: seq<Op>, trace: seq<State>) {
    && |trace| == |ops| + 1 && AllGood(s, trace)
    && forall k {:trigger ops[k]} :: 0 <= k < |ops| ==> Next(s, trace[k], ops[k], trace[k + 1])
  }

  /** What a player's commits in the run were wrong by, in all. */
  ghost function ErrorSum(s: Setup, ops: seq<Op>, trace: seq<State>, i: nat): int
    requires |trace| == |ops| + 1 && AllGood(s, trace)
  {
    if ops == [] then 0
    else
      var n := |ops| - 1;
      ErrorSum(s, ops[..n], trace[..n + 1], i) + Error(s, trace[n], ops[n], i)
  }

  lemma RunPrefix(s: Setup, ops: seq<Op>, trace: seq<State>)
    requires IsRun(s, ops, trace) && ops != []
    ensures var n := |ops| - 1;
            IsRun(s, ops[..n], trace[..n + 1]) && Next(s, trace[n], ops[n], trace[n + 1])
  {
    hide Good, Next;
    var n := |ops| - 1;
    assert Next(s, trace[n], ops[n], trace[n + 1]);
    forall k | 0 <= k < n
      ensures Next(s, trace[..n + 1][k], ops[..n][k], trace[..n + 1][k + 1])
    {
      assert Next(s, trace[k], ops[k], trace[k + 1]);
    }
  }

  /** Over a run a score goes off by the errors of its player's commits. */
  lemma {:induction false} RunOff(s: Setup, ops: seq<Op>, trace: seq<State>, i: nat)
    requires IsRun(s, ops, trace) && i < s.nPlayers
    ensures OffBy(s, trace[|ops|], i) == OffBy(s, trace[0], i) + ErrorSum(s, ops, trace, i)
    decreases |ops|
  {
    hide Good, Next, OffBy, Error;
    if ops != [] {
      var n := |ops| - 1;
      RunPrefix(s, ops, trace);
      RunOff(s, ops[..n], trace[..n + 1], i);
      StepOff(s, trace[n], ops[n], trace[n + 1], i);
    }
  }

  /** For each player, what his commits added beyond what his turns were worth comes to nothing. */
  ghost predicate ErrorsCancel(s: Setup, ops: seq<Op>, trace: seq<State>)
    requires |trace| == |ops| + 1 && AllGood(s, trace)
  {
    forall i: nat :: i < s.nPlayers ==> ErrorSum(s, ops, trace, i) == 0
  }

  /** From a game that agreed with its log, the game at the end agrees with its log if and only if, for each
      player, what his commits added beyond what his turns were worth when he committed them comes to nothing. */
  lemma RunAgreesIff(s: Setup, ops: seq<Op>, trace: seq<State>)
    requires IsRun(s, ops, trace) && Agrees(s, trace[0])
    ensures Agrees(s, trace[|ops|]) <==> ErrorsCancel(s, ops, trace)
  {
    hide Good, OffBy, Error, ErrorSum, Agrees, Next;
    AgreesIff(s, trace[0]);
    AgreesIff(s, trace[|ops|]);
    forall i: nat | i < s.nPlayers
      ensures OffBy(s, trace[|ops|], i) == ErrorSum(s, ops, trace, i)
    {
      RunOff(s, ops, trace, i);
      assert OffBy(s, trace[0], i) == 0;
    }
  }

  ghost predicate AllClean(s: Setup, ops: seq<Op>, trace: seq<State>)
    requires |trace| == |ops| + 1 && AllGood(s, trace)
  {
    forall k {:trigger ops[k]} :: 0 <= k < |ops| ==> Clean(s, trace[k], ops[k])
  }

  ghost predicate AlwaysCurrent(s: Setup, trace: seq<State>) {
    forall k :: 0 <= k < |trace| ==> AllCurrent(s, trace[k].stones, trace[k].players)
  }

  /** Every score kept is right throughout a run if and only if it is at first and every step is clean. */
  lemma {:induction false} RunCurrentIff(s: Setup, ops: seq<Op>, trace: seq<State>)
    requires IsRun(s, ops, trace)
    ensures AlwaysCurrent(s, trace) <==> AllCurrent(s, trace[0].stones, trace[0].players) && AllClean(s, ops, trace)
    decreases |ops|
  {
    hide Good, Next, Clean, AllCurrent;
    if ops != [] {
      var n := |ops| - 1;
      RunPrefix(s, ops, trace);
      RunCurrentIff(s, ops[..n], trace[..n + 1]);
      CurrentPrefix(s, ops, trace);
      if AllCurrent(s, trace[n].stones, trace[n].players) {
        StepCurrent(s, trace[n], ops[n], trace[n + 1]);
      }
    }
  }

  lemma CurrentPrefix(s: Setup, ops: seq<Op>, trace: seq<State>)
    requires |trace| == |ops| + 1 && AllGood(s, trace) && ops != []
    ensures var n := |ops| - 1;
            && AllGood(s, trace[..n + 1])
            && (AlwaysCurrent(s, trace) <==>
                AlwaysCurrent(s, trace[..n + 1]) && AllCurrent(s, trace[n + 1].stones, trace[n + 1].players))
            && (AllClean(s, ops, trace) <==> AllClean(s, ops[..n], trace[..n + 1]) && Clean(s, trace[n], ops[n]))
            && (AlwaysCurrent(s, trace[..n + 1]) ==> AllCurrent(s, trace[n].stones, trace[n].players))
  {
    hide Good, Clean, AllCurrent;
    var n := |ops| - 1;
    assert trace[..n + 1][n] == trace[n];
    assert forall k :: 0 <= k < n ==> ops[..n][k] == ops[k] && trace[..n + 1][k] == trace[k];
    if AllClean(s, ops[..n], trace[..n + 1]) && Clean(s, trace[n], ops[n]) {
      forall k | 0 <= k < |ops|
        ensures Clean(s, trace[k], ops[k])
      {
        assert k < n ==> ops[..n][k] == ops[k];
      }
    }
    if AllClean(s, ops, trace) {
      assert Clean(s, trace[n], ops[n]);
      forall k | 0 <= k < n
        ensures Clean(s, trace[..n + 1][k], ops[..n][k])
      {
        assert Clean(s, trace[k], ops[k]);
      }
    }
  }

  /** From right scores, a run in which no undoing takes stones off under another player's kept score commits
      every turn at what it is worth, and game and log agree at its end. */
  lemma CleanRunAgrees(s: Setup, ops: seq<Op>, trace: seq<State>)
    requires IsRun(s, ops, trace) && Agrees(s, trace[0])
    requires AllCurrent(s, trace[0].stones, trace[0].players) && AllClean(s, ops, trace)
    ensures AlwaysCurrent(s, trace) && Agrees(s, trace[|ops|])
    ensures forall k, i: nat :: 0 <= k < |ops| ==> Error(s, trace[k], ops[k], i) == 0
  {
    hide Good, Next, Clean, AllCurrent, Error, Agrees;
    RunCurrentIff(s, ops, trace);
    forall k, i: nat | 0 <= k < |ops|
      ensures Error(s, trace[k], ops[k], i) == 0
    {
      assert AllCurrent(s, trace[k].stones, trace[k].players);
      NoError(s, trace[k], ops[k]);
    }
    forall i: nat | i < s.nPlayers
      ensures ErrorSum(s, ops, trace, i) == 0
    {
      NothingWrong(s, ops, trace, i);
    }
    RunAgreesIff(s, ops, trace);
  }

  lemma {:induction false} NothingWrong(s: Setup, ops: seq<Op>, trace: seq<State>, i: nat)
    requires |trace| == |ops| + 1 && AllGood(s, trace)
    requires forall k :: 0 <= k < |ops| ==> Error(s, trace[k], ops[k], i) == 0
    ensures ErrorSum(s, ops, trace, i) == 0
    decreases |ops|
  {
    hide Good, Error;
    if ops != [] {
      var n := |ops| - 1;
      forall k | 0 <= k < n
        ensures Error(s, trace[..n + 1][k], ops[..n][k], i) == 0
      {
        assert Error(s, trace[k], ops[k], i) == 0;
      }
      NothingWrong(s, ops[..n], trace[..n + 1], i);
    }
  }

  /** Without trades and undoing, a tile taken back stays in its owner's tray to be put down again. */
  lemma {:induction false} RunKeepsUndone(s: Setup, ops: seq<Op>, trace: seq<State>)
    requires IsRun(s, ops, trace) && forall k :: 0 <= k < |ops| ==> KeepsUndone(ops[k])
    ensures AllKeep(s.rules, trace[0].players, trace[|ops|].players)
    decreases |ops|
  {
    hide Good, Next, AllKeep, KeepsUndone;
    if ops == [] {
      KeepSame(s.rules, trace[0].players);
    } else {
      var n := |ops| - 1;
      RunPrefix(s, ops, trace);
      assert forall k :: 0 <= k < n ==> ops[..n][k] == ops[k];
      RunKeepsUndone(s, ops[..n], trace[..n + 1]);
      StepKeeps(s, trace[n], ops[n], trace[n + 1]);
      KeepTwice(s.rules, trace[0].players, trace[n].players, trace[n + 1].players);
    }
  }

  // No tile is lost.

  function InTrays(players: seq<Player>, t: Tile): nat {
    if players == [] then 0 else InTrays(players[..|players| - 1], t) + multiset(players[|players| - 1].tray)[t]
  }

  function InPending(rules: Rules, players: seq<Player>, t: Tile): nat {
    if players == [] then 0
    else InPending(rules, players[..|players| - 1], t) + PendingTiles(rules, players[|players| - 1].pending)[t]
  }

  /** How many of a letter a game has: in the pool, in the trays, pending and on the board. */
  ghost function InLive(rules: Rules, pool: multiset<Tile>, st: State, t: Tile): int {
    pool[t] + InTrays(st.players, t) + InPending(rules, st.players, t) + OnBoardCount(rules, st.stones, t)
  }

  lemma {:induction false} HandsAreParts(rules: Rules, players: seq<Player>, t: Tile)
    ensures InHands(Hands(rules, players), t) == InTrays(players, t) + InPending(rules, players, t)
    decreases |players|
  {
    hide PendingTiles;
    if players != [] {
      var n := |players| - 1;
      HandsAreParts(rules, players[..n], t);
      assert Hands(rules, players)[..n] == Hands(rules, players[..n]);
      assert Hands(rules, players)[n] == Hand(rules, players[n]);
    }
  }

  /** For every letter: what the log leaves in the pool, the trays, the tiles pending and the stones on the board
      are together what the set had. */
  lemma LiveConserved(s: Setup, st: State, t: Tile)
    requires Good(s, st)
    ensures InLive(s.rules, PoolOf(s, st.log), st, t) == s.letters[t]
  {
    hide Replay, InHands, InTrays, InPending, OnBoardCount, PlayerOk;
    Conserved(s, st.log, t);
    HandsAreParts(s.rules, st.players, t);
  }
}
