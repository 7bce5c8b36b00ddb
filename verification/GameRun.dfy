/** Whole runs of operations on a live game, as the steps they are of its state. */
module GameRun {
  import opened Dawg
  import opened Score
  import opened Legality
  import opened GameLog
  import opened TurnState
  import opened Model
  import opened GameState
  import Pool

  ghost function StateOf(m: Model): State
    reads m
  {
    State(m.stones, m.players, m.log)
  }

  /** A model that tracks its log is in a state whose board and hands are what the log gives. */
  lemma TracksIsGood(m: Model)
    requires m.Valid() && m.Tracks()
    ensures Good(m.setup, StateOf(m)) && PoolOf(m.setup, m.log) == m.LogPool() && |m.drift| == m.setup.nPlayers
    ensures forall i: nat :: i < m.setup.nPlayers ==> OffBy(m.setup, StateOf(m), i) == m.drift[i]
    ensures Agrees(m.setup, StateOf(m)) <==> m.Faithful()
  {
    hide Model.CellsOk, PlayerOk, Replay, Hands;
    var r := Replay(m.setup, m.log).value;
    assert Drifted(r, m.drift).stones == r.stones && Drifted(r, m.drift).hands == r.hands;
    forall i: nat | i < m.setup.nPlayers
      ensures OffBy(m.setup, StateOf(m), i) == m.drift[i]
    {
      assert m.Now(m.LogPool()).scores[i] == m.players[i].score;
    }
  }

  /** What is in the pool is what the log leaves there. */
  lemma InPoolIff(m: Model, pool: Pool.Pool, tiles: seq<Tile>)
    requires m.Tracks() && m.InStep(pool)
    ensures multiset(tiles) <= PoolOf(m.setup, m.log) <==>
            Pool.Letters(pool.lettersLeft.Length, tiles) && Pool.RemovalSafe(pool.lettersLeft[..], tiles)
  {
    hide Replay, Pool.Bag, Pool.RemovalSafe;
    if multiset(tiles) <= PoolOf(m.setup, m.log) {
      m.LettersHave(pool, m.log, tiles);
    }
    if Pool.Letters(pool.lettersLeft.Length, tiles) {
      Pool.SafeIffContained(pool.lettersLeft[..], tiles);
    }
  }

  /** Tiles in a tray are letters of the set. */
  lemma TrayLetters(m: Model, pool: Pool.Pool, turn: nat, tiles: seq<Tile>)
    requires m.Tracks() && m.InStep(pool) && turn < |m.players| && multiset(tiles) <= multiset(m.players[turn].tray)
    ensures Pool.Letters(pool.lettersLeft.Length, tiles)
  {
    hide Replay, Pool.Bag, PendingTiles;
    var g := Replay(m.setup, m.log).value;
    assert Drifted(g, m.drift).hands == g.hands;
    m.HandAt(turn);
    assert multiset(tiles) <= g.hands[turn];
    m.LettersHave(pool, m.log, tiles);
  }

  method DoAssign(model: Model, pool: Pool.Pool, turn: nat, tiles: seq<Tile>)
    requires model.Valid() && model.Tracks() && model.InStep(pool)
    requires Good(model.setup, StateOf(model))
    modifies model`players, model`log, pool, pool.lettersLeft
    ensures model.Valid() && model.Tracks() && model.InStep(pool)
    ensures Good(model.setup, StateOf(model)) && Next(model.setup, old(StateOf(model)), Assign(turn, tiles), StateOf(model))
  {
    hide Model.Valid, Model.Tracks, Model.InStep, Replay, PlayerOk, Hands, Pool.RemovalSafe, PoolOf;
    model.PlayersCount();
    InPoolIff(model, pool, tiles);
    if turn < |model.players| && Letters(pool, tiles) {
      var there := pool.ContainsTiles(tiles);
      if there {
        AssignTiles(model, pool, turn, tiles);
      }
    }
    TracksIsGood(model);
  }

  predicate Letters(pool: Pool.Pool, tiles: seq<Tile>) {
    Pool.Letters(pool.lettersLeft.Length, tiles)
  }

  method DoPutDown(model: Model, turn: nat, col: nat, row: nat, slot: nat, face: Tile)
    requires model.Valid() && model.Tracks() && Good(model.setup, StateOf(model))
    modifies model`players, model.tiles
    ensures model.Valid() && model.Tracks()
    ensures Good(model.setup, StateOf(model))
    ensures Next(model.setup, old(StateOf(model)), PutDown(turn, col, row, slot, face), StateOf(model))
  {
    hide Model.CellsOk, Hands, Scores, AllPending, PlayerOk, PlayerIn, Replay, Drifted;
    if turn < |model.players| && col < model.setup.size && row < model.setup.size && slot < |model.players[turn].tray|
       && Pos(col, row) !in Squares(model.players[turn].pending) {
      model.CellAt(col, row, AllPending(model.players));
      if !model.tiles[row, col].Placed? {
        model.OkIsIn();
        model.MoveTrayToBoard(turn, col, row, slot, face);
      }
    }
    TracksIsGood(model);
  }

  method DoTakeBack(model: Model, turn: nat, col: nat, row: nat, offset: int)
    requires model.Valid() && model.Tracks() && Good(model.setup, StateOf(model))
    modifies model`players, model.tiles
    ensures model.Valid() && model.Tracks()
    ensures Good(model.setup, StateOf(model))
    ensures Next(model.setup, old(StateOf(model)), TakeBack(turn, col, row, offset), StateOf(model))
  {
    hide Model.CellsOk, Hands, Scores, AllPending, PlayerOk, PlayerIn, Replay, Drifted, TakenBack, CameBack;
    if turn < |model.players| && offset <= |model.players[turn].tray| {
      model.OkIsIn();
      NothingHidden(AllPending(model.players));
      model.MoveBoardToTray(turn, col, row, offset, multiset{});
      NothingHidden(AllPending(model.players));
    }
    TracksIsGood(model);
  }

  /** The one pending tile on a square. */
  lemma OnlyOneThere(pl: Player, i: nat, p: Pos)
    requires DistinctSquares(pl.pending + pl.undone) && i < |pl.pending| && PosOf(pl.pending[i]) == p
    ensures IndexAt(pl.pending, p) == i
  {
    var ps := pl.pending + pl.undone;
    forall k | 0 <= k < |pl.pending| && k != i
      ensures PosOf(pl.pending[k]) != p
    {
      assert ps[k] == pl.pending[k] && ps[i] == pl.pending[i];
    }
  }

  /** The tile on one square of the player's is now on the other, if he has one there. */
  ghost predicate TileShifted(was: seq<Player>, now: seq<Player>, turn: nat, from: Pos, to: Pos)
    requires turn < |was|
  {
    var pending := was[turn].pending;
    if from in Squares(pending) then
      exists i: nat :: i < |pending| && PosOf(pending[i]) == from && now == was[turn := Moved(was[turn], i, to)]
    else now == was
  }

  /** Whether the player may move a tile onto the square. */
  ghost predicate MayTake(s: Setup, st: State, turn: nat, to: Pos) {
    && turn < |st.players| && to.col < s.size && to.row < s.size && to !in st.stones
    && to !in Squares(st.players[turn].pending) && to !in Squares(st.players[turn].undone)
  }

  lemma Shifted(s: Setup, a: State, turn: nat, from: Pos, to: Pos, b: State)
    requires Good(s, a) && Good(s, b) && b == a.(players := b.players)
    requires if MayTake(s, a, turn, to) then TileShifted(a.players, b.players, turn, from, to) else b == a
    ensures Next(s, a, Shift(turn, from.col, from.row, to.col, to.row), b)
  {
    hide Replay, Hands, DistinctSquares, Squares, Moved;
    if Enabled(s, a, Shift(turn, from.col, from.row, to.col, to.row)) {
      var i: nat :| i < |a.players[turn].pending| && PosOf(a.players[turn].pending[i]) == from
                    && b == a.(players := a.players[turn := Moved(a.players[turn], i, to)]);
      OnlyOneThere(a.players[turn], i, from);
    }
  }

  /** Moves a tile onto a square from which its owner has taken none back. */
  method ShiftTile(model: Model, turn: nat, from: Pos, to: Pos)
    requires model.Valid() && model.Tracks() && turn < model.setup.nPlayers == |model.players|
    requires MayTake(model.setup, StateOf(model), turn, to)
    modifies model`players, model.tiles
    ensures model.Valid() && model.Tracks()
    ensures TileShifted(old(model.players), model.players, turn, from, to)
  {
    hide Model.CellsOk, Hands, Scores, AllPending, PlayerIn, PlayerOk, Replay, Drifted, Squares, Moved;
    ghost var was := model.players[turn];
    model.OkIsIn();
    var found := model.MoveTileOnBoard(turn, from.col, from.row, to.col, to.row);
    assert model.Now(model.LogPool()) == old(model.Now(model.LogPool()));
    if found {
      ghost var i: nat :| i < |was.pending| && PosOf(was.pending[i]) == from
        && model.players == old(model.players)[turn := Moved(was, i, to)];
      MovedAt(was, i, to);
    }
  }

  /** A tile is not moved onto a square its owner has taken a tile back from. */
  method DoShift(model: Model, turn: nat, colCur: nat, rowCur: nat, colNew: nat, rowNew: nat)
    requires model.Valid() && model.Tracks() && Good(model.setup, StateOf(model))
    modifies model`players, model.tiles
    ensures model.Valid() && model.Tracks()
    ensures Good(model.setup, StateOf(model))
    ensures Next(model.setup, old(StateOf(model)), Shift(turn, colCur, rowCur, colNew, rowNew), StateOf(model))
  {
    hide Model.CellsOk, Model.Tracks, AllPending, PlayerOk, Replay, Squares, Next, Good, TileShifted;
    if turn < |model.players| && colNew < model.setup.size && rowNew < model.setup.size
       && Pos(colNew, rowNew) !in Squares(model.players[turn].pending)
       && Pos(colNew, rowNew) !in Squares(model.players[turn].undone) {
      model.CellAt(colNew, rowNew, AllPending(model.players));
      if !model.tiles[rowNew, colNew].Placed? {
        ShiftTile(model, turn, Pos(colCur, rowCur), Pos(colNew, rowNew));
      }
    }
    TracksIsGood(model);
    Shifted(model.setup, old(StateOf(model)), turn, Pos(colCur, rowCur), Pos(colNew, rowNew), StateOf(model));
  }

  method DoReset(model: Model, turn: nat)
    requires model.Valid() && model.Tracks() && Good(model.setup, StateOf(model))
    modifies model`players, model.tiles
    ensures model.Valid() && model.Tracks()
    ensures Good(model.setup, StateOf(model)) && Next(model.setup, old(StateOf(model)), Reset(turn), StateOf(model))
  {
    hide Model.CellsOk, Hands, Hand, Scores, AllPending, PlayerOk, PlayerIn, Replay, Drifted, Reversed;
    ghost var was := model.players;
    if turn < |model.players| {
      model.OkIsIn();
      model.ResetCurrentTurn(turn);
      assert model.Now(multiset{}) == old(model.Now(multiset{}));
      model.HandIs(was, turn);
      model.HandIs(model.players, turn);
    }
    TracksIsGood(model);
  }

  lemma Redone(s: Setup, a: State, turn: nat, b: State)
    requires Good(s, a) && Good(s, b)
    requires if turn < |a.players| && |a.players[turn].undone| <= |a.players[turn].tray| then
               FewPlaceable(a.stones, a.players[turn].undone);
               b == a.(players := a.players[turn := RedoAll(s.rules, a.stones, a.players[turn], a.players[turn].undone)])
             else b == a
    ensures Next(s, a, Redo(turn), b)
  {
    hide PlayerOk, Replay, Hands, RedoAll;
  }

  method DoRedo(model: Model, turn: nat)
    requires model.Valid() && model.Tracks() && Good(model.setup, StateOf(model))
    modifies model`players, model.tiles
    ensures model.Valid() && model.Tracks()
    ensures Good(model.setup, StateOf(model)) && Next(model.setup, old(StateOf(model)), Redo(turn), StateOf(model))
  {
    hide Model.CellsOk, Hands, Scores, AllPending, PlayerOk, PlayerIn, Replay, Drifted, RedoAll, Placeable, Next;
    if turn < |model.players| && |model.players[turn].undone| <= |model.players[turn].tray| {
      model.OkIsIn();
      FewPlaceable(model.stones, model.players[turn].undone);
      var _, _ := model.RedoPendingTiles(turn);
    }
    TracksIsGood(model);
    Redone(model.setup, old(StateOf(model)), turn, StateOf(model));
  }

  lemma Figured(s: Setup, a: State, turn: nat, b: State)
    requires Good(s, a) && Good(s, b)
    requires if turn < |a.players| then
               PlayerOk(s, a.players[turn])
               && b == a.(players := a.players[turn := a.players[turn].(curMoveScore := Kept(s, a.stones, a.players[turn]), curMoveValid := true)])
             else b == a
    ensures Next(s, a, Figure(turn), b)
  {
    hide PlayerOk, Replay, Hands, Kept;
  }

  method DoFigure(model: Model, turn: nat)
    requires model.Valid() && model.Tracks() && Good(model.setup, StateOf(model))
    modifies model`players
    ensures model.Valid() && model.Tracks()
    ensures Good(model.setup, StateOf(model)) && Next(model.setup, old(StateOf(model)), Figure(turn), StateOf(model))
  {
    hide Model.CellsOk, Hands, Scores, AllPending, PlayerOk, PlayerIn, Replay, Drifted, CurScore, Next;
    ghost var was := model.players;
    if turn < |model.players| {
      model.OkPlayer(turn);
      PendingDistinct(model.setup, was[turn]);
      var _ := model.GetCurrentMoveScoreIfLegal(turn, AllPending(model.players));
      SamePending(was, model.players);
      FiguredSame(model.setup, was, model.players, turn);
    }
    TracksIsGood(model);
    Figured(model.setup, old(StateOf(model)), turn, StateOf(model));
  }

  lemma FiguredSame(s: Setup, was: seq<Player>, now: seq<Player>, turn: nat)
    requires turn < |was| == |now|
    requires now == was[turn := was[turn].(curMoveScore := now[turn].curMoveScore, curMoveValid := true)]
    ensures Hands(s.rules, now) == Hands(s.rules, was) && Scores(now) == Scores(was) && AllKeep(s.rules, was, now)
  {
    HandKept(s.rules, was, turn, now[turn]);
  }

  // The operations that reach the log.

  /** First tiles are drawn from the pool and put into a tray. */
  method AssignTiles(model: Model, pool: Pool.Pool, turn: nat, tiles: seq<Tile>)
    requires model.Valid() && model.Tracks() && model.InStep(pool) && turn < model.setup.nPlayers == |model.players|
    requires Pool.Letters(pool.lettersLeft.Length, tiles) && Pool.RemovalSafe(pool.lettersLeft[..], tiles)
    modifies model`players, model`log, pool, pool.lettersLeft
    ensures model.Valid() && model.Tracks() && (old(model.Faithful()) ==> model.Faithful()) && model.InStep(pool)
    ensures model.log == old(model.log) + [AssignEntry(turn, tiles)]
    ensures pool.Contents() + multiset(tiles) == old(pool.Contents())
    ensures |model.players| == |old(model.players)|
    ensures model.players == old(model.players)[turn := old(model.players[turn]).(tray := model.players[turn].tray)]
    ensures multiset(model.players[turn].tray) == multiset(old(model.players[turn]).tray) + multiset(tiles)
  {
    hide Model.Valid, Model.Tracks, Model.Faithful, Pool.RemovalSafe, Pool.Bag, Replay;
    Pool.SafeIffContained(pool.lettersLeft[..], tiles);
    pool.RemoveTiles(tiles);
    model.ModelAssignPlayerTiles(turn, tiles);
  }

  lemma TradeDone(s: Setup, a: State, turn: nat, oldTiles: seq<Tile>, newTiles: seq<Tile>, b: State)
    requires Good(s, a) && Good(s, b)
    requires if turn < |a.players| && |oldTiles| == |newTiles| && multiset(oldTiles) <= multiset(a.players[turn].tray)
                && multiset(newTiles) <= PoolOf(s, a.log)
             then
               && OnlyTray(a, b, turn, TradeEntry(turn, oldTiles, newTiles))
               && b.players[turn].tray == InPlace(a.players[turn].tray, oldTiles, newTiles)
             else b == a
    ensures Next(s, a, Trade(turn, oldTiles, newTiles), b)
  {
    hide PlayerOk, Replay, Hands, OnlyTray, InPlace, PoolOf;
  }

  method DoTrade(model: Model, pool: Pool.Pool, turn: nat, oldTiles: seq<Tile>, newTiles: seq<Tile>)
    requires model.Valid() && model.Tracks() && model.InStep(pool) && Good(model.setup, StateOf(model))
    modifies model`players, model`log, pool, pool.lettersLeft
    ensures model.Valid() && model.Tracks() && model.InStep(pool)
    ensures Good(model.setup, StateOf(model))
    ensures Next(model.setup, old(StateOf(model)), Trade(turn, oldTiles, newTiles), StateOf(model))
  {
    hide Model.Valid, Model.Tracks, Model.InStep, Replay, Good, Next, Pool.RemovalSafe, PoolOf, InPlace, Model.Traded, Model.Faithful;
    model.PlayersCount();
    InPoolIff(model, pool, newTiles);
    if turn < |model.players| && |oldTiles| == |newTiles| && Letters(pool, newTiles)
       && multiset(oldTiles) <= multiset(model.players[turn].tray) {
      var there := pool.ContainsTiles(newTiles);
      if there {
        TrayLetters(model, pool, turn, oldTiles);
        CommitTrade(model, pool, turn, oldTiles, newTiles);
      }
    }
    TracksIsGood(model);
    TradeDone(model.setup, old(StateOf(model)), turn, oldTiles, newTiles, StateOf(model));
  }

  lemma CommitDone(s: Setup, a: State, turn: nat, newTiles: seq<Tile>, b: State)
    requires Good(s, a) && Good(s, b) && (turn < |a.players| ==> PlayerOk(s, a.players[turn]))
    requires if turn < |a.players| && multiset(newTiles) <= PoolOf(s, a.log) && 0 <= Worth(s, a.stones, a.players[turn]) then
               && b.log == a.log + [MoveEntry(turn, MoveOf(a.players[turn].pending), newTiles)]
               && Committed(s, a.players, a.stones, b.players, b.stones, turn, newTiles, Kept(s, a.stones, a.players[turn]))
             else b == a
    ensures Next(s, a, Commit(turn, newTiles), b)
  {
    hide PlayerOk, Replay, Hands, Worth, Kept, Committed, MoveOf, PoolOf;
  }

  /** A turn is committed when it is legal and what is drawn is in the pool. */
  method DoCommit(model: Model, pool: Pool.Pool, turn: nat, newTiles: seq<Tile>)
    requires model.Valid() && model.Tracks() && model.InStep(pool) && Good(model.setup, StateOf(model))
    modifies model, model.tiles, pool, pool.lettersLeft
    ensures model.Valid() && model.Tracks() && model.InStep(pool)
    ensures Good(model.setup, StateOf(model))
    ensures Next(model.setup, old(StateOf(model)), Commit(turn, newTiles), StateOf(model))
  {
    hide Model.CellsOk, AllPending, PlayerOk, Replay, Hands, Drifted, Pool.RemovalSafe, Pool.Bag, PoolOf, CurScore, Committed,
      Model.Tracks, Model.InStep, MoveOf, Next, Good, Legality.IsLegal, MoveScore, InOneLine, BoardOf, OnBoard;
    InPoolIff(model, pool, newTiles);
    if turn < |model.players| && Letters(pool, newTiles) {
      model.OkPlayer(turn);
      PendingDistinct(model.setup, model.players[turn]);
      var worth := model.CheckScoreMove(turn, AllPending(model.players));
      var there := pool.ContainsTiles(newTiles);
      if there && 0 <= worth {
        var score := CommitMove(model, pool, turn, newTiles);
      }
    }
    TracksIsGood(model);
    CommitDone(model.setup, old(StateOf(model)), turn, newTiles, StateOf(model));
  }

  lemma Rejected(s: Setup, a: State, b: State)
    requires Good(s, a) && Good(s, b)
    requires if a.log != [] && a.log[|a.log| - 1].MoveEntry? then
               var e := a.log[|a.log| - 1];
               && b.log == a.log[..|a.log| - 1] + [PhonyEntry(e.player, e.mv)]
               && Model.OnlyRested(a.players, b.players, {e.player})
               && forall i: nat :: i < s.nPlayers ==> OffBy(s, b, i) == OffBy(s, a, i)
             else b == a
    ensures Next(s, a, Reject, b)
  {
    hide Good, OffBy, Model.OnlyRested;
  }

  method DoReject(model: Model, pool: Pool.Pool)
    requires model.Valid() && model.Tracks() && model.InStep(pool) && Good(model.setup, StateOf(model))
    modifies model`players, model`stones, model`log, model.tiles, pool, pool.lettersLeft
    ensures model.Valid() && model.Tracks() && model.InStep(pool)
    ensures Good(model.setup, StateOf(model)) && Next(model.setup, old(StateOf(model)), Reject, StateOf(model))
  {
    hide Model.Valid, Model.Tracks, Model.InStep, Model.Faithful, Replay, Good, Next, OffBy;
    ghost var was := model.players;
    model.PlayersCount();
    TracksIsGood(model);
    if |model.log| > 0 && model.log[|model.log| - 1].MoveEntry? {
      var turn := model.RejectPreviousMove(pool);
      assert Model.OnlyRested(was, model.players, {turn});
    }
    TracksIsGood(model);
    Rejected(model.setup, old(StateOf(model)), StateOf(model));
  }

  lemma UndoneTo(s: Setup, a: State, nMovesSought: nat, moveSought: int, b: State)
    requires Good(s, a) && Good(s, b)
    requires if Enabled(s, a, Undo(nMovesSought, moveSought)) then
               && b.log == a.log[..Left(s, a, Undo(nMovesSought, moveSought))]
               && Model.OnlyRested(a.players, b.players, Model.Popped(a.log, |b.log|))
               && forall i: nat :: i < s.nPlayers ==> OffBy(s, b, i) == OffBy(s, a, i)
             else b == a
    ensures Next(s, a, Undo(nMovesSought, moveSought), b)
  {
    hide Good, OffBy, Model.OnlyRested, Model.Popped, LastAssign, Left, Enabled;
  }

  /** Nothing is undone that would go back to an assignment of first tiles. */
  method DoUndo(model: Model, pool: Pool.Pool, nMovesSought: nat, moveSought: int)
    requires model.Valid() && model.Tracks() && model.InStep(pool) && Good(model.setup, StateOf(model))
    modifies model`players, model`stones, model`log, model.tiles, pool, pool.lettersLeft
    ensures model.Valid() && model.Tracks() && model.InStep(pool)
    ensures Good(model.setup, StateOf(model))
    ensures Next(model.setup, old(StateOf(model)), Undo(nMovesSought, moveSought), StateOf(model))
  {
    hide Model.Valid, Model.Tracks, Model.InStep, Model.Faithful, Replay, Good, Next, OffBy, Model.Popped, LastAssign, Model.OnlyRested,
      Model.Failed;
    TracksIsGood(model);
    if 0 < nMovesSought && LastAssign(model.log) < Model.Target(model.log, nMovesSought, moveSought) {
      var success := model.UndoLatestMoves(pool, nMovesSought, moveSought);
    }
    TracksIsGood(model);
    UndoneTo(model.setup, old(StateOf(model)), nMovesSought, moveSought, StateOf(model));
  }

  /** Makes one operation, or nothing when what its caller checks first does not hold. */
  method Step(model: Model, pool: Pool.Pool, op: Op)
    requires model.Valid() && model.Tracks() && model.InStep(pool) && Good(model.setup, StateOf(model))
    modifies model, model.tiles, pool, pool.lettersLeft
    ensures model.Valid() && model.Tracks() && model.InStep(pool)
    ensures Good(model.setup, StateOf(model)) && Next(model.setup, old(StateOf(model)), op, StateOf(model))
  {
    hide Model.Valid, Model.Tracks, Model.InStep, Good, Next;
    match op
    case Assign(turn, tiles) => DoAssign(model, pool, turn, tiles);
    case PutDown(turn, col, row, slot, face) => DoPutDown(model, turn, col, row, slot, face);
    case TakeBack(turn, col, row, offset) => DoTakeBack(model, turn, col, row, offset);
    case Shift(turn, colCur, rowCur, colNew, rowNew) => DoShift(model, turn, colCur, rowCur, colNew, rowNew);
    case Reset(turn) => DoReset(model, turn);
    case Redo(turn) => DoRedo(model, turn);
    case Figure(turn) => DoFigure(model, turn);
    case Commit(turn, newTiles) => DoCommit(model, pool, turn, newTiles);
    case Trade(turn, oldTiles, newTiles) => DoTrade(model, pool, turn, oldTiles, newTiles);
    case Reject => DoReject(model, pool);
    case Undo(nMovesSought, moveSought) => DoUndo(model, pool, nMovesSought, moveSought);
  }

  lemma OneMoreState(s: Setup, ops: seq<Op>, trace: seq<State>, op: Op, st: State)
    requires IsRun(s, ops, trace) && Good(s, st) && Next(s, trace[|ops|], op, st)
    ensures IsRun(s, ops + [op], trace + [st])
  {
    hide Good, Next;
    var moreOps, more := ops + [op], trace + [st];
    assert forall k :: 0 <= k <= |ops| ==> more[k] == trace[k];
    forall k | 0 <= k < |moreOps|
      ensures Next(s, more[k], moreOps[k], more[k + 1])
    {
      if k < |ops| {
        assert Next(s, trace[k], ops[k], trace[k + 1]);
      }
    }
  }

  lemma NoSteps(s: Setup, st: State)
    requires Good(s, st)
    ensures IsRun(s, [], [st])
  {
  }

  /** A whole run, operation by operation, and the states it went through. From a game that was the game of
      its log, the one at the end is the game of its log if and only if the errors of the commits cancel; and it
      is when the scores kept were right and no undoing took stones off under another player's. */
  method Run(model: Model, pool: Pool.Pool, ops: seq<Op>) returns (ghost trace: seq<State>)
    requires model.Valid() && model.Tracks() && model.InStep(pool)
    modifies model, model.tiles, pool, pool.lettersLeft
    ensures model.Valid() && model.Tracks() && model.InStep(pool)
    ensures IsRun(model.setup, ops, trace) && trace[0] == old(StateOf(model)) && trace[|ops|] == StateOf(model)
    ensures old(model.Faithful()) ==> (model.Faithful() <==> ErrorsCancel(model.setup, ops, trace))
    ensures AlwaysCurrent(model.setup, trace) <==>
            AllCurrent(model.setup, trace[0].stones, trace[0].players) && AllClean(model.setup, ops, trace)
    ensures old(model.Faithful()) && AlwaysCurrent(model.setup, trace) ==> model.Faithful()
    ensures forall t :: InLive(model.setup.rules, pool.Contents(), StateOf(model), t) == model.setup.letters[t]
  {
    hide Model.Valid, Model.Tracks, Model.InStep, Model.Faithful, Good, Next, IsRun, Agrees, ErrorsCancel,
      AllCurrent, AllClean, AlwaysCurrent, InLive, Pool.Pool.Contents;
    TracksIsGood(model);
    NoSteps(model.setup, StateOf(model));
    trace := [StateOf(model)];
    for k := 0 to |ops|
      invariant model.Valid() && model.Tracks() && model.InStep(pool) && Good(model.setup, StateOf(model))
      invariant |trace| == k + 1 && IsRun(model.setup, ops[..k], trace)
      invariant trace[0] == old(StateOf(model)) && trace[k] == StateOf(model)
    {
      Step(model, pool, ops[k]);
      OneMoreState(model.setup, ops[..k], trace, ops[k], StateOf(model));
      assert ops[..k + 1] == ops[..k] + [ops[k]];
      trace := trace + [StateOf(model)];
    }
    assert ops[..|ops|] == ops;
    TracksIsGood(model);
    RunIsGood(model.setup, ops, trace);
    RunCurrentIff(model.setup, ops, trace);
    if old(model.Faithful()) {
      RunAgreesIff(model.setup, ops, trace);
      if AlwaysCurrent(model.setup, trace) {
        CleanRunAgrees(model.setup, ops, trace);
      }
    }
    forall t: Tile {
      PoolConserved(model, pool, t);
    }
  }

  lemma RunIsGood(s: Setup, ops: seq<Op>, trace: seq<State>)
    requires IsRun(s, ops, trace)
    ensures |trace| == |ops| + 1 && AllGood(s, trace)
  {
  }

  /** For every letter, the pool, the trays, the tiles pending and the stones on the board hold together what
      the set had. */
  lemma PoolConserved(m: Model, pool: Pool.Pool, t: Tile)
    requires m.Valid() && m.Tracks() && m.InStep(pool)
    ensures InLive(m.setup.rules, pool.Contents(), StateOf(m), t) == m.setup.letters[t]
  {
    hide Model.Valid, Replay, OnBoardCount, Good, Pool.Bag;
    TracksIsGood(m);
    LiveConserved(m.setup, StateOf(m), t);
  }

  // A tile moved on the board, and everything taken back and put down again.

  /** The square a tile was moved to is taken once more when one of those taken back lay there. */
  lemma TakenTwice(stones: Stones, moved: Player, i: nat, p: Pos)
    requires i < |moved.pending| && PosOf(moved.pending[i]) == p && p !in stones && p in Squares(moved.undone)
    ensures multiset(Squares(Reversed(moved.pending) + Placeable(stones, moved.undone)))[p] >= 2
  {
    hide Placeable, Reversed;
    var back, more := Reversed(moved.pending), Placeable(stones, moved.undone);
    ReversedSame(moved.pending);
    assert moved.pending[i] in multiset(back);
    var j :| 0 <= j < |back| && PosOf(back[j]) == p;
    var k :| 0 <= k < |moved.undone| && Squares(moved.undone)[k] == p;
    assert moved.undone[k] in more;
    var l :| 0 <= l < |more| && PosOf(more[l]) == p;
    assert Squares(back)[j] == p && Squares(more)[l] == p;
    assert Squares(back + more) == Squares(back) + Squares(more);
    assert p in multiset(Squares(back)) && p in multiset(Squares(more));
  }

  lemma MovedAt(pl: Player, i: nat, p: Pos)
    requires i < |pl.pending|
    ensures var moved := Moved(pl, i, p);
            |moved.pending| == |pl.pending| && PosOf(moved.pending[i]) == p && moved.undone == pl.undone
  {
  }

  lemma OnceEach(s: Setup, players: seq<Player>)
    requires forall i :: 0 <= i < |players| ==> PlayerOk(s, players[i])
    ensures forall p :: AllPending(players)[p] == PlayersAt(players, p)
  {
    hide AllPending, PlayersAt, PlayerOk;
    forall i | 0 <= i < |players|
      ensures DistinctSquares(players[i].pending)
    {
      PendingDistinct(s, players[i]);
    }
    forall p
      ensures AllPending(players)[p] == PlayersAt(players, p)
    {
      RefcountIsPlayers(players, p);
    }
  }

  /** After moving a tile, taking everything back and putting it down again, the count on every square is the
      number of players with a tile there if and only if the tile was not moved onto a square from which its
      owner had taken a tile back. */
  method MoveResetRedo(model: Model, turn: nat, colCur: nat, rowCur: nat, colNew: nat, rowNew: nat)
    returns (found: bool, strayed: bool)
    requires model.Valid() && turn < model.setup.nPlayers && colNew < model.setup.size && rowNew < model.setup.size
    requires Pos(colNew, rowNew) !in model.stones && Pos(colNew, rowNew) !in Squares(model.players[turn].pending)
    modifies model`players, model.tiles
    ensures model.Sound() && (found <==> Pos(colCur, rowCur) in old(Squares(model.players[turn].pending)))
    ensures strayed <==> found && |old(model.players[turn].tray)| < |Placeable(model.stones, old(model.players[turn].undone))|
    ensures found && !strayed ==>
              ((forall p :: AllPending(model.players)[p] == PlayersAt(model.players, p)) <==>
               Pos(colNew, rowNew) !in old(Squares(model.players[turn].undone)))
  {
    hide Model.CellsOk, Hands, Scores, AllPending, PlayerOk, PlayerIn, Placeable, Reversed, RedoAll, PendingTiles, PlayersAt;
    ghost var p, first := Pos(colNew, rowNew), model.players[turn];
    model.OkIsIn();
    strayed := false;
    found := model.MoveTileOnBoard(turn, colCur, rowCur, colNew, rowNew);
    if found {
      ghost var moved, was := model.players[turn], model.players;
      ghost var ok := p !in Squares(moved.undone);
      assert ok ==> model.PlayersOk();
      model.OwnOffStones(turn);
      Model.BackAgain(model.setup.rules, model.stones, moved);
      model.ResetCurrentTurn(turn);
      assert model.Now(multiset{}) == old(model.Now(multiset{}));
      model.TrayAfterReset(was, turn);
      ghost var back := model.players[turn];
      var any;
      any, strayed := model.RedoPendingTiles(turn);
      if strayed {
        return;
      }
      RedoneSquares(model.setup.rules, model.stones, back, back.undone);
      if ok {
        OnceEach(model.setup, model.players);
      } else {
        ghost var i: nat :| i < |first.pending| && moved == Moved(first, i, p);
        MovedAt(first, i, p);
        TakenTwice(model.stones, moved, i, p);
        assert Squares([]) == [];
        Doubled(model.players, turn, p);
      }
    }
  }
}
