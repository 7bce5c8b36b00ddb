/** The runs themselves: each operates a model, step by step, into a state it should not be in. */
module FindingRuns {
  import opened Dawg
  import opened Score
  import opened Legality
  import opened GameLog
  import opened TurnState
  import opened Model
  import opened GameRun
  import opened Findings
  import Pool

  function Zeros(n: nat): (ts: seq<Tile>)
    ensures |ts| == n && forall k :: 0 <= k < n ==> ts[k] == 0
  {
    seq(n, _ => 0)
  }

  lemma ZerosOnly(tray: seq<Tile>, n: nat)
    requires multiset(tray) == multiset(Zeros(n))
    ensures tray == Zeros(n)
  {
    assert |multiset(tray)| == |tray| && |multiset(Zeros(n))| == n;
    forall k | 0 <= k < |tray|
      ensures tray[k] == 0
    {
      assert tray[k] in multiset(Zeros(n));
    }
  }

  /** A game under way on the small board, with every score right so far. */
  ghost predicate Ready(m: Model, pool: Pool.Pool)
    reads m, m.tiles, pool, pool.lettersLeft
  {
    && m.setup == ThreeByThree() && pool.lettersLeft.Length == 2 && |m.players| == 2
    && m.Valid() && m.Tracks() && m.InStep(pool) && m.drift == [0, 0]
  }

  method NewGame() returns (m: Model, pool: Pool.Pool)
    ensures fresh(m) && fresh(m.tiles) && fresh(pool) && fresh(pool.lettersLeft)
    ensures m.setup == ThreeByThree() && Ready(m, pool) && pool.Contents() == multiset{0, 0, 0, 0, 0} && m.log == [] && m.stones == map[]
    ensures m.players == [Player(0, 0, false, [], [], []), Player(0, 0, false, [], [], [])]
  {
    hide Model.CellsOk, Model.PlayersOk, AllPending, Hands, Scores, Replay, Drifted, Pool.Bag;
    pool := new Pool.Pool([5, 0]);
    m := new Model(ThreeByThree());
    forall t: Tile
      ensures Pool.Bag([5, 0])[t] == multiset{0, 0, 0, 0, 0}[t]
    {
      Pool.BagCounts([5, 0], t);
    }
    assert pool.lettersLeft[..] == [5, 0];
    m.FaithfulIff();
    m.NoDriftAt();
    m.TracksLength();
    m.PoolAtStart();
    assert m.drift == [0, 0];
  }

  lemma NothingBefore(tray: seq<Tile>, tiles: seq<Tile>)
    requires multiset(tray) == multiset([]) + multiset(tiles)
    ensures multiset(tray) == multiset(tiles)
  {
  }

  /** First tiles for a player, out of the pool. */
  method Deal(m: Model, pool: Pool.Pool, turn: nat, n: nat)
    requires Ready(m, pool) && turn < 2 && m.players[turn].tray == [] && multiset(Zeros(n)) <= pool.Contents()
    modifies m`players, m`log, pool, pool.lettersLeft
    ensures Ready(m, pool) && pool.Contents() + multiset(Zeros(n)) == old(pool.Contents())
    ensures m.log == old(m.log) + [AssignEntry(turn, Zeros(n))]
    ensures m.players == old(m.players)[turn := old(m.players[turn]).(tray := Zeros(n))]
  {
    hide Model.Valid, Model.Tracks, Model.InStep, Pool.RemovalSafe, Pool.Bag, Squares, Zeros;
    Pool.SafeIffContained(pool.lettersLeft[..], Zeros(n));
    AssignTiles(m, pool, turn, Zeros(n));
    NothingBefore(m.players[turn].tray, Zeros(n));
    ZerosOnly(m.players[turn].tray, n);
  }

  /** The last tile of the tray goes down. */
  method Lay(m: Model, pool: Pool.Pool, turn: nat, col: nat, row: nat, n: nat)
    requires Ready(m, pool) && turn < 2 && m.players[turn].tray == Zeros(n + 1) && col < 3 && row < 3
    requires Pos(col, row) !in m.stones && Pos(col, row) !in Squares(m.players[turn].pending)
    modifies m`players, m.tiles
    ensures Ready(m, pool) && |m.players| == 2
    ensures var was := old(m.players[turn]);
            m.players == old(m.players)[turn := was.(tray := Zeros(n), pending := was.pending + [PendingTile(col, row, 0, false)],
                                                     undone := [], curMoveValid := false)]
  {
    hide Ready, Model.Valid, Model.Sound, Model.PlayersOk, Model.Tracks, Model.InStep, AllPending, Zeros, RemoveAt, Squares,
      ThreeByThree, TracksGame;
    ReadyIsSound(m, pool);
    LastRemoved(n);
    ghost var g := m.Now(m.LogPool());
    TracksNow(m, g);
    m.MoveTrayToBoard(turn, col, row, -1, 0);
    TracksNow(m, g);
    IsReady(m, pool);
  }

  lemma LastRemoved(n: nat)
    ensures |Zeros(n + 1)| == n + 1 && Zeros(n + 1)[n] == 0 && RemoveAt(Zeros(n + 1), n) == Zeros(n)
  {
  }

  lemma ReadyIsSound(m: Model, pool: Pool.Pool)
    requires Ready(m, pool)
    ensures m.Valid() && m.Tracks() && m.InStep(pool) && m.drift == [0, 0] && pool.lettersLeft.Length == 2
    ensures m.Sound() && m.PlayersOk() && |m.players| == m.setup.nPlayers == 2
    ensures m.setup == ThreeByThree() && m.setup.size == 3 && m.setup.rules.blank != 0
  {
    hide Model.CellsOk;
    m.OkIsIn();
  }

  lemma IsReady(m: Model, pool: Pool.Pool)
    requires m.Valid() && m.Tracks() && m.InStep(pool) && m.drift == [0, 0]
    requires m.setup == ThreeByThree() && pool.lettersLeft.Length == 2 && |m.players| == 2
    ensures Ready(m, pool)
  {
  }

  /** The game is the one the log describes, with the scores this much off. */
  ghost predicate TracksGame(s: Setup, log: seq<Entry>, drift: seq<int>, g: Game) {
    && Replay(s, log).Some? && |drift| == |Replay(s, log).value.scores| == s.nPlayers
    && g == Drifted(Replay(s, log).value, drift)
  }

  lemma TracksNow(m: Model, g: Game)
    requires g == m.Now(m.LogPool())
    ensures m.Tracks() <==> TracksGame(m.setup, m.log, m.drift, g)
  {
  }

  lemma CommittedTrays(s: Setup, was: seq<Player>, before: Stones, now: seq<Player>, after: Stones, turn: nat, score: int)
    requires Committed(s, was, before, now, after, turn, [], score)
    ensures multiset(now[turn].tray) == multiset(was[turn].tray)
    ensures forall i :: 0 <= i < |was| && i != turn && was[i].pending == [] ==>
              now[i].pending == [] && multiset(now[i].tray) == multiset(was[i].tray)
  {
    hide PutStones;
    assert Hands(s.rules, now)[turn] == Hand(s.rules, now[turn]);
    HandParts(s.rules, was[turn]);
    TrayIsHand(s.rules, now[turn]);
    Less(multiset(was[turn].tray), PendingTiles(s.rules, was[turn].pending));
    forall i | 0 <= i < |was| && i != turn && was[i].pending == []
      ensures now[i].pending == [] && multiset(now[i].tray) == multiset(was[i].tray)
    {
      assert now[i].pending == NotOn([], SquareSet(was[turn].pending));
      assert Hands(s.rules, now)[i] == Hands(s.rules, was)[i];
      TrayIsHand(s.rules, was[i]);
      TrayIsHand(s.rules, now[i]);
    }
  }

  lemma Less<T>(a: multiset<T>, b: multiset<T>)
    ensures a + b - b + multiset([]) == a
  {
  }

  /** A turn is committed and nothing drawn; the other player waits with nothing pending. */
  method Play(m: Model, pool: Pool.Pool, turn: nat, n: nat, k: nat)
    requires Ready(m, pool) && turn < 2 && m.players[turn].tray == Zeros(n) && m.players[1 - turn].tray == Zeros(k)
    requires m.players[1 - turn].pending == [] && !m.players[turn].curMoveValid && m.TurnScore(turn) >= 0
    modifies m, m.tiles, pool, pool.lettersLeft
    ensures Ready(m, pool) && |m.players| == 2 && m.log == old(m.log) + [MoveEntry(turn, MoveOf(old(m.players[turn].pending)), [])]
    ensures m.stones == PutStones(old(m.stones), turn, old(m.players[turn].pending))
    ensures m.players[turn].pending == [] == m.players[1 - turn].pending && !m.players[0].curMoveValid && !m.players[1].curMoveValid
    ensures m.players[turn].tray == Zeros(n) && m.players[1 - turn].tray == Zeros(k)
  {
    hide Model.Valid, Model.PlayersOk, Model.Tracks, Model.InStep, MoveOf, PutStones, Committed, Model.TurnScore, CurScore, Zeros;
    hide Pool.RemovalSafe, Pool.Letters, Squares, PlayerOk, Model.Fresh;
    ghost var was, before := m.players, m.stones;
    NothingToRemove(pool);
    ValidIsOk(m);
    var score := CommitMove(m, pool, turn, []);
    CommittedTrays(m.setup, was, before, m.players, m.stones, turn, score);
    CommittedMore(m.setup, was, before, m.players, m.stones, turn, score);
    ZerosOnly(m.players[turn].tray, n);
    ZerosOnly(m.players[1 - turn].tray, k);
  }

  lemma ValidIsOk(m: Model)
    requires m.Valid()
    ensures m.PlayersOk()
  {
  }

  lemma NothingToRemove(pool: Pool.Pool)
    ensures Pool.Letters(pool.lettersLeft.Length, []) && Pool.RemovalSafe(pool.lettersLeft[..], [])
  {
  }

  lemma CommittedMore(s: Setup, was: seq<Player>, before: Stones, now: seq<Player>, after: Stones, turn: nat, score: int)
    requires Committed(s, was, before, now, after, turn, [], score)
    ensures |now| == |was| && after == PutStones(before, turn, was[turn].pending) && now[turn].pending == []
    ensures forall i :: 0 <= i < |now| ==> !now[i].curMoveValid
  {
    hide PutStones, Hands;
  }

  /** Both players have tiles, and the first has laid a word on the star. */
  method Opened() returns (m: Model, pool: Pool.Pool)
    ensures fresh(m) && fresh(m.tiles) && fresh(pool) && fresh(pool.lettersLeft)
    ensures m.setup == ThreeByThree() && Ready(m, pool) && |m.players| == 2 && m.stones == FirstWord()
    ensures |m.log| == 3 && m.log[0].AssignEntry? && m.log[1].AssignEntry?
    ensures m.log[2] == MoveEntry(0, MoveOf(First()), []) && MoveOf(First()).tiles != []
    ensures m.players[0].pending == [] && m.players[1].pending == [] && !m.players[0].curMoveValid && !m.players[1].curMoveValid
    ensures m.players[0].tray == Zeros(2) && m.players[1].tray == Zeros(1)
  {
    hide Ready, MoveOf, CurScore, PutStones, Zeros, ThreeByThree;
    m, pool := NewGame();
    FiveDealt(pool.Contents());
    Deal(m, pool, 0, 4);
    Deal(m, pool, 1, 1);
    NoSquares();
    OneSquare(PendingTile(1, 1, 0, false));
    Lay(m, pool, 0, 1, 1, 3);
    Lay(m, pool, 0, 2, 1, 2);
    assert m.players[0].pending == First();
    FirstIsLegal();
    FirstIsPut();
    TwoInRow(1, 1);
    Play(m, pool, 0, 2, 1);
  }

  /** A score kept with a player can be out of date after another player's move is undone: here a legal turn
      still counts a word that is gone, and committing it leaves the live game different from what its log
      gives. */
  method UndoLeavesScoreStale() returns (m: Model, pool: Pool.Pool)
    ensures m.Valid() && m.Tracks() && m.InStep(pool) && !m.Faithful()
  {
    hide Ready, MoveOf, CurScore, PutStones, Model.Faithful, Place, Replay, Drifted, Hands, Scores, PlayerOk, Model.CellsOk, AllPending;
    m, pool := Opened();
    Lay(m, pool, 0, 0, 2, 1);
    Lay(m, pool, 0, 1, 2, 0);
    assert m.players[0].pending == Second();
    SecondIsLegal();
    SecondIsPut();
    SecondPlaced(FirstWord());
    ghost var shorter := m.log;
    StonesOfLog(m, pool);
    Play(m, pool, 0, 0, 1);
    Lay(m, pool, 1, 0, 1, 0);
    assert m.players[1].pending == Waiting();
    var kept := KeepScore(m, pool);
    WorthMore(m.stones);
    TakeSecondBack(m, pool, shorter);
    CommitWaiting(m, pool, kept);
  }

  lemma StonesOfLog(m: Model, pool: Pool.Pool)
    requires Ready(m, pool)
    ensures Replay(m.setup, m.log).Some? && Replay(m.setup, m.log).value.stones == m.stones
  {
  }

  /** The second player looks at what the tile laid would score. */
  method KeepScore(m: Model, pool: Pool.Pool) returns (kept: int)
    requires Ready(m, pool) && m.players[1].pending == Waiting() && !m.players[1].curMoveValid
    modifies m`players
    ensures Ready(m, pool) && |m.players| == 2 && kept == CurScore(ThreeByThree(), m.stones, Waiting())
    ensures m.players == old(m.players)[1 := old(m.players[1]).(curMoveScore := kept, curMoveValid := true)]
  {
    hide Model.CellsOk, AllPending, Hands, Scores, Replay, Drifted, CurScore, PlayerOk;
    ghost var was := m.players;
    m.OkPlayer(1);
    PendingDistinct(m.setup, was[1]);
    kept := m.GetCurrentMoveScoreIfLegal(1, AllPending(m.players));
    SamePending(was, m.players);
    FiguredSame(m.setup, was, m.players, 1);
  }

  /** The first player's second word is undone, while the tile laid stays. */
  method TakeSecondBack(m: Model, pool: Pool.Pool, ghost shorter: seq<Entry>)
    requires Ready(m, pool) && |shorter| == 3 && m.log == shorter + [MoveEntry(0, MoveOf(Second()), [])]
    requires Replay(m.setup, shorter).Some? && Replay(m.setup, shorter).value.stones == FirstWord()
    requires shorter[2].MoveEntry?
    modifies m`players, m`stones, m`log, m.tiles, pool, pool.lettersLeft
    ensures Ready(m, pool) && |m.players| == |old(m.players)| == 2 && m.stones == FirstWord() && m.players[1] == old(m.players[1])
  {
    hide Model.Valid, Model.InStep, MoveOf, Replay, Drifted;
    ghost var full := m.log;
    assert full[3].MoveEntry?;
    AssignsFirst(full);
    var success := m.UndoLatestMoves(pool, 1, -1);
    assert m.log == shorter;
    OnlyMover(full);
    m.TracksLength();
    StonesOfLog(m, pool);
  }

  lemma AssignsFirst(log: seq<Entry>)
    requires |log| == 4 && log[2].MoveEntry? && log[3].MoveEntry?
    ensures LastAssign(log) < 3
  {
  }

  lemma OnlyMover(log: seq<Entry>)
    requires |log| == 4 && log[3].player == 0
    ensures 1 !in Model.Popped(log, 3)
  {
  }

  /** The turn is committed at the score kept. */
  method CommitWaiting(m: Model, pool: Pool.Pool, ghost kept: int)
    requires Ready(m, pool) && m.stones == FirstWord() && m.players[1].pending == Waiting()
    requires m.players[1].curMoveValid && m.players[1].curMoveScore == kept
    requires 0 <= CurScore(ThreeByThree(), FirstWord(), Waiting()) < kept
    modifies m, m.tiles, pool, pool.lettersLeft
    ensures m.Valid() && m.Tracks() && m.InStep(pool) && !m.Faithful()
  {
    hide Model.Valid, Model.PlayersOk, Model.Tracks, Model.InStep, Committed, CurScore, Pool.RemovalSafe, Pool.Letters, PlayerOk,
      Model.Faithful;
    NothingToRemove(pool);
    ValidIsOk(m);
    var score := CommitMove(m, pool, 1, []);
    m.FaithfulIff();
    m.NoDriftAt();
    assert m.drift[1] != 0;
  }

  /** Undoing back to an assignment fails and puts the log back, but not the word that was taken off the board:
      the live game is not the one its log describes. */
  method UndoPastAssignment() returns (m: Model, pool: Pool.Pool)
    ensures m.Valid() && !(m.Tracks() && m.InStep(pool)) && !m.Faithful()
  {
    hide Ready, MoveOf, Model.Faithful, Model.Valid, Model.Tracks, Model.InStep, Model.Stranded, Model.OnlyRested, Model.Popped, Replay,
      CurScore, LastAssign;
    m, pool := Opened();
    TracksReady(m, pool);
    ghost var full, was := m.log, m.players;
    LastAssignIs(full, 1);
    var success := m.UndoLatestMoves(pool, 2, -1);
    assert m.Failed(pool, was, full);
    LaidInBetween(m.setup, full, 2, 2);
    NotFaithful(m, pool, full);
  }

  lemma TracksReady(m: Model, pool: Pool.Pool)
    requires Ready(m, pool)
    ensures m.Valid() && m.Tracks() && m.InStep(pool) && Replay(m.setup, m.log).Some?
  {
  }

  /** The stones on the board are not those of the log. */
  lemma NotFaithful(m: Model, pool: Pool.Pool, full: seq<Entry>)
    requires m.log == full && m.Stranded(pool, 1) && |full| == 3 && Replay(m.setup, full).Some?
    requires full[2].MoveEntry? && full[2].mv.tiles != []
    ensures !m.Faithful()
  {
    hide ValidEntry, Place;
    assert full[..2] == full[..1 + 1];
    var e := full[2];
    StonesStay(m.setup, full, 2);
    assert full[..3] == full && full[..3][..2] == full[..2];
    AddsStones(m.setup, Replay(m.setup, full[..2]).value, e);
    var p := PosAt(e.mv.horizontal, e.mv.tiles[0].varCoord, e.mv.common);
    assert p in Replay(m.setup, full).value.stones && p !in Replay(m.setup, full[..2]).value.stones;
  }

  /** A hash that only an earlier state of a short log has is found, and nothing is popped. */
  method HashFoundNothingPopped() returns (m: Model, pool: Pool.Pool, found: bool)
    ensures m.Valid() && m.Tracks() && m.InStep(pool) && found && Length(m.log) != 1
  {
    hide Ready, Model.Valid, Model.Tracks, Model.InStep, Replay;
    m, pool := NewGame();
    Deal(m, pool, 0, 1);
    Deal(m, pool, 1, 1);
    TracksReady(m, pool);
    assert Length(m.log[..1]) == 1;
    found := m.PopToHash(pool, Length, 1);
  }

  /** One way to make a hash of a log. */
  function Length(log: seq<Entry>): nat {
    |log|
  }

  /** A tile moved onto the square its owner took another from, then a reset and a redo: two tiles of one
      player on one square, counted twice. */
  method RedoCanDouble() returns (m: Model)
    ensures m.Sound() && exists p :: AllPending(m.players)[p] != PlayersAt(m.players, p)
  {
    hide Ready, Model.Valid, Model.Sound, Model.PlayersOk, AllPending, PlayersAt, Placeable, Zeros, ThreeByThree, Squares;
    var pool;
    m, pool := LaidTwo();
    TakeFirstBack(m, pool);
    ReadyIsSound(m, pool);
    OnePlaceable(m.stones, PendingTile(0, 0, 0, false));
    OneSquare(PendingTile(0, 0, 0, false));
    OneSquare(PendingTile(1, 0, 0, false));
    var found, strayed := MoveResetRedo(m, 0, 1, 0, 0, 0);
  }

  lemma OneSquare(pt: PendingTile)
    ensures Squares([pt]) == [PosOf(pt)]
  {
  }

  /** The first player lays the two tiles dealt. */
  method LaidTwo() returns (m: Model, pool: Pool.Pool)
    ensures fresh(m) && fresh(m.tiles) && fresh(pool) && fresh(pool.lettersLeft)
    ensures Ready(m, pool) && |m.players| == 2 && m.stones == map[]
    ensures m.players[0].tray == Zeros(0) && m.players[0].undone == []
    ensures m.players[0].pending == [PendingTile(1, 0, 0, false), PendingTile(0, 0, 0, false)]
  {
    hide Ready, Squares, Zeros, ThreeByThree;
    m, pool := NewGame();
    TwoOfFive(pool.Contents());
    Deal(m, pool, 0, 2);
    NoSquares();
    Lay(m, pool, 0, 1, 0, 1);
    OneSquare(PendingTile(1, 0, 0, false));
    Lay(m, pool, 0, 0, 0, 0);
  }

  lemma TwoOfFive(contents: multiset<Tile>)
    requires contents == multiset{0, 0, 0, 0, 0}
    ensures multiset(Zeros(2)) <= contents
  {
    assert Zeros(2) == [0, 0];
  }

  lemma FiveDealt(contents: multiset<Tile>)
    requires contents == multiset{0, 0, 0, 0, 0}
    ensures multiset(Zeros(4)) <= contents
    ensures forall left :: left + multiset(Zeros(4)) == contents ==> multiset(Zeros(1)) <= left
  {
    assert Zeros(4) == [0, 0, 0, 0] && Zeros(1) == [0];
    forall left: multiset<Tile> | left + multiset(Zeros(4)) == contents
      ensures multiset(Zeros(1)) <= left
    {
      assert (left + multiset(Zeros(4)))[0] == left[0] + multiset(Zeros(4))[0];
    }
  }

  lemma NoSquares()
    ensures Squares([]) == []
  {
  }

  lemma OnePlaceable(stones: Stones, pt: PendingTile)
    requires PosOf(pt) !in stones
    ensures Placeable(stones, [pt]) == [pt]
  {
    assert [pt][..0] == [];
  }

  /** The tile on the first square goes back to the tray. */
  method TakeFirstBack(m: Model, pool: Pool.Pool)
    requires Ready(m, pool) && m.players[0].tray == Zeros(0)
    requires m.players[0].pending == [PendingTile(1, 0, 0, false), PendingTile(0, 0, 0, false)] && m.players[0].undone == []
    modifies m`players, m.tiles
    ensures Ready(m, pool) && |m.players| == 2
    ensures m.players[0].pending == [PendingTile(1, 0, 0, false)] && m.players[0].undone == [PendingTile(0, 0, 0, false)]
    ensures |m.players[0].tray| == 1
  {
    hide Ready, Model.Valid, Model.PlayersOk, Model.CellsOk, Model.Tracks, Model.InStep, AllPending, ThreeByThree, TracksGame, Squares;
    ReadyIsSound(m, pool);
    ghost var was := m.players[0];
    ghost var g := m.Now(m.LogPool());
    TracksNow(m, g);
    NothingHidden(AllPending(m.players));
    SoundParts(m);
    SecondIndex(was.pending[0], was.pending[1]);
    m.MoveBoardToTray(0, 0, 0, -1, multiset{});
    NothingHidden(AllPending(m.players));
    SoundParts(m);
    TracksNow(m, g);
    IsReady(m, pool);
  }

  lemma SoundParts(m: Model)
    ensures m.Valid() <==> m.PlayersOk() && m.CellsOk(AllPending(m.players))
    ensures m.PlayersOk() ==> m.PlayersIn()
  {
    hide Model.CellsOk;
  }

  lemma SecondIndex(a: PendingTile, b: PendingTile)
    requires PosOf(a) != PosOf(b)
    ensures IndexAt([a, b], PosOf(b)) == 1
  {
  }

  /** Tiles of two letters. */
  function TwoLetters(): Setup {
    GameSetup(3, RuleSet([1, 0, 1], 1, []), 1, multiset{0, 2})
  }

  method TwoLetterGame() returns (m: Model, pool: Pool.Pool)
    ensures fresh(m) && fresh(m.tiles) && fresh(pool) && fresh(pool.lettersLeft)
    ensures m.setup == TwoLetters() && m.Valid() && m.Tracks() && m.InStep(pool) && pool.lettersLeft.Length == 3
    ensures pool.Contents() == multiset{0, 2} && m.stones == map[] && m.players == [Player(0, 0, false, [], [], [])]
    ensures m.Faithful()
  {
    hide Model.CellsOk, Model.PlayersOk, AllPending, Hands, Scores, Replay, Drifted, Pool.Bag;
    pool := new Pool.Pool([1, 0, 1]);
    m := new Model(TwoLetters());
    forall t: Tile
      ensures Pool.Bag([1, 0, 1])[t] == multiset{0, 2}[t]
    {
      Pool.BagCounts([1, 0, 1], t);
    }
    assert pool.lettersLeft[..] == [1, 0, 1];
    m.TracksLength();
    m.PoolAtStart();
  }

  /** The tile goes down on the first square and back to the tray. */
  method DownAndBack(m: Model)
    requires m.setup == TwoLetters() && m.Valid() && m.Tracks() && m.Faithful() && Pos(0, 0) !in m.stones
    requires m.players == [Player(0, 0, false, [0], [], [])]
    modifies m`players, m.tiles
    ensures m.Valid() && m.Tracks() && m.Faithful()
    ensures m.players == [Player(0, 0, false, [0], [], [PendingTile(0, 0, 0, false)])]
  {
    hide Model.Valid, Model.Tracks, Model.Faithful, Squares, TwoLetters, TracksGame;
    ghost var g := m.Now(m.LogPool());
    TracksNow(m, g);
    FaithfulNow(m, g);
    PutOneDown(m);
    TakeOneBack(m);
    TracksNow(m, g);
    FaithfulNow(m, g);
  }

  lemma FaithfulNow(m: Model, g: Game)
    requires g == m.Now(m.LogPool())
    ensures m.Faithful() <==> Replay(m.setup, m.log) == Some(g)
  {
  }

  method PutOneDown(m: Model)
    requires m.setup == TwoLetters() && m.Valid() && Pos(0, 0) !in m.stones
    requires m.players == [Player(0, 0, false, [0], [], [])]
    modifies m`players, m.tiles
    ensures m.Valid() && m.players == [Player(0, 0, false, [], [PendingTile(0, 0, 0, false)], [])]
    ensures forall pool :: m.Now(pool) == old(m.Now(pool))
  {
    hide Model.CellsOk, AllPending, PlayerOk, PlayerIn, Hands, Scores;
    m.OkIsIn();
    NoSquares();
    m.MoveTrayToBoard(0, 0, 0, 0, 0);
    assert RemoveAt([0], 0) == [] && [] + [PendingTile(0, 0, 0, false)] == [PendingTile(0, 0, 0, false)];
    assert m.players == [Player(0, 0, false, [], [PendingTile(0, 0, 0, false)], [])];
  }

  method TakeOneBack(m: Model)
    requires m.setup == TwoLetters() && m.Valid()
    requires m.players == [Player(0, 0, false, [], [PendingTile(0, 0, 0, false)], [])]
    modifies m`players, m.tiles
    ensures m.Valid() && m.players == [Player(0, 0, false, [0], [], [PendingTile(0, 0, 0, false)])]
    ensures forall pool :: m.Now(pool) == old(m.Now(pool))
  {
    hide Model.CellsOk, AllPending, PlayerOk, PlayerIn, Hands, Scores, TakenBack;
    m.OkIsIn();
    NothingHidden(AllPending(m.players));
    m.MoveBoardToTray(0, 0, 0, -1, multiset{});
    NothingHidden(AllPending(m.players));
    BackInTray();
  }

  lemma BackInTray()
    ensures TakenBack(TwoLetters().rules, Player(0, 0, false, [], [PendingTile(0, 0, 0, false)], []), Pos(0, 0), -1)
            == Player(0, 0, false, [0], [], [PendingTile(0, 0, 0, false)])
  {
  }

  /** Redo takes the last tile of the tray when the one it wants isn't there. */
  method DownAgain(m: Model)
    requires m.setup == TwoLetters() && m.Valid() && m.Tracks() && m.Faithful() && Pos(0, 0) !in m.stones
    requires m.players == [Player(0, 0, false, [2], [], [PendingTile(0, 0, 0, false)])]
    modifies m`players, m.tiles
    ensures m.Valid() && m.Tracks() && m.Faithful() && |m.players| == 1
    ensures m.players[0].pending == [PendingTile(0, 0, 2, false)]
  {
    hide Model.CellsOk, AllPending, Hands, Scores, Replay, Drifted, PlayerOk, PlayerIn, Model.LogPool, RedoAll;
    m.OkIsIn();
    OnePlaceable(m.stones, PendingTile(0, 0, 0, false));
    var _, strayed := m.RedoPendingTiles(0);
    AnotherDown(m.stones);
  }

  lemma AnotherDown(stones: Stones)
    requires Pos(0, 0) !in stones && |Placeable(stones, [PendingTile(0, 0, 0, false)])| <= 1
    ensures RedoAll(TwoLetters().rules, stones, Player(0, 0, false, [2], [], [PendingTile(0, 0, 0, false)]), [PendingTile(0, 0, 0, false)])
              .pending == [PendingTile(0, 0, 2, false)]
  {
    assert [PendingTile(0, 0, 0, false)][..0] == [];
  }

  /** A tile is taken back and traded away; redo then puts down the tile that came in its place. */
  method TradeBreaksRedo() returns (m: Model, pool: Pool.Pool)
    ensures m.Valid() && m.Faithful() && m.InStep(pool) && |m.players| == 1
    ensures m.players[0].pending == [PendingTile(0, 0, 2, false)]
  {
    hide Model.Valid, Model.Tracks, Model.Faithful, Model.InStep, Pool.Bag, Pool.RemovalSafe, Squares, Placeable;
    m, pool := TwoLetterGame();
    Pool.SafeIffContained(pool.lettersLeft[..], [0]);
    AssignTiles(m, pool, 0, [0]);
    OnlyOne(m.players[0].tray, 0);
    DownAndBack(m);
    OneLeftInPool(pool.Contents());
    Pool.SafeIffContained(pool.lettersLeft[..], [2]);
    CommitTrade(m, pool, 0, [0], [2]);
    OnlyOne(m.players[0].tray, 2);
    DownAgain(m);
  }

  lemma OneLeftInPool(contents: multiset<Tile>)
    requires contents + multiset([0]) == multiset{0, 2}
    ensures multiset([2]) <= contents
  {
    assert (contents + multiset([0]))[2] == contents[2] + multiset([0])[2];
  }

  lemma OnlyOne(tray: seq<Tile>, t: Tile)
    requires multiset(tray) == multiset{t}
    ensures tray == [t]
  {
    assert |multiset(tray)| == |tray|;
    assert tray[0] in multiset(tray);
  }
}
