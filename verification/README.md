# Crosswords game core: a verified model

Crosswords is a Scrabble-like game whose rules, robot, storage and messaging are a shared C core under
`xwords4/common`. This project models that core in Dafny, in the form the C code has: records that are
updated in place are classes with the same fields, loops are loops, recursive searches are recursive
methods. Each method is proved against a specification, and the specifications are related by lemmas.

The modules, by subject:

- **Dictionary.** `Dawg` is the packed word graph. `TrieOrder` shows that the order of its paths is the
  order of words, `DictIter` walks it forwards and backwards, `WordList` is the ordered list both walks go
  through, `WordIndex` and `DictIndex` add the prefix index and access to the nth word. `Sanity` is the check
  made when a dictionary is opened. `Faces` parses typed strings into tiles.
- **Move generator.** `Grid` and `Legal` say what a legal placement is without reference to any search.
  `MoveSearch`, `MoveGeometry`, `AnchorSearch`, `SearchSpec` and `RowSearch` relate the search from anchors
  to that definition, `CrossChecks` the bits it consults, `Engine` is the search itself with its mutable
  rack, `BothWays` the drop of single tiles found by both passes, `BlankChoice` the placing of blanks,
  `MoveCache` the cache of the best moves, and `BestMove` all of these in one search. `RuleBook` says what a move
  is by the rules of the game, on the board before and after it, and that search and rules agree.
- **Game state.** `Score` and `Legality` judge moves, and `ScoreLaws` says what each bonus square
  adds. `GameLog` gives a log of entries its meaning and
  undoing its inverse, `Connected` is about the shape of the board, `TurnState` about pending tiles, `Pool`
  about the bag. `Model` is the live state: cells, trays, reference counts, scores and log. Its invariant
  `Tracks` says that the live game is the one its log describes but for scores, which may be off by a known
  amount for each player; `Faithful` says that they are not off. `GameState` describes each operation as a step of
  the game's state and proves what runs of steps keep, `GameRun` shows that the live model takes those steps, and
  `FindingRuns`, with the small games of `Findings`, holds runs on which operations fall short.
- **Storage.** `MemStream` is the bit stream, `StreamOps` mixtures of its puts and gets, `MoveStack` the log
  kept in it with its redo tail, and `LogStorage` shows that what a game logs fits there.
- **Messaging.** `Channel` is one end of a channel on values, `Comms` the queue and counters that implement
  it, `Protocol` two ends joined by an unreliable network, one of which may crash.
- **Small structures.** `BufQueue` is a byte queue, `BoardDims` the sharing of pixels among cells, and
  `Division` what the project needs of whole-number division.

`dafny verify dfyconfig.toml` checks the whole project.

## Where the code falls short

Each of these has an input, as a lemma or as a run of the operations, beside the exact condition under which
the code does what it is for.

- **A kept score can be out of date.** Undoing or rejecting a move sets the score kept for its player to zero
  and marks it valid, and leaves the scores kept for the others as they are. A pending turn of theirs keeps the
  score it had with the undone word on the board, and committing it adds that score, while a replay of the log
  figures it again (`UndoLeavesScoreStale`). One commit keeps the live game equal to the replay if and only if
  the score kept is up to date (`ModelCommitTurn`). Scores that are up to date stay so through every operation
  but undoing and rejecting, and through these if and only if no other player's valid score is of tiles that were
  worth something else with the stones that came off (`StepCurrent`, `RestedCurrent`). The error of a commit is the
  score kept less what the turn is worth on the board it is committed to; over a run, live game and log stay in
  agreement if and only if the errors of each player's commits sum to zero (`RunAgreesIff`, and `Run` for the live
  model), and there are none when scores were right at first and nothing undone made one wrong (`RunCurrentIff`,
  `CleanRunAgrees`). A debug build refigures scores more often; the release build is modelled.
- **Undoing can stop half way.** An undo that meets an assignment of first tiles reports failure and puts the
  log back, but not the board, the trays and the pool. They still agree if and only if the entries undone on
  the way had changed nothing (`UndoLatestMoves`, `StrandedIff`, `UndoPastAssignment`). Cutting a log to a hash
  from another device ends in such an undo when an assignment lies above the hash (`PopToHash`).
- **Redo can put two tiles on one square.** A pending tile may be moved onto a square its owner has taken a
  tile back from; resetting and redoing then puts both there and counts the player twice. The counts come out
  right if and only if the square is not such a one (`MoveTileOnBoard`, `MoveResetRedo`, `RedoCanDouble`).
- **Redo can put down other tiles.** A reset and a redo give back the same placements if and only if nothing
  taken back earlier finds its square free (`ResetThenRedo`), and a redo puts down the very tiles taken back if
  and only if they are all in the tray (`RedoneIff`). Only trades and undoing can take them from it (`StepKeeps`,
  `RunKeepsUndone`); the code then takes the last tile of the tray (`TradeBreaksRedo`), or, exactly when there
  are fewer tiles in it than are to be put down, reads before it (`RedoPendingTiles`).
- **Some blank choices are offered twice**, exactly when two blanks stand for the same letter
  (`OncePerChoiceIff`, `TwoBlanksOneLetter`).
- **A search by position can stray.** When every word is shorter than the indexed prefixes the index is empty
  (`EmptyIndexIff`), and a search that has to use it reads before its arrays; it has to exactly when it is not
  on the word sought or next to it (`GetNthWord`, `ShortWordsStray`). Reading one entry past the last does not
  matter (`ClosestRank` holds whatever is there).
- **Parsing takes the first face that matches** (`FirstCanMiss`). Of a given string no spelling is lost if and only
  if, at each place the parser gets to, what can follow another matching face of a tile can follow the first
  (`NoneLostInIff`, `TilesForString`), which takes only the faces and the string to find out. None is lost of any
  string if and only if what the first match leaves can still be spelled by the same tiles, whatever face was meant
  and whatever follows (`NothingLostIff`). That is so when no two faces of a tile begin one another, or when the
  first match always leaves as much as the face meant (`LengthsSuffice`), though neither is needed (`LongerFirst`,
  `AnotherReading`); it is never so when a face comes before another that it begins (`ShorterFirstLoses`).
- **The check of a dictionary file takes a first tile for an end mark** (`UnendedRunPasses`), and leaves
  unchecked what `SoundIffPassedAnd` lists.
- **Writing bytes into the middle of a stream ends the stream there** (`PutBytes`, `MiddleIsTheEnd`).
- **Popping to a hash may answer yes without popping**, when the log has no more entries than there are
  players (`PopToHash`, `HashFoundNothingPopped`).

## Model

| member | source | states |
|---|---|---|
| `Dawg.EdgeWithTile` | xwords4/common/dictnry.c:1053-1071 | the one edge of a node that carries the tile, or NULL exactly when no sibling carries it; siblings being sorted makes that edge unique |
| `Dawg.NodeOrder` | xwords4/common/dictnry.c:1094-1134 | within one node, array order is tile order and a tile decides its edge, so a scan may stop at the first match |
| `Dawg.Lookup` | xwords4/common/engine.c:622-643 | true exactly when the letters spell an accepted continuation of the node |
| `Dawg.AcceptsAfterWalk` | xwords4/common/dictnry.c:1044-1071 | walking a prefix first and then asking about the rest is the same as asking about the whole word |
| `Dawg.AcceptedLength` | xwords4/common/dictiter.h:36-48 | no accepted word is longer than the acyclicity certificate of its node, so every word fits an iterator buffer |
| `Sanity.CheckSanity` | xwords4/common/dictnry.c:1094-1134 | answers yes exactly when every tile and child index is in range, siblings do not descend, and the last edge is marked last or carries tile 0 |
| `Sanity.SoundIffPassedAnd` | xwords4/common/dictnry.c:1094-1134 | a graph has everything the walkers need if and only if the check passes and four named things it does not look at hold: siblings differ, the array ends a run, children begin runs, no cycle |
| `Sanity.UnendedRunPasses` | xwords4/common/dictnry.c:1128-1130 | the check accepts an array whose last run has no end mark when that run is of the first tile; no choice of root or ranks makes such an array usable |
| `TrieOrder.PathOrderIsWordOrder` | xwords4/common/dictiter.c:82-109 | comparing edge paths is comparing words: strict order and equality both agree |
| `TrieOrder.PathAccepts` | xwords4/common/dictiter.c:59-63 | the word spelled by a path is accepted exactly when its last edge is marked accepting |
| `TrieOrder.AcceptedHasPath` | xwords4/common/dictiter.c:82-109 | every accepted continuation of a path is spelled by a longer path ending on an accepting edge |
| `DictIter.DictIter.NextWord` | xwords4/common/dictiter.c:82-109 | from any path, on a word or not, moves to the least accepted word within the length limits that comes after it, or fails exactly when there is none; terminates |
| `DictIter.DictIter.LastEdges` | xwords4/common/dictiter.c:121-144 | goes from a node to the last path below it: every edge added is the last of its node, and it stops at a leaf or at the length limit |
| `DictIter.DictIter.PrevWord` | xwords4/common/dictiter.c:146-177 | moves to the greatest accepted word that comes before, or fails exactly when there is none; terminates |
| `DictIter.DictIter.FirstWord` | xwords4/common/dictiter.c:245-256 | the least word of all, or failure exactly when there is no word within the limits |
| `DictIter.DictIter.LastWord` | xwords4/common/dictiter.c:489-503 | the greatest word of all, or failure exactly when there is no word within the limits |
| `WordList.EntriesComplete` | xwords4/common/dictiter.c:82-109 | the list the iterator walks holds exactly the accepted paths within the limits, strictly increasing, so each once |
| `WordList.WordsComplete` | xwords4/common/dictiter.c:258-279 | the same as words: strictly increasing in tile order and exactly the accepted words with length in [min, max] |
| `WordList.NextIsSuccessor` | xwords4/common/dictiter.c:82-109 | a forward step from entry k is entry k+1, and failure means k was the last |
| `WordList.PrevIsPredecessor` | xwords4/common/dictiter.c:146-177 | a backward step from entry k is entry k-1, and failure means k was 0; with NextIsSuccessor the two steps undo one another |
| `WordList.FirstAndLast` | xwords4/common/dictiter.c:245-256 | the first step lands on entry 0, the last word is the last entry, and failure means an empty list |
| `DictIndex.Next` | xwords4/common/dictiter.c:82-109 | the iterator standing on word k moves to word k+1, failing exactly at the end |
| `DictIndex.Prev` | xwords4/common/dictiter.c:146-177 | the iterator standing on word k moves to word k-1, failing exactly at the start |
| `DictIndex.DiGetNextWord` | xwords4/common/dictiter.c:478-487 | the same step with the position counted on, so that the position reported stays that of the word stood on; failure leaves it |
| `DictIndex.DiGetPrevWord` | xwords4/common/dictiter.c:505-514 | and backwards |
| `DictIndex.CountWords` | xwords4/common/dictiter.c:258-279 | the number of words within the limits and, for each length, the number of that length |
| `DictIndex.FindStartsWithTiles` | xwords4/common/dictiter.c:179-197 | stands on the path spelling the tiles; failure means no word begins with them, whatever step a missing edge was met at |
| `DictIndex.FindWordStartsWith` | xwords4/common/dictiter.c:209-220 | stands on the first word in order that begins with the tiles; failure means there is none |
| `WordIndex.RanksIncrease` | xwords4/common/dictiter.c:369-391 | first words of differing prefixes of one length are ranked as the prefixes are, whatever lies between |
| `WordIndex.OneIndexed` | xwords4/common/dictiter.c:369-391 | entering a prefix that occurs, with the rank of its first word, extends an index that is complete so far to one complete so far |
| `WordIndex.AllIndexed` | xwords4/common/dictiter.c:393-408 | having gone through every face leaves a complete index: exactly the occurring prefixes, each with its true rank |
| `DictIndex.IndexOne` | xwords4/common/dictiter.c:369-391 | enters one prefix with the rank of its first word, counted forward from the last one indexed, and keeps the index complete so far; a prefix that does not occur changes nothing |
| `DictIndex.CatchUp` | xwords4/common/dictiter.c:369-391 | counting forward from the last indexed word arrives at the sought word with its true rank and never runs off the end |
| `DictIndex.DoOneDepth` | xwords4/common/dictiter.c:393-408 | the recursion over faces indexes every occurring prefix below the one given, in order, within the room the caller reserved |
| `DictIndex.MakeIndex` | xwords4/common/dictiter.c:410-457 | the arrays end up holding every prefix of that length that occurs, with strictly increasing true ranks of first words |
| `WordIndex.EmptyIndexIff` | xwords4/common/dictiter.c:410-457 | the index comes out empty if and only if every word is shorter than its prefixes |
| `DictIndex.ClosestRank` | xwords4/common/dictiter.c:310-335 | the bisection ends on an index entry at least as near to the position as any other, whatever value stands after the last entry |
| `DictIndex.PlaceWordClose` | xwords4/common/dictiter.c:310-344 | stands on the first word of the indexed prefix nearest to the position and knows its rank, or strays before its arrays exactly when every word is shorter than the prefixes |
| `DictIndex.DiFirstWord` | xwords4/common/dictiter.c:465-476 | stands on word 0 with the words counted, or fails exactly when there are none |
| `DictIndex.DiLastWord` | xwords4/common/dictiter.c:489-503 | stands on the last word with its position, or fails exactly when there are none |
| `DictIndex.StartWithoutIndex` | xwords4/common/dictiter.c:556-572 | without an index the walk starts from the first, the current or the last word, and the position it reports is true |
| `DictIndex.Walk` | xwords4/common/dictiter.c:575-590 | stepping from one position to another, either way, arrives and no step fails |
| `DictIndex.GetNthWord` | xwords4/common/dictiter.c:519-595 | stands on exactly the word of that position in the ordered list, by index, by neighbouring step or by walk, exactly when there is one, except that it strays exactly when it has to use an index in which nothing could be entered; short of success nothing has moved |
| `DictIndex.ShortWordsStray` | xwords4/common/dictiter.c:310-344 | a dictionary of one word of one letter, indexed by prefixes of two: asking for its first word strays |
| `MoveSearch.SuppliesIffCanSupply` | xwords4/common/engine.c:1030-1053 | taking tiles one at a time, a blank only when the real tile has run out, succeeds exactly when some division of the tiles into real ones and blanks exists |
| `MoveSearch.ExtendsMeaning` | xwords4/common/engine.c:949-1028 | the recursive rightward search accepts a string of tiles exactly when they land within the row and the limit, pass the cross-checks, can be supplied, and the letters read off the row continue to a word |
| `MoveSearch.ExtendsBothMeaning` | xwords4/common/engine.c:915-947 | the same for the search that lays some tiles left of the anchor first |
| `AnchorSearch.LegalIff` | xwords4/common/engine.c:843-881 | a placement is legal in its row exactly when what the walk from the top checks holds of it: the run before it, the letters read, the cross-checks, the limit and the rack |
| `AnchorSearch.AnchorFindsExactly` | xwords4/common/engine.c:843-881 | a placement is legal in its row with this anchor as its leftmost if and only if the search from this anchor considers a candidate that lands as it |
| `RowSearch.RowComplete` | xwords4/common/engine.c:575-620 | a list of what the anchors of a row yield holds each legal placement of the row once and nothing else |
| `RowSearch.NoMovesOffStar` | xwords4/common/engine.c:503-505 | on an empty board no placement off the row of the star is legal, so skipping the other rows loses nothing |
| `CrossChecks.CrossOkByWalk` | xwords4/common/engine.c:645-757 | prefix + tile + suffix is a word exactly when, after one walk of the prefix, the tile and the suffix are accepted |
| `RuleBook.RulesIff` | xwords4/common/engine.c:795-823 | what the search takes for legal is what the rules allow, said on the board before and after: tiles on bare squares of one line without a gap, every run of two or more through a new tile a word, and the centre covered on a bare board or an earlier tile touched, as the scorer sees it, on any other |
| `RuleBook.AnchoredIff` | xwords4/common/engine.c:795-823 | that some new tile is on an anchor is that the move, as the scorer takes it, touches an earlier tile, or on a bare board that it covers the centre |
| `RuleBook.WordsIff` | xwords4/common/engine.c:645-757 | main word and cross-checks in the dictionary is every run of two or more through a new tile in the dictionary, and a lone tile a word by itself |
| `RuleBook.ScorerAccepts` | xwords4/common/mscore.c:418-527 | the scorer accepts every such move but an opening of one tile |
| `Engine.Engine.constructor` | xwords4/common/engine.c:187-200 | a new engine has nothing in the tray and nothing found, and arrays of the sizes the search relies on |
| `Engine.Engine.InitTray` | xwords4/common/engine.c:245-260 | the rack ends as the number of each tile in the tray, and is left alone when there are no tiles |
| `Engine.Engine.BeginSearch` | xwords4/common/engine.c:398-456 | a search can be made exactly when there are tiles and words; the engine is then as a search needs it, with the tray counted and no move longer than a full tray |
| `Engine.Engine.RackRemove` | xwords4/common/engine.c:1030-1053 | takes the real tile if there is one, a blank if not, and says which; fails without change when there is neither |
| `Engine.Engine.RackReplace` | xwords4/common/engine.c:1055-1065 | puts back what RackRemove took and counts tiles and blanks back |
| `SearchSpec.PutBackUndoesTake` | xwords4/common/engine.c:1030-1065 | taking a tile and putting it back leaves the rack as it was, for a real tile and for a blank |
| `Engine.Engine.FigureCrosschecks` | xwords4/common/engine.c:645-757 | bit t is set exactly when prefix + t + suffix is in the dictionary, every bit when nothing adjoins, and the score is what the neighbouring tiles are worth |
| `Engine.Engine.CheckCandidates` | xwords4/common/engine.c:734-751 | among all tiles, those set are exactly those that lead out of the node and on through the suffix to a word |
| `Engine.Engine.IsAnchorSquare` | xwords4/common/engine.c:795-823 | true exactly for an empty square beside a filled one, or the star of an empty board |
| `Engine.Engine.ConsumeFromLeft` | xwords4/common/engine.c:883-913 | follows the tiles standing just left of the anchor down into the dictionary |
| `Engine.Engine.ConsiderMove` | xwords4/common/engine.c:1067-1105 | hands on the tiles laid paired with the bare squares they land on, with the blanks used |
| `Engine.Engine.ExtendRight` | xwords4/common/engine.c:949-1028 | hands on, once each, every continuation to the right and nothing else, reading the cross-check bit of each tile from the right word, and leaves rack, limit, blanks and tiles laid as they were |
| `Engine.Engine.LeftPart` | xwords4/common/engine.c:915-947 | the same for continuations that lay tiles leftwards first, up to the limit |
| `Engine.Engine.FindMovesForAnchor` | xwords4/common/engine.c:843-881 | hands on, once each, exactly the candidates that have this anchor as the leftmost covered; rack, limit and blanks end as they began |
| `Engine.Engine.FindMovesOneRow` | xwords4/common/engine.c:575-620 | hands on each legal placement of the row exactly once and nothing else, with cross-checks and cached scores right for every square |
| `Engine.Engine.FindMoves` | xwords4/common/engine.c:462-522 | along rows and along columns finds exactly the moves that the rules of the game allow, touching earlier tiles or covering the centre of a bare board, each once; the rack ends as it began |
| `BothWays.DroppedIsAcross` | xwords4/common/engine.c:1122-1150 | a single-tile move that the pass down the columns drops, because it makes a word each way, is handed on by the pass along the rows, on the same square |
| `BothWays.OncePerMove` | xwords4/common/engine.c:1122-1150 | over both passes every legal move is handed on, and by both passes only when it is a single tile that is a word by itself |
| `BothWays.ExactlyOnePass` | xwords4/common/engine.c:1122-1150 | where no single letter is a word, every legal move is handed on by exactly one of the two passes |
| `BlankChoice.ConsiderBlanks` | xwords4/common/engine.c:1116-1192 | marks and unmarks the move in place and leaves it as it was, handing on the list of choices the next rows characterise |
| `BlankChoice.ChoicesExact` | xwords4/common/engine.c:1167-1191 | the choices handed on are exactly the ways to mark tiles so that the marked letters are the letters the blanks stand for |
| `BlankChoice.OncePerChoiceIff` | xwords4/common/engine.c:1167-1191 | no choice is handed on twice if and only if no two of the blanks stand for the same letter |
| `BlankChoice.TwoBlanksOneLetter` | xwords4/common/engine.c:1167-1191 | two tiles of one letter that are both blanks come up twice |
| `BlankChoice.BlanksOfPlacement` | xwords4/common/engine.c:1067-1192 | for every placement the rack can supply there is at least one choice, and the choices are exact |
| `MoveCache.ReplaceLeast` | xwords4/common/engine.c:1194-1277 | giving up the least of a full set of greatest moves for a better one keeps it the set of greatest moves |
| `MoveCache.AbsorbsGreatest` | xwords4/common/engine.c:1194-1277 | one more candidate, kept or not, leaves the set kept the greatest of all that have come by |
| `MoveCache.MoveCache.SaveMoveIfQualifies` | xwords4/common/engine.c:1194-1277 | keeps the candidate if it scores and is below the limit and there is a free entry or a lesser move to give way; otherwise keeps what there was |
| `MoveCache.MoveCache.Search` | xwords4/common/engine.c:1194-1277 | after a search the entries hold the greatest NUM_SAVED_ENGINE_MOVES positive candidates below the limit |
| `MoveCache.MoveCache.BubblePass` | xwords4/common/engine.c:311-333 | each pass settles one more place and keeps the same moves; no exchange means sorted |
| `MoveCache.MoveCache.SortSaved` | xwords4/common/engine.c:311-333 | the same moves, by ascending score and, where scores are equal, by ascending bytes |
| `MoveCache.MoveCache.InitMoveCache` | xwords4/common/engine.c:1298-1320 | counts the moves at the high end of the sorted entries; those counted are exactly the ones kept |
| `MoveCache.MoveCache.SetSearchLimits` | xwords4/common/engine.c:1279-1296 | the next search stays below the least move of the batch, or begins afresh when there was none |
| `MoveCache.NextBatch` | xwords4/common/engine.c:1279-1338 | the next batch comes after all of the one before, so the list handed out keeps descending and misses nothing |
| `MoveCache.NothingLeft` | xwords4/common/engine.c:1279-1338 | when the search below a used-up batch keeps nothing, every positive candidate has been handed out |
| `MoveCache.MoveCache.EngineFindMove` | xwords4/common/engine.c:379-573 | successive calls hand out candidates in non-increasing order, none more often than it occurs; the list begins again only after every positive candidate was handed out, and there is no answer exactly when there is none |
| `BestMove.HandedOnSomehow` | xwords4/common/engine.c:1122-1150 | each legal placement with its blanks chosen, or the same tile taken to run the other way, is handed on and is worth the same |
| `BestMove.FindFirst` | xwords4/common/engine.c:379-573 | search, choice of blanks, scoring and cache together: the first move offered is allowed by the rules and accepted by the scorer, with its blanks rightly chosen and at its true score, and no move the rules allow with any choice of blanks scores more; none is offered only if none of them scores at all |
| `BestMove.ForTray` | xwords4/common/engine.c:379-573 | the same from a new engine and the tiles of a tray: nothing without tiles or words, or else a move by the rules that can be committed, at its true score, that none beats, or none when nothing scores |
| `BestMove.OfferedIsAccepted` | xwords4/common/mscore.c:418-527 | a move by the rules that scores anything is accepted by the scorer |
| `BestMove.BlanksAsNeeded` | xwords4/common/engine.c:1030-1053 | for each letter as many blanks are taken as the rack has too few of it |
| `BestMove.WithinTray` | xwords4/common/engine.c:399-399 | a move the tray can supply has no more tiles than the tray |
| `BestMove.LentCacheIsRight` | xwords4/common/engine.c:645-757 | the crosswise scores worked out for a row are right wherever a legal move of the row has a tile |
| `Score.FindStart` | xwords4/common/mscore.c:788-804 | the start of the maximal run of tiles that the square ends |
| `Score.FindEnd` | xwords4/common/mscore.c:806-831 | the end of the maximal run of tiles that begins after the square |
| `Score.ScoreWord` | xwords4/common/mscore.c:633-786 | adding the word up, and taking the rest of it from the cache the move generator lends, both give the word score: letter multipliers under new tiles only, nothing for a single letter |
| `Score.FigureMoveScore` | xwords4/common/mscore.c:529-603 | the main word times its multiplier, plus every crossing word times its own, plus the bonus for a full tray, with a cache that is right at the squares of the move or without one |
| `Score.ScoreIgnoresOwnSquares` | xwords4/common/mscore.c:98-114 | two boards that differ only on the squares of the move give it the same score: figuring before or after the tiles are down is the same |
| `Score.CachedScore` | xwords4/common/mscore.c:685-783 | the score recomputed for a crossing word is the cached score of its neighbours plus the new tile with its letter multiplier, or 0 when nothing adjoins |
| `ScoreLaws.ScoreParts` | xwords4/common/mscore.c:529-603 | a score is the word along the move, each word across it, and 50 points for seven tiles |
| `ScoreLaws.PlainScore` | xwords4/common/mscore.c:633-783 | with no bonus square under a new tile each word counts the values of its letters, a blank what the blank is worth, and a single letter nothing |
| `ScoreLaws.WordBonus` | xwords4/common/mscore.c:605-617 | a double word square under a new tile doubles, and a triple triples, the word along the move and the word across it there, and nothing else |
| `ScoreLaws.LetterBonus` | xwords4/common/mscore.c:619-631 | a double letter square adds the value of the tile once more, and a triple twice more, to each word the tile is part of |
| `ScoreLaws.ElsewhereBonus` | xwords4/common/mscore.c:633-783 | a bonus square with no new tile on it changes no score |
| `Legality.TilesInLine` | xwords4/common/mscore.c:314-338 | yes exactly when all pending tiles share a row or share a column; a single tile counts as vertical |
| `Legality.NormalizeMI` | xwords4/common/mscore.c:340-368 | the same tiles in strictly ascending order of coordinate |
| `Legality.IsLegalMove` | xwords4/common/mscore.c:418-527 | yes exactly when the tiles leave no gap and either touch an earlier tile or are at least two with one on the star; on a bare board exactly when they are two or more, side by side, one of them on the centre |
| `Legality.GapTouches` | xwords4/common/mscore.c:448-464 | a move longer than its tiles without a gap runs over an earlier tile, so the branch that does not look for contact is right |
| `Legality.LegalIgnoresOwnSquares` | xwords4/common/mscore.c:394-404 | legality, like the score, is the same whether or not the move is already on the board |
| `GameLog.UndoInvertsCommit` | xwords4/common/model.c:935-1082 | taking back a move, trade or phony gives exactly the game before: stones with owners, every hand, every score and the pool |
| `GameLog.PoppedReplay` | xwords4/common/model.c:481-552 | replaying a log without its last entry is undoing that entry of the replayed game |
| `GameLog.ReplayWellFormed` | xwords4/common/model.c:540-552 | every game a log describes has its stones on the board and a hand and a score for each player |
| `GameLog.Conserved` | xwords4/common/model.c:481-552 | for every letter: pool, hands and board together hold exactly what the set had, after any log |
| `GameLog.WithinLetters` | xwords4/common/pool.c:217-229 | neither the pool nor any hand ever holds more of a letter than the set |
| `GameLog.LaidInBetween` | xwords4/common/model.c:481-552 | a log and a beginning of it describe different games when a move with tiles lies in between |
| `GameLog.PhoniesInBetween` | xwords4/common/model.c:481-552 | and the same game when only phonies do |
| `GameLog.ApplyDrifted` | xwords4/common/model.c:1909-1922 | adding an entry or taking one back changes a game whose scores are off just as it changes the one they are off from |
| `Connected.MoveKeepsRegion` | xwords4/common/mscore.c:418-527 | a legal move keeps the occupied squares empty or one connected region that holds the star |
| `Connected.AlwaysOneRegion` | xwords4/common/mscore.c:418-527 | so after any log, undone entries included since undoing is a shorter log |
| `Connected.NeverOneStone` | xwords4/common/mscore.c:498-510 | after no log is there just one stone on the board |
| `Connected.StarOpens` | xwords4/common/engine.c:445-448 | in every game a log describes the star is bare only when the board is, which is what the move generator takes for granted |
| `Pool.BagSize` | xwords4/common/pool.c:93-120 | the number of tiles left is the sum over the letters |
| `Pool.SafeIffContained` | xwords4/common/pool.c:196-229 | removing the tiles one at a time never meets a used-up letter exactly when the tiles are all in the pool |
| `Pool.Pool.GetNthPoolTile` | xwords4/common/pool.c:93-120 | with the tiles laid out letter by letter, the letter at that index; it always finds one |
| `Pool.Pool.GetRandomTile` | xwords4/common/pool.c:122-144 | draws the tile at the random index and leaves the pool without it |
| `Pool.Pool.RequestTiles` | xwords4/common/pool.c:146-173 | as many tiles as wanted or all there are; pool and tiles together are the pool before |
| `Pool.Pool.ReplaceTiles` | xwords4/common/pool.c:181-193 | the pool gains exactly the tiles returned |
| `Pool.Pool.RemoveTiles` | xwords4/common/pool.c:195-214 | the pool loses exactly the tiles |
| `Pool.Pool.ContainsTiles` | xwords4/common/pool.c:216-229 | yes exactly when RemoveTiles is safe, which is when the pool has them all |
| `TurnState.RefcountIsPlayers` | xwords4/common/model.c:1770-1821 | counting pending tiles on a square is counting the players who have one there |
| `TurnState.PutIsPlace` | xwords4/common/model.c:1880-1903 | committing tiles in the order they were put down gives the same stones as committing the ordered move |
| `TurnState.ScoredWhenPlaced` | xwords4/common/model.c:1905-1909 | the score of a turn is the same before its tiles are committed and after |
| `TurnState.MoveOfPendingOf` | xwords4/common/model.c:1279-1308 | a logged move put on the board again is read back as the same move |
| `Model.Model.constructor` | xwords4/common/model.c:93-117 | an empty model is faithful to the empty log |
| `Model.Model.CellCountsPlayers` | xwords4/common/model.c:1770-1821 | every cell is exactly one of bare, committed, or pending with a count equal to the number of players holding a tile there |
| `Model.Model.MoveTrayToBoard` | xwords4/common/model.c:1521-1559 | the tile leaves its slot of the tray for the square, last of those pending, nothing else of any player changes, and no hand, score or stone does |
| `Model.Model.MoveBoardToTray` | xwords4/common/model.c:1632-1682 | the tile on the square returns to the slot asked for, or the last, as the rack tile it was, and is remembered first for redo; the other tiles keep their order |
| `Model.Model.ResetCurrentTurn` | xwords4/common/model.c:1722-1736 | everything pending goes back, remembered in reverse order |
| `Model.Model.RedoPendingTiles` | xwords4/common/model.c:1590-1630 | puts down again what was taken back, in order, except on squares committed since, taking the last tile of the tray where the one wanted is gone, and says whether anything was put down; it strays before the tray exactly when there are fewer tiles in it than squares to fill |
| `Model.Model.ResetThenRedo` | xwords4/common/model.c:1590-1736 | reset followed by redo gives back the same placements if and only if nothing the player had taken back earlier finds its square free; if something does, it comes down too, or the redo strays when the tray runs out |
| `TurnState.RedoneSquares` | xwords4/common/model.c:1590-1630 | whatever is in the tray, redo fills exactly the squares of what was taken back that are still free, and keeps hand and score |
| `TurnState.RedoneIff` | xwords4/common/model.c:1590-1630 | redo puts down the very tiles taken back if and only if those that find their squares free are all in the tray |
| `FindingRuns.TradeBreaksRedo` | xwords4/common/model.c:1607-1616 | a run: a tile is taken back and traded away, and redo then puts down the tile drawn in its place |
| `Model.Model.MoveTileOnBoard` | xwords4/common/model.c:1684-1720 | the pending tile changes square and nothing else changes; no two tiles of the player claim one square afterwards if and only if the new square is not one he took a tile back from |
| `GameRun.MoveResetRedo` | xwords4/common/model.c:1590-1720 | after moving a tile, a reset and a redo, the count kept for every square is the number of players with a tile there if and only if the new square is not one the player had taken a tile back from, unless the redo strays |
| `FindingRuns.RedoCanDouble` | xwords4/common/model.c:1590-1720 | a run in which it is one: two tiles of one player on one square, counted twice |
| `Model.Model.PutBackOtherPlayersTiles` | xwords4/common/model.c:1823-1835 | everything other players have pending on the square is back in their trays, and nothing else of theirs moves |
| `Model.Model.PlacePending` | xwords4/common/model.c:1880-1903 | the pending tiles become stones of the player, rivals on those squares are cleared, and no hand or score changes |
| `Model.Model.ShownIsBoard` | xwords4/common/model.c:679-716 | the board shown with pending tiles left out is the board of committed stones |
| `Model.Model.NormalizeMoves` | xwords4/common/mscore.c:370-392 | the pending tiles as one ordered move along their line |
| `Model.Model.CheckScoreMove` | xwords4/common/mscore.c:254-312 | the score of the pending tiles if they are in line and legal, 0 for none, -1 otherwise |
| `Model.Model.GetCurrentMoveScoreIfLegal` | xwords4/common/mscore.c:132-146 | the score kept if it is marked valid, otherwise figured and kept |
| `Model.Model.CommitTurn` | xwords4/common/model.c:1849-1922 | stones, trays, pending tiles, scores and log of every player after a commit, with the rivals' tiles returned and every other score kept marked stale |
| `Model.Model.ModelCommitTurn` | xwords4/common/model.c:1924-1929 | logs the turn; the player's score goes off from the replay by exactly the score kept less what the turn is worth, so the live game stays equal to the replay if and only if the score kept was up to date |
| `FindingRuns.UndoLeavesScoreStale` | xwords4/common/mscore.c:98-146 | a run: tiles are dealt, two words committed, a tile of the other player scored, the second word undone and the tile committed at the score kept; the live game is then not the one the log describes |
| `GameState.StepOff` | xwords4/common/model.c:1590-2113 | one operation puts a player's score off what the log gives by exactly the error of the operation: the score kept less what the pending tiles are worth if it is his commit, and nothing otherwise |
| `GameState.StepCurrent` | xwords4/common/model.c:1590-2113 | where every score kept was right a commit is without error, and after an operation they are right if and only if it was not an undo or a rejection that takes stones off under tiles, of a player other than those undone, whose valid kept score is worth something else without the stones |
| `GameState.RestedCurrent` | xwords4/common/model.c:935-1082 | where every score kept was right, they are right after an undo or a rejection if and only if no valid score of a player whose entries were not undone is of tiles that were worth something else with the stones taken off |
| `GameState.StepKeeps` | xwords4/common/model.c:1590-2113 | only a trade, an undo or a rejection can take from a tray a tile its owner took back |
| `GameState.RunOff` | xwords4/common/model.c:1590-2113 | over a run a score goes off by the sum of the errors of its player's commits |
| `GameState.ScoresAddUp` | xwords4/common/model.c:1844-1960 | a score, as a log gives it, is the sum of what the player's moves in it scored, each on the board it was laid on |
| `GameState.RunAgreesIff` | xwords4/common/model.c:1590-2113 | from a game that agrees with its log, the last state of a run agrees with its log if and only if the errors of each player's commits, worked out from the states the run goes through, sum to zero |
| `GameState.RunCurrentIff` | xwords4/common/model.c:1590-2113 | every score kept is right all through a run if and only if all are at first and no undo or rejection in it took stones off under another player's kept score |
| `GameState.CleanRunAgrees` | xwords4/common/model.c:1590-2113 | such a run, from a game that agrees with its log, commits every turn at what it is worth and ends in agreement with its log |
| `GameState.RunKeepsUndone` | xwords4/common/model.c:1684-1720 | over a run without trades and undoing a tile taken back stays in its owner's tray |
| `GameState.LiveConserved` | xwords4/common/model.c:1590-2113 | for each letter what the log leaves in the pool, the trays, the pending tiles and the stones together are what the set had |
| `GameRun.Step` | xwords4/common/model.c:1590-2113 | each operation on the live model takes its state where the step of that operation says: the whole new state for all but the order in a tray, and for undoing and rejecting the board, hands and log by replay, the players undone by name |
| `GameRun.Run` | xwords4/common/model.c:1590-2113 | a whole run of operations on the live model goes through the states returned, each a step from the one before; at its end the live game is the one its log describes if and only if the errors of the commits in those states cancel, which they do when scores were right and nothing undone made one wrong; and no tile is lost |
| `GameRun.PoolConserved` | xwords4/common/pool.c:81-300 | for each letter, pool, trays, pending tiles and stones of a live game hold together what the set had |
| `Model.Model.MakeTileTrade` | xwords4/common/model.c:1963-1979 | each old tile gives its place to the new one, the last place it stands in, and the tray is otherwise the same |
| `TurnState.OthersStay` | xwords4/common/model.c:1958-1979 | in a trade a tile not traded stays where it is, and where the tile has changed a new one stands |
| `Model.Model.ModelMakeTileTrade` | xwords4/common/model.c:1981-1988 | trading keeps the live game equal to the replay |
| `Model.Model.ModelAssignPlayerTiles` | xwords4/common/model.c:2102-2113 | assigning tiles keeps the live game equal to the replay |
| `Model.Model.ReplaceNewTiles` | xwords4/common/model.c:874-893 | the drawn tiles leave the tray and the pool gains exactly them |
| `Model.Model.TakeOffBoard` | xwords4/common/model.c:840-870 | the tiles of the move leave the board and come back to the tray, blanks as blanks |
| `Model.Model.AdjustScoreForUndone` | xwords4/common/mscore.c:98-114 | takes off what the move is worth on the board without it, which is what was added; the score kept for a turn becomes zero and valid |
| `Model.Model.UndoMove` | xwords4/common/model.c:975-981 | board, hands, scores and pool are exactly those of the game before the move; the player's kept score is zero and marked valid |
| `Model.Model.UndoTrade` | xwords4/common/model.c:987-993 | hands and pool are exactly those of the game before the trade |
| `Model.Model.UndoLatestMoves` | xwords4/common/model.c:935-1082 | succeeds exactly under the stated bounds and when no assignment of first tiles is reached; it then shortens the log to the height or by the number asked for, keeps live game, pool and log in agreement and changes nobody but the players of the entries undone. Reaching an assignment it fails, and live game, pool and log then agree if and only if the entries undone on the way had changed nothing |
| `Model.Model.UndoOne` | xwords4/common/model.c:948-1001 | one step of undoing: the entry comes off the log, its player's pending tiles go back first, no other player changes; an assignment comes off the log and leaves the game as it was |
| `Model.Model.StrandedIff` | xwords4/common/model.c:1066-1074 | with the log put back, log and game agree if and only if the log says the same without what was undone |
| `FindingRuns.UndoPastAssignment` | xwords4/common/model.c:993-1078 | a run: undoing two entries, the second an assignment, fails with the log as it was and a word gone from the board |
| `Model.Model.RejectPreviousMove` | xwords4/common/model.c:897-918 | the last move is undone and logged as a phony of the same player; live game, pool and log agree, and no other player changes |
| `Model.Model.PopToHash` | xwords4/common/model.c:330-380 | yes exactly when some beginning of the log has the hash; then, in a log longer than the players, the log is cut to the longest such beginning and the live game is the one it describes, or, when an assignment lies in between, all is as after an undo that meets one |
| `FindingRuns.HashFoundNothingPopped` | xwords4/common/model.c:360-380 | a run: a hash that only an earlier state has is found, and nothing is popped |
| `Model.Model.FindHash` | xwords4/common/model.c:338-359 | popping until the hash fits and redoing everything popped leaves the log as it was and finds the longest beginning that has it |
| `Model.Model.MakeTurnFromMoveInfo` | xwords4/common/model.c:1279-1308 | the tiles of a logged move go from tray to board as pending tiles |
| `Model.Model.ModelAddEntry` | xwords4/common/model.c:481-538 | replaying one entry on a live model has exactly the effect of the entry |
| `Model.Model.BuildModelFromStack` | xwords4/common/model.c:540-552 | built on an empty model, the game is exactly the one the log describes |
| `Model.CommitMove` | xwords4/common/server.c:3565-3594 | drawing from the pool and committing keeps model, log and pool in agreement |
| `Model.CommitTrade` | xwords4/common/server.c:3619-3648 | drawing, trading and returning keeps model, log and pool in agreement |
| `Model.Rebuild` | xwords4/common/model.c:540-552 | a model rebuilt from the log of a live one has the same stones with owners, hands and scores |
| `Comms.Comms.CommsSend` | xwords4/common/comms.c:1251-1279 | on its channel the send step: next ID, acknowledging only what is saved, kept in the queue, and the saved ID is remembered as acknowledged; an empty message does nothing; other channels are untouched |
| `Comms.Comms.AddToQueue` | xwords4/common/comms.c:1292-1320 | appends unless the element is already the last one |
| `Comms.Comms.MakeElemWithID` | xwords4/common/comms.c:1179-1233 | the message carries the last saved ID, not the last received |
| `Comms.Comms.RemoveFromQueue` | xwords4/common/comms.c:1391-1442 | on its channel exactly the messages at or below the ID are gone; every other channel's are untouched, in order |
| `Comms.Comms.AckAny` | xwords4/common/comms.c:1654-1679 | one bare acknowledgement for each channel that has received beyond what it acknowledged, which then remembers the saved ID as acknowledged, and for no other |
| `Comms.Comms.CheckIncomingStream` | xwords4/common/comms.c:2310-2448 | uses the acknowledgement, and says the content is to be processed exactly when it is the next in sequence |
| `Comms.Comms.ReceiveAndProcess` | xwords4/common/comms.c:2278-2478 | receiving and processing as one is the receive step of the channel, and ends any wait to resend |
| `Comms.Comms.WriteToStream` | xwords4/common/comms.c:899-971 | writes counters, queue and the wait, and remembers the token |
| `Comms.Comms.CommsSaveSucceeded` | xwords4/common/comms.c:981-998 | with the token of the latest undisturbed save, all received so far counts as saved on every channel and is acknowledged at once wherever less had been; with any other token nothing changes |
| `Comms.Comms.FromStream` | xwords4/common/comms.c:650-764 | reading back a written state gives each channel its restored end: what had been received when it was written counts as saved |
| `Comms.Comms.ResendImpl` | xwords4/common/comms.c:1580-1617 | nothing is resent before the wait is over unless forced; otherwise the queue is, in order, up to the first failure, and once all of it went the next wait is set |
| `Comms.BackoffIs` | xwords4/common/comms.c:1608-1613 | the wait after each unforced resend is the double and two more, until 16 bits are full at 65534, where it stays |
| `Comms.BackoffGrows` | xwords4/common/comms.c:1608-1613 | so it never gets shorter by wrapping around |
| `Protocol.StepKeeps` | xwords4/common/comms.c:2278-2308 | every step of either end, the network or a crash of the receiver keeps the invariant of the channel |
| `Protocol.RunKeeps` | xwords4/common/comms.c:899-998 | and so does every run |
| `Protocol.AlwaysReliable` | xwords4/common/comms.c:1179-1279 | in every run with loss, duplication, reordering and receiver crashes: delivered is a prefix of sent, the saved counter never exceeds what is on disk, and every sent message is still queued or on the receiver's disk |
| `Protocol.ResendCatchesUp` | xwords4/common/comms.c:1580-1617 | if the queue gets through once in order, everything sent has been delivered |
| `Protocol.SavedIsAcked` | xwords4/common/comms.c:981-998 | after a completed save the next acknowledgement covers everything received |
| `Protocol.CrashAcks` | xwords4/common/comms.c:700-715 | after a crash, with no save in between, the next message acknowledges all that is on the disk, and having received it the sender keeps exactly what is not |
| `Protocol.SaveAndAck` | xwords4/common/comms.c:1391-1442 | then the sender's queue empties |
| `Protocol.AlwaysRecovers` | xwords4/common/comms.c:899-998 | from every reachable state some run without new messages brings the receiver level on disk and empties the sender's queue |
| `MemStream.BitsRoundTrip` | xwords4/common/memstream.c:170-204 | a number that fits a width is its bits read back |
| `MemStream.BitAt` | xwords4/common/memstream.c:322-344 | bit k is set exactly when the number, halved k times, is odd |
| `MemStream.ValueHolds` | xwords4/common/memstream.c:190-204 | a number read has exactly the bits that were there |
| `MemStream.MemStream.PutOneBit` | xwords4/common/memstream.c:296-320 | adds one bit at the cursor and leaves every earlier bit |
| `MemStream.MemStream.PutBits` | xwords4/common/memstream.c:322-344 | adds the low bits of the number, lowest first, bit k set exactly when the number halved k times is odd, and leaves every earlier bit |
| `MemStream.MemStream.GetOneBit` | xwords4/common/memstream.c:170-188 | the bit at the cursor, which moves on by one |
| `MemStream.MemStream.GetBits` | xwords4/common/memstream.c:190-204 | the number whose bits stand at the cursor |
| `MemStream.MemStream.PutBytes` | xwords4/common/memstream.c:224-265 | skips the rest of a begun byte, writes the bytes, and ends the stream after them |
| `MemStream.MiddleIsTheEnd` | xwords4/common/memstream.c:241-263 | three bytes are written, the position is set back to the second and one byte written: the third is gone |
| `MemStream.MemStream.GetBytes` | xwords4/common/memstream.c:115-142 | skips the rest of a begun byte and reads the bytes |
| `MemStream.MemStream.SetWritePos` | xwords4/common/memstream.c:477-493 | a saved position is restored to the same byte and bit |
| `StreamOps.BytesRoundTrip` | xwords4/common/memstream.c:152-167 | a number in network byte order is read back |
| `StreamOps.ByteOfNumber` | xwords4/common/memstream.c:280-300 | byte k of a number of n bytes is its digit of 256 to the power n-1-k: the byte that counts most comes first |
| `StreamOps.ImageLaidOut` | xwords4/common/memstream.c:224-344 | whatever holds the image of a value holds its bits low bit first at the cursor, or its bytes high byte first from the next whole byte on |
| `StreamOps.GetNumber` | xwords4/common/memstream.c:115-167 | the number read has for digits the bytes that come next, the one that counts most first |
| `StreamOps.PutAll` | xwords4/common/memstream.c:224-344 | any mixture of puts leaves the earlier bits alone and holds its values one after another, bits low bit first, numbers high byte first from a whole byte on |
| `StreamOps.GetAll` | xwords4/common/memstream.c:115-204 | the matching gets, from where the values begin, give them back |
| `StreamOps.HoldsStill` | xwords4/common/memstream.c:462-493 | what was written stays readable whatever is put after it |
| `StreamOps.RoundTrip` | xwords4/common/memstream.c:224-493 | from any saved position, also inside a byte: put, go back, get gives the same values, and no earlier bit has changed |
| `MoveStack.PutEntry` | xwords4/common/movestak.c:208-267 | appends exactly the bits of the entry, each of its numbers at its place and in its width |
| `MoveStack.EntryThere` | xwords4/common/movestak.c:208-267 | the bits of an entry are two of kind, two of player, then counts in three bits, tiles in six, coordinates in five and move tiles in as many as the stack has for them, each at a stated offset |
| `MoveStack.ReadEntry` | xwords4/common/movestak.c:301-343 | reads back the entry whose bits come next, and no bit more |
| `MoveStack.MoveStack.PushEntry` | xwords4/common/movestak.c:208-267 | the list is the current entries and the new one; what could have been redone is given up |
| `MoveStack.MoveStack.SetCacheReadyFor` | xwords4/common/movestak.c:452-468 | the cached position is the bit position of the entry asked for |
| `MoveStack.MoveStack.GetNthEntry` | xwords4/common/movestak.c:476-505 | the n-th entry pushed, exactly when there are that many; nothing else moves |
| `MoveStack.MoveStack.PopEntry` | xwords4/common/movestak.c:507-519 | the last entry comes off and stays to be redone |
| `MoveStack.MoveStack.Redo` | xwords4/common/movestak.c:548-561 | puts back exactly the entry popped last, when there is one |
| `MoveStack.MoveStack.WriteToStream` | xwords4/common/movestak.c:159-190 | writes counts, top and bytes of the whole log, redo tail included |
| `MoveStack.MoveStack.LoadFromStream` | xwords4/common/movestak.c:123-157 | reading it gives the same entries, the same current ones and the same tail |
| `MoveStack.MoveStack.Copy` | xwords4/common/movestak.c:192-206 | a copy has the same entries, current ones and tail |
| `LogStorage.LogFits` | xwords4/common/movestak.c:208-267 | every entry of a game that can be logged fits the bit fields of the stack, for up to four players, hands that never pass a tray a dictionary whose letters fit a tile and blanks that show its letters |
| `Faces.FirstCanMiss` | xwords4/common/dictnry.c:545-560 | with a shorter face before a longer one it begins, typing the longer one is not found |
| `Faces.NothingLostIff` | xwords4/common/dictnry.c:545-560 | taking the first face that matches loses no spelling of any string if and only if, after each face of each tile and any text that can be spelled, what is left after the first match can be spelled by the same tiles |
| `Faces.LengthsSuffice` | xwords4/common/dictnry.c:545-560 | that is so when no two faces of a tile begin one another, and more generally when the first match always leaves as much as the face meant |
| `Faces.ShorterFirstLoses` | xwords4/common/dictnry.c:545-560 | and never when a face comes before a different one that it begins |
| `Faces.LongerFirst` | xwords4/common/dictnry.c:545-560 | with the longer face first nothing need be lost, though one begins the other |
| `Faces.AnotherReading` | xwords4/common/dictnry.c:545-560 | nor need the first match leave as much as the face meant |
| `Faces.NoneLostInIff` | xwords4/common/dictnry.c:545-560 | of one string no spelling is lost if and only if, wherever in it the parser gets to, whatever can follow another face of a tile can follow the one that matches first: a check of finitely many cases |
| `Faces.TilesForStringImpl` | xwords4/common/dictnry.c:533-566 | calls back with the full list of what is found, in order, up to and with the call at which the callback says to stop, and goes on exactly if it never did |
| `Faces.ReportedExact` | xwords4/common/dictnry.c:533-566 | the full list holds, once each, exactly the blank-free continuations that spell the rest of the string, or as much of it as there is room for |
| `Faces.ReportedInOrder` | xwords4/common/dictnry.c:533-566 | it is in the order of the tiles, the first tile counting most |
| `Faces.TilesForString` | xwords4/common/dictnry.c:568-574 | reports, none twice and up to where the callback stops it, the blank-free tile strings that spell the text by first matching faces; if it is not stopped these are all spellings of the text if and only if nothing of this text is lost, a finite check on the faces and the text |
| `Faces.ShowAndParse` | xwords4/common/dictnry.c:492-574 | tiles without a blank, shown as a string and parsed again, are among what is found |
| `BufQueue.BufQueue.ShiftDown` | xwords4/common/bufqueue.c:57-66 | moving the contents to the front keeps every entry |
| `BufQueue.BufQueue.Add` | xwords4/common/bufqueue.c:76-95 | the entry is added at the end, or refused exactly when there is no room, and the tail stays within the buffer despite rounding |
| `BufQueue.BufQueue.Get` | xwords4/common/bufqueue.c:97-106 | the first entry intact, exactly when there is one |
| `BufQueue.BufQueue.RemoveOne` | xwords4/common/bufqueue.c:108-121 | the first entry is gone and the others stay in order |
| `BoardDims.AnyWindow` | xwords4/common/board.c:2261-2282 | the visible cells take the same number of pixels at every scroll offset |
| `BoardDims.FigureDims` | xwords4/common/board.c:2261-2282 | sizes repeat with the period of the visible cells, the first few a pixel larger; says whether anything changed |
| `BoardDims.FigureScale` | xwords4/common/board.c:2284-2303 | the scale is the dimension divided by the cells shown, every cell is as large or a pixel larger, an offset past the end becomes the last one, and at every offset the visible cells fill the dimension exactly |
| `BoardDims.CoordToCell` | xwords4/common/board.c:2409-2445 | the cell whose span holds the coordinate, or none exactly when the coordinate is outside all of them |
| `BoardDims.SpanToCell` | xwords4/common/board.c:2409-2481 | every coordinate in (left, left+width] of the rectangle of a cell is mapped back to that cell |
| `BoardDims.InBoundsToCell` | xwords4/common/board.c:2409-2445 | where the visible cells fill the dimension, every coordinate within it is that of a visible cell, the one whose span holds it |

## Left out

- Model.Model.CheckScoreMove: leaves out the refusal of phonies under PHONIES_BLOCK, for which the words have to be looked up (`mscore.c:283-300`).
- GameRun.Run: an operation outside `Enabled` is no step. That is one its caller would not make, as a trade of tiles not held, and three that a caller can make: an undo that would reach an assignment of tiles, a redo of more tiles than the tray has, and moving a pending tile onto a square from which its owner has taken a tile back. What each of these does is in `UndoLatestMoves`, `RedoPendingTiles` and `MoveTileOnBoard`.
- Engine.Engine.FindMoves: leaves out limits of the search to a rectangle, resuming after an interruption, and the skill level of the robot. The drop of single-tile moves (`engine.c:1122-1150`) is in `BothWays` and `BestMove`.
- BestMove.FindFirst: candidates are scored after the search and not in the midst of it, in the same order, and their scores are below 65535; `LentCacheIsRight` says that scoring within the search gives the same.
- Engine.Engine.FigureCrosschecks: the two 32-bit words are 32 truth values each; shifts and masks are the choice of word and bit.
- MoveCache.MoveCache.EngineFindMove: for a human player, walking the cache in the forward direction only; the robot's choice among saved moves is not modelled, and moves are ordered by score and then by a number that stands for their bytes.
- Protocol.AlwaysReliable: of the two ends one may crash and come back, the other keeps its state; receiving and processing are one step; saves reach the disk complete and in the order begun, with fresh non-zero tokens.
- Comms.Comms.CheckIncomingStream: message IDs do not wrap around at 16 bits, and messages that open a channel are not modelled.
- MoveStack.MoveStack.constructor: a stack starts from `stack_make`; `stack_init`, which does not reset the cache position, is not modelled.
- Comms.Comms.ResendImpl: the time is a parameter, and the time of the next resend does not wrap around at 32 bits.
- Faces.TilesToString: the buffer has room for all the faces; the code's early end when it has not is not modelled.
- The packing of an edge into three or four bytes: edges are records with a tile, two marks and a child index.
- The calls of `model_getTile` that show pending tiles, previous-move highlighting, listeners and notifications, and the sorting of trays.
- Fixed-size buffers for trays and pending tiles, and the widths of counters, outside the bit stream.
- Duplicate mode, pauses, and the entries they log.
- The word check that makes a move a phony, and the wording of scores and histories; rejecting is modelled, deciding to is not.
- The filtering of dictionary iterators by patterns, and the numbers of words kept in a dictionary's header, which are a parameter.
- Drawing from the pool with blanks first, and the random generator: the numbers drawn are parameters.
- Board sizes above 32 and trays of eight tiles, as in the platform builds.
- Relay, SMS and other transports, connection setup, user interface, and the server's turn logic beyond drawing and returning tiles.
