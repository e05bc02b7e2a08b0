# safe-spot-api: a verified model of the game engine

safe-spot-api is the server of a two-player Minesweeper game. Players share one board of
hidden tiles. The creator opens the game, a second player joins, and then the two take
turns clicking tiles. On the first accepted click the server lays the mines, keeping them
off the clicked tile and its neighbours. It then numbers every tile with its count of
adjacent mines. A click reveals a tile, and a click on a 0 floods outward.

This project models that engine in Dafny and proves what it does:

- `wrappers.dfy` has `Option`. `types.dfy` has the records of `src/types.ts`: the tile, the
  board (a list of rows), the client, the move, the game and the messages sent to sockets.
- `board.dfy` (module `Board`) covers `src/board.ts`.
  - `GameBoard` is a class with a `tiles` field. Its methods change the board in place,
    as the source's mutators do.
  - The read-only helpers (`isBombSpot`, `generateSanitizedBoard`, `getNumSafeSpotsLeft`,
    `getBombSpots`) take the board as a value.
  - JavaScript truthiness is kept exactly: a tile counts as safe only when `isSafe` is
    `true`. An erased (`undefined`) flag counts as a bomb, as `!spot.isSafe` does.
- `make_move.dfy` (module `Moves`) covers `getMoveStatus`, `getCurrentTurn` and the
  `makeMove` transition of `src/functions/makeMove.ts`. The same code is repeated in
  `src/game.ts`.
- `game.dfy` (module `GameLifecycle`) covers `createGame`, `joinGame` and `makeMove` of
  `src/game.ts`. They work over the game map of `src/persistence.ts`, modelled as a
  `map<string, Game>` field of the class `GameStore`.
  - The store keeps an invariant. Every game is filed under its own id and has a 10 x 15
    board. The board stays the fresh all-safe one until the first move, and from then on
    it holds exactly 27 mines. The move history opens with the creator and never has the
    same client twice in a row.

The `GameStatus` values of `src/types.ts` (waiting, in progress, won, lost) suggest a fuller
game flow than the code implements. Where they differ, the model follows the code:

- `joinGame` sets `isStarted` and `player2` but leaves `status` as it was.
- A click on a mine leaves the board untouched. It does not reveal that tile or end the
  game.
- No move sets `status` to won or lost.
- The game record's id field is `id`, as `src/game.ts` and `src/persistence.ts` use it, not
  `displayId` as `src/types.ts` declares it.
- `createGame` in `src/game.ts` sets no `status`. The model gives a new game the
  waiting-for-player status that `src/functions/createGame.ts` sets.

## Model

| member | source | states |
|---|---|---|
| Board.GameBoard.InstantiateSafeBoard | src/board.ts:3-25 | the board has `rows` rows of `columns` tiles; tile (i, j) has row i, column j, is safe, is hidden and shows 0 |
| Board.SafeBoardHasNoMines | src/board.ts:3-25 | a fresh board has no mine cells |
| Board.GameBoard.AddBombsToBoard | src/board.ts:27-55 | exactly `numBombs` new mines; every changed tile was safe, lies outside the 3x3 block around the click and differs only in `isSafe`, now false; it needs as many candidate cells as mines, since otherwise the source's loop never ends, and a non-empty board |
| Board.SafeBoardHasRoom | src/board.ts:36-47 | on a fresh rows x columns board at least rows * columns - 9 cells are candidates, so 27 mines always fit on 10 x 15 |
| Board.FirstClickOpens | src/board.ts:42-47 | after mines are placed on a fresh board, the clicked tile and its neighbours are safe and the clicked tile's number is 0 |
| Board.GameBoard.FromGrid | src/functions/makeMove.ts:37 | the JSON clone of the stored board (also at src/game.ts:123): a board object whose tiles equal the given board |
| Board.GameBoard.CalculateDisplayNums | src/board.ts:75-83 | each tile gets calculateDisplayNum of the board it started from, although earlier tiles were already overwritten; only `displayNum` changes |
| Board.NumberingKeepsMines | src/board.ts:75-83 | numbering every tile leaves the set of mine cells as it was |
| Board.DisplayNumReadsOnlyBombs | src/board.ts:75-83 | the number depends only on which tiles are bombs, which is why the in-place update is sound |
| Board.GetNeighborBombCount | src/board.ts:206-222 | 1 exactly when the cell is on the board and holds a mine, 0 otherwise, off-board cells included |
| Board.CalculateDisplayNum | src/board.ts:183-204 | -1 exactly on a mine, otherwise a value in 0..8; Board.DisplayNumCountsNeighborMines shows that value is the tile's number of mine neighbours |
| Board.DisplayNumCountsNeighborMines | src/board.ts:183-222 | a bomb gets -1; a safe tile gets the number of bombs among its in-bounds 8 neighbours (the 8 terms never count a cell twice), so the value is in -1..8 |
| Board.GameBoard.UpdateTileAndNeighbors | src/board.ts:85-128 | FloodFilled: off-board, revealed or unsafe target: board unchanged; otherwise the target is revealed, and alone when it does not show 0; only hidden safe tiles become revealed and nothing else changes; every newly revealed 0 has no hidden safe neighbour left; every newly revealed tile was reached from the target through newly revealed zeros (a reveal order in which each tile after the target borders an earlier revealed 0, whose index it records); afterwards the target can no longer be entered; terminates on the number of hidden tiles |
| Board.ReachedSpreads | src/board.ts:91-113 | a fill whose tiles were reached from the target spreads only through zeros: every newly revealed tile other than the target borders a newly revealed 0 |
| Board.RevealsOnlyKeepsMines | src/board.ts:85-128 | a flood fill leaves the set of mine cells as it was |
| Board.FloodFillIdempotent | src/board.ts:91-113 | a second flood fill from the same tile changes nothing |
| Board.IsBombSpot | src/board.ts:130-136 | true exactly when the cell is a mine cell |
| Board.GetBombSpots | src/board.ts:138-152 | the bomb tiles of the board, row after row, left to right |
| Board.BombsInMembers | src/board.ts:143-147 | a tile is in the bomb list exactly when it is in the list scanned and is not safe |
| Board.BombSpotsAreTheBombs | src/board.ts:138-165 | on a board whose tiles carry their own coordinates, the listed tiles' coordinates are exactly the mine cells, all on the board |
| Board.GameBoard.RevealBombSpots | src/board.ts:154-165 | the tile at each listed row and column becomes revealed and no other tile or field changes |
| Board.Sanitize | src/board.ts:57-73 | same shape; revealed tiles identical; hidden tiles keep row, column and hidden flag and lose `isSafe` and `displayNum` |
| Board.GenerateSanitizedBoard | src/board.ts:57-73 | returns exactly Sanitize of its input; the input is a value and stays as it was |
| Board.SanitizeIdempotent | src/board.ts:57-73 | sanitizing twice gives the same board as sanitizing once |
| Board.GetNumSafeSpotsLeft | src/board.ts:167-181 | the number of safe hidden cells |
| Board.NoSafeSpotsLeftMeansCleared | src/board.ts:167-181 | that number is 0 exactly when every safe tile is revealed |
| Moves.GetMoveStatus | src/functions/makeMove.ts:116-163 | missing game first; then creator-first on an empty history or not-twice-in-a-row otherwise; then off-board (after the turn tests); then already revealed; legal exactly when the game exists, the turn test passes, the tile is on the board and hidden |
| Moves.GetCurrentTurn | src/functions/makeMove.ts:98-102 | player1 or player2; empty only when player1 moved last and nobody joined; with two distinct players, never the last mover |
| Moves.TurnTestMatchesCurrentTurn | src/functions/makeMove.ts:98-144 | with two distinct players and a player as last mover, a player passes the turn test exactly when getCurrentTurn names them |
| Moves.TurnOkKeepsOrder | src/functions/makeMove.ts:128-144 | appending a move that passes the turn test keeps the history opening with the creator and alternating |
| Moves.MakeMove | src/functions/makeMove.ts:20-95 | rejected exactly when illegal, with getMoveStatus's reason and nothing else; on a legal move, mines are laid and numbered only when the history was empty; a mine click leaves the board as it was, otherwise a flood fill runs; the game changes only in board and in moves, which gain one {tile, client}; both players get the sanitized new board and the next player's public id |
| GameLifecycle.PlayedGameOk | src/game.ts:111-177 | a legal move on a stored game yields a game that may be stored under the same id: still 10 x 15, history still alternating, exactly 27 mines; on the first move the clicked tile is a safe 0 |
| GameLifecycle.GameStore.constructor | src/persistence.ts:5 | the store starts empty |
| GameLifecycle.GameStore.GetGame | src/persistence.ts:11 | finds a game exactly when its id is stored |
| GameLifecycle.GameStore.CreateGame | src/game.ts:31-73 | the id is the first draw not in the store; the store gains that one record: not started, waiting, creator = player1 = client, no player2, no moves, a fresh 10 x 15 board; the creator is told the id |
| GameLifecycle.GameStore.JoinGame | src/game.ts:75-109 | an unknown id changes nothing and sends nothing; otherwise only `isStarted` becomes true and `player2` the client, and both players get the sanitized board with the creator's public id to move |
| GameLifecycle.GameStore.MakeMove | src/game.ts:111-177 | an illegal move leaves the store unchanged, under getMoveStatus's precedence; a legal one stores the played game under its id, with Moves.MakeMove's effect, the history grown by the move and the broadcast board the sanitized stored board; on the first move exactly 27 mines are laid and the clicked tile is a safe 0; after every legal move the stored board holds exactly 27 mines |

## Left out

- Randomness: `nanoid` ids are the input sequence `ids` of `CreateGame`, and one of them
  must be free. `Math.random` mine coordinates are a choice among the acceptable cells.
  Rejected draws change nothing, so they are not modelled.
- Board size and mine count: `Math.floor(rows * columns * (bombPercentage / 100))` and the
  environment variables of `src/functions/makeMove.ts` become `numBombs`, a parameter of
  `Moves.MakeMove`. The store passes the constant 27, which is 10 * 15 * 18 / 100 computed
  exactly.
- I/O: `emit`, `console.log`, `await`, `JSON.parse` of payloads and the Lambda wrappers
  are left out. An emission is returned as a value. The JSON clones are value copies.
- `alert` on a mine click inside `updateTileAndNeighbors` is a no-op: the method returns
  unchanged.
- End of game: the source leaves the mine click and win detection as TODOs. No transition
  to won or lost is invented.
- `src/server.ts`, `src/emitter.ts`, `src/connected.ts`, `src/functions/connected.ts`,
  `src/functions/createGame.ts` and `src/functions/joinGame.ts` are not part of this
  model. They are transport, or wrappers around the same record updates.
- Crashes of the source become preconditions, not modelled behaviour:
  - a negative coordinate that passes the bounds test and then indexes the board
    (`Moves.BoardReadsDefined`);
  - a legal move before anyone has joined, which throws while building the broadcast
    after the game was saved;
  - an empty board in `addBombsToBoard`;
  - a board whose rows differ in length.
- Aliasing: the source mutates tile objects that a caller may still hold.
  - The model copies values.
  - `getBombSpots` returns the board's own tile objects. The model returns tile values.
    `BombSpotsAreTheBombs` relates them back to board cells through their row and column.
- GameLifecycle.GameStore.Valid: the invariant keeps the mine count after the first move
  but not that the first click's 3 x 3 block stays mine-free. That is proved once, at
  placement, by `Board.FirstClickOpens`.
- GameLifecycle.GameStore.MakeMove: stated as the source behaves, so some consequences the
  source does not prevent are not excluded:
  - a third party whose private id differs from the last mover's passes the turn test;
  - `joinGame` on a game already joined replaces player2.
