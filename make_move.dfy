/** The move handler (src/functions/makeMove.ts, repeated in src/game.ts): the
    legality check, the turn rule and the transition a legal move makes. */
module Moves {
  import opened Wrappers
  import opened Types
  import opened Board

  /** Why a move is refused, one value per message of getMoveStatus. */
  datatype Reason = NoSuchGame | CreatorMovesFirst | NotYourTurn | TileDoesNotExist | AlreadyRevealed

  datatype MoveStatus = Legal | Illegal(reason: Reason)

  /** The turn test: the creator opens; afterwards nobody moves twice in a row. */
  predicate TurnOk(game: Game, client: ClientInfo) {
    if |game.moves| == 0 then client.privateId == game.creator.privateId
    else client.privateId != game.moves[|game.moves| - 1].client.privateId
  }

  /** The board reads of the bounds and revealed tests do not throw: the row test
      passing needs a first row to measure, and both tests passing needs the tile to
      exist (negative coordinates are not caught by the bounds test). */
  predicate BoardReadsDefined(board: Grid, tile: Tile) {
    tile.row < |board| ==>
      |board| > 0 && (tile.column < Columns(board) ==> 0 <= tile.row && 0 <= tile.column)
  }

  /** getMoveStatus: the first failing test decides, in the order game, turn,
      bounds, revealed. */
  function GetMoveStatus(game: Option<Game>, tile: Tile, client: ClientInfo): (status: MoveStatus)
    requires game.Some? ==> IsGrid(game.value.board)
    requires game.Some? && TurnOk(game.value, client) ==> BoardReadsDefined(game.value.board, tile)
    ensures game.None? ==> status == Illegal(NoSuchGame)
    ensures game.Some? && !TurnOk(game.value, client) ==>
              status == Illegal(if |game.value.moves| == 0 then CreatorMovesFirst else NotYourTurn)
    ensures game.Some? && TurnOk(game.value, client) && !InBounds(game.value.board, tile.row, tile.column) ==>
              status == Illegal(TileDoesNotExist)
    ensures game.Some? && TurnOk(game.value, client) && InBounds(game.value.board, tile.row, tile.column) &&
            game.value.board[tile.row][tile.column].isRevealed ==>
              status == Illegal(AlreadyRevealed)
    ensures status == Legal <==>
              && game.Some? && TurnOk(game.value, client)
              && InBounds(game.value.board, tile.row, tile.column)
              && !game.value.board[tile.row][tile.column].isRevealed
  {
    if game.None? then Illegal(NoSuchGame)
    else if |game.value.moves| == 0 && client.privateId != game.value.creator.privateId then Illegal(CreatorMovesFirst)
    else if |game.value.moves| > 0 && client.privateId == game.value.moves[|game.value.moves| - 1].client.privateId then Illegal(NotYourTurn)
    else if tile.row >= |game.value.board| || tile.column >= Columns(game.value.board) then Illegal(TileDoesNotExist)
    else if game.value.board[tile.row][tile.column].isRevealed then Illegal(AlreadyRevealed)
    else Legal
  }

  /** getCurrentTurn: player2 when player1 made the last move, player1 otherwise.
      With two distinct players it names someone other than the last mover; it is
      empty only when player1 moved last and nobody has joined. */
  function GetCurrentTurn(game: Game): (next: Option<ClientInfo>)
    requires |game.moves| > 0
    ensures next == Some(game.player1) || next == game.player2
    ensures next.None? <==> game.moves[|game.moves| - 1].client.privateId == game.player1.privateId && game.player2.None?
    ensures game.player2.Some? && game.player2.value.privateId != game.player1.privateId ==>
              next.Some? && next.value.privateId != game.moves[|game.moves| - 1].client.privateId
  {
    var lastTurn := game.moves[|game.moves| - 1].client.privateId;
    if lastTurn == game.player1.privateId then game.player2 else Some(game.player1)
  }

  /** The two players of a started game, with distinct private ids. */
  predicate TwoPlayers(game: Game) {
    game.player2.Some? && game.player2.value.privateId != game.player1.privateId
  }

  predicate IsPlayer(game: Game, client: ClientInfo) {
    client.privateId == game.player1.privateId ||
    (game.player2.Some? && client.privateId == game.player2.value.privateId)
  }

  /** Once both players have moved, a player passes the turn test exactly when
      getCurrentTurn names them. */
  lemma TurnTestMatchesCurrentTurn(game: Game, client: ClientInfo)
    requires |game.moves| > 0 && TwoPlayers(game)
    requires IsPlayer(game, game.moves[|game.moves| - 1].client) && IsPlayer(game, client)
    ensures TurnOk(game, client) <==> GetCurrentTurn(game).value.privateId == client.privateId
  {
  }

  /** Consecutive moves are by different clients. */
  ghost predicate Alternates(moves: seq<Move>) {
    forall k :: 0 < k < |moves| ==> moves[k].client.privateId != moves[k - 1].client.privateId
  }

  /** The history opens with the creator (when it is not empty) and alternates. */
  ghost predicate WellOrdered(game: Game) {
    && (|game.moves| > 0 ==> game.moves[0].client.privateId == game.creator.privateId)
    && Alternates(game.moves)
  }

  /** Appending a move that passes the turn test keeps the history well ordered. */
  lemma TurnOkKeepsOrder(game: Game, m: Move)
    requires WellOrdered(game) && TurnOk(game, m.client)
    ensures WellOrdered(game.(moves := game.moves + [m]))
  {
    var moves := game.moves + [m];
    forall k | 0 < k < |moves| ensures moves[k].client.privateId != moves[k - 1].client.privateId {
      if k < |game.moves| {
        assert moves[k] == game.moves[k] && moves[k - 1] == game.moves[k - 1];
      }
    }
  }

  /** The board a legal move is played on: on the first move `placed` is the stored
      board with numBombs mines flipped outside the block around the click and
      `armed` is `placed` numbered; later moves use the stored board as it is. */
  ghost predicate Prepared(board: Grid, placed: Grid, armed: Grid, firstMove: bool, row: int, column: int, numBombs: nat)
    requires IsGrid(board)
  {
    if firstMove then
      && IsGrid(placed) && PlacesBombsOnly(board, placed, row, column)
      && |MineCells(placed)| == |MineCells(board)| + numBombs
      && IsGrid(armed) && SameShape(placed, armed)
      && forall i, j :: InBounds(armed, i, j) ==> armed[i][j] == Numbered(placed, i, j)
    else
      armed == board
  }

  /** The board after the click on `armed`: unchanged on a mine, flood filled otherwise. */
  ghost predicate Played(armed: Grid, after: Grid, row: int, column: int)
    requires IsGrid(armed) && InBounds(armed, row, column)
  {
    IsGrid(after) &&
    if !Safe(armed[row][column]) then after == armed else FloodFilled(armed, after, row, column)
  }

  datatype Outcome =
    | Rejected(reason: Reason)
    | Accepted(game: Game, emission: Emission)

  /** makeMove, without its I/O: refuse an illegal move and change nothing; else, on
      the first move arm the board, reveal unless the target is a mine, append the
      move, and broadcast the sanitized board and the next player to both players.
      The source throws after saving when nobody has joined, hence the precondition
      on player2. */
  method MakeMove(game: Option<Game>, gameId: string, tile: Tile, client: ClientInfo, numBombs: nat)
    returns (outcome: Outcome, ghost placed: Grid, ghost armed: Grid)
    requires game.Some? ==> IsGrid(game.value.board)
    requires game.Some? && TurnOk(game.value, client) ==> BoardReadsDefined(game.value.board, tile)
    requires GetMoveStatus(game, tile, client) == Legal ==> game.value.player2.Some?
    requires GetMoveStatus(game, tile, client) == Legal && |game.value.moves| == 0 ==>
               numBombs <= |CandidateCells(game.value.board, tile.row, tile.column)|
    ensures outcome.Rejected? <==> GetMoveStatus(game, tile, client) != Legal
    ensures outcome.Rejected? ==> GetMoveStatus(game, tile, client) == Illegal(outcome.reason)
    ensures outcome.Accepted? ==>
              var before := game.value;
              var after := outcome.game;
              && after == before.(board := after.board, moves := before.moves + [Move(tile, client)])
              && IsGrid(armed) && InBounds(armed, tile.row, tile.column)
              && Prepared(before.board, placed, armed, |before.moves| == 0, tile.row, tile.column, numBombs)
              && Played(armed, after.board, tile.row, tile.column)
              && SameShape(before.board, after.board)
              && outcome.emission == Emission(
                   [before.player1.socketId, before.player2.value.socketId],
                   MoveMade(gameId, Sanitize(after.board), GetCurrentTurn(after).value.publicId))
  {
    placed, armed := [], [];
    var moveStatus := GetMoveStatus(game, tile, client);
    if moveStatus.Illegal? {
      return Rejected(moveStatus.reason), placed, armed;
    }
    var current := game.value;
    var updatedBoard := new GameBoard.FromGrid(current.board);
    placed := updatedBoard.tiles;
    if |current.moves| == 0 {
      updatedBoard.AddBombsToBoard(tile.row, tile.column, numBombs);
      placed := updatedBoard.tiles;
      updatedBoard.CalculateDisplayNums();
    }
    armed := updatedBoard.tiles;
    if IsBombSpot(updatedBoard.tiles, tile.row, tile.column) {
      // the source leaves what a mine click does undecided
    } else {
      updatedBoard.UpdateTileAndNeighbors(tile.row, tile.column);
    }
    var updatedGame := current.(board := updatedBoard.tiles);
    updatedGame := updatedGame.(moves := updatedGame.moves + [Move(tile, client)]);
    var sanitizedBoard := GenerateSanitizedBoard(updatedGame.board);
    var currentTurn := GetCurrentTurn(updatedGame).value.publicId;
    var emission := Emission([updatedGame.player1.socketId, updatedGame.player2.value.socketId],
                             MoveMade(gameId, sanitizedBoard, currentTurn));
    outcome := Accepted(updatedGame, emission);
  }
}
