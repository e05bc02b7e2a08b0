/** The in-memory game server (src/game.ts over the map of src/persistence.ts):
    creating, joining and playing games stored by id. */
module GameLifecycle {
  import opened Wrappers
  import opened Types
  import opened Board
  import Moves

  const NumRows: nat := 10
  const NumColumns: nat := 15
  const BombPercentage: nat := 18
  /** floor(rows * columns * (bombPercentage / 100)); the product is a whole number here. */
  const NumBombs: nat := NumRows * NumColumns * BombPercentage / 100

  /** A stored game: filed under its own id, on a NumRows x NumColumns board that is still
      the fresh one until the first move and carries exactly NumBombs mines after it,
      with a history that opens with the creator and alternates. */
  ghost predicate StoredGameOk(id: string, game: Game) {
    && game.id == id
    && IsGrid(game.board) && |game.board| == NumRows && Columns(game.board) == NumColumns
    && (|game.moves| == 0 ==> IsSafeBoard(game.board, NumRows, NumColumns))
    && (|game.moves| > 0 ==> |MineCells(game.board)| == NumBombs)
    && Moves.WellOrdered(game)
  }

  /** The game a fresh id gets: not started, waiting, the client as creator and
      player1, nobody as player2, no moves. */
  ghost predicate IsNewGame(game: Game, id: string, client: ClientInfo) {
    && game.id == id
    && IsSafeBoard(game.board, NumRows, NumColumns)
    && !game.isStarted && game.status == WaitingForPlayer
    && game.creator == client && game.player1 == client && game.player2 == None
    && game.moves == []
  }

  /** A legal move on a stored game gives a game that may be stored under the same
      id: it carries exactly NumBombs mines, and on the first move the clicked tile
      is a safe 0. */
  lemma PlayedGameOk(id: string, before: Game, after: Game, placed: Grid, armed: Grid,
                     tile: Tile, client: ClientInfo)
    requires StoredGameOk(id, before) && Moves.TurnOk(before, client)
    requires after == before.(board := after.board, moves := before.moves + [Move(tile, client)])
    requires IsGrid(armed) && InBounds(armed, tile.row, tile.column)
    requires Moves.Prepared(before.board, placed, armed, |before.moves| == 0, tile.row, tile.column, NumBombs)
    requires Moves.Played(armed, after.board, tile.row, tile.column)
    requires SameShape(before.board, after.board)
    ensures StoredGameOk(id, after)
    ensures |MineCells(after.board)| == NumBombs
    ensures |before.moves| == 0 ==>
              && |MineCells(placed)| == NumBombs
              && Safe(armed[tile.row][tile.column]) && armed[tile.row][tile.column].displayNum == Some(0)
  {
    if |before.moves| == 0 {
      SafeBoardHasNoMines(before.board, NumRows, NumColumns);
      FirstClickOpens(before.board, placed, NumRows, NumColumns, tile.row, tile.column);
      NumberingKeepsMines(placed, armed);
    }
    if Safe(armed[tile.row][tile.column]) {
      RevealsOnlyKeepsMines(armed, after.board);
    }
    Moves.TurnOkKeepsOrder(before, Move(tile, client));
  }

  class GameStore {
    var games: map<string, Game>

    ghost predicate Valid()
      reads this
    {
      forall id :: id in games ==> StoredGameOk(id, games[id])
    }

    constructor ()
      ensures Valid() && games == map[]
    {
      games := map[];
    }

    /** getGame. */
    function GetGame(id: string): (game: Option<Game>)
      reads this
      ensures game.Some? <==> id in games
      ensures game.Some? ==> game.value == games[id]
    {
      if id in games then Some(games[id]) else None
    }

    /** createGame: draws ids until one is not in the store, stores a new game under
        it, and tells the creator. `ids` stands for the successive draws of the id
        generator; one of them is free. */
    method CreateGame(client: ClientInfo, ids: seq<string>) returns (gameId: string, emission: Emission)
      requires Valid()
      requires exists k :: 0 <= k < |ids| && ids[k] !in games
      modifies this
      ensures Valid()
      ensures exists k :: 0 <= k < |ids| && ids[k] == gameId && forall m :: 0 <= m < k ==> ids[m] in old(games)
      ensures gameId !in old(games)
      ensures gameId in games && IsNewGame(games[gameId], gameId, client)
      ensures games == old(games)[gameId := games[gameId]]
      ensures emission == Emission([client.socketId], GameCreated(gameId))
    {
      var gameCreated := false;
      var draws := 0;
      var newGame := Game("", [], false, WaitingForPlayer, client, client, None, []);
      gameId := "";
      while !gameCreated
        invariant 0 <= draws <= |ids|
        invariant !gameCreated ==> games == old(games)
        invariant !gameCreated ==> forall m :: 0 <= m < draws ==> ids[m] in games
        invariant !gameCreated ==> exists k :: draws <= k < |ids| && ids[k] !in games
        invariant gameCreated ==> 0 < draws && ids[draws - 1] == gameId && gameId !in old(games)
        invariant gameCreated ==> forall m :: 0 <= m < draws - 1 ==> ids[m] in old(games)
        invariant gameCreated ==> games == old(games)[gameId := newGame] && IsNewGame(newGame, gameId, client)
        decreases |ids| - draws, !gameCreated
      {
        gameId := ids[draws];
        draws := draws + 1;
        var existingGame := GetGame(gameId);
        if existingGame.None? {
          var gameBoard := new GameBoard.InstantiateSafeBoard(NumRows, NumColumns);
          newGame := Game(gameId, gameBoard.tiles, false, WaitingForPlayer, client, client, None, []);
          games := games[newGame.id := newGame];
          gameCreated := true;
        }
      }
      emission := Emission([newGame.creator.socketId], GameCreated(gameId));
    }

    /** joinGame: an unknown id changes nothing; otherwise the game is started with
        the client as player2 (replacing any earlier one), and both players get the
        sanitized board with the creator to move. */
    method JoinGame(gameId: string, client: ClientInfo) returns (emission: Option<Emission>)
      requires Valid()
      modifies this
      ensures Valid()
      ensures gameId !in old(games) ==> games == old(games) && emission == None
      ensures gameId in old(games) ==>
                var game := old(games)[gameId];
                && games == old(games)[gameId := game.(isStarted := true, player2 := Some(client))]
                && emission == Some(Emission([game.player1.socketId, client.socketId],
                                             GameStarted(gameId, Sanitize(game.board), game.creator.publicId)))
    {
      var game := GetGame(gameId);
      if game.None? {
        emission := None;
      } else {
        var updatedGame := game.value.(isStarted := true, player2 := Some(client));
        games := games[updatedGame.id := updatedGame];
        var sanitizedBoard := GenerateSanitizedBoard(updatedGame.board);
        emission := Some(Emission([updatedGame.player1.socketId, updatedGame.player2.value.socketId],
                                  GameStarted(gameId, sanitizedBoard, updatedGame.creator.publicId)));
      }
    }

    /** makeMove over the store: an illegal move leaves the store as it is; a legal
        one stores the played game, whose history has grown by the move, under its id. */
    method MakeMove(gameId: string, tile: Tile, client: ClientInfo)
      returns (outcome: Moves.Outcome, ghost placed: Grid, ghost armed: Grid)
      requires Valid()
      requires gameId in games && Moves.TurnOk(games[gameId], client) ==>
                 Moves.BoardReadsDefined(games[gameId].board, tile)
      requires Moves.GetMoveStatus(GetGame(gameId), tile, client) == Moves.Legal ==>
                 games[gameId].player2.Some?
      modifies this
      ensures Valid()
      ensures outcome.Rejected? <==> Moves.GetMoveStatus(old(GetGame(gameId)), tile, client) != Moves.Legal
      ensures outcome.Rejected? ==>
                && games == old(games)
                && Moves.GetMoveStatus(old(GetGame(gameId)), tile, client) == Moves.Illegal(outcome.reason)
      ensures outcome.Accepted? ==>
                var before := old(games)[gameId];
                var after := outcome.game;
                && games == old(games)[gameId := after]
                && after == before.(board := after.board, moves := before.moves + [Move(tile, client)])
                && IsGrid(armed) && InBounds(armed, tile.row, tile.column)
                && Moves.Prepared(before.board, placed, armed, |before.moves| == 0, tile.row, tile.column, NumBombs)
                && Moves.Played(armed, after.board, tile.row, tile.column)
                && (|before.moves| == 0 ==>
                      && |MineCells(placed)| == NumBombs
                      && Safe(armed[tile.row][tile.column]) && armed[tile.row][tile.column].displayNum == Some(0))
                && |MineCells(after.board)| == NumBombs
                && outcome.emission == Emission(
                     [before.player1.socketId, before.player2.value.socketId],
                     MoveMade(gameId, Sanitize(after.board), Moves.GetCurrentTurn(after).value.publicId))
    {
      var game := GetGame(gameId);
      if game.Some? && Moves.GetMoveStatus(game, tile, client) == Moves.Legal && |game.value.moves| == 0 {
        SafeBoardHasRoom(game.value.board, NumRows, NumColumns, tile.row, tile.column);
      }
      outcome, placed, armed := Moves.MakeMove(game, gameId, tile, client, NumBombs);
      if outcome.Accepted? {
        PlayedGameOk(gameId, game.value, outcome.game, placed, armed, tile, client);
        games := games[outcome.game.id := outcome.game];
      }
    }
  }
}
