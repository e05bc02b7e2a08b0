/** The records the game engine passes around (src/types.ts). */
module Types {
  import opened Wrappers

  /** One cell of the board. `isSafe` and `displayNum` are optional because the
      sanitized copy sent to clients erases them on unrevealed tiles. A board
      tile's `displayNum` is -1 when the tile is itself a bomb. */
  datatype Tile = Tile(row: int, column: int, isSafe: Option<bool>, isRevealed: bool, displayNum: Option<int>)

  /** A board is a list of rows, each a list of tiles. */
  type Grid = seq<seq<Tile>>

  datatype ClientInfo = ClientInfo(privateId: string, publicId: string, socketId: string)

  /** A move records the tile the client sent and the client who sent it. */
  datatype Move = Move(tile: Tile, client: ClientInfo)

  datatype GameStatus = WaitingForPlayer | InProgress | Won | Lost

  datatype Game = Game(
    id: string,
    board: Grid,
    isStarted: bool,
    status: GameStatus,
    creator: ClientInfo,
    player1: ClientInfo,
    player2: Option<ClientInfo>,
    moves: seq<Move>)

  /** What the server sends to clients, one constructor per `ServerAction`. */
  datatype Payload =
    | GameCreated(gameId: string)
    | GameStarted(id: string, board: Grid, currentTurn: string)
    | MoveMade(id: string, board: Grid, currentTurn: string)

  /** One `emit` call: the socket ids addressed and the payload. */
  datatype Emission = Emission(to: seq<string>, payload: Payload)
}
