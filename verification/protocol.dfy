/** The events the client emits on the socket, with their payloads. */
module Protocol {
  import opened GameSettings

  datatype Emit =
    | CreateGame(settings: Settings)                        // "create-game"
    | JoinGame(gameId: string, username: string)            // "join-game"
    | StartGame(gameId: string)                             // "start-game"
    | UpdateSettings(gameId: string, newSettings: Settings) // "update-settings"
    | ProgressUpdate(gameId: string, progress: int)         // "player-progress-update"

  /** The client-side route of a multiplayer game. */
  const GameRoutePrefix := "/game/multiplayer/"

  function GameRoute(gameId: string): (path: string)
    ensures |path| == |GameRoutePrefix| + |gameId|
    ensures path[..|GameRoutePrefix|] == GameRoutePrefix && path[|GameRoutePrefix|..] == gameId
  {
    GameRoutePrefix + gameId
  }
}
