/**
  The multiplayer lobby of src/pages/MultiplayerLobbyPage.jsx: creating a game
  with fixed default settings, following the server's `game-created` reply to
  the new game's page, and joining a game by a typed code.
*/
module Lobby {
  import opened Wrappers
  import opened JsText
  import opened GameSettings
  import opened Protocol

  /** `gameCode.trim().toUpperCase()`. */
  function NormaliseCode(code: string): (r: string)
    ensures NoOuterSpace(r) && NoAsciiLower(r)
    ensures |r| <= |code|
  {
    var t := Trim(code);
    ToUpperShape(t);
    ToUpper(t)
  }

  /** Normalising an already normalised code changes nothing. */
  lemma NormaliseIdempotent(code: string)
    ensures NormaliseCode(NormaliseCode(code)) == NormaliseCode(code)
  {
    var n := NormaliseCode(code);
    TrimFixesTrimmed(n);
    ToUpperFixesUpper(n);
  }

  /** A code typed in upper case without surrounding whitespace is kept exactly as typed. */
  lemma NormaliseKeepsCanonical(code: string)
    requires NoOuterSpace(code) && NoAsciiLower(code)
    ensures NormaliseCode(code) == code
  {
    TrimFixesTrimmed(code);
    ToUpperFixesUpper(code);
  }

  /**
    Case and surrounding whitespace do not matter: a code padded with
    whitespace, in any case, normalises like the bare upper-case code.
  */
  lemma NormaliseIgnoresPaddingAndCase(a: string, core: string, b: string)
    requires AllSpace(a) && AllSpace(b) && NoOuterSpace(core)
    ensures NormaliseCode(a + core + b) == ToUpper(core)
  {
    TrimOfPadded(a, core, b);
  }

  /**
    `handleJoinGame`: a code that trims to nothing navigates nowhere; any
    other code navigates to the game page of its normalised form.
  */
  function JoinTarget(code: string): (r: Option<string>)
    ensures r == None <==> AllSpace(code)
    ensures r.Some? ==> r.value == GameRoute(NormaliseCode(code)) && |NormaliseCode(code)| > 0
  {
    TrimEmptyIffAllSpace(code);
    if Trim(code) != "" then Some(GameRoute(NormaliseCode(code))) else None
  }

  /** `handleCreateGame`: with a socket, one `create-game` with the defaults; without, nothing. */
  function CreateGameEmits(hasSocket: bool): (r: seq<Emit>)
    ensures hasSocket ==> r == [CreateGame(Settings("medium", "english", Num(30)))]
    ensures !hasSocket ==> r == []
  {
    if hasSocket then [CreateGame(DefaultSettings)] else []
  }

  /** `game-created`: the server's new id goes straight into the route, unnormalised. */
  function CreatedTarget(gameId: string): (r: string)
    ensures |r| == |GameRoutePrefix| + |gameId|
    ensures r[..|GameRoutePrefix|] == GameRoutePrefix && r[|GameRoutePrefix|..] == gameId
  {
    GameRoute(gameId)
  }

  /** A game the lobby created and a join by its own code lead to the same page. */
  lemma CreatedAndJoinedAgree(gameId: string)
    requires |gameId| > 0 && NoOuterSpace(gameId) && NoAsciiLower(gameId)
    ensures JoinTarget(gameId) == Some(CreatedTarget(gameId))
  {
    NormaliseKeepsCanonical(gameId);
    TrimEmptyIffAllSpace(gameId);
  }
}
