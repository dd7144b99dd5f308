# Typing-race client: the typing cursor as a verified state machine

This Dafny project models the logic core of a typing-race web client.
The client has a solo mode and a multiplayer mode, and the multiplayer mode
talks to a relay server over a socket. React event handlers become pure
step functions over immutable records. Socket emissions become a returned
list of `Emit` values.

- `JsText` (jstext.dfy) holds the JavaScript built-ins the handlers use:
  `trim`, `endsWith(" ")`, `toUpperCase` and `parseInt`.
  `parseInt` follows the algorithm of ECMAScript 2024, section 19.2.5. Called
  without a radix it honours a `0x` prefix; called with radix 10 it does not.
- `GameSettings` (settings.dfy) holds the `{difficulty, category, words}`
  record, the defaults, and the object-spread merge behind both settings forms.
- `Protocol` (protocol.dfy) lists the socket events the client emits and the
  `/game/multiplayer/<id>` route.
- `SoloGame` (solo.dfy) models `GamePage.jsx`. It covers settings edits, the
  start of the text load, load success and failure, typing, "back to settings",
  game over and the colour of each word. A `Dispatch` layer drops the events
  that the page cannot deliver because the control is not rendered or is
  disabled. Over that layer the model proves a consistency invariant and an
  end-to-end run in which every word is typed.
- `MultiplayerGame` (multiplayer.dfy) models `MultiplayerGamePage.jsx`. The
  state is a local cursor plus a mirror of the server's game state. The model
  covers the `game-update` and `game-error` handlers, host detection, the
  input-enabled guard, settings edits and the start request. A handler that
  would dereference a missing `gameState` or `gameState.words` is modelled as
  throwing before any state update or emission.
- `Lobby` (lobby.dfy) models `MultiplayerLobbyPage.jsx`. It covers join-code
  normalisation and the navigation it triggers, the fixed `create-game`
  payload, and the navigation on `game-created`.

Behaviours of the code a reader might not expect:
- A word submission is detected when the *previous* buffer is non-empty
  (`length === 0`). The buffer is not checked for whitespace only: a buffer of
  `"\t"` is submitted and scored.
- In multiplayer the cursor advances only on a correct word. A wrong word only
  clears the buffer.
- No reconciliation by maximum takes place. `game-update` replaces the mirror
  wholesale and never touches the local cursor.
- A failed solo load shows an error view that has no controls, so the page
  offers no retry (`SoloGame.LoadFailureIsTerminal`).
- Only rendering keeps a non-host from editing settings or starting the game.
  The handlers themselves do not check host status.

## Model

| member | source | states |
|---|---|---|
| JsText.TrimIsSlice | src/pages/MultiplayerLobbyPage.jsx:40 | `trim` keeps a contiguous slice of its input, and everything it drops on either side is whitespace |
| JsText.Trim | src/pages/GamePage.jsx:70 | the trimmed string has no whitespace at either end and is no longer than the input |
| JsText.TrimOfPadded | src/pages/MultiplayerLobbyPage.jsx:40 | a core without outer whitespace, padded on both sides with whitespace, trims back to exactly that core |
| JsText.TrimIdempotent | src/pages/MultiplayerLobbyPage.jsx:40 | trimming twice is the same as trimming once |
| JsText.TrimEmptyIffAllSpace | src/pages/MultiplayerLobbyPage.jsx:39 | `trim` gives the empty string exactly when the input is all whitespace |
| JsText.TrimStartIsSuffix | src/pages/GamePage.jsx:70 | leading-whitespace removal keeps a suffix and drops only whitespace |
| JsText.TrimEndIsPrefix | src/pages/GamePage.jsx:70 | trailing-whitespace removal keeps a prefix and drops only whitespace |
| JsText.ToUpperShape | src/pages/MultiplayerLobbyPage.jsx:40 | upper-casing leaves no lower-case letter, keeps whitespace where it was, and is idempotent |
| JsText.ParseIntReadsDecimal | src/pages/GamePage.jsx:30 | `parseInt` reads back a decimal numeral, with or without the radix argument, after leading whitespace and before trailing text that starts with neither a digit nor x/X |
| JsText.ParseIntReadsNegative | src/pages/GamePage.jsx:30 | a leading minus sign negates the value read |
| JsText.ParseIntOfBlank | src/pages/MultiplayerGamePage.jsx:72 | an empty or all-whitespace word-count field parses to NaN |
| JsText.HexPrefixOnlyWithoutRadix | src/pages/MultiplayerGamePage.jsx:72 | a fact about `parseInt` alone: on "0x1A" `parseInt(value)` gives 26 and `parseInt(value, 10)` gives 0; the word-count fields of both pages are number inputs (src/pages/GamePage.jsx line 185, src/pages/MultiplayerGamePage.jsx line 126), so no user can see the difference |
| JsText.DecimalStringValue | src/pages/GamePage.jsx:30 | the digit value of a natural number's decimal numeral is that number |
| GameSettings.Merge | src/pages/GamePage.jsx:28-31 | the edited field takes the parsed value (`words` goes through parseInt) and every other field keeps its value |
| GameSettings.MergeLaws | src/pages/MultiplayerGamePage.jsx:70-73 | re-entering a text field's current value changes nothing, and a second edit of a field overrides the first |
| GameSettings.MergeWordCount | src/pages/MultiplayerGamePage.jsx:72 | typing a decimal word count stores exactly that number under either radix argument |
| SoloGame.ChangeSetting | src/pages/GamePage.jsx:26-31 | a settings edit replaces only the named field (radix-less parseInt for `words`) and leaves the play state alone |
| SoloGame.StartGame | src/pages/GamePage.jsx:34-38 | starting clears the error and sets started and loading, and changes nothing else |
| SoloGame.LoadSucceeded | src/pages/GamePage.jsx:39-46 | after a load the words are the fetched list, there is one unset mark per word, and loading is off |
| SoloGame.LoadFailed | src/pages/GamePage.jsx:42-47 | a failed load sets the fixed error message, turns loading off and keeps the words |
| SoloGame.GoBack | src/pages/GamePage.jsx:50-57 | "back to settings" gives not started, no words, an empty buffer, index 0, no marks and no error, and keeps the settings |
| SoloGame.GoBackRestoresInitial | src/pages/GamePage.jsx:50-57 | outside loading, "back to settings" returns exactly to the mount-time state, apart from the chosen settings |
| SoloGame.ArraySet | src/pages/GamePage.jsx:72-73 | writing one slot of the copied array sets that slot; in range the length is kept, and past the end the array grows with holes |
| SoloGame.TypeInput | src/pages/GamePage.jsx:65-80 | a space with an empty buffer is ignored; any other value without a trailing space becomes the buffer; a submission moves the index up by exactly 1 and clears the buffer; the old index is marked right iff the trimmed buffer equals that word (case-sensitive); no other mark changes |
| SoloGame.StyleClassification | src/pages/GamePage.jsx:239-250 | each word is exactly one of current (at the index), typed (before it, green iff its mark is true) or untyped (after it) |
| SoloGame.DispatchConsistent | src/pages/GamePage.jsx:34-80 | every event the page delivers keeps one mark per word and the index within the list, and typing moves the index by at most one |
| SoloGame.RunConsistent | src/pages/GamePage.jsx:34-80 | the consistency invariant holds after any sequence of events |
| SoloGame.DeliveredSubmissionInBounds | src/pages/GamePage.jsx:69-75 | with the input enabled, a submission overwrites an existing mark and keeps the array length |
| SoloGame.StartThenLoad | src/pages/GamePage.jsx:34-48 | start followed by a successful load shows the race at word 0 with every mark unset |
| SoloGame.LoadFailureIsTerminal | src/pages/GamePage.jsx:216-222 | after a failed load no later event changes the state, because the error view has no controls |
| SoloGame.TypeOneWord | src/pages/GamePage.jsx:65-80 | typing a word and then a space marks that word right and moves to the next one |
| SoloGame.TypeRemaining | src/pages/GamePage.jsx:65-82 | typing every remaining word correctly from index k ends at the last index (the word count) with every mark right |
| SoloGame.TypingEveryWordWins | src/pages/GamePage.jsx:65-82 | from a fresh load, typing each word followed by a space ends the game at the last index (the word count) with every mark true |
| MultiplayerGame.Mount | src/pages/MultiplayerGamePage.jsx:19-22 | mounting emits one `join-game` with the route's id and the username, and starts with no mirror and index 0 |
| MultiplayerGame.IsHost | src/pages/MultiplayerGamePage.jsx:83 | with a connected socket, the client is host iff the player list is non-empty and its first id is the socket's id; with no players it is "host" exactly when the socket has no id |
| MultiplayerGame.InputEnabledMeaning | src/pages/MultiplayerGamePage.jsx:240 | input is enabled iff there is no error, the status is "inprogress", a word list exists and the index is below its length; a missing word list counts as game over |
| MultiplayerGame.OnInput | src/pages/MultiplayerGamePage.jsx:44-62 | a space with an empty buffer emits nothing and changes nothing; any other value without a trailing space becomes the buffer; a correct word moves the index up by 1, clears the buffer and emits exactly one progress update carrying the new index; a wrong word only clears the buffer and emits nothing |
| MultiplayerGame.OnGameUpdate | src/pages/MultiplayerGamePage.jsx:24-25 | `game-update` puts the snapshot in the mirror and does not touch the local index, buffer or error |
| MultiplayerGame.GameUpdateLaws | src/pages/MultiplayerGamePage.jsx:24-25 | applying a snapshot twice is the same as applying it once, and a later snapshot overrides an earlier one |
| MultiplayerGame.OnGameError | src/pages/MultiplayerGamePage.jsx:26 | `game-error` stores the message and nothing else |
| MultiplayerGame.OnSettingChange | src/pages/MultiplayerGamePage.jsx:68-75 | a settings edit emits exactly one `update-settings`: the mirror's settings with only the named field replaced (`words` through parseInt with radix 10); local state is unchanged; with no mirror the handler throws |
| MultiplayerGame.OnStartClicked | src/pages/MultiplayerGamePage.jsx:64-66 | the start button emits `start-game` with the game id and changes nothing |
| MultiplayerGame.DeliveredNeverThrows | src/pages/MultiplayerGamePage.jsx:77-81 | no event the page can deliver reaches a missing `gameState` or word list |
| MultiplayerGame.HostOnlyControls | src/pages/MultiplayerGamePage.jsx:177-184 | settings edits and start requests are delivered only to the host, and only in the waiting room |
| MultiplayerGame.StepProgress | src/pages/MultiplayerGamePage.jsx:49-58 | one event moves the index by 0 or 1, and it emits a progress update (the new index) iff the index moves |
| MultiplayerGame.RunProgress | src/pages/MultiplayerGamePage.jsx:44-62 | over any event sequence the index never decreases and rises at most one per event, and the progress values emitted are exactly old index + 1 through the final index |
| MultiplayerGame.ProgressStrictlyIncreasing | src/pages/MultiplayerGamePage.jsx:53-56 | the emitted progress values strictly increase |
| Lobby.NormaliseCode | src/pages/MultiplayerLobbyPage.jsx:40 | the normalised code has no whitespace at either end and no lower-case letters |
| Lobby.NormaliseIdempotent | src/pages/MultiplayerLobbyPage.jsx:40 | normalising twice is the same as normalising once |
| Lobby.NormaliseKeepsCanonical | src/pages/MultiplayerLobbyPage.jsx:40 | an upper-case code without surrounding whitespace is kept exactly as typed |
| Lobby.NormaliseIgnoresPaddingAndCase | src/pages/MultiplayerLobbyPage.jsx:40 | surrounding whitespace is dropped and the rest is upper-cased |
| Lobby.JoinTarget | src/pages/MultiplayerLobbyPage.jsx:37-42 | a code that is all whitespace causes no navigation; any other code navigates to "/game/multiplayer/" followed by its non-empty normalised form |
| Lobby.CreateGameEmits | src/pages/MultiplayerLobbyPage.jsx:31-35 | with a socket, creating a game emits exactly one `create-game` with `{difficulty: "medium", category: "english", words: 30}`; without a socket it emits nothing |
| Lobby.CreatedTarget | src/pages/MultiplayerLobbyPage.jsx:20-22 | on `game-created` the route is "/game/multiplayer/" followed by the id as received |
| Lobby.CreatedAndJoinedAgree | src/pages/MultiplayerLobbyPage.jsx:20-42 | joining by a canonical game id leads to the same route as the creation reply for that id |

## Left out

- Rendering, Tailwind classes, focus effects and the multiplayer word colouring (MultiplayerGamePage.jsx:216-231) are not modelled; they are display only.
- The progress-bar width (MultiplayerGamePage.jsx:205-208) is not modelled. It is floating-point display arithmetic, and `progress / length || 1` shows 100% at progress 0.
- Socket transport, connection and the `on`/`off` teardown (SocketProvider.jsx, MultiplayerGamePage.jsx:28-34) are not modelled. Emissions are a returned list, and socket handlers are events delivered while the page is mounted.
- Server behaviour is not part of this model: snapshot contents, host enforcement and code generation. A snapshot is an arbitrary input.
- HTTP and authentication are not modelled (gameService.js, authService.js, AuthProvider.jsx, the `!user` redirects). The fetched word list is an input, and a failed request is the `LoadErrored` event.
- Routing, layout and the other pages (main.jsx, App.jsx, HomePage.jsx, RegisterPage.jsx, NavBar.jsx) are not modelled.
- The HTML-only limits are not enforced in the model because the code does not enforce them: the 10-50 word count and the 4-character code length.
- JsText.ToUpper: maps only ASCII a-z. JavaScript's full Unicode case mapping can change the string's length (for example "ß" becomes "SS").
- JsText.ParseInt: does not model `-0`, and does not model the loss of precision on numerals beyond 2^53. Values are unbounded integers.
- The socket's id is fixed for the life of the page. A reconnection, which changes `socket.id`, is not modelled.
- SoloGame.Dispatch: the text request's completion is delivered only while loading, and exactly once per start. A response that arrives out of order across separate starts is not modelled.
