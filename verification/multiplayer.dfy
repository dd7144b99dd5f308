/**
  The multiplayer race client of src/pages/MultiplayerGamePage.jsx: a local
  typing cursor (`currentInput`, `currentWordIndex`) next to a mirror of the
  server's game state (`gameState`), which every `game-update` replaces. The
  cursor advances only on a correctly typed word, and each advance emits one
  `player-progress-update` carrying the new index.
*/
module MultiplayerGame {
  import opened Wrappers
  import opened JsText
  import opened GameSettings
  import opened Protocol

  datatype Player = Player(id: string, username: string, progress: int)

  /** The server's game state as pushed by `game-update`; `words` may be absent. */
  datatype Snapshot = Snapshot(
    id: string,
    status: string,
    players: seq<Player>,
    settings: Settings,
    words: Option<seq<string>>)

  /**
    The page's state: the route's game id, the socket's own id (`undefined`
    while disconnected), the mirror (`null` until the first update), the
    error text (empty when none) and the local typing cursor.
  */
  datatype Client = Client(
    gameId: string,
    socketId: Option<string>,
    mirror: Option<Snapshot>,
    error: string,
    input: string,
    index: nat)

  /**
    What a handler does: it either runs to completion, with a new state and
    the events it emitted, or throws a TypeError before any state update or
    emission (dereferencing a missing `gameState` or `gameState.words`).
  */
  datatype Outcome = Handled(next: Client, emitted: seq<Emit>) | Threw

  const Waiting := "waiting"
  const InProgress := "inprogress"

  /** Mounting with a socket and a user emits `join-game` and waits for the first update. */
  function Mount(gameId: string, socketId: Option<string>, username: string): (r: Outcome)
    ensures r.Handled? && r.emitted == [JoinGame(gameId, username)]
    ensures r.next.gameId == gameId && r.next.socketId == socketId
    ensures r.next.mirror == None && r.next.error == ""
    ensures r.next.input == "" && r.next.index == 0
  {
    Handled(Client(gameId, socketId, None, "", "", 0), [JoinGame(gameId, username)])
  }

  // ---------------------------------------------------------------------------
  // Derived views
  // ---------------------------------------------------------------------------

  /**
    `gameState.players[0]?.id === socket.id`: with players present, the first
    joiner's id against our own; with none, `undefined === socket.id`.
  */
  function IsHost(g: Snapshot, socketId: Option<string>): (host: bool)
    ensures socketId.Some? ==> (host <==> |g.players| > 0 && g.players[0].id == socketId.value)
    ensures |g.players| == 0 ==> (host <==> socketId == None)
  {
    (if |g.players| > 0 then Some(g.players[0].id) else None) == socketId
  }

  /** `gameState.words?.length || 0`. */
  function WordCount(g: Snapshot): nat {
    match g.words
    case None => 0
    case Some(ws) => |ws|
  }

  /** `isGameOver`. */
  predicate IsGameOver(c: Client, g: Snapshot) {
    c.index >= WordCount(g)
  }

  /**
    The text input is rendered (no error, a mirror, not in the waiting room)
    and not disabled (`isGameOver || status !== "inprogress"`).
  */
  predicate InputEnabled(c: Client) {
    && c.error == ""
    && c.mirror.Some?
    && c.mirror.value.status != Waiting
    && !(IsGameOver(c, c.mirror.value) || c.mirror.value.status != InProgress)
  }

  /** The input is enabled exactly while the race is in progress and words remain. */
  lemma InputEnabledMeaning(c: Client)
    ensures InputEnabled(c) <==>
              && c.error == "" && c.mirror.Some?
              && c.mirror.value.status == InProgress
              && c.mirror.value.words.Some?
              && c.index < |c.mirror.value.words.value|
  {
  }

  /** The settings inputs and the start button: shown to the host in the waiting room. */
  predicate HostControlsShown(c: Client) {
    && c.error == ""
    && c.mirror.Some?
    && c.mirror.value.status == Waiting
    && IsHost(c.mirror.value, c.socketId)
  }

  // ---------------------------------------------------------------------------
  // Handlers
  // ---------------------------------------------------------------------------

  /** `words[i] === typed`, where `words[i]` past the end is `undefined`. */
  predicate MatchesWord(ws: seq<string>, i: nat, typed: string) {
    i < |ws| && ws[i] == typed
  }

  /**
    `handleInputChange`. Detecting a submission works as in the solo race;
    a correct word advances the cursor by one and reports the new index,
    a wrong word only clears the buffer.
  */
  function OnInput(c: Client, value: string): (r: Outcome)
    // A space with an empty buffer is ignored: no change, no emission.
    ensures EndsWithSpace(value) && |c.input| == 0 ==> r == Handled(c, [])
    // Any other value not ending in a space just becomes the buffer.
    ensures !EndsWithSpace(value) ==> r == Handled(c.(input := value), [])
    // A submission needs the mirror's word list.
    ensures EndsWithSpace(value) && |c.input| > 0 ==>
              (r.Threw? <==> c.mirror == None || c.mirror.value.words == None)
    ensures EndsWithSpace(value) && |c.input| > 0 && r.Handled? ==>
              var ws := c.mirror.value.words.value;
              && r.next.input == ""
              && r.next == c.(input := "", index := r.next.index)
              && (MatchesWord(ws, c.index, Trim(c.input)) ==>
                    r.next.index == c.index + 1
                    && r.emitted == [ProgressUpdate(c.gameId, r.next.index)])
              && (!MatchesWord(ws, c.index, Trim(c.input)) ==>
                    r.next.index == c.index && r.emitted == [])
  {
    if EndsWithSpace(value) then
      if |c.input| == 0 then Handled(c, [])
      else if c.mirror == None || c.mirror.value.words == None then Threw
      else if MatchesWord(c.mirror.value.words.value, c.index, Trim(c.input)) then
        var newIndex := c.index + 1;
        Handled(c.(index := newIndex, input := ""), [ProgressUpdate(c.gameId, newIndex)])
      else Handled(c.(input := ""), [])
    else Handled(c.(input := value), [])
  }

  /** `game-update`: the mirror is replaced wholesale; the local cursor is untouched. */
  function OnGameUpdate(c: Client, snapshot: Snapshot): (r: Client)
    ensures r.mirror == Some(snapshot)
    ensures r.index == c.index && r.input == c.input && r.error == c.error
    ensures r.gameId == c.gameId && r.socketId == c.socketId
  {
    c.(mirror := Some(snapshot))
  }

  /** `game-error`: the message is stored and from then on rendered instead of the game. */
  function OnGameError(c: Client, message: string): (r: Client)
    ensures r.error == message
    ensures r == c.(error := message)
  {
    c.(error := message)
  }

  /**
    `handleSettingsChange`: emits `update-settings` with the mirror's settings
    and the one edited field replaced (`words` through `parseInt(value, 10)`).
    The mirror itself is not touched; the server's echo will replace it.
  */
  function OnSettingChange(c: Client, f: Field, value: string): (r: Outcome)
    ensures r.Threw? <==> c.mirror == None
    ensures r.Handled? ==>
              && r.next == c
              && |r.emitted| == 1 && r.emitted[0].UpdateSettings?
              && r.emitted[0].gameId == c.gameId
              && Get(r.emitted[0].newSettings, f) == Parse(f, value, Decimal)
              && forall g :: g != f ==>
                   Get(r.emitted[0].newSettings, g) == Get(c.mirror.value.settings, g)
  {
    match c.mirror
    case None => Threw
    case Some(g) => Handled(c, [UpdateSettings(c.gameId, Merge(g.settings, f, value, Decimal))])
  }

  /** `handleStartGame`: emits `start-game`; the handler itself does not check host status. */
  function OnStartClicked(c: Client): (r: Outcome)
    ensures r == Handled(c, [StartGame(c.gameId)])
  {
    Handled(c, [StartGame(c.gameId)])
  }

  // ---------------------------------------------------------------------------
  // Event sequences
  // ---------------------------------------------------------------------------

  datatype MpEvent =
    | Typed(value: string)
    | GameUpdated(snapshot: Snapshot)
    | GameErrored(message: string)
    | SettingChanged(field: Field, value: string)
    | StartClicked

  function Apply(c: Client, e: MpEvent): Outcome {
    match e
    case Typed(v) => OnInput(c, v)
    case GameUpdated(g) => Handled(OnGameUpdate(c, g), [])
    case GameErrored(m) => Handled(OnGameError(c, m), [])
    case SettingChanged(f, v) => OnSettingChange(c, f, v)
    case StartClicked => OnStartClicked(c)
  }

  /**
    Whether the page can deliver the event: socket updates always arrive while
    mounted, the input and the host controls only while rendered and enabled.
  */
  predicate Deliverable(c: Client, e: MpEvent) {
    match e
    case Typed(_) => InputEnabled(c)
    case GameUpdated(_) => true
    case GameErrored(_) => true
    case SettingChanged(_, _) => HostControlsShown(c)
    case StartClicked => HostControlsShown(c)
  }

  /** Nothing the page actually delivers throws. */
  lemma DeliveredNeverThrows(c: Client, e: MpEvent)
    requires Deliverable(c, e)
    ensures Apply(c, e).Handled?
  {
  }

  /** Only the host in the waiting room can have a settings edit or a start request delivered. */
  lemma HostOnlyControls(c: Client, e: MpEvent)
    requires e.SettingChanged? || e.StartClicked?
    requires Deliverable(c, e)
    ensures c.mirror.Some? && c.mirror.value.status == Waiting
    ensures IsHost(c.mirror.value, c.socketId)
  {
  }

  /** One event, where a thrown TypeError changes nothing and emits nothing. */
  function Step(c: Client, e: MpEvent): Outcome {
    match Apply(c, e)
    case Handled(n, out) => Handled(n, out)
    case Threw => Handled(c, [])
  }

  /** The final state and every event emitted, in order, over a sequence of events. */
  function Run(c: Client, es: seq<MpEvent>): (r: Outcome)
    ensures r.Handled?
    decreases |es|
  {
    if es == [] then Handled(c, [])
    else
      var first := Step(c, es[0]);
      var rest := Run(first.next, es[1..]);
      Handled(rest.next, first.emitted + rest.emitted)
  }

  /** The `progress` values of the emitted progress updates, in emission order. */
  function Progresses(out: seq<Emit>): seq<int>
    decreases |out|
  {
    if out == [] then []
    else (if out[0].ProgressUpdate? then [out[0].progress] else []) + Progresses(out[1..])
  }

  lemma {:induction false} ProgressesAppend(a: seq<Emit>, b: seq<Emit>)
    ensures Progresses(a + b) == Progresses(a) + Progresses(b)
    decreases |a|
  {
    if a == [] {
      assert a + b == b;
    } else {
      assert (a + b)[0] == a[0];
      assert (a + b)[1..] == a[1..] + b;
      ProgressesAppend(a[1..], b);
    }
  }

  /** The integers `lo, lo + 1, ..., hi - 1`. */
  function Range(lo: int, hi: int): (r: seq<int>)
    requires lo <= hi
    ensures |r| == hi - lo && forall k :: 0 <= k < |r| ==> r[k] == lo + k
  {
    seq(hi - lo, k => lo + k)
  }

  lemma RangeSplit(lo: int, mid: int, hi: int)
    requires lo <= mid <= hi
    ensures Range(lo, mid) + Range(mid, hi) == Range(lo, hi)
  {
  }

  /** Two consecutive stretches of progress updates join into one. */
  lemma TraceConcat(lo: int, mid: int, hi: int, a: seq<Emit>, b: seq<Emit>)
    requires lo <= mid <= hi
    requires Progresses(a) == Range(lo, mid) && Progresses(b) == Range(mid, hi)
    ensures Progresses(a + b) == Range(lo, hi)
  {
    ProgressesAppend(a, b);
    RangeSplit(lo, mid, hi);
  }

  /** One event moves the cursor by at most one, reporting the new index iff it moves. */
  lemma StepProgress(c: Client, e: MpEvent)
    ensures var r := Step(c, e);
            && (r.next.index == c.index || r.next.index == c.index + 1)
            && Progresses(r.emitted) == Range(c.index + 1, r.next.index + 1)
  {
    var r := Step(c, e);
    if r.emitted != [] {
      assert r.emitted[1..] == [];
    }
  }

  /**
    Over any sequence of events the cursor never moves back and moves at most
    one word per event, and the progress updates emitted are exactly the
    successive new indices: strictly increasing, one per step forward.
  */
  lemma {:induction false} RunProgress(c: Client, es: seq<MpEvent>)
    ensures var r := Run(c, es);
            && c.index <= r.next.index <= c.index + |es|
            && Progresses(r.emitted) == Range(c.index + 1, r.next.index + 1)
    decreases |es|
  {
    if es != [] {
      var first := Step(c, es[0]);
      var rest := Run(first.next, es[1..]);
      assert Run(c, es) == Handled(rest.next, first.emitted + rest.emitted);
      StepProgress(c, es[0]);
      RunProgress(first.next, es[1..]);
      TraceConcat(c.index + 1, first.next.index + 1, rest.next.index + 1, first.emitted, rest.emitted);
    }
  }

  /** Hence the emitted progress values strictly increase. */
  lemma ProgressStrictlyIncreasing(c: Client, es: seq<MpEvent>, i: int, j: int)
    requires var p := Progresses(Run(c, es).emitted); 0 <= i < j < |p|
    ensures var p := Progresses(Run(c, es).emitted); p[i] < p[j]
  {
    RunProgress(c, es);
  }

  /** Applying the same snapshot twice is applying it once; a later snapshot overrides an earlier one. */
  lemma GameUpdateLaws(c: Client, a: Snapshot, b: Snapshot)
    ensures OnGameUpdate(OnGameUpdate(c, a), a) == OnGameUpdate(c, a)
    ensures OnGameUpdate(OnGameUpdate(c, a), b) == OnGameUpdate(c, b)
  {
  }
}
