/**
  The solo typing race of src/pages/GamePage.jsx: the settings form, the
  asynchronous text load, the typing cursor (`currentInput`,
  `currentWordIndex`, `correctlyTypedWords`), the game-over test, the
  "back to settings" reset and the per-word display classification.
*/
module SoloGame {
  import opened Wrappers
  import opened JsText
  import opened GameSettings

  /** One slot of `correctlyTypedWords`: `null` (or an array hole), `true` or `false`. */
  datatype Mark = Unset | Right | Wrong

  /** The page's React state. */
  datatype Solo = Solo(
    settings: Settings,
    started: bool,
    words: seq<string>,
    loading: bool,
    error: Option<string>,
    input: string,
    index: nat,
    marks: seq<Mark>)

  const LoadErrorMessage := "Failed to load the game text. Please try again."

  /** The state the page mounts with. */
  const Initial := Solo(DefaultSettings, false, [], false, None, "", 0, [])

  /** `words[i]`: the word, or `undefined` past the end. */
  function WordAt(words: seq<string>, i: nat): Option<string> {
    if i < |words| then Some(words[i]) else None
  }

  /** `a[i]` read from the correctness array; past the end it is `undefined`, i.e. not true. */
  function MarkAt(marks: seq<Mark>, i: nat): Mark {
    if i < |marks| then marks[i] else Unset
  }

  /** `Array(n).fill(null)`. */
  function Unsets(n: nat): (r: seq<Mark>)
    ensures |r| == n && forall k :: 0 <= k < n ==> r[k] == Unset
  {
    seq(n, _ => Unset)
  }

  /**
    `a[i] = m` on a JavaScript array copy: in range it overwrites one slot,
    past the end it grows the array, leaving holes in between.
  */
  function ArraySet(a: seq<Mark>, i: nat, m: Mark): (r: seq<Mark>)
    ensures |r| == if i < |a| then |a| else i + 1
    ensures r[i] == m
    ensures forall k :: 0 <= k < |r| && k != i ==> r[k] == MarkAt(a, k)
  {
    if i < |a| then a[i := m] else a + Unsets(i - |a|) + [m]
  }

  // ---------------------------------------------------------------------------
  // Handlers
  // ---------------------------------------------------------------------------

  /** `handleSettingsChange`: `parseInt` is called without a radix here. */
  function ChangeSetting(s: Solo, f: Field, value: string): (r: Solo)
    ensures Get(r.settings, f) == Parse(f, value, Auto)
    ensures forall g :: g != f ==> Get(r.settings, g) == Get(s.settings, g)
    ensures r == s.(settings := r.settings)
  {
    s.(settings := Merge(s.settings, f, value, Auto))
  }

  /** The synchronous part of `startGame`, before the text request resolves. */
  function StartGame(s: Solo): (r: Solo)
    ensures r.started && r.loading && r.error == None
    ensures r.words == s.words && r.input == s.input && r.index == s.index && r.marks == s.marks
    ensures r.settings == s.settings
  {
    s.(error := None, loading := true, started := true)
  }

  /** The request resolved with a word list. */
  function LoadSucceeded(s: Solo, words: seq<string>): (r: Solo)
    ensures r.words == words && !r.loading
    ensures |r.marks| == |words| && forall k :: 0 <= k < |words| ==> r.marks[k] == Unset
    ensures r.index == s.index && r.input == s.input && r.error == s.error
    ensures r.started == s.started && r.settings == s.settings
  {
    s.(words := words, marks := Unsets(|words|), loading := false)
  }

  /** The request failed: the error is shown and the words stay as they were. */
  function LoadFailed(s: Solo): (r: Solo)
    ensures r.error == Some(LoadErrorMessage) && !r.loading
    ensures r == s.(error := r.error, loading := false)
  {
    s.(error := Some(LoadErrorMessage), loading := false)
  }

  /** `handleGoBack`: back to the settings form, keeping the chosen settings. */
  function GoBack(s: Solo): (r: Solo)
    ensures !r.started && r.words == [] && r.input == "" && r.index == 0
    ensures r.marks == [] && r.error == None
    ensures r.settings == s.settings && r.loading == s.loading
  {
    s.(started := false, words := [], input := "", index := 0, marks := [], error := None)
  }

  /** A change event is a word submission when it ends in a space and the buffer is non-empty. */
  predicate IsSubmission(s: Solo, value: string) {
    EndsWithSpace(value) && |s.input| > 0
  }

  /** Whether submitting the current buffer scores the current word as typed correctly. */
  predicate SubmissionCorrect(s: Solo) {
    WordAt(s.words, s.index) == Some(Trim(s.input))
  }

  /**
    `handleInputChange`. A submission marks the current word right or wrong
    and moves on to the next word either way.
  */
  function TypeInput(s: Solo, value: string): (r: Solo)
    // A space with an empty buffer is ignored.
    ensures EndsWithSpace(value) && |s.input| == 0 ==> r == s
    // Any other non-space-terminated value just becomes the buffer.
    ensures !EndsWithSpace(value) ==> r == s.(input := value)
    // A submission: one step forward, buffer cleared, one mark written.
    ensures IsSubmission(s, value) ==>
              && r.index == s.index + 1
              && r.input == ""
              && s.index < |r.marks|
              && (r.marks[s.index] == Right <==> s.index < |s.words| && Trim(s.input) == s.words[s.index])
              && (r.marks[s.index] == Wrong <==> !(s.index < |s.words| && Trim(s.input) == s.words[s.index]))
              && (s.index < |s.marks| ==> |r.marks| == |s.marks|)
              && (forall k :: 0 <= k < |r.marks| && k != s.index ==> r.marks[k] == MarkAt(s.marks, k))
              && r == s.(index := r.index, input := r.input, marks := r.marks)
  {
    if EndsWithSpace(value) then
      if |s.input| == 0 then s
      else
        var isCorrect := SubmissionCorrect(s);
        s.(marks := ArraySet(s.marks, s.index, if isCorrect then Right else Wrong),
           index := s.index + 1,
           input := "")
    else s.(input := value)
  }

  /** `isGameOver`. */
  predicate IsGameOver(s: Solo) {
    s.index >= |s.words|
  }

  // ---------------------------------------------------------------------------
  // Display classification of each word
  // ---------------------------------------------------------------------------

  datatype WordStyle = Current | TypedRight | TypedWrong | Untyped

  /** The class chosen for word `i`: current, typed (green if its mark is true, else red), or untyped. */
  function StyleOf(s: Solo, i: nat): WordStyle {
    if i == s.index then Current
    else if i < s.index then (if MarkAt(s.marks, i) == Right then TypedRight else TypedWrong)
    else Untyped
  }

  /** Every word falls in exactly one class, decided by its position relative to the cursor. */
  lemma StyleClassification(s: Solo, i: nat)
    ensures StyleOf(s, i) == Current <==> i == s.index
    ensures StyleOf(s, i) in {TypedRight, TypedWrong} <==> i < s.index
    ensures StyleOf(s, i) == Untyped <==> i > s.index
    ensures StyleOf(s, i) == TypedRight <==> i < s.index && MarkAt(s.marks, i) == Right
  {
  }

  // ---------------------------------------------------------------------------
  // What the page lets through, and the invariant it keeps
  // ---------------------------------------------------------------------------

  datatype SoloEvent =
    | SettingChanged(field: Field, value: string)
    | StartClicked
    | Loaded(loadedWords: seq<string>)
    | LoadErrored
    | Typed(value: string)
    | BackClicked

  /** The race screen (words, input and back button) is rendered. */
  predicate PlayScreenShown(s: Solo) {
    s.started && !s.loading && s.error == None
  }

  /** The text input is rendered and not disabled. */
  predicate InputEnabled(s: Solo) {
    PlayScreenShown(s) && !IsGameOver(s)
  }

  /**
    Which events can reach a handler: the settings form only before the start,
    the load completions only while loading, typing only into an enabled input,
    the back button only on the race screen.
  */
  predicate Deliverable(s: Solo, e: SoloEvent) {
    match e
    case SettingChanged(_, _) => !s.started
    case StartClicked => !s.started
    case Loaded(_) => s.loading
    case LoadErrored => s.loading
    case Typed(_) => InputEnabled(s)
    case BackClicked => PlayScreenShown(s)
  }

  function Handle(s: Solo, e: SoloEvent): Solo {
    match e
    case SettingChanged(f, v) => ChangeSetting(s, f, v)
    case StartClicked => StartGame(s)
    case Loaded(ws) => LoadSucceeded(s, ws)
    case LoadErrored => LoadFailed(s)
    case Typed(v) => TypeInput(s, v)
    case BackClicked => GoBack(s)
  }

  /** An event the page cannot deliver leaves the state alone. */
  function Dispatch(s: Solo, e: SoloEvent): Solo {
    if Deliverable(s, e) then Handle(s, e) else s
  }

  function Run(s: Solo, es: seq<SoloEvent>): Solo
    decreases |es|
  {
    if es == [] then s else Run(Dispatch(s, es[0]), es[1..])
  }

  /**
    The shape every reachable state has: one mark per word, the cursor within
    the word list, and a fresh cursor whenever the race screen is not up
    because the form or the loading view is showing.
  */
  predicate Consistent(s: Solo) {
    && |s.marks| == |s.words|
    && s.index <= |s.words|
    && ((!s.started || s.loading) ==> s.index == 0 && s.input == "")
  }

  lemma InitialConsistent()
    ensures Consistent(Initial)
  {
  }

  /** Every delivered event keeps the state consistent, and the cursor moves by at most one. */
  lemma DispatchConsistent(s: Solo, e: SoloEvent)
    requires Consistent(s)
    ensures Consistent(Dispatch(s, e))
    ensures e.Typed? ==> Dispatch(s, e).index == s.index || Dispatch(s, e).index == s.index + 1
  {
  }

  lemma {:induction false} RunConsistent(s: Solo, es: seq<SoloEvent>)
    requires Consistent(s)
    ensures Consistent(Run(s, es))
    decreases |es|
  {
    if es != [] {
      DispatchConsistent(s, es[0]);
      RunConsistent(Dispatch(s, es[0]), es[1..]);
    }
  }

  /**
    In a consistent state a delivered keystroke never overruns the arrays: a
    submission writes a slot that already exists, so the array keeps its length.
  */
  lemma DeliveredSubmissionInBounds(s: Solo, value: string)
    requires Consistent(s) && InputEnabled(s) && IsSubmission(s, value)
    ensures s.index < |s.words| && s.index < |s.marks|
    ensures |TypeInput(s, value).marks| == |s.marks|
    ensures TypeInput(s, value).marks[s.index] == (if Trim(s.input) == s.words[s.index] then Right else Wrong)
  {
  }

  /** After a successful load from the settings form, the race starts at word 0 with every mark unset. */
  lemma {:induction false} StartThenLoad(s: Solo, words: seq<string>)
    requires Consistent(s) && !s.started
    ensures var t := Run(s, [StartClicked, Loaded(words)]);
            && PlayScreenShown(t) && Consistent(t)
            && t.words == words && t.index == 0 && t.input == ""
            && t.marks == Unsets(|words|)
  {
    var a := Dispatch(s, StartClicked);
    assert [StartClicked, Loaded(words)][1..] == [Loaded(words)];
    assert [Loaded(words)][1..] == [];
    var b := Dispatch(a, Loaded(words));
    assert Run(b, []) == b;
    assert Run(a, [Loaded(words)]) == b;
  }

  /**
    After a failed load the page only shows the error text: no control is
    rendered, so no later event changes anything.
  */
  lemma {:induction false} LoadFailureIsTerminal(s: Solo, es: seq<SoloEvent>)
    requires s.started && !s.loading && s.error.Some?
    ensures Run(s, es) == s
    decreases |es|
  {
    if es != [] {
      assert Dispatch(s, es[0]) == s;
      LoadFailureIsTerminal(s, es[1..]);
    }
  }

  /** "Back to settings" always returns to the mount-time play state, only the settings are kept. */
  lemma GoBackRestoresInitial(s: Solo)
    requires !s.loading
    ensures GoBack(s) == Initial.(settings := s.settings)
  {
  }

  // ---------------------------------------------------------------------------
  // End-to-end: typing every word correctly
  // ---------------------------------------------------------------------------

  /** A word that can be typed and then submitted as is: non-empty, no whitespace at either end. */
  predicate Typable(w: string) {
    |w| > 0 && NoOuterSpace(w)
  }

  /** Each word pasted into the input, then followed by a space. */
  function TypingOf(ws: seq<string>): (es: seq<SoloEvent>)
    ensures |es| == 2 * |ws|
  {
    if ws == [] then [] else [Typed(ws[0]), Typed(ws[0] + " ")] + TypingOf(ws[1..])
  }

  lemma TypableNotSubmission(w: string)
    requires Typable(w)
    ensures !EndsWithSpace(w) && EndsWithSpace(w + " ")
    ensures Trim(w) == w
  {
    assert (w + " ")[|w|] == ' ';
    TrimFixesTrimmed(w);
  }

  /** Typing one word correctly from the race screen. */
  lemma TypeOneWord(s: Solo, w: string)
    requires PlayScreenShown(s) && s.input == "" && s.index < |s.words| && s.words[s.index] == w
    requires Typable(w)
    ensures var t := Dispatch(Dispatch(s, Typed(w)), Typed(w + " "));
            && t == s.(index := s.index + 1, marks := ArraySet(s.marks, s.index, Right))
  {
    TypableNotSubmission(w);
  }

  lemma {:induction false} TypeRemaining(s: Solo, k: nat)
    requires PlayScreenShown(s) && s.input == "" && s.index == k <= |s.words|
    requires |s.marks| == |s.words|
    requires forall j :: 0 <= j < k ==> s.marks[j] == Right
    requires forall j :: 0 <= j < |s.words| ==> Typable(s.words[j])
    ensures var t := Run(s, TypingOf(s.words[k..]));
            && t.index == |s.words| && t.input == "" && t.words == s.words
            && |t.marks| == |s.words|
            && forall j :: 0 <= j < |t.marks| ==> t.marks[j] == Right
    decreases |s.words| - k
  {
    var ws := s.words[k..];
    if k == |s.words| {
      assert ws == [];
    } else {
      var w := s.words[k];
      assert ws[0] == w && ws[1..] == s.words[k + 1..];
      TypeOneWord(s, w);
      var a := Dispatch(s, Typed(w));
      var b := Dispatch(a, Typed(w + " "));
      var rest := TypingOf(s.words[k + 1..]);
      var es := TypingOf(ws);
      assert es == [Typed(w), Typed(w + " ")] + rest;
      assert es[0] == Typed(w) && es[1..] == [Typed(w + " ")] + rest;
      assert ([Typed(w + " ")] + rest)[0] == Typed(w + " ");
      assert ([Typed(w + " ")] + rest)[1..] == rest;
      assert Run(s, es) == Run(b, rest);
      TypeRemaining(b, k + 1);
    }
  }

  /**
    From a fresh load, typing each word followed by a space finishes the race
    with every word marked correct.
  */
  lemma TypingEveryWordWins(s: Solo, words: seq<string>)
    requires Consistent(s) && !s.started
    requires forall j :: 0 <= j < |words| ==> Typable(words[j])
    ensures var t := Run(Run(s, [StartClicked, Loaded(words)]), TypingOf(words));
            && IsGameOver(t) && t.index == |words|
            && |t.marks| == |words| && forall j :: 0 <= j < |words| ==> t.marks[j] == Right
  {
    StartThenLoad(s, words);
    var l := Run(s, [StartClicked, Loaded(words)]);
    assert words[0..] == words;
    TypeRemaining(l, 0);
  }
}
