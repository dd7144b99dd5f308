/**
  Race settings as both pages hold them (`{difficulty, category, words}`)
  and the form-field merge both pages perform on a change event: the object
  spread `{...prev, [name]: name === "words" ? parseInt(value) : value}`.
*/
module GameSettings {
  import opened JsText

  /** `words` is whatever `parseInt` returned, so it may be NaN. */
  datatype Settings = Settings(difficulty: string, category: string, words: JsNumber)

  /** The `name` attributes of the settings inputs. */
  datatype Field = Difficulty | Category | Words

  /** A field's value: text for the two selects, a number for the word count. */
  datatype FieldValue = Text(text: string) | Number(number: JsNumber)

  /** `{difficulty: "medium", category: "english", words: 30}`. */
  const DefaultSettings := Settings("medium", "english", Num(30))

  function Get(s: Settings, f: Field): FieldValue {
    match f
    case Difficulty => Text(s.difficulty)
    case Category => Text(s.category)
    case Words => Number(s.words)
  }

  /** The value an input event stores: `words` goes through parseInt. */
  function Parse(f: Field, value: string, radix: Radix): FieldValue {
    if f == Words then Number(ParseInt(value, radix)) else Text(value)
  }

  /** The spread merge: the named field takes the parsed value, the others keep theirs. */
  function Merge(s: Settings, f: Field, value: string, radix: Radix): (r: Settings)
    ensures Get(r, f) == Parse(f, value, radix)
    ensures forall g :: g != f ==> Get(r, g) == Get(s, g)
  {
    match f
    case Difficulty => s.(difficulty := value)
    case Category => s.(category := value)
    case Words => s.(words := ParseInt(value, radix))
  }

  /** Re-entering a field's current text is a no-op; a later edit of the same field overrides an earlier one. */
  lemma MergeLaws(s: Settings, f: Field, v1: string, v2: string, radix: Radix)
    ensures f != Words ==> Merge(s, f, Get(s, f).text, radix) == s
    ensures Merge(Merge(s, f, v1, radix), f, v2, radix) == Merge(s, f, v2, radix)
  {
  }

  /** Typing a decimal word count stores exactly that number, whatever the radix argument. */
  lemma MergeWordCount(s: Settings, n: nat, radix: Radix)
    ensures Merge(s, Words, DecimalString(n), radix) == s.(words := Num(n))
  {
    assert DecimalString(n) == [] + DecimalString(n) + [];
    ParseIntReadsDecimal([], n, [], radix);
  }
}
