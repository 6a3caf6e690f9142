/** The user's pick among the three options (bot.py:107-110) and the column
    it names (bot.py:123). */
module Choices {
  import opened Wrappers

  datatype Choice = One | Two | Three

  /** The message text that selects each option. */
  function Text(c: Choice): string {
    match c
    case One => "1"
    case Two => "2"
    case Three => "3"
  }

  /** The guard `eleccion not in ["1", "2", "3"]`: only those three exact texts
      are a choice, and each is read as the option it names. */
  function Parse(text: string): (c: Option<Choice>)
    ensures c.Some? <==> text == "1" || text == "2" || text == "3"
    ensures c.Some? ==> Text(c.value) == text
  {
    if text == "1" then Some(One)
    else if text == "2" then Some(Two)
    else if text == "3" then Some(Three)
    else None
  }

  /** Every choice's text is read back as that choice, so `Parse` and `Text`
      are inverse to each other on the accepted texts. */
  lemma ParseText(c: Choice)
    ensures Parse(Text(c)) == Some(c)
  {
  }

  /** `f"opcion_{eleccion}"`: the column holding the chosen option. */
  function FieldKey(c: Choice): string {
    "opcion_" + Text(c)
  }

  /** The three columns a choice can name. */
  lemma FieldKeys()
    ensures FieldKey(One) == "opcion_1"
    ensures FieldKey(Two) == "opcion_2"
    ensures FieldKey(Three) == "opcion_3"
  {
  }
}
