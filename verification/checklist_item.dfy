/**
 * One checklist question on the evaluation page: the radio group's value
 * for the row's tri-state answer, the answer a radio selection reports
 * back, and whether the observation box is expanded.
 */
module ChecklistItemView {
  import opened Wrappers

  const SimValue := "sim"
  const NaoValue := "nao"

  /** The radio group's value: nothing selected, "sim" or "nao". */
  function RadioValue(answer: Option<bool>): (v: string)
    ensures v == "" <==> answer.None?
    ensures v == SimValue <==> answer == Some(true)
    ensures v == NaoValue <==> answer == Some(false)
  {
    match answer
    case None => ""
    case Some(yes) => if yes then SimValue else NaoValue
  }

  /** The change handler: "sim" is a yes, and every other value a no. */
  function DecodeRadio(v: string): (answer: bool)
    ensures answer <==> v == SimValue
  {
    v == SimValue
  }

  /** Decoding the radio value of a given answer yields that answer. */
  lemma RadioRoundTrip(answer: bool)
    ensures DecodeRadio(RadioValue(Some(answer))) == answer
  {
  }

  /** Encoding after decoding yields one of the two radio values, and the same one for "sim" and "nao". */
  lemma DecodeThenEncode(v: string)
    ensures RadioValue(Some(DecodeRadio(v))) in {SimValue, NaoValue}
    ensures v == SimValue || v == NaoValue ==> RadioValue(Some(DecodeRadio(v))) == v
  {
  }

  /** The observation box is expanded for a "no" answer, and collapsed for a "yes" or none. */
  predicate ObservationExpanded(answer: Option<bool>) {
    answer == Some(false)
  }

  /** The box is expanded exactly when the radio shows "nao". */
  lemma ExpandedIffNao(answer: Option<bool>)
    ensures ObservationExpanded(answer) <==> RadioValue(answer) == NaoValue
  {
  }
}
