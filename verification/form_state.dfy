/** The durable record kept for every calculator instance. */
module FormStates {
  /**
   * One instance's settings. `pace` is the time per kilometre in whole seconds,
   * `splits` the split interval and `distance` the total distance, both in
   * metres; zero means "not set".
   */
  datatype FormState = FormState(pace: nat, splits: nat, distance: nat, showSplits: bool)

  /** The record a new instance starts with, and the one a read of a missing instance yields. */
  function Default(): (d: FormState)
    ensures d.pace == 0 && d.splits == 0 && d.distance == 0
    ensures d.showSplits
  {
    FormState(0, 0, 0, true)
  }

  /** Record equality is field-by-field equality, as the derived `PartialEq` compares. */
  lemma EqualIffFieldsEqual(a: FormState, b: FormState)
    ensures a == b <==>
      a.pace == b.pace && a.splits == b.splits && a.distance == b.distance && a.showSplits == b.showSplits
  {
  }
}
