/**
 * One calculator instance: its editable local copies of the record's fields,
 * the single error-message slot the three inputs share, and the total
 * duration derived from pace and distance.
 */
module CalculatorForm {
  import opened Wrappers
  import opened FormStates
  import opened Registry
  import opened SplitsList

  /**
   * The total time for the run, in whole seconds: defined only once both pace
   * and distance are set, and then `pace × distance / 1000` with the fraction
   * of a second dropped.
   */
  function TotalDuration(pace: nat, distance: nat): (r: Option<nat>)
    ensures r.Some? <==> pace > 0 && distance > 0
    ensures r.Some? ==> r.value * 1000 <= pace * distance < (r.value + 1) * 1000
  {
    if pace > 0 && distance > 0 then Some(pace * distance / 1000) else None
  }

  /** Scenario A and B totals: 5:00/km over 1000 m is 300 s; 4:30/km over 3000 m is 810 s. */
  lemma TotalDurationExamples()
    ensures TotalDuration(300, 1000) == Some(300)
    ensures TotalDuration(270, 3000) == Some(810)
    ensures TotalDuration(270, 0) == None && TotalDuration(0, 3000) == None
  {
  }

  /** What an edit leaves in the edited local field and in the shared error slot. */
  datatype FieldEdit = FieldEdit(value: nat, error: string)

  class PaceCalculatorForm {
    /** The instance this form edits. */
    const id: nat
    /** Local pace, in seconds per kilometre. */
    var pace: nat
    /** Local split interval, in metres. */
    var splits: nat
    /** Local distance, in metres. */
    var distance: nat
    var showSplits: bool
    /** The one error slot all three inputs write; empty when there is no error. */
    var errorMessage: string

    /** The local fields as a record. */
    function Local(): FormState
      reads this
    {
      FormState(pace, splits, distance, showSplits)
    }

    /** The total the form shows: derived from the local pace and distance, not from the store. */
    function Total(): Option<nat>
      reads this
    {
      TotalDuration(pace, distance)
    }

    /** The split rows the form shows, derived from the local fields. */
    function Splits(): seq<SplitEntry>
      reads this
    {
      SplitTable(pace, distance, splits, showSplits)
    }

    /** The store agrees with the local fields, or no longer holds this instance. */
    ghost predicate Synced(app: App)
      reads this, app
    {
      id in app.formStates ==> app.formStates[id] == Local()
    }

    /** Creating the form seeds every local field from the instance's record and clears the error. */
    constructor (id: nat, app: App)
      ensures this.id == id
      ensures Local() == app.StateOf(id)
      ensures errorMessage == ""
      ensures Synced(app)
    {
      this.id := id;
      var record := app.StateOf(id);
      pace := record.pace;
      splits := record.splits;
      distance := record.distance;
      showSplits := record.showSplits;
      errorMessage := "";
    }
  }
}
