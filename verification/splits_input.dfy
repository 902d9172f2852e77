/** The split-interval field's handler. */
module SplitsInput {
  import opened Wrappers
  import opened Numerals
  import opened FormStates
  import opened Registry
  import opened CalculatorForm

  /**
   * The local interval and error slot after `text` is typed over local interval
   * `splits`: blank text resets it and clears the error; a `usize` of 0 or
   * text that is not a `usize` is reported and the interval is kept; a
   * positive value becomes the interval and clears the error.
   */
  function Edit(splits: nat, text: string): (e: FieldEdit)
    ensures IsBlank(text) ==> e == FieldEdit(0, "")
    ensures !IsBlank(text) && ParseUnsigned(text, USIZE_MAX) == Some(0) ==>
      e == FieldEdit(splits, "Splits must be greater than 0")
    ensures !IsBlank(text) && ParseUnsigned(text, USIZE_MAX).Some? && ParseUnsigned(text, USIZE_MAX).value > 0 ==>
      e == FieldEdit(ParseUnsigned(text, USIZE_MAX).value, "")
    ensures !IsBlank(text) && ParseUnsigned(text, USIZE_MAX).None? ==>
      e == FieldEdit(splits, "Splits must be a positive number")
    ensures e.value == 0 ==> IsBlank(text) || splits == 0
    ensures e.error != "" ==> e.value == splits
  {
    TrimEmptyIffBlank(text);
    if Trim(text) == [] then FieldEdit(0, "")
    else
      match ParseUnsigned(text, USIZE_MAX)
      case Some(value) =>
        if value == 0 then FieldEdit(splits, "Splits must be greater than 0")
        else FieldEdit(value, "")
      case None => FieldEdit(splits, "Splits must be a positive number")
  }

  /**
   * The interval field's handler: the edit of `Edit` on the local interval and
   * the error slot, then the store receives the local interval, if the
   * instance is still there.
   */
  method HandleInput(form: PaceCalculatorForm, app: App, text: string)
    modifies form`splits, form`errorMessage, app`formStates
    ensures FieldEdit(form.splits, form.errorMessage) == Edit(old(form.splits), text)
    ensures form.id in old(app.formStates) ==>
      app.formStates == old(app.formStates)[form.id := old(app.formStates)[form.id].(splits := form.splits)]
    ensures form.id !in old(app.formStates) ==> app.formStates == old(app.formStates)
    ensures old(form.Synced(app)) ==> form.Synced(app)
    ensures old(app.Valid()) ==> app.Valid()
  {
    ghost var local := form.Local();
    TrimEmptyIffBlank(text);
    if Trim(text) == [] {
      form.splits := 0;
      form.errorMessage := "";
    } else {
      match ParseUnsigned(text, USIZE_MAX)
      case Some(value) =>
        if value == 0 {
          form.errorMessage := "Splits must be greater than 0";
        } else {
          form.splits := value;
          form.errorMessage := "";
        }
      case None =>
        form.errorMessage := "Splits must be a positive number";
    }
    var splits := form.splits;
    assert form.pace == local.pace && form.distance == local.distance && form.showSplits == local.showSplits;
    assert form.Local() == local.(splits := splits);
    app.UpdateState(form.id, (state: FormState) => state.(splits := splits));
  }
}
