/** The distance field's handler. */
module DistanceInput {
  import opened Wrappers
  import opened Numerals
  import opened FormStates
  import opened Registry
  import opened CalculatorForm

  /**
   * The local distance and error slot after `text` is typed over local distance
   * `distance`: blank text resets it and clears the error; a `usize` of 0 or
   * text that is not a `usize` is reported and the distance is kept; a
   * positive value becomes the distance and clears the error.
   */
  function Edit(distance: nat, text: string): (e: FieldEdit)
    ensures IsBlank(text) ==> e == FieldEdit(0, "")
    ensures !IsBlank(text) && ParseUnsigned(text, USIZE_MAX) == Some(0) ==>
      e == FieldEdit(distance, "Distance must be greater than 0")
    ensures !IsBlank(text) && ParseUnsigned(text, USIZE_MAX).Some? && ParseUnsigned(text, USIZE_MAX).value > 0 ==>
      e == FieldEdit(ParseUnsigned(text, USIZE_MAX).value, "")
    ensures !IsBlank(text) && ParseUnsigned(text, USIZE_MAX).None? ==>
      e == FieldEdit(distance, "Distance must be a positive number")
    ensures e.value == 0 ==> IsBlank(text) || distance == 0
    ensures e.error != "" ==> e.value == distance
  {
    TrimEmptyIffBlank(text);
    if Trim(text) == [] then FieldEdit(0, "")
    else
      match ParseUnsigned(text, USIZE_MAX)
      case Some(value) =>
        if value == 0 then FieldEdit(distance, "Distance must be greater than 0")
        else FieldEdit(value, "")
      case None => FieldEdit(distance, "Distance must be a positive number")
  }

  /**
   * The distance field's handler: the edit of `Edit` on the local distance and
   * the error slot, then the store receives the local distance, if the
   * instance is still there.
   */
  method HandleInput(form: PaceCalculatorForm, app: App, text: string)
    modifies form`distance, form`errorMessage, app`formStates
    ensures FieldEdit(form.distance, form.errorMessage) == Edit(old(form.distance), text)
    ensures form.id in old(app.formStates) ==>
      app.formStates == old(app.formStates)[form.id := old(app.formStates)[form.id].(distance := form.distance)]
    ensures form.id !in old(app.formStates) ==> app.formStates == old(app.formStates)
    ensures old(form.Synced(app)) ==> form.Synced(app)
    ensures old(app.Valid()) ==> app.Valid()
  {
    ghost var local := form.Local();
    TrimEmptyIffBlank(text);
    if Trim(text) == [] {
      form.distance := 0;
      form.errorMessage := "";
    } else {
      match ParseUnsigned(text, USIZE_MAX)
      case Some(value) =>
        if value == 0 {
          form.errorMessage := "Distance must be greater than 0";
        } else {
          form.distance := value;
          form.errorMessage := "";
        }
      case None =>
        form.errorMessage := "Distance must be a positive number";
    }
    var distance := form.distance;
    assert form.pace == local.pace && form.splits == local.splits && form.showSplits == local.showSplits;
    assert form.Local() == local.(distance := distance);
    app.UpdateState(form.id, (state: FormState) => state.(distance := distance));
  }
}
