/**
 * Whole edit sessions against one instance, driven through the handlers in
 * the order a user would type, with what the page then shows.
 */
module Session {
  import opened Wrappers
  import opened Numerals
  import opened FormStates
  import opened Registry
  import opened CalculatorForm
  import PaceInput
  import SplitsInput
  import DistanceInput
  import opened DurationDisplay
  import opened SplitsList

  /** A positive numeral that fits a `usize` is taken as it is by the splits and distance fields. */
  lemma DecimalText(previous: nat, n: nat)
    requires 0 < n <= USIZE_MAX
    ensures SplitsInput.Edit(previous, Decimal(n)) == FieldEdit(n, "")
    ensures DistanceInput.Edit(previous, Decimal(n)) == FieldEdit(n, "")
  {
    assert !IsWhitespace(Decimal(n)[0]);
  }

  lemma Thousands()
    ensures Decimal(1000) == "1000" && Decimal(3000) == "3000"
  {
    assert Decimal(1) == "1" && Decimal(10) == "10" && Decimal(100) == "100";
    assert Decimal(3) == "3" && Decimal(30) == "30" && Decimal(300) == "300";
  }

  lemma PaceText()
    ensures PaceInput.Edit(0, "04:30") == FieldEdit(270, "")
  {
    assert !IsBlank("04:30") by {
      assert !IsWhitespace("04:30"[0]);
    }
    PaceInput.ParsePaddedPace();
  }

  lemma EmptySecondsText()
    ensures PaceInput.Edit(0, "5:") == FieldEdit(0, "Pace error: " + "Invalid seconds")
  {
    assert !IsBlank("5:") by {
      assert !IsWhitespace("5:"[0]);
    }
    PaceInput.ParseEmptySeconds();
  }

  lemma ZeroText()
    ensures DistanceInput.Edit(0, "0") == FieldEdit(0, "Distance must be greater than 0")
  {
    assert Decimal(0) == "0";
    assert !IsWhitespace("0"[0]);
    ParseDecimal(0, USIZE_MAX);
  }

  /**
   * Pace `04:30`, distance `3000`, splits `1000` typed into the first
   * instance: the local fields and the store both hold 270 s, 1000 m and
   * 3000 m, the error slot is empty, and the form shows total `13:30` and
   * split rows at 1000, 2000 and 3000 m reading 04:30, 09:00 and 13:30, the
   * first as `1000m: 04:30`.
   */
  method TypeAllThree() returns (local: FormState, stored: FormState, error: string,
                                 total: Option<nat>, table: seq<SplitEntry>)
    ensures local == FormState(270, 1000, 3000, true)
    ensures stored == local
    ensures error == ""
    ensures Render(total) == "13:30"
    ensures table == [SplitEntry(1000, Clock(4, 30)), SplitEntry(2000, Clock(9, 0)), SplitEntry(3000, Clock(13, 30))]
    ensures RenderEntry(table[0]) == "1000m: 04:30"
  {
    var app := new App();
    var form := new PaceCalculatorForm(0, app);
    PaceText();
    DecimalText(0, 3000);
    DecimalText(0, 1000);
    Thousands();
    PaceInput.HandleInput(form, app, "04:30");
    DistanceInput.HandleInput(form, app, "3000");
    SplitsInput.HandleInput(form, app, "1000");
    local := form.Local();
    stored := app.StateOf(0);
    error := form.errorMessage;
    total := form.Total();
    table := form.Splits();
    ShownForAllThree();
  }

  /**
   * What that instance then shows: total `13:30`, and split rows at 1000,
   * 2000 and 3000 m reading 04:30, 09:00 and 13:30, the first as `1000m: 04:30`.
   */
  lemma {:induction false} ShownForAllThree()
    ensures Render(TotalDuration(270, 3000)) == "13:30"
    ensures SplitTable(270, 3000, 1000, true) ==
      [SplitEntry(1000, Clock(4, 30)), SplitEntry(2000, Clock(9, 0)), SplitEntry(3000, Clock(13, 30))]
    ensures RenderEntry(SplitTable(270, 3000, 1000, true)[0]) == "1000m: 04:30"
  {
    TotalDurationExamples();
    RenderExamples();
    SplitTableExample();
    RenderEntryExample();
  }

  /** A distance of `0` is refused with its message; the distance and the store keep their defaults. */
  method ZeroDistance() returns (error: string, local: FormState, stored: FormState)
    ensures error == "Distance must be greater than 0"
    ensures local == Default() && stored == Default()
  {
    var app := new App();
    var form := new PaceCalculatorForm(0, app);
    ZeroText();
    DistanceInput.HandleInput(form, app, "0");
    error := form.errorMessage;
    local := form.Local();
    stored := app.StateOf(0);
  }

  /** A pace of `5:` is refused for its empty seconds; the pace and the store keep their defaults. */
  method EmptySeconds() returns (error: string, local: FormState, stored: FormState)
    ensures error == "Pace error: " + "Invalid seconds"
    ensures local == Default() && stored == Default()
  {
    var app := new App();
    var form := new PaceCalculatorForm(0, app);
    EmptySecondsText();
    PaceInput.HandleInput(form, app, "5:");
    error := form.errorMessage;
    local := form.Local();
    stored := app.StateOf(0);
  }
}
