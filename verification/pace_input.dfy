/** The pace field: the `mm:ss` parser and the handler run on every edit. */
module PaceInput {
  import opened Wrappers
  import opened Numerals
  import opened FormStates
  import opened Registry
  import opened CalculatorForm
  import opened DurationDisplay

  /**
   * `parse_duration`: exactly one `:`, a `u64` minutes part and a `u64`
   * seconds part, giving `minutes × 60 + seconds` seconds; seconds need not be
   * below 60. Minutes are checked before seconds.
   */
  function ParseDuration(s: string): (r: Result<nat, string>)
    ensures r == Err("Invalid format") <==> Count(s, ':') != 1
    ensures r.Err? ==> r.error in {"Invalid format", "Invalid minutes", "Invalid seconds"}
  {
    var parts := Split(s, ':');
    if |parts| != 2 then Err("Invalid format")
    else
      match ParseUnsigned(parts[0], U64_MAX)
      case None => Err("Invalid minutes")
      case Some(minutes) =>
        match ParseUnsigned(parts[1], U64_MAX)
        case None => Err("Invalid seconds")
        case Some(seconds) => Ok(minutes * 60 + seconds)
  }

  /**
   * On text with exactly one `:`, the outcome is decided by the part before it
   * (minutes) and then the part after it (seconds).
   */
  lemma ParseDurationOfParts(minutes: string, seconds: string)
    requires ':' !in minutes && ':' !in seconds
    ensures ParseUnsigned(minutes, U64_MAX).None? ==>
      ParseDuration(minutes + ":" + seconds) == Err("Invalid minutes")
    ensures ParseUnsigned(minutes, U64_MAX).Some? && ParseUnsigned(seconds, U64_MAX).None? ==>
      ParseDuration(minutes + ":" + seconds) == Err("Invalid seconds")
    ensures ParseUnsigned(minutes, U64_MAX).Some? && ParseUnsigned(seconds, U64_MAX).Some? ==>
      ParseDuration(minutes + ":" + seconds) ==
        Ok(ParseUnsigned(minutes, U64_MAX).value * 60 + ParseUnsigned(seconds, U64_MAX).value)
  {
    SplitOneColon(minutes, seconds);
  }

  /** A numeral that fits a `u64` parses as a minutes or seconds part and holds no `:`. */
  lemma NumeralPart(s: string)
    requires s != [] && AllDigits(s) && Value(s) <= U64_MAX
    ensures ParseUnsigned(s, U64_MAX) == Some(Value(s))
    ensures ':' !in s
  {
  }

  /** Any two numerals that fit a `u64`, joined by `:`, parse to `minutes × 60 + seconds`. */
  lemma {:induction false} ParseDurationRoundTrip(a: string, b: string)
    requires a != [] && AllDigits(a) && Value(a) <= U64_MAX
    requires b != [] && AllDigits(b) && Value(b) <= U64_MAX
    ensures ParseDuration(a + ":" + b) == Ok(Value(a) * 60 + Value(b))
  {
    NumeralPart(a);
    NumeralPart(b);
    ParseDurationOfParts(a, b);
  }

  /**
   * What is displayed for a duration, typed back into the pace field, is read
   * as the same number of seconds.
   */
  lemma {:induction false} RenderParsesBack(t: nat)
    requires t / 60 <= U64_MAX
    ensures ParseDuration(Render(Some(t))) == Ok(t)
  {
    var c := ToClock(t);
    assert Render(Some(t)) == Pad2(c.minutes) + ":" + Pad2(c.seconds);
    ParseDurationRoundTrip(Pad2(c.minutes), Pad2(c.seconds));
  }

  /** `04:30` is 4 minutes 30 seconds: 270 s. */
  lemma {:induction false} ParsePaddedPace()
    ensures ParseDuration("04:30") == Ok(270)
  {
    assert Pad2(4) == "04";
    assert Pad2(30) == "30" by {
      assert Decimal(3) == "3";
    }
    assert "04:30" == Pad2(4) + ":" + Pad2(30);
    ParseDurationRoundTrip(Pad2(4), Pad2(30));
  }

  /** `0:75` is 75 s: seconds are not limited to 59. */
  lemma {:induction false} ParseLongSeconds()
    ensures ParseDuration("0:75") == Ok(75)
  {
    assert Decimal(0) == "0";
    assert Decimal(75) == "75" by {
      assert Decimal(7) == "7";
    }
    assert "0:75" == Decimal(0) + ":" + Decimal(75);
    ParseDurationRoundTrip(Decimal(0), Decimal(75));
  }

  /** `:30` fails on its empty minutes part. */
  lemma {:induction false} ParseEmptyMinutes()
    ensures ParseDuration(":30") == Err("Invalid minutes")
  {
  }

  /** `5:` fails on its empty seconds part. */
  lemma {:induction false} ParseEmptySeconds()
    ensures ParseDuration("5:") == Err("Invalid seconds")
  {
    assert "5:" == "5" + ":" + "";
    assert ParseUnsigned("5", U64_MAX) == Some(5) by { assert Value("5") == 5; }
    ParseDurationOfParts("5", "");
  }

  /** `5` has no `:` and `1:2:3` has two: both have the wrong shape. */
  lemma {:induction false} ParseWrongShape()
    ensures ParseDuration("5") == Err("Invalid format")
    ensures ParseDuration("1:2:3") == Err("Invalid format")
  {
  }

  /**
   * The local pace and error slot after `text` is typed over local pace
   * `pace`: blank text resets the pace and clears the error; a parsed
   * duration becomes the pace and clears the error; a parse failure is
   * reported and the pace is kept.
   */
  function Edit(pace: nat, text: string): (e: FieldEdit)
    ensures IsBlank(text) ==> e == FieldEdit(0, "")
    ensures !IsBlank(text) && ParseDuration(text).Ok? ==> e == FieldEdit(ParseDuration(text).value, "")
    ensures !IsBlank(text) && ParseDuration(text).Err? ==>
      e == FieldEdit(pace, "Pace error: " + ParseDuration(text).error)
    ensures e.error == "" <==> IsBlank(text) || ParseDuration(text).Ok?
    ensures e.error != "" ==> e.value == pace
  {
    TrimEmptyIffBlank(text);
    if Trim(text) == [] then FieldEdit(0, "")
    else
      match ParseDuration(text)
      case Ok(duration) => FieldEdit(duration, "")
      case Err(err) => FieldEdit(pace, "Pace error: " + err)
  }

  /**
   * The pace input's handler: the edit of `Edit` on the local pace and the
   * error slot, then the store receives the local pace, if the instance is
   * still there.
   */
  method HandleInput(form: PaceCalculatorForm, app: App, text: string)
    modifies form`pace, form`errorMessage, app`formStates
    ensures FieldEdit(form.pace, form.errorMessage) == Edit(old(form.pace), text)
    ensures form.id in old(app.formStates) ==>
      app.formStates == old(app.formStates)[form.id := old(app.formStates)[form.id].(pace := form.pace)]
    ensures form.id !in old(app.formStates) ==> app.formStates == old(app.formStates)
    ensures old(form.Synced(app)) ==> form.Synced(app)
    ensures old(app.Valid()) ==> app.Valid()
  {
    ghost var local := form.Local();
    TrimEmptyIffBlank(text);
    if Trim(text) == [] {
      form.pace := 0;
      form.errorMessage := "";
    } else {
      match ParseDuration(text)
      case Ok(duration) =>
        form.pace := duration;
        form.errorMessage := "";
      case Err(err) =>
        form.errorMessage := "Pace error: " + err;
    }
    var pace := form.pace;
    assert form.Local() == local.(pace := pace);
    app.UpdateState(form.id, (state: FormState) => state.(pace := pace));
  }
}
