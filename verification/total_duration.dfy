/** Rendering a duration as `MM:SS`, or a dash when there is none. */
module DurationDisplay {
  import opened Wrappers
  import opened Numerals

  /** A whole number of seconds split into minutes and the seconds left over. */
  datatype Clock = Clock(minutes: nat, seconds: nat)

  /** `total / 60` minutes and `total % 60` seconds: the only split with seconds below 60. */
  function ToClock(total: nat): (c: Clock)
    ensures c.seconds < 60 && c.minutes * 60 + c.seconds == total
  {
    Clock(total / 60, total % 60)
  }

  /**
   * `format!("{:02}:{:02}", minutes, seconds)`: one `:` with the minutes
   * zero-padded to two digits before it and the seconds likewise after it;
   * longer than `MM:SS` only once a part reaches 100.
   */
  function FormatClock(c: Clock): (s: string)
    ensures Split(s, ':') == [Pad2(c.minutes), Pad2(c.seconds)]
    ensures |s| >= 5 && ':' in s
    ensures c.minutes < 100 && c.seconds < 100 ==> |s| == 5
  {
    var s := Pad2(c.minutes) + ":" + Pad2(c.seconds);
    assert s[|Pad2(c.minutes)|] == ':';
    SplitOneColon(Pad2(c.minutes), Pad2(c.seconds));
    s
  }

  /**
   * The total-duration text: the dash when there is no duration, else the
   * whole minutes and the seconds left over, each at least two digits, around
   * one `:`.
   */
  function Render(total: Option<nat>): (s: string)
    ensures s == "\U{2014}" <==> total.None?
    ensures total.Some? ==> Split(s, ':') == [Pad2(total.value / 60), Pad2(total.value % 60)]
  {
    match total
    case None => "\U{2014}"
    case Some(t) => FormatClock(ToClock(t))
  }

  /** Different clocks are displayed differently: the text identifies the minutes and the seconds. */
  lemma {:induction false} FormatClockInjective(c: Clock, d: Clock)
    ensures FormatClock(c) == FormatClock(d) ==> c == d
  {
    if FormatClock(c) == FormatClock(d) {
      assert Pad2(c.minutes) == Pad2(d.minutes) && Pad2(c.seconds) == Pad2(d.seconds);
    }
  }

  /** 300 s shows as `05:00` and 810 s as `13:30`. */
  lemma {:induction false} RenderExamples()
    ensures Render(Some(300)) == "05:00"
    ensures Render(Some(810)) == "13:30"
  {
    assert ToClock(300) == Clock(5, 0);
    assert "05:00" == Pad2(5) + ":" + Pad2(0);
    assert ToClock(810) == Clock(13, 30);
    assert "13:30" == Pad2(13) + ":" + Pad2(30);
  }

  /** 6000 s shows as `100:00`: minutes are not cut to two digits. */
  lemma {:induction false} RenderLongMinutes()
    ensures Render(Some(6000)) == "100:00"
  {
    assert ToClock(6000) == Clock(100, 0);
    assert Pad2(100) == "100" by {
      assert Decimal(10) == "10";
    }
    assert Pad2(0) == "00";
    assert "100:00" == Pad2(100) + ":" + Pad2(0);
  }
}
