/** The split table: the time elapsed at every multiple of the split interval. */
module SplitsList {
  import opened Numerals
  import opened DurationDisplay

  /** One row of the table: a distance marker in metres and the time to reach it. */
  datatype SplitEntry = SplitEntry(marker: nat, time: Clock)

  /**
   * Whole seconds to reach `marker` metres at `pace` seconds per kilometre,
   * `pace × marker / 1000` with the fraction dropped; the cast to `u32`
   * saturates at its largest value.
   */
  function Elapsed(pace: nat, marker: nat): (t: nat)
    ensures t <= U32_MAX
    ensures pace * marker < 1000 * U32_MAX ==> t * 1000 <= pace * marker < (t + 1) * 1000
    ensures pace * marker >= 1000 * U32_MAX ==> t == U32_MAX
  {
    var exact := pace * marker / 1000;
    if exact > U32_MAX then U32_MAX else exact
  }

  function Entry(pace: nat, marker: nat): SplitEntry {
    SplitEntry(marker, ToClock(Elapsed(pace, marker)))
  }

  /** The table is shown only when enabled and with pace, distance and interval all set. */
  predicate Shown(pace: nat, distance: nat, splits: nat, showSplits: bool) {
    showSplits && pace > 0 && distance > 0 && splits > 0
  }

  /** The rows for markers `splits, 2·splits, …` up to `distance`, or none. */
  function SplitTable(pace: nat, distance: nat, splits: nat, showSplits: bool): (t: seq<SplitEntry>)
    ensures !Shown(pace, distance, splits, showSplits) ==> t == []
    ensures splits > distance ==> t == []
  {
    if Shown(pace, distance, splits, showSplits) then
      seq(distance / splits, k requires 0 <= k => Entry(pace, (k + 1) * splits))
    else []
  }

  /** `a` multiples of `s` fit in `d` exactly when `a` is at most `d / s`. */
  lemma DivBound(a: nat, s: nat, d: nat)
    requires s > 0
    ensures a * s <= d <==> a <= d / s
  {
    var q, r := d / s, d % s;
    assert d == q * s + r && r < s;
    if a <= q {
      MulMono(a, q, s);
    } else {
      MulMono(q + 1, a, s);
    }
  }

  lemma MulMono(a: nat, b: nat, s: nat)
    requires a <= b
    ensures a * s <= b * s
  {
  }

  /**
   * `for i in (splits..=distance).step_by(splits)`, one row pushed per marker.
   */
  method Entries(pace: nat, distance: nat, splits: nat, showSplits: bool) returns (entries: seq<SplitEntry>)
    ensures entries == SplitTable(pace, distance, splits, showSplits)
  {
    entries := [];
    if showSplits && pace > 0 && distance > 0 && splits > 0 {
      var i := splits;
      while i <= distance
        invariant i == (|entries| + 1) * splits
        invariant |entries| <= distance / splits
        invariant forall k :: 0 <= k < |entries| ==> entries[k] == Entry(pace, (k + 1) * splits)
        decreases distance - i
      {
        DivBound(|entries| + 1, splits, distance);
        var totalSeconds := Elapsed(pace, i);
        entries := entries + [SplitEntry(i, Clock(totalSeconds / 60, totalSeconds % 60))];
        assert i + splits == (|entries| + 1) * splits;
        i := i + splits;
      }
      DivBound(|entries| + 1, splits, distance);
      assert |entries| == distance / splits;
    }
  }

  /**
   * There are `distance / splits` rows; the markers are the multiples of the
   * interval in order, and none passes the distance.
   */
  lemma {:induction false} SplitMarkers(pace: nat, distance: nat, splits: nat, showSplits: bool)
    requires Shown(pace, distance, splits, showSplits)
    ensures var t := SplitTable(pace, distance, splits, showSplits);
      && |t| == distance / splits
      && (forall k :: 0 <= k < |t| ==> t[k].marker == (k + 1) * splits && 0 < t[k].marker <= distance)
  {
    var t := SplitTable(pace, distance, splits, showSplits);
    forall k | 0 <= k < |t|
      ensures 0 < t[k].marker <= distance
    {
      DivBound(k + 1, splits, distance);
    }
  }

  /** The markers strictly increase down the table. */
  lemma {:induction false} SplitMarkersIncrease(pace: nat, distance: nat, splits: nat, showSplits: bool)
    requires Shown(pace, distance, splits, showSplits)
    ensures var t := SplitTable(pace, distance, splits, showSplits);
      forall i, j :: 0 <= i < j < |t| ==> t[i].marker < t[j].marker
  {
    var t := SplitTable(pace, distance, splits, showSplits);
    forall i, j | 0 <= i < j < |t|
      ensures t[i].marker < t[j].marker
    {
      MulMono(i + 2, j + 1, splits);
      assert (i + 2) * splits == (i + 1) * splits + splits;
    }
  }

  /** Every positive multiple of the interval up to the distance has its row. */
  lemma {:induction false} SplitMarkersComplete(pace: nat, distance: nat, splits: nat, showSplits: bool, m: nat)
    requires Shown(pace, distance, splits, showSplits)
    requires 0 < m <= distance && m % splits == 0
    ensures var t := SplitTable(pace, distance, splits, showSplits);
      exists k :: 0 <= k < |t| && t[k].marker == m
  {
    var t := SplitTable(pace, distance, splits, showSplits);
    var a := m / splits;
    assert a * splits == m;
    DivBound(a, splits, distance);
    assert a > 0;
    assert t[a - 1].marker == m;
  }

  /**
   * Each row's time is its marker's elapsed seconds as minutes and seconds
   * below 60, and the times never decrease down the table.
   */
  lemma {:induction false} SplitTimes(pace: nat, distance: nat, splits: nat, showSplits: bool)
    requires Shown(pace, distance, splits, showSplits)
    ensures var t := SplitTable(pace, distance, splits, showSplits);
      && (forall k :: 0 <= k < |t| ==>
            t[k].time.seconds < 60 && t[k].time.minutes * 60 + t[k].time.seconds == Elapsed(pace, t[k].marker))
      && (forall i, j :: 0 <= i < j < |t| ==>
            t[i].time.minutes * 60 + t[i].time.seconds <= t[j].time.minutes * 60 + t[j].time.seconds)
  {
    var t := SplitTable(pace, distance, splits, showSplits);
    SplitMarkers(pace, distance, splits, showSplits);
    SplitMarkersIncrease(pace, distance, splits, showSplits);
    forall i, j | 0 <= i < j < |t|
      ensures Elapsed(pace, t[i].marker) <= Elapsed(pace, t[j].marker)
    {
      MulMono(t[i].marker, t[j].marker, pace);
      assert pace * t[i].marker <= pace * t[j].marker;
    }
  }

  /**
   * The text of one row, `format!("{}m: {:02}:{:02}", marker, minutes, seconds)`:
   * the marker's numeral up to the first non-digit, then `m: `, then the time
   * split at its one `:` into zero-padded minutes and seconds.
   */
  function RenderEntry(e: SplitEntry): (s: string)
    ensures var n := |Decimal(e.marker)|;
      && n + 3 < |s|
      && AllDigits(s[..n]) && Value(s[..n]) == e.marker && (n > 1 ==> s[0] != '0')
      && s[n..n + 3] == "m: "
      && Split(s[n + 3..], ':') == [Pad2(e.time.minutes), Pad2(e.time.seconds)]
  {
    var numeral, clock := Decimal(e.marker), FormatClock(e.time);
    var s := numeral + "m: " + clock;
    assert s[..|numeral|] == numeral && s[|numeral| + 3..] == clock;
    s
  }

  /** 4:30/km over 3000 m in 1000 m splits: 04:30, 09:00 and 13:30. */
  lemma {:induction false} SplitTableExample()
    ensures SplitTable(270, 3000, 1000, true) ==
      [SplitEntry(1000, Clock(4, 30)), SplitEntry(2000, Clock(9, 0)), SplitEntry(3000, Clock(13, 30))]
    ensures SplitTable(270, 3000, 1000, false) == []
    ensures SplitTable(270, 3000, 4000, true) == []
  {
  }

  /** The first row of that table reads `1000m: 04:30`. */
  lemma {:induction false} RenderEntryExample()
    ensures RenderEntry(SplitEntry(1000, Clock(4, 30))) == "1000m: 04:30"
  {
    assert Decimal(1000) == "1000" by {
      assert Decimal(1) == "1" && Decimal(10) == "10" && Decimal(100) == "100";
    }
    assert FormatClock(Clock(4, 30)) == "04:30" by {
      assert Pad2(30) == "30" by {
        assert Decimal(3) == "3";
      }
      assert "04:30" == Pad2(4) + ":" + Pad2(30);
    }
    assert "1000m: " == "1000" + "m: ";
    assert "1000m: 04:30" == "1000m: " + "04:30";
  }
}
