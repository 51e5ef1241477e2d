/**
 * `calculate_duration`: the time worked between two wall-clock readings,
 * written as "{hours}h {minutes}m", or a fixed sentinel when either reading
 * does not parse.
 */
module Duration {
  import opened Wrappers
  import opened Text
  import opened Clock

  /** The sentinel returned instead of raising when a time does not parse. */
  const Unparseable: string := "Hesaplanamadı"

  /**
   * Minutes from `start` to `end`, crossing midnight when `end` is earlier:
   * the unique 0 <= d < 1440 for which the clock reads `end` d minutes after `start`.
   */
  function Elapsed(start: TimeOfDay, end: TimeOfDay): (d: nat)
    ensures d < MinutesPerDay
    ensures (start + d) % MinutesPerDay == end
  {
    if end < start then end + MinutesPerDay - start else end - start
  }

  /** The elapsed time is the difference of the two readings modulo one day. */
  lemma ElapsedIsDifferenceModDay(start: TimeOfDay, end: TimeOfDay)
    ensures Elapsed(start, end) == (end - start) % MinutesPerDay
  {
    var d := Elapsed(start, end);
    if end < start {
      assert end - start == d - MinutesPerDay;
    }
  }

  /** Any d in one day's range that lands on `end` is the one `Elapsed` returns. */
  lemma ElapsedUnique(start: TimeOfDay, end: TimeOfDay, d: nat)
    requires d < MinutesPerDay && (start + d) % MinutesPerDay == end
    ensures d == Elapsed(start, end)
  {
    var e := Elapsed(start, end);
    if start + d < MinutesPerDay {
      assert start + d == end;
    } else {
      assert start + d - MinutesPerDay == end;
    }
    if start + e < MinutesPerDay {
      assert start + e == end;
    } else {
      assert start + e - MinutesPerDay == end;
    }
  }

  /** The f-string `f"{hours}h {minutes}m"` with `hours, minutes = divmod(total, 60)`. */
  function DurationText(total: nat): (r: string)
    ensures |r| >= |"0h 0m"| && r[|r| - 1] == 'm'
  {
    NatToDecimal(total / 60) + "h " + NatToDecimal(total % 60) + "m"
  }

  /** Reads "{h}h {m}m" back into (h, m); the inverse of `DurationText`. */
  function ParseDurationText(r: string): Option<(nat, nat)>
  {
    var i := LeadingDigits(r);
    if 0 < i && i + 2 <= |r| && r[i] == 'h' && r[i + 1] == ' ' then
      var rest := r[i + 2..];
      var j := LeadingDigits(rest);
      if 0 < j && j + 1 == |rest| && rest[j] == 'm' then
        Some((DecimalValue(r[..i]), DecimalValue(rest[..j])))
      else None
    else None
  }

  /** A formatted duration reads back as exactly those hours and remaining minutes. */
  lemma DurationTextRoundTrip(total: nat)
    ensures ParseDurationText(DurationText(total)) == Some((total / 60, total % 60))
  {
    var hs, ms := NatToDecimal(total / 60), NatToDecimal(total % 60);
    var r := DurationText(total);
    assert r == hs + ("h " + ms + "m");
    LeadingDigitsOf(hs, "h " + ms + "m");
    assert r[..|hs|] == hs;
    var rest := r[|hs| + 2..];
    assert rest == ms + "m";
    LeadingDigitsOf(ms, "m");
    assert rest[..|ms|] == ms;
    DecimalRoundTrip(total / 60);
    DecimalRoundTrip(total % 60);
  }

  /** The sentinel never reads as a duration, so a caller can always tell the two apart. */
  lemma UnparseableIsNoDuration()
    ensures ParseDurationText(Unparseable) == None
  {
    assert !IsDigit(Unparseable[0]);
  }

  /** A formatted duration always ends in 'm'; the sentinel does not. */
  lemma DurationTextIsNotUnparseable(total: nat)
    ensures DurationText(total) != Unparseable
  {
    assert Unparseable[|Unparseable| - 1] != 'm';
  }

  /** `calculate_duration(start_str, end_str)`. */
  function CalculateDuration(startText: string, endText: string): (r: string)
    ensures r == Unparseable <==> ParseHM(startText).None? || ParseHM(endText).None?
  {
    match (ParseHM(startText), ParseHM(endText))
    case (Some(start), Some(end)) =>
      var total := Elapsed(start, end);
      DurationTextIsNotUnparseable(total);
      DurationText(total)
    case _ => Unparseable
  }

  /**
   * For two readings that parse, the result names h hours and m minutes with
   * 60 * h + m == (end - start) mod 1440, h <= 23 and m <= 59.
   */
  lemma CalculateDurationMeaning(startText: string, endText: string)
    requires ParseHM(startText).Some? && ParseHM(endText).Some?
    ensures var total := (ParseHM(endText).value - ParseHM(startText).value) % MinutesPerDay;
            CalculateDuration(startText, endText) == DurationText(total)
    ensures var total := (ParseHM(endText).value - ParseHM(startText).value) % MinutesPerDay;
            ParseDurationText(CalculateDuration(startText, endText)) == Some((total / 60, total % 60))
    ensures var hm := ParseDurationText(CalculateDuration(startText, endText)).value;
            hm.0 <= 23 && hm.1 <= 59
  {
    var start, end := ParseHM(startText).value, ParseHM(endText).value;
    ElapsedIsDifferenceModDay(start, end);
    assert CalculateDuration(startText, endText) == DurationText(Elapsed(start, end));
    DurationTextRoundTrip(Elapsed(start, end));
  }

  /** Start and end at the same reading give "0h 0m". */
  lemma CalculateDurationSameTime(s: string)
    requires ParseHM(s).Some?
    ensures CalculateDuration(s, s) == "0h 0m"
  {
  }

  /** A day shift: "09:00" to "17:30" is "8h 30m". */
  lemma CalculateDurationDayShift()
    ensures CalculateDuration("09:00", "17:30") == "8h 30m"
  {
    ParseFormatHM(540);
    ParseFormatHM(1050);
    assert FormatHM(540) == "09:00";
    assert FormatHM(1050) == "17:30";
    assert NatToDecimal(30) == NatToDecimal(3) + [DigitChar(0)];
  }

  /** A night shift wraps past midnight: "23:00" to "01:00" is "2h 0m". */
  lemma CalculateDurationNightShift()
    ensures CalculateDuration("23:00", "01:00") == "2h 0m"
  {
    ParseFormatHM(1380);
    ParseFormatHM(60);
    assert FormatHM(1380) == "23:00";
    assert FormatHM(60) == "01:00";
    assert Elapsed(1380, 60) == 120;
    assert NatToDecimal(2) == "2" && NatToDecimal(0) == "0";
  }

  /** An hour field out of range yields the sentinel. */
  lemma CalculateDurationBadHour()
    ensures CalculateDuration("25:00", "08:00") == Unparseable
  {
  }
}
