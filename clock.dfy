/**
 * Wall-clock times of day as the application reads and writes them:
 * `datetime.strptime(s, "%H:%M")` on the way in and `strftime("%H:%M")` on the way out.
 * A time of day is the number of minutes since midnight.
 */
module Clock {
  import opened Wrappers
  import opened Text

  const MinutesPerDay: int := 1440

  type TimeOfDay = m: int | 0 <= m < MinutesPerDay

  /** The value of the two digits at `s[i]` and `s[i + 1]`. */
  function TwoDigitValue(s: string, i: nat): (v: nat)
    requires i + 1 < |s| && IsDigit(s[i]) && IsDigit(s[i + 1])
    ensures v < 100
  {
    10 * DigitValue(s[i]) + DigitValue(s[i + 1])
  }

  /** The decimal value of a one- or two-digit prefix, digit by digit. */
  lemma DigitPrefixValues(s: string)
    ensures |s| >= 1 && IsDigit(s[0]) ==> DecimalValue(s[..1]) == DigitValue(s[0])
    ensures |s| >= 2 && IsDigit(s[0]) && IsDigit(s[1]) ==> DecimalValue(s[..2]) == TwoDigitValue(s, 0)
  {
    if |s| >= 1 && IsDigit(s[0]) {
      assert s[..1] == [s[0]];
      assert [s[0]][..0] == [];
      if |s| >= 2 && IsDigit(s[1]) {
        assert s[..2][..1] == [s[0]];
      }
    }
  }

  /**
   * The `%H` directive at the start of `s`: the first alternative of
   * `2[0-3]|[0-1]\d|\d` that matches, as (value, characters consumed).
   */
  function HourField(s: string): (f: Option<(nat, nat)>)
    ensures f.Some? ==> f.value.0 <= 23 && 1 <= f.value.1 <= 2 && f.value.1 <= |s|
    ensures f.Some? ==> AllDigits(s[..f.value.1]) && f.value.0 == DecimalValue(s[..f.value.1])
    ensures f.None? <==> s == [] || !IsDigit(s[0])
    ensures f.Some? ==> (f.value.1 == 2 <==> |s| >= 2 && IsDigit(s[1]) && 10 * DigitValue(s[0]) + DigitValue(s[1]) <= 23)
  {
    DigitPrefixValues(s);
    if |s| >= 2 && s[0] == '2' && '0' <= s[1] <= '3' then Some((TwoDigitValue(s, 0), 2))
    else if |s| >= 2 && (s[0] == '0' || s[0] == '1') && IsDigit(s[1]) then Some((TwoDigitValue(s, 0), 2))
    else if |s| >= 1 && IsDigit(s[0]) then Some((DigitValue(s[0]), 1))
    else None
  }

  /** The `%M` directive at the start of `s`: the first alternative of `[0-5]\d|\d` that matches. */
  function MinuteField(s: string): (f: Option<(nat, nat)>)
    ensures f.Some? ==> f.value.0 <= 59 && 1 <= f.value.1 <= 2 && f.value.1 <= |s|
    ensures f.Some? ==> AllDigits(s[..f.value.1]) && f.value.0 == DecimalValue(s[..f.value.1])
    ensures f.None? <==> s == [] || !IsDigit(s[0])
    ensures f.Some? ==> (f.value.1 == 2 <==> |s| >= 2 && IsDigit(s[1]) && 10 * DigitValue(s[0]) + DigitValue(s[1]) <= 59)
  {
    DigitPrefixValues(s);
    if |s| >= 2 && '0' <= s[0] <= '5' && IsDigit(s[1]) then Some((TwoDigitValue(s, 0), 2))
    else if |s| >= 1 && IsDigit(s[0]) then Some((DigitValue(s[0]), 1))
    else None
  }

  /**
   * `datetime.strptime(s, "%H:%M")`: an hour field, a colon, a minute field and
   * nothing after it. A two-digit hour is never followed by a digit-free position that
   * the one-digit alternative could use instead, so backtracking into `%H` never
   * changes the outcome and the first matching alternative decides.
   */
  function ParseHM(s: string): (t: Option<TimeOfDay>)
    ensures t.Some? ==> 3 <= |s| <= 5 && ':' in s
  {
    match HourField(s)
    case None => None
    case Some((h, n)) =>
      if n < |s| && s[n] == ':' then
        match MinuteField(s[n + 1..])
        case None => None
        case Some((m, k)) => if n + 1 + k == |s| then Some(60 * h + m) else None
      else None
  }

  /** `strftime("%H:%M")`: two zero-padded fields. */
  function FormatHM(t: TimeOfDay): (s: string)
    ensures |s| == 5 && s[2] == ':'
  {
    var h, m := t / 60, t % 60;
    var s := [DigitChar(h / 10), DigitChar(h % 10), ':', DigitChar(m / 10), DigitChar(m % 10)];
    s
  }

  /** Every formatted time parses back to itself. */
  lemma ParseFormatHM(t: TimeOfDay)
    ensures ParseHM(FormatHM(t)) == Some(t)
  {
    var s := FormatHM(t);
    var h, m := t / 60, t % 60;
    assert h <= 23;
    assert HourField(s) == Some((h, 2));
    assert s[3..] == [DigitChar(m / 10), DigitChar(m % 10)];
    assert MinuteField(s[3..]) == Some((m, 2));
  }

  /** A five-character time that parses is already in the canonical `HH:MM` form. */
  lemma FormatParseHM(s: string)
    requires |s| == 5 && ParseHM(s).Some?
    ensures FormatHM(ParseHM(s).value) == s
  {
    var h := HourField(s).value;
    assert h.1 == 2;
    var m := MinuteField(s[3..]).value;
    assert m.1 == 2;
    var t := ParseHM(s).value;
    assert t / 60 == h.0 && t % 60 == m.0;
    assert s[3..][0] == s[3] && s[3..][1] == s[4];
  }

  /** `strptime` accepts the one-digit fields that `strftime` never writes. */
  lemma ParseHMShortFields()
    ensures ParseHM("9:05") == Some(545)
    ensures ParseHM("23:5") == Some(1385)
    ensures ParseHM("7:5") == Some(425)
  {
    assert "9:05"[2..] == "05";
    assert "23:5"[3..] == "5";
    assert "7:5"[2..] == "5";
  }

  /** Out-of-range fields and trailing characters are rejected. */
  lemma ParseHMRejects()
    ensures ParseHM("24:00") == None
    ensures ParseHM("12:60") == None
    ensures ParseHM("12:30:00") == None
    ensures ParseHM("") == None
  {
    assert "12:60"[3..] == "60";
    assert "12:30:00"[3..] == "30:00";
  }
}
