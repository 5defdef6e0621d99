/** `parseStopTimeStringToLocalTimezoneToday` (src/lib/utils/index.ts): a
    GTFS time "HH:MM:SS" placed on today's local date. The clock is a
    parameter: the calendar date of "now". */
module StopTimeString {
  import opened JsValues

  // ----- String.prototype.split(':') -----

  predicate NoColon(s: string)
  {
    forall i :: 0 <= i < |s| ==> s[i] != ':'
  }

  /** `s.split(':')`: the pieces between colons, empty ones included. */
  function SplitColon(s: string): (parts: seq<string>)
    ensures |parts| >= 1
    ensures forall i :: 0 <= i < |parts| ==> NoColon(parts[i])
  {
    if s == [] then [""]
    else if s[0] == ':' then [""] + SplitColon(s[1..])
    else
      var rest := SplitColon(s[1..]);
      [[s[0]] + rest[0]] + rest[1..]
  }

  /** `parts.join(':')`. */
  function JoinColon(parts: seq<string>): string
    requires |parts| >= 1
  {
    if |parts| == 1 then parts[0] else parts[0] + ":" + JoinColon(parts[1..])
  }

  /** Joining the pieces gives the string back. */
  lemma {:induction false} SplitJoin(s: string)
    ensures JoinColon(SplitColon(s)) == s
  {
    if s != [] {
      var rest := SplitColon(s[1..]);
      SplitJoin(s[1..]);
      if s[0] == ':' {
        assert ([""] + rest)[1..] == rest;
        assert s == [':'] + s[1..];
      } else {
        var parts := [[s[0]] + rest[0]] + rest[1..];
        if |rest| == 1 {
          assert s == [s[0]] + s[1..];
        } else {
          assert parts[1..] == rest[1..];
          assert JoinColon(rest) == rest[0] + ":" + JoinColon(rest[1..]);
          assert s == [s[0]] + s[1..];
        }
      }
    }
  }

  /** A colon-free piece followed by a colon is split off as the first part. */
  lemma {:induction false} SplitAfter(a: string, rest: string)
    requires NoColon(a)
    ensures SplitColon(a + ":" + rest) == [a] + SplitColon(rest)
  {
    if a == [] {
      assert a + ":" + rest == [':'] + rest;
    } else {
      SplitAfter(a[1..], rest);
      assert (a + ":" + rest)[1..] == a[1..] + ":" + rest;
      assert [a[0]] + a[1..] == a;
    }
  }

  /** A colon-free string is a single part. */
  lemma {:induction false} SplitNoColon(s: string)
    requires NoColon(s)
    ensures SplitColon(s) == [s]
  {
    if s != [] {
      SplitNoColon(s[1..]);
      assert [s[0]] + s[1..] == s;
    }
  }

  // ----- Number(part) -----

  /** The result of `Number(s)` for the forms a time field takes: the empty
      string is 0, an optionally signed run of digits is its value, anything
      else is NaN. */
  datatype JsNumber = NaN | Finite(value: int)

  function ToNumber(s: string): (r: JsNumber)
    ensures AllDigits(s) ==> r == Finite(DigitsValue(s))
  {
    if AllDigits(s) then Finite(DigitsValue(s))
    else if |s| > 1 && (s[0] == '-' || s[0] == '+') && AllDigits(s[1..]) then
      Finite(if s[0] == '-' then -(DigitsValue(s[1..]) as int) else DigitsValue(s[1..]))
    else NaN
  }

  lemma NumeralValue(n: nat)
    ensures ToNumber(NatToDecimal(n)) == Finite(n)
  {
    DecimalRoundTrip(n);
  }

  // ----- the Date construction -----

  datatype CivilDate = CivilDate(year: int, month: int, day: int)

  /** `new Date(y, m, d, h, min, s, 0)` as an offset from that day's local
      midnight; a NaN component gives an invalid date. */
  datatype LocalDate = InvalidDate | LocalDateTime(date: CivilDate, msAfterMidnight: int)

  const MsPerSecond: int := 1000
  const MsPerMinute: int := 60 * MsPerSecond
  const MsPerHour: int := 60 * MsPerMinute
  const MsPerDay: int := 24 * MsPerHour

  /** `seconds || 0`: an absent part, NaN and 0 all give 0. */
  function SecondsOrZero(parts: seq<string>): (s: int)
    ensures |parts| < 3 ==> s == 0
    ensures |parts| >= 3 && ToNumber(parts[2]).Finite? ==> s == ToNumber(parts[2]).value
    ensures |parts| >= 3 && ToNumber(parts[2]).NaN? ==> s == 0
  {
    if |parts| < 3 then 0
    else match ToNumber(parts[2]) case Finite(v) => v case NaN => 0
  }

  /** The parse: hours and minutes are the first two parts, passed through
      unchanged; an absent minutes part is undefined, which makes the date
      invalid. Parts after the third are ignored. */
  function ParseStopTime(timeString: string, today: CivilDate): (r: LocalDate)
    ensures r.LocalDateTime? ==> r.date == today
  {
    var parts := SplitColon(timeString);
    var hours := ToNumber(parts[0]);
    var minutes := if |parts| > 1 then ToNumber(parts[1]) else NaN;
    if hours.NaN? || minutes.NaN? then InvalidDate
    else LocalDateTime(today, hours.value * MsPerHour + minutes.value * MsPerMinute + SecondsOrZero(parts) * MsPerSecond)
  }


  /** A digit string holds no colon. */
  lemma DigitsHaveNoColon(s: string)
    requires AllDigits(s)
    ensures NoColon(s)
  {
    forall i | 0 <= i < |s| ensures s[i] != ':' {
      assert IsDigit(s[i]);
    }
  }

  /** The parse of a string that splits into three numbers. */
  lemma ParseThreeParts(t: string, h: string, m: string, s: string, today: CivilDate)
    requires SplitColon(t) == [h, m, s]
    requires AllDigits(h) && AllDigits(m) && AllDigits(s)
    ensures ParseStopTime(t, today)
         == LocalDateTime(today, DigitsValue(h) * MsPerHour + DigitsValue(m) * MsPerMinute + DigitsValue(s) * MsPerSecond)
  {
  }

  /** The parse of a string that splits into two numbers. */
  lemma ParseTwoParts(t: string, h: string, m: string, today: CivilDate)
    requires SplitColon(t) == [h, m]
    requires AllDigits(h) && AllDigits(m)
    ensures ParseStopTime(t, today) == LocalDateTime(today, DigitsValue(h) * MsPerHour + DigitsValue(m) * MsPerMinute)
  {
  }

  /** A well-formed "H:M:S" is today's midnight plus that many hours,
      minutes and seconds; leading zeros and empty fields ("" is 0) included. */
  lemma ParseHms(h: string, m: string, s: string, today: CivilDate)
    requires AllDigits(h) && AllDigits(m) && AllDigits(s)
    ensures ParseStopTime(h + ":" + m + ":" + s, today)
         == LocalDateTime(today, DigitsValue(h) * MsPerHour + DigitsValue(m) * MsPerMinute + DigitsValue(s) * MsPerSecond)
  {
    DigitsHaveNoColon(h);
    DigitsHaveNoColon(m);
    DigitsHaveNoColon(s);
    SplitNoColon(s);
    SplitAfter(m, s);
    var t := h + ":" + m + ":" + s;
    assert t == h + ":" + (m + ":" + s);
    SplitAfter(h, m + ":" + s);
    assert SplitColon(t) == [h] + ([m] + [s]);
    ParseThreeParts(t, h, m, s, today);
  }

  /** "H:M" without seconds defaults the seconds to 0. */
  lemma ParseHm(h: string, m: string, today: CivilDate)
    requires AllDigits(h) && AllDigits(m)
    ensures ParseStopTime(h + ":" + m, today) == LocalDateTime(today, DigitsValue(h) * MsPerHour + DigitsValue(m) * MsPerMinute)
  {
    DigitsHaveNoColon(h);
    DigitsHaveNoColon(m);
    SplitNoColon(m);
    SplitAfter(h, m);
    ParseTwoParts(h + ":" + m, h, m, today);
  }

  /** A string without a colon has no minutes part, so the date is invalid. */
  lemma ParseWithoutColon(t: string, today: CivilDate)
    requires NoColon(t)
    ensures ParseStopTime(t, today) == InvalidDate
  {
    SplitNoColon(t);
  }

  /** Hours are not reduced modulo 24: with minutes and seconds below 60 the
      time lands H / 24 days after today, at hour H % 24. */
  lemma LaterDay(h: string, m: string, s: string, today: CivilDate)
    requires AllDigits(h) && AllDigits(m) && AllDigits(s)
    requires DigitsValue(m) < 60 && DigitsValue(s) < 60
    ensures var r := ParseStopTime(h + ":" + m + ":" + s, today);
      r.LocalDateTime? &&
      r.msAfterMidnight / MsPerDay == DigitsValue(h) / 24 &&
      r.msAfterMidnight % MsPerDay == (DigitsValue(h) % 24) * MsPerHour + DigitsValue(m) * MsPerMinute + DigitsValue(s) * MsPerSecond
  {
    ParseHms(h, m, s, today);
    DayOffset(ParseStopTime(h + ":" + m + ":" + s, today), DigitsValue(h), DigitsValue(m), DigitsValue(s), today);
  }

  /** The day and the time within it of h hours, m minutes and s seconds after midnight. */
  lemma DayOffset(r: LocalDate, h: nat, m: nat, s: nat, today: CivilDate)
    requires m < 60 && s < 60
    requires r == LocalDateTime(today, h * MsPerHour + m * MsPerMinute + s * MsPerSecond)
    ensures r.LocalDateTime? && r.msAfterMidnight / MsPerDay == h / 24
    ensures r.msAfterMidnight % MsPerDay == (h % 24) * MsPerHour + m * MsPerMinute + s * MsPerSecond
  {
    var q, rr := h / 24, h % 24;
    var within := rr * MsPerHour + m * MsPerMinute + s * MsPerSecond;
    WithinDay(rr, m, s);
    HoursSplit(h, q, rr);
    DivModUnique(h * MsPerHour + m * MsPerMinute + s * MsPerSecond, q, within);
  }

  lemma WithinDay(rr: nat, m: nat, s: nat)
    requires rr < 24 && m < 60 && s < 60
    ensures rr * MsPerHour + m * MsPerMinute + s * MsPerSecond < MsPerDay
  {
    assert rr * MsPerHour <= 23 * MsPerHour;
    assert m * MsPerMinute <= 59 * MsPerMinute;
    assert s * MsPerSecond <= 59 * MsPerSecond;
  }

  lemma HoursSplit(h: nat, q: nat, rr: nat)
    requires h == q * 24 + rr
    ensures h * MsPerHour == q * MsPerDay + rr * MsPerHour
  {
    assert h * MsPerHour == q * 24 * MsPerHour + rr * MsPerHour;
  }

  lemma DivModUnique(x: int, q: int, r: int)
    requires 0 <= r < MsPerDay && x == q * MsPerDay + r
    ensures x / MsPerDay == q && x % MsPerDay == r
  {
  }
}
