/**
 * The RFC 3339 (section 5.6) timestamp text that Go's time.Format and time.Parse
 * produce and accept with the layout time.RFC3339, "2006-01-02T15:04:05Z07:00".
 * Formatting writes UTC ("Z"); parsing follows Go's strict fast path: four-digit
 * year 0000-9999, two-digit fields range-checked against the calendar, an optional
 * fraction of a second (discarded: instants are whole seconds), then "Z" or a
 * numeric offset +hh:mm / -hh:mm that is subtracted to give the UTC instant.
 */
module Rfc3339 {
  import opened Wrappers
  import opened Decimal
  import opened Calendar
  import opened Clock

  /** The civil year of a non-negative instant. */
  function YearOfTime(t: Time): nat
    requires t >= 0
  {
    DateOf(t / SecondsPerDay).year
  }

  /** time.Time.Format(time.RFC3339) for an instant in UTC: at least twenty characters, zone "Z". */
  function Format(t: Time): (s: string)
    requires t >= 0
    ensures |s| >= 20 && s[|s| - 1] == 'Z'
  {
    var d := DateOf(t / SecondsPerDay);
    var sod := t % SecondsPerDay;
    FourDigits(d.year);
    TimeOfDay(sod);
    TwoDigits(d.month);
    TwoDigits(d.day);
    TwoDigits(sod / 3600);
    TwoDigits(sod / 60 % 60);
    TwoDigits(sod % 60);
    Padded(d.year, 4) + Tail(Padded(d.month, 2), Padded(d.day, 2),
                             Padded(sod / 3600, 2), Padded(sod / 60 % 60, 2), Padded(sod % 60, 2))
  }

  /** Everything after the year: "-mm-ddThh:mm:ssZ". */
  function Tail(M: string, D: string, h: string, mi: string, se: string): string {
    "-" + M + "-" + D + "T" + h + ":" + mi + ":" + se + "Z"
  }

  /** Go's parseUint inside parseRFC3339: all digits and within [lo, hi]. */
  function Field(s: string, lo: int, hi: int): (r: Option<int>)
    ensures r.Some? <==> AllDigits(s) && lo <= ValueOf(s) <= hi
    ensures r.Some? ==> r.value == ValueOf(s)
  {
    if AllDigits(s) && lo <= ValueOf(s) <= hi then Some(ValueOf(s)) else None
  }

  /** Number of leading decimal digits of s. */
  function LeadingDigits(s: string): (n: nat)
    ensures n <= |s|
    ensures forall i :: 0 <= i < n ==> IsDigit(s[i])
    ensures n < |s| ==> !IsDigit(s[n])
  {
    if s == [] || !IsDigit(s[0]) then 0 else 1 + LeadingDigits(s[1..])
  }

  /** Drops an optional ".ddd" fraction of a second: a period followed by at least one digit. */
  function SkipFraction(rest: string): string {
    if |rest| >= 2 && rest[0] == '.' && IsDigit(rest[1])
    then rest[1 + LeadingDigits(rest[1..])..]
    else rest
  }

  /** The zone suffix: "Z" is UTC; otherwise exactly "+hh:mm" or "-hh:mm", hh <= 23, mm <= 59. */
  function ZoneOffset(z: string): Option<int> {
    if z == "Z" then Some(0)
    else if |z| != 6 then None
    else
      var hh := Field(z[1..3], 0, 23);
      var mm := Field(z[4..6], 0, 59);
      if hh.None? || mm.None? || !((z[0] == '-' || z[0] == '+') && z[3] == ':') then None
      else
        var offset := (hh.value * 60 + mm.value) * 60;
        Some(if z[0] == '-' then -offset else offset)
  }

  /** The date and time of day in the first 19 characters "yyyy-mm-ddThh:mm:ss", as local seconds. */
  function ParseDateTime(p: string): Option<int>
    requires |p| == 19
  {
    var year := Field(p[0..4], 0, 9999);
    var month := Field(p[5..7], 1, 12);
    var hour := Field(p[11..13], 0, 23);
    var minute := Field(p[14..16], 0, 59);
    var second := Field(p[17..19], 0, 59);
    if year.None? || month.None? || hour.None? || minute.None? || second.None? then None
    else
      var day := Field(p[8..10], 1, DaysIn(month.value, year.value));
      if day.None? || !(p[4] == '-' && p[7] == '-' && p[10] == 'T' && p[13] == ':' && p[16] == ':') then None
      else
        Some(DayNumber(Date(year.value, month.value, day.value)) * SecondsPerDay
             + hour.value * 3600 + minute.value * 60 + second.value)
  }

  /**
   * time.Parse(time.RFC3339, s), in whole seconds; None where Go returns an error.
   * Only text laid out as "yyyy-mm-ddThh:mm:ss" followed by a zone is accepted.
   */
  function Parse(s: string): (r: Option<Time>)
    ensures r.Some? ==> |s| >= 20 && s[4] == '-' && s[7] == '-' && s[10] == 'T' && s[13] == ':' && s[16] == ':'
  {
    if |s| < 19 then None
    else
      match ParseDateTime(s[..19])
      case None => None
      case Some(local) =>
        match ZoneOffset(SkipFraction(s[19..]))
        case None => None
        case Some(offset) => Some(local - offset)
  }

  /**
   * The date and time of day of an RFC 3339 text read as UTC, its offset dropped: what
   * a column of type TIMESTAMP (without time zone) keeps of the text. It exists exactly
   * where Parse succeeds, lies less than a day from the parsed instant, and equals it
   * when the zone is "Z".
   */
  function WallClock(s: string): (r: Option<Time>)
    ensures r.Some? <==> Parse(s).Some?
    ensures r.Some? ==> -SecondsPerDay < r.value - Parse(s).value < SecondsPerDay
    ensures |s| >= 19 && SkipFraction(s[19..]) == "Z" ==> r == Parse(s)
  {
    if |s| < 19 then None
    else
      match ParseDateTime(s[..19])
      case None => None
      case Some(local) =>
        match ZoneOffset(SkipFraction(s[19..]))
        case None => None
        case Some(_) => Some(local)
  }

  lemma TimeOfDay(sod: int)
    requires 0 <= sod < SecondsPerDay
    ensures 0 <= sod / 3600 < 24 && 0 <= sod / 60 % 60 < 60 && 0 <= sod % 60 < 60
    ensures (sod / 3600) * 3600 + (sod / 60 % 60) * 60 + sod % 60 == sod
  {
    var m := sod / 60;
    assert sod == m * 60 + sod % 60;
    assert m == (m / 60) * 60 + m % 60;
    assert m / 60 == sod / 3600;
  }

  lemma TwoDigits(n: nat)
    requires n < 100
    ensures |Padded(n, 2)| == 2 && ValueOf(Padded(n, 2)) == n
  {
    assert Pow10(2) == 100 by { assert Pow10(1) == 10; }
    PaddedValue(n, 2);
  }

  lemma FourDigits(n: nat)
    ensures ValueOf(Padded(n, 4)) == n
    ensures n < 10000 ==> |Padded(n, 4)| == 4
    ensures n >= 10000 ==> |Padded(n, 4)| > 4
  {
    assert Pow10(4) == 10000 by {
      assert Pow10(1) == 10;
      assert Pow10(2) == 100;
      assert Pow10(3) == 1000;
    }
    PaddedValue(n, 4);
  }

  /** Where each field and separator sits in the tail when every field has two digits. */
  lemma {:induction false} TailLayout(M: string, D: string, h: string, mi: string, se: string)
    requires |M| == 2 && |D| == 2 && |h| == 2 && |mi| == 2 && |se| == 2
    ensures var T := Tail(M, D, h, mi, se);
      |T| == 16 && T[1..3] == M && T[4..6] == D && T[7..9] == h && T[10..12] == mi && T[13..15] == se
      && T[0] == '-' && T[3] == '-' && T[6] == 'T' && T[9] == ':' && T[12] == ':' && T[15] == 'Z'
  {
  }

  /** A field of exactly `width` decimal digits whose value is v. */
  predicate FieldText(s: string, width: nat, v: nat) {
    |s| == width && AllDigits(s) && ValueOf(s) == v
  }

  /** Parsing a UTC timestamp whose six digit fields are in range gives their instant. */
  lemma {:induction false} ParseFields(Y: string, M: string, D: string, h: string, mi: string, se: string,
                                       d: Date, hour: nat, minute: nat, second: nat)
    requires ValidDate(d) && d.year <= 9999 && hour < 24 && minute < 60 && second < 60
    requires FieldText(Y, 4, d.year) && FieldText(M, 2, d.month) && FieldText(D, 2, d.day)
    requires FieldText(h, 2, hour) && FieldText(mi, 2, minute) && FieldText(se, 2, second)
    ensures Parse(Y + Tail(M, D, h, mi, se)) == Some(DayNumber(d) * SecondsPerDay + hour * 3600 + minute * 60 + second)
  {
    var T := Tail(M, D, h, mi, se);
    TailLayout(M, D, h, mi, se);
    var s := Y + T;
    assert s[..19] == Y + T[..15] && s[19..] == "Z";
    var p := s[..19];
    assert p[0..4] == Y && p[5..7] == M && p[8..10] == D;
    assert p[11..13] == h && p[14..16] == mi && p[17..19] == se;
    assert p[4] == T[0] && p[7] == T[3] && p[10] == T[6] && p[13] == T[9] && p[16] == T[12];
    assert SkipFraction("Z") == "Z";
  }

  /** The zero-padded renderings of a valid date and time of day are digit fields of their values. */
  lemma PaddedFields(d: Date, hh: nat, mm: nat, ss: nat)
    requires ValidDate(d) && d.year <= 9999 && hh < 24 && mm < 60 && ss < 60
    ensures FieldText(Padded(d.year, 4), 4, d.year) && FieldText(Padded(d.month, 2), 2, d.month)
    ensures FieldText(Padded(d.day, 2), 2, d.day) && FieldText(Padded(hh, 2), 2, hh)
    ensures FieldText(Padded(mm, 2), 2, mm) && FieldText(Padded(ss, 2), 2, ss)
  {
    TwoDigits(d.month);
    TwoDigits(d.day);
    TwoDigits(hh);
    TwoDigits(mm);
    TwoDigits(ss);
    FourDigits(d.year);
  }

  /** Parsing the UTC rendering of a valid date and time of day gives its instant. */
  lemma {:induction false} ParseUtc(d: Date, hh: nat, mm: nat, ss: nat)
    requires ValidDate(d) && d.year <= 9999 && hh < 24 && mm < 60 && ss < 60
    ensures Parse(Padded(d.year, 4) + Tail(Padded(d.month, 2), Padded(d.day, 2), Padded(hh, 2), Padded(mm, 2), Padded(ss, 2)))
            == Some(DayNumber(d) * SecondsPerDay + hh * 3600 + mm * 60 + ss)
  {
    PaddedFields(d, hh, mm, ss);
    ParseFields(Padded(d.year, 4), Padded(d.month, 2), Padded(d.day, 2), Padded(hh, 2), Padded(mm, 2), Padded(ss, 2),
                d, hh, mm, ss);
  }

  /** A year of five or more digits puts a digit where the first '-' must be. */
  lemma {:induction false} ParseWideYear(Y: string, rest: string)
    requires |Y| > 4 && AllDigits(Y)
    ensures Parse(Y + rest) == None
  {
    var s := Y + rest;
    if |s| >= 19 {
      assert s[4] == Y[4];
    }
  }

  /**
   * Formatting then parsing gives back the instant for every year Go can parse (up to
   * 9999); from year 10000 on the formatted year has five or more digits and parsing fails.
   */
  lemma ParseFormat(t: Time)
    requires t >= 0
    ensures YearOfTime(t) <= 9999 ==> Parse(Format(t)) == Some(t)
    ensures YearOfTime(t) > 9999 ==> Parse(Format(t)) == None
  {
    if YearOfTime(t) <= 9999 {
      ParseFormatFourDigitYear(t);
    } else {
      ParseFormatWideYear(t);
    }
  }

  /** Up to year 9999 the rendering parses back to the instant. */
  lemma ParseFormatFourDigitYear(t: Time)
    requires t >= 0 && YearOfTime(t) <= 9999
    ensures Parse(Format(t)) == Some(t)
  {
    var d, sod := DateOf(t / SecondsPerDay), t % SecondsPerDay;
    SplitInstant(t);
    ParseRendered(Format(t), t, d, sod / 3600, sod / 60 % 60, sod % 60);
  }

  /** A string that renders a valid date and time of day parses to the instant they make up. */
  lemma ParseRendered(s: string, t: Time, d: Date, hh: nat, mm: nat, ss: nat)
    requires ValidDate(d) && d.year <= 9999 && hh < 24 && mm < 60 && ss < 60
    requires s == Padded(d.year, 4) + Tail(Padded(d.month, 2), Padded(d.day, 2), Padded(hh, 2), Padded(mm, 2), Padded(ss, 2))
    requires t == DayNumber(d) * SecondsPerDay + hh * 3600 + mm * 60 + ss
    ensures Parse(s) == Some(t)
  {
    ParseUtc(d, hh, mm, ss);
  }

  /** From year 10000 on the rendering has a five-digit year, which the parser refuses. */
  lemma ParseFormatWideYear(t: Time)
    requires t >= 0 && YearOfTime(t) > 9999
    ensures Parse(Format(t)) == None
  {
    var d, sod := DateOf(t / SecondsPerDay), t % SecondsPerDay;
    FourDigits(d.year);
    ParseWideYear(Padded(d.year, 4), Tail(Padded(d.month, 2), Padded(d.day, 2),
                                          Padded(sod / 3600, 2), Padded(sod / 60 % 60, 2), Padded(sod % 60, 2)));
  }

  /** An instant is its day's number of seconds plus the hours, minutes and seconds of its time of day. */
  lemma SplitInstant(t: Time)
    requires t >= 0
    ensures var sod := t % SecondsPerDay;
      sod / 3600 < 24 && sod / 60 % 60 < 60 && sod % 60 < 60
      && t == DayNumber(DateOf(t / SecondsPerDay)) * SecondsPerDay + (sod / 3600) * 3600 + (sod / 60 % 60) * 60 + sod % 60
  {
    TimeOfDay(t % SecondsPerDay);
  }

  /** Up to year 9999 the rendering is twenty characters whose zone is "Z". */
  lemma FormatZulu(t: Time)
    requires t >= 0 && YearOfTime(t) <= 9999
    ensures |Format(t)| == 20 && Format(t)[19..] == "Z"
  {
    var d, sod := DateOf(t / SecondsPerDay), t % SecondsPerDay;
    SplitInstant(t);
    PaddedFields(d, sod / 3600, sod / 60 % 60, sod % 60);
    TailLayout(Padded(d.month, 2), Padded(d.day, 2), Padded(sod / 3600, 2), Padded(sod / 60 % 60, 2), Padded(sod % 60, 2));
  }

  /**
   * The wall clock of a rendering is the instant itself up to year 9999, so dropping the
   * offset loses nothing for UTC text; from year 10000 on there is none.
   */
  lemma FormatWallClock(t: Time)
    requires t >= 0
    ensures YearOfTime(t) <= 9999 ==> WallClock(Format(t)) == Some(t)
    ensures YearOfTime(t) > 9999 ==> WallClock(Format(t)) == None
  {
    ParseFormat(t);
    if YearOfTime(t) <= 9999 {
      FormatZulu(t);
    }
  }
}
