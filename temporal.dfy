/**
 * The java.time behaviour the parser relies on, at minute resolution:
 * calendar validity, the ISO text `LocalDateTime.toString` writes, the seven
 * formatter shapes the parser tries, and the `MMM dd yyyy` display pattern.
 */
module Temporal {
  import opened Wrappers
  import opened JavaStrings

  /** A calendar date (LocalDate). */
  datatype Date = Date(year: int, month: int, day: int)

  /** A wall-clock date and time at minute resolution (LocalDateTime). */
  datatype DateTime = DateTime(year: int, month: int, day: int, hour: int, minute: int)

  /** The proleptic Gregorian leap-year rule of `Year.isLeap`. */
  predicate IsLeapYear(y: int) {
    y % 4 == 0 && (y % 100 != 0 || y % 400 == 0)
  }

  function DaysInMonth(year: int, month: int): (n: int)
    requires 1 <= month <= 12
    ensures 28 <= n <= 31
  {
    if month == 2 then (if IsLeapYear(year) then 29 else 28)
    else if month == 4 || month == 6 || month == 9 || month == 11 then 30
    else 31
  }

  predicate IsValidDate(year: int, month: int, day: int) {
    1 <= month <= 12 && 1 <= day <= DaysInMonth(year, month)
  }

  predicate IsValidDateTime(dt: DateTime) {
    IsValidDate(dt.year, dt.month, dt.day) && 0 <= dt.hour < 24 && 0 <= dt.minute < 60
  }

  /** The dates a LocalDate can hold. */
  type LocalDate = d: Date | IsValidDate(d.year, d.month, d.day) witness Date(2000, 1, 1)

  /** The date-times a LocalDateTime can hold, at minute resolution. */
  type LocalDateTime = dt: DateTime | IsValidDateTime(dt) witness DateTime(2000, 1, 1, 0, 0)

  function DateOf(dt: LocalDateTime): LocalDate {
    Date(dt.year, dt.month, dt.day)
  }

  predicate IsMidnight(dt: LocalDateTime) {
    dt.hour == 0 && dt.minute == 0
  }

  /** `LocalDate.atStartOfDay`. */
  function AtStartOfDay(d: LocalDate): (r: LocalDateTime)
    ensures DateOf(r) == d && IsMidnight(r)
  {
    DateTime(d.year, d.month, d.day, 0, 0)
  }

  /** `LocalDateTime.isAfter`: strictly later, comparing the date first and then the time of day. */
  predicate IsAfter(a: DateTime, b: DateTime) {
    || a.year > b.year
    || (a.year == b.year && a.month > b.month)
    || (a.year == b.year && a.month == b.month && a.day > b.day)
    || (a.year == b.year && a.month == b.month && a.day == b.day && a.hour > b.hour)
    || (a.year == b.year && a.month == b.month && a.day == b.day && a.hour == b.hour && a.minute > b.minute)
  }

  /** isAfter is a strict total order: of two different instants exactly one is after the other. */
  lemma IsAfterTotal(a: DateTime, b: DateTime)
    ensures !(IsAfter(a, b) && IsAfter(b, a))
    ensures a != b ==> IsAfter(a, b) || IsAfter(b, a)
    ensures !IsAfter(a, a)
  {
  }

  // ---------------------------------------------------------------- ISO text

  /** The year as `LocalDate.toString` writes it: four digits at least, '-' before negative years, '+' before years past 9999. */
  function IsoYear(y: int): string {
    if -1000 < y < 0 then "-" + FixedDigits(-y, 4)
    else if 0 <= y < 1000 then FixedDigits(y, 4)
    else if y > 9999 then "+" + NatToString(y)
    else IntToString(y)
  }

  /** `LocalDate.toString`, e.g. 2019-12-02. */
  function IsoDateString(d: LocalDate): string {
    IsoYear(d.year) + "-" + FixedDigits(d.month, 2) + "-" + FixedDigits(d.day, 2)
  }

  /**
   * `LocalDateTime.toString` at minute resolution, e.g. 2019-12-02T18:00:
   * the extended local date-time form of section 4.3 of ISO 8601:2004.
   */
  function IsoString(dt: LocalDateTime): string {
    IsoDateString(DateOf(dt)) + "T" + FixedDigits(dt.hour, 2) + ":" + FixedDigits(dt.minute, 2)
  }

  // ---------------------------------------------------------------- parsing shapes

  /** Length of the run of ASCII digits that starts at `from` (a formatter reads digits greedily). */
  function DigitRun(s: string, from: nat): (n: nat)
    requires from <= |s|
    ensures from + n <= |s|
    ensures forall k :: from <= k < from + n ==> IsDigit(s[k])
    ensures from + n < |s| ==> !IsDigit(s[from + n])
    decreases |s| - from
  {
    if from == |s| || !IsDigit(s[from]) then 0 else 1 + DigitRun(s, from + 1)
  }

  predicate DigitsAt(s: string, i: nat, n: nat) {
    i + n <= |s| && AllDigits(s[i..i + n])
  }

  function ValueAt(s: string, i: nat, n: nat): nat
    requires DigitsAt(s, i, n)
  {
    DigitsValue(s[i..i + n])
  }

  lemma DigitsAtOf(s: string, i: nat, n: nat)
    requires i + n <= |s| && forall k :: i <= k < i + n ==> IsDigit(s[k])
    ensures DigitsAt(s, i, n)
  {
    var t := s[i..i + n];
    forall k | 0 <= k < |t| ensures IsDigit(t[k]) {
      assert t[k] == s[i + k];
    }
  }

  lemma {:induction false} ValueAtOne(s: string, i: nat)
    requires i < |s| && IsDigit(s[i])
    ensures DigitsAt(s, i, 1) && ValueAt(s, i, 1) == DigitValue(s[i])
  {
    DigitsAtOf(s, i, 1);
    var t := s[i..i + 1];
    assert t[..0] == [] && t[0] == s[i];
    assert DigitsValue(t) == DigitsValue(t[..0]) * 10 + DigitValue(t[0]);
  }

  lemma {:induction false} ValueAtTwo(s: string, i: nat)
    requires i + 2 <= |s| && IsDigit(s[i]) && IsDigit(s[i + 1])
    ensures DigitsAt(s, i, 2) && ValueAt(s, i, 2) == 10 * DigitValue(s[i]) + DigitValue(s[i + 1])
  {
    DigitsAtOf(s, i, 2);
    ValueAtOne(s, i);
    var t := s[i..i + 2];
    assert t[..1] == s[i..i + 1] && t[1] == s[i + 1];
  }

  lemma {:induction false} ValueAtFour(s: string, i: nat)
    requires i + 4 <= |s| && forall k :: i <= k < i + 4 ==> IsDigit(s[k])
    ensures DigitsAt(s, i, 4)
    ensures ValueAt(s, i, 4) == 100 * ValueAt(s, i, 2) + 10 * DigitValue(s[i + 2]) + DigitValue(s[i + 3])
  {
    DigitsAtOf(s, i, 4);
    DigitsAtOf(s, i, 3);
    DigitsAtOf(s, i, 2);
    var t := s[i..i + 4];
    assert t[..3] == s[i..i + 3] && t[3] == s[i + 3];
    var u := s[i..i + 3];
    assert u[..2] == s[i..i + 2] && u[2] == s[i + 2];
    var v2, v3 := ValueAt(s, i, 2), ValueAt(s, i, 3);
    assert v3 == v2 * 10 + DigitValue(s[i + 2]);
    assert ValueAt(s, i, 4) == v3 * 10 + DigitValue(s[i + 3]);
  }

  /** Year, month and day read from a `yyyy-MM-dd` prefix (four year digits exactly, two-digit month and day). */
  function YmdFields(s: string): (r: Option<(int, int, int)>)
    ensures r.Some? ==> |s| >= 10 && DigitRun(s, 0) == 4 && s[4] == '-'
  {
    if |s| >= 10 && DigitRun(s, 0) == 4 && s[4] == '-' && DigitsAt(s, 5, 2) && s[7] == '-' && DigitsAt(s, 8, 2)
    then
      assert DigitsAt(s, 0, 4);
      Some((ValueAt(s, 0, 4), ValueAt(s, 5, 2), ValueAt(s, 8, 2)))
    else None
  }

  /**
   * Day, month, year and the index after the year read from a `d/M/yyyy`
   * prefix: one to nineteen day digits, '/', one to nineteen month digits,
   * '/', four year digits.
   */
  function DmyFields(s: string): (r: Option<(int, int, int, nat)>)
    ensures r.Some? ==> r.value.3 <= |s| && DigitRun(s, 0) < |s| && s[DigitRun(s, 0)] == '/'
  {
    var d := DigitRun(s, 0);
    if 1 <= d <= 19 && d < |s| && s[d] == '/' then
      var m := DigitRun(s, d + 1);
      var p := d + 1 + m;
      if 1 <= m <= 19 && p < |s| && s[p] == '/' && DigitRun(s, p + 1) == 4 then
        assert DigitsAt(s, 0, d) && DigitsAt(s, d + 1, m) && DigitsAt(s, p + 1, 4);
        Some((ValueAt(s, 0, d), ValueAt(s, d + 1, m), ValueAt(s, p + 1, 4), p + 5))
      else None
    else None
  }

  /** Hour and minute of an `HHmm` suffix starting at `i` and ending the text. */
  function HhmmAt(s: string, i: nat): (r: Option<(int, int)>)
    ensures r.Some? ==> |s| == i + 4
  {
    if |s| == i + 4 && DigitsAt(s, i, 2) && DigitsAt(s, i + 2, 2)
    then Some((ValueAt(s, i, 2), ValueAt(s, i + 2, 2)))
    else None
  }

  /** Hour and minute of an `HH:mm` suffix starting at `i` and ending the text. */
  function HhColonMmAt(s: string, i: nat): (r: Option<(int, int)>)
    ensures r.Some? ==> |s| == i + 5
  {
    if |s| == i + 5 && DigitsAt(s, i, 2) && s[i + 2] == ':' && DigitsAt(s, i + 3, 2)
    then Some((ValueAt(s, i, 2), ValueAt(s, i + 3, 2)))
    else None
  }

  /**
   * Turns parsed fields into a value, or None where the resolver rejects them.
   * A pattern's `yyyy` is the year-of-era, which must be at least 1; the ISO
   * formatters read the proleptic year, where 0 is allowed.
   */
  function Resolve(year: int, month: int, day: int, hour: int, minute: int, yearOfEra: bool): (r: Option<LocalDateTime>)
    ensures r.Some? <==> IsValidDateTime(DateTime(year, month, day, hour, minute)) && (yearOfEra ==> year >= 1)
    ensures r.Some? ==> r.value == DateTime(year, month, day, hour, minute)
  {
    var dt := DateTime(year, month, day, hour, minute);
    if IsValidDateTime(dt) && (yearOfEra ==> year >= 1) then Some(dt) else None
  }

  /** The seven formats the parser tries, in the order it tries them. */
  datatype Shape =
    | IsoDateTime    // LocalDateTime.parse(s): 2019-12-02T18:00
    | DmyHhmm        // d/M/yyyy HHmm: 2/12/2019 1800
    | DmyHhColonMm   // d/M/yyyy HH:mm: 2/12/2019 18:00
    | YmdHhmm        // yyyy-MM-dd HHmm: 2019-12-02 1800
    | YmdHhColonMm   // yyyy-MM-dd HH:mm: 2019-12-02 18:00
    | DmyDate        // d/M/yyyy, at start of day
    | IsoDate        // LocalDate.parse(s), at start of day

  const ParseOrder: seq<Shape> := [IsoDateTime, DmyHhmm, DmyHhColonMm, YmdHhmm, YmdHhColonMm, DmyDate, IsoDate]

  predicate IsYmdShape(shape: Shape) {
    shape.IsoDateTime? || shape.YmdHhmm? || shape.YmdHhColonMm? || shape.IsoDate?
  }

  /** A `yyyy-MM-dd` date followed by `sep` and a time of day read by `time`. */
  function YmdWithTime(s: string, sep: char -> bool, colon: bool, yearOfEra: bool): (r: Option<LocalDateTime>)
    ensures r.Some? ==> |s| == (if colon then 16 else 15) && sep(s[10]) && YmdFields(s).Some?
  {
    if |s| > 10 && sep(s[10]) then
      match (YmdFields(s), if colon then HhColonMmAt(s, 11) else HhmmAt(s, 11))
      case (Some((y, mo, d)), Some((h, mi))) => Resolve(y, mo, d, h, mi, yearOfEra)
      case _ => None
    else None
  }

  /** A `d/M/yyyy` date followed by one space and a time of day read by `time`. */
  function DmyWithTime(s: string, colon: bool): (r: Option<LocalDateTime>)
    ensures r.Some? ==> DmyFields(s).Some? && |s| == DmyFields(s).value.3 + (if colon then 6 else 5)
  {
    match DmyFields(s)
    case Some((d, mo, y, e)) =>
      if e < |s| && s[e] == ' ' then
        match if colon then HhColonMmAt(s, e + 1) else HhmmAt(s, e + 1)
        case Some((h, mi)) => Resolve(y, mo, d, h, mi, true)
        case None => None
      else None
    case None => None
  }

  /** How `d/M/yyyy HHmm` is read once its date fields and its time are known. */
  lemma DmyHhmmOf(s: string, d: int, mo: int, y: int, e: nat, h: int, mi: int)
    requires DmyFields(s) == Some((d, mo, y, e)) && e < |s| && s[e] == ' ' && HhmmAt(s, e + 1) == Some((h, mi))
    ensures Recognise(DmyHhmm, s) == Resolve(y, mo, d, h, mi, true)
  {
  }

  /** What one formatter makes of the whole text `s`: a value, or None where it throws DateTimeParseException. */
  function Recognise(shape: Shape, s: string): (r: Option<LocalDateTime>)
    ensures r.Some? && (shape == DmyDate || shape == IsoDate) ==> IsMidnight(r.value)
  {
    match shape
    case IsoDateTime => YmdWithTime(s, c => c == 'T' || c == 't', true, false)
    case DmyHhmm => DmyWithTime(s, false)
    case DmyHhColonMm => DmyWithTime(s, true)
    case YmdHhmm => YmdWithTime(s, c => c == ' ', false, true)
    case YmdHhColonMm => YmdWithTime(s, c => c == ' ', true, true)
    case DmyDate =>
      (match DmyFields(s)
       case Some((d, mo, y, e)) => if e == |s| then Resolve(y, mo, d, 0, 0, true) else None
       case None => None)
    case IsoDate =>
      if |s| == 10 then
        match YmdFields(s)
        case Some((y, mo, d)) => Resolve(y, mo, d, 0, 0, false)
        case None => None
      else None
  }

  lemma RecognisedFamily(shape: Shape, s: string)
    requires Recognise(shape, s).Some?
    ensures IsYmdShape(shape) ==> YmdFields(s).Some?
    ensures !IsYmdShape(shape) ==> DmyFields(s).Some?
  {
  }

  /**
   * No text fits two of the seven shapes, so trying them in a fixed order and
   * keeping the first success gives the only success there is.
   */
  lemma {:induction false} ShapesExclusive(s: string, a: Shape, b: Shape)
    requires Recognise(a, s).Some? && Recognise(b, s).Some?
    ensures a == b
  {
    RecognisedFamily(a, s);
    RecognisedFamily(b, s);
  }

  /** Text that starts `yyyy-MM-dd` is read field by field. */
  lemma {:induction false} YmdLayout(y: string, mo: string, d: string, rest: string)
    requires |y| == 4 && |mo| == 2 && |d| == 2
    requires AllDigits(y) && AllDigits(mo) && AllDigits(d)
    ensures var s := y + "-" + mo + "-" + d + rest;
      YmdFields(s) == Some((DigitsValue(y) as int, DigitsValue(mo) as int, DigitsValue(d) as int))
  {
    var s := y + "-" + mo + "-" + d + rest;
    assert s[0..4] == y;
    assert s[5..7] == mo;
    assert s[8..10] == d;
    assert s[4] == '-' && s[7] == '-';
    assert DigitRun(s, 0) == 4 by {
      assert forall k :: 0 <= k < 4 ==> s[k] == y[k];
      DigitRunIs(s, 0, 4);
    }
  }

  /** Text laid out as `yyyy-MM-ddTHH:mm` is read field by field. */
  lemma {:induction false} IsoLayout(y: string, mo: string, d: string, h: string, mi: string)
    requires |y| == 4 && |mo| == 2 && |d| == 2 && |h| == 2 && |mi| == 2
    requires AllDigits(y) && AllDigits(mo) && AllDigits(d) && AllDigits(h) && AllDigits(mi)
    ensures var s := y + "-" + mo + "-" + d + "T" + h + ":" + mi;
      && |s| == 16 && s[10] == 'T'
      && YmdFields(s) == Some((DigitsValue(y) as int, DigitsValue(mo) as int, DigitsValue(d) as int))
      && HhColonMmAt(s, 11) == Some((DigitsValue(h) as int, DigitsValue(mi) as int))
  {
    var s := y + "-" + mo + "-" + d + "T" + h + ":" + mi;
    YmdLayout(y, mo, d, "T" + h + ":" + mi);
    assert s == y + "-" + mo + "-" + d + ("T" + h + ":" + mi);
    assert s[11..13] == h;
    assert s[14..16] == mi;
    assert s[10] == 'T' && s[13] == ':';
  }

  /** The digits of an ISO year in 0..9999: exactly four. */
  lemma IsoYearDigits(y: int)
    requires 0 <= y <= 9999
    ensures IsoYear(y) == FixedDigits(y, 4)
    ensures DigitsValue(IsoYear(y)) == y
  {
    if y >= 1000 {
      NatToStringIsFixedDigits(y);
    }
    assert Pow10(4) == 10000;
    FixedDigitsValue(y, 4);
  }

  /** The ISO text of every four-digit-year value is read back by the first shape. */
  lemma IsoStringRecognised(dt: LocalDateTime)
    requires 0 <= dt.year <= 9999
    ensures Recognise(IsoDateTime, IsoString(dt)) == Some(dt)
  {
    var y, mo, d := FixedDigits(dt.year, 4), FixedDigits(dt.month, 2), FixedDigits(dt.day, 2);
    var h, mi := FixedDigits(dt.hour, 2), FixedDigits(dt.minute, 2);
    IsoYearDigits(dt.year);
    assert IsoString(dt) == y + "-" + mo + "-" + d + "T" + h + ":" + mi;
    IsoLayout(y, mo, d, h, mi);
    assert Pow10(2) == 100;
    FixedDigitsValue(dt.month, 2);
    FixedDigitsValue(dt.day, 2);
    FixedDigitsValue(dt.hour, 2);
    FixedDigitsValue(dt.minute, 2);
  }

  /** The ISO text of every four-digit-year date is read back by the last shape, at midnight. */
  lemma IsoDateStringRecognised(d: LocalDate)
    requires 0 <= d.year <= 9999
    ensures Recognise(IsoDate, IsoDateString(d)) == Some(AtStartOfDay(d))
  {
    var y, mo, dd := FixedDigits(d.year, 4), FixedDigits(d.month, 2), FixedDigits(d.day, 2);
    IsoYearDigits(d.year);
    assert IsoDateString(d) == y + "-" + mo + "-" + dd + "";
    YmdLayout(y, mo, dd, "");
    assert Pow10(2) == 100;
    FixedDigitsValue(d.month, 2);
    FixedDigitsValue(d.day, 2);
  }

  lemma DigitRunIs(s: string, from: nat, n: nat)
    requires from + n <= |s|
    requires forall k :: from <= k < from + n ==> IsDigit(s[k])
    requires from + n < |s| ==> !IsDigit(s[from + n])
    ensures DigitRun(s, from) == n
    decreases n
  {
    if n > 0 {
      DigitRunIs(s, from + 1, n - 1);
    }
  }

  /** A four-digit number prints as its own four digits. */
  lemma NatToStringIsFixedDigits(y: nat)
    requires 1000 <= y <= 9999
    ensures NatToString(y) == FixedDigits(y, 4)
  {
    assert NatToString(y / 1000) == FixedDigits(y / 1000, 1);
    assert NatToString(y / 100) == FixedDigits(y / 100, 2);
    assert NatToString(y / 10) == FixedDigits(y / 10, 3);
  }

  // ---------------------------------------------------------------- display pattern

  /** The English short month names that `MMM` prints under Locale.ENGLISH. */
  function MonthAbbreviation(month: int): (r: string)
    requires 1 <= month <= 12
    ensures |r| == 3
  {
    ["Jan", "Feb", "Mar", "Apr", "May", "Jun", "Jul", "Aug", "Sep", "Oct", "Nov", "Dec"][month - 1]
  }

  /** The year-of-era as the pattern `yyyy` prints it: four digits at least, '+' past 9999. */
  function YearOfEraText(year: int): (r: string)
    ensures |r| >= 4
  {
    var yoe: nat := if year >= 1 then year else 1 - year;
    if yoe > 9999 then "+" + NatToString(yoe) else FixedDigits(yoe, 4)
  }

  /** The pattern `MMM dd yyyy`, e.g. Dec 02 2019. */
  function MmmDdYyyy(d: LocalDate): (r: string)
    ensures |r| >= 11
  {
    MonthAbbreviation(d.month) + " " + FixedDigits(d.day, 2) + " " + YearOfEraText(d.year)
  }

  /** The pattern `HH:mm`, e.g. 18:00. */
  function HhColonMm(dt: LocalDateTime): string {
    FixedDigits(dt.hour, 2) + ":" + FixedDigits(dt.minute, 2)
  }
}
