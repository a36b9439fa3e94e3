/** Dates and durations as a metadata query writes them. */
module QueryDates {
  import opened Wrappers
  import opened Decimal

  datatype Date = Date(year: nat, month: nat, day: nat, hour: nat, minute: nat)

  predicate IsLeap(year: nat) {
    year % 4 == 0 && (year % 100 != 0 || year % 400 == 0)
  }

  function DaysIn(year: nat, month: nat): nat {
    if month == 2 then (if IsLeap(year) then 29 else 28)
    else if month == 4 || month == 6 || month == 9 || month == 11 then 30
    else 31
  }

  predicate ValidDate(d: Date) {
    d.year < 10000 && 1 <= d.month <= 12 && 1 <= d.day <= DaysIn(d.year, d.month) && d.hour < 24 && d.minute < 60
  }

  /** time.Time{} in UTC. */
  const ZERO_TIME := Date(1, 1, 1, 0, 0)

  /** A number in w digits, with leading zeros. */
  function Padded(n: nat, w: nat): (s: string)
    ensures |s| == w && AllDigits(s)
  {
    if w == 0 then "" else Padded(n / 10, w - 1) + [Digit(n % 10)]
  }

  lemma {:induction false} PaddedValue(n: nat, w: nat)
    requires n < Power10(w)
    ensures Value(Padded(n, w)) == n
  {
    if w > 0 {
      PaddedValue(n / 10, w - 1);
      var s := Padded(n, w);
      assert s[..w - 1] == Padded(n / 10, w - 1);
    }
  }

  /** Format with the layout 2006-01-02T15:04. */
  function FormatDate(d: Date): string {
    Padded(d.year, 4) + "-" + Padded(d.month, 2) + "-" + Padded(d.day, 2)
    + "T" + Padded(d.hour, 2) + ":" + Padded(d.minute, 2)
  }

  /** Where the layout has its separators; the hour may have one digit. */
  predicate HasLayout(s: string) {
    15 <= |s| <= 16 && s[4] == '-' && s[7] == '-' && s[10] == 'T' && s[|s| - 3] == ':'
    && AllDigits(s[..4]) && AllDigits(s[5..7]) && AllDigits(s[8..10])
    && AllDigits(s[11..|s| - 3]) && AllDigits(s[|s| - 2..])
  }

  /** time.Parse with that layout. */
  function ParseDate(s: string): Option<Date> {
    if !HasLayout(s) then None
    else
      var d := Date(Value(s[..4]), Value(s[5..7]), Value(s[8..10]), Value(s[11..|s| - 3]), Value(s[|s| - 2..]));
      if ValidDate(d) then Some(d) else None
  }

  lemma PartsOfDate(d: Date)
    ensures var s := FormatDate(d);
            |s| == 16 && s[4] == '-' && s[7] == '-' && s[10] == 'T' && s[13] == ':'
            && s[..4] == Padded(d.year, 4) && s[5..7] == Padded(d.month, 2) && s[8..10] == Padded(d.day, 2)
            && s[11..13] == Padded(d.hour, 2) && s[14..] == Padded(d.minute, 2)
  {
  }

  /** Every date is read back from its text. */
  lemma FormatThenParse(d: Date)
    requires ValidDate(d)
    ensures ParseDate(FormatDate(d)) == Some(d)
  {
    PartsOfDate(d);
    assert Power10(2) == 100 && Power10(4) == 100 * Power10(2);
    PaddedValue(d.year, 4);
    PaddedValue(d.month, 2);
    PaddedValue(d.day, 2);
    PaddedValue(d.hour, 2);
    PaddedValue(d.minute, 2);
  }

  // ---------------------------------------------------------------- durations

  /** The class the expression lists, with the bar it contains. */
  predicate IsUnit(c: char) {
    c == 's' || c == '|' || c == 'm' || c == 'h' || c == 'd' || c == 'w' || c == 'M' || c == 'y'
  }

  /** A positive count without leading zero, and a unit. */
  predicate IsDuration(s: string) {
    |s| >= 2 && s[0] != '0' && AllDigits(s[..|s| - 1]) && IsUnit(s[|s| - 1])
  }

  function Count(s: string): nat
    requires IsDuration(s)
  {
    Value(s[..|s| - 1])
  }

  function Unit(s: string): char
    requires IsDuration(s)
  {
    s[|s| - 1]
  }

  /** Nothing is both a duration and a date. */
  lemma DurationIsNoDate(s: string)
    requires IsDuration(s)
    ensures ParseDate(s).None?
  {
  }

  /** A duration is a positive number as it is printed, and one of the characters of the class. */
  lemma DurationMeaning(s: string)
    ensures IsDuration(s) <==> exists n: nat, unit: char :: n > 0 && unit in "s|mhdwMy" && s == Digits(n) + [unit]
    ensures IsDuration(s) ==> s == Digits(Count(s)) + [Unit(s)]
  {
    if IsDuration(s) {
      DigitsOfValue(s[..|s| - 1]);
      assert s == s[..|s| - 1] + [s[|s| - 1]];
      assert Unit(s) in "s|mhdwMy";
    }
    if n: nat, unit: char :| n > 0 && unit in "s|mhdwMy" && s == Digits(n) + [unit] {
      DigitsRoundTrip(n);
      assert s[..|s| - 1] == Digits(n);
    }
  }

  function DigitAt(s: string, k: nat): nat
    requires k < |s|
  {
    if IsDigit(s[k]) then DigitValue(s[k]) else 0
  }

  /** Which characters of a text give which part of its date. */
  lemma DateShows(s: string, date: Date)
    requires ParseDate(s) == Some(date)
    ensures |s| == 15 || |s| == 16
    ensures date.year == 1000 * DigitAt(s, 0) + 100 * DigitAt(s, 1) + 10 * DigitAt(s, 2) + DigitAt(s, 3)
    ensures date.month == 10 * DigitAt(s, 5) + DigitAt(s, 6) && date.day == 10 * DigitAt(s, 8) + DigitAt(s, 9)
    ensures date.hour == if |s| == 15 then DigitAt(s, 11) else 10 * DigitAt(s, 11) + DigitAt(s, 12)
    ensures date.minute == 10 * DigitAt(s, |s| - 2) + DigitAt(s, |s| - 1)
  {
    var minute := s[|s| - 2..];
    FourDigits(s[..4]);
    TwoDigits(s[5..7]);
    TwoDigits(s[8..10]);
    TwoDigits(minute);
    if |s| == 16 { TwoDigits(s[11..13]); } else { OneDigit(s[11..12]); }
  }

  lemma OneDigit(s: string)
    requires |s| == 1 && AllDigits(s)
    ensures Value(s) == DigitAt(s, 0)
  {
    assert s[..0] == "";
  }

  lemma TwoDigits(s: string)
    requires |s| == 2 && AllDigits(s)
    ensures Value(s) == 10 * DigitAt(s, 0) + DigitAt(s, 1)
  {
    OneDigit(s[..1]);
  }

  lemma FourDigits(s: string)
    requires |s| == 4 && AllDigits(s)
    ensures Value(s) == 1000 * DigitAt(s, 0) + 100 * DigitAt(s, 1) + 10 * DigitAt(s, 2) + DigitAt(s, 3)
  {
    var three := s[..3];
    assert three[..2] == s[..2];
    TwoDigits(s[..2]);
    assert Value(three) == 10 * Value(three[..2]) + DigitValue(three[2]);
  }
}
