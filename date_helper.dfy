/** `calculateAge`: the age of a patient in years, months and days, computed by
    borrow arithmetic on calendar fields. The current date is a parameter. */
module DateHelper {
  import opened Common

  /** A local calendar date as JavaScript's `Date` getters see it:
      `getFullYear()`, `getMonth()` (0 for January) and `getDate()`. */
  datatype CivilDate = CivilDate(year: int, month: int, day: int)

  /** Leap years of the proleptic Gregorian calendar used by `Date`. */
  predicate LeapYear(y: int) {
    y % 4 == 0 && (y % 100 != 0 || y % 400 == 0)
  }

  function DaysInMonth(y: int, m: int): (r: int)
    requires 0 <= m < 12
    ensures 28 <= r <= 31
    ensures r == 29 <==> m == 1 && LeapYear(y)
  {
    if m == 1 then (if LeapYear(y) then 29 else 28)
    else if m == 3 || m == 5 || m == 8 || m == 10 then 30
    else 31
  }

  predicate ValidDate(d: CivilDate) {
    0 <= d.month < 12 && 1 <= d.day <= DaysInMonth(d.year, d.month)
  }

  /** A date as a `Date` object holds it: always a real calendar day. */
  type Date = d: CivilDate | ValidDate(d) witness CivilDate(1970, 0, 1)

  /** `new Date(y, m, 0).getDate()`: day 0 of month `m` is the last day of the
      month before it, in the previous year when `m` is January. */
  function PrevMonthLength(y: int, m: int): (r: int)
    requires 0 <= m < 12
    ensures 28 <= r <= 31
    ensures m == 0 ==> r == 31
    ensures m == 2 ==> r == DaysInMonth(y, 1)
  {
    if m == 0 then DaysInMonth(y - 1, 11) else DaysInMonth(y, m - 1)
  }

  /** The three numbers `calculateAge` prints. */
  datatype Age = Age(years: int, months: int, days: int)

  /** Reference definition of the arithmetic as written: the month difference is
      taken modulo 12 (a year is borrowed exactly when it is negative), and a
      negative day difference borrows one month and the length of the month
      before the current one, with no second normalisation of the months. */
  function AgeAsWritten(dob: CivilDate, today: CivilDate): Age
    requires ValidDate(dob) && ValidDate(today)
  {
    var dayBorrow := if today.day < dob.day then 1 else 0;
    Age(today.year - dob.year - (if today.month < dob.month then 1 else 0),
        (today.month - dob.month) % 12 - dayBorrow,
        today.day - dob.day + dayBorrow * PrevMonthLength(today.year, today.month))
  }

  /** Lines 34-48 of `calculateAge`: three differences, then the month borrow,
      then the day borrow, each updating the locals in place. */
  method ComputeAge(dob: CivilDate, today: CivilDate) returns (age: Age)
    requires ValidDate(dob) && ValidDate(today)
    ensures age == AgeAsWritten(dob, today)
    ensures -1 <= age.months <= 11 && -2 <= age.days <= 30
  {
    var years := today.year - dob.year;
    var months := today.month - dob.month;
    var days := today.day - dob.day;
    if months < 0 {
      years := years - 1;
      months := months + 12;
    }
    if days < 0 {
      months := months - 1;
      days := days + PrevMonthLength(today.year, today.month);
    }
    age := Age(years, months, days);
    AgeBounds(dob, today);
  }

  /** The printed months lie in -1..11 and the printed days in -2..30. */
  lemma AgeBounds(dob: CivilDate, today: CivilDate)
    requires ValidDate(dob) && ValidDate(today)
    ensures var a := AgeAsWritten(dob, today); -1 <= a.months <= 11 && -2 <= a.days <= 30
  {
  }

  /** Years and months together count the whole months elapsed: the calendar
      month difference, less one when the current day of the month is earlier
      than the birth day. */
  lemma AgeTotalMonths(dob: CivilDate, today: CivilDate)
    requires ValidDate(dob) && ValidDate(today)
    ensures var a := AgeAsWritten(dob, today);
            a.years * 12 + a.months
            == (today.year * 12 + today.month) - (dob.year * 12 + dob.month)
               - (if today.day < dob.day then 1 else 0)
  {
  }

  /** The year is borrowed exactly when the current month precedes the birth month. */
  lemma AgeYearBorrow(dob: CivilDate, today: CivilDate)
    requires ValidDate(dob) && ValidDate(today)
    ensures var a := AgeAsWritten(dob, today);
            (a.years == today.year - dob.year - 1 <==> today.month < dob.month)
            && (a.years == today.year - dob.year <==> today.month >= dob.month)
  {
  }

  /** Months come out as -1 exactly in the birth month before the birthday. */
  lemma NegativeMonthsIff(dob: CivilDate, today: CivilDate)
    requires ValidDate(dob) && ValidDate(today)
    ensures AgeAsWritten(dob, today).months == -1
            <==> today.month == dob.month && today.day < dob.day
  {
  }

  /** Witness of the unnormalised months: born on 20 May 2000, on 10 May 2024
      the age reads 24 years, -1 months, 20 days. */
  lemma NegativeMonthsExample()
    ensures AgeAsWritten(CivilDate(2000, 4, 20), CivilDate(2024, 4, 10)) == Age(24, -1, 20)
  {
  }

  /** Witness of a negative day count: born on 31 January 2000, on 1 March 2023
      the age reads 23 years, 1 months, -2 days (February 2023 has 28 days). */
  lemma NegativeDaysExample()
    ensures AgeAsWritten(CivilDate(2000, 0, 31), CivilDate(2023, 2, 1)) == Age(23, 1, -2)
  {
  }

  /** The age with every component normalised: a day borrow takes at most the
      length of the previous month (a birth day past its end counts as its last
      day), and the month borrow comes after the day borrow. */
  function AgeCorrected(dob: CivilDate, today: CivilDate): (a: Age)
    requires ValidDate(dob) && ValidDate(today)
    ensures 0 <= a.months <= 11 && 0 <= a.days <= 30
    ensures a.years * 12 + a.months
            == (today.year * 12 + today.month) - (dob.year * 12 + dob.month)
               - (if today.day < dob.day then 1 else 0)
    ensures today.day >= dob.day ==> a.days == today.day - dob.day
  {
    var prev := PrevMonthLength(today.year, today.month);
    var borrow := if today.day < dob.day then 1 else 0;
    var days := if borrow == 0 then today.day - dob.day
                else today.day + prev - (if dob.day < prev then dob.day else prev);
    var total := (today.year * 12 + today.month) - (dob.year * 12 + dob.month) - borrow;
    Age(total / 12, total % 12, days)
  }

  /** The corrected age agrees with the arithmetic as written whenever the latter
      is already normalised. */
  lemma CorrectedAgreesWhenNormal(dob: CivilDate, today: CivilDate)
    requires ValidDate(dob) && ValidDate(today)
    requires AgeAsWritten(dob, today).months >= 0 && AgeAsWritten(dob, today).days >= 0
    requires today.day < dob.day ==> dob.day <= PrevMonthLength(today.year, today.month)
    ensures AgeCorrected(dob, today) == AgeAsWritten(dob, today)
  {
    AgeTotalMonths(dob, today);
  }

  /** Decimal digit of a value below ten. */
  function Digit(d: nat): (c: char)
    requires d < 10
    ensures '0' <= c <= '9'
  {
    (d + '0' as int) as char
  }

  /** The decimal numeral of a natural number, most significant digit first,
      without leading zeros. */
  function NatToDecimal(n: nat): (s: string)
    ensures |s| >= 1 && AllDigits(s)
    ensures |s| > 1 ==> s[0] != '0'
    decreases n
  {
    if n < 10 then [Digit(n)] else NatToDecimal(n / 10) + [Digit(n % 10)]
  }

  predicate AllDigits(s: string) {
    forall i :: 0 <= i < |s| ==> '0' <= s[i] <= '9'
  }

  /** The value of a string of decimal digits. */
  function DecimalValue(s: string): nat
    requires AllDigits(s)
  {
    if s == [] then 0 else 10 * DecimalValue(s[..|s| - 1]) + (s[|s| - 1] as int - '0' as int)
  }

  /** Reading back the numeral gives the number printed. */
  lemma {:induction false} DecimalRoundTrip(n: nat)
    ensures DecimalValue(NatToDecimal(n)) == n
    decreases n
  {
    if n >= 10 {
      DecimalRoundTrip(n / 10);
      var s := NatToDecimal(n);
      assert s[..|s| - 1] == NatToDecimal(n / 10);
    }
  }

  /** A template literal's rendering of an integer: a minus sign for negatives. */
  function IntToDecimal(n: int): (s: string)
    ensures |s| >= 1
    ensures (s[0] == '-') <==> n < 0
    ensures n >= 0 ==> AllDigits(s) && DecimalValue(s) == n
    ensures n < 0 ==> AllDigits(s[1..]) && DecimalValue(s[1..]) == -n
  {
    if n < 0 then
      DecimalRoundTrip(-n);
      assert ("-" + NatToDecimal(-n))[1..] == NatToDecimal(-n);
      "-" + NatToDecimal(-n)
    else
      DecimalRoundTrip(n);
      NatToDecimal(n)
  }

  /** `${years} years, ${months} months, ${days} days`. */
  function AgeText(a: Age): string
  {
    IntToDecimal(a.years) + " years, " + IntToDecimal(a.months) + " months, "
    + IntToDecimal(a.days) + " days"
  }

  const NoDobMessage: string := "Date of birth not provided"

  /** `calculateAge(dob)` with the current date passed in: a missing date of
      birth yields the fixed message, otherwise the rendered age. */
  function CalculateAge(dob: Option<Date>, today: Date): (r: string)
    ensures dob.None? <==> r == NoDobMessage
    ensures dob.Some? ==> r == AgeText(AgeAsWritten(dob.value, today))
  {
    if dob.None? then NoDobMessage
    else
      var a := AgeAsWritten(dob.value, today);
      assert AgeText(a)[|AgeText(a)| - 4..] == "days";
      AgeText(a)
  }
}
