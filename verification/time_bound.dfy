/** Time bounds in query strings (`parse_time_bound_inner` in `src/server/mod.rs`): unix seconds, or a
    date of eight digits. */
module TimeBounds {
  import opened Wrappers
  import opened Decimals

  const DAY: int := 86_400

  predicate IsLeap(y: int) {
    y % 4 == 0 && (y % 100 != 0 || y % 400 == 0)
  }

  function DaysIn(y: int, m: int): int {
    if m == 2 then (if IsLeap(y) then 29 else 28)
    else if m in {4, 6, 9, 11} then 30 else 31
  }

  function DaysBefore(y: int, m: int): int
    requires 1 <= m <= 12
    decreases m
  {
    if m == 1 then 0 else DaysBefore(y, m - 1) + DaysIn(y, m - 1)
  }

  /** Leap days before the first of January of year `y`, in the proleptic Gregorian calendar. */
  function LeapsBefore(y: int): int {
    (y - 1) / 4 - (y - 1) / 100 + (y - 1) / 400
  }

  /** Seconds from the epoch to the start of a day; none when there is no such day. */
  function DateSeconds(y: int, m: int, d: int): Option<int> {
    if !(1 <= m <= 12) || !(1 <= d <= DaysIn(y, m)) then None
    else Some(DAY * (365 * (y - 1970) + LeapsBefore(y) - LeapsBefore(1970) + DaysBefore(y, m) + d - 1))
  }

  /** The calendar: the epoch is the first of January 1970, and each day begins where the day before it ends. */
  lemma EachDayFollows(y: int, m: int, d: int)
    requires DateSeconds(y, m, d).Some?
    ensures DateSeconds(1970, 1, 1) == Some(0)
    ensures
      var next :=
        if d < DaysIn(y, m) then DateSeconds(y, m, d + 1)
        else if m < 12 then DateSeconds(y, m + 1, 1)
        else DateSeconds(y + 1, 1, 1);
      next == Some(DateSeconds(y, m, d).value + 24 * 60 * 60)
  {
    if d == DaysIn(y, m) && m == 12 {
      YearsFollow(y);
    }
  }

  lemma YearsFollow(y: int)
    ensures DaysBefore(y, 12) + 31 == if IsLeap(y) then 366 else 365
    ensures LeapsBefore(y + 1) == LeapsBefore(y) + if IsLeap(y) then 1 else 0
  {
    MonthSums(y);
    Quotients(y);
    FourHundred(y);
  }

  lemma MonthSums(y: int)
    ensures DaysBefore(y, 12) + 31 == if IsLeap(y) then 366 else 365
  {
    hide IsLeap;
    assert DaysBefore(y, 2) == 31;
    assert DaysBefore(y, 4) == 90 + DaysIn(y, 2) - 28;
    assert DaysBefore(y, 6) == 151 + DaysIn(y, 2) - 28;
    assert DaysBefore(y, 8) == 212 + DaysIn(y, 2) - 28;
    assert DaysBefore(y, 10) == 273 + DaysIn(y, 2) - 28;
  }

  lemma Quotients(y: int)
    ensures y / 4 == (y - 1) / 4 + if y % 4 == 0 then 1 else 0
    ensures y / 100 == (y - 1) / 100 + if y % 100 == 0 then 1 else 0
    ensures y / 400 == (y - 1) / 400 + if y % 400 == 0 then 1 else 0
  {
  }

  lemma FourHundred(y: int)
    ensures y % 400 == 0 ==> y % 100 == 0
    ensures y % 100 == 0 ==> y % 4 == 0
  {
  }

  /** The lengths of the months, the leap years, and a known day. */
  lemma KnownDates()
    ensures DateSeconds(2000, 2, 29).Some? && DateSeconds(2024, 2, 29).Some?
    ensures DateSeconds(1900, 2, 29).None? && DateSeconds(2023, 2, 29).None? && DateSeconds(2024, 2, 30).None?
    ensures forall y :: DaysIn(y, 1) == DaysIn(y, 3) == DaysIn(y, 5) == DaysIn(y, 7) == DaysIn(y, 8) == DaysIn(y, 10) == DaysIn(y, 12) == 31
    ensures forall y :: DaysIn(y, 4) == DaysIn(y, 6) == DaysIn(y, 9) == DaysIn(y, 11) == 30
    ensures DateSeconds(2023, 11, 14) == Some(1_699_920_000)
  {
    assert DaysBefore(2023, 4) == 90;
    assert DaysBefore(2023, 7) == 181;
    assert DaysBefore(2023, 10) == 273;
  }

  predicate AllDigits(s: string) {
    forall c :: c in s ==> IsDigit(c)
  }

  function ParseTimeBound(text: string, endOfDay: bool): Option<int> {
    var s := Trim(text);
    if |s| == 8 && AllDigits(s) then
      assert s[..4] + s[4..6] + s[6..] == s;
      var start := DateSeconds(Value(s[..4]), Value(s[4..6]), Value(s[6..]));
      if start.None? then None else Some(start.value + if endOfDay then DAY - 1 else 0)
    else ParseI64(s)
  }

  /** Numbers of eight digits are read as dates. */
  predicate LooksLikeDate(n: int) {
    10_000_000 <= n < 100_000_000
  }

  lemma TrimKeeps(s: string)
    requires s != [] && !IsSpace(s[0]) && !IsSpace(s[|s| - 1])
    ensures Trim(s) == s
  {
  }

  /** A bound printed and read back is the same bound exactly when it does not look like a date. */
  lemma EchoIff(n: int)
    requires IsI64(n)
    ensures ParseTimeBound(PrintInt(n), false) == Some(n) <==> !LooksLikeDate(n)
  {
    var s := PrintInt(n);
    var digits := Print(if n < 0 then -n else n);
    assert digits[0] in digits && digits[|digits| - 1] in digits;
    assert s[|s| - 1] == digits[|digits| - 1];
    TrimKeeps(s);
    ParseOfPrintInt(n);
    if n >= 0 {
      PrintLength(n, 8);
      PrintLength(n, 7);
      PowersUsed();
      if LooksLikeDate(n) {
        DateIsAnotherNumber(n);
      }
    } else {
      assert !IsDigit(s[0]) && s[0] in s;
    }
  }

  lemma PowersUsed()
    ensures Pow10(2) == 100 && Pow10(4) == 10_000 && Pow10(7) == 10_000_000 && Pow10(8) == 100_000_000
  {
    assert Pow10(1) == 10;
    assert Pow10(2) == 100;
    assert Pow10(3) == 1000;
    assert Pow10(4) == 10_000;
    assert Pow10(5) == 100_000;
    assert Pow10(6) == 1_000_000;
  }

  /** Eight digits, taken apart. */
  lemma DigitsOfDate(s: string)
    requires |s| == 8 && AllDigits(s)
    ensures AllDigits(s[..4]) && AllDigits(s[4..6]) && AllDigits(s[6..])
    ensures 10_000 * Value(s[..4]) + 100 * Value(s[4..6]) + Value(s[6..]) == Value(s)
    ensures Value(s[4..6]) < 100 && Value(s[6..]) < 100
  {
    assert s == s[..4] + s[4..] && s[4..] == s[4..6] + s[6..] && s[4..6] == [] + s[4..6];
    hide Value, Pow10;
    PowersUsed();
    ValueOfConcat(s[..4], s[4..]);
    ValueOfConcat(s[4..6], s[6..]);
    ValueOfConcat([], s[4..6]);
  }

  lemma DateParts(n: nat)
    requires LooksLikeDate(n)
    ensures
      var s := Print(n);
      && |s| == 8
      && 10_000 * Value(s[..4]) + 100 * Value(s[4..6]) + Value(s[6..]) == n
      && Value(s[4..6]) < 100 && Value(s[6..]) < 100
  {
    PowersUsed();
    hide Value, Pow10, Print;
    PrintLength(n, 8);
    PrintLength(n, 7);
    DigitsOfDate(Print(n));
    ValueOfPrint(n);
  }

  lemma PartsOf(n: nat, y: nat, m: nat, d: nat)
    requires 10_000 * y + 100 * m + d == n && m < 100 && d < 100
    ensures y == n / 10_000 && m == n / 100 % 100 && d == n % 100
  {
    assert n / 100 == 100 * y + m;
  }

  /** Eight digits are the start of the day they name, year, month and day, if there is one; as an upper
      bound its last second. */
  lemma DateIsRead(n: nat)
    requires LooksLikeDate(n)
    ensures
      var date := DateSeconds(n / 10_000, n / 100 % 100, n % 100);
      && ParseTimeBound(PrintInt(n), false) == date
      && ParseTimeBound(PrintInt(n), true) == if date.Some? then Some(date.value + 86_399) else None
  {
    hide Value, Print, DateSeconds;
    var s := Print(n);
    DateParts(n);
    assert s[0] in s && s[7] in s;
    TrimKeeps(s);
    PartsOf(n, Value(s[..4]), Value(s[4..6]), Value(s[6..]));
  }

  lemma DateIsAnotherNumber(n: nat)
    requires LooksLikeDate(n) && |Print(n)| == 8
    ensures
      var s := Print(n);
      DateSeconds(Value(s[..4]), Value(s[4..6]), Value(s[6..])) != Some(n)
  {
    var s := Print(n);
    DateParts(n);
    DayOfYear(Value(s[..4]), Value(s[4..6]), Value(s[6..]));
  }

  /** Not every number of eight digits is a date. */
  lemma NoMonthZero(n: nat)
    requires LooksLikeDate(n) && n % 10_000 < 100
    ensures ParseTimeBound(PrintInt(n), false) == None
  {
    hide Value, Print, LeapsBefore;
    var s := Print(n);
    DateParts(n);
    assert s[0] in s && s[7] in s;
    TrimKeeps(s);
    MonthIsZero(n, Value(s[..4]), Value(s[4..6]), Value(s[6..]));
  }

  lemma MonthIsZero(n: nat, y: nat, m: nat, d: nat)
    requires 10_000 * y + 100 * m + d == n && m < 100 && d < 100 && n % 10_000 < 100
    ensures m == 0
  {
    assert n % 10_000 == 100 * m + d;
  }

  /** The seconds of a date are far from its eight digits. */
  lemma DayOfYear(y: nat, m: nat, d: nat)
    requires 1000 <= y <= 9999 && m < 100 && d < 100
    ensures DateSeconds(y, m, d) != Some(10_000 * y + 100 * m + d)
  {
    if 1 <= m <= 12 && 1 <= d <= DaysIn(y, m) {
      var day := DaysBefore(y, m) + d - 1;
      MonthsFit(y, m);
      var leaps := LeapsBefore(y) - LeapsBefore(1970);
      if y > 1970 {
        assert leaps >= -3;
      } else if y < 1970 {
        assert leaps <= 3;
      } else {
        assert leaps == 0;
        assert DAY * 228 < 10_000 * y + 100 * m + d < DAY * 229;
      }
    }
  }

  lemma {:induction false} MonthsFit(y: int, m: int)
    requires 1 <= m <= 12
    ensures 0 <= DaysBefore(y, m) <= 31 * (m - 1)
    ensures DaysBefore(y, m) + DaysIn(y, m) <= 372
    decreases m
  {
    if m > 1 {
      MonthsFit(y, m - 1);
    }
  }
}
