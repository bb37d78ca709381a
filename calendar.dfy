/** The Wednesday counter: `datetime.strptime(line.strip(), "%Y-%m-%d")` as
    Python's `_strptime` implements it, the proleptic Gregorian day number
    behind `date.weekday()`, and the loop that counts the lines falling on a
    Wednesday (app/main.py, the `count_wednesdays` action). */
module Calendar {
  import opened Base
  import opened Text

  /** A calendar date as `strptime` returns it. */
  datatype Date = Date(year: int, month: int, day: int)

  predicate IsLeapYear(y: int) {
    y % 4 == 0 && (y % 100 != 0 || y % 400 == 0)
  }

  function DaysInMonth(y: int, m: int): (n: int)
    requires 1 <= m <= 12
    ensures 28 <= n <= 31
    ensures n == 29 <==> m == 2 && IsLeapYear(y)
  {
    if m == 2 then (if IsLeapYear(y) then 29 else 28)
    else if m == 4 || m == 6 || m == 9 || m == 11 then 30
    else 31
  }

  /** The dates `datetime.date` accepts: years 1 to 9999, months 1 to 12 and
      a day that exists in that month. */
  predicate Valid(d: Date) {
    1 <= d.year <= 9999 && 1 <= d.month <= 12 && 1 <= d.day <= DaysInMonth(d.year, d.month)
  }

  // ---------------------------------------------------------------------
  // Parsing "%Y-%m-%d"
  // ---------------------------------------------------------------------

  function Digits2(a: char, b: char): nat
    requires IsDigit(a) && IsDigit(b)
  {
    10 * DigitValue(a) + DigitValue(b)
  }

  /** The `%m` group `1[0-2]|0[1-9]|[1-9]` at index `i`, together with the
      literal `-` that follows it in the format: the month and the index just
      past the `-`. The alternatives are tried in order; since each is
      followed by `-`, backtracking into a later one never succeeds where an
      earlier one failed. */
  function MonthField(s: string, i: nat): (r: Option<(int, nat)>)
    ensures r.Some? ==> 1 <= r.value.0 <= 12 && i + 2 <= r.value.1 <= i + 3 && r.value.1 <= |s|
  {
    if i + 2 < |s| && s[i] == '1' && '0' <= s[i + 1] <= '2' && s[i + 2] == '-' then
      Some((10 + DigitValue(s[i + 1]), i + 3))
    else if i + 2 < |s| && s[i] == '0' && '1' <= s[i + 1] <= '9' && s[i + 2] == '-' then
      Some((DigitValue(s[i + 1]), i + 3))
    else if i + 1 < |s| && '1' <= s[i] <= '9' && s[i + 1] == '-' then
      Some((DigitValue(s[i]), i + 2))
    else
      None
  }

  /** The `%d` group `3[01]|[12]\d|0[1-9]|[1-9]| [1-9]` at index `i`: the
      first alternative that matches wins, since nothing follows it in the
      pattern. Gives the day (`int(" 7")` is 7) and the index past it. */
  function DayField(s: string, i: nat): (r: Option<(int, nat)>)
    ensures r.Some? ==> 1 <= r.value.0 <= 31 && i + 1 <= r.value.1 <= i + 2 && r.value.1 <= |s|
  {
    if i + 1 < |s| && s[i] == '3' && '0' <= s[i + 1] <= '1' then
      Some((Digits2(s[i], s[i + 1]), i + 2))
    else if i + 1 < |s| && '1' <= s[i] <= '2' && IsDigit(s[i + 1]) then
      Some((Digits2(s[i], s[i + 1]), i + 2))
    else if i + 1 < |s| && s[i] == '0' && '1' <= s[i + 1] <= '9' then
      Some((DigitValue(s[i + 1]), i + 2))
    else if i < |s| && '1' <= s[i] <= '9' then
      Some((DigitValue(s[i]), i + 1))
    else if i + 1 < |s| && s[i] == ' ' && '1' <= s[i + 1] <= '9' then
      Some((DigitValue(s[i + 1]), i + 2))
    else
      None
  }

  /** `datetime.strptime(s, "%Y-%m-%d")`: `None` where Python raises
      `ValueError` — no match of `\d\d\d\d-<%m>-<%d>` at the start,
      "unconverted data remains" after it, or a date `datetime` rejects
      (year 0, a day past the end of its month). */
  function ParseYmd(s: string): (r: Option<Date>)
    ensures r.Some? ==> Valid(r.value)
  {
    if |s| < 5 || !(IsDigit(s[0]) && IsDigit(s[1]) && IsDigit(s[2]) && IsDigit(s[3])) || s[4] != '-' then
      None
    else
      var year := 100 * Digits2(s[0], s[1]) + Digits2(s[2], s[3]);
      match MonthField(s, 5)
      case None => None
      case Some(mj) =>
        match DayField(s, mj.1)
        case None => None
        case Some(dk) =>
          if dk.1 != |s| then None
          else
            var date := Date(year, mj.0, dk.0);
            if Valid(date) then Some(date) else None
  }

  function DigitChar(n: nat): (c: char)
    requires n < 10
    ensures IsDigit(c) && DigitValue(c) == n
  {
    ('0' as int + n) as char
  }

  /** The canonical spelling `YYYY-MM-DD` of a valid date. */
  function Iso(d: Date): (s: string)
    requires Valid(d)
    ensures |s| == 10
  {
    var century, rest := d.year / 100, d.year % 100;
    [DigitChar(century / 10), DigitChar(century % 10), DigitChar(rest / 10), DigitChar(rest % 10), '-',
     DigitChar(d.month / 10), DigitChar(d.month % 10), '-',
     DigitChar(d.day / 10), DigitChar(d.day % 10)]
  }

  /** Every valid date written as `YYYY-MM-DD` parses back to itself. */
  lemma ParseIso(d: Date)
    requires Valid(d)
    ensures ParseYmd(Iso(d)) == Some(d)
  {
    var s := Iso(d);
    YearDigits(d.year);
    assert 100 * Digits2(s[0], s[1]) + Digits2(s[2], s[3]) == d.year;
    assert MonthField(s, 5) == Some((d.month, 8));
    assert DayField(s, 8) == Some((d.day, 10));
  }

  lemma YearDigits(y: int)
    requires 0 <= y < 10000
    ensures var century, rest := y / 100, y % 100;
            100 * (10 * (century / 10) + century % 10) + (10 * (rest / 10) + rest % 10) == y
  {
  }

  /** `strptime` also takes a one-digit month and a day written as a space
      and a digit. */
  lemma ParseShortFields()
    ensures ParseYmd("2024-1- 3") == Some(Date(2024, 1, 3))
    ensures ParseYmd("2024-02-30") == None
    ensures ParseYmd("0000-01-01") == None
    ensures ParseYmd("2024-01-032") == None
  {
    assert DayField("2024-01-032", 8) == Some((3, 10));
  }

  // ---------------------------------------------------------------------
  // Day numbers and weekdays
  // ---------------------------------------------------------------------

  function DaysBeforeYear(y: int): int
    requires y >= 1
  {
    var p := y - 1;
    p * 365 + p / 4 - p / 100 + p / 400
  }

  /** Days in the months of year `y` before month `m`, from the cumulative
      table of a common year plus the leap day once February is past. */
  function DaysBeforeMonth(y: int, m: int): int
    requires 1 <= m <= 12
  {
    [0, 31, 59, 90, 120, 151, 181, 212, 243, 273, 304, 334][m - 1]
      + if m > 2 && IsLeapYear(y) then 1 else 0
  }

  /** `date.toordinal()`: 0001-01-01 is day 1. */
  function Ordinal(d: Date): int
    requires Valid(d)
  {
    DaysBeforeYear(d.year) + DaysBeforeMonth(d.year, d.month) + d.day
  }

  /** `date.weekday()`: Monday is 0 and Sunday is 6; 0001-01-01 was a Monday. */
  function Weekday(d: Date): (w: int)
    requires Valid(d)
    ensures 0 <= w < 7
  {
    (Ordinal(d) + 6) % 7
  }

  const Wednesday := 2

  /** The day after `d`. */
  function NextDay(d: Date): Date
    requires Valid(d)
  {
    if d.day < DaysInMonth(d.year, d.month) then Date(d.year, d.month, d.day + 1)
    else if d.month < 12 then Date(d.year, d.month + 1, 1)
    else Date(d.year + 1, 1, 1)
  }

  lemma DivStep(y: int, k: int)
    requires y >= 1 && (k == 4 || k == 100 || k == 400)
    ensures y / k - (y - 1) / k == if y % k == 0 then 1 else 0
  {
    var q, r := (y - 1) / k, (y - 1) % k;
    assert y - 1 == q * k + r;
    if r + 1 == k {
      assert y == (q + 1) * k;
    } else {
      assert y == q * k + (r + 1);
    }
  }

  lemma DaysInYear(y: int)
    requires 1 <= y
    ensures DaysBeforeYear(y + 1) == DaysBeforeYear(y) + DaysBeforeMonth(y, 12) + 31
  {
    DivStep(y, 4);
    DivStep(y, 100);
    DivStep(y, 400);
  }

  /** The day number counts days: the next day has the next number, so the
      weekdays run Monday to Sunday without gaps. Together with the Monday
      of 0001-01-01 this pins `Weekday` down on every date. */
  lemma NextDayIsNext(d: Date)
    requires Valid(d) && d != Date(9999, 12, 31)
    ensures Valid(NextDay(d))
    ensures Ordinal(NextDay(d)) == Ordinal(d) + 1
    ensures Weekday(NextDay(d)) == (Weekday(d) + 1) % 7
  {
    OrdinalNext(d);
    ModSucc(Ordinal(d) + 6);
  }

  lemma ModSucc(n: int)
    ensures (n + 1) % 7 == (n % 7 + 1) % 7
  {
  }

  lemma OrdinalNext(d: Date)
    requires Valid(d) && d != Date(9999, 12, 31)
    ensures Valid(NextDay(d))
    ensures Ordinal(NextDay(d)) == Ordinal(d) + 1
  {
    var y, m := d.year, d.month;
    if d.day < DaysInMonth(y, m) {
    } else if m < 12 {
      MonthStep(y, m);
    } else {
      DaysInYear(y);
    }
  }

  lemma MonthStep(y: int, m: int)
    requires 1 <= m < 12
    ensures DaysBeforeMonth(y, m + 1) == DaysBeforeMonth(y, m) + DaysInMonth(y, m)
  {
  }

  lemma WeekdayAnchors()
    ensures Weekday(Date(1, 1, 1)) == 0
    ensures Weekday(Date(2024, 1, 3)) == Wednesday
    ensures Weekday(Date(2024, 1, 10)) == Wednesday
    ensures Weekday(Date(2024, 1, 11)) == Wednesday + 1
  {
    assert DaysBeforeMonth(2024, 1) == 0;
  }

  // ---------------------------------------------------------------------
  // Counting
  // ---------------------------------------------------------------------

  /** A line of the dates file counts when, stripped, it parses as a date
      falling on a Wednesday; any other line is skipped. */
  predicate IsWednesdayLine(line: string) {
    match ParseYmd(Strip(line))
    case None => false
    case Some(d) => Weekday(d) == Wednesday
  }

  ghost function WednesdayLines(lines: seq<string>): set<int> {
    IndicesWhere(lines, IsWednesdayLine)
  }

  /** The number of Wednesday lines, counted from the front as the loop does. */
  function Wednesdays(lines: seq<string>): (n: nat)
    ensures n <= |lines|
  {
    if lines == [] then 0
    else Wednesdays(lines[..|lines| - 1]) + if IsWednesdayLine(lines[|lines| - 1]) then 1 else 0
  }

  /** The count is the number of lines that hold a Wednesday. */
  lemma {:induction false} WednesdaysCountsLines(lines: seq<string>)
    ensures Wednesdays(lines) == |WednesdayLines(lines)|
  {
    if lines != [] {
      WednesdaysCountsLines(lines[..|lines| - 1]);
      IndicesWhereSnoc(lines, IsWednesdayLine);
    }
  }

  /** The counting loop of the `count_wednesdays` action: every line of the
      file is stripped and parsed; unparsable lines are skipped. */
  method CountWednesdays(lines: seq<string>) returns (count: nat)
    ensures count == Wednesdays(lines)
    ensures count == |WednesdayLines(lines)|
    ensures count <= |lines|
  {
    count := 0;
    for i := 0 to |lines|
      invariant count == Wednesdays(lines[..i])
    {
      assert lines[..i + 1][..i] == lines[..i];
      match ParseYmd(Strip(lines[i]))
      case None =>
      case Some(date) =>
        if Weekday(date) == Wednesday {
          count := count + 1;
        }
    }
    assert lines[..|lines|] == lines;
    WednesdaysCountsLines(lines);
  }

  /** A line holding the canonical spelling of a date counts exactly when
      that date is a Wednesday. */
  lemma CanonicalLine(line: string, d: Date)
    requires Valid(d) && Strip(line) == Iso(d)
    ensures IsWednesdayLine(line) <==> Weekday(d) == Wednesday
  {
    ParseIso(d);
  }

  /** The Wednesday status of a line spelling a date canonically. */
  lemma DateLine(line: string, text: string, d: Date)
    requires Valid(d) && Iso(d) == text && (line == text || line == text + "\n")
    requires text != [] && !IsSpace(text[0]) && !IsSpace(text[|text| - 1])
    ensures IsWednesdayLine(line) <==> Weekday(d) == Wednesday
  {
    StripTerminated(text);
    CanonicalLine(line, d);
  }

  lemma IsoJan3() ensures Iso(Date(2024, 1, 3)) == "2024-01-03" {}
  lemma IsoJan10() ensures Iso(Date(2024, 1, 10)) == "2024-01-10" {}
  lemma IsoJan11() ensures Iso(Date(2024, 1, 11)) == "2024-01-11" {}

  /** 2024-01-03 is a Wednesday. */
  lemma Jan3Line(line: string)
    requires line == "2024-01-03\n"
    ensures IsWednesdayLine(line)
  {
    var d := Date(2024, 1, 3);
    WeekdayAnchors();
    IsoJan3();
    DateLine(line, Iso(d), d);
  }

  /** 2024-01-10 is a Wednesday. */
  lemma Jan10Line(line: string)
    requires line == "2024-01-10\n"
    ensures IsWednesdayLine(line)
  {
    var d := Date(2024, 1, 10);
    WeekdayAnchors();
    IsoJan10();
    DateLine(line, Iso(d), d);
  }

  /** 2024-01-11 is a Thursday. */
  lemma Jan11Line(line: string)
    requires line == "2024-01-11"
    ensures !IsWednesdayLine(line)
  {
    var d := Date(2024, 1, 11);
    WeekdayAnchors();
    IsoJan11();
    DateLine(line, Iso(d), d);
  }

  /** An empty file has no Wednesdays. */
  lemma CountEmpty(ls: seq<string>)
    requires ls == []
    ensures Wednesdays(ls) == 0
  {
  }

  /** Of 2024-01-03, 2024-01-10 and 2024-01-11, two are Wednesdays. */
  lemma CountExample(ls: seq<string>)
    requires ls == ["2024-01-03\n", "2024-01-10\n", "2024-01-11"]
    ensures Wednesdays(ls) == 2
  {
    Jan3Line(ls[0]);
    Jan10Line(ls[1]);
    Jan11Line(ls[2]);
    CountThree(ls);
  }

  /** A `dates.txt` holding 2024-01-03, 2024-01-10 and 2024-01-11, with
      Windows and old Mac line endings, counts two Wednesdays, and the
      action writes `2`. */
  lemma CountFileExample(a: string, b: string, c: string)
    requires a == "2024-01-03" && b == "2024-01-10" && c == "2024-01-11"
    ensures Wednesdays(ReadLines(Newlines(a + "\r\n" + b + "\r" + c))) == 2
    ensures DecimalString(Wednesdays(ReadLines(Newlines(a + "\r\n" + b + "\r" + c)))) == "2"
  {
    assert '\r' !in a && '\r' !in b && '\r' !in c && '\n' !in a && '\n' !in b && '\n' !in c;
    ThreeLinesRead(a, b, c);
    assert a + "\n" == "2024-01-03\n";
    assert b + "\n" == "2024-01-10\n";
    CountExample([a + "\n", b + "\n", c]);
    TwoWritten();
  }

  /** The count 2 is written as `2`. */
  lemma TwoWritten()
    ensures DecimalString(2) == "2"
  {
  }

  lemma CountThree(ls: seq<string>)
    requires |ls| == 3
    ensures Wednesdays(ls) ==
            (if IsWednesdayLine(ls[0]) then 1 else 0) + (if IsWednesdayLine(ls[1]) then 1 else 0)
            + (if IsWednesdayLine(ls[2]) then 1 else 0)
  {
    var two, one := ls[..2], ls[..1];
    assert two[..1] == one && one[..0] == [];
    assert two[1] == ls[1] && one[0] == ls[0];
    assert Wednesdays(one) == if IsWednesdayLine(ls[0]) then 1 else 0;
    assert Wednesdays(two) == Wednesdays(one) + if IsWednesdayLine(ls[1]) then 1 else 0;
  }
}
