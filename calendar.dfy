/** Calendar dates and local date-times (Python's `datetime`), with the
    Gregorian month lengths, the next-day step and the zero-padded decimal
    fields that `strftime` and format specs such as `:>02` produce. */
module Calendar {
  import opened Wrappers
  import opened Text

  datatype Date = Date(year: int, month: int, day: int)

  /** A local date-time to the microsecond (`datetime.datetime`). */
  datatype DateTime = DateTime(date: Date, hour: int, minute: int, second: int, micro: int)

  predicate IsLeapYear(y: int) {
    (y % 4 == 0 && y % 100 != 0) || y % 400 == 0
  }

  function DaysInMonth(y: int, m: int): (n: int)
    requires 1 <= m <= 12
    ensures 28 <= n <= 31
  {
    if m == 2 then (if IsLeapYear(y) then 29 else 28)
    else if m == 4 || m == 6 || m == 9 || m == 11 then 30
    else 31
  }

  /** The range `datetime.date` accepts. */
  predicate ValidDate(d: Date) {
    1 <= d.year <= 9999 && 1 <= d.month <= 12 && 1 <= d.day <= DaysInMonth(d.year, d.month)
  }

  predicate ValidDateTime(t: DateTime) {
    ValidDate(t.date) && 0 <= t.hour < 24 && 0 <= t.minute < 60 && 0 <= t.second < 60
    && 0 <= t.micro < 1000000
  }

  /** Chronological order of dates. */
  predicate Before(a: Date, b: Date) {
    a.year < b.year || (a.year == b.year && (a.month < b.month || (a.month == b.month && a.day < b.day)))
  }

  /** `date + timedelta(days=1)`; Python raises OverflowError after
      31 December 9999, which the precondition leaves out. */
  function NextDay(d: Date): (r: Date)
    requires ValidDate(d) && d != Date(9999, 12, 31)
    ensures ValidDate(r) && Before(d, r)
  {
    if d.day < DaysInMonth(d.year, d.month) then Date(d.year, d.month, d.day + 1)
    else if d.month < 12 then Date(d.year, d.month + 1, 1)
    else Date(d.year + 1, 1, 1)
  }

  /** A number written with at least two digits, a leading zero added to a
      single digit (`f"{n:>02}"`, `%m`, `%d`, `%H`, `%M`). */
  function Pad2(n: nat): (s: string)
    ensures IsDigits(s) && |s| >= 2
    ensures n < 100 ==> |s| == 2
  {
    if n < 10 then "0" + NatToString(n)
    else
      assert n < 100 ==> |NatToString(n / 10)| == 1;
      NatToString(n)
  }

  /** Reading a padded number back gives the number. */
  lemma Pad2Value(n: nat)
    ensures DigitsValue(Pad2(n)) == n
  {
    DigitsValueOfNatToString(n);
    if n < 10 {
      var s := Pad2(n);
      assert s[..|s| - 1] == "0";
      assert DigitsValue("0") == 0 by {
        assert "0"[..0] == "";
      }
    }
  }

  /** `strftime("%Y-%m-%d")`; the year is written as `str(year)`, which is
      four digits for every year from 1000 on. */
  function IsoDate(d: Date): string {
    NatToString(if d.year < 0 then 0 else d.year) + "-" + Pad2(if d.month < 0 then 0 else d.month)
    + "-" + Pad2(if d.day < 0 then 0 else d.day)
  }

  /** Reading "Y-M-D" back: three runs of digits separated by '-'. */
  function ParseIsoDate(s: string): (r: Date)
  {
    var parts := Split(s, '-');
    if |parts| == 3 && IsDigits(parts[0]) && IsDigits(parts[1]) && IsDigits(parts[2])
    then Date(DigitsValue(parts[0]), DigitsValue(parts[1]), DigitsValue(parts[2]))
    else Date(0, 0, 0)
  }

  /** The three fields of a formatted date, split at '-'. */
  lemma IsoDateParts(d: Date)
    requires ValidDate(d)
    ensures Split(IsoDate(d), '-') == [NatToString(d.year), Pad2(d.month), Pad2(d.day)]
  {
    var y := NatToString(d.year);
    var m := Pad2(d.month);
    var dd := Pad2(d.day);
    var parts := [y, m, dd];
    forall i | 0 <= i < 3 ensures '-' !in parts[i] {
      assert IsDigits(parts[i]);
      assert forall k :: 0 <= k < |parts[i]| ==> parts[i][k] != '-';
    }
    SplitJoin(parts, '-');
    assert parts[1..][1..] == [dd];
    assert Join(parts[1..], "-") == m + "-" + dd;
    assert Join(parts, "-") == IsoDate(d);
  }

  /** Formatting a valid date and reading it back gives the date. */
  lemma IsoDateRoundTrip(d: Date)
    requires ValidDate(d)
    ensures ParseIsoDate(IsoDate(d)) == d
  {
    IsoDateParts(d);
    DigitsValueOfNatToString(d.year);
    Pad2Value(d.month);
    Pad2Value(d.day);
  }

  /** Four-digit years are written with four digits. */
  lemma FourDigits(n: nat)
    requires 1000 <= n <= 9999
    ensures |NatToString(n)| == 4
  {
    assert |NatToString(n / 1000)| == 1;
    assert n / 100 / 10 == n / 1000;
    assert |NatToString(n / 100)| == 2;
    assert n / 10 / 10 == n / 100;
    assert |NatToString(n / 10)| == 3;
  }

  const SecondsPerDay: int := 86400

  /** Days from 1 January 1970 to the date in the proleptic Gregorian
      calendar: the day a date-time in seconds falls on is its seconds
      divided by 86400. */
  function DayNumber(d: Date): int {
    var y := if d.month <= 2 then d.year - 1 else d.year;
    var era := y / 400;
    var yoe := y - era * 400;
    var mp := if d.month > 2 then d.month - 3 else d.month + 9;
    var doy := (153 * mp + 2) / 5 + d.day - 1;
    var doe := yoe * 365 + yoe / 4 - yoe / 100 + doy;
    era * 146097 + doe - 719468
  }

  /** The next day has the next day number, within a month. */
  lemma DayNumberNextInMonth(d: Date)
    requires ValidDate(d) && d.day < DaysInMonth(d.year, d.month)
    ensures DayNumber(NextDay(d)) == DayNumber(d) + 1
  {
  }

  /** The year of a 400-year era that starts on the era's day `doe`, the era
      and its years starting on 1 March. */
  function YearOfEra(doe: int): int {
    (doe - doe / 1460 + doe / 36524 - doe / 146096) / 365
  }

  /** Every day of an era falls in one of its 400 years, within 366 days of
      that year's first day. */
  lemma YearOfEraBounds(doe: int)
    requires 0 <= doe < 146097
    ensures var yoe := YearOfEra(doe);
      0 <= yoe < 400 && 0 <= doe - (365 * yoe + yoe / 4 - yoe / 100) < 366
  {
    if doe == 146096 {
      assert YearOfEra(doe) == 399;
    } else {
      // The century, the four-year block within it and the day within it.
      var c := doe / 36524;
      var r := doe - 36524 * c;
      var k := r / 1461;
      var j := r - 1461 * k;
      assert 0 <= c < 4 && 0 <= k < 25 && 0 <= j < 1461;
      var delta := (24 * c + k + j) / 1460;
      assert doe / 1460 == 25 * c + k + delta;
      var t := (j - delta) / 365;
      assert 0 <= t < 4;
      var yoe := 100 * c + 4 * k + t;
      assert YearOfEra(doe) == yoe;
      assert yoe / 4 == 25 * c + k;
      assert yoe / 100 == c;
      assert doe - (365 * yoe + yoe / 4 - yoe / 100) == j - 365 * t;
    }
  }

  /** The date with a given day number: the inverse of `DayNumber`. */
  function DateOfDayNumber(n: int): Date {
    var z := n + 719468;
    var era := z / 146097;
    var doe := z - era * 146097;
    var yoe := YearOfEra(doe);
    var doy := doe - (365 * yoe + yoe / 4 - yoe / 100);
    var mp := (5 * doy + 2) / 153;
    var m := if mp < 10 then mp + 3 else mp - 9;
    Date(yoe + era * 400 + (if m <= 2 then 1 else 0), m, doy - (153 * mp + 2) / 5 + 1)
  }

  /** Every day number is the number of the date it names. */
  lemma DayNumberOfDate(n: int)
    ensures DayNumber(DateOfDayNumber(n)) == n
  {
    var z := n + 719468;
    var era := z / 146097;
    var doe := z - era * 146097;
    YearOfEraBounds(doe);
    var yoe := YearOfEra(doe);
    var doy := doe - (365 * yoe + yoe / 4 - yoe / 100);
    var mp := (5 * doy + 2) / 153;
    assert 0 <= mp < 12;
    var d := DateOfDayNumber(n);
    var y := yoe + era * 400;
    assert (if d.month <= 2 then d.year - 1 else d.year) == y;
    assert y / 400 == era;
    assert (if d.month > 2 then d.month - 3 else d.month + 9) == mp;
    assert (153 * mp + 2) / 5 + d.day - 1 == doy;
  }

  /** The UTC calendar date of an instant given in seconds since the epoch:
      with `USE_TZ` on, a date-time read from the database is aware and in
      UTC, and `dateformat.format` writes its own day, month and year
      without converting it to the current time zone. */
  function UtcDate(seconds: int): (d: Date)
    ensures DayNumber(d) == seconds / SecondsPerDay
  {
    DayNumberOfDate(seconds / SecondsPerDay);
    DateOfDayNumber(seconds / SecondsPerDay)
  }

  /** Every instant of a UTC day has that day's date. */
  lemma {:induction false} UtcDateOfDay(seconds: int, day: int, secondOfDay: int)
    requires seconds == day * SecondsPerDay + secondOfDay && 0 <= secondOfDay < SecondsPerDay
    ensures UtcDate(seconds) == DateOfDayNumber(day)
  {
    assert seconds / SecondsPerDay == day;
  }

  /** 1 May 2024 is day 19844 after 1 January 1970. */
  lemma FirstOfMayDate()
    ensures DateOfDayNumber(19844) == Date(2024, 5, 1)
  {
    assert YearOfEra(19844 + 719468 - 5 * 146097) == 24;
  }

  /** 1 May 2024 is written "01.05.2024". */
  lemma FirstOfMayDotted()
    ensures DottedDate(Date(2024, 5, 1)) == "01.05.2024"
  {
    assert NatToString(20) == "20";
    assert NatToString(202) == "202";
    assert NatToString(2024) == "2024";
    assert Pad2(5) == "05" && Pad2(1) == "01";
  }

  /** The input formats a `DateField` tries, in order, under the "ru-ru"
      locale: the locale's "%d.%m.%Y" and "%d.%m.%y", then the ISO
      "%Y-%m-%d" that Django appends to every locale's list. */
  datatype InputFormat = DayMonthYear | DayMonthShortYear | YearMonthDay

  const InputFormats: seq<InputFormat> := [DayMonthYear, DayMonthShortYear, YearMonthDay]

  /** A two-digit `%y` year: 69 to 99 are 1969 to 1999, 0 to 68 are 2000
      to 2068. */
  function CenturyOf(yy: nat): (y: int)
    ensures yy < 100 ==> 1969 <= y <= 2068 && y % 100 == yy
  {
    if yy >= 69 then 1900 + yy else 2000 + yy
  }

  /** `strptime` with one format: the fields are separated by '.' (day,
      month, year) or by '-' (year, month, day); the day and month have one
      or two digits, the year four digits (`%Y`) or two (`%y`), and the
      fields must form a real date. */
  function ParseWithFormat(s: string, f: InputFormat): (r: Option<Date>)
    ensures r.Some? ==> ValidDate(r.value)
  {
    var parts := Split(s, if f == YearMonthDay then '-' else '.');
    if |parts| != 3 || !IsDigits(parts[0]) || !IsDigits(parts[1]) || !IsDigits(parts[2]) then None
    else
      var y := if f == YearMonthDay then parts[0] else parts[2];
      var dd := if f == YearMonthDay then parts[2] else parts[0];
      var m := parts[1];
      if |y| == (if f == DayMonthShortYear then 2 else 4) && 1 <= |m| <= 2 && 1 <= |dd| <= 2 then
        var year := if f == DayMonthShortYear then CenturyOf(DigitsValue(y)) else DigitsValue(y);
        var d := Date(year, DigitsValue(m), DigitsValue(dd));
        if ValidDate(d) then Some(d) else None
      else None
  }

  /** The first of the formats that reads the text, as `to_python` tries
      them in turn. */
  function ParseWithFormats(s: string, fs: seq<InputFormat>): (r: Option<Date>)
    ensures r.Some? <==> exists i :: 0 <= i < |fs| && ParseWithFormat(s, fs[i]).Some?
    ensures r.Some? ==> ValidDate(r.value)
    ensures r.Some? ==> exists i :: (0 <= i < |fs| && ParseWithFormat(s, fs[i]) == r
      && forall j :: 0 <= j < i ==> ParseWithFormat(s, fs[j]).None?)
  {
    if |fs| == 0 then None
    else if ParseWithFormat(s, fs[0]).Some? then ParseWithFormat(s, fs[0])
    else
      var r := ParseWithFormats(s, fs[1..]);
      assert forall i :: 1 <= i < |fs| ==> fs[i] == fs[1..][i - 1];
      r
  }

  /** What `DateField` accepts: surrounding whitespace is stripped, then
      the input formats are tried in order. */
  function ParseDateInput(raw: string): (r: Option<Date>)
    ensures r.Some? ==> ValidDate(r.value)
    ensures r.Some? <==> exists f :: f in InputFormats && ParseWithFormat(Strip(raw), f).Some?
  {
    var r := ParseWithFormats(Strip(raw), InputFormats);
    assert forall f :: f in InputFormats <==> exists i :: 0 <= i < |InputFormats| && InputFormats[i] == f;
    r
  }

  /** Every date from year 1000 on that `strftime("%Y-%m-%d")` writes is
      read back by the date field. */
  lemma ParseDateInputOfIsoDate(d: Date)
    requires ValidDate(d) && d.year >= 1000
    ensures ParseDateInput(IsoDate(d)) == Some(d)
  {
    var s := IsoDate(d);
    var y, m, dd := NatToString(d.year), Pad2(d.month), Pad2(d.day);
    IsoDateParts(d);
    FourDigits(d.year);
    Pad2Value(d.month);
    Pad2Value(d.day);
    DigitsValueOfNatToString(d.year);
    assert s[0] == y[0] && IsDigit(y[0]);
    assert s[|s| - 1] == dd[|dd| - 1] && IsDigit(dd[|dd| - 1]);
    StripDigitEnds(s);
    NoDotBetweenDigits(y, m, dd, '-');
    ParseDateInputOfFields(s, y, m, dd, d);
  }

  /** Digit fields joined by a separator other than '.' hold no '.'. */
  lemma NoDotBetweenDigits(a: string, b: string, c: string, sep: char)
    requires IsDigits(a) && IsDigits(b) && IsDigits(c) && sep != '.'
    ensures '.' !in a + [sep] + b + [sep] + c
  {
    var s := a + [sep] + b + [sep] + c;
    forall k | 0 <= k < |s| ensures s[k] != '.' {
      if k < |a| { assert s[k] == a[k]; }
      else if |a| < k < |a| + 1 + |b| { assert s[k] == b[k - |a| - 1]; }
      else if k > |a| + 1 + |b| { assert s[k] == c[k - |a| - 2 - |b|]; }
    }
  }

  lemma StripDigitEnds(s: string)
    requires |s| > 0 && IsDigit(s[0]) && IsDigit(s[|s| - 1])
    ensures Strip(s) == s
  {
    assert !IsSpace(s[0]) && !IsSpace(s[|s| - 1]);
  }

  /** A text without a separator splits into itself alone. */
  lemma SplitWithout(s: string, sep: char)
    requires sep !in s
    ensures Split(s, sep) == [s]
  {
    SplitJoin([s], sep);
  }

  /** A raw value without surrounding space and without '.' whose three
      '-'-separated fields have the widths the ISO format accepts reads as
      their values: both dotted formats fail on it first. */
  lemma ParseDateInputOfFields(raw: string, y: string, m: string, dd: string, d: Date)
    requires Strip(raw) == raw && Split(raw, '-') == [y, m, dd] && '.' !in raw
    requires |y| == 4 && 1 <= |m| <= 2 && 1 <= |dd| <= 2 && IsDigits(y) && IsDigits(m) && IsDigits(dd)
    requires d == Date(DigitsValue(y), DigitsValue(m), DigitsValue(dd)) && ValidDate(d)
    ensures ParseDateInput(raw) == Some(d)
  {
    SplitWithout(raw, '.');
    assert ParseWithFormat(raw, DayMonthYear).None? by {
      assert |Split(raw, '.')| == 1;
    }
    assert ParseWithFormat(raw, DayMonthShortYear).None? by {
      assert |Split(raw, '.')| == 1;
    }
    assert ParseWithFormat(raw, YearMonthDay) == Some(d);
    ThirdFormatReads(raw, d);
  }

  /** A text both dotted formats refuse is read as the ISO format reads
      it. */
  lemma ThirdFormatReads(s: string, d: Date)
    requires Strip(s) == s
    requires ParseWithFormat(s, DayMonthYear).None? && ParseWithFormat(s, DayMonthShortYear).None?
    requires ParseWithFormat(s, YearMonthDay) == Some(d)
    ensures ParseDateInput(s) == Some(d)
  {
    var last := [YearMonthDay];
    assert ParseWithFormats(s, last) == Some(d);
    var rest := [DayMonthShortYear, YearMonthDay];
    assert rest[1..] == last;
    assert ParseWithFormats(s, rest) == Some(d);
    assert InputFormats[0] == DayMonthYear && InputFormats[1..] == rest;
    assert ParseWithFormats(s, InputFormats) == ParseWithFormats(s, rest);
  }

  /** `strftime("%d.%m.%Y")`, the way the date widget writes a date back
      into the form under the "ru-ru" locale. */
  function DottedDate(d: Date): string {
    Pad2(if d.day < 0 then 0 else d.day) + "." + Pad2(if d.month < 0 then 0 else d.month)
    + "." + NatToString(if d.year < 0 then 0 else d.year)
  }

  /** `strftime("%d.%m.%y")`: the year as its last two digits. */
  function ShortDottedDate(d: Date): string {
    Pad2(if d.day < 0 then 0 else d.day) + "." + Pad2(if d.month < 0 then 0 else d.month)
    + "." + Pad2(if d.year < 0 then 0 else d.year % 100)
  }

  /** The three digit fields joined by a separator split back into them. */
  lemma SplitThree(a: string, b: string, c: string, sep: char)
    requires IsDigits(a) && IsDigits(b) && IsDigits(c) && !IsDigit(sep)
    ensures Split(a + [sep] + b + [sep] + c, sep) == [a, b, c]
  {
    var parts := [a, b, c];
    forall i | 0 <= i < 3 ensures sep !in parts[i] {
      assert IsDigits(parts[i]);
    }
    SplitJoin(parts, sep);
    assert parts[1..][1..] == [c];
    assert Join(parts[1..], [sep]) == b + [sep] + c;
    assert Join(parts, [sep]) == a + [sep] + (b + [sep] + c);
    assert a + [sep] + (b + [sep] + c) == a + [sep] + b + [sep] + c;
  }

  /** Every date from year 1000 on that the date widget writes as
      "%d.%m.%Y" is read back by the first input format. */
  lemma ParseDateInputOfDottedDate(d: Date)
    requires ValidDate(d) && d.year >= 1000
    ensures ParseDateInput(DottedDate(d)) == Some(d)
  {
    var s := DottedDate(d);
    var dd, m, y := Pad2(d.day), Pad2(d.month), NatToString(d.year);
    SplitThree(dd, m, y, '.');
    assert s == dd + "." + m + "." + y;
    FourDigits(d.year);
    Pad2Value(d.month);
    Pad2Value(d.day);
    DigitsValueOfNatToString(d.year);
    assert s[0] == dd[0] && IsDigit(dd[0]);
    assert s[|s| - 1] == y[|y| - 1] && IsDigit(y[|y| - 1]);
    StripDigitEnds(s);
    DottedFieldsRead(s, dd, m, y, DayMonthYear, d);
  }

  /** A text the first format refuses and the second reads is read by the
      field as the second reads it. */
  lemma SecondFormatReads(s: string, d: Date)
    requires Strip(s) == s
    requires ParseWithFormat(s, DayMonthYear).None? && ParseWithFormat(s, DayMonthShortYear) == Some(d)
    ensures ParseDateInput(s) == Some(d)
  {
    var rest := [DayMonthShortYear, YearMonthDay];
    assert InputFormats[0] == DayMonthYear && InputFormats[1..] == rest;
    assert ParseWithFormats(s, rest) == Some(d);
    assert ParseWithFormats(s, InputFormats) == ParseWithFormats(s, rest);
  }

  /** Three '.'-separated fields of the widths a dotted format accepts
      read as the date they name. */
  lemma DottedFieldsRead(s: string, dd: string, m: string, y: string, f: InputFormat, d: Date)
    requires f != YearMonthDay && Split(s, '.') == [dd, m, y]
    requires IsDigits(dd) && IsDigits(m) && IsDigits(y)
    requires 1 <= |dd| <= 2 && 1 <= |m| <= 2 && |y| == (if f == DayMonthShortYear then 2 else 4)
    requires d == Date(if f == DayMonthShortYear then CenturyOf(DigitsValue(y)) else DigitsValue(y),
      DigitsValue(m), DigitsValue(dd))
    requires ValidDate(d)
    ensures ParseWithFormat(s, f) == Some(d)
  {
  }

  /** `%y` gives back every year from 1969 to 2068 from its last two
      digits. */
  lemma CenturyOfLastTwoDigits(year: int)
    requires 1969 <= year <= 2068
    ensures CenturyOf(year % 100) == year
  {
  }

  /** Every date from 1969 to 2068 written as "%d.%m.%y" is read back by
      the second input format; the first one refuses its two-digit year. */
  lemma ParseDateInputOfShortDottedDate(d: Date)
    requires ValidDate(d) && 1969 <= d.year <= 2068
    ensures ParseDateInput(ShortDottedDate(d)) == Some(d)
  {
    var s := ShortDottedDate(d);
    var dd, m, y := Pad2(d.day), Pad2(d.month), Pad2(d.year % 100);
    SplitThree(dd, m, y, '.');
    assert s == dd + "." + m + "." + y;
    Pad2Value(d.month);
    Pad2Value(d.day);
    Pad2Value(d.year % 100);
    CenturyOfLastTwoDigits(d.year);
    assert s[0] == dd[0] && IsDigit(dd[0]);
    assert s[|s| - 1] == y[|y| - 1] && IsDigit(y[|y| - 1]);
    StripDigitEnds(s);
    assert ParseWithFormat(s, DayMonthYear).None? by {
      assert Split(s, '.')[2] == y && |y| == 2;
    }
    DottedFieldsRead(s, dd, m, y, DayMonthShortYear, d);
    SecondFormatReads(s, d);
  }

  /** The date widget's "02.05.2024" reads as 2 May 2024. */
  lemma SecondOfMayInput()
    ensures ParseDateInput("02.05.2024") == Some(Date(2024, 5, 2))
  {
    assert NatToString(20) == "20";
    assert NatToString(202) == "202";
    assert NatToString(2024) == "2024";
    assert Pad2(5) == "05" && Pad2(2) == "02";
    assert DottedDate(Date(2024, 5, 2)) == "02.05.2024";
    ParseDateInputOfDottedDate(Date(2024, 5, 2));
  }

  /** 2 May 2024 is day 19845 after 1 January 1970. */
  lemma SecondOfMayDayNumber()
    ensures DayNumber(Date(2024, 5, 2)) == 19845
  {
    assert 2024 / 400 == 5 && (153 * 2 + 2) / 5 == 61 && 24 / 4 == 6 && 24 / 100 == 0;
  }
}
