/** Month windows and the claim horizon, in the proleptic Gregorian calendar. */
module Calendar {
  import opened Base
  import opened Text

  // ----- Dates -----

  datatype Date = Date(year: int, month: int, day: int)

  const MIN_YEAR: int := -262143
  const MAX_YEAR: int := 262142

  predicate IsLeap(year: int) {
    year % 4 == 0 && (year % 100 != 0 || year % 400 == 0)
  }

  function DaysInMonth(year: int, month: int): (n: int)
    ensures 28 <= n <= 31
  {
    if month == 2 then if IsLeap(year) then 29 else 28
    else if month in {4, 6, 9, 11} then 30
    else 31
  }

  predicate Valid(d: Date) {
    && MIN_YEAR <= d.year <= MAX_YEAR
    && 1 <= d.month <= 12
    && 1 <= d.day <= DaysInMonth(d.year, d.month)
  }

  function FromYmd(year: int, month: int, day: int): Option<Date> {
    if Valid(Date(year, month, day)) then Some(Date(year, month, day)) else None
  }

  function Pred(d: Date): Option<Date> {
    if d.day > 1 then Some(Date(d.year, d.month, d.day - 1))
    else if d.month > 1 then Some(Date(d.year, d.month - 1, DaysInMonth(d.year, d.month - 1)))
    else FromYmd(d.year - 1, 12, 31)
  }

  function Succ(d: Date): Option<Date> {
    if d.day < DaysInMonth(d.year, d.month) then Some(Date(d.year, d.month, d.day + 1))
    else if d.month < 12 then Some(Date(d.year, d.month + 1, 1))
    else FromYmd(d.year + 1, 1, 1)
  }

  function AddDays(d: Date, n: nat): Option<Date> {
    if n == 0 then Some(d)
    else
      var before := AddDays(d, n - 1);
      if before.None? then None else Succ(before.value)
  }

  // ----- Day numbers -----

  /** Months counted through the years; month 0 is the January of year 0. */
  function MonthIndex(d: Date): int {
    12 * d.year + d.month - 1
  }

  function MonthLength(n: int): (days: int)
    ensures 28 <= days <= 31
  {
    DaysInMonth(n / 12, n % 12 + 1)
  }

  /** The days from the start of month 0 to the start of month `n`, negative before it. */
  function MonthStart(n: int): int
    decreases if n < 0 then -n else n
  {
    if n == 0 then 0
    else if n > 0 then MonthStart(n - 1) + MonthLength(n - 1)
    else MonthStart(n + 1) - MonthLength(n)
  }

  function DayNumber(d: Date): int {
    MonthStart(MonthIndex(d)) + d.day
  }

  lemma NextMonthStarts(n: int)
    ensures MonthStart(n + 1) == MonthStart(n) + MonthLength(n)
  {
  }

  lemma {:induction false} MonthsApart(n: int, k: nat)
    ensures 28 * k <= MonthStart(n + k) - MonthStart(n) <= 31 * k
  {
    if k > 0 {
      MonthsApart(n, k - 1);
      NextMonthStarts(n + k - 1);
    }
  }

  lemma MonthStartMonotone(n: int, k: int)
    requires n <= k
    ensures MonthStart(n) <= MonthStart(k)
  {
    MonthsApart(n, k - n);
  }

  lemma LengthIs(d: Date)
    requires 1 <= d.month <= 12
    ensures MonthLength(MonthIndex(d)) == DaysInMonth(d.year, d.month)
  {
    assert MonthIndex(d) / 12 == d.year && MonthIndex(d) % 12 == d.month - 1;
  }

  // ----- The same without counting months -----

  const DAYS_BEFORE_MONTH := [0, 31, 59, 90, 120, 151, 181, 212, 243, 273, 304, 334]

  /** The days before year `y`: 365 each, and one more for each leap year from year 0 on. */
  function DaysBeforeYear(y: int): int {
    365 * y + (y + 3) / 4 - (y + 99) / 100 + (y + 399) / 400
  }

  lemma FourthYears(y: int)
    ensures (y + 4) / 4 - (y + 3) / 4 == if y % 4 == 0 then 1 else 0
  {
  }

  lemma Centuries(y: int)
    ensures (y + 100) / 100 - (y + 99) / 100 == if y % 100 == 0 then 1 else 0
  {
  }

  lemma FourthCenturies(y: int)
    ensures (y + 400) / 400 - (y + 399) / 400 == if y % 400 == 0 then 1 else 0
  {
  }

  lemma CenturiesAreFourthYears(y: int)
    ensures (y % 400 == 0 ==> y % 100 == 0) && (y % 100 == 0 ==> y % 4 == 0)
  {
  }

  lemma YearIsLonger(y: int)
    ensures DaysBeforeYear(y + 1) - DaysBeforeYear(y) == if IsLeap(y) then 366 else 365
  {
    FourthYears(y);
    Centuries(y);
    FourthCenturies(y);
    CenturiesAreFourthYears(y);
  }

  /** How far into its year month `m` starts, counting from 0; a day later after a leap February. */
  function DaysIntoYear(y: int, m: nat): int
    requires m < 12
  {
    DAYS_BEFORE_MONTH[m] + if m >= 2 && IsLeap(y) then 1 else 0
  }

  lemma TableIsCumulative(y: int, m: nat)
    requires 0 < m < 12
    ensures DaysIntoYear(y, m) == DaysIntoYear(y, m - 1) + DaysInMonth(y, m)
  {
  }

  lemma LengthOfMonth(y: int, m: nat)
    requires m < 12
    ensures MonthLength(12 * y + m) == DaysInMonth(y, m + 1)
  {
    LengthIs(Date(y, m + 1, 1));
  }

  lemma MonthLater(y: int, m: nat, n: int)
    requires 0 < m < 12 && n == 12 * y + m
    ensures MonthStart(n) == MonthStart(n - 1) + (DaysIntoYear(y, m) - DaysIntoYear(y, m - 1))
  {
    TableIsCumulative(y, m);
    LengthOfMonth(y, m - 1);
    NextMonthStarts(n - 1);
  }

  lemma {:induction false} MonthIntoYear(y: int, m: nat, n: int)
    requires m < 12 && n == 12 * y + m
    ensures MonthStart(n) == MonthStart(n - m) + DaysIntoYear(y, m)
    decreases m
  {
    if m > 0 {
      MonthIntoYear(y, m - 1, n - 1);
      MonthLater(y, m, n);
    }
  }

  lemma YearLength(y: int)
    ensures MonthStart(12 * (y + 1)) - MonthStart(12 * y) == DaysBeforeYear(y + 1) - DaysBeforeYear(y)
  {
    YearIsLonger(y);
    MonthIntoYear(y, 11, 12 * y + 11);
    NextMonthStarts(12 * y + 11);
    LengthOfMonth(y, 11);
  }

  lemma {:induction false} YearStart(y: int)
    ensures MonthStart(12 * y) == DaysBeforeYear(y)
    decreases if y < 0 then -y else y
  {
    if y > 0 {
      YearStart(y - 1);
      YearLength(y - 1);
    } else if y < 0 {
      YearStart(y + 1);
      YearLength(y);
    }
  }

  lemma DayNumberByYear(d: Date)
    requires Valid(d)
    ensures DayNumber(d) == DaysBeforeYear(d.year) + DaysIntoYear(d.year, d.month - 1) + d.day
  {
    YearStart(d.year);
    MonthIntoYear(d.year, d.month - 1, MonthIndex(d));
  }

  /** A date's number in closed form, from the lengths of the months and the rule for leap years alone. */
  lemma DayNumberIs(d: Date)
    requires Valid(d)
    ensures var y, m := d.year, d.month;
      var leapDay := if m > 2 && y % 4 == 0 && (y % 100 != 0 || y % 400 == 0) then 1 else 0;
      DayNumber(d) == 365 * y + (y + 3) / 4 - (y + 99) / 100 + (y + 399) / 400
        + [0, 31, 59, 90, 120, 151, 181, 212, 243, 273, 304, 334][m - 1] + leapDay + d.day
  {
    DayNumberByYear(d);
  }

  /** A later day is in no earlier month. */
  lemma LaterMonth(d: Date, e: Date)
    requires Valid(d) && Valid(e) && DayNumber(d) <= DayNumber(e)
    ensures MonthIndex(d) <= MonthIndex(e)
  {
    var n, k := MonthIndex(d), MonthIndex(e);
    LengthIs(e);
    if k < n {
      NextMonthStarts(k);
      MonthsApart(k + 1, n - k - 1);
    }
  }

  lemma SameMonth(d: Date, e: Date)
    requires Valid(d) && Valid(e) && MonthIndex(d) == MonthIndex(e)
    ensures d.year == e.year && d.month == e.month
  {
  }

  /** Different dates have different numbers. */
  lemma DayNumberInjective(d: Date, e: Date)
    requires Valid(d) && Valid(e) && DayNumber(d) == DayNumber(e)
    ensures d == e
  {
    LaterMonth(d, e);
    LaterMonth(e, d);
    SameMonth(d, e);
  }

  lemma SuccIsTomorrow(d: Date)
    requires Valid(d) && Succ(d).Some?
    ensures Valid(Succ(d).value) && DayNumber(Succ(d).value) == DayNumber(d) + 1
  {
    LengthIs(d);
    NextMonthStarts(MonthIndex(d));
    var s := Succ(d).value;
    if d.day == DaysInMonth(d.year, d.month) {
      assert MonthIndex(s) == MonthIndex(d) + 1;
    }
  }

  lemma PredThenSucc(d: Date)
    requires Valid(d) && Pred(d).Some?
    ensures Valid(Pred(d).value) && Succ(Pred(d).value) == Some(d)
  {
  }

  /** Stepping back undoes stepping forward, so it too moves by one day. */
  lemma PredIsYesterday(d: Date)
    requires Valid(d) && Pred(d).Some?
    ensures Valid(Pred(d).value) && DayNumber(Pred(d).value) == DayNumber(d) - 1
  {
    PredThenSucc(d);
    SuccIsTomorrow(Pred(d).value);
  }

  /** Every day has a day after it and one before it, except the calendar's last and first. */
  lemma CalendarEnds(d: Date)
    requires Valid(d)
    ensures Succ(d).None? <==> d == Date(262142, 12, 31)
    ensures Pred(d).None? <==> d == Date(-262143, 1, 1)
  {
  }

  // ----- Month windows -----

  datatype MonthWindow = MonthWindow(first: Date, last: Date)

  function FirstOfNext(year: int, month: int): Option<Date> {
    if month == 12 then FromYmd(year + 1, 1, 1) else FromYmd(year, month + 1, 1)
  }

  function Containing(today: Date): MonthWindow {
    var first := FromYmd(today.year, today.month, 1);
    var next := FirstOfNext(today.year, today.month);
    var last := if next.None? then None else Pred(next.value);
    MonthWindow(if first.Some? then first.value else today, if last.Some? then last.value else today)
  }

  /** The calendar ends with the last month there is. */
  predicate LastMonth(d: Date) {
    d.year == MAX_YEAR && d.month == 12
  }

  predicate Covers(w: MonthWindow, d: Date) {
    DayNumber(w.first) <= DayNumber(d) <= DayNumber(w.last)
  }

  lemma ContainingIs(today: Date)
    requires Valid(today)
    ensures Containing(today) == MonthWindow(Date(today.year, today.month, 1),
      Date(today.year, today.month,
        if LastMonth(today) then today.day else DaysInMonth(today.year, today.month)))
  {
  }

  /** The window of a day covers exactly the days of its month; in the last month, those up to that day. */
  lemma WindowIsTheMonth(today: Date, d: Date)
    requires Valid(today) && Valid(d)
    ensures Covers(Containing(today), d) <==>
      d.year == today.year && d.month == today.month && (LastMonth(today) ==> d.day <= today.day)
  {
    ContainingIs(today);
    var w := Containing(today);
    if Covers(w, d) {
      LaterMonth(w.first, d);
      LaterMonth(d, w.last);
      SameMonth(today, d);
    }
  }

  /** Windows tile the calendar: days share a window or lie in windows that do not meet. */
  lemma WindowsTile(d: Date, e: Date, x: Date)
    requires Valid(d) && Valid(e) && Valid(x) && !LastMonth(d) && !LastMonth(e)
    ensures Covers(Containing(d), d)
    ensures Covers(Containing(d), x) && Covers(Containing(e), x) ==> Containing(d) == Containing(e)
  {
    WindowIsTheMonth(d, d);
    WindowIsTheMonth(d, x);
    WindowIsTheMonth(e, x);
  }

  /** The day after a window's last is the first of the next window. */
  lemma NoGapBetweenWindows(d: Date)
    requires Valid(d) && !LastMonth(d)
    ensures var next := Succ(Containing(d).last);
      && next.Some? && Valid(next.value)
      && Containing(next.value).first == next.value
      && MonthIndex(next.value) == MonthIndex(d) + 1
      && DayNumber(next.value) == DayNumber(Containing(d).last) + 1
  {
    ContainingIs(d);
    SuccIsTomorrow(Containing(d).last);
  }

  // ----- Parsing a month -----

  datatype ParseError = BadForm | BadMonth

  predicate IsDigit(c: char) {
    '0' <= c <= '9'
  }

  function Digits(s: string): Option<nat> {
    if s == "" then Some(0)
    else
      var n, c := Digits(s[..|s| - 1]), s[|s| - 1];
      if n.None? || !IsDigit(c) then None else Some(10 * n.value + (c as int - '0' as int))
  }

  /** Without a leading plus. */
  function Unsigned(s: string): string {
    if s != "" && s[0] == '+' then s[1..] else s
  }

  /** A number as the standard library reads one that has no minus sign: digits, perhaps after a plus. */
  function ParseNumber(s: string, max: nat): Option<nat> {
    if Unsigned(s) == "" then None
    else
      var n := Digits(Unsigned(s));
      if n.None? || n.value > max then None else n
  }

  function SplitAt(s: string, c: char): Option<(string, string)> {
    if s == "" then None
    else if s[0] == c then Some(("", s[1..]))
    else
      var rest := SplitAt(s[1..], c);
      if rest.None? then None else Some(([s[0]] + rest.value.0, rest.value.1))
  }

  const MAX_I32: nat := 0x7FFF_FFFF
  const MAX_U32: nat := 0xFFFF_FFFF

  function Parse(month: string): Result<MonthWindow, ParseError> {
    var parts := SplitAt(Trim(month), '-');
    if parts.None? then Err(BadForm)
    else
      var year, mon := ParseNumber(parts.value.0, MAX_I32), ParseNumber(parts.value.1, MAX_U32);
      if year.None? || mon.None? then Err(BadForm)
      else if !(1 <= mon.value <= 12) then Err(BadMonth)
      else WindowOf(year.value, mon.value)
  }

  function WindowOf(year: int, mon: int): Result<MonthWindow, ParseError> {
    var first, next := FromYmd(year, mon, 1), FirstOfNext(year, mon);
    if first.None? || next.None? then Err(BadForm)
    else
      var last := Pred(next.value);
      if last.None? then Err(BadForm) else Ok(MonthWindow(first.value, last.value))
  }

  /** A window that parses is the window of one of its own days. */
  lemma ParsedWindowIsAMonth(month: string)
    requires Parse(month).Ok?
    ensures var w := Parse(month).value;
      Valid(w.first) && !LastMonth(w.first) && w.first.year >= 0 && w == Containing(w.first)
  {
  }

  function Digit(n: nat): char
    requires n < 10
  {
    ('0' as int + n) as char
  }

  /** `n` in decimal, with zeros in front up to `width`. */
  function Padded(n: nat, width: nat): string
    decreases n + width
  {
    if n == 0 && width == 0 then "" else Padded(n / 10, if width == 0 then 0 else width - 1) + [Digit(n % 10)]
  }

  function Format(year: nat, month: nat): string {
    Padded(year, 4) + "-" + Padded(month, 2)
  }

  lemma {:induction false} DigitsOfPadded(n: nat, width: nat)
    ensures Digits(Padded(n, width)) == Some(n)
    ensures forall c :: c in Padded(n, width) ==> IsDigit(c)
    ensures |Padded(n, width)| >= width
    decreases n + width
  {
    if n != 0 || width != 0 {
      var front := Padded(n / 10, if width == 0 then 0 else width - 1);
      DigitsOfPadded(n / 10, if width == 0 then 0 else width - 1);
      DigitsOfLonger(front, n / 10, n % 10);
    }
  }

  lemma DigitsOfLonger(front: string, n: nat, digit: nat)
    requires Digits(front) == Some(n) && digit < 10
    ensures Digits(front + [Digit(digit)]) == Some(10 * n + digit)
  {
    assert (front + [Digit(digit)])[..|front|] == front;
  }

  lemma {:induction false} SplitAtJoined(a: string, c: char, b: string)
    requires c !in a
    ensures SplitAt(a + [c] + b, c) == Some((a, b))
  {
    var s := a + [c] + b;
    if a == "" {
      assert s[1..] == b;
    } else {
      assert s[1..] == a[1..] + [c] + b;
      SplitAtJoined(a[1..], c, b);
      assert [s[0]] + a[1..] == a;
    }
  }

  lemma FormatTrims(before: string, s: string, after: string)
    requires AllWhitespace(before) && AllWhitespace(after)
    requires s != "" && !IsWhitespace(s[0]) && !IsWhitespace(s[|s| - 1])
    ensures Trim(before + (s + after)) == s
  {
    TrimsToNothing(before);
    TrimStartAppend(before, s + after);
    assert (s + after)[0] == s[0];
    TrimsToNothing(after);
    TrimEndAppend(s, after);
  }

  lemma NumberOfPadded(n: nat, width: nat, max: nat)
    requires width > 0 && n <= max
    ensures ParseNumber(Padded(n, width), max) == Some(n)
  {
    DigitsOfPadded(n, width);
    assert IsDigit(Padded(n, width)[0]);
  }

  lemma FormatSplits(year: nat, month: nat, before: string, after: string)
    requires AllWhitespace(before) && AllWhitespace(after)
    ensures SplitAt(Trim(before + (Format(year, month) + after)), '-') == Some((Padded(year, 4), Padded(month, 2)))
  {
    var y, m := Padded(year, 4), Padded(month, 2);
    DigitsOfPadded(year, 4);
    DigitsOfPadded(month, 2);
    var s := Format(year, month);
    assert s[0] == y[0] && IsDigit(y[0]) && s[|s| - 1] == m[|m| - 1] && IsDigit(m[|m| - 1]);
    FormatTrims(before, s, after);
    SplitAtJoined(y, '-', m);
  }

  lemma WindowOfIs(year: nat, month: nat)
    requires 1 <= month <= 12
    ensures WindowOf(year, month) ==
      if year > MAX_YEAR || LastMonth(Date(year, month, 1)) then Err(BadForm)
      else Ok(Containing(Date(year, month, 1)))
  {
  }

  /** A month written out as `YYYY-MM`, with white space round it or not, parses to that month's window. */
  lemma ParseFormat(year: nat, month: nat, before: string, after: string)
    requires year <= MAX_I32 && 1 <= month <= 12 && AllWhitespace(before) && AllWhitespace(after)
    ensures Parse(before + (Format(year, month) + after)) ==
      if year > MAX_YEAR || LastMonth(Date(year, month, 1)) then Err(BadForm)
      else Ok(Containing(Date(year, month, 1)))
  {
    FormatSplits(year, month, before, after);
    NumberOfPadded(year, 4, MAX_I32);
    NumberOfPadded(month, 2, MAX_U32);
    WindowOfIs(year, month);
  }

  lemma OneDigit(c: char)
    requires IsDigit(c)
    ensures Digits([c]) == Some(c as int - '0' as int)
  {
    assert [c][..0] == "";
  }

  /** Digits, at least one of them, perhaps after a plus. */
  predicate IsNumber(s: string) {
    Unsigned(s) != "" && forall c :: c in Unsigned(s) ==> IsDigit(c)
  }

  lemma {:induction false} DigitsIff(s: string)
    ensures Digits(s).Some? <==> forall c :: c in s ==> IsDigit(c)
  {
    if s != "" {
      var front, last := s[..|s| - 1], s[|s| - 1];
      assert s == front + [last];
      DigitsIff(front);
    }
  }

  /** What a number's digits say. */
  function Value(s: string): nat
    requires IsNumber(s)
  {
    DigitsIff(Unsigned(s));
    Digits(Unsigned(s)).value
  }

  lemma ParseNumberIff(s: string, max: nat)
    ensures ParseNumber(s, max).Some? <==> IsNumber(s) && Value(s) <= max
    ensures ParseNumber(s, max).Some? ==> ParseNumber(s, max).value == Value(s)
  {
    DigitsIff(Unsigned(s));
  }

  lemma {:induction false} SplitAtParts(s: string, c: char)
    requires SplitAt(s, c).Some?
    ensures var (a, b) := SplitAt(s, c).value; s == a + [c] + b && c !in a
  {
    if s[0] != c {
      SplitAtParts(s[1..], c);
      assert s == [s[0]] + s[1..];
    } else {
      assert s == "" + [c] + s[1..];
    }
  }

  /** A year and a month, each a number, with a dash between them, that the calendar holds and goes on after. */
  ghost predicate ReadsMonth(s: string, year: string, mon: string) {
    && s == year + ['-'] + mon && IsNumber(year) && IsNumber(mon)
    && 1 <= Value(mon) <= 12 && Value(year) <= MAX_YEAR && !LastMonth(Date(Value(year), Value(mon), 1))
  }

  lemma NumberHasNoDash(s: string)
    requires IsNumber(s)
    ensures '-' !in s
  {
    forall i | 0 <= i < |s| ensures s[i] != '-' {
      if s[0] != '+' {
        assert s[i] in Unsigned(s);
      } else if i > 0 {
        assert Unsigned(s)[i - 1] == s[i] && Unsigned(s)[i - 1] in Unsigned(s);
      }
    }
  }

  lemma MonthIsRead(month: string, year: string, mon: string)
    requires ReadsMonth(Trim(month), year, mon)
    ensures Parse(month) == Ok(Containing(Date(Value(year), Value(mon), 1)))
  {
    NumberHasNoDash(year);
    SplitAtJoined(year, '-', mon);
    ParseNumberIff(year, MAX_I32);
    ParseNumberIff(mon, MAX_U32);
  }

  lemma ReadMonthReads(month: string) returns (year: string, mon: string)
    requires Parse(month).Ok?
    ensures ReadsMonth(Trim(month), year, mon)
  {
    SplitAtParts(Trim(month), '-');
    year, mon := SplitAt(Trim(month), '-').value.0, SplitAt(Trim(month), '-').value.1;
    ParseNumberIff(year, MAX_I32);
    ParseNumberIff(mon, MAX_U32);
  }

  /** Exactly which inputs are read as a month. */
  lemma ParseIff(month: string)
    ensures Parse(month).Ok? <==> exists year, mon :: ReadsMonth(Trim(month), year, mon)
  {
    if Parse(month).Ok? {
      var year, mon := ReadMonthReads(month);
    }
    if year, mon :| ReadsMonth(Trim(month), year, mon) {
      MonthIsRead(month, year, mon);
    }
  }

  /** The form is not enforced: a plus sign and a single digit are read as well. */
  lemma LooseFormIsRead()
    ensures Parse("+7-+3") == Ok(Containing(Date(7, 3, 1)))
  {
    var s := "+7-+3";
    assert Trim(s) == s;
    assert s == "+7" + ['-'] + "+3";
    assert Unsigned("+7") == ['7'] && Unsigned("+3") == ['3'];
    OneDigit('7');
    OneDigit('3');
    MonthIsRead(s, "+7", "+3");
  }

  // ----- The claim horizon -----

  const CLAIM_HORIZON_EXTRA_DAYS := 7

  function ClaimHorizon(today: Date): Option<Date> {
    var (year, month) :=
      if today.month == 11 then (today.year + 1, 1)
      else if today.month == 12 then (today.year + 1, 2)
      else (today.year, today.month + 2);
    var first := FromYmd(year, month, 1);
    if first.None? then None else AddDays(first.value, CLAIM_HORIZON_EXTRA_DAYS - 1)
  }

  lemma {:induction false} AddDaysWithinMonth(first: Date, n: nat)
    requires Valid(first) && first.day + n <= 28
    ensures AddDays(first, n) == Some(Date(first.year, first.month, first.day + n))
  {
    if n > 0 {
      AddDaysWithinMonth(first, n - 1);
    }
  }

  /** There is a horizon except at the very end of the calendar: the 7th of the month after next. */
  lemma HorizonIs(today: Date)
    requires Valid(today)
    ensures ClaimHorizon(today).None? <==> today.year == 262142 && today.month >= 11
    ensures ClaimHorizon(today).Some? ==>
      var h := ClaimHorizon(today).value;
      Valid(h) && h.day == 7 && MonthIndex(h) == MonthIndex(today) + 2
  {
    if today.month == 11 && today.year < MAX_YEAR {
      AddDaysWithinMonth(Date(today.year + 1, 1, 1), 6);
    } else if today.month == 12 && today.year < MAX_YEAR {
      AddDaysWithinMonth(Date(today.year + 1, 2, 1), 6);
    } else if today.month < 11 {
      AddDaysWithinMonth(Date(today.year, today.month + 2, 1), 6);
    }
  }

  lemma HorizonDay(today: Date)
    requires Valid(today) && ClaimHorizon(today).Some?
    ensures DayNumber(ClaimHorizon(today).value) == MonthStart(MonthIndex(today) + 2) + CLAIM_HORIZON_EXTRA_DAYS
  {
    HorizonIs(today);
  }

  lemma LastOfMonth(d: Date)
    requires Valid(d) && !LastMonth(d)
    ensures DayNumber(Containing(d).last) == MonthStart(MonthIndex(d) + 1)
  {
    ContainingIs(d);
    LengthIs(d);
    NextMonthStarts(MonthIndex(d));
  }

  /** A week after the last day of next month's window. */
  lemma HorizonIsAWeekAfterNextMonth(today: Date)
    requires Valid(today) && ClaimHorizon(today).Some?
    ensures var next := Succ(Containing(today).last);
      && next.Some? && Valid(next.value)
      && DayNumber(ClaimHorizon(today).value) == DayNumber(Containing(next.value).last) + 7
  {
    HorizonIs(today);
    NoGapBetweenWindows(today);
    HorizonDay(today);
    LastOfMonth(Succ(Containing(today).last).value);
  }

  /** The horizon is 35 to 68 days ahead. */
  lemma HorizonIsAhead(today: Date)
    requires Valid(today) && ClaimHorizon(today).Some?
    ensures 35 <= DayNumber(ClaimHorizon(today).value) - DayNumber(today) <= 68
  {
    HorizonIs(today);
    var n := MonthIndex(today);
    LengthIs(today);
    NextMonthStarts(n);
    NextMonthStarts(n + 1);
  }

  /** Both bounds are met: on the last of January before a short February, and on the first of July. */
  lemma HorizonBoundsAreMet()
    ensures var jan, jul := Date(2023, 1, 31), Date(2023, 7, 1);
      && Valid(jan) && ClaimHorizon(jan).Some? && Valid(jul) && ClaimHorizon(jul).Some?
      && DayNumber(ClaimHorizon(jan).value) - DayNumber(jan) == 35
      && DayNumber(ClaimHorizon(jul).value) - DayNumber(jul) == 68
  {
    HorizonFrom(Date(2023, 1, 31));
    HorizonFrom(Date(2023, 7, 1));
    assert DaysInMonth(2023, 2) == 28 && DaysInMonth(2023, 8) == 31;
  }

  lemma HorizonFrom(today: Date)
    requires Valid(today) && today.month <= 10 && ClaimHorizon(today).Some?
    ensures DayNumber(ClaimHorizon(today).value) - DayNumber(today) ==
      DaysInMonth(today.year, today.month) - today.day + DaysInMonth(today.year, today.month + 1) + 7
  {
    HorizonDay(today);
    LengthIs(today);
    LengthIs(Date(today.year, today.month + 1, 1));
    NextMonthStarts(MonthIndex(today));
    NextMonthStarts(MonthIndex(today) + 1);
  }

  /** As days go by the horizon never moves back. */
  lemma HorizonIsMonotone(today: Date, later: Date)
    requires Valid(today) && Valid(later) && DayNumber(today) <= DayNumber(later)
    requires ClaimHorizon(today).Some? && ClaimHorizon(later).Some?
    ensures DayNumber(ClaimHorizon(today).value) <= DayNumber(ClaimHorizon(later).value)
  {
    HorizonDay(today);
    HorizonDay(later);
    LaterMonth(today, later);
    MonthStartMonotone(MonthIndex(today) + 2, MonthIndex(later) + 2);
  }
}
