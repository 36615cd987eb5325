/** Line 88-89 of `format_chat`: the date column is converted with
    `pd.to_datetime(..., format='%m/%d/%y')` and the frame is grouped by
    calendar day, groups in ascending date order, rows in their original
    order within a group. */
module Days {
  import opened Frames
  import opened Text
  import opened Messages

  /** A calendar date, as `datetime.date` holds it. */
  datatype Date = Date(year: int, month: int, day: int)

  /** Strictly earlier, the order of `datetime.date`. */
  predicate Before(a: Date, b: Date) {
    a.year < b.year ||
    (a.year == b.year && (a.month < b.month || (a.month == b.month && a.day < b.day)))
  }

  /** The same day or an earlier one. */
  predicate NotAfter(a: Date, b: Date) {
    a == b || Before(a, b)
  }

  predicate IsLeap(y: int) {
    (y % 4 == 0 && y % 100 != 0) || y % 400 == 0
  }

  function DaysInMonth(y: int, m: int): int {
    if m == 2 then (if IsLeap(y) then 29 else 28)
    else if m == 4 || m == 6 || m == 9 || m == 11 then 30
    else 31
  }

  /** A date `datetime.date` can represent. */
  predicate ValidDate(d: Date) {
    1 <= d.month <= 12 && 1 <= d.day <= DaysInMonth(d.year, d.month)
  }

  function DigitValue(c: char): int {
    c as int - '0' as int
  }

  /** The value of the one or two digits at `i`. */
  function NumberAt(s: string, i: nat, n: nat): int
    requires n == 1 || n == 2
    requires i + n <= |s|
  {
    if n == 1 then DigitValue(s[i]) else 10 * DigitValue(s[i]) + DigitValue(s[i + 1])
  }

  /** `%y`: 00-68 are years 2000-2068, 69-99 are years 1969-1999. */
  function Century(yy: int): (r: int)
    ensures 0 <= yy <= 99 ==> 1969 <= r <= 2068 && r % 100 == yy && (2000 <= r <==> yy <= 68)
  {
    if yy <= 68 then 2000 + yy else 1900 + yy
  }

  /** `pd.to_datetime(text, format='%m/%d/%y')`: month of one or two digits
      (1-12), day of one or two digits, a two-digit year, the whole text
      consumed, and the day within the month; anything else is an error. */
  function ParseDate(text: string): (r: Option<Date>)
    ensures r.Some? ==> ValidDate(r.value) && 1969 <= r.value.year <= 2068
  {
    var m := Span(text, 0, IsDigit);
    if !(1 <= m <= 2 && CharAt(text, m, '/')) then None
    else
      var d := Span(text, m + 1, IsDigit);
      var y := m + 1 + d + 1;
      if !(1 <= d <= 2 && CharAt(text, m + 1 + d, '/')) then None
      else if !(|text| == y + 2 && IsDigit(text[y]) && IsDigit(text[y + 1])) then None
      else
        var date := Date(Century(NumberAt(text, y, 2)), NumberAt(text, 0, m), NumberAt(text, m + 1, d));
        if ValidDate(date) then Some(date) else None
  }

  function DigitChar(n: int): char
    requires 0 <= n < 10
  {
    ('0' as int + n) as char
  }

  /** A number below 100 without leading zero. */
  function Digits(n: int): string
    requires 0 <= n < 100
  {
    if n < 10 then [DigitChar(n)] else [DigitChar(n / 10), DigitChar(n % 10)]
  }

  /** How an export writes a date: month/day/two-digit year, the month and
      day without leading zero. */
  function FormatDate(d: Date): string
    requires 1 <= d.month <= 12 && 1 <= d.day <= 31
  {
    var yy := d.year % 100;
    Digits(d.month) + "/" + Digits(d.day) + "/" + [DigitChar(yy / 10), DigitChar(yy % 10)]
  }

  /** The digits of `Digits(n)` at `i`, stopped by a non-digit, read back as `n`. */
  lemma DigitsAt(s: string, i: nat, n: int)
    requires 0 <= n < 100
    requires i + |Digits(n)| <= |s| && s[i..i + |Digits(n)|] == Digits(n)
    requires i + |Digits(n)| == |s| || !IsDigit(s[i + |Digits(n)|])
    ensures Span(s, i, IsDigit) == |Digits(n)|
    ensures NumberAt(s, i, |Digits(n)|) == n
  {
    var w := |Digits(n)|;
    assert forall x :: i <= x < i + w ==> s[x] == Digits(n)[x - i];
    SpanExact(s, i, i + w, IsDigit);
  }

  /** The parse of a text whose month has `m` digits and whose day has `d`
      digits, both followed by a slash, and which ends in two year digits. */
  lemma ParseDateFields(text: string, m: nat, d: nat)
    requires 1 <= m <= 2 && Span(text, 0, IsDigit) == m && CharAt(text, m, '/')
    requires 1 <= d <= 2 && Span(text, m + 1, IsDigit) == d && CharAt(text, m + 1 + d, '/')
    requires |text| == m + d + 4 && IsDigit(text[m + d + 2]) && IsDigit(text[m + d + 3])
    ensures var date := Date(Century(NumberAt(text, m + d + 2, 2)), NumberAt(text, 0, m), NumberAt(text, m + 1, d));
            ParseDate(text) == if ValidDate(date) then Some(date) else None
  {
  }

  /** Every date a `%y` year can name is read back from its written form. */
  lemma ParseFormatDate(d: Date)
    requires ValidDate(d) && 1969 <= d.year <= 2068
    ensures ParseDate(FormatDate(d)) == Some(d)
  {
    FormatDateFields(d);
    ParseDateFields(FormatDate(d), |Digits(d.month)|, |Digits(d.day)|);
  }

  /** The fields of a written date, as the parser finds them. */
  lemma FormatDateFields(d: Date)
    requires ValidDate(d) && 1969 <= d.year <= 2068
    ensures var s := FormatDate(d);
            var m := |Digits(d.month)|;
            var dd := |Digits(d.day)|;
            1 <= m <= 2 && Span(s, 0, IsDigit) == m && CharAt(s, m, '/') &&
            1 <= dd <= 2 && Span(s, m + 1, IsDigit) == dd && CharAt(s, m + 1 + dd, '/') &&
            |s| == m + dd + 4 && IsDigit(s[m + dd + 2]) && IsDigit(s[m + dd + 3]) &&
            NumberAt(s, 0, m) == d.month && NumberAt(s, m + 1, dd) == d.day &&
            Century(NumberAt(s, m + dd + 2, 2)) == d.year
  {
    var s := FormatDate(d);
    var m := |Digits(d.month)|;
    var dd := |Digits(d.day)|;
    assert s[m] == '/' && s[m + 1 + dd] == '/';
    assert s[0..m] == Digits(d.month);
    assert s[m + 1..m + 1 + dd] == Digits(d.day);
    DigitsAt(s, 0, d.month);
    DigitsAt(s, m + 1, d.day);
    YearDigits(s, m + 1 + dd + 1, d.year);
  }

  /** The two year digits read back as the year. */
  lemma YearDigits(s: string, i: nat, year: int)
    requires 1969 <= year <= 2068
    requires i + 2 == |s| && s[i] == DigitChar(year % 100 / 10) && s[i + 1] == DigitChar(year % 100 % 10)
    ensures IsDigit(s[i]) && IsDigit(s[i + 1])
    ensures Century(NumberAt(s, i, 2)) == year
  {
    var yy := year % 100;
    assert NumberAt(s, i, 2) == 10 * (yy / 10) + yy % 10 == yy;
  }

  /** The month comes first: December 31 is read as such. */
  lemma ParseDateMonthFirst()
    ensures ParseDate("12/31/99") == Some(Date(1999, 12, 31))
  {
    DigitsAt("12/31/99", 0, 12);
    DigitsAt("12/31/99", 3, 31);
    ParseDateFields("12/31/99", 2, 2);
  }

  /** A day-first date with a day above 12 is refused. */
  lemma ParseDateDayFirstRefused()
    ensures ParseDate("31/12/99") == None
  {
    DigitsAt("31/12/99", 0, 31);
    DigitsAt("31/12/99", 3, 12);
    ParseDateFields("31/12/99", 2, 2);
  }

  /** A two-digit year 24 is the year 2024. */
  lemma ParseDateTwoDigitYear()
    ensures ParseDate("3/4/24") == Some(Date(2024, 3, 4))
  {
    DigitsAt("3/4/24", 0, 3);
    DigitsAt("3/4/24", 2, 4);
    ParseDateFields("3/4/24", 1, 1);
  }

  /** A four-digit year, which the extraction pattern lets through, is
      refused. */
  lemma ParseDateFourDigitYearRefused()
    ensures ParseDate("3/4/2024") == None
  {
    DigitsAt("3/4/2024", 0, 3);
    DigitsAt("3/4/2024", 2, 4);
  }

  /** February 29 exists in a leap year ... */
  lemma ParseDateLeapDay()
    ensures ParseDate("2/29/24") == Some(Date(2024, 2, 29))
  {
    DigitsAt("2/29/24", 0, 2);
    DigitsAt("2/29/24", 2, 29);
    ParseDateFields("2/29/24", 1, 2);
  }

  /** ... and is refused in any other year. */
  lemma ParseDateNoLeapDay()
    ensures ParseDate("2/29/23") == None
  {
    DigitsAt("2/29/23", 0, 2);
    DigitsAt("2/29/23", 2, 29);
    ParseDateFields("2/29/23", 1, 2);
  }

  /** A row after line 88: the parsed date next to the message. */
  datatype Dated = Dated(day: Date, msg: Message)

  /** The column conversion: every date parses, or the whole call fails. */
  function ParseDates(ms: seq<Message>): (r: Option<seq<Dated>>)
    ensures r.Some? <==> forall k :: 0 <= k < |ms| ==> ParseDate(ms[k].date).Some?
    ensures r.Some? ==> |r.value| == |ms|
    ensures r.Some? ==> forall k :: 0 <= k < |ms| ==>
              r.value[k].msg == ms[k] && Some(r.value[k].day) == ParseDate(ms[k].date)
  {
    if ms == [] then Some([])
    else
      match (ParseDate(ms[0].date), ParseDates(ms[1..]))
      case (Some(d), Some(rest)) => Some([Dated(d, ms[0])] + rest)
      case _ => None
  }

  predicate Ascending(ds: seq<Date>) {
    forall a, b :: 0 <= a < b < |ds| ==> Before(ds[a], ds[b])
  }

  /** Adds `d` to an ascending list of distinct dates. */
  function Insert(d: Date, ds: seq<Date>): (r: seq<Date>)
    requires Ascending(ds)
    ensures Ascending(r)
    ensures forall x :: x in r <==> x == d || x in ds
  {
    if ds == [] then [d]
    else if d == ds[0] then ds
    else if Before(d, ds[0]) then [d] + ds
    else
      var rest := Insert(d, ds[1..]);
      assert Before(ds[0], d);
      assert forall x :: x in rest ==> Before(ds[0], x);
      assert forall b :: 0 < b < |[ds[0]] + rest| ==> ([ds[0]] + rest)[b] in rest;
      [ds[0]] + rest
  }

  /** The group keys: each date of the column once, in ascending order. */
  function Keys(rows: seq<Dated>): (r: seq<Date>)
    ensures Ascending(r)
    ensures forall x :: x in r <==> exists k :: 0 <= k < |rows| && rows[k].day == x
  {
    if rows == [] then []
    else
      var r := Insert(rows[|rows| - 1].day, Keys(rows[..|rows| - 1]));
      assert forall k :: 0 <= k < |rows| - 1 ==> rows[..|rows| - 1][k] == rows[k];
      r
  }

  /** One group of `groupby`: a calendar day and its messages. */
  datatype Group = Group(day: Date, msgs: seq<Message>)

  function MessagesOf(rows: seq<Dated>): (r: seq<Message>)
    ensures |r| == |rows| && forall k :: 0 <= k < |rows| ==> r[k] == rows[k].msg
  {
    seq(|rows|, k requires 0 <= k < |rows| => rows[k].msg)
  }

  /** The rows of day `d`, in their original order. */
  function OnDay(rows: seq<Dated>, d: Date): seq<Message> {
    MessagesOf(Where(rows, (r: Dated) => r.day == d))
  }

  /** `df.groupby(df['date'].dt.date)`: one group per distinct day, in
      ascending date order, each holding that day's messages in their
      original order and none empty. */
  function GroupByDay(rows: seq<Dated>): (r: seq<Group>)
    ensures forall a, b :: 0 <= a < b < |r| ==> Before(r[a].day, r[b].day)
    ensures forall i :: 0 <= i < |r| ==> r[i].msgs == OnDay(rows, r[i].day) && r[i].msgs != []
    ensures forall k :: 0 <= k < |rows| ==> exists i :: 0 <= i < |r| && r[i].day == rows[k].day
  {
    var keys := Keys(rows);
    var r := seq(|keys|, i requires 0 <= i < |keys| => Group(keys[i], OnDay(rows, keys[i])));
    forall i | 0 <= i < |r| ensures r[i].msgs != [] {
      assert keys[i] in keys;
      var k :| 0 <= k < |rows| && rows[k].day == keys[i];
      assert rows[k] in Where(rows, (x: Dated) => x.day == keys[i]);
    }
    forall k | 0 <= k < |rows| ensures exists i :: 0 <= i < |r| && r[i].day == rows[k].day {
      assert rows[k].day in keys;
      var i :| 0 <= i < |keys| && keys[i] == rows[k].day;
      assert r[i].day == rows[k].day;
    }
    r
  }
}
