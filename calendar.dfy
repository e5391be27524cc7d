/**
 * Proleptic Gregorian dates as chrono's `NaiveDate` handles them: the day
 * after a date, `%Y`/`%m`/`%d` formatting and `%Y-%m-%d` parsing.
 */
module Calendar {
  import opened Wrappers
  import opened Strings
  import opened Numbers
  import opened Seqs

  datatype Date = Date(year: int, month: int, day: int)

  predicate IsLeap(y: int) {
    y % 4 == 0 && (y % 100 != 0 || y % 400 == 0)
  }

  function DaysInMonth(y: int, m: int): (n: int)
    requires 1 <= m <= 12
    ensures 28 <= n <= 31
  {
    if m == 2 then (if IsLeap(y) then 29 else 28)
    else if m == 4 || m == 6 || m == 9 || m == 11 then 30
    else 31
  }

  /** A date that exists in the calendar. */
  predicate Valid(d: Date) {
    1 <= d.month <= 12 && 1 <= d.day <= DaysInMonth(d.year, d.month)
  }

  /** The years `NaiveDate` can hold: `-262144` to `262143`. */
  const MinYear := -262144
  const MaxYear := 262143

  predicate InRange(d: Date) {
    MinYear <= d.year <= MaxYear
  }

  /** Chronological order, as `NaiveDate`'s `<`. */
  predicate Before(a: Date, b: Date) {
    a.year < b.year
    || (a.year == b.year && a.month < b.month)
    || (a.year == b.year && a.month == b.month && a.day < b.day)
  }

  /** `checked_add_days(Days::new(1))`: the next day of the calendar. */
  function Succ(d: Date): (r: Date)
    requires Valid(d)
    ensures Valid(r) && Before(d, r)
  {
    if d.day < DaysInMonth(d.year, d.month) then Date(d.year, d.month, d.day + 1)
    else if d.month < 12 then Date(d.year, d.month + 1, 1)
    else Date(d.year + 1, 1, 1)
  }

  /** No valid date lies strictly between a date and the day after it. */
  lemma SuccIsNext(d: Date, e: Date)
    requires Valid(d) && Valid(e) && Before(d, e)
    ensures Succ(d) == e || Before(Succ(d), e)
  {
  }

  // ----- formatting -----

  /**
   * `%Y`: four zero-padded digits for years 0 to 9999; any other year is
   * written with its sign and at least four digits.
   */
  function YearText(y: int): (r: string)
    ensures 0 <= y <= 9999 ==> |r| == 4 && AllDigits(r) && DigitsValue(r) == y
    ensures !(0 <= y <= 9999) ==> |r| >= 5 && r[0] == (if y < 0 then '-' else '+')
  {
    if 0 <= y <= 9999 then ZeroPad(y, 4)
    else (if y < 0 then "-" else "+") + ZeroPad(if y < 0 then -y else y, 4)
  }

  /** `%m` or `%d`: two zero-padded digits. */
  function TwoDigits(n: nat): (r: string)
    ensures n < 100 ==> |r| == 2 && AllDigits(r) && DigitsValue(r) == n
  {
    ZeroPad(n, 2)
  }

  /** `%Y-%m-%d`, the text `parse_date` expects. */
  function IsoText(d: Date): string
    requires Valid(d)
  {
    YearText(d.year) + "-" + TwoDigits(d.month) + "-" + TwoDigits(d.day)
  }

  /** `%Y%m%d`, the stem of a checkpoint file name. */
  function FlatText(d: Date): string
    requires Valid(d)
  {
    YearText(d.year) + TwoDigits(d.month) + TwoDigits(d.day)
  }

  // ----- parsing `%Y-%m-%d` -----

  /** A number scanned from the front of a string and what follows it. */
  datatype Scan = Scan(value: int, rest: string)

  /** Length of the run of at most `width` digits at the front of `s`. */
  function DigitRun(s: string, width: nat): (k: nat)
    ensures k <= width && k <= |s|
    ensures AllDigits(s[..k])
    ensures k < width && k < |s| ==> !IsDigit(s[k])
  {
    if width == 0 || s == [] || !IsDigit(s[0]) then 0
    else
      var k := 1 + DigitRun(s[1..], width - 1);
      assert s[..k] == [s[0]] + s[1..][..k - 1];
      k
  }

  /** Between one and `width` digits, as many as there are. */
  function ScanNumber(s: string, width: nat): (r: Option<Scan>)
    ensures r.Some? ==> r.value.value >= 0 && |r.value.rest| < |s|
  {
    var k := DigitRun(s, width);
    if k == 0 then None else Some(Scan(DigitsValue(s[..k]), s[k..]))
  }

  /**
   * One numeric field: leading whitespace is skipped; a field that may be
   * signed takes any number of digits after an explicit `+` or `-`, and at
   * most `width` digits otherwise.
   */
  function ScanField(s: string, width: nat, signed: bool): (r: Option<Scan>)
    ensures r.Some? ==> |r.value.rest| < |s|
    ensures r.Some? && !signed ==> r.value.value >= 0
  {
    var t := TrimStart(s);
    if signed && t != [] && t[0] == '-' then
      var n :- ScanNumber(t[1..], |t|);
      Some(Scan(-n.value, n.rest))
    else if signed && t != [] && t[0] == '+' then ScanNumber(t[1..], |t|)
    else ScanNumber(t, width)
  }

  /** One literal character. */
  function Literal(s: string, c: char): Option<string> {
    if s != [] && s[0] == c then Some(s[1..]) else None
  }

  /**
   * `NaiveDate::parse_from_str(s, "%Y-%m-%d")`: a year of up to four digits
   * (or any number after a sign), `-`, a month of up to two digits, `-`, a
   * day of up to two digits, nothing after it, and a date that exists
   * within the years `NaiveDate` can hold.
   */
  function ParseDate(s: string): (r: Option<Date>)
    ensures r.Some? ==> Valid(r.value) && InRange(r.value)
  {
    var y :- ScanField(s, 4, true);
    var afterYear :- Literal(y.rest, '-');
    var m :- ScanField(afterYear, 2, false);
    var afterMonth :- Literal(m.rest, '-');
    var d :- ScanField(afterMonth, 2, false);
    if d.rest != [] then None
    else
      var date := Date(y.value, m.value, d.value);
      if Valid(date) && InRange(date) then Some(date) else None
  }

  /** Text that does not start with whitespace is not changed by `TrimStart`. */
  lemma TrimStartNoop(s: string)
    requires s == [] || !IsWhitespace(s[0])
    ensures TrimStart(s) == s
  {
  }

  /** A digit run stops at the first character that is not a digit. */
  lemma {:induction false} DigitRunStops(ds: string, t: string, width: nat)
    requires AllDigits(ds) && |ds| <= width
    requires t == [] || !IsDigit(t[0])
    ensures DigitRun(ds + t, width) == |ds|
  {
    if ds != [] {
      assert (ds + t)[1..] == ds[1..] + t;
      DigitRunStops(ds[1..], t, width - 1);
    }
  }

  /** A run of digits followed by something else scans as its value. */
  lemma ScanNumberDigits(ds: string, t: string, width: nat)
    requires ds != [] && AllDigits(ds) && |ds| <= width
    requires t == [] || !IsDigit(t[0])
    ensures ScanNumber(ds + t, width) == Some(Scan(DigitsValue(ds), t))
  {
    DigitRunStops(ds, t, width);
    assert (ds + t)[..|ds|] == ds;
    assert (ds + t)[|ds|..] == t;
  }

  /** The same, for a whole field, which skips no whitespace here. */
  lemma ScanDigits(ds: string, t: string, width: nat, signed: bool, n: nat)
    requires ds != [] && AllDigits(ds) && |ds| <= width && n == DigitsValue(ds)
    requires t == [] || !IsDigit(t[0])
    ensures ScanField(ds + t, width, signed) == Some(Scan(n, t))
  {
    assert (ds + t)[0] == ds[0];
    ScanNumberDigits(ds, t, width);
    ScanFieldDigit(ds + t, width, signed);
  }

  /** A field that starts with a digit is read as a number of at most `width` digits. */
  lemma ScanFieldDigit(s: string, width: nat, signed: bool)
    requires s != [] && IsDigit(s[0])
    ensures ScanField(s, width, signed) == ScanNumber(s, width)
  {
    assert !IsWhitespace(s[0]);
    TrimStartNoop(s);
  }

  /** `-` followed by a run of digits scans as the negated value. */
  lemma ScanMinus(ds: string, t: string, n: nat)
    requires ds != [] && AllDigits(ds) && n == DigitsValue(ds)
    requires t == [] || !IsDigit(t[0])
    ensures ScanField(['-'] + (ds + t), 4, true) == Some(Scan(-(n as int), t))
  {
    ScanNumberDigits(ds, t, |ds + t| + 1);
    ScanFieldMinus(ds + t, n, t);
  }

  /** `+` followed by a run of digits scans as the value. */
  lemma ScanPlus(ds: string, t: string, n: nat)
    requires ds != [] && AllDigits(ds) && n == DigitsValue(ds)
    requires t == [] || !IsDigit(t[0])
    ensures ScanField(['+'] + (ds + t), 4, true) == Some(Scan(n, t))
  {
    ScanNumberDigits(ds, t, |ds + t| + 1);
    ScanFieldPlus(ds + t, n, t);
  }

  /** A field that starts with `-` reads the digits after it, as many as there are, negated. */
  lemma ScanFieldMinus(rest: string, n: nat, t: string)
    requires ScanNumber(rest, |rest| + 1) == Some(Scan(n, t))
    ensures ScanField(['-'] + rest, 4, true) == Some(Scan(-(n as int), t))
  {
    var s := ['-'] + rest;
    assert s[0] == '-' && !IsWhitespace('-');
    TrimStartNoop(s);
    var u := TrimStart(s);
    assert u[1..] == rest && |u| == |rest| + 1 && u != [] && u[0] == '-';
    assert ScanNumber(u[1..], |u|) == Some(Scan(n, t));
  }

  /** A field that starts with `+` reads the digits after it, as many as there are. */
  lemma ScanFieldPlus(rest: string, n: nat, t: string)
    requires ScanNumber(rest, |rest| + 1) == Some(Scan(n, t))
    ensures ScanField(['+'] + rest, 4, true) == Some(Scan(n, t))
  {
    var s := ['+'] + rest;
    assert s[0] == '+' && !IsWhitespace('+');
    TrimStartNoop(s);
    var u := TrimStart(s);
    assert u[1..] == rest && |u| == |rest| + 1 && u != [] && u[0] == '+';
    assert ScanNumber(u[1..], |u|) == Some(Scan(n, t));
  }

  /** How `ParseDate` reads a text whose three fields scan as given. */
  lemma ParseFields(s: string, y: int, m: int, dd: int, r1: string, r2: string)
    requires ScanField(s, 4, true) == Some(Scan(y, "-" + r1))
    requires ScanField(r1, 2, false) == Some(Scan(m, "-" + r2))
    requires ScanField(r2, 2, false) == Some(Scan(dd, ""))
    requires Valid(Date(y, m, dd))
    ensures ParseDate(s) == if InRange(Date(y, m, dd)) then Some(Date(y, m, dd)) else None
  {
    assert Literal("-" + r1, '-') == Some(r1);
    assert Literal("-" + r2, '-') == Some(r2);
  }

  /** The `%Y` text of any year scans back as that year. */
  lemma ScanYearText(y: int, t: string)
    requires t == [] || !IsDigit(t[0])
    ensures ScanField(YearText(y) + t, 4, true) == Some(Scan(y, t))
  {
    if 0 <= y <= 9999 {
      ScanDigits(YearText(y), t, 4, true, y);
    } else if y < 0 {
      ScanNegativeYear(y, t);
    } else {
      ScanLargeYear(y, t);
    }
  }

  lemma ScanNegativeYear(y: int, t: string)
    requires y < 0
    requires t == [] || !IsDigit(t[0])
    ensures ScanField(YearText(y) + t, 4, true) == Some(Scan(y, t))
  {
    var ds := ZeroPad(-y, 4);
    YearTextSigned(y);
    Regroup(['-'], ds, t);
    ScanMinus(ds, t, -y);
  }

  /** Outside 0 to 9999, `%Y` is the sign and then at least four digits. */
  lemma YearTextSigned(y: int)
    requires !(0 <= y <= 9999)
    ensures y < 0 ==> YearText(y) == ['-'] + ZeroPad(-y, 4)
    ensures y > 9999 ==> YearText(y) == ['+'] + ZeroPad(y, 4)
  {
  }


  lemma ScanLargeYear(y: int, t: string)
    requires y > 9999
    requires t == [] || !IsDigit(t[0])
    ensures ScanField(YearText(y) + t, 4, true) == Some(Scan(y, t))
  {
    var ds := ZeroPad(y, 4);
    YearTextSigned(y);
    Regroup(['+'], ds, t);
    ScanPlus(ds, t, y);
  }

  /** `%m` or `%d` text of a month or a day scans back as it. */
  lemma ScanTwoDigits(m: nat, t: string)
    requires 1 <= m <= 31
    requires t == [] || !IsDigit(t[0])
    ensures ScanField(TwoDigits(m) + t, 2, false) == Some(Scan(m, t))
  {
    ScanDigits(TwoDigits(m), t, 2, false, m);
  }

  /**
   * The `%Y-%m-%d` text of a valid date parses back to that date when
   * `NaiveDate` can hold its year, and is rejected otherwise.
   */
  lemma ParseIsoText(d: Date)
    requires Valid(d)
    ensures ParseDate(IsoText(d)) == if InRange(d) then Some(d) else None
  {
    var ys, mm, dd := YearText(d.year), TwoDigits(d.month), TwoDigits(d.day);
    var r2 := "-" + dd;
    var r1 := mm + r2;
    RegroupFive(ys, "-", mm, "-", dd);
    assert IsoText(d) == ys + ("-" + r1);
    ScanYearText(d.year, "-" + r1);
    ScanTwoDigits(d.month, r2);
    ScanDayText(d.day);
    ParseFields(IsoText(d), d.year, d.month, d.day, r1, dd);
  }

  lemma ScanDayText(n: nat)
    requires 1 <= n <= 31
    ensures ScanField(TwoDigits(n), 2, false) == Some(Scan(n, ""))
  {
    assert TwoDigits(n) + "" == TwoDigits(n);
    ScanTwoDigits(n, "");
  }

}
