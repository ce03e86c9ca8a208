/** The parse behind `pd.to_datetime(..., format="%m/%d/%Y %I:%M:%S %p")`.
    pandas matches each value against the regular expression Python's
    `_strptime` builds from the format, requires the match to cover the whole
    string, and then builds a calendar date-time from the captured fields.

    The regular expression, field by field:
      %m  1[0-2]|0[1-9]|[1-9]                 one or two digits, 1..12
      %d  3[01]|[12]\d|0[1-9]|[1-9]| [1-9]     one or two digits 1..31, or a space and one digit
      %Y  \d\d\d\d                             exactly four digits
      %I  1[0-2]|0[1-9]|[1-9]                 one or two digits, 1..12
      %M  [0-5]\d|\d                           one or two digits, 0..59
      %S  6[01]|[0-5]\d|\d                     one or two digits, 0..61
      %p  am|pm                                matched ignoring case
    Each space of the format becomes `\s+` (one or more whitespace characters);
    '/' and ':' are literal. `\d` is taken to be an ASCII digit 0-9 here (see
    `IsDigit`). Every field is followed by a non-digit separator,
    so with backtracking a field matches exactly when the whole run of digits
    at its position has an admissible length and value; `Scan` checks that. */
module DateTimeFormat {
  import opened Table
  import Text

  /** The digits this model admits: ASCII 0-9 only. */
  predicate IsDigit(c: char) { '0' <= c <= '9' }

  function DigitValue(c: char): (d: nat)
    requires IsDigit(c)
    ensures d < 10
  {
    (c as int) - ('0' as int)
  }

  function DigitChar(d: nat): (c: char)
    requires d < 10
    ensures IsDigit(c) && DigitValue(c) == d
  {
    (('0' as int) + d) as char
  }

  predicate AllDigits(t: string) {
    forall k :: 0 <= k < |t| ==> IsDigit(t[k])
  }

  /** Length of the run of digits that starts at `i`. */
  function DigitRun(s: string, i: nat): (n: nat)
    requires i <= |s|
    decreases |s| - i
    ensures i + n <= |s|
  {
    if i < |s| && IsDigit(s[i]) then 1 + DigitRun(s, i + 1) else 0
  }

  /** `DigitRun` covers only digits and stops at the end or at a non-digit. */
  lemma {:induction false} DigitRunSpan(s: string, i: nat)
    requires i <= |s|
    decreases |s| - i
    ensures forall k :: i <= k < i + DigitRun(s, i) ==> IsDigit(s[k])
    ensures i + DigitRun(s, i) == |s| || !IsDigit(s[i + DigitRun(s, i)])
  {
    if i < |s| && IsDigit(s[i]) {
      DigitRunSpan(s, i + 1);
    }
  }

  /** Length of the run of whitespace that starts at `i` (what `\s+` consumes). */
  function SpaceRun(s: string, i: nat): (n: nat)
    requires i <= |s|
    decreases |s| - i
    ensures i + n <= |s|
  {
    if i < |s| && Text.IsSpace(s[i]) then 1 + SpaceRun(s, i + 1) else 0
  }

  /** `SpaceRun` covers only whitespace and stops at the end or at a non-space. */
  lemma {:induction false} SpaceRunSpan(s: string, i: nat)
    requires i <= |s|
    decreases |s| - i
    ensures forall k :: i <= k < i + SpaceRun(s, i) ==> Text.IsSpace(s[k])
    ensures i + SpaceRun(s, i) == |s| || !Text.IsSpace(s[i + SpaceRun(s, i)])
  {
    if i < |s| && Text.IsSpace(s[i]) {
      SpaceRunSpan(s, i + 1);
    }
  }

  /** The decimal value of a string of digits. */
  function Number(t: string): nat
    requires AllDigits(t)
  {
    if |t| == 0 then 0 else Number(t[..|t| - 1]) * 10 + DigitValue(t[|t| - 1])
  }

  function Pow10(k: nat): (p: nat)
    ensures p >= 1
  {
    if k == 0 then 1 else 10 * Pow10(k - 1)
  }

  /** `k` digits spell a number below `10^k`. */
  lemma {:induction false} NumberBound(t: string)
    requires AllDigits(t)
    ensures Number(t) < Pow10(|t|)
  {
    if |t| > 0 {
      NumberBound(t[..|t| - 1]);
    }
  }

  /** A matched field: its value and the position just after it. */
  datatype Token = Token(value: nat, next: nat)

  /** A one- or two-digit field whose regular expression admits exactly the
      values lo..hi (`%m`, `%I`, `%M`, `%S` and the digit form of `%d`). */
  function ShortField(s: string, i: nat, lo: nat, hi: nat): (r: Option<Token>)
    requires i <= |s|
    ensures r.Some? ==> i < r.value.next <= |s| && lo <= r.value.value <= hi
  {
    DigitRunSpan(s, i);
    var n := DigitRun(s, i);
    if 1 <= n <= 2 && lo <= Number(s[i..i + n]) <= hi then Some(Token(Number(s[i..i + n]), i + n))
    else None
  }

  /** `%d`: the digit forms, or a space followed by a single digit 1..9. */
  function DayField(s: string, i: nat): (r: Option<Token>)
    requires i <= |s|
    ensures r.Some? ==> i < r.value.next <= |s| && 1 <= r.value.value <= 31
  {
    if i + 1 < |s| && s[i] == ' ' && IsDigit(s[i + 1]) && DigitRun(s, i + 1) == 1 && DigitValue(s[i + 1]) >= 1
    then Some(Token(DigitValue(s[i + 1]), i + 2))
    else ShortField(s, i, 1, 31)
  }

  /** `%Y`: exactly four digits. */
  function YearField(s: string, i: nat): (r: Option<Token>)
    requires i <= |s|
    ensures r.Some? ==> r.value.next == i + 4 <= |s| && r.value.value <= 9999
  {
    DigitRunSpan(s, i);
    if DigitRun(s, i) == 4 then
      NumberBound(s[i..i + 4]);
      assert Pow10(4) == 10000;
      Some(Token(Number(s[i..i + 4]), i + 4))
    else None
  }

  function Lower(c: char): char {
    if 'A' <= c <= 'Z' then ((c as int) + 32) as char else c
  }

  /** `%p` at `i`, which must also be the end of the string; true for PM. */
  function Marker(s: string, i: nat): Option<bool>
    requires i <= |s|
  {
    if i + 2 == |s| && Lower(s[i + 1]) == 'm' && (Lower(s[i]) == 'a' || Lower(s[i]) == 'p')
    then Some(Lower(s[i]) == 'p')
    else None
  }

  /** Literal separator `c` at position `i`. */
  predicate Lit(s: string, i: nat, c: char) {
    i < |s| && s[i] == c
  }

  /** The captured groups of a successful match. */
  datatype Fields = Fields(month: nat, day: nat, year: nat, hour12: nat, minute: nat, second: nat, pm: bool)

  /** The values the regular expression alone admits. */
  predicate InScanRange(f: Fields) {
    && 1 <= f.month <= 12 && 1 <= f.day <= 31 && f.year <= 9999
    && 1 <= f.hour12 <= 12 && f.minute <= 59 && f.second <= 61
  }

  /** What `%m/%d/%Y` captures, and where it ends. */
  datatype DatePart = DatePart(month: nat, day: nat, year: nat, next: nat)

  /** What `\s+%I:%M:%S\s+%p` captures up to the end of the string. */
  datatype ClockPart = ClockPart(hour12: nat, minute: nat, second: nat, pm: bool)

  /** What `%I:%M:%S` captures, and where it ends. */
  datatype TimePart = TimePart(hour12: nat, minute: nat, second: nat, next: nat)

  function ScanDate(s: string): (r: Option<DatePart>)
    ensures r.Some? ==> var p := r.value;
      1 <= p.month <= 12 && 1 <= p.day <= 31 && p.year <= 9999 && p.next <= |s|
  {
    var m :- ShortField(s, 0, 1, 12);
    if !Lit(s, m.next, '/') then None else
    var d :- DayField(s, m.next + 1);
    if !Lit(s, d.next, '/') then None else
    var y :- YearField(s, d.next + 1);
    Some(DatePart(m.value, d.value, y.value, y.next))
  }

  /** `%I:%M:%S` at `i`. */
  function ScanTime(s: string, i: nat): (r: Option<TimePart>)
    requires i <= |s|
    ensures r.Some? ==> var t := r.value;
      1 <= t.hour12 <= 12 && t.minute <= 59 && t.second <= 61 && i < t.next <= |s|
  {
    var h :- ShortField(s, i, 1, 12);
    if !Lit(s, h.next, ':') then None else
    var mi :- ShortField(s, h.next + 1, 0, 59);
    if !Lit(s, mi.next, ':') then None else
    var se :- ShortField(s, mi.next + 1, 0, 61);
    Some(TimePart(h.value, mi.value, se.value, se.next))
  }

  /** `\s+%p` from `i` to the end of the string; true for PM. */
  function ScanMarker(s: string, i: nat): Option<bool>
    requires i <= |s|
  {
    var gap := SpaceRun(s, i);
    if gap == 0 then None else Marker(s, i + gap)
  }

  /** `%I:%M:%S\s+%p` from `i` to the end of the string. */
  function ScanClockAt(s: string, i: nat): (r: Option<ClockPart>)
    requires i <= |s|
    ensures r.Some? ==> var c := r.value;
      1 <= c.hour12 <= 12 && c.minute <= 59 && c.second <= 61
  {
    var t :- ScanTime(s, i);
    var pm :- ScanMarker(s, t.next);
    Some(ClockPart(t.hour12, t.minute, t.second, pm))
  }

  /** `\s+%I:%M:%S\s+%p` from `i` to the end of the string. */
  function ScanClock(s: string, i: nat): (r: Option<ClockPart>)
    requires i <= |s|
    ensures r.Some? ==> var c := r.value;
      1 <= c.hour12 <= 12 && c.minute <= 59 && c.second <= 61
  {
    var gap := SpaceRun(s, i);
    if gap == 0 then None else ScanClockAt(s, i + gap)
  }

  /** Match the whole string against the format's regular expression. */
  function Scan(s: string): (r: Option<Fields>)
    ensures r.Some? ==> InScanRange(r.value)
  {
    var d :- ScanDate(s);
    var c :- ScanClock(s, d.next);
    Some(Fields(d.month, d.day, d.year, c.hour12, c.minute, c.second, c.pm))
  }

  predicate IsLeapYear(y: int) {
    y % 4 == 0 && (y % 100 != 0 || y % 400 == 0)
  }

  function DaysInMonth(y: int, m: int): (n: nat)
    requires 1 <= m <= 12
    ensures 28 <= n <= 31
  {
    if m == 2 then (if IsLeapYear(y) then 29 else 28)
    else if m == 4 || m == 6 || m == 9 || m == 11 then 30
    else 31
  }

  /** A date-time Python's `datetime` constructor accepts. */
  predicate ValidDateTime(t: DateTime) {
    && 1 <= t.year <= 9999 && 1 <= t.month <= 12 && 1 <= t.day <= DaysInMonth(t.year, t.month)
    && 0 <= t.hour <= 23 && 0 <= t.minute <= 59 && 0 <= t.second <= 59
  }

  /** `%I` with `%p`: 12 AM is hour 0, 1..11 AM are unchanged, 12 PM is 12,
      1..11 PM gain twelve. */
  function To24(h12: int, pm: bool): (h: int)
    requires 1 <= h12 <= 12
    ensures 0 <= h <= 23
    ensures h >= 12 <==> pm
    ensures h % 12 == h12 % 12
  {
    if pm then (if h12 == 12 then 12 else h12 + 12)
    else (if h12 == 12 then 0 else h12)
  }

  /** The 12-hour clock reading of a 24-hour `hour`. */
  function To12(hour: int): (h12: int)
    requires 0 <= hour <= 23
    ensures 1 <= h12 <= 12
    ensures To24(h12, hour >= 12) == hour
  {
    if hour % 12 == 0 then 12 else hour % 12
  }

  /** Build the date-time from the captured fields. Seconds 60 and 61 pass
      the regular expression; this model refuses them, as Python's `datetime`
      does for a second above 59, and it refuses year 0 and a day beyond the
      end of its month the same way. */
  function Build(f: Fields): (r: Option<DateTime>)
    requires InScanRange(f)
    ensures var t := DateTime(f.year, f.month, f.day, To24(f.hour12, f.pm), f.minute, f.second);
      && (r.Some? <==> ValidDateTime(t))
      && (r.Some? ==> r.value == t)
  {
    if f.year >= 1 && f.day <= DaysInMonth(f.year, f.month) && f.second <= 59
    then Some(DateTime(f.year, f.month, f.day, To24(f.hour12, f.pm), f.minute, f.second))
    else None
  }

  /** Parse one `Date + " " + Time` value; `None` is the `ValueError`. */
  function ParseTimestamp(s: string): (r: Option<DateTime>)
    ensures r.Some? ==> ValidDateTime(r.value)
  {
    var f :- Scan(s);
    Build(f)
  }

  /** The canonical spelling of matched fields: two-digit month, day, hour,
      minute and second, four-digit year, upper-case marker. */
  function Render(f: Fields): (s: string)
    requires InScanRange(f)
    ensures |s| == 22
  {
    [ DigitChar(f.month / 10), DigitChar(f.month % 10), '/',
      DigitChar(f.day / 10), DigitChar(f.day % 10), '/',
      DigitChar(f.year / 100 / 10), DigitChar(f.year / 100 % 10), DigitChar(f.year % 100 / 10), DigitChar(f.year % 100 % 10), ' ',
      DigitChar(f.hour12 / 10), DigitChar(f.hour12 % 10), ':',
      DigitChar(f.minute / 10), DigitChar(f.minute % 10), ':',
      DigitChar(f.second / 10), DigitChar(f.second % 10), ' ',
      if f.pm then 'P' else 'A', 'M' ]
  }

  function ToFields(t: DateTime): (f: Fields)
    requires ValidDateTime(t)
    ensures InScanRange(f)
  {
    Fields(t.month, t.day, t.year, To12(t.hour), t.minute, t.second, t.hour >= 12)
  }

  /** A date-time written in the format, as in "01/05/2021 12:30:45 PM". */
  function Format(t: DateTime): string
    requires ValidDateTime(t)
  {
    Render(ToFields(t))
  }

  /** A run of digits ending at a non-digit is exactly what `DigitRun` measures. */
  lemma {:induction false} DigitRunIs(s: string, i: nat, n: nat)
    requires i + n <= |s|
    requires forall k :: i <= k < i + n ==> IsDigit(s[k])
    requires i + n == |s| || !IsDigit(s[i + n])
    decreases n
    ensures DigitRun(s, i) == n
  {
    if n > 0 {
      DigitRunIs(s, i + 1, n - 1);
    }
  }

  lemma NumberOfTwo(t: string)
    requires |t| == 2 && AllDigits(t)
    ensures Number(t) == DigitValue(t[0]) * 10 + DigitValue(t[1])
  {
    var u := t[..1];
    assert AllDigits(u) && u[..0] == [] && u[0] == t[0];
    assert Number(u) == DigitValue(t[0]);
  }

  lemma NumberOfFour(t: string)
    requires |t| == 4 && AllDigits(t)
    ensures Number(t) == Number(t[..2]) * 100 + DigitValue(t[2]) * 10 + DigitValue(t[3])
  {
    assert t[..3][..2] == t[..2];
    assert t[..3][2] == t[2];
  }

  /** Two digits of `v`, then a non-digit: a two-digit field worth `v`. */
  lemma TwoDigits(s: string, i: nat, v: nat)
    requires v < 100 && i + 2 < |s|
    requires s[i] == DigitChar(v / 10) && s[i + 1] == DigitChar(v % 10) && !IsDigit(s[i + 2])
    ensures DigitRun(s, i) == 2 && Number(s[i..i + 2]) == v
  {
    DigitRunIs(s, i, 2);
    NumberOfTwo(s[i..i + 2]);
  }

  lemma ShortFieldAt(s: string, i: nat, v: nat, lo: nat, hi: nat)
    requires lo <= v <= hi && v < 100 && i + 2 < |s|
    requires s[i] == DigitChar(v / 10) && s[i + 1] == DigitChar(v % 10) && !IsDigit(s[i + 2])
    ensures ShortField(s, i, lo, hi) == Some(Token(v, i + 2))
  {
    TwoDigits(s, i, v);
  }

  lemma FourDigits(s: string, i: nat, v: nat)
    requires v <= 9999 && i + 4 < |s|
    requires s[i] == DigitChar(v / 100 / 10) && s[i + 1] == DigitChar(v / 100 % 10)
    requires s[i + 2] == DigitChar(v % 100 / 10) && s[i + 3] == DigitChar(v % 100 % 10)
    requires !IsDigit(s[i + 4])
    ensures DigitRun(s, i) == 4 && Number(s[i..i + 4]) == v
  {
    DigitRunIs(s, i, 4);
    var t := s[i..i + 4];
    NumberOfFour(t);
    NumberOfTwo(t[..2]);
  }

  lemma ScanDateRender(f: Fields)
    requires InScanRange(f)
    ensures ScanDate(Render(f)) == Some(DatePart(f.month, f.day, f.year, 10))
  {
    var s := Render(f);
    ShortFieldAt(s, 0, f.month, 1, 12);
    assert s[3] != ' ';
    ShortFieldAt(s, 3, f.day, 1, 31);
    FourDigits(s, 6, f.year);
  }

  lemma ScanClockRender(f: Fields)
    requires InScanRange(f)
    ensures ScanClock(Render(f), 10) == Some(ClockPart(f.hour12, f.minute, f.second, f.pm))
  {
    var s := Render(f);
    assert SpaceRun(s, 11) == 0;
    assert SpaceRun(s, 10) == 1;
    ShortFieldAt(s, 11, f.hour12, 1, 12);
    ShortFieldAt(s, 14, f.minute, 0, 59);
    ShortFieldAt(s, 17, f.second, 0, 61);
    assert SpaceRun(s, 20) == 0;
    assert SpaceRun(s, 19) == 1;
    assert Marker(s, 20) == Some(f.pm);
  }

  /** The canonical spelling scans back to the same fields. */
  lemma ScanRender(f: Fields)
    requires InScanRange(f)
    ensures Scan(Render(f)) == Some(f)
  {
    ScanDateRender(f);
    ScanClockRender(f);
  }

  /** Every valid date-time written in the format parses back to itself. */
  lemma ParseFormat(t: DateTime)
    requires ValidDateTime(t)
    ensures ParseTimestamp(Format(t)) == Some(t)
  {
    ScanRender(ToFields(t));
  }

  /** The value the source's comments use as their example. */
  lemma ParseSourceExample()
    ensures ParseTimestamp("01/05/2021 12:30:45 PM") == Some(DateTime(2021, 1, 5, 12, 30, 45))
  {
    var t := DateTime(2021, 1, 5, 12, 30, 45);
    assert Format(t) == "01/05/2021 12:30:45 PM";
    ParseFormat(t);
  }

  /** 12 AM is the first hour of the day. */
  lemma ParseMidnight()
    ensures ParseTimestamp("01/05/2021 12:00:00 AM") == Some(DateTime(2021, 1, 5, 0, 0, 0))
  {
    var t := DateTime(2021, 1, 5, 0, 0, 0);
    assert Format(t) == "01/05/2021 12:00:00 AM";
    ParseFormat(t);
  }

  /** The day must exist in its month: 29 February 2021 is refused. */
  lemma ParseRejectsMissingDay()
    ensures ParseTimestamp("02/29/2021 10:00:00 AM") == None
  {
    var f := Fields(2, 29, 2021, 10, 0, 0, false);
    var s := Render(f);
    assert s == "02/29/2021 10:00:00 AM";
    ScanRender(f);
    assert Build(f) == None;
  }

  /** 29 February exists in the leap year 2020. */
  lemma ParseAcceptsLeapDay()
    ensures ParseTimestamp("02/29/2020 10:00:00 AM") == Some(DateTime(2020, 2, 29, 10, 0, 0))
  {
    var t := DateTime(2020, 2, 29, 10, 0, 0);
    assert Format(t) == "02/29/2020 10:00:00 AM";
    ParseFormat(t);
  }

  /** Out-of-range fields and a foreign marker fail the whole value. */
  lemma ParseRejectsGarbage()
    ensures ParseTimestamp("13/40/2021 99:99:99 XM") == None
  {
    var s := "13/40/2021 99:99:99 XM";
    DigitRunIs(s, 0, 2);
    NumberOfTwo(s[0..2]);
    assert ShortField(s, 0, 1, 12) == None;
  }

  /** One digit worth `v`, then a non-digit. */
  lemma OneDigit(s: string, i: nat, v: nat)
    requires v < 10 && i + 1 < |s| && s[i] == DigitChar(v) && !IsDigit(s[i + 1])
    ensures DigitRun(s, i) == 1 && Number(s[i..i + 1]) == v
  {
    DigitRunIs(s, i, 1);
    assert s[i..i + 1][..0] == [];
  }

  lemma ShortFormsDate(s: string)
    requires s == "1/ 5/2021 1:02:03 pm"
    ensures ScanDate(s) == Some(DatePart(1, 5, 2021, 9))
  {
    assert ShortField(s, 0, 1, 12) == Some(Token(1, 1)) by { OneDigit(s, 0, 1); }
    assert DayField(s, 2) == Some(Token(5, 4)) by { DigitRunIs(s, 3, 1); }
    assert YearField(s, 5) == Some(Token(2021, 9)) by {
      assert s[5] == DigitChar(2) && s[6] == DigitChar(0) && s[7] == DigitChar(2) && s[8] == DigitChar(1);
      FourDigits(s, 5, 2021);
    }
  }

  lemma ShortFormsClock(s: string)
    requires s == "1/ 5/2021 1:02:03 pm"
    ensures ScanClock(s, 9) == Some(ClockPart(1, 2, 3, true))
  {
    assert SpaceRun(s, 10) == 0;
    assert SpaceRun(s, 9) == 1;
    OneDigit(s, 10, 1);
    assert ShortField(s, 10, 1, 12) == Some(Token(1, 11));
    ShortFieldAt(s, 12, 2, 0, 59);
    ShortFieldAt(s, 15, 3, 0, 61);
    assert SpaceRun(s, 18) == 0;
    assert SpaceRun(s, 17) == 1;
    assert Marker(s, 18) == Some(true);
  }

  /** `%m`, `%d` and `%I` take a single digit, the marker any case, and the
      day a leading space: "1/ 5/2021 1:02:03 pm" is 5 January 2021, 13:02:03. */
  lemma ParseShortForms()
    ensures ParseTimestamp("1/ 5/2021 1:02:03 pm") == Some(DateTime(2021, 1, 5, 13, 2, 3))
  {
    var s := "1/ 5/2021 1:02:03 pm";
    ShortFormsDate(s);
    ShortFormsClock(s);
    assert Scan(s) == Some(Fields(1, 5, 2021, 1, 2, 3, true));
  }
}
