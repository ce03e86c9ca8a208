/** Every way of writing a value in the format `%m/%d/%Y %I:%M:%S %p`, and
    what the format's regular expression makes of each one.

    A spelling chooses, for each field, the digits written (any value up to
    99, up to 9999 for the year, whether the regular expression admits it or
    not), a width (one digit or two, and for the day also a space and one
    digit), the runs of whitespace written where the format has a space, and
    any two characters for the marker. `ScanSpell` proves that `Scan` reads
    every spelling back to the values written exactly when each value is in
    its field's range and the marker is AM or PM in any case, and refuses it
    otherwise; `SpellingOfScan` proves that every string `Scan` accepts is
    such a spelling. Together they pin `Scan` down on all strings. */
module Spelling {
  import opened Table
  import Text
  import opened DateTimeFormat

  /** How a one- or two-digit field is written: `Wide` always writes two
      digits ("05"), `Narrow` writes one when the value is below ten ("5"). */
  datatype Width = Wide | Narrow

  /** `%d` has a third form, a space and one digit (" 5"). */
  datatype DayWidth = DayWide | DayNarrow | DayPadded

  /** The width of every field and the whitespace written for each space
      of the format. */
  datatype Layout = Layout(month: Width, day: DayWidth, hour: Width, minute: Width, second: Width, gap1: string, gap2: string)

  /** What is written in each field, before the regular expression judges it. */
  datatype Raw = Raw(month: nat, day: nat, year: nat, hour12: nat, minute: nat, second: nat, marker: string)

  /** Values that fit their fields' digits, and a two-character marker. A
      marker starting with whitespace would merge into the gap before it,
      so it is written with a longer gap instead. */
  predicate Writable(r: Raw) {
    && r.month < 100 && r.day < 100 && r.year < 10000
    && r.hour12 < 100 && r.minute < 100 && r.second < 100
    && |r.marker| == 2 && !Text.IsSpace(r.marker[0])
  }

  /** What `\s+` matches: one or more whitespace characters. */
  predicate IsGap(g: string) {
    |g| > 0 && Text.AllSpace(g)
  }

  predicate LayoutOk(l: Layout) {
    IsGap(l.gap1) && IsGap(l.gap2)
  }

  /** `am` or `pm`, ignoring case. */
  predicate IsMarker(m: string) {
    |m| == 2 && Lower(m[1]) == 'm' && (Lower(m[0]) == 'a' || Lower(m[0]) == 'p')
  }

  /** The values each field's regular expression admits. */
  predicate Admits(r: Raw) {
    && 1 <= r.month <= 12 && 1 <= r.day <= 31
    && 1 <= r.hour12 <= 12 && r.minute <= 59 && r.second <= 61
    && IsMarker(r.marker)
  }

  /** The groups a successful match of the spelling captures. */
  function Captured(r: Raw): (f: Fields)
    requires |r.marker| == 2
    ensures f.pm <==> Lower(r.marker[0]) == 'p'
  {
    Fields(r.month, r.day, r.year, r.hour12, r.minute, r.second, Lower(r.marker[0]) == 'p')
  }

  /** How many digits a one- or two-digit field takes. */
  function ShortLength(v: nat, w: Width): nat {
    if w.Narrow? && v < 10 then 1 else 2
  }

  /** The digits of a one- or two-digit field. */
  function Short(v: nat, w: Width): (t: string)
    requires v < 100
    ensures |t| == ShortLength(v, w) && AllDigits(t) && Number(t) == v
  {
    if w.Narrow? && v < 10 then
      var t := [DigitChar(v)];
      assert t[..0] == [];
      t
    else
      var t := [DigitChar(v / 10), DigitChar(v % 10)];
      NumberOfTwo(t);
      t
  }

  /** The day as written: like `Short`, or a space and one digit. */
  function Day(v: nat, w: DayWidth): (t: string)
    requires v < 100
    ensures 1 <= |t| <= 2
  {
    if v < 10 && w.DayPadded? then [' ', DigitChar(v)]
    else Short(v, if w.DayNarrow? then Narrow else Wide)
  }

  /** Four digits of the year. */
  function Year4(v: nat): (t: string)
    requires v < 10000
    ensures |t| == 4 && AllDigits(t) && Number(t) == v
  {
    var t := [DigitChar(v / 100 / 10), DigitChar(v / 100 % 10), DigitChar(v % 100 / 10), DigitChar(v % 100 % 10)];
    NumberOfFour(t);
    NumberOfTwo(t[..2]);
    t
  }

  /** `%m/%d/%Y` as written. */
  function DateText(r: Raw, l: Layout): string
    requires Writable(r)
  {
    Short(r.month, l.month) + "/" + Day(r.day, l.day) + "/" + Year4(r.year)
  }

  /** `\s+%I:%M:%S\s+%p` as written. */
  function ClockText(r: Raw, l: Layout): string
    requires Writable(r)
  {
    l.gap1 + Short(r.hour12, l.hour) + ":" + Short(r.minute, l.minute) + ":" + Short(r.second, l.second) + l.gap2 + r.marker
  }

  /** The whole value as written. */
  function Spell(r: Raw, l: Layout): string
    requires Writable(r)
  {
    DateText(r, l) + ClockText(r, l)
  }

  // ---------------------------------------------------------------------------
  // Reading one field

  /** A run of whitespace ending at a non-space is exactly what `SpaceRun` measures. */
  lemma {:induction false} SpaceRunIs(s: string, i: nat, n: nat)
    requires i + n <= |s|
    requires forall k :: i <= k < i + n ==> Text.IsSpace(s[k])
    requires i + n == |s| || !Text.IsSpace(s[i + n])
    decreases n
    ensures SpaceRun(s, i) == n
  {
    if n > 0 {
      SpaceRunIs(s, i + 1, n - 1);
    }
  }

  /** A gap written at `i` and followed by a non-space is one `\s+`. */
  lemma GapAt(s: string, i: nat, g: string)
    requires IsGap(g) && i + |g| < |s| && s[i..i + |g|] == g && !Text.IsSpace(s[i + |g|])
    ensures SpaceRun(s, i) == |g|
  {
    forall k | i <= k < i + |g| ensures Text.IsSpace(s[k]) {
      assert s[k] == g[k - i];
    }
    SpaceRunIs(s, i, |g|);
  }

  /** The digits `t` written at `i` and followed by a non-digit form the whole run. */
  lemma DigitsAt(s: string, i: nat, t: string)
    requires AllDigits(t) && i + |t| < |s| && s[i..i + |t|] == t && !IsDigit(s[i + |t|])
    ensures DigitRun(s, i) == |t|
  {
    forall k | i <= k < i + |t| ensures IsDigit(s[k]) {
      assert s[k] == t[k - i];
    }
    DigitRunIs(s, i, |t|);
  }

  /** A short field written at `i` is read back when its value is in range
      and refused otherwise. */
  lemma ShortFieldOf(s: string, i: nat, v: nat, w: Width, lo: nat, hi: nat)
    requires v < 100
    requires var t := Short(v, w); i + |t| < |s| && s[i..i + |t|] == t && !IsDigit(s[i + |t|])
    ensures ShortField(s, i, lo, hi) == if lo <= v <= hi then Some(Token(v, i + |Short(v, w)|)) else None
  {
    DigitsAt(s, i, Short(v, w));
  }

  /** The day written at `i`, in any of its three forms. */
  lemma DayFieldOf(s: string, i: nat, v: nat, w: DayWidth)
    requires v < 100
    requires var t := Day(v, w); i + |t| < |s| && s[i..i + |t|] == t && !IsDigit(s[i + |t|])
    ensures DayField(s, i) == if 1 <= v <= 31 then Some(Token(v, i + |Day(v, w)|)) else None
  {
    var t := Day(v, w);
    if v < 10 && w.DayPadded? {
      assert s[i] == ' ' && s[i + 1] == t[1];
      DigitRunIs(s, i + 1, 1);
      DigitRunIs(s, i, 0);
    } else {
      var n := if w.DayNarrow? then Narrow else Wide;
      assert s[i] == t[0];
      ShortFieldOf(s, i, v, n, 1, 31);
    }
  }

  /** The year written at `i` is always read back. */
  lemma YearFieldOf(s: string, i: nat, v: nat)
    requires v < 10000 && i + 4 < |s| && s[i..i + 4] == Year4(v) && !IsDigit(s[i + 4])
    ensures YearField(s, i) == Some(Token(v, i + 4))
  {
    DigitsAt(s, i, Year4(v));
  }

  /** The marker written as the last two characters. */
  lemma MarkerOf(s: string, i: nat, m: string)
    requires |m| == 2 && i + 2 == |s| && s[i..] == m
    ensures Marker(s, i) == if IsMarker(m) then Some(Lower(m[0]) == 'p') else None
  {
    assert s[i] == m[0] && s[i + 1] == m[1];
  }

  // ---------------------------------------------------------------------------
  // Reading a whole spelling

  /** Where each piece of `%m/%d/%Y` followed by `rest` sits. */
  lemma DateCuts(s: string, m: string, d: string, y: string, rest: string)
    requires s == m + "/" + d + "/" + y + rest
    ensures var a := |m| + 1; var b := a + |d| + 1;
      && s[0..|m|] == m && s[|m|] == '/' && s[a..a + |d|] == d && s[b - 1] == '/'
      && s[b..b + |y|] == y && s[b + |y|..] == rest
  {
  }

  /** Where each piece of `%I:%M:%S`, written after `pre`, sits. */
  lemma TimeCuts(s: string, pre: string, h: string, mi: string, se: string, rest: string)
    requires s == pre + h + ":" + mi + ":" + se + rest
    ensures var a := |pre|; var p := a + |h|; var q := p + 1 + |mi|; var e := q + 1 + |se|;
      && s[a..p] == h && s[p] == ':' && s[p + 1..q] == mi
      && s[q] == ':' && s[q + 1..e] == se && s[e..] == rest
  {
  }

  /** `ScanDate` from what each of its fields reads, in range (`ok`) or not. */
  lemma ScanDateSteps(s: string, a: nat, b: nat, e: nat, mv: nat, dv: nat, yv: nat, mok: bool, dok: bool)
    requires a < |s| && b < |s| && s[a] == '/' && s[b] == '/'
    requires ShortField(s, 0, 1, 12) == if mok then Some(Token(mv, a)) else None
    requires mok ==> DayField(s, a + 1) == if dok then Some(Token(dv, b)) else None
    requires mok && dok ==> YearField(s, b + 1) == Some(Token(yv, e))
    ensures ScanDate(s) == if mok && dok then Some(DatePart(mv, dv, yv, e)) else None
  {
  }

  /** `ScanTime` from what each of its fields reads, in range (`ok`) or not. */
  lemma ScanTimeSteps(s: string, a: nat, b: nat, c: nat, e: nat, hv: nat, mv: nat, sv: nat, hok: bool, mok: bool, sok: bool)
    requires a <= |s| && b < |s| && c < |s| && s[b] == ':' && s[c] == ':'
    requires ShortField(s, a, 1, 12) == if hok then Some(Token(hv, b)) else None
    requires hok ==> ShortField(s, b + 1, 0, 59) == if mok then Some(Token(mv, c)) else None
    requires hok && mok ==> ShortField(s, c + 1, 0, 61) == if sok then Some(Token(sv, e)) else None
    ensures ScanTime(s, a) == if hok && mok && sok then Some(TimePart(hv, mv, sv, e)) else None
  {
  }

  /** `ScanClockAt` from what `ScanTime` and then `ScanMarker` read. */
  lemma ScanClockAtSteps(s: string, a: nat, t: Option<TimePart>, m: Option<bool>)
    requires a <= |s| && ScanTime(s, a) == t
    requires t.Some? ==> t.value.next <= |s| && ScanMarker(s, t.value.next) == m
    ensures ScanClockAt(s, a) ==
      if t.Some? && m.Some? then Some(ClockPart(t.value.hour12, t.value.minute, t.value.second, m.value)) else None
  {
  }

  /** `%I:%M:%S` laid out at `a` and followed by a non-digit; `p` and `q`
      are the two colons and `e` the end. */
  predicate TimeLaid(s: string, a: nat, hv: nat, hw: Width, mv: nat, mw: Width, sv: nat, sw: Width)
    requires hv < 100 && mv < 100 && sv < 100
  {
    var p := a + ShortLength(hv, hw); var q := p + 1 + ShortLength(mv, mw); var e := q + 1 + ShortLength(sv, sw);
    && e < |s| && s[a..p] == Short(hv, hw) && s[p] == ':' && s[p + 1..q] == Short(mv, mw)
    && s[q] == ':' && s[q + 1..e] == Short(sv, sw) && !IsDigit(s[e])
  }

  /** The three fields of `%I:%M:%S` written at `a` and followed by a
      non-digit, each read back when in range. */
  lemma TimeFieldsAt(s: string, a: nat, hv: nat, hw: Width, mv: nat, mw: Width, sv: nat, sw: Width) returns (p: nat, q: nat, e: nat)
    requires hv < 100 && mv < 100 && sv < 100
    requires TimeLaid(s, a, hv, hw, mv, mw, sv, sw)
    ensures p == a + ShortLength(hv, hw) && q == p + 1 + ShortLength(mv, mw) && e == q + 1 + ShortLength(sv, sw)
    ensures e < |s| && s[p] == ':' && s[q] == ':'
    ensures ShortField(s, a, 1, 12) == (if 1 <= hv <= 12 then Some(Token(hv, p)) else None)
    ensures ShortField(s, p + 1, 0, 59) == (if mv <= 59 then Some(Token(mv, q)) else None)
    ensures ShortField(s, q + 1, 0, 61) == (if sv <= 61 then Some(Token(sv, e)) else None)
  {
    p := a + ShortLength(hv, hw);
    q := p + 1 + ShortLength(mv, mw);
    e := q + 1 + ShortLength(sv, sw);
    ShortFieldOf(s, a, hv, hw, 1, 12);
    ShortFieldOf(s, p + 1, mv, mw, 0, 59);
    ShortFieldOf(s, q + 1, sv, sw, 0, 61);
  }

  /** `%I:%M:%S` written at `a` and followed by a non-digit: read back when
      hour, minute and second are in range. */
  lemma TimeAt(s: string, a: nat, hv: nat, hw: Width, mv: nat, mw: Width, sv: nat, sw: Width)
    requires hv < 100 && mv < 100 && sv < 100
    requires TimeLaid(s, a, hv, hw, mv, mw, sv, sw)
    ensures var e := a + ShortLength(hv, hw) + ShortLength(mv, mw) + ShortLength(sv, sw) + 2;
      ScanTime(s, a) == if 1 <= hv <= 12 && mv <= 59 && sv <= 61 then Some(TimePart(hv, mv, sv, e)) else None
  {
    var p, q, e := TimeFieldsAt(s, a, hv, hw, mv, mw, sv, sw);
    ScanTimeSteps(s, a, p, q, e, hv, mv, sv, 1 <= hv <= 12, mv <= 59, sv <= 61);
  }

  /** `%I:%M:%S` written after `pre` and followed by a non-digit. */
  lemma TimeOf(s: string, pre: string, hv: nat, hw: Width, mv: nat, mw: Width, sv: nat, sw: Width, rest: string)
    requires hv < 100 && mv < 100 && sv < 100 && |rest| > 0 && !IsDigit(rest[0])
    requires s == pre + Short(hv, hw) + ":" + Short(mv, mw) + ":" + Short(sv, sw) + rest
    ensures ScanTime(s, |pre|) ==
      if 1 <= hv <= 12 && mv <= 59 && sv <= 61
      then Some(TimePart(hv, mv, sv, |s| - |rest|))
      else None
  {
    var h, mi, se := Short(hv, hw), Short(mv, mw), Short(sv, sw);
    TimeCuts(s, pre, h, mi, se, rest);
    assert s[|pre| + |h| + |mi| + |se| + 2] == rest[0];
    TimeAt(s, |pre|, hv, hw, mv, mw, sv, sw);
  }

  /** A gap written after `pre` and followed by a non-space is one `\s+`. */
  lemma GapOf(s: string, pre: string, g: string, rest: string)
    requires IsGap(g) && |rest| > 0 && !Text.IsSpace(rest[0])
    requires s == pre + g + rest
    ensures SpaceRun(s, |pre|) == |g|
  {
    assert s[|pre|..|pre| + |g|] == g;
    assert s[|pre| + |g|] == rest[0];
    GapAt(s, |pre|, g);
  }

  /** A gap and a marker ending the string: `\s+%p` reads the marker when it
      is AM or PM in any case. */
  lemma MarkerAfterGap(s: string, pre: string, g: string, m: string)
    requires IsGap(g) && |m| == 2 && !Text.IsSpace(m[0])
    requires s == pre + g + m
    ensures ScanMarker(s, |pre|) == if IsMarker(m) then Some(Lower(m[0]) == 'p') else None
  {
    GapOf(s, pre, g, m);
    assert s[|pre| + |g|..] == m;
    MarkerOf(s, |pre| + |g|, m);
  }

  /** `%m/%d/%Y` written at the start and followed by a non-digit: read back
      when month and day are in range. */
  lemma DateAt(s: string, mv: nat, mw: Width, dv: nat, dw: DayWidth, yv: nat)
    requires mv < 100 && dv < 100 && yv < 10000
    requires var m, d := Short(mv, mw), Day(dv, dw);
      var a := |m| + 1; var b := a + |d| + 1;
      && b + 4 < |s| && s[0..|m|] == m && s[a - 1] == '/' && s[a..a + |d|] == d && s[b - 1] == '/'
      && s[b..b + 4] == Year4(yv) && !IsDigit(s[b + 4])
    ensures var e := |Short(mv, mw)| + |Day(dv, dw)| + 6;
      ScanDate(s) == if 1 <= mv <= 12 && 1 <= dv <= 31 then Some(DatePart(mv, dv, yv, e)) else None
  {
    var m, d := Short(mv, mw), Day(dv, dw);
    var a := |m| + 1;
    var b := a + |d| + 1;
    assert ShortField(s, 0, 1, 12) == if 1 <= mv <= 12 then Some(Token(mv, a - 1)) else None by {
      ShortFieldOf(s, 0, mv, mw, 1, 12);
    }
    assert DayField(s, a) == if 1 <= dv <= 31 then Some(Token(dv, b - 1)) else None by {
      DayFieldOf(s, a, dv, dw);
    }
    assert YearField(s, b) == Some(Token(yv, b + 4)) by {
      YearFieldOf(s, b, yv);
    }
    ScanDateSteps(s, a - 1, b - 1, b + 4, mv, dv, yv, 1 <= mv <= 12, 1 <= dv <= 31);
  }

  /** `%m/%d/%Y` of a spelling: read back when month and day are in range. */
  lemma ScanDateSpell(r: Raw, l: Layout)
    requires Writable(r) && LayoutOk(l)
    ensures ScanDate(Spell(r, l)) ==
      if 1 <= r.month <= 12 && 1 <= r.day <= 31 then Some(DatePart(r.month, r.day, r.year, |DateText(r, l)|)) else None
  {
    var s := Spell(r, l);
    var m, d, y, c := Short(r.month, l.month), Day(r.day, l.day), Year4(r.year), ClockText(r, l);
    DateCuts(s, m, d, y, c);
    assert s[|m| + |d| + 6] == c[0] == l.gap1[0];
    DateAt(s, r.month, l.month, r.day, l.day, r.year);
  }

  /** `ScanClock` from the gap it skips, what each field of the time reads
      after it (in range (`ok`) or not), and what `ScanMarker` reads after
      the time. */
  lemma ClockSteps(s: string, i: nat, a: nat, b: nat, c: nat, e: nat, hv: nat, mv: nat, sv: nat, hok: bool, mok: bool, sok: bool, m: Option<bool>)
    requires i < a <= |s| && SpaceRun(s, i) == a - i
    requires b < |s| && c < |s| && s[b] == ':' && s[c] == ':'
    requires ShortField(s, a, 1, 12) == if hok then Some(Token(hv, b)) else None
    requires hok ==> ShortField(s, b + 1, 0, 59) == if mok then Some(Token(mv, c)) else None
    requires hok && mok ==> ShortField(s, c + 1, 0, 61) == if sok then Some(Token(sv, e)) else None
    requires hok && mok && sok ==> e <= |s| && ScanMarker(s, e) == m
    ensures ScanClock(s, i) == if hok && mok && sok && m.Some? then Some(ClockPart(hv, mv, sv, m.value)) else None
  {
    var t := if hok && mok && sok then Some(TimePart(hv, mv, sv, e)) else None;
    ScanTimeSteps(s, a, b, c, e, hv, mv, sv, hok, mok, sok);
    ScanClockAtSteps(s, a, t, m);
  }

  /** Where each piece of `\s+%I:%M:%S\s+%p`, written after `pre`, sits. */
  lemma ClockCuts(s: string, pre: string, clock: string, g1: string, h: string, mi: string, se: string, g2: string, m: string)
    requires s == pre + clock && clock == g1 + h + ":" + mi + ":" + se + g2 + m
    ensures var a := |pre| + |g1|; var p := a + |h|; var q := p + 1 + |mi|; var e := q + 1 + |se|;
      && |s| == e + |g2| + |m| && s[|pre|..a] == g1 && s[a..p] == h && s[p] == ':' && s[p + 1..q] == mi
      && s[q] == ':' && s[q + 1..e] == se && s[e..e + |g2|] == g2 && s[e + |g2|..] == m
  {
  }

  /** A gap and a marker written at `e` to the end of the string: `\s+%p`
      reads the marker when it is AM or PM in any case. */
  lemma MarkerAt(s: string, e: nat, g: string, m: string)
    requires IsGap(g) && |m| == 2 && !Text.IsSpace(m[0])
    requires |s| == e + |g| + 2 && s[e..e + |g|] == g && s[e + |g|..] == m
    ensures ScanMarker(s, e) == if IsMarker(m) then Some(Lower(m[0]) == 'p') else None
  {
    assert s[e + |g|] == m[0];
    GapAt(s, e, g);
    MarkerOf(s, e + |g|, m);
  }

  /** `\s+%I:%M:%S\s+%p` laid out at `i` to the end of `s`, piece by piece. */
  predicate ClockLaid(s: string, i: nat, g1: string, hv: nat, hw: Width, mv: nat, mw: Width, sv: nat, sw: Width, g2: string, m: string)
    requires hv < 100 && mv < 100 && sv < 100
  {
    var a := i + |g1|; var p := a + ShortLength(hv, hw); var q := p + 1 + ShortLength(mv, mw); var e := q + 1 + ShortLength(sv, sw);
    && |s| == e + |g2| + |m| && s[i..a] == g1 && s[a..p] == Short(hv, hw) && s[p] == ':' && s[p + 1..q] == Short(mv, mw)
    && s[q] == ':' && s[q + 1..e] == Short(sv, sw) && s[e..e + |g2|] == g2 && s[e + |g2|..] == m
  }

  /** `\s+%I:%M:%S\s+%p` written at `i` to the end of the string: read back
      when hour, minute and second are in range and the marker is AM or PM. */
  lemma ClockAt(s: string, i: nat, g1: string, hv: nat, hw: Width, mv: nat, mw: Width, sv: nat, sw: Width, g2: string, m: string)
    requires hv < 100 && mv < 100 && sv < 100
    requires IsGap(g1) && IsGap(g2) && |m| == 2 && !Text.IsSpace(m[0])
    requires ClockLaid(s, i, g1, hv, hw, mv, mw, sv, sw, g2, m)
    ensures ScanClock(s, i) ==
      if 1 <= hv <= 12 && mv <= 59 && sv <= 61 && IsMarker(m)
      then Some(ClockPart(hv, mv, sv, Lower(m[0]) == 'p'))
      else None
  {
    var a, p, q, e := ClockFieldsAt(s, i, g1, hv, hw, mv, mw, sv, sw, g2, m);
    MarkerAt(s, e, g2, m);
    ClockSteps(s, i, a, p, q, e, hv, mv, sv, 1 <= hv <= 12, mv <= 59, sv <= 61,
      if IsMarker(m) then Some(Lower(m[0]) == 'p') else None);
  }

  /** What each field of a laid-out clock reads: the gap, the hour up to the
      colon at `p`, the minute up to the colon at `q`, the second up to `e`,
      then the marker. */
  lemma ClockFieldsAt(s: string, i: nat, g1: string, hv: nat, hw: Width, mv: nat, mw: Width, sv: nat, sw: Width, g2: string, m: string)
      returns (a: nat, p: nat, q: nat, e: nat)
    requires hv < 100 && mv < 100 && sv < 100
    requires IsGap(g1) && IsGap(g2) && |m| == 2 && !Text.IsSpace(m[0])
    requires ClockLaid(s, i, g1, hv, hw, mv, mw, sv, sw, g2, m)
    ensures i < a <= |s| && SpaceRun(s, i) == a - i
    ensures p < |s| && q < |s| && s[p] == ':' && s[q] == ':'
    ensures ShortField(s, a, 1, 12) == if 1 <= hv <= 12 then Some(Token(hv, p)) else None
    ensures ShortField(s, p + 1, 0, 59) == if mv <= 59 then Some(Token(mv, q)) else None
    ensures ShortField(s, q + 1, 0, 61) == if sv <= 61 then Some(Token(sv, e)) else None
    ensures |s| == e + |g2| + 2 && s[e..e + |g2|] == g2 && s[e + |g2|..] == m
  {
    a := i + |g1|;
    ClockGapLaid(s, i, g1, hv, hw, mv, mw, sv, sw, g2, m);
    ClockTimeLaid(s, i, g1, hv, hw, mv, mw, sv, sw, g2, m);
    p, q, e := TimeFieldsAt(s, a, hv, hw, mv, mw, sv, sw);
    ClockTailLaid(s, i, g1, hv, hw, mv, mw, sv, sw, g2, m, p, q, e);
  }

  /** The gap of a laid-out clock is the whole run of whitespace at `i`. */
  lemma ClockGapLaid(s: string, i: nat, g1: string, hv: nat, hw: Width, mv: nat, mw: Width, sv: nat, sw: Width, g2: string, m: string)
    requires hv < 100 && mv < 100 && sv < 100
    requires IsGap(g1) && IsGap(g2) && |m| == 2 && !Text.IsSpace(m[0])
    requires ClockLaid(s, i, g1, hv, hw, mv, mw, sv, sw, g2, m)
    ensures i + |g1| < |s| && SpaceRun(s, i) == |g1|
  {
    var a := i + |g1|;
    assert s[a] == Short(hv, hw)[0];
    GapAt(s, i, g1);
  }

  /** The time of a laid-out clock, and what follows it to the end. */
  lemma ClockTimeLaid(s: string, i: nat, g1: string, hv: nat, hw: Width, mv: nat, mw: Width, sv: nat, sw: Width, g2: string, m: string)
    requires hv < 100 && mv < 100 && sv < 100
    requires IsGap(g1) && IsGap(g2) && |m| == 2 && !Text.IsSpace(m[0])
    requires ClockLaid(s, i, g1, hv, hw, mv, mw, sv, sw, g2, m)
    ensures TimeLaid(s, i + |g1|, hv, hw, mv, mw, sv, sw)
  {
    var e := i + |g1| + ShortLength(hv, hw) + ShortLength(mv, mw) + ShortLength(sv, sw) + 2;
    assert s[e] == g2[0];
  }

  /** What follows the time of a laid-out clock, from `e` to the end. */
  lemma ClockTailLaid(s: string, i: nat, g1: string, hv: nat, hw: Width, mv: nat, mw: Width, sv: nat, sw: Width, g2: string, m: string, p: nat, q: nat, e: nat)
    requires hv < 100 && mv < 100 && sv < 100 && |m| == 2
    requires ClockLaid(s, i, g1, hv, hw, mv, mw, sv, sw, g2, m)
    requires p == i + |g1| + ShortLength(hv, hw) && q == p + 1 + ShortLength(mv, mw) && e == q + 1 + ShortLength(sv, sw)
    ensures |s| == e + |g2| + 2 && s[e..e + |g2|] == g2 && s[e + |g2|..] == m
  {
  }

  /** Where each piece of the clock of a spelling sits. */
  lemma ClockPieces(r: Raw, l: Layout)
    requires Writable(r)
    ensures ClockLaid(Spell(r, l), |DateText(r, l)|, l.gap1, r.hour12, l.hour, r.minute, l.minute, r.second, l.second, l.gap2, r.marker)
  {
    ClockTextLaid(Spell(r, l), DateText(r, l), ClockText(r, l), l.gap1, r.hour12, l.hour, r.minute, l.minute, r.second, l.second, l.gap2, r.marker);
  }

  /** The same, for any text before the clock. */
  lemma ClockTextLaid(s: string, pre: string, clock: string, g1: string, hv: nat, hw: Width, mv: nat, mw: Width, sv: nat, sw: Width, g2: string, m: string)
    requires hv < 100 && mv < 100 && sv < 100
    requires s == pre + clock && clock == g1 + Short(hv, hw) + ":" + Short(mv, mw) + ":" + Short(sv, sw) + g2 + m
    ensures ClockLaid(s, |pre|, g1, hv, hw, mv, mw, sv, sw, g2, m)
  {
    ClockCuts(s, pre, clock, g1, Short(hv, hw), Short(mv, mw), Short(sv, sw), g2, m);
  }

  /** The clock of a spelling, read from the end of the date: read back when
      hour, minute and second are in range and the marker is AM or PM. */
  lemma ScanClockSpell(r: Raw, l: Layout)
    requires Writable(r) && LayoutOk(l)
    ensures ScanClock(Spell(r, l), |DateText(r, l)|) ==
      if 1 <= r.hour12 <= 12 && r.minute <= 59 && r.second <= 61 && IsMarker(r.marker)
      then Some(ClockPart(r.hour12, r.minute, r.second, Lower(r.marker[0]) == 'p'))
      else None
  {
    ClockPieces(r, l);
    ClockAt(Spell(r, l), |DateText(r, l)|, l.gap1, r.hour12, l.hour, r.minute, l.minute, r.second, l.second, l.gap2, r.marker);
  }

  /** Every spelling scans to the values written when the regular expression
      admits them all, and fails to match otherwise. */
  lemma ScanSpell(r: Raw, l: Layout)
    requires Writable(r) && LayoutOk(l)
    ensures Scan(Spell(r, l)) == if Admits(r) then Some(Captured(r)) else None
  {
    ScanDateSpell(r, l);
    ScanClockSpell(r, l);
  }

  /** The date-time a spelling names: 12 AM is hour 0, 12 PM is hour 12. */
  function Meaning(r: Raw): (t: DateTime)
    requires Writable(r) && Admits(r)
    ensures t.hour == To24(r.hour12, Lower(r.marker[0]) == 'p')
  {
    DateTime(r.year, r.month, r.day, To24(r.hour12, Lower(r.marker[0]) == 'p'), r.minute, r.second)
  }

  /** A spelling parses exactly when the regular expression admits every
      field and the values form a real calendar date-time, and then it is
      the date-time written: a month or hour outside 1..12, a day outside
      1..31 or past the end of its month, a minute or second of 60 or more,
      year 0 or a marker other than AM/PM fails the value. */
  lemma ParseSpell(r: Raw, l: Layout)
    requires Writable(r) && LayoutOk(l)
    ensures ParseTimestamp(Spell(r, l)) == if Admits(r) && ValidDateTime(Meaning(r)) then Some(Meaning(r)) else None
  {
    ScanSpell(r, l);
  }

  // ---------------------------------------------------------------------------
  // Every accepted string is a spelling

  /** The width a field was written in, read off its length. */
  function WidthOf(n: nat): Width {
    if n == 1 then Narrow else Wide
  }

  /** A short field `ShortField` accepts is the spelling of its value. */
  lemma ShortFieldSpelled(s: string, i: nat, lo: nat, hi: nat)
    requires i <= |s| && ShortField(s, i, lo, hi).Some? && hi < 100
    ensures var k := ShortField(s, i, lo, hi).value;
      s[i..k.next] == Short(k.value, WidthOf(k.next - i))
  {
    var k := ShortField(s, i, lo, hi).value;
    var t := s[i..k.next];
    if |t| == 1 {
      NumberBound(t);
      assert t[..0] == [];
      assert t == [DigitChar(k.value)];
    } else {
      NumberOfTwo(t);
      assert t == [DigitChar(k.value / 10), DigitChar(k.value % 10)];
    }
  }

  /** The same, for a token already named, with the width it was written in. */
  lemma ShortPiece(s: string, i: nat, lo: nat, hi: nat, k: Token) returns (w: Width)
    requires i <= |s| && hi < 100 && ShortField(s, i, lo, hi) == Some(k)
    ensures i < k.next <= |s| && k.value < 100 && s[i..k.next] == Short(k.value, w)
  {
    ShortFieldSpelled(s, i, lo, hi);
    w := WidthOf(k.next - i);
  }

  /** The form of the day `DayField` accepted, read off the string. */
  function DayWidthOf(s: string, i: nat, n: nat): DayWidth
    requires i < |s|
  {
    if s[i] == ' ' then DayPadded else if n == 1 then DayNarrow else DayWide
  }

  lemma DayFieldSpelled(s: string, i: nat)
    requires i <= |s| && DayField(s, i).Some?
    ensures var k := DayField(s, i).value;
      i < |s| && s[i..k.next] == Day(k.value, DayWidthOf(s, i, k.next - i))
  {
    var k := DayField(s, i).value;
    if i + 1 < |s| && s[i] == ' ' && IsDigit(s[i + 1]) && DigitRun(s, i + 1) == 1 && DigitValue(s[i + 1]) >= 1 {
      assert s[i..k.next] == [' ', DigitChar(k.value)];
    } else {
      ShortFieldSpelled(s, i, 1, 31);
      assert DigitRun(s, i) >= 1;
    }
  }

  /** The same, for a day token already named. */
  lemma DayPiece(s: string, i: nat, k: Token) returns (w: DayWidth)
    requires i <= |s| && DayField(s, i) == Some(k)
    ensures i < k.next <= |s| && k.value < 100 && s[i..k.next] == Day(k.value, w)
  {
    DayFieldSpelled(s, i);
    w := DayWidthOf(s, i, k.next - i);
  }

  /** A digit is the character of its own value. */
  lemma DigitCharValue(c: char)
    requires IsDigit(c)
    ensures DigitChar(DigitValue(c)) == c
  {
  }

  /** Four digits are the spelling of the year they are worth. */
  lemma Year4Of(t: string)
    requires |t| == 4 && AllDigits(t)
    ensures Number(t) < 10000 && Year4(Number(t)) == t
  {
    NumberOfFour(t);
    NumberOfTwo(t[..2]);
    var a, b, c, d := DigitValue(t[0]), DigitValue(t[1]), DigitValue(t[2]), DigitValue(t[3]);
    var v := Number(t);
    assert t[..2][0] == t[0] && t[..2][1] == t[1];
    assert v == (a * 10 + b) * 100 + c * 10 + d;
    assert v / 100 == a * 10 + b && v % 100 == c * 10 + d;
    assert (a * 10 + b) / 10 == a && (a * 10 + b) % 10 == b;
    assert (c * 10 + d) / 10 == c && (c * 10 + d) % 10 == d;
    DigitCharValue(t[0]);
    DigitCharValue(t[1]);
    DigitCharValue(t[2]);
    DigitCharValue(t[3]);
  }

  lemma YearFieldSpelled(s: string, i: nat)
    requires i <= |s| && YearField(s, i).Some?
    ensures var k := YearField(s, i).value;
      k.value < 10000 && s[i..k.next] == Year4(k.value)
  {
    DigitRunSpan(s, i);
    var t := s[i..i + 4];
    assert AllDigits(t) by {
      forall k | 0 <= k < 4 ensures IsDigit(t[k]) {
        assert t[k] == s[i + k];
      }
    }
    Year4Of(t);
  }

  /** The same, for a year token already named. */
  lemma YearPiece(s: string, i: nat, k: Token)
    requires i <= |s| && YearField(s, i) == Some(k)
    ensures k.next == i + 4 <= |s| && k.value < 10000 && s[i..k.next] == Year4(k.value)
  {
    YearFieldSpelled(s, i);
  }

  /** What a successful `ScanDate` read, field by field. */
  lemma ScanDateParts(s: string) returns (m: Token, d: Token, y: Token)
    requires ScanDate(s).Some?
    ensures ShortField(s, 0, 1, 12) == Some(m) && m.next < |s| && s[m.next] == '/'
    ensures DayField(s, m.next + 1) == Some(d) && d.next < |s| && s[d.next] == '/'
    ensures YearField(s, d.next + 1) == Some(y)
    ensures ScanDate(s).value == DatePart(m.value, d.value, y.value, y.next)
  {
    m := ShortField(s, 0, 1, 12).value;
    d := DayField(s, m.next + 1).value;
    y := YearField(s, d.next + 1).value;
  }

  /** Three pieces and the two separators `c` between them, put back together. */
  lemma Join3(s: string, i: nat, a: nat, b: nat, e: nat, c: char, x: string, y: string, z: string)
    requires i <= a < b < e <= |s| && s[a] == c && s[b] == c
    requires s[i..a] == x && s[a + 1..b] == y && s[b + 1..e] == z
    ensures s[i..e] == x + [c] + y + [c] + z
  {
    JoinAt(s, a + 1, b, e, c, y, z);
    JoinAt(s, i, a, e, c, x, y + [c] + z);
    assert x + [c] + (y + [c] + z) == x + [c] + y + [c] + z;
  }

  /** A piece, a separator `c` and another piece, put back together. */
  lemma JoinAt(s: string, i: nat, a: nat, e: nat, c: char, x: string, w: string)
    requires i <= a < e <= |s| && s[a] == c && s[i..a] == x && s[a + 1..e] == w
    ensures s[i..e] == x + [c] + w
  {
    assert s[i..e] == s[i..a] + [s[a]] + s[a + 1..e];
  }

  /** The layout of the date part `ScanDate` read. */
  lemma ScanDateSpelled(s: string) returns (mw: Width, dw: DayWidth)
    requires ScanDate(s).Some?
    ensures var p := ScanDate(s).value;
      p.month < 100 && p.day < 100 && p.year < 10000
      && s[..p.next] == Short(p.month, mw) + "/" + Day(p.day, dw) + "/" + Year4(p.year)
  {
    var m, d, y := ScanDateParts(s);
    mw, dw := DateSpelled(s, m, d, y);
  }

  /** The three date fields read one after the other, with `/` between them,
      are the spelling of their values. */
  lemma DateSpelled(s: string, m: Token, d: Token, y: Token) returns (mw: Width, dw: DayWidth)
    requires ShortField(s, 0, 1, 12) == Some(m) && m.next < |s| && s[m.next] == '/'
    requires DayField(s, m.next + 1) == Some(d) && d.next < |s| && s[d.next] == '/'
    requires YearField(s, d.next + 1) == Some(y)
    ensures m.value < 100 && d.value < 100 && y.value < 10000
    ensures s[..y.next] == Short(m.value, mw) + "/" + Day(d.value, dw) + "/" + Year4(y.value)
  {
    mw := ShortPiece(s, 0, 1, 12, m);
    dw := DayPiece(s, m.next + 1, d);
    YearPiece(s, d.next + 1, y);
    Join3(s, 0, m.next, d.next, y.next, '/', Short(m.value, mw), Day(d.value, dw), Year4(y.value));
    assert s[..y.next] == s[0..y.next];
  }

  /** What a successful `ScanTime` read, field by field. */
  lemma ScanTimeParts(s: string, a: nat) returns (h: Token, mi: Token, se: Token)
    requires a <= |s| && ScanTime(s, a).Some?
    ensures ShortField(s, a, 1, 12) == Some(h) && h.next < |s| && s[h.next] == ':'
    ensures ShortField(s, h.next + 1, 0, 59) == Some(mi) && mi.next < |s| && s[mi.next] == ':'
    ensures ShortField(s, mi.next + 1, 0, 61) == Some(se)
    ensures ScanTime(s, a).value == TimePart(h.value, mi.value, se.value, se.next)
  {
    h := ShortField(s, a, 1, 12).value;
    mi := ShortField(s, h.next + 1, 0, 59).value;
    se := ShortField(s, mi.next + 1, 0, 61).value;
  }

  /** The widths of the time `ScanTime` read. */
  lemma ScanTimeSpelled(s: string, a: nat) returns (hw: Width, mw: Width, sw: Width)
    requires a <= |s| && ScanTime(s, a).Some?
    ensures var t := ScanTime(s, a).value;
      && t.hour12 < 100 && t.minute < 100 && t.second < 100
      && s[a..t.next] == Short(t.hour12, hw) + ":" + Short(t.minute, mw) + ":" + Short(t.second, sw)
  {
    var h, mi, se := ScanTimeParts(s, a);
    hw, mw, sw := TimeSpelled(s, a, h, mi, se);
  }

  /** The three time fields read one after the other from `a`, with `:`
      between them, are the spelling of their values. */
  lemma TimeSpelled(s: string, a: nat, h: Token, mi: Token, se: Token) returns (hw: Width, mw: Width, sw: Width)
    requires a <= |s|
    requires ShortField(s, a, 1, 12) == Some(h) && h.next < |s| && s[h.next] == ':'
    requires ShortField(s, h.next + 1, 0, 59) == Some(mi) && mi.next < |s| && s[mi.next] == ':'
    requires ShortField(s, mi.next + 1, 0, 61) == Some(se)
    ensures h.value < 100 && mi.value < 100 && se.value < 100
    ensures s[a..se.next] == Short(h.value, hw) + ":" + Short(mi.value, mw) + ":" + Short(se.value, sw)
  {
    hw := ShortPiece(s, a, 1, 12, h);
    mw := ShortPiece(s, h.next + 1, 0, 59, mi);
    sw := ShortPiece(s, mi.next + 1, 0, 61, se);
    Join3(s, a, h.next, mi.next, se.next, ':', Short(h.value, hw), Short(mi.value, mw), Short(se.value, sw));
  }

  /** The gap and the marker `ScanMarker` read, up to the end of the string. */
  lemma ScanMarkerSpelled(s: string, e: nat) returns (g: string, m: string)
    requires e <= |s| && ScanMarker(s, e).Some?
    ensures IsGap(g) && IsMarker(m) && !Text.IsSpace(m[0]) && s[e..] == g + m
    ensures ScanMarker(s, e).value <==> Lower(m[0]) == 'p'
  {
    var n := SpaceRun(s, e);
    SpaceRunSpan(s, e);
    g, m := s[e..e + n], s[e + n..];
    assert s[e..] == g + m;
    assert m[0] == s[e + n] && m[1] == s[e + n + 1];
    forall k | 0 <= k < |g| ensures Text.IsSpace(g[k]) {
      assert g[k] == s[e + k];
    }
  }

  /** What a successful `ScanClock` read: a gap of `n`, a time, a marker. */
  lemma ScanClockParts(s: string, i: nat) returns (n: nat, t: TimePart, pm: bool)
    requires i <= |s| && ScanClock(s, i).Some?
    ensures n == SpaceRun(s, i) && n > 0 && i + n <= |s|
    ensures ScanTime(s, i + n) == Some(t) && t.next <= |s| && ScanMarker(s, t.next) == Some(pm)
    ensures ScanClock(s, i).value == ClockPart(t.hour12, t.minute, t.second, pm)
  {
    n := SpaceRun(s, i);
    t := ScanTime(s, i + n).value;
    pm := ScanMarker(s, t.next).value;
  }

  /** The whitespace `SpaceRun` measures, as a string. */
  lemma GapSpelled(s: string, i: nat) returns (g: string)
    requires i <= |s|
    ensures |g| == SpaceRun(s, i) && i + |g| <= |s| && s[i..i + |g|] == g && Text.AllSpace(g)
  {
    var n := SpaceRun(s, i);
    SpaceRunSpan(s, i);
    g := s[i..i + n];
    forall k | 0 <= k < |g| ensures Text.IsSpace(g[k]) {
      assert g[k] == s[i + k];
    }
  }

  /** A gap, a time and the rest, put back together. */
  lemma ClockJoin(s: string, i: nat, a: nat, e: nat, g1: string, h: string, mi: string, se: string, g2: string, m: string)
    requires i <= a <= e <= |s| && s[i..a] == g1 && s[a..e] == h + ":" + mi + ":" + se && s[e..] == g2 + m
    ensures s[i..] == g1 + h + ":" + mi + ":" + se + g2 + m
  {
    assert s[i..] == s[i..a] + s[a..e] + s[e..];
  }

  /** The layout of the clock part `ScanClock` read, with the marker it ends on. */
  lemma ScanClockSpelled(s: string, i: nat) returns (hw: Width, mw: Width, sw: Width, g1: string, g2: string, marker: string)
    requires i <= |s| && ScanClock(s, i).Some?
    ensures var c := ScanClock(s, i).value;
      && c.hour12 < 100 && c.minute < 100 && c.second < 100
      && IsGap(g1) && IsGap(g2) && IsMarker(marker) && !Text.IsSpace(marker[0]) && (c.pm <==> Lower(marker[0]) == 'p')
      && s[i..] == g1 + Short(c.hour12, hw) + ":" + Short(c.minute, mw) + ":" + Short(c.second, sw) + g2 + marker
  {
    var n, t, pm := ScanClockParts(s, i);
    hw, mw, sw, g1, g2, marker := ClockSpelled(s, i, n, t, pm);
  }

  /** A gap of `n`, the time `t` read after it and the marker read after the
      time are the spelling of their values, to the end of the string. */
  lemma ClockSpelled(s: string, i: nat, n: nat, t: TimePart, pm: bool) returns (hw: Width, mw: Width, sw: Width, g1: string, g2: string, marker: string)
    requires i + n <= |s| && n == SpaceRun(s, i) && n > 0
    requires ScanTime(s, i + n) == Some(t) && t.next <= |s| && ScanMarker(s, t.next) == Some(pm)
    ensures t.hour12 < 100 && t.minute < 100 && t.second < 100
    ensures IsGap(g1) && IsGap(g2) && IsMarker(marker) && !Text.IsSpace(marker[0]) && (pm <==> Lower(marker[0]) == 'p')
    ensures s[i..] == g1 + Short(t.hour12, hw) + ":" + Short(t.minute, mw) + ":" + Short(t.second, sw) + g2 + marker
  {
    var a := i + n;
    hw, mw, sw := ScanTimeSpelled(s, a);
    g2, marker := ScanMarkerSpelled(s, t.next);
    g1 := GapSpelled(s, i);
    ClockJoin(s, i, a, t.next, g1, Short(t.hour12, hw), Short(t.minute, mw), Short(t.second, sw), g2, marker);
  }

  /** What a successful `Scan` read: a date, then a clock from where it ends. */
  lemma ScanParts(s: string) returns (p: DatePart, c: ClockPart)
    requires Scan(s).Some?
    ensures ScanDate(s) == Some(p) && p.next <= |s| && ScanClock(s, p.next) == Some(c)
    ensures Scan(s).value == Fields(p.month, p.day, p.year, c.hour12, c.minute, c.second, c.pm)
  {
    p := ScanDate(s).value;
    c := ScanClock(s, p.next).value;
  }

  /** A string is its prefix followed by the rest. */
  lemma Join2(s: string, e: nat, x: string, y: string)
    requires e <= |s| && s[..e] == x && s[e..] == y
    ensures s == x + y
  {
    assert s == s[..e] + s[e..];
  }

  /** Every string `Scan` accepts is the spelling of the fields it captured,
      in some layout: the scanner reads nothing but spellings. */
  lemma SpellingOfScan(s: string) returns (r: Raw, l: Layout)
    requires Scan(s).Some?
    ensures Writable(r) && LayoutOk(l) && Admits(r)
    ensures s == Spell(r, l) && Scan(s) == Some(Captured(r))
  {
    var p, c := ScanParts(s);
    var mw, dw := ScanDateSpelled(s);
    var hw, iw, sw, g1, g2, marker := ScanClockSpelled(s, p.next);
    r := Raw(p.month, p.day, p.year, c.hour12, c.minute, c.second, marker);
    l := Layout(mw, dw, hw, iw, sw, g1, g2);
    Join2(s, p.next, DateText(r, l), ClockText(r, l));
  }

  /** Together: `Scan` accepts a string exactly when it spells fields the
      regular expression admits, and captures those fields. */
  lemma ScanIsSpelling(s: string, f: Fields)
    ensures Scan(s) == Some(f) <==>
      exists r: Raw, l: Layout :: Writable(r) && LayoutOk(l) && Admits(r) && s == Spell(r, l) && Captured(r) == f
  {
    if Scan(s) == Some(f) {
      var r, l := SpellingOfScan(s);
    }
    if exists r: Raw, l: Layout :: Writable(r) && LayoutOk(l) && Admits(r) && s == Spell(r, l) && Captured(r) == f {
      var r: Raw, l: Layout :| Writable(r) && LayoutOk(l) && Admits(r) && s == Spell(r, l) && Captured(r) == f;
      ScanSpell(r, l);
    }
  }

  /** `ParseTimestamp` accepts a string exactly when it spells fields the
      regular expression admits that form a real calendar date-time, and
      returns the date-time they name. */
  lemma ParseIsSpelling(s: string, t: DateTime)
    ensures ParseTimestamp(s) == Some(t) <==>
      exists r: Raw, l: Layout :: Writable(r) && LayoutOk(l) && Admits(r) && ValidDateTime(Meaning(r)) && s == Spell(r, l) && Meaning(r) == t
  {
    if ParseTimestamp(s) == Some(t) {
      var r, l := SpellingOfScan(s);
      ParseSpell(r, l);
    }
    if exists r: Raw, l: Layout :: Writable(r) && LayoutOk(l) && Admits(r) && ValidDateTime(Meaning(r)) && s == Spell(r, l) && Meaning(r) == t {
      var r: Raw, l: Layout :| Writable(r) && LayoutOk(l) && Admits(r) && ValidDateTime(Meaning(r)) && s == Spell(r, l) && Meaning(r) == t;
      ParseSpell(r, l);
    }
  }
}
