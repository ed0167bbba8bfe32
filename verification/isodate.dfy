/** Naive timestamps: Python's `datetime.isoformat()`, a restricted
    `datetime.fromisoformat`, and the instant on which datetimes are compared
    and shifted by a `timedelta`. */
module IsoDate {
  import opened Wrappers

  /** A naive `datetime` (no time zone). */
  datatype DateTime = DateTime(year: int, month: int, day: int,
                               hour: int, minute: int, second: int, microsecond: int)

  predicate IsLeapYear(y: int) {
    y % 4 == 0 && (y % 100 != 0 || y % 400 == 0)
  }

  function DaysInMonth(y: int, m: int): int
    requires 1 <= m <= 12
  {
    if m == 2 then (if IsLeapYear(y) then 29 else 28)
    else if m == 4 || m == 6 || m == 9 || m == 11 then 30
    else 31
  }

  /** The range a Python `datetime` can hold. */
  predicate Valid(t: DateTime) {
    && 1 <= t.year <= 9999
    && 1 <= t.month <= 12
    && 1 <= t.day <= DaysInMonth(t.year, t.month)
    && 0 <= t.hour < 24 && 0 <= t.minute < 60 && 0 <= t.second < 60
    && 0 <= t.microsecond < 1000000
  }

  // ---------------------------------------------------------------------
  // Decimal digits.

  predicate IsDigit(c: char) { '0' <= c <= '9' }

  predicate AllDigits(s: string) {
    forall i :: 0 <= i < |s| ==> IsDigit(s[i])
  }

  function Pow10(k: nat): (p: nat)
    ensures p >= 1
  {
    if k == 0 then 1 else 10 * Pow10(k - 1)
  }

  /** The number a string of decimal digits denotes. */
  function DigitsValue(s: string): (n: nat)
    requires AllDigits(s)
    ensures n < Pow10(|s|)
  {
    if s == [] then 0
    else DigitsValue(s[..|s| - 1]) * 10 + (s[|s| - 1] as int - '0' as int)
  }

  /** `n` written with exactly `width` digits, zero-padded (`'%0*d'`). */
  function Pad(n: nat, width: nat): (s: string)
    requires n < Pow10(width)
    ensures |s| == width && AllDigits(s)
  {
    if width == 0 then []
    else
      DropLastDigit(n, Pow10(width - 1));
      Pad(n / 10, width - 1) + [('0' as int + n % 10) as char]
  }

  /** Reading back a padded number gives the number. */
  lemma {:induction false} PadValue(n: nat, width: nat)
    requires n < Pow10(width)
    ensures DigitsValue(Pad(n, width)) == n
  {
    if width > 0 {
      DropLastDigit(n, Pow10(width - 1));
      PadValue(n / 10, width - 1);
      var s := Pad(n, width);
      assert s[..|s| - 1] == Pad(n / 10, width - 1);
    }
  }

  /** Dropping the last decimal digit of a number below `10 * p`. */
  lemma DropLastDigit(n: nat, p: nat)
    requires n < 10 * p
    ensures n / 10 < p && (n / 10) * 10 + n % 10 == n && 0 <= n % 10 < 10
  {
  }

  // ---------------------------------------------------------------------
  // Formatting.

  /** `strftime('%Y-%m-%d')`, also the first ten characters of `isoformat()`. */
  function DateString(t: DateTime): (s: string)
    requires Valid(t)
    ensures |s| == 10 && s[4] == '-' && s[7] == '-'
    ensures AllDigits(s[..4]) && AllDigits(s[5..7]) && AllDigits(s[8..])
    ensures DigitsValue(s[..4]) == t.year && DigitsValue(s[5..7]) == t.month && DigitsValue(s[8..]) == t.day
  {
    var y, m, d := Pad(t.year, 4), Pad(t.month, 2), Pad(t.day, 2);
    PadValue(t.year, 4);
    PadValue(t.month, 2);
    PadValue(t.day, 2);
    DatePieces(y, m, d);
    y + "-" + m + "-" + d
  }

  /** Where the pieces of a `YYYY-MM-DD` string sit. */
  lemma DatePieces(y: string, m: string, d: string)
    requires |y| == 4 && |m| == 2 && |d| == 2
    ensures var s := y + "-" + m + "-" + d;
      |s| == 10 && s[..4] == y && s[4] == '-' && s[5..7] == m && s[7] == '-' && s[8..] == d
  {
    var s := y + "-" + m + "-" + d;
    assert s[..4] == y;
    assert s[5..7] == m;
    assert s[8..] == d;
  }

  /** The time part of `isoformat()`: `HH:MM:SS`, then `.ffffff` only when
      the microseconds are not zero. */
  function TimeString(t: DateTime): (s: string)
    requires Valid(t)
    ensures |s| == (if t.microsecond == 0 then 8 else 15)
  {
    Pad(t.hour, 2) + ":" + Pad(t.minute, 2) + ":" + Pad(t.second, 2)
    + (if t.microsecond == 0 then "" else "." + Pad(t.microsecond, 6))
  }

  /** The clock part `HH:MM:SS` of a time string, as `strftime('%H:%M:%S')`
      writes it. */
  lemma TimeStringClock(t: DateTime)
    requires Valid(t)
    ensures TimeString(t)[..8] == Pad(t.hour, 2) + ":" + Pad(t.minute, 2) + ":" + Pad(t.second, 2)
  {
    var clock := Pad(t.hour, 2) + ":" + Pad(t.minute, 2) + ":" + Pad(t.second, 2);
    assert |clock| == 8;
    assert TimeString(t) == clock + (if t.microsecond == 0 then "" else "." + Pad(t.microsecond, 6));
  }

  /** Characters 11 to 18 of `isoformat()` are the clock part. */
  lemma IsoFormatClock(t: DateTime)
    requires Valid(t)
    ensures |IsoFormat(t)| >= 19 && IsoFormat(t)[11..19] == TimeString(t)[..8]
  {
    var d, ts := DateString(t), TimeString(t);
    assert IsoFormat(t) == d + "T" + ts;
    assert (d + "T" + ts)[11..19] == ts[..8];
  }

  /** `datetime.isoformat()` of a naive datetime. */
  function IsoFormat(t: DateTime): (s: string)
    requires Valid(t)
    ensures |s| > 10 && s[..10] == DateString(t) && s[10] == 'T'
  {
    DateString(t) + "T" + TimeString(t)
  }

  // ---------------------------------------------------------------------
  // Parsing.

  /** The digits `s[i..j]` as a number, when they are all digits. */
  function NumberAt(s: string, i: nat, j: nat): (r: Option<nat>)
    requires i <= j <= |s|
    ensures r.Some? <==> AllDigits(s[i..j])
    ensures r.Some? ==> r.value == DigitsValue(s[i..j])
  {
    if AllDigits(s[i..j]) then Some(DigitsValue(s[i..j])) else None
  }

  /** `YYYY-MM-DD`. */
  function ParseDate(s: string): Option<(int, int, int)>
    requires |s| == 10
  {
    if s[4] != '-' || s[7] != '-' then None
    else match (NumberAt(s, 0, 4), NumberAt(s, 5, 7), NumberAt(s, 8, 10))
      case (Some(y), Some(m), Some(d)) => Some((y, m, d))
      case _ => None
  }

  /** `HH`, `HH:MM`, `HH:MM:SS`, `HH:MM:SS.fff` or `HH:MM:SS.ffffff`, giving
      hour, minute, second and microsecond (milliseconds scaled by 1000). */
  function ParseTime(s: string): Option<(int, int, int, int)>
  {
    if |s| != 2 && |s| != 5 && |s| != 8 && |s| != 12 && |s| != 15 then None
    else if |s| > 2 && (s[2] != ':' || (|s| > 5 && s[5] != ':') || (|s| > 8 && s[8] != '.')) then None
    else
      var h := NumberAt(s, 0, 2);
      var m := if |s| > 2 then NumberAt(s, 3, 5) else Some(0);
      var sec := if |s| > 5 then NumberAt(s, 6, 8) else Some(0);
      var us := if |s| == 15 then NumberAt(s, 9, 15)
                else if |s| == 12 then (match NumberAt(s, 9, 12) case Some(ms) => Some(ms * 1000) case None => None)
                else Some(0);
      if h.None? || m.None? || sec.None? || us.None? then None
      else Some((h.value, m.value, sec.value, us.value))
  }

  /** A UTC offset after its sign, `HH:MM` or `HH:MM:SS`, in seconds; Python
      refuses offsets of a whole day or more. */
  function ParseOffset(s: string): (r: Option<int>)
    ensures r.Some? ==> 0 <= r.value < 86400
  {
    if (|s| != 5 && |s| != 8) || s[2] != ':' || (|s| == 8 && s[5] != ':') then None
    else match (NumberAt(s, 0, 2), NumberAt(s, 3, 5), if |s| == 8 then NumberAt(s, 6, 8) else Some(0))
      case (Some(h), Some(m), Some(sec)) =>
        var total := h * 3600 + m * 60 + sec;
        if total < 86400 then Some(total) else None
      case _ => None
  }

  /** Index of the first `+` or `-` of `s`, or `|s|` when there is none. */
  function SignIndex(s: string): (k: nat)
    ensures k <= |s|
    ensures forall i :: 0 <= i < k ==> s[i] != '+' && s[i] != '-'
    ensures k < |s| ==> s[k] == '+' || s[k] == '-'
  {
    if s == [] || s[0] == '+' || s[0] == '-' then 0 else 1 + SignIndex(s[1..])
  }

  /** `datetime.fromisoformat(s).replace(tzinfo=None)`, for the grammar
      `YYYY-MM-DD[<any char>TIME[(+|-)OFFSET]]`; `None` where Python raises.
      A valid offset is checked and then dropped, not applied. */
  function FromIsoFormat(s: string): (r: Option<DateTime>)
    ensures r.Some? ==> Valid(r.value)
  {
    if |s| < 10 then None
    else match ParseDate(s[..10])
      case None => None
      case Some((y, mo, d)) =>
        if |s| == 10 then Checked(DateTime(y, mo, d, 0, 0, 0, 0))
        else WithTime(y, mo, d, s[11..])
  }

  /** The time and optional offset that follow the date and its separator. */
  function WithTime(y: int, mo: int, d: int, rest: string): (r: Option<DateTime>)
    ensures r.Some? ==> Valid(r.value)
  {
    var k := SignIndex(rest);
    if k < |rest| && ParseOffset(rest[k + 1..]).None? then None
    else match ParseTime(rest[..k])
      case None => None
      case Some((h, mi, sec, us)) => Checked(DateTime(y, mo, d, h, mi, sec, us))
  }

  /** Python's range check on the fields of a new datetime. */
  function Checked(t: DateTime): Option<DateTime> {
    if Valid(t) then Some(t) else None
  }

  // ---------------------------------------------------------------------
  // Instants: microseconds since 0001-01-01T00:00:00.

  const MicrosPerDay: int := 86400 * 1000000

  function DaysBeforeYear(y: int): int {
    var p := y - 1;
    365 * p + p / 4 - p / 100 + p / 400
  }

  /** Days of year `y` before the first of month `m`. */
  function DaysBeforeMonth(y: int, m: int): int
    requires 1 <= m <= 12
  {
    [0, 31, 59, 90, 120, 151, 181, 212, 243, 273, 304, 334][m - 1]
    + (if m > 2 && IsLeapYear(y) then 1 else 0)
  }

  /** Position of `t` on the time line; Python compares naive datetimes and
      subtracts `timedelta`s on this scale. */
  function Instant(t: DateTime): int
    requires 1 <= t.month <= 12
  {
    var days := DaysBeforeYear(t.year) + DaysBeforeMonth(t.year, t.month) + t.day - 1;
    (((days * 24 + t.hour) * 60 + t.minute) * 60 + t.second) * 1000000 + t.microsecond
  }

  const MaxDateTime: DateTime := DateTime(9999, 12, 31, 23, 59, 59, 999999)

  /** `now - timedelta(days=days)` as an instant; `None` where Python raises
      `OverflowError` (more than 999999999 days, or a result outside years
      1 to 9999). */
  function Cutoff(now: DateTime, days: int): (c: Option<int>)
    requires Valid(now)
    ensures c.Some? ==> c.value == Instant(now) - days * MicrosPerDay
    ensures c.Some? <==> -999999999 <= days <= 999999999
                         && 0 <= Instant(now) - days * MicrosPerDay <= Instant(MaxDateTime)
  {
    if days < -999999999 || days > 999999999 then None
    else
      var c := Instant(now) - days * MicrosPerDay;
      if 0 <= c <= Instant(MaxDateTime) then Some(c) else None
  }

  // ---------------------------------------------------------------------
  // Lemmas.

  lemma DigitsOfPadding(s: string, i: nat, j: nat, n: nat, w: nat)
    requires n < Pow10(w) && i + w == j <= |s| && s[i..j] == Pad(n, w)
    ensures NumberAt(s, i, j) == Some(n)
  {
    PadValue(n, w);
  }

  /** A date string, any separator, then a time that parses and an
      acceptable offset, parses to the datetime. */
  lemma DateStringParses(t: DateTime)
    requires Valid(t)
    ensures ParseDate(DateString(t)) == Some((t.year, t.month, t.day))
  {
    var ds := DateString(t);
    DateStringPieces(t);
    DigitsOfPadding(ds, 0, 4, t.year, 4);
    DigitsOfPadding(ds, 5, 7, t.month, 2);
    DigitsOfPadding(ds, 8, 10, t.day, 2);
  }

  /** Where each field of `DateString` sits. */
  lemma DateStringPieces(t: DateTime)
    requires Valid(t)
    ensures var ds := DateString(t);
      && ds[0..4] == Pad(t.year, 4) && ds[4] == '-'
      && ds[5..7] == Pad(t.month, 2) && ds[7] == '-'
      && ds[8..10] == Pad(t.day, 2)
  {
  }

  lemma FromIsoFormatOf(t: DateTime, rest: string)
    requires Valid(t)
    requires ParseTime(rest[..SignIndex(rest)]) == Some((t.hour, t.minute, t.second, t.microsecond))
    requires SignIndex(rest) == |rest| || ParseOffset(rest[SignIndex(rest) + 1..]).Some?
    ensures FromIsoFormat(DateString(t) + "T" + rest) == Some(t)
  {
    var ds := DateString(t);
    var s := ds + "T" + rest;
    Pieces(ds, "T", rest);
    DateStringParses(t);
    assert WithTime(t.year, t.month, t.day, rest) == Some(t);
    FromIsoFormatWithTime(s, t.year, t.month, t.day);
  }

  lemma Pieces<T>(a: seq<T>, b: seq<T>, c: seq<T>)
    ensures (a + b + c)[..|a|] == a && (a + b + c)[|a| + |b|..] == c
  {
  }

  lemma FromIsoFormatWithTime(s: string, y: int, mo: int, d: int)
    requires |s| > 10 && ParseDate(s[..10]) == Some((y, mo, d))
    ensures FromIsoFormat(s) == WithTime(y, mo, d, s[11..])
  {
  }

  /** `fromisoformat` reads back what `isoformat` writes. */
  lemma FromIsoFormatRoundTrip(t: DateTime)
    requires Valid(t)
    ensures FromIsoFormat(IsoFormat(t)) == Some(t)
  {
    var ts := TimeString(t);
    TimeStringParses(t);
    assert ts[..|ts|] == ts;
    FromIsoFormatOf(t, ts);
  }

  /** The time part of `isoformat` has no sign and parses back. */
  lemma TimeStringParses(t: DateTime)
    requires Valid(t)
    ensures SignIndex(TimeString(t)) == |TimeString(t)|
    ensures ParseTime(TimeString(t)) == Some((t.hour, t.minute, t.second, t.microsecond))
  {
    var ts := TimeString(t);
    TimeStringPieces(t);
    TimeStringHasNoSign(t);
    DigitsOfPadding(ts, 0, 2, t.hour, 2);
    DigitsOfPadding(ts, 3, 5, t.minute, 2);
    DigitsOfPadding(ts, 6, 8, t.second, 2);
    if t.microsecond != 0 {
      DigitsOfPadding(ts, 9, 15, t.microsecond, 6);
      ParseLongTime(ts, t.hour, t.minute, t.second, t.microsecond);
    } else {
      ParseShortTime(ts, t.hour, t.minute, t.second);
    }
  }

  /** `HH:MM:SS` parses to its three numbers. */
  lemma ParseShortTime(s: string, h: nat, m: nat, sec: nat)
    requires |s| == 8 && s[2] == ':' && s[5] == ':'
    requires NumberAt(s, 0, 2) == Some(h) && NumberAt(s, 3, 5) == Some(m) && NumberAt(s, 6, 8) == Some(sec)
    ensures ParseTime(s) == Some((h, m, sec, 0))
  {
  }

  /** `HH:MM:SS.ffffff` parses to its four numbers. */
  lemma ParseLongTime(s: string, h: nat, m: nat, sec: nat, us: nat)
    requires |s| == 15 && s[2] == ':' && s[5] == ':' && s[8] == '.'
    requires NumberAt(s, 0, 2) == Some(h) && NumberAt(s, 3, 5) == Some(m) && NumberAt(s, 6, 8) == Some(sec)
    requires NumberAt(s, 9, 15) == Some(us)
    ensures ParseTime(s) == Some((h, m, sec, us))
  {
  }

  /** Where each field of `TimeString` sits. */
  lemma TimeStringPieces(t: DateTime)
    requires Valid(t)
    ensures var ts := TimeString(t);
      && ts[0..2] == Pad(t.hour, 2) && ts[2] == ':'
      && ts[3..5] == Pad(t.minute, 2) && ts[5] == ':'
      && ts[6..8] == Pad(t.second, 2)
      && (t.microsecond != 0 ==> ts[8] == '.' && ts[9..15] == Pad(t.microsecond, 6))
  {
  }

  /** `TimeString` holds digits, colons and a dot, but no sign. */
  lemma TimeStringHasNoSign(t: DateTime)
    requires Valid(t)
    ensures SignIndex(TimeString(t)) == |TimeString(t)|
  {
    var ts := TimeString(t);
    TimeStringPieces(t);
    forall i | 0 <= i < |ts| ensures ts[i] != '+' && ts[i] != '-' {
      if i < 2 {
        assert ts[i] == ts[0..2][i];
      } else if 2 < i < 5 {
        assert ts[i] == ts[3..5][i - 3];
      } else if 5 < i < 8 {
        assert ts[i] == ts[6..8][i - 6];
      } else if 8 < i {
        assert ts[i] == ts[9..15][i - 9];
      }
    }
  }

  /** Offsets are checked, then dropped: the wall-clock fields are kept. */
  lemma FromIsoFormatDropsOffset(t: DateTime, sign: char, h: nat, m: nat)
    requires Valid(t) && (sign == '+' || sign == '-')
    requires h < 100 && m < 100 && h * 3600 + m * 60 < 86400
    ensures FromIsoFormat(IsoFormat(t) + [sign] + Pad(h, 2) + ":" + Pad(m, 2)) == Some(t)
  {
    var z := Pad(h, 2) + ":" + Pad(m, 2);
    var ts := TimeString(t);
    var rest := ts + [sign] + z;
    Regroup(DateString(t), ts, [sign], Pad(h, 2), Pad(m, 2));
    TimeStringParses(t);
    Pieces(ts, [sign], z);
    SignIndexAfter(ts, [sign] + z);
    OffsetParses(h, m);
    FromIsoFormatOf(t, rest);
  }

  lemma Regroup(ds: string, ts: string, sign: string, p: string, q: string)
    ensures ds + "T" + ts + sign + p + ":" + q == ds + "T" + (ts + sign + (p + ":" + q))
    ensures ts + sign + (p + ":" + q) == ts + (sign + (p + ":" + q))
  {
  }

  lemma OffsetParses(h: nat, m: nat)
    requires h < 100 && m < 100 && h * 3600 + m * 60 < 86400
    ensures ParseOffset(Pad(h, 2) + ":" + Pad(m, 2)) == Some(h * 3600 + m * 60)
  {
    var z := Pad(h, 2) + ":" + Pad(m, 2);
    Pieces(Pad(h, 2), ":", Pad(m, 2));
    DigitsOfPadding(z, 0, 2, h, 2);
    DigitsOfPadding(z, 3, 5, m, 2);
  }

  lemma {:induction false} SignIndexAfter(a: string, b: string)
    requires SignIndex(a) == |a| && b != [] && (b[0] == '+' || b[0] == '-')
    ensures SignIndex(a + b) == |a|
  {
    if a != [] {
      assert a[0] != '+' && a[0] != '-';
      assert (a + b)[1..] == a[1..] + b;
      SignIndexAfter(a[1..], b);
    }
  }

  /** Python's ordering of naive datetimes: field by field. */
  predicate Before(a: DateTime, b: DateTime) {
    || a.year < b.year
    || (a.year == b.year && a.month < b.month)
    || (a.year == b.year && a.month == b.month && a.day < b.day)
    || (a.year == b.year && a.month == b.month && a.day == b.day && TimeOfDay(a) < TimeOfDay(b))
  }

  /** Microseconds since midnight. */
  function TimeOfDay(t: DateTime): int {
    ((t.hour * 60 + t.minute) * 60 + t.second) * 1000000 + t.microsecond
  }

  function Ordinal(t: DateTime): int
    requires 1 <= t.month <= 12
  {
    DaysBeforeYear(t.year) + DaysBeforeMonth(t.year, t.month) + t.day - 1
  }

  function DaysInYear(y: int): int {
    if IsLeapYear(y) then 366 else 365
  }

  lemma InstantSplit(t: DateTime)
    requires Valid(t)
    ensures Instant(t) == Ordinal(t) * MicrosPerDay + TimeOfDay(t)
    ensures 0 <= TimeOfDay(t) < MicrosPerDay
  {
  }

  /** The time-of-day order is the field order of hour, minute, second and
      microsecond. */
  lemma TimeOfDayOrder(a: DateTime, b: DateTime)
    requires Valid(a) && Valid(b)
    ensures TimeOfDay(a) == TimeOfDay(b) <==>
      a.hour == b.hour && a.minute == b.minute && a.second == b.second && a.microsecond == b.microsecond
  {
  }

  lemma DaysBeforeYearStep(y: int)
    ensures DaysBeforeYear(y + 1) == DaysBeforeYear(y) + DaysInYear(y)
  {
    LeapDivisions(y);
  }

  /** How the counts of multiples of 4, 100 and 400 grow from `y - 1` to `y`. */
  lemma LeapDivisions(y: int)
    ensures y / 4 == (y - 1) / 4 + (if y % 4 == 0 then 1 else 0)
    ensures y / 100 == (y - 1) / 100 + (if y % 100 == 0 then 1 else 0)
    ensures y / 400 == (y - 1) / 400 + (if y % 400 == 0 then 1 else 0)
  {
  }

  lemma {:induction false} DaysBeforeYearMonotone(y1: int, y2: int)
    requires y1 < y2
    ensures DaysBeforeYear(y1) + DaysInYear(y1) <= DaysBeforeYear(y2)
    decreases y2 - y1
  {
    DaysBeforeYearStep(y1);
    if y1 + 1 < y2 {
      DaysBeforeYearMonotone(y1 + 1, y2);
    }
  }

  /** Month `m` ends where month `m + 1` starts, and December ends the year. */
  lemma DaysBeforeMonthStep(y: int, m: int)
    requires 1 <= m <= 12
    ensures m < 12 ==> DaysBeforeMonth(y, m) + DaysInMonth(y, m) == DaysBeforeMonth(y, m + 1)
    ensures m == 12 ==> DaysBeforeMonth(y, m) + DaysInMonth(y, m) == DaysInYear(y)
  {
  }

  lemma {:induction false} DaysBeforeMonthMonotone(y: int, m1: int, m2: int)
    requires 1 <= m1 < m2 <= 12
    ensures DaysBeforeMonth(y, m1) + DaysInMonth(y, m1) <= DaysBeforeMonth(y, m2)
    decreases m2 - m1
  {
    DaysBeforeMonthStep(y, m1);
    if m1 + 1 < m2 {
      DaysBeforeMonthStep(y, m1 + 1);
      DaysBeforeMonthMonotone(y, m1 + 1, m2);
    }
  }

  lemma DaysBeforeMonthInYear(y: int, m: int)
    requires 1 <= m <= 12
    ensures DaysBeforeMonth(y, m) + DaysInMonth(y, m) <= DaysInYear(y)
  {
    DaysBeforeMonthStep(y, 12);
    if m < 12 {
      DaysBeforeMonthMonotone(y, m, 12);
    }
  }

  /** A datetime before another one lies earlier on the time line. */
  lemma {:induction false} InstantMonotone(a: DateTime, b: DateTime)
    requires Valid(a) && Valid(b) && Before(a, b)
    ensures Instant(a) < Instant(b)
  {
    InstantSplit(a);
    InstantSplit(b);
    if a.year < b.year {
      DaysBeforeMonthInYear(a.year, a.month);
      DaysBeforeYearMonotone(a.year, b.year);
      assert Ordinal(a) < Ordinal(b);
    } else if a.month < b.month {
      assert a.year == b.year;
      DaysBeforeMonthMonotone(a.year, a.month, b.month);
      assert Ordinal(a) < Ordinal(b);
    }
  }

  /** Comparing instants is comparing datetimes the way Python does, and
      distinct datetimes have distinct instants. */
  lemma InstantOrder(a: DateTime, b: DateTime)
    requires Valid(a) && Valid(b)
    ensures Instant(a) < Instant(b) <==> Before(a, b)
    ensures Instant(a) == Instant(b) <==> a == b
  {
    if Before(a, b) {
      InstantMonotone(a, b);
    } else if Before(b, a) {
      InstantMonotone(b, a);
    } else {
      TimeOfDayOrder(a, b);
    }
  }

  /** Every valid datetime lies between the first and the last one. */
  lemma InstantRange(t: DateTime)
    requires Valid(t)
    ensures 0 <= Instant(t) <= Instant(MaxDateTime)
  {
    InstantSplit(t);
    InstantSplit(MaxDateTime);
    DaysBeforeMonthInYear(t.year, t.month);
    if t.year < 9999 {
      DaysBeforeYearMonotone(t.year, 9999);
    } else if t.month < 12 {
      DaysBeforeMonthMonotone(t.year, t.month, 12);
    }
    assert Ordinal(t) <= Ordinal(MaxDateTime);
  }
}
