/** Event timestamps: the two `strptime` formats the parser accepts
    (`%Y-%m-%dT%H:%M:%S.%f`, then `%Y-%m-%dT%H:%M:%S`), the calendar checks
    `datetime` applies to what they match, and the conversion of a date and
    time to a whole number of microseconds, which is what the parser's
    timedelta arithmetic works with. */
module Timestamp {
  import opened Wrappers

  datatype DateTime = DateTime(year: int, month: int, day: int,
                               hour: int, minute: int, second: int, micro: int)

  const MicrosPerSecond: int := 1000000
  const SecondsPerDay: int := 86400

  predicate IsLeap(y: int) {
    y % 4 == 0 && (y % 100 != 0 || y % 400 == 0)
  }

  function DaysInMonth(y: int, m: int): int {
    if m == 2 then (if IsLeap(y) then 29 else 28)
    else if m == 4 || m == 6 || m == 9 || m == 11 then 30
    else 31
  }

  /** The ranges `datetime` enforces: years 1..9999 and a real calendar day. */
  predicate Valid(dt: DateTime) {
    && 1 <= dt.year <= 9999
    && 1 <= dt.month <= 12
    && 1 <= dt.day <= DaysInMonth(dt.year, dt.month)
    && 0 <= dt.hour < 24
    && 0 <= dt.minute < 60
    && 0 <= dt.second < 60
    && 0 <= dt.micro < MicrosPerSecond
  }

  /** Days from 0001-01-01 to January 1st of year `y` (proleptic Gregorian). */
  function DaysBeforeYear(y: int): int
    requires y >= 1
  {
    var p := y - 1;
    365 * p + p / 4 - p / 100 + p / 400
  }

  /** Days from January 1st to the first day of month `m` of year `y`. */
  function DaysBeforeMonth(y: int, m: int): int
    requires 1 <= m <= 12
  {
    var base := match m
      case 1 => 0 case 2 => 31 case 3 => 59 case 4 => 90
      case 5 => 120 case 6 => 151 case 7 => 181 case 8 => 212
      case 9 => 243 case 10 => 273 case 11 => 304 case _ => 334;
    base + if m > 2 && IsLeap(y) then 1 else 0
  }

  /** Microseconds since 0001-01-01T00:00:00. The difference of two such
      values is exactly the microsecond count of the Python timedelta
      `a - b` (days, seconds and microseconds taken together). */
  function ToMicros(dt: DateTime): (r: int)
    requires Valid(dt)
    ensures r >= 0
  {
    var days := DaysBeforeYear(dt.year) + DaysBeforeMonth(dt.year, dt.month) + dt.day - 1;
    ((days * SecondsPerDay + dt.hour * 3600 + dt.minute * 60 + dt.second) * MicrosPerSecond) + dt.micro
  }

  // ---------------------------------------------------------------------
  // Order

  /** `a` is earlier than `b` as `datetime` compares them: field by field,
      from the year down to the microseconds. */
  predicate Before(a: DateTime, b: DateTime) {
    if a.year != b.year then a.year < b.year
    else if a.month != b.month then a.month < b.month
    else if a.day != b.day then a.day < b.day
    else if a.hour != b.hour then a.hour < b.hour
    else if a.minute != b.minute then a.minute < b.minute
    else if a.second != b.second then a.second < b.second
    else a.micro < b.micro
  }

  function DaysInYear(y: int): int {
    if IsLeap(y) then 366 else 365
  }

  /** Each year adds its own length to the days before it. */
  lemma DaysBeforeYearStep(y: int)
    requires y >= 1
    ensures DaysBeforeYear(y + 1) == DaysBeforeYear(y) + DaysInYear(y)
  {
    var p := y - 1;
    assert (p + 1) / 4 == p / 4 + (if y % 4 == 0 then 1 else 0);
    assert (p + 1) / 100 == p / 100 + (if y % 100 == 0 then 1 else 0);
    assert (p + 1) / 400 == p / 400 + (if y % 400 == 0 then 1 else 0);
  }

  /** The days before a later year include the whole of an earlier one. */
  lemma {:induction false} DaysBeforeYearGap(y: int, z: int)
    requires 1 <= y < z
    ensures DaysBeforeYear(y) + DaysInYear(y) <= DaysBeforeYear(z)
    decreases z - y
  {
    DaysBeforeYearStep(y);
    if y + 1 < z {
      DaysBeforeYearGap(y + 1, z);
    }
  }

  /** The days before a later month of the same year include the whole of
      an earlier one, and the last month ends the year. */
  lemma DaysBeforeMonthGap(y: int, m: int, n: int)
    requires 1 <= m <= 12 && 1 <= n <= 12
    ensures m < n ==> DaysBeforeMonth(y, m) + DaysInMonth(y, m) <= DaysBeforeMonth(y, n)
    ensures DaysBeforeMonth(y, m) + DaysInMonth(y, m) <= DaysInYear(y)
  {
  }

  /** Days from 0001-01-01 to the day of `dt`. */
  function DayNumber(dt: DateTime): int
    requires Valid(dt)
  {
    DaysBeforeYear(dt.year) + DaysBeforeMonth(dt.year, dt.month) + dt.day - 1
  }

  /** Seconds from midnight to the second of `dt`. */
  function SecondOfDay(dt: DateTime): int {
    dt.hour * 3600 + dt.minute * 60 + dt.second
  }

  /** An earlier calendar day has a smaller day number. */
  lemma DayNumberOrder(a: DateTime, b: DateTime)
    requires Valid(a) && Valid(b)
    requires a.year < b.year || (a.year == b.year && (a.month < b.month || (a.month == b.month && a.day < b.day)))
    ensures DayNumber(a) < DayNumber(b)
  {
    DaysBeforeMonthGap(a.year, a.month, b.month);
    if a.year < b.year {
      DaysBeforeYearGap(a.year, b.year);
    }
  }

  /** An earlier instant has a smaller microsecond count. */
  lemma BeforeIsLess(a: DateTime, b: DateTime)
    requires Valid(a) && Valid(b) && Before(a, b)
    ensures ToMicros(a) < ToMicros(b)
  {
    assert ToMicros(a) == (DayNumber(a) * SecondsPerDay + SecondOfDay(a)) * MicrosPerSecond + a.micro;
    assert ToMicros(b) == (DayNumber(b) * SecondsPerDay + SecondOfDay(b)) * MicrosPerSecond + b.micro;
    if a.year != b.year || a.month != b.month || a.day != b.day {
      DayNumberOrder(a, b);
    }
  }

  /** The microsecond count orders instants exactly as `datetime` does, so
      comparing counts is comparing timestamps. */
  lemma ToMicrosOrder(a: DateTime, b: DateTime)
    requires Valid(a) && Valid(b)
    ensures Before(a, b) <==> ToMicros(a) < ToMicros(b)
    ensures a == b <==> ToMicros(a) == ToMicros(b)
  {
    if Before(a, b) {
      BeforeIsLess(a, b);
    } else if Before(b, a) {
      BeforeIsLess(b, a);
    }
  }

  // ---------------------------------------------------------------------
  // Digits

  predicate IsDigit(c: char) {
    '0' <= c <= '9'
  }

  predicate AllDigits(s: string) {
    forall i :: 0 <= i < |s| ==> IsDigit(s[i])
  }

  /** The decimal value of a run of digits. */
  function Value(s: string): nat
    requires AllDigits(s)
  {
    if |s| == 0 then 0 else Value(s[..|s| - 1]) * 10 + (s[|s| - 1] as int - '0' as int)
  }

  function Pow10(n: nat): (r: nat)
    ensures r >= 1
  {
    if n == 0 then 1 else 10 * Pow10(n - 1)
  }

  function DigitChar(d: int): char
    requires 0 <= d < 10
  {
    ('0' as int + d) as char
  }

  /** `n` written with exactly `w` digits, zero-padded on the left
      (the low `w` digits when `n` is wider). */
  function Pad(n: nat, w: nat): (r: string)
    ensures |r| == w && AllDigits(r)
  {
    if w == 0 then [] else Pad(n / 10, w - 1) + [DigitChar(n % 10)]
  }

  /** Reading back a padded number gives the number, when it fits. */
  lemma {:induction false} ValuePad(n: nat, w: nat)
    requires n < Pow10(w)
    ensures Value(Pad(n, w)) == n
  {
    if w > 0 {
      var s := Pad(n, w);
      assert s[..|s| - 1] == Pad(n / 10, w - 1);
      ValuePad(n / 10, w - 1);
    }
  }

  /** A run of digits is below the power of ten of its length. */
  lemma {:induction false} ValueBound(t: string)
    requires AllDigits(t)
    ensures Value(t) < Pow10(|t|)
  {
    if |t| > 0 {
      ValueBound(t[..|t| - 1]);
    }
  }

  /** Padding the value of a run of digits to its own length gives the
      run back: leading zeros included. */
  lemma {:induction false} PadValue(t: string)
    requires AllDigits(t)
    ensures Pad(Value(t), |t|) == t
  {
    if |t| > 0 {
      var init, d := t[..|t| - 1], t[|t| - 1] as int - '0' as int;
      var n := Value(t);
      assert n == Value(init) * 10 + d;
      assert n / 10 == Value(init) && n % 10 == d;
      PadValue(init);
      assert t == init + [t[|t| - 1]];
    }
  }

  // ---------------------------------------------------------------------
  // The two strptime formats

  /** A field read at some index: its value and the index after it. */
  datatype Read = Read(value: nat, next: nat)

  /** What the date-and-time part yields: the instant without its fraction,
      and the index where the part ends. */
  datatype DateRead = DateRead(dt: DateTime, next: nat)

  /** `%m`, `%H`, `%M` or `%S` at `at`: one digit, or two when a second
      digit follows. Each of these patterns takes one or two digits, and a
      literal separator or the end of the text comes after the field, so at
      most one choice of width can match; the ranges the patterns encode are
      the ones `Valid` checks afterwards. */
  function ShortField(s: string, at: nat): (r: Option<Read>)
    ensures r.Some? ==> at < r.value.next <= |s|
  {
    if at < |s| && IsDigit(s[at]) then
      if at + 1 < |s| && IsDigit(s[at + 1]) then Some(Read(Value(s[at..at + 2]), at + 2))
      else Some(Read(Value(s[at..at + 1]), at + 1))
    else None
  }

  /** `%d` at `at`: as `ShortField`, and also a space before one digit. */
  function DayField(s: string, at: nat): (r: Option<Read>)
    ensures r.Some? ==> at < r.value.next <= |s|
  {
    if at + 1 < |s| && s[at] == ' ' && IsDigit(s[at + 1]) then Some(Read(Value(s[at + 1..at + 2]), at + 2))
    else ShortField(s, at)
  }

  /** The literal `sep` of the format at `at`; `strptime` ignores case, so
      `t` matches the `T`. */
  predicate SepAt(s: string, at: nat, sep: char) {
    at < |s| && (s[at] == sep || (sep == 'T' && s[at] == 't'))
  }

  /** A field at `at` followed by the separator `sep`: the field's value and
      the index after the separator. */
  function FieldThen(s: string, at: nat, day: bool, sep: char): (r: Option<Read>)
    ensures r.Some? ==> at < r.value.next <= |s|
  {
    match (if day then DayField(s, at) else ShortField(s, at))
    case Some(f) => if SepAt(s, f.next, sep) then Some(Read(f.value, f.next + 1)) else None
    case None => None
  }

  /** One field of the format and the literal that follows it. */
  datatype Spec = Spec(day: bool, sep: char)

  /** `%m-%dT%H:%M:`, the fields between the year and the seconds. */
  const Middle: seq<Spec> := [Spec(false, '-'), Spec(true, 'T'), Spec(false, ':'), Spec(false, ':')]

  /** Fields read in a row: their values and the index after the last. */
  datatype Reads = Reads(values: seq<nat>, next: nat)

  /** The fields of `fmt` read in order from `at`, each followed by its
      literal. */
  function Fields(s: string, at: nat, fmt: seq<Spec>): (r: Option<Reads>)
    requires at <= |s|
    ensures r.Some? ==> |r.value.values| == |fmt| && at <= r.value.next <= |s|
    decreases |fmt|
  {
    if |fmt| == 0 then Some(Reads([], at))
    else
      match FieldThen(s, at, fmt[0].day, fmt[0].sep)
      case None => None
      case Some(f) =>
        match Fields(s, f.next, fmt[1..])
        case None => None
        case Some(rest) => Some(Reads([f.value] + rest.values, rest.next))
  }

  /** The `%Y-%m-%dT%H:%M:%S` part both formats share, matched at the start
      of `s`: four digits for the year, then the shorter fields with their
      separators, then the seconds. The microseconds are left at zero and
      ranges are not checked here. */
  function DatePart(s: string): (r: Option<DateRead>)
    ensures r.Some? ==> r.value.next <= |s| && r.value.dt.micro == 0
  {
    if !(4 < |s| && AllDigits(s[..4]) && s[4] == '-') then None
    else
      match Fields(s, 5, Middle)
      case None => None
      case Some(m) =>
        match ShortField(s, m.next)
        case None => None
        case Some(sec) =>
          var v := m.values;
          Some(DateRead(DateTime(Value(s[..4]), v[0], v[1], v[2], v[3], sec.value, 0), sec.next))
  }

  /** What `%f` adds after a date part read up to `p.next`: a dot and one
      to six digits ending the text, read as a fraction of a second.
      Anything left after the match is an error ("unconverted data
      remains"), and so is an instant `datetime` rejects. */
  function Fraction(s: string, p: DateRead): (r: Option<DateTime>)
    ensures r.Some? ==> Valid(r.value) && r.value.(micro := 0) == p.dt.(micro := 0)
  {
    var e := p.next;
    if !(e < |s| && s[e] == '.' && 1 <= |s| - (e + 1) <= 6 && AllDigits(s[e + 1..])) then None
    else
      var frac := s[e + 1..];
      var parsed := p.dt.(micro := Value(frac) * Pow10(6 - |frac|));
      if Valid(parsed) then Some(parsed) else None
  }

  /** `strptime(s, "%Y-%m-%dT%H:%M:%S.%f")`: the date part, then the
      fraction. */
  function WithFraction(s: string): (r: Option<DateTime>)
    ensures r.Some? ==> Valid(r.value)
  {
    match DatePart(s)
    case None => None
    case Some(p) => Fraction(s, p)
  }

  /** `strptime(s, "%Y-%m-%dT%H:%M:%S")`: the date part must end the text. */
  function WithoutFraction(s: string): (r: Option<DateTime>)
    ensures r.Some? ==> Valid(r.value) && r.value.micro == 0
  {
    match DatePart(s)
    case None => None
    case Some(p) => if p.next == |s| && Valid(p.dt) then Some(p.dt) else None
  }

  /** The parser's timestamp conversion: the fractional format first, the
      whole-second format only when that fails, and `None` (a `ValueError`)
      when neither matches. */
  function Parse(s: string): (r: Option<int>)
    ensures WithFraction(s).Some? ==> r == Some(ToMicros(WithFraction(s).value))
    ensures WithFraction(s).None? && WithoutFraction(s).Some? ==> r == Some(ToMicros(WithoutFraction(s).value))
    ensures r.None? <==> WithFraction(s).None? && WithoutFraction(s).None?
    ensures r.Some? ==> r.value >= 0
  {
    match WithFraction(s)
    case Some(dt) => Some(ToMicros(dt))
    case None =>
      match WithoutFraction(s)
      case Some(dt) => Some(ToMicros(dt))
      case None => None
  }

  // ---------------------------------------------------------------------
  // Rendering, the partner of parsing

  /** How a one- or two-digit field is written: zero-padded to two digits,
      as a single digit, or as a space and a single digit. */
  datatype Width = Two | One | Spaced

  /** The shapes of the date part `strptime` accepts: a width for each
      shorter field, and the `T` in either case. */
  datatype Layout = Layout(month: Width, day: Width, hour: Width, minute: Width, second: Width,
                           lowerT: bool)

  /** The usual rendering: every field zero-padded, an upper-case `T`. */
  const Padded := Layout(Two, Two, Two, Two, Two, false)

  function FieldText(n: nat, w: Width): string {
    match w
    case Two => Pad(n, 2)
    case One => Pad(n, 1)
    case Spaced => " " + Pad(n, 1)
  }

  /** The shapes a field's pattern admits for a value: two digits below
      100, one digit below 10, and, for the day only, a space before a digit
      from 1 to 9. */
  predicate Admits(w: Width, n: int, day: bool) {
    match w
    case Two => 0 <= n < 100
    case One => 0 <= n < 10
    case Spaced => day && 1 <= n < 10
  }

  predicate Fits(dt: DateTime, l: Layout) {
    && Admits(l.month, dt.month, false) && Admits(l.day, dt.day, true)
    && Admits(l.hour, dt.hour, false) && Admits(l.minute, dt.minute, false)
    && Admits(l.second, dt.second, false)
  }

  /** The date part of `dt` written in layout `l`. */
  function Render(dt: DateTime, l: Layout): string
    requires Valid(dt)
  {
    RenderDay(dt, l) + FieldText(dt.hour, l.hour)
    + ":" + FieldText(dt.minute, l.minute) + ":" + FieldText(dt.second, l.second)
  }

  /** The calendar half of `Render`, up to and including the `T`. */
  function RenderDay(dt: DateTime, l: Layout): string
    requires Valid(dt)
  {
    Pad(dt.year, 4) + "-" + FieldText(dt.month, l.month) + "-" + FieldText(dt.day, l.day)
    + (if l.lowerT then "t" else "T")
  }

  /** `dt.isoformat()` with six fraction digits, the shape event stores emit. */
  function Format(dt: DateTime): (r: string)
    requires Valid(dt)
    ensures |r| == 26
  {
    Pad(dt.year, 4) + "-" + Pad(dt.month, 2) + "-" + Pad(dt.day, 2) + "T"
    + Pad(dt.hour, 2) + ":" + Pad(dt.minute, 2) + ":" + Pad(dt.second, 2)
    + "." + Pad(dt.micro, 6)
  }

  /** The same without the fraction, `%Y-%m-%dT%H:%M:%S`. */
  function FormatSeconds(dt: DateTime): (r: string)
    requires Valid(dt)
    ensures |r| == 19
  {
    Pad(dt.year, 4) + "-" + Pad(dt.month, 2) + "-" + Pad(dt.day, 2) + "T"
    + Pad(dt.hour, 2) + ":" + Pad(dt.minute, 2) + ":" + Pad(dt.second, 2)
  }

  lemma FormatSecondsPadded(dt: DateTime)
    requires Valid(dt)
    ensures Fits(dt, Padded)
    ensures FormatSeconds(dt) == Render(dt, Padded)
    ensures Format(dt) == Render(dt, Padded) + "." + Pad(dt.micro, 6)
  {
  }

  /** Two digits read back as their value. */
  lemma TwoOf(s: string, at: nat, n: nat)
    requires n < 100 && at + 2 <= |s| && s[at..at + 2] == Pad(n, 2)
    ensures ShortField(s, at) == Some(Read(n, at + 2)) && IsDigit(s[at])
  {
    var x := Pad(n, 2);
    assert s[at] == x[0] && s[at + 1] == x[1];
    ValuePad(n, 2);
  }

  /** One digit not followed by another reads back as its value. */
  lemma OneOf(s: string, at: nat, n: nat)
    requires n < 10 && at + 1 <= |s| && s[at..at + 1] == Pad(n, 1)
    requires at + 1 == |s| || !IsDigit(s[at + 1])
    ensures ShortField(s, at) == Some(Read(n, at + 1)) && IsDigit(s[at])
  {
    var x := Pad(n, 1);
    assert s[at] == x[0];
    ValuePad(n, 1);
  }

  /** A space and one digit read back as the day. */
  lemma SpacedOf(s: string, at: nat, n: nat)
    requires n < 10 && at + 2 <= |s| && s[at..at + 2] == " " + Pad(n, 1)
    ensures DayField(s, at) == Some(Read(n, at + 2))
  {
    var x := Pad(n, 1);
    assert s[at] == ' ' && s[at + 1] == x[0];
    assert s[at + 1..at + 2] == x;
    ValuePad(n, 1);
  }

  /** A field written in an admitted shape, and not followed by a digit,
      reads back as its value. */
  lemma FieldOf(s: string, at: nat, n: nat, w: Width, day: bool)
    requires Admits(w, n, day)
    requires at + |FieldText(n, w)| <= |s| && s[at..at + |FieldText(n, w)|] == FieldText(n, w)
    requires at + |FieldText(n, w)| == |s| || !IsDigit(s[at + |FieldText(n, w)|])
    ensures (if day then DayField(s, at) else ShortField(s, at)) == Some(Read(n, at + |FieldText(n, w)|))
  {
    match w
    case Two => TwoOf(s, at, n);
    case One => OneOf(s, at, n);
    case Spaced => SpacedOf(s, at, n);
  }

  /** A field written in an admitted shape, then its separator, reads back
      as its value, and reading resumes after the separator. */
  lemma FieldThenOf(s: string, at: nat, n: nat, w: Width, day: bool, sep: char)
    requires Admits(w, n, day) && !IsDigit(sep)
    requires at + |FieldText(n, w)| < |s| && s[at..at + |FieldText(n, w)|] == FieldText(n, w)
    requires SepAt(s, at + |FieldText(n, w)|, sep)
    ensures FieldThen(s, at, day, sep) == Some(Read(n, at + |FieldText(n, w)| + 1))
  {
    FieldOf(s, at, n, w, day);
  }

  /** The leading part `r + x` of a text gives `r` as its prefix and `x`
      right after it. */
  lemma Peel(s: string, r: string, x: string)
    requires |r| + |x| <= |s| && s[..|r| + |x|] == r + x
    ensures s[..|r|] == r && s[|r|..|r| + |x|] == x
  {
    assert s[..|r|] == (r + x)[..|r|];
    assert s[|r|..|r| + |x|] == (r + x)[|r|..];
  }

  /** The date part read field by field: when each field reads as given,
      the whole reads as the instant they make up. */
  lemma DatePartOf(s: string, y: nat, mo: nat, d: nat, h: nat, mi: nat, sec: nat,
                   i1: nat, i2: nat, i3: nat, i4: nat, e: nat)
    requires y < 10000 && 4 < |s| && s[..4] == Pad(y, 4) && s[4] == '-'
    requires FieldThen(s, 5, false, '-') == Some(Read(mo, i1))
    requires FieldThen(s, i1, true, 'T') == Some(Read(d, i2))
    requires FieldThen(s, i2, false, ':') == Some(Read(h, i3))
    requires FieldThen(s, i3, false, ':') == Some(Read(mi, i4))
    requires ShortField(s, i4) == Some(Read(sec, e))
    ensures DatePart(s) == Some(DateRead(DateTime(y, mo, d, h, mi, sec, 0), e))
  {
    ValuePad(y, 4);
    assert Middle[3..][1..] == Middle[4..] == [];
    assert Middle[2..][1..] == Middle[3..] && Middle[1..][1..] == Middle[2..];
    FieldsStep(s, i3, Middle[3..], mi, i4, Reads([], i4));
    assert [mi] + [] == [mi];
    FieldsStep(s, i2, Middle[2..], h, i3, Reads([mi], i4));
    assert [h] + [mi] == [h, mi];
    FieldsStep(s, i1, Middle[1..], d, i2, Reads([h, mi], i4));
    assert [d] + [h, mi] == [d, h, mi];
    FieldsStep(s, 5, Middle, mo, i1, Reads([d, h, mi], i4));
    assert [mo] + [d, h, mi] == [mo, d, h, mi];
  }

  /** One step of `Fields`: the first field, then the rest. */
  lemma FieldsStep(s: string, at: nat, fmt: seq<Spec>, v: nat, next: nat, rest: Reads)
    requires at <= |s| && |fmt| > 0 && FieldThen(s, at, fmt[0].day, fmt[0].sep) == Some(Read(v, next))
    requires Fields(s, next, fmt[1..]) == Some(rest)
    ensures Fields(s, at, fmt) == Some(Reads([v] + rest.values, rest.next))
  {
  }

  /** Where the calendar fields of a rendering in layout `l` sit in `s`:
      the year in the first four characters, then month and day, each
      followed by its separator. */
  predicate LaidDay(s: string, dt: DateTime, l: Layout)
    requires Valid(dt)
  {
    var f1, f2 := FieldText(dt.month, l.month), FieldText(dt.day, l.day);
    var b := 6 + |f1|;
    && b + |f2| < |s|
    && s[..4] == Pad(dt.year, 4) && s[4] == '-'
    && s[5..5 + |f1|] == f1 && s[5 + |f1|] == '-'
    && s[b..b + |f2|] == f2 && s[b + |f2|] == (if l.lowerT then 't' else 'T')
  }

  /** Where each field of a rendering in layout `l` sits in `s`: the
      calendar fields as above, then hour, minute and second, the seconds
      ending at `n`. */
  predicate Laid(s: string, dt: DateTime, l: Layout, n: nat)
    requires Valid(dt)
  {
    var f3, f4, f5 := FieldText(dt.hour, l.hour), FieldText(dt.minute, l.minute), FieldText(dt.second, l.second);
    var c := 7 + |FieldText(dt.month, l.month)| + |FieldText(dt.day, l.day)|;
    var d := c + 1 + |f3|;
    var e := d + 1 + |f4|;
    && LaidDay(s, dt, l)
    && e + |f5| == n <= |s|
    && s[c..c + |f3|] == f3 && s[c + |f3|] == ':'
    && s[d..d + |f4|] == f4 && s[d + |f4|] == ':'
    && s[e..n] == f5
  }

  /** A text beginning with the calendar half of a rendering has its
      fields laid out in it. */
  lemma RenderDayPieces(dt: DateTime, l: Layout, s: string)
    requires Valid(dt) && |RenderDay(dt, l)| < |s| && s[..|RenderDay(dt, l)|] == RenderDay(dt, l)
    ensures LaidDay(s, dt, l)
    ensures |RenderDay(dt, l)| == 7 + |FieldText(dt.month, l.month)| + |FieldText(dt.day, l.day)|
  {
    var f1, f2 := FieldText(dt.month, l.month), FieldText(dt.day, l.day);
    var r0 := Pad(dt.year, 4);
    var r1 := r0 + "-";
    var r2 := r1 + f1;
    var r3 := r2 + "-";
    var r4 := r3 + f2;
    assert RenderDay(dt, l) == r4 + (if l.lowerT then "t" else "T");
    Peel(s, r4, if l.lowerT then "t" else "T");
    Peel(s, r3, f2);
    Peel(s, r2, "-");
    Peel(s, r1, f1);
    Peel(s, r0, "-");
    assert s[|r0|..|r0| + 1] == "-";
    assert s[|r2|..|r2| + 1] == "-";
    assert s[|r4|..|r4| + 1] == (if l.lowerT then "t" else "T");
  }

  /** A text beginning with a rendering has the rendering's fields laid
      out in it. */
  lemma RenderPieces(dt: DateTime, l: Layout, s: string)
    requires Valid(dt) && |Render(dt, l)| <= |s| && s[..|Render(dt, l)|] == Render(dt, l)
    ensures Laid(s, dt, l, |Render(dt, l)|)
  {
    var f3, f4, f5 := FieldText(dt.hour, l.hour), FieldText(dt.minute, l.minute), FieldText(dt.second, l.second);
    var r5 := RenderDay(dt, l);
    var r6 := r5 + f3;
    var r7 := r6 + ":";
    var r8 := r7 + f4;
    var r9 := r8 + ":";
    assert Render(dt, l) == r9 + f5;
    Peel(s, r9, f5);
    Peel(s, r8, ":");
    Peel(s, r7, f4);
    Peel(s, r6, ":");
    Peel(s, r5, f3);
    RenderDayPieces(dt, l, s);
    assert s[|r6|..|r6| + 1] == ":";
    assert s[|r8|..|r8| + 1] == ":";
  }

  /** Fields laid out as in a rendering, and not followed by a digit, read
      back as the rendered instant. */
  lemma DatePartOfLaid(s: string, dt: DateTime, l: Layout, n: nat)
    requires Valid(dt) && Fits(dt, l) && Laid(s, dt, l, n) && (n == |s| || !IsDigit(s[n]))
    ensures DatePart(s) == Some(DateRead(dt.(micro := 0), n))
  {
    var b := 6 + |FieldText(dt.month, l.month)|;
    var c := b + 1 + |FieldText(dt.day, l.day)|;
    var d := c + 1 + |FieldText(dt.hour, l.hour)|;
    var e := d + 1 + |FieldText(dt.minute, l.minute)|;
    FieldThenOf(s, 5, dt.month, l.month, false, '-');
    FieldThenOf(s, b, dt.day, l.day, true, 'T');
    FieldThenOf(s, c, dt.hour, l.hour, false, ':');
    FieldThenOf(s, d, dt.minute, l.minute, false, ':');
    FieldOf(s, e, dt.second, l.second, false);
    assert dt.(micro := 0) == DateTime(dt.year, dt.month, dt.day, dt.hour, dt.minute, dt.second, 0);
    DatePartOf(s, dt.year, dt.month, dt.day, dt.hour, dt.minute, dt.second, b, c, d, e, n);
  }

  /** The date part of any rendering `strptime` admits reads back as the
      rendered instant, and ends where the rendering ends. */
  lemma DatePartOfRender(dt: DateTime, l: Layout, rest: string)
    requires Valid(dt) && Fits(dt, l) && (|rest| == 0 || !IsDigit(rest[0]))
    ensures DatePart(Render(dt, l) + rest) == Some(DateRead(dt.(micro := 0), |Render(dt, l)|))
  {
    var s := Render(dt, l) + rest;
    var n := |Render(dt, l)|;
    assert s[..n] == Render(dt, l);
    if |rest| > 0 {
      assert s[n] == rest[0];
    }
    RenderPieces(dt, l, s);
    DatePartOfLaid(s, dt, l, n);
  }

  /** A date part followed by a dot and a fraction ending the text reads
      as the date part's instant with the fraction's microseconds. */
  lemma WithFractionOf(s: string, dt: DateTime, e: nat, frac: string)
    requires Valid(dt) && DatePart(s) == Some(DateRead(dt.(micro := 0), e))
    requires e < |s| && s[e] == '.' && s[e + 1..] == frac && 1 <= |frac| <= 6 && AllDigits(frac)
    requires dt.micro == Value(frac) * Pow10(6 - |frac|)
    ensures WithFraction(s) == Some(dt)
  {
    FractionOf(s, DateRead(dt.(micro := 0), e), dt, frac);
  }

  /** A dot and a fraction ending the text give the fraction's
      microseconds. */
  lemma FractionOf(s: string, p: DateRead, dt: DateTime, frac: string)
    requires Valid(dt) && p.dt == dt.(micro := 0)
    requires p.next < |s| && s[p.next] == '.' && s[p.next + 1..] == frac && 1 <= |frac| <= 6 && AllDigits(frac)
    requires dt.micro == Value(frac) * Pow10(6 - |frac|)
    ensures Fraction(s, p) == Some(dt)
  {
    assert p.dt.(micro := Value(frac) * Pow10(6 - |frac|)) == dt;
  }

  /** Round trip through the first format for every admitted layout and
      every fraction of one to six digits: the `k` digits of `q`, read as
      a fraction of a second, give `q * 10^(6-k)` microseconds, so `dt`
      written with them parses back to `dt`. */
  lemma ParseRender(dt: DateTime, l: Layout, k: nat, q: nat)
    requires Valid(dt) && Fits(dt, l) && 1 <= k <= 6 && q < Pow10(k) && dt.micro == q * Pow10(6 - k)
    ensures WithFraction(Render(dt, l) + "." + Pad(q, k)) == Some(dt)
  {
    var frac := Pad(q, k);
    RenderDot(dt, l, frac);
    ValuePad(q, k);
    WithFractionOf(Render(dt, l) + "." + frac, dt, |Render(dt, l)|, frac);
  }

  /** A rendering followed by a dot and digits: the date part ends at the
      dot, and the digits follow it to the end. */
  lemma RenderDot(dt: DateTime, l: Layout, frac: string)
    requires Valid(dt) && Fits(dt, l)
    ensures var s, e := Render(dt, l) + "." + frac, |Render(dt, l)|;
      DatePart(s) == Some(DateRead(dt.(micro := 0), e)) && e < |s| && s[e] == '.' && s[e + 1..] == frac
  {
    var s := Render(dt, l) + "." + frac;
    DatePartOfRender(dt, l, "." + frac);
    assert s == Render(dt, l) + ("." + frac);
  }

  /** Round trip through the fallback for every admitted layout: a
      rendering without fraction fails the first format and parses with the
      second. */
  lemma ParseRenderSeconds(dt: DateTime, l: Layout)
    requires Valid(dt) && Fits(dt, l)
    ensures WithFraction(Render(dt, l)).None?
    ensures WithoutFraction(Render(dt, l)) == Some(dt.(micro := 0))
    ensures Parse(Render(dt, l)) == Some(ToMicros(dt.(micro := 0)))
  {
    DatePartOfRender(dt, l, []);
    assert Render(dt, l) + [] == Render(dt, l);
  }

  /** Round trip: a rendered instant parses back to the same instant,
      through the first format. */
  lemma ParseFormat(dt: DateTime)
    requires Valid(dt)
    ensures WithFraction(Format(dt)) == Some(dt)
    ensures Parse(Format(dt)) == Some(ToMicros(dt))
  {
    FormatSecondsPadded(dt);
    assert Pow10(0) == 1;
    ParseRender(dt, Padded, 6, dt.micro);
  }

  /** Round trip through the fallback: a whole-second rendering fails the
      first format and parses with the second. */
  lemma ParseFormatSeconds(dt: DateTime)
    requires Valid(dt)
    ensures WithFraction(FormatSeconds(dt)).None?
    ensures Parse(FormatSeconds(dt)) == Some(ToMicros(dt.(micro := 0)))
  {
    FormatSecondsPadded(dt);
    ParseRenderSeconds(dt, Padded);
  }

  // ---------------------------------------------------------------------
  // Only rendered shapes parse

  /** The width a field read at `at` was written in. */
  function WidthAt(s: string, at: nat): Width {
    if at < |s| && s[at] == ' ' then Spaced
    else if at + 1 < |s| && IsDigit(s[at + 1]) then Two
    else One
  }

  /** A field that reads is its value written in the width it was read in,
      and that width holds the value. */
  lemma ReadText(s: string, at: nat, day: bool)
    requires (if day then DayField(s, at) else ShortField(s, at)).Some?
    ensures var f := (if day then DayField(s, at) else ShortField(s, at)).value;
      var w := WidthAt(s, at);
      && f.next == at + |FieldText(f.value, w)|
      && s[at..f.next] == FieldText(f.value, w)
      && (w == Spaced ==> day)
      && f.value < (if w == Two then 100 else 10)
  {
    var f := (if day then DayField(s, at) else ShortField(s, at)).value;
    if WidthAt(s, at) == Spaced {
      var t := s[at + 1..at + 2];
      ValueBound(t);
      PadValue(t);
      assert s[at..f.next] == [s[at]] + t;
    } else {
      var t := s[at..f.next];
      ValueBound(t);
      PadValue(t);
    }
  }

  /** A field and its separator that read are the value written in its
      width, then the separator. */
  lemma FieldThenText(s: string, at: nat, day: bool, sep: char)
    requires FieldThen(s, at, day, sep).Some?
    ensures var f := FieldThen(s, at, day, sep).value;
      var t := FieldText(f.value, WidthAt(s, at));
      && f.next == at + |t| + 1 && s[at..at + |t|] == t && SepAt(s, at + |t|, sep)
      && (WidthAt(s, at) == Spaced ==> day)
      && f.value < (if WidthAt(s, at) == Two then 100 else 10)
  {
    ReadText(s, at, day);
  }

  /** `Fields` reads its first field, then the rest from where that ends. */
  lemma FieldsFirst(s: string, at: nat, fmt: seq<Spec>)
    requires at <= |s| && |fmt| > 0 && Fields(s, at, fmt).Some?
    ensures FieldThen(s, at, fmt[0].day, fmt[0].sep).Some?
    ensures var f := FieldThen(s, at, fmt[0].day, fmt[0].sep).value;
      && f.next <= |s| && Fields(s, f.next, fmt[1..]).Some?
      && Fields(s, at, fmt).value
         == Reads([f.value] + Fields(s, f.next, fmt[1..]).value.values, Fields(s, f.next, fmt[1..]).value.next)
  {
  }

  /** The text up to `j` is its text up to `i` followed by the piece
      between them. */
  lemma Glue(s: string, i: nat, j: nat, r: string, x: string)
    requires i <= j <= |s| && s[..i] == r && s[i..j] == x
    ensures s[..j] == r + x
  {
    assert s[..j] == s[..i] + s[i..j];
  }

  /** Fields laid out as in a rendering spell the calendar half of the
      rendering. */
  lemma LaidDayRender(s: string, dt: DateTime, l: Layout)
    requires Valid(dt) && LaidDay(s, dt, l)
    ensures s[..|RenderDay(dt, l)|] == RenderDay(dt, l)
  {
    var f1, f2 := FieldText(dt.month, l.month), FieldText(dt.day, l.day);
    var a := 5 + |f1|;
    var b := a + 1;
    Glue(s, 4, 5, Pad(dt.year, 4), "-");
    Glue(s, 5, a, Pad(dt.year, 4) + "-", f1);
    Glue(s, a, b, Pad(dt.year, 4) + "-" + f1, "-");
    Glue(s, b, b + |f2|, Pad(dt.year, 4) + "-" + f1 + "-", f2);
    Glue(s, b + |f2|, b + |f2| + 1, Pad(dt.year, 4) + "-" + f1 + "-" + f2, if l.lowerT then "t" else "T");
  }

  /** Fields laid out as in a rendering, the seconds ending at `n`, spell
      the rendering. */
  lemma LaidRender(s: string, dt: DateTime, l: Layout, n: nat)
    requires Valid(dt) && Laid(s, dt, l, n)
    ensures n == |Render(dt, l)| && s[..n] == Render(dt, l)
  {
    var f3, f4, f5 := FieldText(dt.hour, l.hour), FieldText(dt.minute, l.minute), FieldText(dt.second, l.second);
    var r5 := RenderDay(dt, l);
    LaidDayRender(s, dt, l);
    var c := |r5|;
    var d := c + 1 + |f3|;
    var e := d + 1 + |f4|;
    Glue(s, c, c + |f3|, r5, f3);
    Glue(s, c + |f3|, d, r5 + f3, ":");
    Glue(s, d, d + |f4|, r5 + f3 + ":", f4);
    Glue(s, d + |f4|, e, r5 + f3 + ":" + f4, ":");
    Glue(s, e, n, r5 + f3 + ":" + f4 + ":", f5);
  }

  /** A date part that reads was read field by field: the values and the
      indexes where each field and its separator end. */
  lemma DatePartReads(s: string) returns (mo: nat, d: nat, h: nat, mi: nat, sec: nat,
                                           i1: nat, i2: nat, i3: nat, i4: nat)
    requires DatePart(s).Some?
    ensures 4 < |s| && AllDigits(s[..4]) && s[4] == '-'
    ensures FieldThen(s, 5, false, '-') == Some(Read(mo, i1))
    ensures FieldThen(s, i1, true, 'T') == Some(Read(d, i2))
    ensures FieldThen(s, i2, false, ':') == Some(Read(h, i3))
    ensures FieldThen(s, i3, false, ':') == Some(Read(mi, i4))
    ensures ShortField(s, i4) == Some(Read(sec, DatePart(s).value.next))
    ensures DatePart(s).value.dt == DateTime(Value(s[..4]), mo, d, h, mi, sec, 0)
  {
    FieldsFirst(s, 5, Middle);
    var f1 := FieldThen(s, 5, false, '-').value;
    assert Middle[1..] == [Spec(true, 'T'), Spec(false, ':'), Spec(false, ':')];
    FieldsFirst(s, f1.next, Middle[1..]);
    var f2 := FieldThen(s, f1.next, true, 'T').value;
    assert Middle[1..][1..] == [Spec(false, ':'), Spec(false, ':')];
    FieldsFirst(s, f2.next, Middle[1..][1..]);
    var f3 := FieldThen(s, f2.next, false, ':').value;
    assert Middle[1..][1..][1..] == [Spec(false, ':')];
    FieldsFirst(s, f3.next, Middle[1..][1..][1..]);
    var f4 := FieldThen(s, f3.next, false, ':').value;
    assert Middle[1..][1..][1..][1..] == [];
    mo, d, h, mi := f1.value, f2.value, f3.value, f4.value;
    i1, i2, i3, i4 := f1.next, f2.next, f3.next, f4.next;
    sec := ShortField(s, i4).value.value;
  }

  /** A date part that reads, when its instant is valid, is that instant
      rendered in some admitted layout, up to where the part ends. */
  lemma DatePartShape(s: string) returns (l: Layout)
    requires DatePart(s).Some? && Valid(DatePart(s).value.dt)
    ensures Fits(DatePart(s).value.dt, l)
    ensures s[..DatePart(s).value.next] == Render(DatePart(s).value.dt, l)
  {
    var p := DatePart(s).value;
    var dt := p.dt;
    var mo, d, h, mi, sec, i1, i2, i3, i4 := DatePartReads(s);
    FieldThenText(s, 5, false, '-');
    FieldThenText(s, i1, true, 'T');
    FieldThenText(s, i2, false, ':');
    FieldThenText(s, i3, false, ':');
    ReadText(s, i4, false);
    PadValue(s[..4]);
    l := Layout(WidthAt(s, 5), WidthAt(s, i1), WidthAt(s, i2), WidthAt(s, i3),
                WidthAt(s, i4), s[i2 - 1] == 't');
    assert LaidDay(s, dt, l);
    assert Laid(s, dt, l, p.next);
    LaidRender(s, dt, l, p.next);
  }

  /** A text is what comes before its dot, the dot, and what comes after. */
  lemma AroundDot(s: string, n: nat)
    requires n < |s| && s[n] == '.'
    ensures s == s[..n] + "." + s[n + 1..]
  {
    assert s[..n + 1] == s[..n] + ".";
    assert s == s[..n + 1] + s[n + 1..];
  }

  /** Rendering ignores the microseconds. */
  lemma RenderWhole(dt: DateTime, l: Layout)
    requires Valid(dt)
    ensures Valid(dt.(micro := 0)) && Render(dt.(micro := 0), l) == Render(dt, l)
  {
  }

  /** What the first format accepts is an admitted rendering of what it
      returns. */
  lemma WithFractionShape(s: string) returns (l: Layout, k: nat, q: nat)
    requires WithFraction(s).Some?
    ensures var dt := WithFraction(s).value;
      && Fits(dt, l) && 1 <= k <= 6 && q < Pow10(k) && dt.micro == q * Pow10(6 - k)
      && s == Render(dt, l) + "." + Pad(q, k)
  {
    var dt := WithFraction(s).value;
    var p := DatePart(s).value;
    assert p.dt == dt.(micro := 0);
    l := DatePartShape(s);
    RenderWhole(dt, l);
    var n := p.next;
    var frac := s[n + 1..];
    k, q := |frac|, Value(frac);
    ValueBound(frac);
    PadValue(frac);
    AroundDot(s, n);
  }

  /** `s` is `dt` written in one of the shapes `%Y-%m-%dT%H:%M:%S.%f`
      admits: an admitted layout, a dot, and one to six fraction digits. */
  ghost predicate FractionShaped(s: string, dt: DateTime)
    requires Valid(dt)
  {
    exists l: Layout, k: nat, q: nat ::
      && Fits(dt, l) && 1 <= k <= 6 && q < Pow10(k) && dt.micro == q * Pow10(6 - k)
      && s == Render(dt, l) + "." + Pad(q, k)
  }

  /** `s` is `dt`, a whole second, written in one of the shapes
      `%Y-%m-%dT%H:%M:%S` admits. */
  ghost predicate SecondsShaped(s: string, dt: DateTime)
    requires Valid(dt)
  {
    dt.micro == 0 && exists l: Layout :: Fits(dt, l) && s == Render(dt, l)
  }

  /** The first format accepts exactly the admitted renderings of valid
      instants, and reads each back as its instant. */
  lemma WithFractionExactly(s: string, dt: DateTime)
    ensures WithFraction(s) == Some(dt) <==> Valid(dt) && FractionShaped(s, dt)
  {
    if WithFraction(s) == Some(dt) {
      var l, k, q := WithFractionShape(s);
    }
    if Valid(dt) && FractionShaped(s, dt) {
      var l: Layout, k: nat, q: nat :|
        && Fits(dt, l) && 1 <= k <= 6 && q < Pow10(k) && dt.micro == q * Pow10(6 - k)
        && s == Render(dt, l) + "." + Pad(q, k);
      ParseRender(dt, l, k, q);
    }
  }

  /** The second format accepts exactly the admitted renderings of valid
      whole-second instants, and reads each back as its instant. */
  lemma WithoutFractionExactly(s: string, dt: DateTime)
    ensures WithoutFraction(s) == Some(dt) <==> Valid(dt) && SecondsShaped(s, dt)
  {
    if WithoutFraction(s) == Some(dt) {
      var l := DatePartShape(s);
      assert s[..|s|] == s;
    }
    if Valid(dt) && SecondsShaped(s, dt) {
      var l: Layout :| Fits(dt, l) && s == Render(dt, l);
      ParseRenderSeconds(dt, l);
      assert dt.(micro := 0) == dt;
    }
  }
}
