/** Timezone-aware datetimes, their UTC normalisation and their ISO-8601 text. */
module Timestamps {

  import opened Results
  import opened Text

  const MICROS_PER_DAY := 86_400_000_000
  const MAX_YEAR := 9999

  /** Calendar fields of a proleptic Gregorian datetime, as Python's `datetime` keeps them. */
  datatype DateTime = DateTime(year: nat, month: nat, day: nat, hour: nat, minute: nat, second: nat, micro: nat)
  {
    predicate Valid() {
      && 1 <= year <= MAX_YEAR && 1 <= month <= 12 && 1 <= day <= DaysInMonth(year, month)
      && hour < 24 && minute < 60 && second < 60 && micro < 1_000_000
    }
  }

  /** A datetime known to be in UTC. */
  type Utc = d: DateTime | d.Valid() witness EPOCH

  const EPOCH := DateTime(1970, 1, 1, 0, 0, 0, 0)

  /** A datetime as callers supply it; `offset` is `utcoffset()` in microseconds, absent when naive. */
  datatype Stamp = Stamp(local: Utc, offset: Option<int>)

  datatype TimeError = NaiveTimestamp | OutOfRange | BadFormat

  // ---------------------------------------------------------------- calendar

  predicate IsLeap(year: nat) {
    year % 4 == 0 && (year % 100 != 0 || year % 400 == 0)
  }

  function DaysInMonth(year: nat, month: nat): nat {
    if month == 2 then (if IsLeap(year) then 29 else 28)
    else if month == 4 || month == 6 || month == 9 || month == 11 then 30
    else 31
  }

  function DaysInYear(year: nat): nat {
    if IsLeap(year) then 366 else 365
  }

  function DaysBeforeYear(year: nat): nat
    requires year >= 1
  {
    (year - 1) * 365 + (year - 1) / 4 - (year - 1) / 100 + (year - 1) / 400
  }

  function DaysBeforeMonth(year: nat, month: nat): nat
    requires 1 <= month
  {
    if month == 1 then 0 else DaysBeforeMonth(year, month - 1) + DaysInMonth(year, month - 1)
  }

  /** Microseconds from the start of year 1: the point on the time line a UTC datetime denotes. */
  function Instant(d: DateTime): nat
    requires d.Valid()
  {
    DayNumber(d) * MICROS_PER_DAY + DayMicros(d)
  }

  function DayNumber(d: DateTime): nat
    requires d.Valid()
  {
    DaysBeforeYear(d.year) + DaysBeforeMonth(d.year, d.month) + d.day - 1
  }

  function DayMicros(d: DateTime): (m: nat)
    requires d.Valid()
    ensures m < MICROS_PER_DAY
  {
    ((d.hour * 60 + d.minute) * 60 + d.second) * 1_000_000 + d.micro
  }

  lemma NextQuotients(n: nat)
    ensures (n + 1) / 4 == n / 4 + if (n + 1) % 4 == 0 then 1 else 0
    ensures (n + 1) / 100 == n / 100 + if (n + 1) % 100 == 0 then 1 else 0
    ensures (n + 1) / 400 == n / 400 + if (n + 1) % 400 == 0 then 1 else 0
  {
  }

  lemma {:induction false} CenturiesAreMultiplesOfFour(year: nat)
    requires year % 100 == 0
    ensures year % 4 == 0
  {
    if year >= 100 {
      CenturiesAreMultiplesOfFour(year - 100);
    }
  }

  lemma {:induction false} FourthCenturiesAreCenturies(year: nat)
    requires year % 400 == 0
    ensures year % 100 == 0
  {
    if year >= 400 {
      FourthCenturiesAreCenturies(year - 400);
    }
  }

  lemma YearLength(year: nat)
    requires year >= 1
    ensures DaysBeforeYear(year + 1) == DaysBeforeYear(year) + DaysInYear(year)
  {
    NextQuotients(year - 1);
    if year % 400 == 0 {
      FourthCenturiesAreCenturies(year);
    }
    if year % 100 == 0 {
      CenturiesAreMultiplesOfFour(year);
    }
  }

  lemma {:induction false} YearsIncrease(y: nat, z: nat)
    requires 1 <= y < z
    ensures DaysBeforeYear(y) + DaysInYear(y) <= DaysBeforeYear(z)
    decreases z
  {
    if y + 1 < z {
      YearsIncrease(y, z - 1);
      YearLength(z - 1);
    } else {
      YearLength(y);
    }
  }

  lemma {:induction false} MonthsIncrease(year: nat, m: nat, k: nat)
    requires 1 <= m < k <= 13
    ensures DaysBeforeMonth(year, m) + DaysInMonth(year, m) <= DaysBeforeMonth(year, k)
    decreases k
  {
    if m + 1 < k {
      MonthsIncrease(year, m, k - 1);
    }
  }

  lemma MonthsFillYear(year: nat)
    ensures DaysBeforeMonth(year, 13) == DaysInYear(year)
  {
    assert DaysBeforeMonth(year, 2) == 31;
    assert DaysBeforeMonth(year, 3) == 31 + DaysInMonth(year, 2);
    assert DaysBeforeMonth(year, 5) == DaysBeforeMonth(year, 3) + 61;
    assert DaysBeforeMonth(year, 7) == DaysBeforeMonth(year, 5) + 61;
    assert DaysBeforeMonth(year, 9) == DaysBeforeMonth(year, 7) + 62;
    assert DaysBeforeMonth(year, 11) == DaysBeforeMonth(year, 9) + 61;
  }

  // ---------------------------------------------------------------- order of fields and of instants

  /** Field-by-field order, most significant field first. */
  predicate FieldsLess(a: DateTime, b: DateTime) {
    || a.year < b.year
    || (a.year == b.year && (
            || a.month < b.month
            || (a.month == b.month && (
                    || a.day < b.day
                    || (a.day == b.day && ClockLess(a, b))))))
  }

  predicate ClockLess(a: DateTime, b: DateTime) {
    || a.hour < b.hour
    || (a.hour == b.hour && (
            || a.minute < b.minute
            || (a.minute == b.minute && (
                    || a.second < b.second
                    || (a.second == b.second && a.micro < b.micro)))))
  }

  lemma DaysFollowFields(a: Utc, b: Utc)
    requires FieldsLess(a, b)
    ensures DayNumber(a) < DayNumber(b) || (DayNumber(a) == DayNumber(b) && ClockLess(a, b))
  {
    MonthsFillYear(a.year);
    MonthsIncrease(a.year, a.month, 13);
    if a.year < b.year {
      YearsIncrease(a.year, b.year);
    } else if a.month < b.month {
      MonthsIncrease(a.year, a.month, b.month);
    }
  }

  lemma FieldsLessMeansEarlier(a: Utc, b: Utc)
    requires FieldsLess(a, b)
    ensures Instant(a) < Instant(b)
  {
    DaysFollowFields(a, b);
    assert ClockLess(a, b) ==> DayMicros(a) < DayMicros(b);
  }

  /** Comparing fields is comparing instants; in particular distinct datetimes are distinct instants. */
  lemma FieldOrderIsTimeOrder(a: Utc, b: Utc)
    ensures FieldsLess(a, b) <==> Instant(a) < Instant(b)
    ensures a == b <==> Instant(a) == Instant(b)
  {
    if FieldsLess(a, b) {
      FieldsLessMeansEarlier(a, b);
    } else if FieldsLess(b, a) {
      FieldsLessMeansEarlier(b, a);
    } else {
      assert a == b;
    }
  }

  // ---------------------------------------------------------------- back from instants

  const LAST_DAY: nat := DaysBeforeYear(MAX_YEAR + 1)

  function YearOf(days: nat, from: nat): (year: nat)
    requires 1 <= from <= MAX_YEAR && DaysBeforeYear(from) <= days < LAST_DAY
    ensures from <= year <= MAX_YEAR
    ensures DaysBeforeYear(year) <= days < DaysBeforeYear(year + 1)
    decreases MAX_YEAR - from
  {
    if days < DaysBeforeYear(from + 1) then from else YearOf(days, from + 1)
  }

  function MonthOf(year: nat, days: nat, from: nat): (month: nat)
    requires 1 <= from <= 12 && DaysBeforeMonth(year, from) <= days < DaysBeforeMonth(year, 13)
    ensures from <= month <= 12
    ensures DaysBeforeMonth(year, month) <= days < DaysBeforeMonth(year, month + 1)
    decreases 12 - from
  {
    if days < DaysBeforeMonth(year, from + 1) then from else MonthOf(year, days, from + 1)
  }

  function DateOf(days: nat): (d: DateTime)
    requires days < LAST_DAY
    ensures d.Valid() && DayNumber(d) == days && DayMicros(d) == 0
  {
    assert DaysBeforeYear(1) == 0;
    var year := YearOf(days, 1);
    YearLength(year);
    MonthsFillYear(year);
    var dayOfYear := days - DaysBeforeYear(year);
    var month := MonthOf(year, dayOfYear, 1);
    DateTime(year, month, dayOfYear - DaysBeforeMonth(year, month) + 1, 0, 0, 0, 0)
  }

  function AtTime(d: DateTime, micros: nat): (r: DateTime)
    requires d.Valid() && micros < MICROS_PER_DAY
    ensures r.Valid() && DayNumber(r) == DayNumber(d) && DayMicros(r) == micros
  {
    var seconds := micros / 1_000_000;
    var minutes := seconds / 60;
    d.(hour := minutes / 60, minute := minutes % 60, second := seconds % 60, micro := micros % 1_000_000)
  }

  function FromInstant(instant: int): (r: Result<Utc, TimeError>)
    ensures r.Ok? <==> 0 <= instant < LAST_DAY * MICROS_PER_DAY
    ensures r.Ok? ==> Instant(r.value) == instant
    ensures r.Err? ==> r.error == OutOfRange
  {
    if instant < 0 || instant >= LAST_DAY * MICROS_PER_DAY then Err(OutOfRange)
    else Ok(AtTime(DateOf(instant / MICROS_PER_DAY), instant % MICROS_PER_DAY))
  }

  lemma FromInstantInverse(d: Utc)
    ensures FromInstant(Instant(d)) == Ok(d)
  {
    YearsFit(d);
    FieldOrderIsTimeOrder(FromInstant(Instant(d)).value, d);
  }

  lemma YearsFit(d: Utc)
    ensures Instant(d) < LAST_DAY * MICROS_PER_DAY
  {
    MonthsFillYear(d.year);
    MonthsIncrease(d.year, d.month, 13);
    YearsIncrease(d.year, MAX_YEAR + 1);
  }

  /** The stamp carries an offset, and its point in time lies in the calendar's range. */
  predicate HasUtc(stamp: Stamp) {
    stamp.offset.Some? && 0 <= Instant(stamp.local) - stamp.offset.value < LAST_DAY * MICROS_PER_DAY
  }

  /** `value.astimezone(UTC)` behind the timezone-aware check. */
  function Normalize(stamp: Stamp): (r: Result<Utc, TimeError>)
    ensures r.Ok? <==> HasUtc(stamp)
    ensures r.Ok? ==> Instant(r.value) == Instant(stamp.local) - stamp.offset.value
  {
    if stamp.offset.None? then Err(NaiveTimestamp)
    else FromInstant(Instant(stamp.local) - stamp.offset.value)
  }

  /** Normalising what is already UTC changes nothing. */
  lemma NormalizeUtc(d: Utc)
    ensures Normalize(Stamp(d, Some(0))) == Ok(d)
  {
    FromInstantInverse(d);
  }

  /** The first point in time that no datetime can denote. */
  const END_OF_TIME: nat := LAST_DAY * MICROS_PER_DAY

  /** `now + timedelta(...)`, normalised: defined exactly up to the end of the calendar. */
  function Later(now: Utc, delay: nat): (r: Result<Utc, TimeError>)
    ensures r.Ok? <==> Instant(now) + delay < END_OF_TIME
    ensures r.Ok? ==> Instant(r.value) == Instant(now) + delay
  {
    FromInstant(Instant(now) + delay)
  }

  // ---------------------------------------------------------------- text

  function Field(n: nat, w: nat, sep: char, rest: string): string {
    Padded(n, w) + ([sep] + rest)
  }

  const UTC_SUFFIX := "+00:00"

  /** Python's `isoformat` omits the fraction when it is zero. */
  function Tail(micro: nat): string {
    if micro == 0 then UTC_SUFFIX else "." + (Padded(micro, 6) + UTC_SUFFIX)
  }

  /** `isoformat()` of a UTC datetime. */
  function IsoFormat(d: Utc): string {
    Field(d.year, 4, '-', Field(d.month, 2, '-', Field(d.day, 2, 'T',
      Field(d.hour, 2, ':', Field(d.minute, 2, ':', Padded(d.second, 2) + Tail(d.micro))))))
  }

  lemma IsoFormatWidth(d: Utc)
    ensures |IsoFormat(d)| == if d.micro == 0 then 25 else 32
  {
  }

  lemma PaddedThen(n: nat, m: nat, w: nat, s: string, t: string)
    requires n < Pow10(w) && m < Pow10(w)
    ensures Less(Padded(n, w) + s, Padded(m, w) + t) <==> n < m || (n == m && Less(s, t))
  {
    LessConcat(Padded(n, w), Padded(m, w), s, t);
    if n < m {
      PaddedOrder(n, m, w);
    } else if m < n {
      PaddedOrder(m, n, w);
      if Less(Padded(n, w), Padded(m, w)) {
        LessTransitive(Padded(n, w), Padded(m, w), Padded(n, w));
      }
      LessIrreflexive(Padded(n, w));
    } else {
      LessIrreflexive(Padded(n, w));
    }
  }

  lemma FieldThen(n: nat, m: nat, w: nat, sep: char, s: string, t: string)
    requires n < Pow10(w) && m < Pow10(w)
    ensures Less(Field(n, w, sep, s), Field(m, w, sep, t)) <==> n < m || (n == m && Less(s, t))
  {
    PaddedThen(n, m, w, [sep] + s, [sep] + t);
    LessConcat([sep], [sep], s, t);
    LessIrreflexive([sep]);
  }

  /** The omitted fraction sorts first because '+' precedes '.'. */
  lemma TailOrder(a: nat, b: nat)
    requires a < 1_000_000 && b < 1_000_000
    ensures Less(Tail(a), Tail(b)) <==> a < b
  {
    assert Pow10(6) == 1_000_000 by { assert Pow10(3) == 1000; assert Pow10(5) == 100 * Pow10(3); }
    if a == 0 && b == 0 {
      LessIrreflexive(UTC_SUFFIX);
    } else if a != 0 && b != 0 {
      LessIrreflexive(UTC_SUFFIX);
      LessIrreflexive(".");
      PaddedThen(a, b, 6, UTC_SUFFIX, UTC_SUFFIX);
      LessConcat(".", ".", Padded(a, 6) + UTC_SUFFIX, Padded(b, 6) + UTC_SUFFIX);
    }
  }

  lemma ClockTextOrder(a: Utc, b: Utc)
    ensures
      var s := Field(a.hour, 2, ':', Field(a.minute, 2, ':', Padded(a.second, 2) + Tail(a.micro)));
      var t := Field(b.hour, 2, ':', Field(b.minute, 2, ':', Padded(b.second, 2) + Tail(b.micro)));
      Less(s, t) <==> ClockLess(a, b)
  {
    TailOrder(a.micro, b.micro);
    var s1, t1 := Padded(a.second, 2) + Tail(a.micro), Padded(b.second, 2) + Tail(b.micro);
    PaddedThen(a.second, b.second, 2, Tail(a.micro), Tail(b.micro));
    var s2, t2 := Field(a.minute, 2, ':', s1), Field(b.minute, 2, ':', t1);
    FieldThen(a.minute, b.minute, 2, ':', s1, t1);
    FieldThen(a.hour, b.hour, 2, ':', s2, t2);
  }

  /** Comparing the stored texts is comparing points in time, with or without fractions. */
  lemma TextOrderIsTimeOrder(a: Utc, b: Utc)
    ensures Less(IsoFormat(a), IsoFormat(b)) <==> Instant(a) < Instant(b)
    ensures AtMost(IsoFormat(a), IsoFormat(b)) <==> Instant(a) <= Instant(b)
  {
    ClockTextOrder(a, b);
    FieldOrderIsTimeOrder(a, b);
    var s1 := Field(a.hour, 2, ':', Field(a.minute, 2, ':', Padded(a.second, 2) + Tail(a.micro)));
    var t1 := Field(b.hour, 2, ':', Field(b.minute, 2, ':', Padded(b.second, 2) + Tail(b.micro)));
    var s2, t2 := Field(a.day, 2, 'T', s1), Field(b.day, 2, 'T', t1);
    FieldThen(a.day, b.day, 2, 'T', s1, t1);
    var s3, t3 := Field(a.month, 2, '-', s2), Field(b.month, 2, '-', t2);
    FieldThen(a.month, b.month, 2, '-', s2, t2);
    assert Pow10(4) == 10000 by { assert Pow10(2) == 100; }
    FieldThen(a.year, b.year, 4, '-', s3, t3);
    if IsoFormat(a) == IsoFormat(b) {
      ParseIsoFormat(a);
      ParseIsoFormat(b);
    }
  }

  // ---------------------------------------------------------------- parsing

  function TakeNumber(s: string, w: nat): Option<(nat, string)> {
    if |s| >= w && AllDigits(s[..w]) then Some((Number(s[..w]), s[w..])) else None
  }

  function TakeField(s: string, w: nat, sep: char): Option<(nat, string)> {
    match TakeNumber(s, w)
    case Some((n, rest)) => if rest != "" && rest[0] == sep then Some((n, rest[1..])) else None
    case None => None
  }

  /** Hours and minutes of a UTC offset, in microseconds. */
  function ParseOffset(s: string): Option<int> {
    if s == "" || (s[0] != '+' && s[0] != '-') then None
    else
      match TakeField(s[1..], 2, ':')
      case None => None
      case Some((h, rest)) =>
        match TakeNumber(rest, 2)
        case None => None
        case Some((m, end)) =>
          if end != "" || h >= 24 || m >= 60 then None
          else
            var micros := (h * 60 + m) * 60_000_000;
            Some(if s[0] == '-' then -micros else micros)
  }

  /** The optional six-digit fraction and then the offset. */
  function ParseTail(s: string): Option<(nat, int)> {
    if s != "" && s[0] == '.' then
      match TakeNumber(s[1..], 6)
      case None => None
      case Some((micro, rest)) =>
        match ParseOffset(rest)
        case None => None
        case Some(offset) => Some((micro, offset))
    else
      match ParseOffset(s)
      case None => None
      case Some(offset) => Some((0, offset))
  }

  /** Hour, minute, second, microsecond and offset. */
  function ParseClock(s: string): Option<(nat, nat, nat, nat, int)> {
    match TakeField(s, 2, ':')
    case None => None
    case Some((hour, s1)) =>
      match TakeField(s1, 2, ':')
      case None => None
      case Some((minute, s2)) =>
        match TakeNumber(s2, 2)
        case None => None
        case Some((second, s3)) =>
          match ParseTail(s3)
          case None => None
          case Some((micro, offset)) => Some((hour, minute, second, micro, offset))
  }

  /** Year, month, day and the text after the separator. */
  function ParseDate(text: string): Option<(nat, nat, nat, string)> {
    match TakeField(text, 4, '-')
    case None => None
    case Some((year, s1)) =>
      match TakeField(s1, 2, '-')
      case None => None
      case Some((month, s2)) =>
        match TakeField(s2, 2, 'T')
        case None => None
        case Some((day, s3)) => Some((year, month, day, s3))
  }

  function ParseFields(text: string): Option<(DateTime, int)> {
    match ParseDate(text)
    case None => None
    case Some((year, month, day, clock)) =>
      match ParseClock(clock)
      case None => None
      case Some((hour, minute, second, micro, offset)) =>
        Some((DateTime(year, month, day, hour, minute, second, micro), offset))
  }

  /** `datetime.fromisoformat` on the extended format with a numeric offset. */
  function FromIsoFormat(text: string): Result<Stamp, TimeError> {
    match ParseFields(text)
    case Some((d, offset)) => if d.Valid() then Ok(Stamp(d, Some(offset))) else Err(BadFormat)
    case None => Err(BadFormat)
  }

  lemma TakeNumberPadded(n: nat, w: nat, rest: string)
    requires n < Pow10(w)
    ensures TakeNumber(Padded(n, w) + rest, w) == Some((n, rest))
  {
    PaddedNumber(n, w);
    assert (Padded(n, w) + rest)[..w] == Padded(n, w);
    assert (Padded(n, w) + rest)[w..] == rest;
  }

  lemma TakeFieldPadded(n: nat, w: nat, sep: char, rest: string)
    requires n < Pow10(w)
    ensures TakeField(Field(n, w, sep, rest), w, sep) == Some((n, rest))
  {
    TakeNumberPadded(n, w, [sep] + rest);
    assert ([sep] + rest)[1..] == rest;
  }

  lemma ParseUtcSuffix()
    ensures ParseOffset(UTC_SUFFIX) == Some(0)
  {
    assert Padded(0, 2) == "00" by { assert Padded(0, 1) == "0"; }
    assert UTC_SUFFIX[1..] == Field(0, 2, ':', Padded(0, 2) + "");
    TakeFieldPadded(0, 2, ':', Padded(0, 2) + "");
    TakeNumberPadded(0, 2, "");
  }

  lemma ParseTailInverse(micro: nat)
    requires micro < 1_000_000
    ensures ParseTail(Tail(micro)) == Some((micro, 0))
  {
    ParseUtcSuffix();
    if micro != 0 {
      assert Pow10(6) == 1_000_000 by { assert Pow10(3) == 1000; assert Pow10(5) == 100 * Pow10(3); }
      TakeNumberPadded(micro, 6, UTC_SUFFIX);
      assert Tail(micro)[1..] == Padded(micro, 6) + UTC_SUFFIX;
    }
  }

  lemma ParseClockInverse(d: Utc)
    ensures
      ParseClock(Field(d.hour, 2, ':', Field(d.minute, 2, ':', Padded(d.second, 2) + Tail(d.micro))))
      == Some((d.hour, d.minute, d.second, d.micro, 0))
  {
    assert Pow10(2) == 100;
    var s2 := Padded(d.second, 2) + Tail(d.micro);
    var s1 := Field(d.minute, 2, ':', s2);
    TakeFieldPadded(d.hour, 2, ':', s1);
    TakeFieldPadded(d.minute, 2, ':', s2);
    TakeNumberPadded(d.second, 2, Tail(d.micro));
    ParseTailInverse(d.micro);
  }

  lemma ParseDateInverse(d: Utc, clock: string)
    ensures
      ParseDate(Field(d.year, 4, '-', Field(d.month, 2, '-', Field(d.day, 2, 'T', clock))))
      == Some((d.year, d.month, d.day, clock))
  {
    assert Pow10(2) == 100;
    assert Pow10(4) == 10000;
    var s2 := Field(d.day, 2, 'T', clock);
    var s1 := Field(d.month, 2, '-', s2);
    TakeFieldPadded(d.year, 4, '-', s1);
    TakeFieldPadded(d.month, 2, '-', s2);
    TakeFieldPadded(d.day, 2, 'T', clock);
  }

  /** Reading back what `isoformat` wrote. */
  lemma ParseIsoFormat(d: Utc)
    ensures FromIsoFormat(IsoFormat(d)) == Ok(Stamp(d, Some(0)))
  {
    hide ParseDate, ParseClock, Field;
    ParseDateInverse(d, Field(d.hour, 2, ':', Field(d.minute, 2, ':', Padded(d.second, 2) + Tail(d.micro))));
    ParseClockInverse(d);
  }

  // ---------------------------------------------------------------- fixed points of the calendar and its text

  /** Day counts and texts that fix the calendar and the format from outside. */
  lemma CalendarLandmarks()
    ensures Instant(EPOCH) == 719_162 * 86_400 * 1_000_000 && END_OF_TIME == 3_652_059 * 86_400 * 1_000_000
    ensures !IsLeap(1900) && IsLeap(2000) && IsLeap(2024) && !IsLeap(2023)
  {
    EpochDay();
  }

  lemma EpochDay()
    ensures DaysBeforeYear(1970) == 719_162 && DaysBeforeYear(10000) == 3_652_059
    ensures Instant(EPOCH) == 719_162 * 86_400 * 1_000_000
  {
  }

  predicate Reads(text: string, from: nat, to: nat, n: nat) {
    from <= to <= |text| && AllDigits(text[from..to]) && Number(text[from..to]) == n
  }

  lemma FieldReads(n: nat, w: nat, sep: char, rest: string)
    requires n < Pow10(w)
    ensures |Field(n, w, sep, rest)| == w + 1 + |rest|
    ensures Reads(Field(n, w, sep, rest), 0, w, n)
    ensures Field(n, w, sep, rest)[w] == sep && Field(n, w, sep, rest)[w + 1..] == rest
  {
    PaddedNumber(n, w);
    assert Field(n, w, sep, rest)[0..w] == Padded(n, w);
  }

  /** What stands where in the text, as a reader of ISO 8601 takes it. */
  lemma IsoFormatReads(d: Utc)
    ensures
      var t := IsoFormat(d);
      && |t| >= 25 && Reads(t, 0, 4, d.year) && Reads(t, 5, 7, d.month) && Reads(t, 8, 10, d.day)
      && Reads(t, 11, 13, d.hour) && Reads(t, 14, 16, d.minute) && Reads(t, 17, 19, d.second)
      && t[4] == '-' && t[7] == '-' && t[10] == 'T' && t[13] == ':' && t[16] == ':'
      && (d.micro == 0 ==> t[19..] == "+00:00")
      && (d.micro > 0 ==> |t| == 32 && t[19] == '.' && Reads(t, 20, 26, d.micro) && t[26..] == "+00:00")
  {
    hide Padded, Field, Number, AllDigits;
    Widths();
    var s5 := Padded(d.second, 2) + Tail(d.micro);
    var s4 := Field(d.minute, 2, ':', s5);
    var s3 := Field(d.hour, 2, ':', s4);
    var s2 := Field(d.day, 2, 'T', s3);
    var s1 := Field(d.month, 2, '-', s2);
    FieldReads(d.year, 4, '-', s1);
    FieldReads(d.month, 2, '-', s2);
    FieldReads(d.day, 2, 'T', s3);
    FieldReads(d.hour, 2, ':', s4);
    FieldReads(d.minute, 2, ':', s5);
    SecondsRead(d.second, d.micro);
    var t := IsoFormat(d);
    Nested(t, 5, s1, 2, d.month, s2);
    Nested(t, 8, s2, 2, d.day, s3);
    Nested(t, 11, s3, 2, d.hour, s4);
    Nested(t, 14, s4, 2, d.minute, s5);
    Shifted(t, 17, s5, 0, 2, d.second);
    assert t[17..][2..] == t[19..];
    if d.micro > 0 {
      Shifted(t, 17, s5, 3, 9, d.micro);
      assert t[17..][9..] == t[26..];
    }
  }

  lemma Widths()
    ensures Pow10(2) == 100 && Pow10(4) == 10000 && Pow10(6) == 1_000_000
  {
    assert Pow10(3) == 1000;
    assert Pow10(5) == 100_000;
  }

  lemma SecondsRead(second: nat, micro: nat)
    requires second < 60 && micro < 1_000_000
    ensures
      var s := Padded(second, 2) + Tail(micro);
      && Reads(s, 0, 2, second)
      && (micro == 0 ==> |s| == 8 && s[2..] == "+00:00")
      && (micro > 0 ==> |s| == 15 && s[2] == '.' && Reads(s, 3, 9, micro) && s[9..] == "+00:00")
  {
    hide Padded, Number, AllDigits;
    Widths();
    PaddedNumber(second, 2);
    PaddedNumber(micro, 6);
    var s := Padded(second, 2) + Tail(micro);
    assert s[0..2] == Padded(second, 2);
    if micro > 0 {
      assert s[3..9] == Padded(micro, 6);
    }
  }

  lemma Shifted(t: string, at: nat, s: string, from: nat, to: nat, n: nat)
    requires at <= |t| && t[at..] == s && Reads(s, from, to, n)
    ensures Reads(t, at + from, at + to, n)
  {
    hide Number, AllDigits;
    assert |t[at + from..at + to]| == |s[from..to]|;
    assert forall i :: 0 <= i < to - from ==> t[at + from..at + to][i] == t[at..][from + i] == s[from..to][i];
    assert t[at + from..at + to] == s[from..to];
  }

  lemma Nested(t: string, at: nat, s: string, w: nat, n: nat, rest: string)
    requires at <= |t| && t[at..] == s && Reads(s, 0, w, n) && |s| == w + 1 + |rest| && s[w + 1..] == rest
    ensures Reads(t, at, at + w, n) && t[at + w] == s[w] && t[at + w + 1..] == rest
  {
    hide Reads;
    Shifted(t, at, s, 0, w, n);
    assert t[at..][w + 1..] == t[at + w + 1..];
  }

  // ---------------------------------------------------------------- stored columns

  /** Bind conversion of the `String(32)` timestamp column, and of spooled timestamps. */
  function Store(stamp: Stamp): Result<string, TimeError> {
    var utc :- Normalize(stamp);
    Ok(IsoFormat(utc))
  }

  function Load(text: string): Result<Utc, TimeError> {
    var stamp :- FromIsoFormat(text);
    Normalize(stamp)
  }

  /** Whatever the offset, a stored timestamp fits its column and loads as the same instant. */
  lemma StoreLoad(stamp: Stamp)
    ensures Store(stamp).Ok? <==> HasUtc(stamp)
    ensures Store(stamp).Ok? ==>
              && (|Store(stamp).value| == 25 || |Store(stamp).value| == 32)
              && Load(Store(stamp).value) == Normalize(stamp)
              && Instant(Load(Store(stamp).value).value) == Instant(stamp.local) - stamp.offset.value
  {
    if Normalize(stamp).Ok? {
      var utc := Normalize(stamp).value;
      ParseIsoFormat(utc);
      NormalizeUtc(utc);
      IsoFormatWidth(utc);
    }
  }
}
