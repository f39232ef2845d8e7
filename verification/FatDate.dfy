/** FAT timestamps against a calendar that counts days one by one. */
module FatDate {
  import opened Instants
  import opened Wrappers

  const NANOS_PER_TENTH: nat := 10_000_000
  const NANOS_PER_SEC: nat := 1_000_000_000
  const EPOCH_SECONDS: nat := 315_532_800
  const END_SECONDS: nat := 4_354_819_200
  const DAY: nat := 86_400
  const MAX_OFFSET: int := 1439

  // ------------------------------------------------------------------
  // The calendar
  // ------------------------------------------------------------------

  datatype Date = Date(year: int, month: int, day: int)

  predicate Leap(year: int) {
    year % 4 == 0 && (year % 100 != 0 || year % 400 == 0)
  }

  function DaysInMonth(year: int, month: int): nat {
    if month in {1, 3, 5, 7, 8, 10, 12} then 31
    else if month in {4, 6, 9, 11} then 30
    else if month == 2 then (if Leap(year) then 29 else 28)
    else 0
  }

  predicate Real(d: Date) {
    1 <= d.month <= 12 && 1 <= d.day <= DaysInMonth(d.year, d.month)
  }

  function Tomorrow(d: Date): Date {
    if d.day < DaysInMonth(d.year, d.month) then Date(d.year, d.month, d.day + 1)
    else if d.month < 12 then Date(d.year, d.month + 1, 1)
    else Date(d.year + 1, 1, 1)
  }

  /** The date `n` days after 1970-01-01. */
  function DateAfter(n: nat): (d: Date)
    ensures Real(d)
  {
    if n == 0 then Date(1970, 1, 1) else Tomorrow(DateAfter(n - 1))
  }

  // ------------------------------------------------------------------
  // Days as the code counts them, years starting in March
  // ------------------------------------------------------------------

  /** The first day of month `mp` of a year that starts in March. */
  function MonthStart(mp: nat): nat {
    (153 * mp + 2) / 5
  }

  function YearStart(y: nat): nat {
    365 * y + y / 4 - y / 100 + y / 400
  }

  function MarchYear(d: Date): nat
    requires Real(d) && d.year > 0
  {
    if d.month <= 2 then d.year - 1 else d.year
  }

  function MarchMonth(d: Date): nat
    requires Real(d)
  {
    if d.month > 2 then d.month - 3 else d.month + 9
  }

  /** Days since the first of March of the year 0. */
  function DayNumber(d: Date): nat
    requires Real(d) && d.year > 0
  {
    YearStart(MarchYear(d)) + MonthStart(MarchMonth(d)) + d.day - 1
  }

  /** Each day's number is one more than the day before's. */
  lemma NextDay(d: Date)
    requires Real(d) && d.year > 0
    ensures Real(Tomorrow(d)) && DayNumber(Tomorrow(d)) == DayNumber(d) + 1
  {
    hide YearStart;
    if d.month == 2 && d.day == DaysInMonth(d.year, 2) {
      MarchFirst(d.year);
    }
  }

  /** The year that starts in March has a leap day at its end when the next calendar year is leap. */
  lemma MarchFirst(year: nat)
    requires year > 0
    ensures YearStart(year) == YearStart(year - 1) + 365 + if Leap(year) then 1 else 0
  {
    Quotients(year, 4);
    Quotients(year, 100);
    Quotients(year, 400);
    Nested(year);
  }

  lemma Nested(year: nat)
    ensures (year % 400 == 0 ==> year % 100 == 0) && (year % 100 == 0 ==> year % 4 == 0)
  {
    if year % 400 == 0 {
      assert year == 100 * (4 * (year / 400));
    }
    if year % 100 == 0 {
      assert year == 4 * (25 * (year / 100));
    }
  }

  lemma Quotients(n: nat, k: nat)
    requires n > 0 && k in {4, 100, 400}
    ensures (n - 1) / k == if n % k == 0 then n / k - 1 else n / k
  {
  }

  /** The date reached by counting `n` days from 1970-01-01 has that number. */
  lemma {:induction false} DateNumber(n: nat)
    ensures DateAfter(n).year >= 1970 && DayNumber(DateAfter(n)) == n + 719_468
  {
    hide YearStart;
    if n == 0 {
      assert YearStart(1969) == 719_162 by { FirstYear(); }
    } else {
      DateNumber(n - 1);
      NextDay(DateAfter(n - 1));
    }
  }

  lemma FirstYear()
    ensures YearStart(1969) == 719_162
  {
  }

  // ------------------------------------------------------------------
  // From a day's number back to its date
  // ------------------------------------------------------------------

  /** Year and day of the year from the day of a 400-year era. */
  function YearOfEra(doe: nat): nat {
    (doe - doe / 1460 + doe / 36_524 - doe / 146_096) / 365
  }

  /** The date of a day's number: civil-from-days. */
  function CivilFrom(z: nat): Date {
    var era := z / 146_097;
    var doe := z - era * 146_097;
    var yoe := YearOfEra(doe);
    var doy := doe - (365 * yoe + yoe / 4 - yoe / 100);
    var mp := (5 * doy + 2) / 153;
    var month := if mp < 10 then mp + 3 else mp - 9;
    Date(yoe + era * 400 + (if month <= 2 then 1 else 0), month, doy - (153 * mp + 2) / 5 + 1)
  }

  /** The year is recovered from its day, counting centuries, four-year cycles and years of a cycle. */
  lemma YearFound(c: nat, q: nat, r: nat, doy: nat)
    requires c < 4 && q < 25 && r < 4 && doy <= 364 + (if r == 3 && (q < 24 || c == 3) then 1 else 0)
    ensures var doe := 36_524 * c + 1461 * q + 365 * r + doy;
            doe < 146_097 && YearOfEra(doe) == 100 * c + 4 * q + r
  {
    var doe := 36_524 * c + 1461 * q + 365 * r + doy;
    var left := 24 * c + q + 365 * r + doy;
    var k := 25 * c + q;
    assert doe == 1460 * k + left;
    var late := if left >= 1460 then 1 else 0;
    assert doe / 1460 == k + late;
    assert doe == 36_524 * c + (1461 * q + 365 * r + doy);
    var full := if doe == 146_096 then 1 else 0;
    assert doe / 36_524 == c + full;
    assert doe / 146_096 == full;
    var y := 100 * c + 4 * q + r;
    assert doe - doe / 1460 + doe / 36_524 - doe / 146_096 == 365 * y + (doy - late);
    assert 0 <= doy - late < 365;
  }

  /** The month is recovered from the day of a year that starts in March. */
  lemma MonthFound(mp: nat, day: nat)
    requires mp < 12 && 1 <= day && MonthStart(mp) + day <= MonthStart(mp + 1)
    ensures (5 * (MonthStart(mp) + day - 1) + 2) / 153 == mp
  {
  }

  lemma MonthLength(d: Date)
    requires Real(d)
    ensures MarchMonth(d) < 12
    ensures d.month != 2 ==> DaysInMonth(d.year, d.month) == MonthStart(MarchMonth(d) + 1) - MonthStart(MarchMonth(d))
    ensures d.month == 2 ==> MonthStart(MarchMonth(d)) == 337 && DaysInMonth(d.year, 2) == 28 + if Leap(d.year) then 1 else 0
    ensures MonthStart(MarchMonth(d)) + d.day - 1 <= 364 + if d.month == 2 && Leap(d.year) then 1 else 0
    ensures MonthStart(MarchMonth(d)) + d.day <= MonthStart(MarchMonth(d) + 1)
  {
  }

  /** A year as eras, centuries, cycles and years. */
  lemma YearParts(y: nat) returns (era: nat, c: nat, q: nat, r: nat)
    ensures c < 4 && q < 25 && r < 4 && y == 400 * era + 100 * c + 4 * q + r
    ensures YearStart(y) == 146_097 * era + 36_524 * c + 1461 * q + 365 * r
    ensures Leap(y + 1) ==> r == 3 && (q < 24 || c == 3)
    ensures var yoe := 100 * c + 4 * q + r; yoe / 4 - yoe / 100 == 24 * c + q
  {
    era := y / 400;
    var ofEra := y - 400 * era;
    c := ofEra / 100;
    var ofCentury := ofEra - 100 * c;
    q := ofCentury / 4;
    r := ofCentury - 4 * q;
    YearQuotients(y, era, c, q, r);
    YearQuotients(100 * c + 4 * q + r, 0, c, q, r);
    LeapEnd(y, era, c, q, r);
  }

  lemma Divided(n: nat, d: nat, k: nat, rest: nat)
    requires d in {4, 100, 400} && n == k * d + rest && rest < d
    ensures n / d == k && n % d == rest
  {
  }

  lemma YearQuotients(y: nat, era: nat, c: nat, q: nat, r: nat)
    requires c < 4 && q < 25 && r < 4 && y == 400 * era + 100 * c + 4 * q + r
    ensures y / 4 == 100 * era + 25 * c + q && y / 100 == 4 * era + c && y / 400 == era && y % 4 == r
  {
    Divided(y, 4, 100 * era + 25 * c + q, r);
    Divided(y, 100, 4 * era + c, 4 * q + r);
    Divided(y, 400, era, 100 * c + 4 * q + r);
  }

  /** A leap year ends the March year before it. */
  lemma LeapEnd(y: nat, era: nat, c: nat, q: nat, r: nat)
    requires c < 4 && q < 25 && r < 4 && y == 400 * era + 100 * c + 4 * q + r
    ensures Leap(y + 1) ==> r == 3 && (q < 24 || c == 3)
  {
    hide Leap;
    if r < 3 {
      Divided(y + 1, 4, 100 * era + 25 * c + q, r + 1);
      NotLeap(y + 1);
    } else if q == 24 && c < 3 {
      Divided(y + 1, 100, 4 * era + c + 1, 0);
      Divided(y + 1, 400, era, 100 * (c + 1));
      NotLeap(y + 1);
    }
  }

  lemma NotLeap(year: nat)
    ensures year % 4 != 0 || (year % 100 == 0 && year % 400 != 0) ==> !Leap(year)
  {
  }

  lemma EraFound(era: nat, doe: nat)
    requires doe < 146_097
    ensures (146_097 * era + doe) / 146_097 == era
  {
  }

  /** The date is put together from what was recovered of it. */
  lemma CivilOf(era: nat, yoe: nat, mp: nat, day: nat, doe: nat)
    requires doe < 146_097 && YearOfEra(doe) == yoe && doe == 365 * yoe + yoe / 4 - yoe / 100 + MonthStart(mp) + day - 1
    requires mp < 12 && 1 <= day && MonthStart(mp) + day <= MonthStart(mp + 1)
    ensures CivilFrom(146_097 * era + doe) ==
            Date(yoe + 400 * era + (if mp < 10 then 0 else 1), if mp < 10 then mp + 3 else mp - 9, day)
  {
    hide YearOfEra;
    EraFound(era, doe);
    MonthFound(mp, day);
  }

  /** The date of a month and year counted from March. */
  lemma MarchBack(d: Date)
    requires Real(d) && d.year > 0
    ensures var mp := MarchMonth(d);
            d == Date(MarchYear(d) + (if mp < 10 then 0 else 1), if mp < 10 then mp + 3 else mp - 9, d.day)
    ensures d.month == 2 && Leap(d.year) ==> Leap(MarchYear(d) + 1)
  {
    hide Leap, DaysInMonth;
  }

  /** The code's date of a day's number is the date it is the number of. */
  lemma CivilIs(d: Date)
    requires Real(d) && d.year > 0
    ensures CivilFrom(DayNumber(d)) == d
  {
    hide YearOfEra, YearStart, Leap, DaysInMonth, CivilFrom, MarchYear, MarchMonth, MonthStart;
    var y, mp := MarchYear(d), MarchMonth(d);
    var era, c, q, r := YearParts(y);
    MonthLength(d);
    MarchBack(d);
    var doy := MonthStart(mp) + d.day - 1;
    YearFound(c, q, r, doy);
    CivilOf(era, 100 * c + 4 * q + r, mp, d.day, 36_524 * c + 1461 * q + 365 * r + doy);
  }

  lemma {:induction false} YearsGrow(a: nat, b: nat)
    requires a <= b
    ensures YearStart(a) <= YearStart(b) && (a < b ==> YearStart(a) + 365 <= YearStart(b))
    decreases b - a
  {
    hide YearStart;
    if a < b {
      MarchFirst(b);
      YearsGrow(a, b - 1);
    }
  }

  /** The range FAT stores is 1980 to 2107: its first day and the day after its last. */
  lemma YearRange(n: nat)
    ensures DayNumber(Date(1980, 1, 1)) == 3652 + 719_468 && DayNumber(Date(2108, 1, 1)) == 50_403 + 719_468
    ensures 3652 <= n < 50_403 ==> 1980 <= DateAfter(n).year <= 2107
  {
    assert YearStart(1979) == 722_814 && YearStart(2107) == 769_565;
    hide YearStart, DateAfter;
    DateNumber(n);
    var d := DateAfter(n);
    MarchFirst(d.year);
    MonthLength(d);
    if d.year < 1980 {
      YearsGrow(d.year, 1979);
    } else if d.year > 2107 {
      YearsGrow(2107, d.year - 1);
    }
  }

  // ------------------------------------------------------------------
  // Encoding and decoding
  // ------------------------------------------------------------------

  predicate ValidOffset(offset: Option<int>) {
    offset.Some? ==> -MAX_OFFSET <= offset.value <= MAX_OFFSET
  }

  predicate ValidTime(t: DateTime) {
    t.nanos < NANOS_PER_SEC && ValidOffset(t.offset)
  }

  /** The date, time and 10 ms fields of a directory entry. */
  datatype Stamp = Stamp(date: int, time: int, tenths: int)

  const MIN: Stamp := Stamp(33, 0, 0)
  const MAX: Stamp := Stamp(127 * 512 + 12 * 32 + 31, 23 * 2048 + 59 * 32 + 29, 199)

  /** Packs calendar fields; years are clamped, the others masked. */
  function Pack(year: int, month: int, day: int, hour: nat, minute: nat, second: nat): (int, int) {
    var offset := if year < 1980 then 0 else if year - 1980 > 127 then 127 else year - 1980;
    (offset * 512 + month % 16 * 32 + day % 32, hour % 32 * 2048 + minute % 64 * 32 + second / 2 % 32)
  }

  function Minutes(offset: Option<int>): int {
    if offset.Some? then offset.value else 0
  }

  /** Seconds of the local time that `zone`, or the recorded offset, makes of an instant. */
  function Local(t: DateTime, zone: Option<int>): int {
    t.seconds + 60 * Minutes(if zone.Some? && ValidOffset(zone) then zone else t.offset)
  }

  function EncodeStamp(t: DateTime, zone: Option<int>): Stamp {
    var local := Local(t, zone);
    if local < EPOCH_SECONDS then MIN
    else if local >= END_SECONDS then MAX
    else
      var seconds := local - EPOCH_SECONDS;
      var clock := seconds % DAY;
      var d := CivilFrom(seconds / DAY + 723_120);
      var (date, time) := Pack(d.year, d.month, d.day, clock / 3600, clock / 60 % 60, clock % 60);
      Stamp(date, time, clock % 60 % 2 * 100 + t.nanos / NANOS_PER_TENTH)
  }

  /** Days since 1970-01-01: days-from-civil. */
  function DaysFromCivil(year: int, month: int, day: int): int {
    var y := if month <= 2 then year - 1 else year;
    var era := y / 400;
    var yoe := y - era * 400;
    var mp := if month > 2 then month - 3 else month + 9;
    var doy := (153 * mp + 2) / 5 + day - 1;
    era * 146_097 + (yoe * 365 + yoe / 4 - yoe / 100 + doy) - 719_468
  }

  function DecodeStamp(s: Stamp, zone: Option<int>): Option<DateTime> {
    var d := Date(1980 + s.date / 512, s.date / 32 % 16, s.date % 32);
    var hour, minute, second := s.time / 2048, s.time / 32 % 64, s.time % 32 * 2;
    if !Real(d) || hour > 23 || minute > 59 || second > 59 || !ValidOffset(zone) then None
    else
      var base := DaysFromCivil(d.year, d.month, d.day) * DAY + hour * 3600 + minute * 60 + second;
      var tenths := if s.tenths > 199 then 0 else s.tenths;
      Some(DateTime(base + tenths / 100 - Minutes(zone) * 60, tenths % 100 * NANOS_PER_TENTH, zone))
  }

  /** The date field of a date in range, and the time field of a second of the day. */
  function DateField(d: Date): int {
    (d.year - 1980) * 512 + d.month * 32 + d.day
  }

  function TimeField(clock: nat): nat {
    clock / 3600 * 2048 + clock / 60 % 60 * 32 + clock % 60 / 2
  }

  /** Seconds past an even one and nanoseconds, in units of 10 ms. */
  function Tenths(clock: nat, nanos: nat): nat {
    clock % 2 * 100 + nanos / NANOS_PER_TENTH
  }

  /** Nanoseconds rounded down to 10 ms. */
  function Rounded(nanos: nat): nat {
    nanos / NANOS_PER_TENTH * NANOS_PER_TENTH
  }

  /** The triple of a local time: its true Gregorian date, its time of day, and its 10 ms. */
  function TrueStamp(local: nat, nanos: nat): Stamp {
    Stamp(DateField(DateAfter(local / DAY)), TimeField(local % DAY), Tenths(local % DAY, nanos))
  }

  /**
   * What a zone does: an instant is stored as the UTC instant that many minutes later. A zone of 24 hours
   * or more gives way to the offset recorded with the instant, and that one counts as given.
   */
  lemma ZoneShifts(seconds: int, nanos: nat, recorded: Option<int>, zone: int)
    ensures -1440 < zone < 1440 ==>
              EncodeStamp(DateTime(seconds, nanos, recorded), Some(zone)) ==
              EncodeStamp(DateTime(seconds + zone * 60, nanos, None), None)
    ensures zone <= -1440 || zone >= 1440 ==>
              EncodeStamp(DateTime(seconds, nanos, recorded), Some(zone)) ==
              EncodeStamp(DateTime(seconds, nanos, recorded), None)
    ensures EncodeStamp(DateTime(seconds, nanos, Some(zone)), None) ==
            EncodeStamp(DateTime(seconds + zone * 60, nanos, None), None)
  {
    hide EncodeStamp;
    var t, u := DateTime(seconds, nanos, recorded), DateTime(seconds + zone * 60, nanos, None);
    var v := DateTime(seconds, nanos, Some(zone));
    SameLocal(t, Some(zone), u, None);
    SameLocal(t, Some(zone), t, None);
    SameLocal(v, None, u, None);
  }

  lemma SameLocal(t: DateTime, zone: Option<int>, u: DateTime, other: Option<int>)
    ensures Local(t, zone) == Local(u, other) && t.nanos == u.nanos ==> EncodeStamp(t, zone) == EncodeStamp(u, other)
  {
    hide CivilFrom, Pack, Local;
  }

  /** Inside the range the true date and time of day are stored. */
  lemma EncodedTruly(t: DateTime, zone: Option<int>)
    requires EPOCH_SECONDS <= Local(t, zone) < END_SECONDS
    ensures EncodeStamp(t, zone) == TrueStamp(Local(t, zone), t.nanos)
    ensures 1980 <= DateAfter(Local(t, zone) / DAY).year <= 2107
  {
    hide CivilFrom, DateAfter, YearStart, Pack, DateField, TimeField;
    var local := Local(t, zone);
    var d := DateAfter(local / DAY);
    DayAndClock(local);
    DateNumber(local / DAY);
    CivilIs(d);
    YearRange(local / DAY);
    PackFields(d, local % DAY);
  }

  lemma PackFields(d: Date, clock: nat)
    requires Real(d) && 1980 <= d.year <= 2107 && clock < DAY
    ensures Pack(d.year, d.month, d.day, clock / 3600, clock / 60 % 60, clock % 60) == (DateField(d), TimeField(clock))
  {
    ClockFields(clock);
    assert d.day <= 31;
  }

  lemma DayAndClock(local: int)
    requires EPOCH_SECONDS <= local < END_SECONDS
    ensures (local - EPOCH_SECONDS) / DAY == local / DAY - 3652 && (local - EPOCH_SECONDS) % DAY == local % DAY
    ensures 3652 <= local / DAY < 50_403 && local % DAY % 60 % 2 == local % DAY % 2 == local % 2
  {
    var days, clock := local / DAY, local % DAY;
    assert local == DAY * days + clock;
    assert local - EPOCH_SECONDS == DAY * (days - 3652) + clock;
    SameParity(clock, clock / 60, clock % 60, 30);
    SameParity(local, days, clock, 43_200);
  }

  lemma SameParity(n: nat, q: nat, r: nat, half: nat)
    requires n == 2 * half * q + r
    ensures n % 2 == r % 2
  {
    assert n == 2 * (half * q) + r;
  }

  lemma ClockFields(clock: nat)
    requires clock < DAY
    ensures clock / 3600 < 24 && clock / 60 % 60 < 60 && clock % 60 / 2 < 30
    ensures clock == clock / 3600 * 3600 + clock / 60 % 60 * 60 + clock % 60
    ensures clock % 60 == clock % 60 / 2 * 2 + clock % 60 % 2
  {
    var minutes := clock / 60;
    assert minutes / 60 == clock / 3600;
  }

  /** Days-from-civil counts the days of the calendar. */
  lemma DaysFromIs(d: Date)
    requires Real(d) && d.year > 0
    ensures DaysFromCivil(d.year, d.month, d.day) == DayNumber(d) - 719_468
  {
    hide YearStart, Leap, DaysInMonth;
    var y := MarchYear(d);
    var era, c, q, r := YearParts(y);
    YearQuotients(y, era, c, q, r);
  }

  /**
   * The stored triple reads back as the local time rounded down to 10 ms, taken in the reading
   * zone; in the zone it was written in that is the same instant.
   */
  lemma StampRoundTrip(t: DateTime, zone: Option<int>, reading: Option<int>)
    requires ValidTime(t) && ValidOffset(reading) && EPOCH_SECONDS <= Local(t, zone) < END_SECONDS
    ensures DecodeStamp(EncodeStamp(t, zone), reading) ==
            Some(DateTime(Local(t, zone) - 60 * Minutes(reading), Rounded(t.nanos), reading))
    ensures zone.Some? && reading == zone ==> Local(t, zone) - 60 * Minutes(reading) == t.seconds
  {
    hide CivilFrom, DateAfter, YearStart, EncodeStamp, DaysFromCivil;
    var local := Local(t, zone);
    var d := DateAfter(local / DAY);
    EncodedTruly(t, zone);
    DateNumber(local / DAY);
    DaysFromIs(d);
    DateFields(d);
    TimeFields(local % DAY);
    ClockFields(local % DAY);
    assert local % DAY % 60 % 2 == local % DAY % 2 == local % 2 by { DayAndClock(local); }
    TenthsFields(local % 2, t.nanos);
  }

  lemma DateFields(d: Date)
    requires Real(d) && 1980 <= d.year <= 2107
    ensures var f := DateField(d);
            f >= 0 && 1980 + f / 512 == d.year && f / 32 % 16 == d.month && f % 32 == d.day
  {
    assert d.day <= 31;
    hide Leap, DaysInMonth;
    DateParts(d.year - 1980, d.month, d.day);
  }

  lemma DateParts(y: nat, m: nat, d: nat)
    requires m < 16 && d < 32
    ensures var f := y * 512 + m * 32 + d; f / 512 == y && f / 32 % 16 == m && f % 32 == d
  {
    var f, g := y * 512 + m * 32 + d, y * 16 + m;
    assert f == 32 * g + d;
    assert f / 32 == g;
    assert f / 512 == g / 16;
  }

  lemma TimeFields(clock: nat)
    requires clock < DAY
    ensures var f := TimeField(clock);
            f / 2048 == clock / 3600 && f / 32 % 64 == clock / 60 % 60 && f % 32 == clock % 60 / 2
  {
    ClockFields(clock);
    var h, m, s := clock / 3600, clock / 60 % 60, clock % 60 / 2;
    TimeParts(h, m, s);
  }

  lemma TimeParts(h: nat, m: nat, s: nat)
    requires m < 64 && s < 32
    ensures var f := h * 2048 + m * 32 + s; f / 2048 == h && f / 32 % 64 == m && f % 32 == s
  {
  }

  lemma TenthsFields(odd: nat, nanos: nat)
    requires odd < 2 && nanos < NANOS_PER_SEC
    ensures var f := odd * 100 + nanos / NANOS_PER_TENTH; f <= 199 && f / 100 == odd && f % 100 == nanos / NANOS_PER_TENTH
  {
  }

  // ------------------------------------------------------------------
  // Order
  // ------------------------------------------------------------------

  /** Field by field, as the triple is compared. */
  predicate NotAfter(a: Stamp, b: Stamp) {
    a.date < b.date || (a.date == b.date && (a.time < b.time || (a.time == b.time && a.tenths <= b.tenths)))
  }

  lemma {:induction false} DatesGrow(m: nat, n: nat)
    requires m <= n
    ensures DateField(DateAfter(m)) + (n - m) <= DateField(DateAfter(n))
    decreases n - m
  {
    if m < n {
      DatesGrow(m, n - 1);
    }
  }

  lemma ClocksGrow(a: nat, b: nat)
    requires a <= b < DAY
    ensures TimeField(a) < TimeField(b) || (TimeField(a) == TimeField(b) && a / 2 == b / 2)
  {
    ClockFields(a);
    ClockFields(b);
    assert a / 3600 <= b / 3600;
    if a / 3600 == b / 3600 {
      assert a / 60 % 60 <= b / 60 % 60;
    }
  }

  /** The stored triple never decreases as local time grows, inside the range and at its ends. */
  lemma StampsOrdered(t: DateTime, zone: Option<int>, u: DateTime, zone2: Option<int>)
    requires ValidTime(t) && ValidTime(u)
    requires Local(t, zone) < Local(u, zone2) || (Local(t, zone) == Local(u, zone2) && t.nanos <= u.nanos)
    ensures NotAfter(EncodeStamp(t, zone), EncodeStamp(u, zone2))
  {
    hide EncodeStamp;
    StampRange(t, zone);
    StampRange(u, zone2);
    var a, b := Local(t, zone), Local(u, zone2);
    if EPOCH_SECONDS <= a && b < END_SECONDS {
      EncodedTruly(t, zone);
      EncodedTruly(u, zone2);
      InsideOrdered(a, t.nanos, b, u.nanos);
    }
  }

  lemma TenthsGrow(a: nat, nanosA: nat, b: nat, nanosB: nat)
    requires a / 2 == b / 2 && (a < b || (a == b && nanosA <= nanosB)) && nanosA < NANOS_PER_SEC && nanosB < NANOS_PER_SEC
    ensures Tenths(a, nanosA) <= Tenths(b, nanosB)
  {
  }

  lemma InsideOrdered(a: nat, nanosA: nat, b: nat, nanosB: nat)
    requires a < b || (a == b && nanosA <= nanosB)
    requires nanosA < NANOS_PER_SEC && nanosB < NANOS_PER_SEC
    ensures NotAfter(TrueStamp(a, nanosA), TrueStamp(b, nanosB))
  {
    hide DateAfter, TimeField, DateField, Tenths;
    Later(a, b);
    var m, n := a / DAY, b / DAY;
    DatesGrow(m, n);
    if m == n {
      var c, d := a % DAY, b % DAY;
      ClocksGrow(c, d);
      if c / 2 == d / 2 {
        TenthsGrow(c, nanosA, d, nanosB);
      }
    }
  }

  lemma Later(a: nat, b: nat)
    requires a <= b
    ensures a / DAY <= b / DAY && (a / DAY == b / DAY && a < b ==> a % DAY < b % DAY)
  {
    assert a == DAY * (a / DAY) + a % DAY && b == DAY * (b / DAY) + b % DAY;
  }

  /** Every stored triple lies between the ends. */
  lemma StampRange(t: DateTime, zone: Option<int>)
    requires ValidTime(t)
    ensures NotAfter(MIN, EncodeStamp(t, zone)) && NotAfter(EncodeStamp(t, zone), MAX)
    ensures Local(t, zone) < EPOCH_SECONDS ==> EncodeStamp(t, zone) == MIN
    ensures Local(t, zone) >= END_SECONDS ==> EncodeStamp(t, zone) == MAX
  {
    hide DateAfter, CivilFrom;
    var local := Local(t, zone);
    if EPOCH_SECONDS <= local < END_SECONDS {
      hide EncodeStamp;
      EncodedTruly(t, zone);
      ClockFields(local % DAY);
      TenthsFields(local % DAY % 2, t.nanos);
      var d := DateAfter(local / DAY);
      assert Real(d);
    }
  }

  /** The ends are the first and the last instant of the range. */
  lemma EndsTrue()
    ensures EncodeStamp(DateTime(EPOCH_SECONDS, 0, None), None) == MIN
    ensures EncodeStamp(DateTime(END_SECONDS - 1, NANOS_PER_SEC - 1, None), None) == MAX
  {
    hide EncodeStamp, DateAfter, TimeField;
    EncodedTruly(DateTime(EPOCH_SECONDS, 0, None), None);
    EncodedTruly(DateTime(END_SECONDS - 1, NANOS_PER_SEC - 1, None), None);
    DatesNamed();
    assert EPOCH_SECONDS / DAY == 3652 && EPOCH_SECONDS % DAY == 0;
    assert (END_SECONDS - 1) / DAY == 50_402 && (END_SECONDS - 1) % DAY == 86_399;
    assert TimeField(0) == 0 && TimeField(86_399) == MAX.time by { Clocks(); }
  }

  lemma Clocks()
    ensures TimeField(0) == 0 && TimeField(86_399) == MAX.time
  {
  }

  /** The range starts on 1 January 1980 and ends before 1 January 2108. */
  lemma DatesNamed()
    ensures DateAfter(3652) == Date(1980, 1, 1) && DateAfter(50_402) == Date(2107, 12, 31)
  {
    hide DateAfter, YearStart, CivilFrom;
    YearRange(0);
    NextDay(Date(2107, 12, 31));
    DateNumber(3652);
    DateNumber(50_402);
    CivilIs(Date(1980, 1, 1));
    CivilIs(Date(2107, 12, 31));
    CivilIs(DateAfter(3652));
    CivilIs(DateAfter(50_402));
  }
}
