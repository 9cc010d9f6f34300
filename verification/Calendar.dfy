/** Dates of the file server: day numbers as Gregorian dates
    (src/fastapi_mojo_rs/src/bridge/file_protocol.rs). */
module Calendar {
  datatype Date = Date(year: int, month: nat, day: nat)

  // ---------- the calendar itself ----------

  predicate IsLeap(year: int) {
    year % 4 == 0 && (year % 100 != 0 || year % 400 == 0)
  }

  function MonthLength(year: int, month: nat): (days: nat)
    requires 1 <= month <= 12
    ensures 28 <= days <= 31
  {
    if month == 2 then if IsLeap(year) then 29 else 28
    else if month == 4 || month == 6 || month == 9 || month == 11 then 30
    else 31
  }

  predicate IsDate(d: Date) {
    1 <= d.month <= 12 && 1 <= d.day <= MonthLength(d.year, d.month)
  }

  /** The day after. */
  function NextDay(d: Date): (r: Date)
    requires IsDate(d)
    ensures IsDate(r)
  {
    if d.day < MonthLength(d.year, d.month) then d.(day := d.day + 1)
    else if d.month < 12 then Date(d.year, d.month + 1, 1)
    else Date(d.year + 1, 1, 1)
  }

  // ---------- the conversion ----------

  /** Division towards zero, as the machine divides. */
  function Trunc(a: int, b: int): int
    requires b > 0
  {
    if a >= 0 then a / b else -((-a) / b)
  }

  /** A 32-bit signed cast. */
  function AsI32(v: int): int {
    (v + 0x8000_0000) % 0x1_0000_0000 - 0x8000_0000
  }

  const ERA_DAYS: int := 146097

  function YearOfEra(doe: nat): nat
    requires doe < ERA_DAYS
  {
    (doe - doe / 1460 + doe / 36524 - doe / 146096) / 365
  }

  /** Days before year k of an era, years starting in March. */
  function DaysBefore(k: nat): nat {
    365 * k + k / 4 - k / 100
  }

  /** Inside a century the formula finds the year: quadrennia of 1461 days, then years. */
  lemma YearInCentury(c: nat, r: nat)
    requires c <= 3 && r < 36524
    ensures var y := (r - (24 * c + r) / 1460) / 365;
            y < 100 && 365 * y + y / 4 <= r && r < 365 * (y + 1) + (y + 1) / 4
  {
    var q, s := r / 1461, r % 1461;
    var e := if q + s + 24 * c >= 1460 then 1 else 0;
    assert (24 * c + r) / 1460 == q + e;
    var a := (s - e) / 365;
    assert 365 * a <= s - e < 365 * (a + 1) && a <= 3;
    assert (r - (24 * c + r) / 1460) / 365 == 4 * q + a;
    assert (4 * q + a) / 4 == q && (4 * q + a + 1) / 4 == if a == 3 then q + 1 else q;
  }

  lemma CenturySplit(doe: nat)
    requires doe < ERA_DAYS - 1
    ensures var c, r := doe / 36524, doe % 36524;
            c <= 3 && YearOfEra(doe) == 100 * c + (r - (24 * c + r) / 1460) / 365
  {
    var c, r := doe / 36524, doe % 36524;
    assert doe / 1460 == 25 * c + (24 * c + r) / 1460;
    assert doe / 146096 == 0;
  }

  /** The formula finds the year of the era in which the day lies. */
  lemma YearIsRight(doe: nat)
    requires doe < ERA_DAYS
    ensures var k := YearOfEra(doe);
            k < 400 && DaysBefore(k) <= doe && (k < 399 ==> doe < DaysBefore(k + 1))
  {
    if doe < ERA_DAYS - 1 {
      hide DaysBefore, YearOfEra;
      CenturySplit(doe);
      YearInCentury(doe / 36524, doe % 36524);
      YearFromParts(doe / 36524, doe % 36524, YearOfEra(doe) - 100 * (doe / 36524));
    }
  }

  lemma YearFromParts(c: nat, r: nat, y: nat)
    requires c <= 3 && r < 36524 && y < 100
    requires 365 * y + y / 4 <= r && r < 365 * (y + 1) + (y + 1) / 4
    ensures var k := 100 * c + y;
            k < 400 && DaysBefore(k) <= 36524 * c + r
            && (k < 399 ==> 36524 * c + r < DaysBefore(k + 1))
  {
    hide DaysBefore;
    CenturyDays(c, y);
    if y < 99 {
      CenturyDays(c, y + 1);
    } else if c < 3 {
      NextCentury(c);
    }
  }

  lemma CenturyDays(c: nat, y: nat)
    requires c <= 3 && y < 100
    ensures DaysBefore(100 * c + y) == 36524 * c + 365 * y + y / 4
  {
  }

  lemma NextCentury(c: nat)
    requires c < 3
    ensures DaysBefore(100 * c + 100) == 36524 * (c + 1)
  {
  }

  /** Day `doy` of the year that starts on 1 March of `year`. */
  function FromMarch(year: int, doy: nat): Date
    requires doy <= 365
  {
    var mp := (5 * doy + 2) / 153;
    var d := doy - (153 * mp + 2) / 5 + 1;
    var m := if mp < 10 then mp + 3 else mp - 9;
    MonthStarts(doy);
    Date(if m <= 2 then year + 1 else year, m, d)
  }

  /** The first day of each month, counted from 1 March. */
  function MonthStart(mp: nat): nat {
    match mp
    case 0 => 0
    case 1 => 31
    case 2 => 61
    case 3 => 92
    case 4 => 122
    case 5 => 153
    case 6 => 184
    case 7 => 214
    case 8 => 245
    case 9 => 275
    case 10 => 306
    case 11 => 337
    case _ => 367
  }

  lemma MonthStarts(doy: nat)
    requires doy <= 365
    ensures var mp := (5 * doy + 2) / 153;
            mp <= 11 && (153 * mp + 2) / 5 == MonthStart(mp) && MonthStart(mp) <= doy < MonthStart(mp + 1)
  {
    var mp := (5 * doy + 2) / 153;
    assert 153 * mp <= 5 * doy + 2 < 153 * (mp + 1);
  }

  lemma FromMarchAt(year: int, doy: nat, mp: nat)
    requires doy <= 365 && mp <= 11 && MonthStart(mp) <= doy < MonthStart(mp + 1)
    ensures FromMarch(year, doy)
            == Date(if mp >= 10 then year + 1 else year, if mp < 10 then mp + 3 else mp - 9, doy - MonthStart(mp) + 1)
  {
    MonthStarts(doy);
    assert (5 * doy + 2) / 153 == mp;
  }

  function YearLength(year: int): nat {
    if IsLeap(year + 1) then 366 else 365
  }

  /** The months fall as they should, and each day follows the one before. */
  lemma NextInYear(year: int, doy: nat)
    requires doy < YearLength(year)
    ensures IsDate(FromMarch(year, doy))
    ensures doy + 1 < YearLength(year) ==> NextDay(FromMarch(year, doy)) == FromMarch(year, doy + 1)
    ensures doy + 1 == YearLength(year) ==> NextDay(FromMarch(year, doy)) == FromMarch(year + 1, 0)
  {
    hide IsLeap, FromMarch;
    MonthStarts(doy);
    var mp := (5 * doy + 2) / 153;
    FromMarchAt(year, doy, mp);
    if doy + 1 == YearLength(year) {
      FromMarchAt(year + 1, 0, 0);
    } else if doy + 1 < MonthStart(mp + 1) {
      FromMarchAt(year, doy + 1, mp);
    } else {
      FromMarchAt(year, doy + 1, mp + 1);
    }
  }

  // ---------- day numbers ----------

  const EPOCH_SHIFT: int := 719468

  /** The 400-year era of a day counted from 1 March of year 0, rounding down. */
  function EraOf(n: int): int {
    Trunc(if n >= 0 then n else n - (ERA_DAYS - 1), ERA_DAYS)
  }

  lemma EraIsFloor(n: int)
    ensures EraOf(n) == n / ERA_DAYS && n - EraOf(n) * ERA_DAYS == n % ERA_DAYS
  {
    if n < 0 {
      var k := (ERA_DAYS - 1 - n) / ERA_DAYS;
      assert ERA_DAYS * k <= ERA_DAYS - 1 - n < ERA_DAYS * (k + 1);
      assert n / ERA_DAYS == -k;
    }
  }

  /** The date of a day number, day 0 being 1 January 1970. */
  function CivilFromDays(z: int): Date {
    var n := z + EPOCH_SHIFT;
    var era := EraOf(n);
    EraIsFloor(n);
    var doe: nat := n - era * ERA_DAYS;
    YearIsRight(doe);
    var yoe := YearOfEra(doe);
    DayIsSmall(doe);
    FromMarch(AsI32(yoe + era * 400), doe - (365 * yoe + yoe / 4 - yoe / 100))
  }

  lemma DayIsSmall(doe: nat)
    requires doe < ERA_DAYS
    ensures var k := YearOfEra(doe); 0 <= doe - DaysBefore(k) <= 365
  {
    hide YearOfEra;
    YearIsRight(doe);
    LengthOfYear(YearOfEra(doe), 0);
  }

  /** Each year of an era is as long as its February makes it. */
  lemma LengthOfYear(k: nat, era: int)
    requires k < 400
    ensures (if k == 399 then ERA_DAYS else DaysBefore(k + 1)) == DaysBefore(k) + YearLength(k + era * 400)
  {
    hide IsLeap, DaysBefore;
    LeapPeriod(k + 1, era);
    if k < 399 {
      YearStep(k);
    } else {
      assert DaysBefore(399) + 366 == ERA_DAYS && IsLeap(400) by {
        LastLength();
      }
    }
  }

  lemma Modulo4(a: int, k: int)
    ensures (a + 4 * k) % 4 == a % 4
  {
  }

  lemma Modulo100(a: int, k: int)
    ensures (a + 100 * k) % 100 == a % 100
  {
  }

  lemma Modulo400(a: int, k: int)
    ensures (a + 400 * k) % 400 == a % 400
  {
  }

  lemma LeapPeriod(a: int, era: int)
    ensures IsLeap(a + 400 * era) == IsLeap(a)
  {
    Modulo4(a, 100 * era);
    Modulo100(a, 4 * era);
    Modulo400(a, era);
    assert 4 * (100 * era) == 400 * era && 100 * (4 * era) == 400 * era;
  }

  lemma YearStep(k: nat)
    requires k < 399
    ensures DaysBefore(k + 1) == DaysBefore(k) + if IsLeap(k + 1) then 366 else 365
  {
    assert (k + 1) / 4 == k / 4 + (if (k + 1) % 4 == 0 then 1 else 0);
    assert (k + 1) / 100 == k / 100 + (if (k + 1) % 100 == 0 then 1 else 0);
  }

  lemma LastLength()
    ensures DaysBefore(399) + 366 == ERA_DAYS && IsLeap(400)
  {
  }

  /** The March-based year of a day, before any cast. */
  function YearOfDay(z: int): int {
    EraIsFloor(z + EPOCH_SHIFT);
    YearOfEra((z + EPOCH_SHIFT) % ERA_DAYS) + (z + EPOCH_SHIFT) / ERA_DAYS * 400
  }

  /** The year and the one after it fit 32 bits. */
  predicate YearFits(z: int) {
    -0x8000_0000 <= YearOfDay(z) < 0x7fff_ffff
  }

  lemma CivilParts(z: int)
    requires YearFits(z)
    ensures var doe := (z + EPOCH_SHIFT) % ERA_DAYS;
            && 0 <= doe - DaysBefore(YearOfEra(doe)) < YearLength(YearOfDay(z))
            && CivilFromDays(z) == FromMarch(YearOfDay(z), doe - DaysBefore(YearOfEra(doe)))
  {
    hide YearOfEra, FromMarch, YearLength;
    var n := z + EPOCH_SHIFT;
    var doe := n % ERA_DAYS;
    EraIsFloor(n);
    YearIsRight(doe);
    LengthOfYear(YearOfEra(doe), n / ERA_DAYS);
    assert AsI32(YearOfDay(z)) == YearOfDay(z);
  }

  lemma SameYear(doe: nat, k: nat)
    requires doe < ERA_DAYS && k < 400 && DaysBefore(k) <= doe && (k < 399 ==> doe < DaysBefore(k + 1))
    ensures YearOfEra(doe) == k
  {
    hide YearOfEra;
    YearIsRight(doe);
  }

  /** The conversion is the proleptic Gregorian calendar: the next day number is the next
      calendar date. */
  lemma NextDayIsNext(z: int)
    requires YearFits(z) && YearFits(z + 1)
    ensures IsDate(CivilFromDays(z)) && CivilFromDays(z + 1) == NextDay(CivilFromDays(z))
  {
    hide YearOfEra, FromMarch, YearLength, CivilFromDays, DaysBefore;
    var n := z + EPOCH_SHIFT;
    var doe, era := n % ERA_DAYS, n / ERA_DAYS;
    var k := YearOfEra(doe);
    YearIsRight(doe);
    CivilParts(z);
    CivilParts(z + 1);
    NextInYear(YearOfDay(z), doe - DaysBefore(k));
    LengthOfYear(k, era);
    if doe + 1 < ERA_DAYS {
      assert (n + 1) % ERA_DAYS == doe + 1 && (n + 1) / ERA_DAYS == era;
      if k == 399 || doe + 1 < DaysBefore(k + 1) {
        SameYear(doe + 1, k);
      } else {
        NextYearStarts(k + 1);
        SameYear(doe + 1, k + 1);
      }
    } else {
      assert (n + 1) % ERA_DAYS == 0 && (n + 1) / ERA_DAYS == era + 1;
      NextYearStarts(0);
      SameYear(0, 0);
      LastYear(doe);
    }
  }

  lemma NextYearStarts(k: nat)
    ensures DaysBefore(0) == 0 && DaysBefore(k) < DaysBefore(k + 1)
  {
  }

  lemma LastYear(doe: nat)
    requires doe == ERA_DAYS - 1
    ensures YearOfEra(doe) == 399
  {
  }

  lemma Epoch()
    ensures CivilFromDays(0) == Date(1970, 1, 1)
  {
    assert EraOf(EPOCH_SHIFT) == 4 && YearOfEra(EPOCH_SHIFT - 4 * ERA_DAYS) == 369;
  }

  /** The date n days later. */
  function Later(d: Date, n: nat): (r: Date)
    requires IsDate(d)
    ensures IsDate(r)
  {
    if n == 0 then d else NextDay(Later(d, n - 1))
  }

  lemma YearsGrow(a: int, b: int)
    requires a <= b
    ensures YearOfDay(a) <= YearOfDay(b)
  {
    hide YearOfEra, DaysBefore;
    var m, n := a + EPOCH_SHIFT, b + EPOCH_SHIFT;
    EraIsFloor(m);
    EraIsFloor(n);
    YearIsRight(m % ERA_DAYS);
    YearIsRight(n % ERA_DAYS);
    if m / ERA_DAYS == n / ERA_DAYS {
      var j, k := YearOfEra(m % ERA_DAYS), YearOfEra(n % ERA_DAYS);
      if k < j {
        DaysGrow(k + 1, j);
      }
    }
  }

  lemma DaysGrow(j: nat, k: nat)
    requires j <= k
    ensures DaysBefore(j) <= DaysBefore(k)
  {
  }

  /** Day z + n is the date n days after day z, for as long as the years fit. */
  lemma {:induction false} DaysCount(z: int, n: nat)
    requires YearFits(z) && YearFits(z + n)
    ensures IsDate(CivilFromDays(z)) && CivilFromDays(z + n) == Later(CivilFromDays(z), n)
    decreases n
  {
    hide CivilFromDays, YearOfDay, NextDay;
    if n > 0 {
      YearsGrow(z, z + n - 1);
      YearsGrow(z + n - 1, z + n);
      DaysCount(z, n - 1);
      NextDayIsNext(z + n - 1);
    } else {
      DateIsDate(z);
    }
  }

  lemma DateIsDate(z: int)
    requires YearFits(z)
    ensures IsDate(CivilFromDays(z))
  {
    hide YearOfEra, FromMarch, YearLength, CivilFromDays, DaysBefore;
    CivilParts(z);
    var doe := (z + EPOCH_SHIFT) % ERA_DAYS;
    NextInYear(YearOfDay(z), doe - DaysBefore(YearOfEra(doe)));
  }

  // ---------- time stamps ----------

  /** What a time stamp shows; weekday 0 is Monday. */
  datatype Stamp = Stamp(weekday: nat, date: Date, hour: int, minute: int, second: int)

  const DAY: int := 86400

  /** Remainder of division towards zero. */
  function TruncRem(a: int, b: int): int
    requires b > 0
  {
    a - Trunc(a, b) * b
  }

  function WeekdayOf(day: int): nat {
    (day % 7 + 3) % 7
  }

  function StampOf(sec: int): Stamp {
    var rem := TruncRem(sec, DAY);
    var hourRem := TruncRem(rem, 3600);
    Stamp(WeekdayOf(Trunc(sec, DAY)), CivilFromDays(Trunc(sec, DAY)), Trunc(rem, 3600), Trunc(hourRem, 60),
        TruncRem(rem, 60))
  }

  predicate IsTime(s: Stamp) {
    0 <= s.hour < 24 && 0 <= s.minute < 60 && 0 <= s.second < 60
  }

  /** One second later. */
  function Tick(s: Stamp): Stamp
    requires IsDate(s.date) && IsTime(s)
  {
    if s.second < 59 then s.(second := s.second + 1)
    else if s.minute < 59 then s.(minute := s.minute + 1, second := 0)
    else if s.hour < 23 then s.(hour := s.hour + 1, minute := 0, second := 0)
    else Stamp((s.weekday + 1) % 7, NextDay(s.date), 0, 0, 0)
  }

  lemma TimeOfDay(rem: int)
    requires 0 <= rem < DAY
    ensures var h, m, s := rem / 3600, rem % 3600 / 60, rem % 60;
            0 <= h < 24 && 0 <= m < 60 && 0 <= s < 60 && rem == 3600 * h + 60 * m + s
  {
  }

  lemma TimeIsUnique(h: int, m: int, s: int)
    requires 0 <= h < 24 && 0 <= m < 60 && 0 <= s < 60
    ensures var rem := 3600 * h + 60 * m + s;
            0 <= rem < DAY && rem / 3600 == h && rem % 3600 / 60 == m && rem % 60 == s
  {
    assert 60 * m + s < 3600;
  }

  lemma StampParts(sec: int)
    requires sec >= 0
    ensures var rem := sec % DAY;
            StampOf(sec) == Stamp(WeekdayOf(sec / DAY), CivilFromDays(sec / DAY), rem / 3600, rem % 3600 / 60, rem % 60)
  {
    hide CivilFromDays;
    assert TruncRem(sec, DAY) == sec % DAY;
  }

  lemma StampAt(day: nat, h: int, m: int, s: int)
    requires 0 <= h < 24 && 0 <= m < 60 && 0 <= s < 60
    ensures StampOf(DAY * day + 3600 * h + 60 * m + s) == Stamp(WeekdayOf(day), CivilFromDays(day), h, m, s)
  {
    hide CivilFromDays, StampOf, WeekdayOf;
    TimeIsUnique(h, m, s);
    var rem := 3600 * h + 60 * m + s;
    assert (DAY * day + rem) / DAY == day && (DAY * day + rem) % DAY == rem;
    StampParts(DAY * day + rem);
  }

  lemma DateMoves(day: nat)
    requires YearFits(day + 1)
    ensures IsDate(CivilFromDays(day)) && CivilFromDays(day + 1) == NextDay(CivilFromDays(day))
    ensures WeekdayOf(day + 1) == (WeekdayOf(day) + 1) % 7
  {
    hide CivilFromDays, YearOfDay;
    EarlyYear();
    YearsGrow(0, day);
    YearsGrow(day, day + 1);
    NextDayIsNext(day);
  }

  /** From 1970 on the clock is right: each second ticks the time, and at midnight the date
      and the weekday move on together. */
  lemma ClockTicks(sec: int)
    requires sec >= 0 && YearFits(sec / DAY + 1)
    ensures IsDate(StampOf(sec).date) && IsTime(StampOf(sec)) && StampOf(sec + 1) == Tick(StampOf(sec))
  {
    hide CivilFromDays, YearFits, StampOf, WeekdayOf, NextDay;
    var day, rem := sec / DAY, sec % DAY;
    var h, m, s := rem / 3600, rem % 3600 / 60, rem % 60;
    TimeOfDay(rem);
    DateMoves(day);
    NextStamp(day, h, m, s);
  }

  lemma NextStamp(day: nat, h: int, m: int, s: int)
    requires 0 <= h < 24 && 0 <= m < 60 && 0 <= s < 60
    requires IsDate(CivilFromDays(day)) && CivilFromDays(day + 1) == NextDay(CivilFromDays(day))
    requires WeekdayOf(day + 1) == (WeekdayOf(day) + 1) % 7
    ensures var sec := DAY * day + 3600 * h + 60 * m + s;
            IsDate(StampOf(sec).date) && IsTime(StampOf(sec)) && StampOf(sec + 1) == Tick(StampOf(sec))
  {
    hide CivilFromDays, StampOf, WeekdayOf, NextDay;
    StampAt(day, h, m, s);
    if s < 59 {
      StampAt(day, h, m, s + 1);
    } else if m < 59 {
      StampAt(day, h, m + 1, 0);
    } else if h < 23 {
      StampAt(day, h + 1, 0, 0);
    } else {
      StampAt(day + 1, 0, 0, 0);
    }
  }

  lemma EarlyYear()
    ensures YearOfDay(0) == 1969
  {
    assert EPOCH_SHIFT % ERA_DAYS == EPOCH_SHIFT - 4 * ERA_DAYS && EPOCH_SHIFT / ERA_DAYS == 4;
    assert YearOfEra(EPOCH_SHIFT - 4 * ERA_DAYS) == 369;
  }

  /** The first stamp: Thursday, 1 January 1970, midnight. */
  lemma FirstStamp()
    ensures StampOf(0) == Stamp(3, Date(1970, 1, 1), 0, 0, 0)
  {
    hide CivilFromDays, StampOf;
    Epoch();
    StampAt(0, 0, 0, 0);
  }

  lemma NegativeDay(r: int)
    requires r >= 0
    ensures Trunc(-r, DAY) == -(r / DAY) && TruncRem(-r, DAY) == -(r % DAY)
    ensures -r % DAY == 0 <==> r % DAY == 0
  {
  }

  lemma NegativeHour(r: int)
    requires r >= 0
    ensures Trunc(-r, 3600) == -(r / 3600) && TruncRem(-r, 3600) == -(r % 3600)
  {
  }

  lemma NegativeMinute(r: int)
    requires r >= 0
    ensures Trunc(-r, 60) == -(r / 60) && TruncRem(-r, 60) == -(r % 60)
  {
  }

  /** Before 1970 the shown time is a time of day exactly at midnight. */
  lemma EarlierTimesIff(sec: int)
    requires sec < 0
    ensures IsTime(StampOf(sec)) <==> sec % DAY == 0
  {
    hide CivilFromDays, Trunc, TruncRem, WeekdayOf;
    var r := -sec % DAY;
    NegativeDay(-sec);
    NegativeHour(r);
    NegativeMinute(r % 3600);
    NegativeMinute(r);
    TimeOfDay(r);
  }
}
