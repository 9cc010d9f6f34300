/** The text of a time stamp in headers, as in `Sun, 06 Nov 1994 08:49:37 GMT`
    (src/fastapi_mojo_rs/src/bridge/file_protocol.rs). */
module HttpDates {
  import opened Bits
  import opened AsciiText
  import opened Decimals
  import opened Calendar

  function Zeros(n: nat): seq<byte> {
    seq(n, _ => 48)
  }

  /** A number with zeros in front up to the width, after a sign. */
  function Padded(n: int, width: nat): seq<byte> {
    var sign := if n < 0 then [45] else [];
    var digits := Decimal(if n < 0 then -n else n);
    sign + (if |sign| + |digits| < width then Zeros(width - |sign| - |digits|) else []) + digits
  }

  function WeekdayName(weekday: nat): (name: seq<byte>)
    ensures |name| == 3
  {
    match weekday
    case 0 => Ascii("Mon") case 1 => Ascii("Tue") case 2 => Ascii("Wed") case 3 => Ascii("Thu")
    case 4 => Ascii("Fri") case 5 => Ascii("Sat") case _ => Ascii("Sun")
  }

  function MonthName(month: nat): (name: seq<byte>)
    ensures |name| == 3
  {
    match month
    case 1 => Ascii("Jan") case 2 => Ascii("Feb") case 3 => Ascii("Mar") case 4 => Ascii("Apr")
    case 5 => Ascii("May") case 6 => Ascii("Jun") case 7 => Ascii("Jul") case 8 => Ascii("Aug")
    case 9 => Ascii("Sep") case 10 => Ascii("Oct") case 11 => Ascii("Nov") case _ => Ascii("Dec")
  }

  function DateText(d: Date): seq<byte> {
    Padded(d.day, 2) + [32] + MonthName(d.month) + [32] + Padded(d.year, 4)
  }

  function TimeText(hour: int, minute: int, second: int): seq<byte> {
    Padded(hour, 2) + [58] + Padded(minute, 2) + [58] + Padded(second, 2)
  }

  function Text(s: Stamp): seq<byte> {
    WeekdayName(s.weekday) + [44, 32] + DateText(s.date) + [32] + TimeText(s.hour, s.minute, s.second) + Ascii(" GMT")
  }

  // ---------- the text tells the stamp ----------

  lemma OneMore(n: nat, width: nat)
    requires width > 0
    ensures Padded(n, width + 1) == Padded(n / 10, width) + [48 + n % 10]
  {
    if n >= 10 {
      assert Decimal(n) == Decimal(n / 10) + [48 + n % 10];
    } else {
      assert Zeros(width) == Zeros(width - 1) + [48];
    }
  }

  lemma OneDigit(n: nat)
    requires n < 10
    ensures Padded(n, 1) == [48 + n]
  {
  }

  lemma TwoDigits(n: nat)
    requires n < 100
    ensures Padded(n, 2) == [48 + n / 10, 48 + n % 10]
  {
    hide Padded;
    OneMore(n, 1);
    OneDigit(n / 10);
  }

  lemma FourDigits(n: nat)
    requires n < 10000
    ensures Padded(n, 4) == [48 + n / 1000, 48 + n / 100 % 10, 48 + n / 10 % 10, 48 + n % 10]
  {
    hide Padded;
    OneMore(n, 3);
    OneMore(n / 10, 2);
    assert n / 10 / 10 == n / 100 && n / 100 / 10 == n / 1000;
    TwoDigits(n / 100);
  }

  /** A stamp of a real date and time, with a year of at most four digits. */
  predicate Shown(s: Stamp) {
    s.weekday < 7 && IsDate(s.date) && IsTime(s) && 0 <= s.date.year <= 9999
  }

  lemma DateLayout(d: Date)
    requires IsDate(d) && 0 <= d.year <= 9999
    ensures DateText(d) == [48 + d.day / 10, 48 + d.day % 10, 32] + MonthName(d.month)
                           + [32, 48 + d.year / 1000, 48 + d.year / 100 % 10, 48 + d.year / 10 % 10, 48 + d.year % 10]
  {
    hide Padded, MonthName;
    TwoDigits(d.day);
    FourDigits(d.year);
  }

  lemma TimeLayout(hour: nat, minute: nat, second: nat)
    requires hour < 100 && minute < 100 && second < 100
    ensures TimeText(hour, minute, second)
            == [48 + hour / 10, 48 + hour % 10, 58, 48 + minute / 10, 48 + minute % 10, 58,
                48 + second / 10, 48 + second % 10]
  {
    hide Padded;
    TwoDigits(hour);
    TwoDigits(minute);
    TwoDigits(second);
  }

  lemma Pieces(s: Stamp)
    requires |DateText(s.date)| == 11 && |TimeText(s.hour, s.minute, s.second)| == 8
    ensures |Text(s)| == 29 && Text(s)[..3] == WeekdayName(s.weekday) && Text(s)[5..16] == DateText(s.date)
    ensures Text(s)[17..25] == TimeText(s.hour, s.minute, s.second)
    ensures Text(s)[3..5] == [44, 32] && Text(s)[16..17] == [32] && Text(s)[25..] == Ascii(" GMT")
  {
    hide DateText, TimeText, WeekdayName, Ascii;
  }

  lemma WeekdaysDiffer(a: nat, b: nat)
    requires a < 7 && b < 7 && WeekdayName(a) == WeekdayName(b)
    ensures a == b
  {
    hide WeekdayName;
    WeekdayLetters(a);
    WeekdayLetters(b);
  }

  lemma MonthsDiffer(a: nat, b: nat)
    requires 1 <= a <= 12 && 1 <= b <= 12 && MonthName(a) == MonthName(b)
    ensures a == b
  {
    hide MonthName;
    MonthLetters(a);
    MonthLetters(b);
  }

  lemma WeekdayLetters(a: nat)
    requires a < 7
    ensures WeekdayName(a)[0] == [77, 84, 87, 84, 70, 83, 83][a]
    ensures WeekdayName(a)[1] == [111, 117, 101, 104, 114, 97, 117][a]
  {
  }

  lemma MonthLetters(a: nat)
    requires 1 <= a <= 12
    ensures MonthName(a)[1] == [97, 101, 97, 112, 97, 117, 117, 117, 101, 99, 111, 101][a - 1]
    ensures MonthName(a)[2] == [110, 98, 114, 114, 121, 110, 108, 103, 112, 116, 118, 99][a - 1]
  {
  }

  /** Two different stamps never look alike. */
  lemma TextTellsStamp(a: Stamp, b: Stamp)
    requires Shown(a) && Shown(b) && Text(a) == Text(b)
    ensures a == b
  {
    hide DateText, TimeText, WeekdayName, Text, IsDate;
    Lengths(a);
    Lengths(b);
    Pieces(a);
    Pieces(b);
    WeekdaysDiffer(a.weekday, b.weekday);
    DatesDiffer(a.date, b.date);
    TimesDiffer(a, b);
  }

  lemma Lengths(s: Stamp)
    requires Shown(s)
    ensures |DateText(s.date)| == 11 && |TimeText(s.hour, s.minute, s.second)| == 8
  {
    hide DateText, TimeText;
    DateLayout(s.date);
    TimeLayout(s.hour, s.minute, s.second);
  }

  lemma DatesDiffer(a: Date, b: Date)
    requires IsDate(a) && IsDate(b) && 0 <= a.year <= 9999 && 0 <= b.year <= 9999 && DateText(a) == DateText(b)
    ensures a == b
  {
    hide DateText, MonthName;
    DateLayout(a);
    DateLayout(b);
    var s, t := DateText(a), DateText(b);
    assert s[0] == t[0] && s[1] == t[1];
    assert s[3..6] == MonthName(a.month) && t[3..6] == MonthName(b.month);
    MonthsDiffer(a.month, b.month);
    assert s[7] == t[7] && s[8] == t[8] && s[9] == t[9] && s[10] == t[10];
    FromDigits(a.year);
    FromDigits(b.year);
  }

  lemma FromDigits(n: nat)
    ensures n == 1000 * (n / 1000) + 100 * (n / 100 % 10) + 10 * (n / 10 % 10) + n % 10
  {
    var tens, hundreds := n / 10, n / 100;
    assert n == 10 * tens + n % 10;
    assert hundreds == tens / 10 && n / 1000 == hundreds / 10;
    assert tens == 10 * hundreds + tens % 10;
    assert hundreds == 10 * (n / 1000) + hundreds % 10;
  }

  lemma TimesDiffer(a: Stamp, b: Stamp)
    requires IsTime(a) && IsTime(b)
    requires TimeText(a.hour, a.minute, a.second) == TimeText(b.hour, b.minute, b.second)
    ensures a.hour == b.hour && a.minute == b.minute && a.second == b.second
  {
    hide TimeText;
    TimeLayout(a.hour, a.minute, a.second);
    TimeLayout(b.hour, b.minute, b.second);
    var s, t := TimeText(a.hour, a.minute, a.second), TimeText(b.hour, b.minute, b.second);
    assert s[0] == t[0] && s[1] == t[1] && s[3] == t[3] && s[4] == t[4] && s[6] == t[6] && s[7] == t[7];
  }

  // ---------- known dates ----------

  /** A date the file server's tests give: 1788996557 seconds after 1970. */
  lemma SomeSeptember()
    ensures Text(StampOf(1788996557))
            == Ascii("Wed") + [44, 32] + Ascii("09 Sep 2026") + [32] + Ascii("23:29:17") + Ascii(" GMT")
  {
    hide StampOf, CivilFromDays, DateText, TimeText, Ascii, WeekdayOf;
    SeptemberDay();
    StampAt(20705, 23, 29, 17);
    SeptemberDate();
    SeptemberTime();
    assert WeekdayName(2) == Ascii("Wed");
  }

  lemma SeptemberDay()
    ensures CivilFromDays(20705) == Date(2026, 9, 9) && WeekdayOf(20705) == 2
  {
    hide YearFits, YearOfDay, DaysBefore, Later, NextDay;
    assert EraOf(20705 + EPOCH_SHIFT) == 5;
    assert YearOfEra(9688) == 26;
  }

  lemma SeptemberDate()
    ensures DateText(Date(2026, 9, 9)) == Ascii("09 Sep 2026")
  {
    hide DateText, Ascii;
    DateLayout(Date(2026, 9, 9));
    assert MonthName(9) == Ascii("Sep");
    SeptemberWords();
  }

  lemma SeptemberWords()
    ensures Ascii("09 Sep 2026") == [48, 57, 32] + Ascii("Sep") + [32, 50, 48, 50, 54]
  {
  }

  lemma SeptemberTime()
    ensures TimeText(23, 29, 17) == Ascii("23:29:17")
  {
    hide TimeText;
    TimeLayout(23, 29, 17);
  }

  /** The leap day of the year 2000. */
  lemma LeapDay()
    ensures StampOf(951782400) == Stamp(1, Date(2000, 2, 29), 0, 0, 0)
  {
    hide StampOf, CivilFromDays, WeekdayOf;
    assert DAY * 11016 + 3600 * 0 + 60 * 0 + 0 == 951782400;
    LeapDate();
    StampAt(11016, 0, 0, 0);
  }

  lemma LeapDate()
    ensures CivilFromDays(11016) == Date(2000, 2, 29) && WeekdayOf(11016) == 1
  {
    hide YearFits, YearOfDay, DaysBefore, Later, NextDay, FromMarch, EraOf, YearOfEra, AsI32;
    LeapEra();
    assert FromMarch(1999, 365) == Date(2000, 2, 29) by {
      LastOfFebruary();
    }
  }

  lemma LeapEra()
    ensures EraOf(11016 + EPOCH_SHIFT) == 4 && YearOfEra(146096) == 399 && AsI32(399 + 4 * 400) == 1999
  {
  }

  lemma LastOfFebruary()
    ensures FromMarch(1999, 365) == Date(2000, 2, 29)
  {
  }
}
