/**
 * Week arithmetic of the board, on day numbers instead of JavaScript `Date`s:
 * day 0 is 1970-01-01 (a Thursday) and every later or earlier calendar day is
 * one more or one less. Years are proleptic Gregorian.
 */
module Calendar {
  import opened Json

  /** `Date.prototype.getDay()`: 0 is Sunday, 1 Monday, ..., 6 Saturday. */
  function JsWeekday(day: int): int {
    (day + 4) % 7
  }

  /** `getUTCDay() || 7`: the ISO weekday, 1 Monday ... 7 Sunday. */
  function IsoWeekday(day: int): (w: int)
    ensures 1 <= w <= 7
  {
    var js := JsWeekday(day);
    if js == 0 then 7 else js
  }

  /** Two days fall on the same weekday exactly when they are whole weeks apart. */
  lemma SameWeekday(a: int, b: int)
    ensures IsoWeekday(a) == IsoWeekday(b) <==> (a - b) % 7 == 0
  {
  }

  /** Going back to weekday 1 from a day's ISO weekday lands on a Monday. */
  lemma MondayOf(day: int)
    ensures IsoWeekday(day + 1 - IsoWeekday(day)) == 1
  {
    var q := (day + 4) / 7;
    var js := JsWeekday(day);
    assert day + 4 == 7 * q + js;
    if js == 0 {
      assert day + 1 - IsoWeekday(day) + 4 == 7 * (q - 1) + 1;
    } else {
      assert day + 1 - IsoWeekday(day) + 4 == 7 * q + 1;
    }
  }

  predicate IsLeapYear(y: int) {
    y % 4 == 0 && (y % 100 != 0 || y % 400 == 0)
  }

  /** Leap years among 1..y, shifted consistently for y <= 0. */
  function LeapYearsThrough(y: int): int {
    y / 4 - y / 100 + y / 400
  }

  /** The day number of January 1 of year `y`. */
  function Jan1(y: int): int {
    365 * (y - 1970) + LeapYearsThrough(y - 1) - LeapYearsThrough(1969)
  }

  lemma DivStep4(y: int)
    ensures y / 4 - (y - 1) / 4 == if y % 4 == 0 then 1 else 0
  {
  }

  lemma DivStep100(y: int)
    ensures y / 100 - (y - 1) / 100 == if y % 100 == 0 then 1 else 0
  {
  }

  lemma DivStep400(y: int)
    ensures y / 400 - (y - 1) / 400 == if y % 400 == 0 then 1 else 0
  {
  }

  /** Every multiple of 100 is a multiple of 4. */
  lemma CenturyDivisibleBy4(y: int)
    requires y % 100 == 0
    ensures y % 4 == 0
  {
    var q := y / 100;
    assert y == 4 * (25 * q);
  }

  /** Every multiple of 400 is a multiple of 100. */
  lemma QuadCenturyIsCentury(y: int)
    requires y % 400 == 0
    ensures y % 100 == 0
  {
    var q := y / 400;
    assert y == 100 * (4 * q);
  }

  /** The leap-year count grows by one exactly at a leap year. */
  lemma LeapStep(y: int)
    ensures LeapYearsThrough(y) - LeapYearsThrough(y - 1) == if IsLeapYear(y) then 1 else 0
  {
    DivStep4(y);
    DivStep100(y);
    DivStep400(y);
    if y % 400 == 0 {
      QuadCenturyIsCentury(y);
    }
    if y % 100 == 0 {
      CenturyDivisibleBy4(y);
    }
  }

  /** A year has 366 days exactly when it is a Gregorian leap year. */
  lemma YearLength(y: int)
    ensures Jan1(y + 1) - Jan1(y) == if IsLeapYear(y) then 366 else 365
  {
    LeapStep(y);
    assert Jan1(y + 1) - Jan1(y) == 365 + LeapYearsThrough(y) - LeapYearsThrough(y - 1);
  }

  lemma {:induction false} Jan1Increasing(y: int, z: int)
    requires y < z
    ensures Jan1(y + 1) <= Jan1(z)
    decreases z - y
  {
    YearLength(y);
    if y + 1 < z {
      Jan1Increasing(y + 1, z);
      YearLength(y + 1);
    }
  }

  function YearUp(day: int, y: int): (r: int)
    requires Jan1(y) <= day
    ensures Jan1(r) <= day < Jan1(r + 1)
    decreases day - Jan1(y)
  {
    YearLength(y);
    if day < Jan1(y + 1) then y else YearUp(day, y + 1)
  }

  function YearDown(day: int, y: int): (r: int)
    requires day < Jan1(y + 1)
    ensures Jan1(r) <= day < Jan1(r + 1)
    decreases Jan1(y + 1) - day
  {
    YearLength(y);
    if Jan1(y) <= day then y else YearDown(day, y - 1)
  }

  /** The calendar year a day belongs to (`getUTCFullYear`). */
  function YearOf(day: int): (y: int)
    ensures Jan1(y) <= day < Jan1(y + 1)
  {
    if day >= 0 then YearUp(day, 1970) else YearDown(day, 1969)
  }

  /** A day lies in exactly one year. */
  lemma YearOfUnique(day: int, y: int)
    requires Jan1(y) <= day < Jan1(y + 1)
    ensures YearOf(day) == y
  {
    var r := YearOf(day);
    if r < y {
      Jan1Increasing(r, y);
    } else if y < r {
      Jan1Increasing(y, r);
    }
  }

  /** `Math.ceil(a / b)` for a positive divisor. */
  function CeilDiv(a: int, b: int): int
    requires b > 0
  {
    -((-a) / b)
  }

  /** A day offset within one year gives a week number between 1 and 53. */
  lemma WeekNumberBounds(k: int)
    requires 0 <= k < 366
    ensures 1 <= CeilDiv(k + 1, 7) <= 53
  {
    assert CeilDiv(k + 1, 7) == k / 7 + 1;
  }

  /** What `getIsoWeekInfo` returns: week number, week year, and the Monday and Sunday of the week. */
  datatype WeekInfo = WeekInfo(week: int, year: int, start: int, end: int)

  /**
   * The ISO 8601 week of a day, computed as the board does: move to the
   * Thursday of the day's Monday-to-Sunday week, take that Thursday's year,
   * and count weeks from that year's January 1.
   */
  function IsoWeekInfo(day: int): (w: WeekInfo)
    ensures IsoWeekday(w.start) == 1
    ensures w.start <= day <= w.end == w.start + 6
    ensures w.year == YearOf(w.start + 3)
    ensures 1 <= w.week <= 53
  {
    var target := day + 4 - IsoWeekday(day);
    MondayOf(day);
    var year := YearOf(target);
    var yearStart := Jan1(year);
    YearLength(year);
    WeekNumberBounds(target - yearStart);
    var weekNo := CeilDiv(target - yearStart + 1, 7);
    var monday := target - 3;
    WeekInfo(weekNo, year, monday, monday + 6)
  }

  /** The board's `startOfIsoWeek`: the Monday on or before the day. */
  function StartOfIsoWeek(day: int): (monday: int)
    ensures IsoWeekday(monday) == 1
    ensures monday <= day < monday + 7
  {
    var js := JsWeekday(day);
    var diff := (if js == 0 then -6 else 1) - js;
    day + diff
  }

  /** `getIsoWeekInfo` and `startOfIsoWeek` agree on where a week starts. */
  lemma IsoWeekStartsOnStartOfIsoWeek(day: int)
    ensures IsoWeekInfo(day).start == StartOfIsoWeek(day)
  {
  }

  /**
   * Monday-to-Monday weeks from the base day's week to the current day's
   * week; negative when the base lies in the future.
   */
  function WeeksBetween(base: int, current: int): (n: int)
    ensures n * 7 == StartOfIsoWeek(current) - StartOfIsoWeek(base)
  {
    var a := StartOfIsoWeek(base);
    var b := StartOfIsoWeek(current);
    SameWeekday(a, b);
    (b - a) / 7
  }

  /** Whole weeks plus a remainder below seven divide back into the weeks and the remainder. */
  lemma DivBy7(r: int, q: int)
    requires 0 <= r < 7
    ensures (r + 7 * q) / 7 == q && (r + 7 * q) % 7 == r
  {
  }

  /** Whole weeks later the weekday is the same. */
  lemma WeekdayShift(day: int, k: int)
    ensures JsWeekday(day + 7 * k) == JsWeekday(day)
  {
    var x := day + 4;
    DivBy7(x % 7, x / 7 + k);
    assert x + 7 * k == x % 7 + 7 * (x / 7 + k);
  }

  /** Moving the current day by whole weeks moves the offset by as many. */
  lemma WeeksBetweenShift(base: int, current: int, k: int)
    ensures WeeksBetween(base, current + 7 * k) == WeeksBetween(base, current) + k
  {
    WeekdayShift(current, k);
    var n := WeeksBetween(base, current);
    assert StartOfIsoWeek(current + 7 * k) == StartOfIsoWeek(current) + 7 * k;
    assert StartOfIsoWeek(current + 7 * k) - StartOfIsoWeek(base) == 0 + 7 * (n + k);
    DivBy7(0, n + k);
  }

  /** The Monday of ISO week 1 of `y`: the week that holds January 4. */
  function Week1Monday(y: int): int {
    StartOfIsoWeek(Jan1(y) + 3)
  }

  /** A Monday's Thursday is three days later. */
  lemma ThursdayOfMonday(monday: int)
    requires IsoWeekday(monday) == 1
    ensures IsoWeekday(monday + 3) == 4
  {
  }

  /** `Math.ceil((k + 1) / 7)` is one more than the whole weeks in `k` days. */
  lemma CeilWeek(k: int)
    requires 0 <= k
    ensures CeilDiv(k + 1, 7) == k / 7 + 1
  {
  }

  /**
   * Counting from a year's January 1 (`jan1`) to a Thursday of that year
   * counts the Thursdays since the first one, which lies in the week of
   * January 4.
   */
  lemma WeeksFromFirstThursday(jan1: int, thursday: int)
    requires jan1 <= thursday
    requires IsoWeekday(thursday) == 4
    ensures var first := StartOfIsoWeek(jan1 + 3);
      && first <= thursday - 3
      && (thursday - 3 - first) % 7 == 0
      && (thursday - 3 - first) / 7 == (thursday - jan1) / 7
  {
    var first := StartOfIsoWeek(jan1 + 3);
    ThursdayOfMonday(first);
    SameWeekday(thursday, first + 3);
    var d := thursday - 3 - first;
    var q := d / 7;
    assert d == 7 * q;
    var r := first + 3 - jan1;
    assert 0 <= r < 7;
    assert thursday - jan1 == r + 7 * q;
    DivBy7(r, q);
  }

  /** A Thursday of year `y` lies in a week between week 1 of `y` and week 1 of the next year. */
  lemma ThursdayInWeekYear(y: int, thursday: int)
    requires Jan1(y) <= thursday < Jan1(y + 1)
    requires IsoWeekday(thursday) == 4
    ensures Week1Monday(y) <= thursday - 3 < Week1Monday(y + 1)
    ensures (thursday - 3 - Week1Monday(y)) % 7 == 0
    ensures CeilDiv(thursday - Jan1(y) + 1, 7) == (thursday - 3 - Week1Monday(y)) / 7 + 1
  {
    WeeksFromFirstThursday(Jan1(y), thursday);
    CeilWeek(thursday - Jan1(y));
  }

  /**
   * The board's week number and week year agree with the definition of
   * ISO 8601 (week 1 holds the year's first Thursday, weeks start on
   * Monday): the week lies in the week year, between its week 1 and the
   * next year's week 1, and its number counts weeks from week 1.
   */
  lemma IsoWeekMatchesDefinition(day: int)
    ensures var w := IsoWeekInfo(day);
      && Week1Monday(w.year) <= w.start < Week1Monday(w.year + 1)
      && (w.start - Week1Monday(w.year)) % 7 == 0
      && w.week == (w.start - Week1Monday(w.year)) / 7 + 1
  {
    var w := IsoWeekInfo(day);
    ThursdayOfMonday(w.start);
    assert w.week == CeilDiv(w.start + 3 - Jan1(w.year) + 1, 7);
    ThursdayInWeekYear(w.year, w.start + 3);
  }

  /** `s.padStart(2, '0')` */
  function PadStart2(s: string): string {
    if |s| >= 2 then s else seq(2 - |s|, _ => '0') + s
  }

  /** `${year}-W${String(week).padStart(2, '0')}`: the week component of every task id. */
  function WeekKey(w: WeekInfo): string {
    IntText(w.year) + "-W" + PadStart2(IntText(w.week))
  }

  /** Reads a week key back: the year before the final "-Www", the week from its last two digits. */
  function ParseWeekKey(key: string): (int, int)
    requires |key| >= 4
  {
    (ParseInt(key[..|key| - 4]), ParseNat(key[|key| - 2..]))
  }

  /** A week number in 1..53 pads to exactly two digits that read back as the week. */
  lemma PaddedWeek(week: int)
    requires 1 <= week <= 53
    ensures var pad := PadStart2(IntText(week));
      |pad| == 2 && IsDigit(pad[0]) && IsDigit(pad[1]) && ParseNat(pad) == week
  {
    var t := NatText(week);
    var pad := PadStart2(t);
    ParseNatText(week);
    if week < 10 {
      assert pad == ['0'] + t;
      assert pad[..1] == ['0'];
    } else {
      assert week / 10 < 10;
    }
  }

  /**
   * For a week number in 1..53 the key ends in "-W" and exactly two digits
   * (zero-padded), and the year and the week can be read back from it.
   */
  lemma WeekKeyRoundTrip(w: WeekInfo)
    requires 1 <= w.week <= 53
    ensures var key := WeekKey(w);
      && |key| >= 5
      && key[|key| - 4..|key| - 2] == "-W"
      && IsDigit(key[|key| - 2]) && IsDigit(key[|key| - 1])
      && ParseWeekKey(key) == (w.year, w.week)
  {
    var key := WeekKey(w);
    var y := IntText(w.year);
    var pad := PadStart2(IntText(w.week));
    PaddedWeek(w.week);
    assert key == y + "-W" + pad;
    assert key[..|key| - 4] == y;
    assert key[|key| - 2..] == pad;
    ParseIntText(w.year);
  }

  /** Monday 2024-12-30 lies in week 1 of 2025. */
  lemma WeekOf20241230()
    ensures IsoWeekInfo(20087) == WeekInfo(1, 2025, 20087, 20093)
  {
    assert IsoWeekday(20087) == 1;
    assert Jan1(2025) == 20089 by { assert LeapYearsThrough(2024) == 491; }
    assert Jan1(2026) == 20454 by { assert LeapYearsThrough(2025) == 491; }
    YearOfUnique(20090, 2025);
    CeilWeek(1);
  }

  /** Friday 2021-01-01 lies in week 53 of 2020. */
  lemma WeekOf20210101()
    ensures IsoWeekInfo(18628) == WeekInfo(53, 2020, 18624, 18630)
  {
    assert IsoWeekday(18628) == 5;
    assert Jan1(2020) == 18262 by { assert LeapYearsThrough(2019) == 489; }
    assert Jan1(2021) == 18628 by { assert LeapYearsThrough(2020) == 490; }
    YearOfUnique(18627, 2020);
    CeilWeek(365);
  }

  /** Sunday 2023-01-01 lies in week 52 of 2022. */
  lemma WeekOf20230101()
    ensures IsoWeekInfo(19358) == WeekInfo(52, 2022, 19352, 19358)
  {
    assert IsoWeekday(19358) == 7;
    assert Jan1(2022) == 18993 by { assert LeapYearsThrough(2021) == 490; }
    assert Jan1(2023) == 19358 by { assert LeapYearsThrough(2022) == 490; }
    YearOfUnique(19355, 2022);
    CeilWeek(362);
  }

  const MsPerDay: int := 86400000

  /** The UTC millisecond instant of local midnight starting `day`, in a zone `offsetMinutes` ahead of UTC. */
  function LocalMidnightMs(day: int, offsetMinutes: int): int {
    day * MsPerDay - offsetMinutes * 60000
  }

  /**
   * `weeksBetween` as written: the floor of the millisecond distance between
   * the two local Monday midnights, divided by a week of milliseconds. Each
   * Monday carries its own UTC offset, which differs across a daylight-saving
   * change.
   */
  function WeeksBetweenAsWritten(base: int, baseOffset: int, current: int, currentOffset: int): int {
    var b := LocalMidnightMs(StartOfIsoWeek(base), baseOffset);
    var c := LocalMidnightMs(StartOfIsoWeek(current), currentOffset);
    (c - b) / (7 * MsPerDay)
  }

  /** With no offset change between the two Mondays the written formula is exact. */
  lemma WeeksBetweenAsWrittenSameOffset(base: int, current: int, offset: int)
    ensures WeeksBetweenAsWritten(base, offset, current, offset) == WeeksBetween(base, current)
  {
    var n := WeeksBetween(base, current);
    assert LocalMidnightMs(StartOfIsoWeek(current), offset) - LocalMidnightMs(StartOfIsoWeek(base), offset)
      == n * (7 * MsPerDay);
  }

  /**
   * Across the spring change (Central Europe, 2024-03-31: UTC+1 to UTC+2)
   * the written formula counts zero weeks from Monday 2024-03-25 to Monday
   * 2024-04-01, one week apart.
   */
  lemma WeeksBetweenAsWrittenAcrossDst()
    ensures WeeksBetween(19807, 19814) == 1
    ensures WeeksBetweenAsWritten(19807, 60, 19814, 120) == 0
  {
    assert StartOfIsoWeek(19807) == 19807;
    assert StartOfIsoWeek(19814) == 19814;
  }
}
