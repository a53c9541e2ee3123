/** Civil dates and day numbers, for every day of the proleptic Gregorian calendar
  * either side of the epoch.
  */
module Civil {

  /** Division as the machine does it, toward zero. */
  function Quotient(a: int, b: int): int
    requires b > 0
  {
    if a >= 0 then a / b else -((-a) / b)
  }

  datatype Date = Date(year: int, month: int, day: int)

  predicate Leap(year: int) {
    year % 4 == 0 && (year % 100 != 0 || year % 400 == 0)
  }

  function DaysIn(year: int, month: int): int {
    match month
    case 2 => if Leap(year) then 29 else 28
    case 4 => 30
    case 6 => 30
    case 9 => 30
    case 11 => 30
    case _ => 31
  }

  predicate Valid(d: Date) {
    1 <= d.month <= 12 && 1 <= d.day <= DaysIn(d.year, d.month)
  }

  function Next(d: Date): Date {
    if d.day < DaysIn(d.year, d.month) then d.(day := d.day + 1)
    else if d.month < 12 then Date(d.year, d.month + 1, 1)
    else Date(d.year + 1, 1, 1)
  }

  /** Days since the epoch of a civil date. */
  function DaysFromCivil(d: Date): int {
    var y := if d.month <= 2 then d.year - 1 else d.year;
    var era := Quotient(if y >= 0 then y else y - 399, 400);
    var yoe := y - era * 400;
    var mp := (d.month + 9) % 12;
    var doy := (153 * mp + 2) / 5 + d.day - 1;
    var doe := yoe * 365 + yoe / 4 - yoe / 100 + doy;
    era * 146097 + doe - 719468
  }

  /** The date whose day number is `days`, where day 0 is the first of 1970. */
  function CivilFromDays(days: int): Date {
    var z := days + 719468;
    var era := Quotient(if z >= 0 then z else z - 146096, 146097);
    CivilInEra(era, z - era * 146097)
  }

  function CivilInEra(era: int, doe: int): Date {
    var yoe := (doe - doe / 1460 + doe / 36524 - doe / 146096) / 365;
    CivilInYear(era, yoe, doe - (365 * yoe + yoe / 4 - yoe / 100))
  }

  function CivilInYear(era: int, yoe: int, doy: int): Date {
    var mp := (5 * doy + 2) / 153;
    var day := doy - (153 * mp + 2) / 5 + 1;
    var month := if mp < 10 then mp + 3 else mp - 9;
    Date(yoe + era * 400 + if month <= 2 then 1 else 0, month, day)
  }

  // ---- eras ----------------------------------------------------------------

  lemma EraOfYear(y: int)
    ensures var era := Quotient(if y >= 0 then y else y - 399, 400); era * 400 <= y < era * 400 + 400
  {
  }

  lemma EraOfDay(z: int)
    ensures var era := Quotient(if z >= 0 then z else z - 146096, 146097); era * 146097 <= z < era * 146097 + 146097
  {
  }

  // ---- years of an era, which begin in March -------------------------------

  /** Day of the era that year `yoe` of it begins on. */
  function YearStart(yoe: int): int {
    yoe * 365 + yoe / 4 - yoe / 100
  }

  /** A day of a year that begins in March: the leap day is its last. */
  predicate DayOfYear(yoe: int, doy: int) {
    0 <= yoe < 400 && 0 <= doy <= 365 && (doy == 365 ==> Leap(yoe + 1))
  }

  /** The year as hundreds, fours and ones. */
  lemma YearParts(c: int, q: int, r: int)
    requires 0 <= c < 4 && 0 <= q < 25 && 0 <= r < 4
    ensures var yoe := 100 * c + 4 * q + r;
            && 0 <= yoe < 400 && yoe / 4 == 25 * c + q && yoe / 100 == c
               && YearStart(yoe) == 36524 * c + 1461 * q + 365 * r
            && (Leap(yoe + 1) <==> r == 3 && (q < 24 || c == 3))
  {
  }

  lemma YoeOfParts(c: int, q: int, r: int, doy: int)
    requires 0 <= c < 4 && 0 <= q < 25 && 0 <= r < 4 && 0 <= doy <= 365
    requires doy == 365 ==> r == 3 && (q < 24 || c == 3)
    ensures var doe := 36524 * c + 1461 * q + 365 * r + doy;
            && 0 <= doe < 146097
            && (doe - doe / 1460 + doe / 36524 - doe / 146096) / 365 == 100 * c + 4 * q + r
  {
    var doe := 36524 * c + 1461 * q + 365 * r + doy;
    var u := 24 * c + q + 365 * r + doy;
    assert doe == 1460 * (25 * c + q) + u;
    assert doe / 1460 == 25 * c + q + u / 1460;
    assert u / 1460 == if u >= 1460 then 1 else 0;
    if doe == 146096 {
      assert doe / 36524 == 4 && doe / 146096 == 1;
    } else {
      assert 1461 * q + 365 * r + doy < 36524 || c == 3;
      assert doe / 36524 == c && doe / 146096 == 0;
    }
    var t := doe - doe / 1460 + doe / 36524 - doe / 146096;
    assert t == 365 * (100 * c + 4 * q + r) + doy - u / 1460;
  }

  /** The year read back from a day of the era is the year it is in. */
  lemma YoeComesBack(yoe: int, doy: int)
    requires DayOfYear(yoe, doy)
    ensures var doe := YearStart(yoe) + doy;
            0 <= doe < 146097 && (doe - doe / 1460 + doe / 36524 - doe / 146096) / 365 == yoe
  {
    var c, q, r := yoe / 100, yoe % 100 / 4, yoe % 4;
    assert yoe == 100 * c + 4 * q + r by {
      assert yoe % 100 % 4 == yoe % 4;
    }
    YearParts(c, q, r);
    YoeOfParts(c, q, r, doy);
  }

  /** Every day of an era is a day of one of its years. */
  lemma DayHasYear(doe: int) returns (yoe: int, doy: int)
    requires 0 <= doe < 146097
    ensures DayOfYear(yoe, doy) && doe == YearStart(yoe) + doy
  {
    var c := if doe / 36524 < 3 then doe / 36524 else 3;
    var rest := doe - 36524 * c;
    var q := rest / 1461;
    var left := rest - 1461 * q;
    var r := if left / 365 < 3 then left / 365 else 3;
    yoe, doy := 100 * c + 4 * q + r, left - 365 * r;
    YearParts(c, q, r);
  }

  // ---- months of a year that begins in March -------------------------------

  function MonthStart(mp: int): int {
    (153 * mp + 2) / 5
  }

  /** Month `mp` counted from March has this many days, the last one at most. */
  function MonthLength(mp: int): int {
    if mp == 1 || mp == 3 || mp == 6 || mp == 8 then 30 else if mp == 11 then 29 else 31
  }

  lemma MonthsFollow(mp: int)
    requires 0 <= mp < 12
    ensures MonthStart(mp) + MonthLength(mp) == if mp < 11 then MonthStart(mp + 1) else 366
  {
  }

  lemma MonthComesBack(mp: int, day: int)
    requires 0 <= mp < 12 && 1 <= day <= MonthLength(mp)
    ensures var doy := MonthStart(mp) + day - 1;
            0 <= doy <= 365 && (5 * doy + 2) / 153 == mp && (doy == 365 <==> mp == 11 && day == 29)
  {
    MonthsFollow(mp);
  }

  lemma DayHasMonth(doy: int)
    requires 0 <= doy <= 365
    ensures var mp := (5 * doy + 2) / 153; 0 <= mp < 12 && 1 <= doy - MonthStart(mp) + 1 <= MonthLength(mp)
  {
    var mp := (5 * doy + 2) / 153;
    MonthsFollow(mp);
  }

  function MonthOf(mp: int): int {
    if mp < 10 then mp + 3 else mp - 9
  }

  lemma MonthNames(mp: int, year: int)
    requires 0 <= mp < 12
    ensures 1 <= MonthOf(mp) <= 12 && (MonthOf(mp) + 9) % 12 == mp && (MonthOf(mp) <= 2 <==> mp >= 10)
    ensures DaysIn(year, MonthOf(mp)) == if mp == 11 && !Leap(year) then 28 else MonthLength(mp)
  {
  }

  // ---- the two functions ---------------------------------------------------

  /** A day by its parts: the era, the year of it, the month from March, the day. */
  function DayNumber(era: int, yoe: int, mp: int, day: int): int {
    era * 146097 + YearStart(yoe) + MonthStart(mp) + day - 1 - 719468
  }

  function DateOf(era: int, yoe: int, mp: int, day: int): Date {
    Date(yoe + era * 400 + if MonthOf(mp) <= 2 then 1 else 0, MonthOf(mp), day)
  }

  predicate Parts(era: int, yoe: int, mp: int, day: int) {
    && 0 <= mp < 12 && 1 <= day <= MonthLength(mp) && DayOfYear(yoe, MonthStart(mp) + day - 1)
  }

  lemma LeapInEra(yoe: int, era: int)
    ensures Leap(yoe + era * 400) <==> Leap(yoe)
  {
    Cycles(yoe, era);
    hide Leap;
    LeapByRemainders(yoe, yoe + era * 400);
  }

  lemma Cycles(a: int, k: int)
    ensures (a + k * 400) % 4 == a % 4 && (a + k * 400) % 100 == a % 100 && (a + k * 400) % 400 == a % 400
  {
    Fours(a, 100 * k);
    Hundreds(a, 4 * k);
    FourHundreds(a, k);
  }

  lemma Fours(a: int, k: int)
    ensures (a + 4 * k) % 4 == a % 4
  {
  }

  lemma Hundreds(a: int, k: int)
    ensures (a + 100 * k) % 100 == a % 100
  {
  }

  lemma FourHundreds(a: int, k: int)
    ensures (a + 400 * k) % 400 == a % 400
  {
  }

  lemma LeapByRemainders(a: int, b: int)
    requires a % 4 == b % 4 && a % 100 == b % 100 && a % 400 == b % 400
    ensures Leap(a) <==> Leap(b)
  {
  }

  /** Parts make a valid date, whose day number is that of the parts. */
  lemma PartsToDays(era: int, yoe: int, mp: int, day: int)
    requires Parts(era, yoe, mp, day)
    ensures Valid(DateOf(era, yoe, mp, day)) && DaysFromCivil(DateOf(era, yoe, mp, day)) == DayNumber(era, yoe, mp, day)
  {
    hide Quotient, Leap;
    var d := DateOf(era, yoe, mp, day);
    MonthNames(mp, d.year);
    MonthComesBack(mp, day);
    LeapInEra(yoe + 1, era);
    var y := if d.month <= 2 then d.year - 1 else d.year;
    assert y == yoe + era * 400;
    EraOfYear(y);
    SameYearEra(Quotient(if y >= 0 then y else y - 399, 400), era, y);
  }

  lemma InYear(era: int, yoe: int, mp: int, day: int)
    requires 0 <= mp < 12 && 1 <= day <= MonthLength(mp)
    ensures CivilInYear(era, yoe, MonthStart(mp) + day - 1) == DateOf(era, yoe, mp, day)
  {
    MonthComesBack(mp, day);
  }

  lemma InEra(era: int, yoe: int, mp: int, day: int)
    requires Parts(era, yoe, mp, day)
    ensures var doe := YearStart(yoe) + MonthStart(mp) + day - 1;
            0 <= doe < 146097 && CivilInEra(era, doe) == DateOf(era, yoe, mp, day)
  {
    hide Leap, CivilInYear, MonthStart, DateOf, DayOfYear;
    YoeComesBack(yoe, MonthStart(mp) + day - 1);
    InYear(era, yoe, mp, day);
  }

  lemma PartsFromDays(era: int, yoe: int, mp: int, day: int)
    requires Parts(era, yoe, mp, day)
    ensures CivilFromDays(DayNumber(era, yoe, mp, day)) == DateOf(era, yoe, mp, day)
  {
    hide Quotient, Leap, CivilInEra, YearStart, MonthStart, Parts, DateOf;
    InEra(era, yoe, mp, day);
    var z := DayNumber(era, yoe, mp, day) + 719468;
    EraOfDay(z);
    SameDayEra(Quotient(if z >= 0 then z else z - 146096, 146097), era, z);
  }

  lemma SameDayEra(a: int, b: int, z: int)
    requires a * 146097 <= z < a * 146097 + 146097 && b * 146097 <= z < b * 146097 + 146097
    ensures a == b
  {
  }

  lemma SameYearEra(a: int, b: int, y: int)
    requires a * 400 <= y < a * 400 + 400 && b * 400 <= y < b * 400 + 400
    ensures a == b
  {
  }

  /** Every valid date has parts. */
  lemma DateHasParts(d: Date) returns (era: int, yoe: int, mp: int)
    requires Valid(d)
    ensures Parts(era, yoe, mp, d.day) && d == DateOf(era, yoe, mp, d.day)
  {
    hide Quotient, MonthStart, Leap;
    var y := if d.month <= 2 then d.year - 1 else d.year;
    EraOfYear(y);
    era := Quotient(if y >= 0 then y else y - 399, 400);
    yoe := y - era * 400;
    mp := if d.month <= 2 then d.month + 9 else d.month - 3;
    MonthNames(mp, d.year);
    MonthComesBack(mp, d.day);
    LeapInEra(yoe + 1, era);
  }

  /** Every day number has parts. */
  lemma DayHasParts(days: int) returns (era: int, yoe: int, mp: int, day: int)
    ensures Parts(era, yoe, mp, day) && days == DayNumber(era, yoe, mp, day)
  {
    hide Quotient, Leap;
    var z := days + 719468;
    EraOfDay(z);
    era := Quotient(if z >= 0 then z else z - 146096, 146097);
    var doy;
    yoe, doy := DayHasYear(z - era * 146097);
    DayHasMonth(doy);
    mp := (5 * doy + 2) / 153;
    day := doy - MonthStart(mp) + 1;
  }

  /** A valid date's day number is that date's. */
  lemma CivilUndoesDays(d: Date)
    requires Valid(d)
    ensures CivilFromDays(DaysFromCivil(d)) == d
  {
    var era, yoe, mp := DateHasParts(d);
    hide CivilFromDays, DaysFromCivil, DayNumber, Parts;
    PartsToDays(era, yoe, mp, d.day);
    PartsFromDays(era, yoe, mp, d.day);
  }

  /** Every day number, before the epoch as well, is that of the valid date it
    * gives. */
  lemma DaysUndoesCivil(days: int)
    ensures Valid(CivilFromDays(days)) && DaysFromCivil(CivilFromDays(days)) == days
  {
    var era, yoe, mp, day := DayHasParts(days);
    hide CivilFromDays, DaysFromCivil, DayNumber, Parts;
    PartsToDays(era, yoe, mp, day);
    PartsFromDays(era, yoe, mp, day);
  }

  // ---- the calendar runs on ------------------------------------------------

  lemma YearFollows(yoe: int)
    requires 0 <= yoe < 400
    ensures yoe < 399 ==> YearStart(yoe + 1) == YearStart(yoe) + if Leap(yoe + 1) then 366 else 365
    ensures yoe == 399 ==> YearStart(399) + 366 == 146097 && Leap(400)
  {
  }

  lemma NextInMonth(era: int, yoe: int, mp: int, day: int)
    requires Parts(era, yoe, mp, day) && day < DaysIn(DateOf(era, yoe, mp, day).year, MonthOf(mp))
    ensures Parts(era, yoe, mp, day + 1) && Next(DateOf(era, yoe, mp, day)) == DateOf(era, yoe, mp, day + 1)
  {
    hide MonthStart, Leap;
    MonthNames(mp, DateOf(era, yoe, mp, day).year);
    MonthComesBack(mp, day + 1);
    LeapInEra(yoe + 1, era);
  }

  lemma NextMonth(era: int, yoe: int, mp: int, day: int)
    requires Parts(era, yoe, mp, day) && mp < 11 && day == DaysIn(DateOf(era, yoe, mp, day).year, MonthOf(mp))
    ensures Parts(era, yoe, mp + 1, 1) && Next(DateOf(era, yoe, mp, day)) == DateOf(era, yoe, mp + 1, 1)
    ensures DayNumber(era, yoe, mp + 1, 1) == DayNumber(era, yoe, mp, day) + 1
  {
    hide MonthStart, Leap;
    MonthNames(mp, DateOf(era, yoe, mp, day).year);
    MonthsFollow(mp);
    MonthComesBack(mp + 1, 1);
  }

  lemma NextYear(era: int, yoe: int, day: int)
    requires Parts(era, yoe, 11, day) && day == DaysIn(DateOf(era, yoe, 11, day).year, 2)
    ensures var next := if yoe < 399 then yoe + 1 else 0;
            var of := if yoe < 399 then era else era + 1;
            && Parts(of, next, 0, 1) && Next(DateOf(era, yoe, 11, day)) == DateOf(of, next, 0, 1)
            && DayNumber(of, next, 0, 1) == DayNumber(era, yoe, 11, day) + 1
  {
    LeapInEra(yoe + 1, era);
    YearFollows(yoe);
    hide Leap;
  }

  /** Consecutive day numbers are consecutive calendar dates. */
  lemma DaysAreConsecutive(days: int)
    ensures CivilFromDays(days + 1) == Next(CivilFromDays(days))
  {
    var era, yoe, mp, day := DayHasParts(days);
    hide CivilFromDays, YearStart, MonthStart, Leap, DaysIn;
    PartsFromDays(era, yoe, mp, day);
    var d := DateOf(era, yoe, mp, day);
    ValidParts(era, yoe, mp, day);
    if day < DaysIn(d.year, MonthOf(mp)) {
      NextInMonth(era, yoe, mp, day);
      PartsFromDays(era, yoe, mp, day + 1);
    } else if mp < 11 {
      NextMonth(era, yoe, mp, day);
      PartsFromDays(era, yoe, mp + 1, 1);
    } else {
      NextYear(era, yoe, day);
      PartsFromDays(if yoe < 399 then era else era + 1, if yoe < 399 then yoe + 1 else 0, 0, 1);
    }
  }

  lemma ValidParts(era: int, yoe: int, mp: int, day: int)
    requires Parts(era, yoe, mp, day)
    ensures day <= DaysIn(DateOf(era, yoe, mp, day).year, MonthOf(mp))
  {
    PartsToDays(era, yoe, mp, day);
  }
}
