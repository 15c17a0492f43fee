/** lib/utils.ts: `getTimeAgo`, the relative age of a post. */
module Utils {
  import opened Text

  const MillisPerSecond := 1000
  const SecondsPerMinute := 60
  const SecondsPerHour := 3600
  const SecondsPerDay := 86400
  const SecondsPerMonth := 2592000

  /** `Math.floor((now.getTime() - postDate.getTime()) / 1000)`: whole seconds
      elapsed, rounded down, so a date in the future gives a negative count.
      Dafny's division by a positive divisor rounds down as `Math.floor` does. */
  function DiffInSeconds(nowMs: int, dateMs: int): (d: int)
    ensures d * MillisPerSecond <= nowMs - dateMs < d * MillisPerSecond + MillisPerSecond
  {
    (nowMs - dateMs) / MillisPerSecond
  }

  datatype Unit = Seconds | Minutes | Hours | Days | Months

  /** An age: a count of units. */
  datatype Ago = Ago(count: int, unit: Unit)

  /** The bucket a difference in seconds falls into, with the count rounded down. */
  function Bucket(d: int): (a: Ago)
    ensures a.unit == Seconds <==> d < SecondsPerMinute
    ensures a.unit == Seconds ==> a.count == d
    ensures a.unit == Minutes <==> SecondsPerMinute <= d < SecondsPerHour
    ensures a.unit == Minutes ==>
              1 <= a.count <= 59 && a.count * SecondsPerMinute <= d < (a.count + 1) * SecondsPerMinute
    ensures a.unit == Hours <==> SecondsPerHour <= d < SecondsPerDay
    ensures a.unit == Hours ==>
              1 <= a.count <= 23 && a.count * SecondsPerHour <= d < (a.count + 1) * SecondsPerHour
    ensures a.unit == Days <==> SecondsPerDay <= d < SecondsPerMonth
    ensures a.unit == Days ==>
              1 <= a.count <= 29 && a.count * SecondsPerDay <= d < (a.count + 1) * SecondsPerDay
    ensures a.unit == Months <==> SecondsPerMonth <= d
    ensures a.unit == Months ==>
              1 <= a.count && a.count * SecondsPerMonth <= d < (a.count + 1) * SecondsPerMonth
  {
    if d < SecondsPerMinute then Ago(d, Seconds)
    else if d < SecondsPerHour then Ago(d / SecondsPerMinute, Minutes)
    else if d < SecondsPerDay then Ago(d / SecondsPerHour, Hours)
    else if d < SecondsPerMonth then Ago(d / SecondsPerDay, Days)
    else Ago(d / SecondsPerMonth, Months)
  }

  function UnitWord(u: Unit): string {
    match u
    case Seconds => "second"
    case Minutes => "minute"
    case Hours => "hour"
    case Days => "day"
    case Months => "month"
  }

  /** Seconds are always written in the plural; the other units are singular
      exactly when the count is 1. */
  function Plural(a: Ago): bool {
    a.unit == Seconds || a.count != 1
  }

  /** The count's numeral, a space, the unit word, an "s" unless the count is
      a single minute, hour, day or month, and " ago" at the end. */
  function Phrase(a: Ago): (s: string)
    ensures var n := IntToString(a.count);
            && |s| > |n| + 4 && s[..|n|] == n && s[|n|] == ' '
            && s[|s| - 4..] == " ago"
    ensures a.unit == Seconds ==> s == IntToString(a.count) + " seconds ago"
    ensures a.unit != Seconds ==>
              s == IntToString(a.count) + " " + UnitWord(a.unit) + (if a.count == 1 then "" else "s") + " ago"
  {
    var n := IntToString(a.count);
    var body := n + " " + UnitWord(a.unit) + (if Plural(a) then "s" else "");
    assert (body + " ago")[..|n|] == n by {
      assert (body + " ago")[..|n|] == body[..|n|];
    }
    SecondsText(n);
    body + " ago"
  }

  /** The seconds phrase, written as one literal. */
  lemma SecondsText(n: string)
    ensures n + " " + "second" + "s" + " ago" == n + " seconds ago"
  {
    assert n + " " + "second" + "s" + " ago" == n + (" " + "second" + "s" + " ago");
    assert " " + "second" + "s" + " ago" == " seconds ago";
  }

  /** `getTimeAgo(date)` read at time `nowMs` (both in milliseconds since the epoch):
      the number of whole units elapsed in the largest unit that fits, then " ago". */
  function GetTimeAgo(nowMs: int, dateMs: int): (r: string)
    ensures var a := Bucket(DiffInSeconds(nowMs, dateMs)); var n := IntToString(a.count);
            && |r| > |n| + 4 && r[..|n|] == n && r[|n|] == ' '
            && r[|r| - 4..] == " ago"
    ensures var d := DiffInSeconds(nowMs, dateMs);
            d < SecondsPerMinute ==> r == IntToString(d) + " seconds ago"
    ensures var a := Bucket(DiffInSeconds(nowMs, dateMs));
            a.unit != Seconds ==>
              r == IntToString(a.count) + " " + UnitWord(a.unit) + (if a.count == 1 then "" else "s") + " ago"
  {
    Phrase(Bucket(DiffInSeconds(nowMs, dateMs)))
  }

  /** The phrase carries the singular unit exactly when the unit is not seconds
      and the count is 1: "1 minute ago", but "1 seconds ago" and "2 minutes ago". */
  lemma SingularIffOne(a: Ago)
    ensures Phrase(a) == IntToString(a.count) + " " + UnitWord(a.unit) + " ago"
            <==> a.unit != Seconds && a.count == 1
  {
    var head := IntToString(a.count) + " " + UnitWord(a.unit);
    if Plural(a) {
      assert Phrase(a) == head + "s ago";
      assert (head + "s ago")[|head|] == 's';
      assert (head + " ago")[|head|] == ' ';
    }
  }

  /** In the minute, hour and day buckets the count is the whole number of units
      elapsed, read directly from the millisecond difference. */
  lemma CountIsWholeUnitsElapsed(nowMs: int, dateMs: int)
    ensures var a := Bucket(DiffInSeconds(nowMs, dateMs));
            var perUnit := match a.unit
                           case Seconds => 1
                           case Minutes => SecondsPerMinute
                           case Hours => SecondsPerHour
                           case Days => SecondsPerDay
                           case Months => SecondsPerMonth;
            a.count == (nowMs - dateMs) / (perUnit * MillisPerSecond)
  {
    var d := DiffInSeconds(nowMs, dateMs);
    var a := Bucket(d);
    var perUnit := match a.unit
                   case Seconds => 1
                   case Minutes => SecondsPerMinute
                   case Hours => SecondsPerHour
                   case Days => SecondsPerDay
                   case Months => SecondsPerMonth;
    var x := nowMs - dateMs;
    assert a.count * perUnit <= d < (a.count + 1) * perUnit;
    assert d * 1000 <= x < d * 1000 + 1000;
    FloorOfFloor(x, d, a.count, perUnit);
  }

  /** Rounding down twice is rounding down once by the product. */
  lemma FloorOfFloor(x: int, d: int, c: int, u: int)
    requires u >= 1
    requires d * 1000 <= x < d * 1000 + 1000
    requires c * u <= d < (c + 1) * u
    ensures c == x / (u * 1000)
  {
    var m := u * 1000;
    assert c * m == (c * u) * 1000;
    assert (c + 1) * m == ((c + 1) * u) * 1000;
    assert c * m <= d * 1000;
    assert d * 1000 + 1000 <= (c + 1) * m;
    DivUnique(x, m, c);
  }

  /** The quotient is the one `c` whose multiples bracket `x`. */
  lemma DivUnique(x: int, m: int, c: int)
    requires m >= 1
    requires c * m <= x < (c + 1) * m
    ensures x / m == c
  {
    var q, r := x / m, x % m;
    assert x == q * m + r && 0 <= r < m;
    SmallMultipleIsZero(q - c, m);
  }

  lemma SmallMultipleIsZero(k: int, m: int)
    requires m >= 1 && -m < k * m < m
    ensures k == 0
  {
  }
}
