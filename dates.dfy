/** Calendar dates as day numbers, and their ISO rendering ("YYYY-MM-DD", what `str(date)` gives). */
module Dates {
  import opened Text

  /** Day 0 is 0001-01-01 of the proleptic Gregorian calendar (Python's `date.toordinal() - 1`),
      so `add_days(d, n)` is `d + n`. */
  type Day = nat

  predicate IsLeap(y: int) { y % 4 == 0 && (y % 100 != 0 || y % 400 == 0) }

  function YearLength(y: int): nat { if IsLeap(y) then 366 else 365 }

  function MonthLength(y: int, m: int): nat
  {
    if m == 2 then (if IsLeap(y) then 29 else 28)
    else if m == 4 || m == 6 || m == 9 || m == 11 then 30
    else 31
  }

  datatype Civil = Civil(year: nat, month: nat, day: nat)

  /** The civil date `d` days after January 1st of `year`. */
  function CivilFrom(d: nat, year: nat): (c: Civil)
    requires year >= 1
    ensures c.year >= year && 1 <= c.month <= 12 && c.day >= 1
    decreases d
  {
    if d < YearLength(year) then MonthDayOf(d, year, 1)
    else CivilFrom(d - YearLength(year), year + 1)
  }

  /** The civil date `d` days after the first of `month` in `year`. */
  function MonthDayOf(d: nat, year: nat, month: nat): (c: Civil)
    requires 1 <= month <= 12
    ensures c.year == year && month <= c.month <= 12 && c.day >= 1
    decreases 12 - month
  {
    if month == 12 || d < MonthLength(year, month) then Civil(year, month, d + 1)
    else MonthDayOf(d - MonthLength(year, month), year, month + 1)
  }

  function ToCivil(day: Day): (c: Civil)
    ensures c.year >= 1 && 1 <= c.month <= 12 && c.day >= 1
  {
    CivilFrom(day, 1)
  }

  predicate IsDateChar(c: char) { IsDigit(c) || c == '-' }

  /** `str(date)`: four-digit year, two-digit month and day, separated by '-'. */
  function IsoDate(day: Day): (s: string)
    ensures |s| >= 10
    ensures forall i :: 0 <= i < |s| ==> IsDateChar(s[i])
  {
    var c := ToCivil(day);
    var y, m, d := PadStart(NatToString(c.year), 4, '0'), Pad2(c.month), Pad2(c.day);
    ZeroPaddingKeepsValue(NatToString(c.year), 4);
    DateJoin(y, m, d)
  }

  /** `y-m-d` from three digit strings. */
  function DateJoin(y: string, m: string, d: string): (s: string)
    requires AllDigits(y) && AllDigits(m) && AllDigits(d)
    ensures |s| == |y| + |m| + |d| + 2
    ensures forall i :: 0 <= i < |s| ==> IsDateChar(s[i])
  {
    var s := y + "-" + m + "-" + d;
    assert forall i :: 0 <= i < |s| ==> IsDateChar(s[i]) by {
      forall i | 0 <= i < |s| ensures IsDateChar(s[i]) {
        if i < |y| { assert s[i] == y[i]; }
        else if i == |y| { }
        else if i < |y| + 1 + |m| { assert s[i] == m[i - |y| - 1]; }
        else if i == |y| + 1 + |m| { }
        else { assert s[i] == d[i - |y| - 2 - |m|]; }
      }
    }
    s
  }
}
