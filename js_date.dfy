/** A JavaScript `Date` object that the components copy and then change in place. */
module JsDates {
  import opened CivilDate

  /** The local calendar day held by a `Date`; its time of day plays no part here. */
  class JsDate {
    var year: int
    var month: int
    var day: int

    function Value(): Date
      reads this
    {
      Date(year, month, day)
    }

    ghost predicate Valid()
      reads this
    {
      Value().Valid()
    }

    /** `new Date(other)`. */
    constructor Copy(x: Date)
      requires x.Valid()
      ensures Valid() && Value() == x
    {
      year, month, day := x.year, x.month, x.day;
    }

    /** `new Date(y, m, d)`. */
    constructor Make(y: int, m: int, d: int)
      ensures Valid() && Value() == Normalize(y, m, d)
    {
      var n := Normalize(y, m, d);
      year, month, day := n.year, n.month, n.day;
    }

    /** `getDate()`. */
    function GetDate(): int
      reads this
    {
      day
    }

    /** `getDay()`. */
    function GetDay(): (w: int)
      reads this
      requires Valid()
      ensures 0 <= w < 7
    {
      Weekday(Value())
    }

    /** `setDate(d)`: day `d` of the current month, rolled over as `new Date` would. */
    method SetDate(d: int)
      modifies this
      ensures Valid() && Value() == Normalize(old(year), old(month), d)
    {
      var n := Normalize(year, month, d);
      year, month, day := n.year, n.month, n.day;
    }

    /** `setMonth(m)`: month `m` with the current day, rolled over as `new Date` would. */
    method SetMonth(m: int)
      modifies this
      ensures Valid() && Value() == Normalize(old(year), m, old(day))
    {
      var n := Normalize(year, m, day);
      year, month, day := n.year, n.month, n.day;
    }
  }
}
