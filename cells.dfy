/** The values a data-frame cell can hold, and calendar days with their order. */
module Cells {

  /** A calendar day, as produced by `.dt.date`. */
  datatype Date = Date(year: int, month: int, day: int)

  /** Chronological order of days (Python's `date.__lt__`). */
  predicate DateLt(a: Date, b: Date) {
    || a.year < b.year
    || (a.year == b.year && a.month < b.month)
    || (a.year == b.year && a.month == b.month && a.day < b.day)
  }

  predicate DateLe(a: Date, b: Date) {
    a == b || DateLt(a, b)
  }

  /** Days are totally and strictly ordered. */
  lemma DateOrder(a: Date, b: Date, c: Date)
    ensures !DateLt(a, a)
    ensures a == b || DateLt(a, b) || DateLt(b, a)
    ensures DateLt(a, b) ==> !DateLt(b, a)
    ensures DateLt(a, b) && DateLt(b, c) ==> DateLt(a, c)
  {
  }

  /** A cell of the spreadsheet table. `Na` stands for every missing value
      pandas treats as NA (NaN, None, NaT); `Stamp` is a date or timestamp
      cell, kept at the granularity of a day. */
  datatype Value = Na | Str(s: string) | Num(x: real) | Stamp(d: Date)
}
