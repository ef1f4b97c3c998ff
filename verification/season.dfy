/** The football season a date belongs to (`season_start_year`). */
module Season {

  /** `season_start_year(dt)`: English seasons start in July, so a date from July on belongs to the
      season that starts in its own year and an earlier date to the one that started the year before. */
  function SeasonStartYear(year: int, month: int): (season: int)
    requires 1 <= month <= 12
    ensures season == year || season == year - 1
    ensures season == year <==> month >= 7
  {
    if month >= 7 then year else year - 1
  }

  /** Months counted from January of year 0. */
  function MonthIndex(year: int, month: int): int {
    12 * year + (month - 1)
  }

  /** Season `s` runs from July of year `s` through June of year `s + 1`: a date's season is the one
      start year whose window holds the date. */
  lemma SeasonWindow(year: int, month: int, s: int)
    requires 1 <= month <= 12
    ensures SeasonStartYear(year, month) == s
        <==> MonthIndex(s, 7) <= MonthIndex(year, month) <= MonthIndex(s + 1, 6)
  {
  }

  /** A later date never belongs to an earlier season. */
  lemma SeasonMonotonic(y1: int, m1: int, y2: int, m2: int)
    requires 1 <= m1 <= 12 && 1 <= m2 <= 12
    requires MonthIndex(y1, m1) <= MonthIndex(y2, m2)
    ensures SeasonStartYear(y1, m1) <= SeasonStartYear(y2, m2)
  {
    SeasonWindow(y1, m1, SeasonStartYear(y1, m1));
    SeasonWindow(y2, m2, SeasonStartYear(y2, m2));
  }
}
