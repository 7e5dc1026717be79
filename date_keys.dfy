/** The date keys both mood trackers use: `date.toISOString().split('T')[0]`,
    the UTC calendar day of an instant. Instants are milliseconds since the
    epoch, days are numbered from the epoch, and a time zone is its offset
    ahead of UTC in milliseconds. The calendar cells are the local midnights
    of the week's days, while the selected date starts as the current
    instant. */
module DateKeys {

  const DayMs: int := 86400000

  /** The UTC day of an instant: what its ISO date prefix names. */
  function UtcDay(instant: int): int {
    instant / DayMs
  }

  /** The local day an instant falls on in a zone `offset` ms ahead of UTC. */
  function LocalDay(instant: int, offset: int): int {
    (instant + offset) / DayMs
  }

  /** The key of the calendar cell for local day d: the UTC day of that
      day's local midnight. */
  function CellKey(d: int, offset: int): int {
    UtcDay(d * DayMs - offset)
  }

  /** Division by DayMs is determined by quotient and remainder. */
  lemma DivUnique(a: int, q: int, r: int)
    requires 0 <= r < DayMs && a == q * DayMs + r
    ensures a / DayMs == q
  {
  }

  /** Cell keys are the local day numbers shifted by a constant of the
      zone, so different days have different keys. */
  lemma CellKeyShift(d: int, offset: int)
    ensures CellKey(d, offset) == d + UtcDay(-offset)
  {
    var q0, r0 := (-offset) / DayMs, (-offset) % DayMs;
    assert -offset == q0 * DayMs + r0;
    assert d * DayMs - offset == (d + q0) * DayMs + r0;
    DivUnique(d * DayMs - offset, d + q0, r0);
  }

  /** East of UTC, a cell's key is the day before its own. */
  lemma CellKeyEastOfUtc(d: int, offset: int)
    requires 0 < offset < DayMs
    ensures CellKey(d, offset) == d - 1
  {
    assert d * DayMs - offset == (d - 1) * DayMs + (DayMs - offset);
    DivUnique(d * DayMs - offset, d - 1, DayMs - offset);
  }

  /** As written: east of UTC, once the local time of day has reached the
      offset, the current instant's key is the key of tomorrow's cell and
      not of today's, so a mood picked before any day is clicked shows under
      tomorrow. */
  lemma SelectedKeyShowsTomorrow(instant: int, offset: int)
    requires 0 < offset < DayMs
    requires (instant + offset) % DayMs >= offset
    ensures UtcDay(instant) == CellKey(LocalDay(instant, offset) + 1, offset)
    ensures UtcDay(instant) != CellKey(LocalDay(instant, offset), offset)
  {
    var d := LocalDay(instant, offset);
    var x := (instant + offset) % DayMs;
    assert instant + offset == d * DayMs + x;
    DivUnique(instant, d, x - offset);
    CellKeyEastOfUtc(d + 1, offset);
    CellKeyEastOfUtc(d, offset);
  }

  /** Noon in UTC+2 on local day 20000 is such an instant. */
  lemma NoonInUtcPlusTwo()
    ensures var noon := 20000 * DayMs + 10 * 3600000;
      UtcDay(noon) == CellKey(20001, 7200000) && UtcDay(noon) != CellKey(20000, 7200000)
  {
    var noon := 20000 * DayMs + 10 * 3600000;
    assert noon + 7200000 == 20000 * DayMs + 12 * 3600000;
    DivUnique(noon + 7200000, 20000, 12 * 3600000);
    assert LocalDay(noon, 7200000) == 20000;
    SelectedKeyShowsTomorrow(noon, 7200000);
  }

  /** Corrected: key the selected date by its local day's midnight, as the
      cells are keyed. */
  function SelectedDayKey(instant: int, offset: int): int {
    CellKey(LocalDay(instant, offset), offset)
  }

  /** In every zone, the corrected key is the key of exactly one cell: the
      cell of the local day the instant falls on. */
  lemma SelectedDayKeyMatchesCell(instant: int, offset: int, d: int)
    ensures SelectedDayKey(instant, offset) == CellKey(d, offset) <==> LocalDay(instant, offset) == d
  {
    CellKeyShift(d, offset);
    CellKeyShift(LocalDay(instant, offset), offset);
  }
}
