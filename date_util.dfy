/** Hour arithmetic and the start-time overlap test (date.util.ts). Times
    are integer milliseconds; an hour is exactly 3 600 000 ms. */
module DateUtil {
  import opened Common

  /** The default `durationHours` of `isOverlapping`. */
  const DefaultDurationHours: int := 1

  /** `date` moved by `hours` hours. Times are values, so the argument is
      left as it was, as the source's copy-then-set does. */
  function AddHours(date: Time, hours: int): (r: Time)
    ensures r - date == hours * MsPerHour
    ensures r > date <==> hours > 0
    ensures r == date <==> hours == 0
  {
    date + hours * MsPerHour
  }

  lemma AddHoursCompose(date: Time, a: int, b: int)
    ensures AddHours(AddHours(date, a), b) == AddHours(date, a + b)
  {
  }

  /** Two events starting at `start1` and `start2`, each lasting
      `durationHours`, overlap. */
  predicate IsOverlapping(start1: Time, start2: Time, durationHours: int)
    ensures IsOverlapping(start1, start2, durationHours) <==>
      start1 - start2 < durationHours * MsPerHour && start2 - start1 < durationHours * MsPerHour
  {
    start1 < AddHours(start2, durationHours) && AddHours(start1, durationHours) > start2
  }

  function Abs(x: int): int { if x < 0 then -x else x }

  /** Overlap means the starts are less than one duration apart. */
  lemma OverlapIffClose(start1: Time, start2: Time, durationHours: int)
    ensures IsOverlapping(start1, start2, durationHours) <==> Abs(start1 - start2) < durationHours * MsPerHour
  {
  }

  lemma OverlapSymmetric(start1: Time, start2: Time, durationHours: int)
    ensures IsOverlapping(start1, start2, durationHours) <==> IsOverlapping(start2, start1, durationHours)
  {
  }

  /** Starts exactly one duration apart do not overlap; equal starts do
      whenever the duration is positive. */
  lemma OverlapBoundaries(start: Time, durationHours: int)
    ensures !IsOverlapping(start, AddHours(start, durationHours), durationHours)
    ensures durationHours > 0 ==> IsOverlapping(start, start, durationHours)
  {
  }
}
