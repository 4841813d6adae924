/** The bisecting scheduler of light-client/src/components/scheduler.rs. */
module Scheduler {
  import opened Types

  /** The height halfway, rounded up. */
  function Midpoint(low: Height, high: Height): (r: Height)
    requires low <= high
    ensures low <= r <= high
    ensures low + high <= 2 * r <= low + high + 1
    ensures high - low >= 2 ==> low < r < high
  {
    low + (high + 1 - low) / 2
  }

  /** The next height to try, given the highest trusted height up to the target. */
  function Schedule(trusted: Height, current: Height, target: Height): Height
    requires trusted <= current
  {
    if trusted == current then target else Midpoint(trusted, current)
  }

  /** The contract every scheduler has to meet. */
  predicate ValidSchedule(scheduled: Height, target: Height, current: Height, trusted: Height) {
    if trusted == current && trusted < target then
      current < scheduled <= target
    else if trusted < current && trusted < target then
      trusted < scheduled < current
    else if trusted == target then
      scheduled == target
    else
      true
  }

  /**
   The bisecting scheduler meets the contract exactly when it is not asked to
   find a height strictly between two neighbours (where there is none), or for
   a current height other than the target once that is reached.
   */
  lemma ScheduleIsValidIff(trusted: Height, current: Height, target: Height)
    requires trusted <= current <= target
    ensures ValidSchedule(Schedule(trusted, current, target), target, current, trusted)
            <==> current != trusted + 1
  {
  }
}
