/** Durations in nanoseconds, and how they reach the key-value store. */
module Clock {

  const MILLISECOND := 1_000_000
  const SECOND := 1_000_000_000
  const MINUTE := 60 * SECOND
  const HOUR := 60 * MINUTE

  /** Whole seconds of a duration, cut toward zero. */
  function WholeSeconds(d: int): int {
    if d >= 0 then d / SECOND else -((-d) / SECOND)
  }

  /** What is cut off is less than a second and has the sign of the duration. */
  lemma {:induction false} WholeSecondsExact(d: int)
    ensures var rest := d - WholeSeconds(d) * 1_000_000_000;
            -1_000_000_000 < rest < 1_000_000_000 && (d >= 0 ==> rest >= 0) && (d <= 0 ==> rest <= 0)
  {
  }

  /** What EXPIRE is sent: whole seconds, but a positive duration gives at least one. */
  function ExpireSeconds(d: int): int {
    if 0 < d < SECOND then 1 else WholeSeconds(d)
  }

  /** What SET is sent for a positive duration: whole milliseconds, at least one. */
  function SetMillis(d: int): int
    requires d > 0
  {
    if d < MILLISECOND then 1 else d / MILLISECOND
  }
}
