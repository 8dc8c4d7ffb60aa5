/** Stock datatypes, and the clock shared by every component. */
module Common {
  datatype Option<+T> = None | Some(value: T)

  datatype Result<+T, +E> = Ok(value: T) | Err(error: E)
}

/**
 The clock counts microseconds, but every timestamp column holds whole seconds:
 a date written through the ORM is formatted without its fraction. Comparisons
 with `now()` keep the fraction of `now()` and have lost that of the column.
 */
module Clock {
  /** An instant, in microseconds. */
  type Time = nat

  /** A timestamp column's value, in seconds. */
  type Stamp = nat

  const MICROS: nat := 1_000_000

  /** The column value written for an instant. */
  function StampOf(t: Time): Stamp {
    t / MICROS
  }

  /** The instant a column value denotes when it is read back. */
  function InstantOf(s: Stamp): Time {
    s * MICROS
  }

  /** `$stamp->isPast()`. */
  predicate IsPast(s: Stamp, now: Time) {
    InstantOf(s) < now
  }

  /** `(int) $stamp->diffInSeconds(now())` for a stamp that is not in the future. */
  function WholeSecondsSince(s: Stamp, now: Time): nat
    requires InstantOf(s) <= now
  {
    (now - InstantOf(s)) / MICROS
  }

  /** A stored stamp loses the fraction exactly once: elapsed whole seconds are a difference of stamps. */
  lemma WholeSecondsAreStampDifference(s: Stamp, now: Time)
    requires InstantOf(s) <= now
    ensures s <= StampOf(now)
    ensures WholeSecondsSince(s, now) == StampOf(now) - s
  {
    assert now == StampOf(now) * MICROS + now % MICROS;
    assert now - s * MICROS == (StampOf(now) - s) * MICROS + now % MICROS;
  }

  lemma StampMonotone(a: Time, b: Time)
    requires a <= b
    ensures StampOf(a) <= StampOf(b)
  {
  }
}
