/** Clock readings, and what is left of them in the database. */
module Clock {

  /** Nanoseconds on the UTC clock. */
  type Time = int

  const MICRO: nat := 1_000
  const SECOND: nat := 1_000_000_000
  const HOUR: nat := 3_600_000_000_000
  const DAY: nat := 86_400_000_000_000

  /** A timestamp as TIMESTAMPTZ keeps it: whole microseconds. */
  function Stored(t: Time): (r: Time)
    ensures t >= 0 ==> r >= 0
  {
    t - t % MICRO
  }

  lemma WholeMicros(t: Time, k: int)
    ensures (t + 1_000 * k) % 1_000 == t % 1_000
  {
    assert t + 1_000 * k == 1_000 * (t / 1_000 + k) + t % 1_000;
  }

  /** Whole days pass through storage unharmed. */
  lemma StoredKeepsDays(t: Time, days: int)
    ensures Stored(t + days * DAY) == Stored(t) + days * DAY
    ensures Stored(t) % MICRO == 0 && (Stored(t) + days * DAY) % MICRO == 0
  {
    WholeMicros(t, days * 86_400_000_000);
    WholeMicros(0, t / 1_000);
    WholeMicros(Stored(t), days * 86_400_000_000);
  }

  /** Storing cuts: the stored time is the last whole microsecond not after the reading. */
  lemma StoredIsCut(t: Time, micros: int)
    ensures Stored(t) <= t < Stored(t) + MICRO
    ensures Stored(t) == 1_000 * micros <==> 1_000 * micros <= t < 1_000 * (micros + 1)
  {
  }

  lemma StoredMonotone(bound: Time, t: Time)
    requires bound % MICRO == 0 && bound <= t
    ensures bound <= Stored(t)
  {
  }
}
