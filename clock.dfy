/**
 * Instants and durations as the service's Go code sees them, in whole seconds.
 * An instant counts seconds from 0001-01-01T00:00:00Z, the zero value of Go's
 * time.Time, so `IsZero` is `t == ZeroTime`. Durations are Go time.Duration
 * values: signed 64-bit counts of nanoseconds that wrap around on overflow.
 */
module Clock {

  type Time = int

  const ZeroTime: Time := 0
  const SecondsPerMinute := 60
  const SecondsPerDay := 86400
  const NanosPerSecond := 1_000_000_000
  /** 1970-01-01T00:00:00Z: 719162 days after 0001-01-01. */
  const UnixEpoch: Time := 62_135_596_800

  const TwoTo63 := 0x8000_0000_0000_0000
  const TwoTo64 := 0x1_0000_0000_0000_0000

  /** time.Time.Unix: seconds since 1970-01-01T00:00:00Z. */
  function ToUnix(t: Time): int {
    t - UnixEpoch
  }

  /** Postgres to_timestamp(u): the instant u seconds after 1970-01-01T00:00:00Z. */
  function FromUnix(u: int): Time {
    u + UnixEpoch
  }

  predicate InInt64(x: int) {
    -TwoTo63 <= x < TwoTo63
  }

  /** Two's-complement wrap-around of a product or negation of int64 values. */
  function Wrap64(x: int): (r: int)
    ensures InInt64(r)
    ensures (r - x) % TwoTo64 == 0
    ensures InInt64(x) ==> r == x
  {
    var m := x % TwoTo64;
    if m >= TwoTo63 then m - TwoTo64 else m
  }

  /** The whole seconds an int64 count of nanoseconds spans: under 292 years either way. */
  const MaxDurationSeconds := 9_223_372_036

  lemma DurationSeconds(d: int)
    requires InInt64(d)
    ensures -MaxDurationSeconds - 1 <= d / NanosPerSecond <= MaxDurationSeconds
  {
  }

  /**
   * time.Time.Add for an instant with no sub-second part: the seconds part of the
   * sum, that is, the floor of the nanosecond sum divided by 10^9.
   */
  function AddDuration(t: Time, d: int): (r: Time)
    ensures r * NanosPerSecond <= t * NanosPerSecond + d < (r + 1) * NanosPerSecond
  {
    t + d / NanosPerSecond
  }
}
