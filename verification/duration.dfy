/** The duration banner `init_frame_context` prints: the container's duration
    in microseconds is rounded by 5000 µs (half a hundredth of a second),
    split into hours, minutes, seconds and microseconds with C's truncating
    `int64_t` division, and the microseconds are shown as a two-digit field of
    hundredths of a second. */
module Duration {

  import opened CInt

  /** AV_TIME_BASE: duration units per second. */
  const TimeBase: int := 1_000_000

  /** Half of one displayed unit (a hundredth of a second), in microseconds. */
  const RoundingOffset: int := 5000

  /** Microseconds in one hundredth of a second. */
  const UsPerHundredth: int := 10_000

  datatype Clock = Clock(hours: int, mins: int, secs: int, us: int)

  /** What the banner shows: hours, minutes, seconds and the sub-second field. */
  datatype Banner = Banner(hours: int, mins: int, secs: int, hundredths: int)

  /** The duration after the rounding offset. The offset is added only when
      the `int64_t` sum cannot overflow, so the result stays in range. */
  function Rounded(d: int): (r: int)
    requires IsInt64(d)
    ensures IsInt64(r)
    ensures IsInt64(d + RoundingOffset) ==> r == d + RoundingOffset
    ensures !IsInt64(d + RoundingOffset) ==> r == d
  {
    d + (if d <= INT64_MAX - RoundingOffset then RoundingOffset else 0)
  }

  /** Total microseconds a clock stands for. */
  function Total(c: Clock): int {
    ((c.hours * 60 + c.mins) * 60 + c.secs) * TimeBase + c.us
  }

  /** The clock fields are in their usual ranges. */
  predicate IsNormal(c: Clock) {
    0 <= c.hours && 0 <= c.mins < 60 && 0 <= c.secs < 60 && 0 <= c.us < TimeBase
  }

  /** The same ranges mirrored for a negative duration: every field is
      non-positive, as C's truncating remainder makes it. */
  predicate IsNormalNegative(c: Clock) {
    c.hours <= 0 && -60 < c.mins <= 0 && -60 < c.secs <= 0 && -TimeBase < c.us <= 0
  }

  /** The split of lines 39-44: seconds and microseconds, then minutes and
      seconds, then hours and minutes, each with C's `/` and `%`. */
  function Decompose(d: int): (c: Clock)
    requires IsInt64(d)
    ensures Total(c) == d
    ensures d >= 0 ==> IsNormal(c)
    ensures d < 0 ==> IsNormalNegative(c)
    ensures IsInt64(c.hours)
  {
    var secs := Div(d, TimeBase);
    var us := Rem(d, TimeBase);
    var mins := Div(secs, 60);
    var s := Rem(secs, 60);
    var hours := Div(mins, 60);
    var m := Rem(mins, 60);
    var c := Clock(hours, m, s, us);
    assert hours * 60 + m == mins;
    assert mins * 60 + s == secs;
    assert (hours * 60 + m) * 60 + s == secs;
    assert secs * TimeBase + us == d;
    c
  }

  /** A non-negative duration has exactly one normal clock, the one
      `Decompose` computes. */
  lemma {:induction false} DecomposeUnique(d: int, c: Clock)
    requires IsInt64(d) && d >= 0
    requires IsNormal(c) && Total(c) == d
    ensures Decompose(d) == c
  {
    var secs := (c.hours * 60 + c.mins) * 60 + c.secs;
    var mins := c.hours * 60 + c.mins;
    QuotientUnique(d, TimeBase, secs, c.us);
    assert Div(d, TimeBase) == secs && Rem(d, TimeBase) == c.us;
    QuotientUnique(secs, 60, mins, c.secs);
    assert Div(secs, 60) == mins && Rem(secs, 60) == c.secs;
    QuotientUnique(mins, 60, c.hours, c.mins);
  }

  /** The printed sub-second field `(100 * us) / AV_TIME_BASE`: the whole
      hundredths of a second in `us`, truncated toward zero. */
  function Hundredths(us: int): (h: int)
    requires -TimeBase < us < TimeBase
    ensures us >= 0 ==> 0 <= h <= 99 && h * UsPerHundredth <= us < (h + 1) * UsPerHundredth
    ensures us < 0 ==> -99 <= h <= 0 && (h - 1) * UsPerHundredth < us <= h * UsPerHundredth
  {
    Div(100 * us, TimeBase)
  }

  /** The banner as a whole number of hundredths of a second. */
  function BannerHundredths(b: Banner): int {
    ((b.hours * 60 + b.mins) * 60 + b.secs) * 100 + b.hundredths
  }

  /** The banner for a container duration, as `init_frame_context` prints it:
      the rounded duration truncated toward zero to whole hundredths of a
      second, with every field in its range (mirrored when negative). */
  function BannerOf(duration: int): (b: Banner)
    requires IsInt64(duration)
    ensures Rounded(duration) >= 0 ==>
      && 0 <= b.hours && 0 <= b.mins < 60 && 0 <= b.secs < 60 && 0 <= b.hundredths <= 99
      && BannerHundredths(b) * UsPerHundredth <= Rounded(duration) < (BannerHundredths(b) + 1) * UsPerHundredth
    ensures Rounded(duration) < 0 ==>
      && b.hours <= 0 && -60 < b.mins <= 0 && -60 < b.secs <= 0 && -99 <= b.hundredths <= 0
      && (BannerHundredths(b) - 1) * UsPerHundredth < Rounded(duration) <= BannerHundredths(b) * UsPerHundredth
  {
    var c := Decompose(Rounded(duration));
    var b := Banner(c.hours, c.mins, c.secs, Hundredths(c.us));
    var whole := (c.hours * 60 + c.mins) * 60 + c.secs;
    assert whole * TimeBase + c.us == Rounded(duration);
    assert BannerHundredths(b) * UsPerHundredth == whole * TimeBase + b.hundredths * UsPerHundredth;
    b
  }

  /** For a non-negative duration that the offset does not push past the
      `int64_t` range, the banner fields are in range and the banner is the
      duration rounded to the nearest hundredth of a second (halves up). */
  lemma BannerRoundsToNearestHundredth(duration: int)
    requires 0 <= duration <= INT64_MAX - RoundingOffset
    ensures var b := BannerOf(duration);
      && 0 <= b.hours && 0 <= b.mins < 60 && 0 <= b.secs < 60 && 0 <= b.hundredths <= 99
      && BannerHundredths(b) * UsPerHundredth - RoundingOffset <= duration
      && duration < BannerHundredths(b) * UsPerHundredth + RoundingOffset
  {
  }

  /** For a negative duration no field is positive: C's truncating `/` and
      `%` give negative (or zero) hours, minutes, seconds and hundredths,
      never a wrapped positive time. Between -5000 and -1 µs the offset
      lifts the duration to 0..4999 µs and every field is zero. */
  lemma NegativeBanner(duration: int)
    requires IsInt64(duration) && duration < 0
    ensures var b := BannerOf(duration);
      b.hours <= 0 && -60 < b.mins <= 0 && -60 < b.secs <= 0 && -99 <= b.hundredths <= 0
  {
  }

  /** The duration the library reports when it does not know one
      (`AV_NOPTS_VALUE`, the least `int64_t`) is shown as a large negative
      number of hours with zero minutes and negative seconds and hundredths. */
  lemma UnknownDurationBanner()
    ensures BannerOf(INT64_MIN) == Banner(-2562047788, 0, -54, -77)
  {
  }
}
