/** Go's time arithmetic in checkInterceptorTimeout (pkg/reconciler/interceptor/interceptor.go:116-123). */
module Deadline {
  import opened Types

  const SECOND := 1_000_000_000
  const MIN_INT64 := -0x8000_0000_0000_0000
  const MAX_INT64 := 0x7fff_ffff_ffff_ffff

  /** Go's wrap-around of a signed 64-bit result. */
  function Wrap64(x: int): int {
    (x - MIN_INT64) % 0x1_0000_0000_0000_0000 + MIN_INT64
  }

  /** time.Duration(seconds) * time.Second */
  function DurationOf(seconds: int32): int {
    Wrap64(seconds * SECOND)
  }

  /** time.Time.Sub saturates instead of overflowing. */
  function SaturatingSub(later: int, earlier: int): int {
    if later - earlier < MIN_INT64 then MIN_INT64
    else if later - earlier > MAX_INT64 then MAX_INT64
    else later - earlier
  }

  /** The heartbeat has expired: a missing deadline or heartbeat never does. */
  predicate TimedOut(deadline: Option<int32>, heartbeat: Option<int>, now: int) {
    && deadline.Some?
    && heartbeat.Some?
    && SaturatingSub(now, heartbeat.value) > DurationOf(deadline.value)
  }

  /** Times are nanoseconds: the 64-bit, saturating comparison gives the verdict of exact integers, for every
      deadline. */
  lemma TimeoutIsExact(deadline: Option<int32>, heartbeat: Option<int>, now: int)
    ensures TimedOut(deadline, heartbeat, now) <==>
      deadline.Some? && heartbeat.Some? && now - heartbeat.value > deadline.value * 1_000_000_000
  {
  }

  /** Once expired, a heartbeat stays expired. */
  lemma TimeoutIsStable(deadline: Option<int32>, heartbeat: Option<int>, now: int, later: int)
    requires TimedOut(deadline, heartbeat, now)
    requires now <= later
    ensures TimedOut(deadline, heartbeat, later)
  {
  }

  /** An interceptor selected at `since` can be found expired before its deadline has passed since then if
      and only if the heartbeat it is judged by is older than its selection. */
  lemma EarlyIffOlder(deadline: int32, heartbeat: int, since: int)
    ensures deadline >= 0 && heartbeat < since <==>
      exists now ::
        now >= since && TimedOut(Some(deadline), Some(heartbeat), now) && now - since <= deadline * 1_000_000_000
  {
    var latest := since + deadline * 1_000_000_000;
    TimeoutIsExact(Some(deadline), Some(heartbeat), latest);
    forall now | TimedOut(Some(deadline), Some(heartbeat), now)
      ensures now - heartbeat > deadline * 1_000_000_000
    {
      TimeoutIsExact(Some(deadline), Some(heartbeat), now);
    }
  }
}
