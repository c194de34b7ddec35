/** The window in which an active interceptor is to answer (apis/evictionrequest/v1alpha1/types.go:106-110),
    over every run: how it ends, whose heartbeat ends it, and when. */
module Windows {
  import opened Types
  import opened Reconcile
  import opened System
  import opened Invariants
  import opened Protocol
  import Deadline

  /** Version `u` turns the completed flag on. */
  predicate Raised(s: State, u: nat) {
    0 < u < |s.history| == |s.authors| && !s.history[u - 1].completed && s.history[u].completed
  }

  /** The active interceptor reports completion. */
  predicate Answered(s: State, u: nat) {
    Raised(s, u) && s.authors[u].InterceptorWrote?
  }

  /** The controller finds the deadline missed by the stored heartbeat. */
  predicate Expired(ctx: Context, s: State, u: nat) {
    && Raised(s, u) && s.authors[u].Controller?
    && Deadline.TimedOut(ctx.spec.heartbeatDeadlineSeconds, s.history[u - 1].heartbeatTime, s.authors[u].at)
  }

  /** An interceptor takes the completed flag back. */
  predicate Cleared(s: State, u: nat) {
    && 0 < u < |s.history| == |s.authors| && s.authors[u].InterceptorWrote?
    && s.history[u - 1].completed && !s.history[u].completed
  }

  /** An interceptor stores another heartbeat. */
  predicate Beat(s: State, u: nat) {
    && 0 < u < |s.history| == |s.authors| && s.authors[u].InterceptorWrote?
    && s.history[u].heartbeatTime != s.history[u - 1].heartbeatTime
  }

  predicate BeatSince(s: State, v: nat, w: nat) {
    exists u :: v < u <= w && Beat(s, u)
  }

  /** The flag was down at some version v .. w. */
  predicate Opened(s: State, v: nat, w: nat) {
    exists u :: v <= u <= w && u < |s.history| && !s.history[u].completed
  }

  /** A window that is open since v at the earliest ends at `u`. */
  predicate Ended(ctx: Context, s: State, u: nat) {
    Answered(s, u) || Expired(ctx, s, u)
  }

  /** ... by an answer, or by a heartbeat stored since v. */
  predicate EndedByOwn(ctx: Context, s: State, v: nat, u: nat) {
    0 < u && (Answered(s, u) || (Expired(ctx, s, u) && BeatSince(s, v, u - 1)))
  }

  /** What the interceptor has done itself since v: it answered, or the flag was down when it had stored a
      heartbeat, then or later. */
  predicate Engaged(s: State, v: nat, w: nat) {
    || (exists u :: v < u <= w && Answered(s, u))
    || (exists d :: v <= d <= w && d < |s.history| && !s.history[d].completed && BeatSince(s, v, d))
  }

  // ---- How a window ends ----

  lemma RaisedIsEnded(ctx: Context, s: State, u: nat)
    requires VersionsInv(ctx, s) && Raised(s, u)
    ensures Ended(ctx, s, u)
  {
    assert VersionOk(ctx, s, u);
  }

  /** The flag turns on only by ending a window. */
  lemma {:induction false} RaisedBetween(ctx: Context, s: State, v: nat, w: nat) returns (u: nat)
    requires VersionsInv(ctx, s) && v <= w < |s.history|
    requires !s.history[v].completed && s.history[w].completed
    ensures v < u <= w && Ended(ctx, s, u)
    decreases w
  {
    if s.history[w - 1].completed {
      u := RaisedBetween(ctx, s, v, w - 1);
    } else {
      u := w;
      RaisedIsEnded(ctx, s, w);
    }
  }

  /** ... and off only when an interceptor clears it. */
  lemma {:induction false} ClearedBetween(ctx: Context, s: State, v: nat, w: nat) returns (u: nat)
    requires VersionsInv(ctx, s) && v <= w < |s.history|
    requires s.history[v].completed && !s.history[w].completed
    ensures v < u <= w && Cleared(s, u)
    decreases w
  {
    if s.history[w - 1].completed {
      assert VersionOk(ctx, s, w);
      u := w;
    } else {
      u := ClearedBetween(ctx, s, v, w - 1);
    }
  }

  lemma OpenedEnds(ctx: Context, s: State, v: nat, w: nat)
    requires VersionsInv(ctx, s) && v <= w < |s.history| && s.history[w].completed
    ensures (exists u :: v < u <= w && Ended(ctx, s, u)) <==> Opened(s, v, w)
  {
    if Opened(s, v, w) {
      var d :| v <= d <= w && d < |s.history| && !s.history[d].completed;
      var _ := RaisedBetween(ctx, s, d, w);
    }
  }

  lemma OpenedIffCleared(ctx: Context, s: State, v: nat, w: nat)
    requires VersionsInv(ctx, s) && v <= w < |s.history| && s.history[v].completed
    ensures Opened(s, v, w) <==> exists u :: v < u <= w && Cleared(s, u)
  {
    if Opened(s, v, w) {
      var d :| v <= d <= w && d < |s.history| && !s.history[d].completed;
      var _ := ClearedBetween(ctx, s, v, d);
    }
  }

  lemma EngagedEnds(ctx: Context, s: State, v: nat, w: nat)
    requires VersionsInv(ctx, s) && v <= w < |s.history| && s.history[w].completed
    requires Engaged(s, v, w)
    ensures exists u :: v < u <= w && EndedByOwn(ctx, s, v, u)
  {
    if u :| v < u <= w && Answered(s, u) {
      assert EndedByOwn(ctx, s, v, u);
    } else {
      var d :| v <= d <= w && d < |s.history| && !s.history[d].completed && BeatSince(s, v, d);
      var y :| v < y <= d && Beat(s, y);
      var u := RaisedBetween(ctx, s, d, w);
      assert BeatSince(s, v, u - 1);
      assert EndedByOwn(ctx, s, v, u);
    }
  }

  lemma OwnEndIsEngaged(ctx: Context, s: State, v: nat, w: nat, u: nat)
    requires v < u <= w && EndedByOwn(ctx, s, v, u)
    ensures Engaged(s, v, w)
  {
    if !Answered(s, u) {
      var d: nat := u - 1;
      assert v <= d <= w && d < |s.history| && !s.history[d].completed && BeatSince(s, v, d);
    }
  }

  lemma EngagedIffOwn(ctx: Context, s: State, v: nat, w: nat)
    requires VersionsInv(ctx, s) && v <= w < |s.history| && s.history[w].completed
    ensures (exists u :: v < u <= w && EndedByOwn(ctx, s, v, u)) <==> Engaged(s, v, w)
  {
    if Engaged(s, v, w) {
      EngagedEnds(ctx, s, v, w);
    }
    if u :| v < u <= w && EndedByOwn(ctx, s, v, u) {
      OwnEndIsEngaged(ctx, s, v, w, u);
    }
  }

  /** What is true of the versions v .. w of one active interceptor: some window of it ended if and only if
      the flag was down, which after a handover means that it cleared the flag; and one ended by its own
      doing if and only if it answered, or stored a heartbeat that the flag was down with or after. */
  ghost predicate Accounted(ctx: Context, s: State, v: nat, w: nat)
    requires v <= w < |s.history|
  {
    && ((exists u :: v < u <= w && Ended(ctx, s, u)) <==> Opened(s, v, w))
    && (s.history[v].completed ==> (Opened(s, v, w) <==> exists u :: v < u <= w && Cleared(s, u)))
    && ((exists u :: v < u <= w && EndedByOwn(ctx, s, v, u)) <==> Engaged(s, v, w))
  }

  lemma CompletedIsAccounted(ctx: Context, s: State, v: nat, w: nat)
    requires VersionsInv(ctx, s) && v <= w < |s.history| && s.history[w].completed
    ensures Accounted(ctx, s, v, w)
  {
    OpenedEnds(ctx, s, v, w);
    EngagedIffOwn(ctx, s, v, w);
    if s.history[v].completed {
      OpenedIffCleared(ctx, s, v, w);
    }
  }

  /** An active interceptor is stored from version v to w - 1 and moved away from at w. */
  lemma OwnWindowIffEngaged(ctx: Context, s: State, staleOnly: bool, v: nat, w: nat)
    requires WellFormed(ctx) && Reachable(ctx, s, staleOnly)
    requires v < w < |s.history| && !NoActive(s.history[v].activeClass)
    requires forall u :: v <= u < w ==> s.history[u].activeClass == s.history[v].activeClass
    requires s.history[w].activeClass != s.history[v].activeClass
    ensures s.history[w].completed && Accounted(ctx, s, v, w)
  {
    assert VersionsInv(ctx, s) by { ReachableInv(ctx, s, staleOnly); }
    assert VersionOk(ctx, s, w);
    HandoverIsJustified(ctx, s, staleOnly, w);
    CompletedIsAccounted(ctx, s, v, w);
  }

  /** The same up to an eviction call at which the stored flag is up, from any copy; and, for a copy
      without failed handler writes, up to its snapshot. */
  lemma LastWindowIffEngaged(ctx: Context, s: State, staleOnly: bool, i: nat, v: nat)
    requires WellFormed(ctx) && Reachable(ctx, s, staleOnly)
    requires i < |s.evictions| && ctx.order != []
    ensures var e := s.evictions[i];
      && e.base <= e.version < |s.history|
      && (s.history[e.version].completed && v <= e.version ==> Accounted(ctx, s, v, e.version))
      && (e.refused == 0 && v <= e.base ==> s.history[e.base].completed && Accounted(ctx, s, v, e.base))
  {
    var e := s.evictions[i];
    EvictionIsJustified(ctx, s, staleOnly, i);
    assert EvictionOk(ctx, s, e) && VersionsInv(ctx, s) by { ReachableInv(ctx, s, staleOnly); }
    if s.history[e.version].completed && v <= e.version {
      CompletedIsAccounted(ctx, s, v, e.version);
    }
    if e.refused == 0 && v <= e.base {
      CompletedIsAccounted(ctx, s, v, e.base);
    }
  }

  // ---- Whose heartbeat, and when ----

  /** The heartbeat changes between v and w. */
  predicate Changed(s: State, v: nat, w: nat) {
    exists u :: v < u <= w && u < |s.history| && s.history[u].heartbeatTime != s.history[u - 1].heartbeatTime
  }

  lemma {:induction false} HeartbeatIsInherited(ctx: Context, s: State, v: nat, w: nat)
    requires VersionsInv(ctx, s) && v <= w < |s.history|
    ensures !BeatSince(s, v, w) ==> s.history[w].heartbeatTime == s.history[v].heartbeatTime
    decreases w
  {
    if v < w && !BeatSince(s, v, w) {
      assert VersionOk(ctx, s, w) && !Beat(s, w);
      HeartbeatIsInherited(ctx, s, v, w - 1);
    }
  }

  lemma {:induction false} HeartbeatIsBeaten(ctx: Context, s: State, v: nat, w: nat)
    requires v <= w < |s.history| && BeatSince(s, v, w) && VersionsInv(ctx, s)
    ensures exists u :: v < u <= w && Beat(s, u) && s.history[u].heartbeatTime == s.history[w].heartbeatTime
    decreases w
  {
    if !Beat(s, w) {
      assert VersionOk(ctx, s, w);
      var u :| v < u <= w && Beat(s, u);
      assert BeatSince(s, v, w - 1);
      HeartbeatIsBeaten(ctx, s, v, w - 1);
    }
  }

  lemma ChangedIffBeat(ctx: Context, s: State, v: nat, w: nat)
    requires VersionsInv(ctx, s) && v <= w < |s.history|
    ensures Changed(s, v, w) <==> BeatSince(s, v, w)
  {
    if u :| v < u <= w && u < |s.history| && s.history[u].heartbeatTime != s.history[u - 1].heartbeatTime {
      assert VersionOk(ctx, s, u);
      assert Beat(s, u);
    }
  }

  /** The heartbeat that expires at `u` was stored after version v if and only if an interceptor stored one
      in between; then it is the one of such a write, and otherwise the one version v had, which a handover
      took over. If it is not older than the handover at v, the deadline has passed since that handover. */
  lemma ExpiringHeartbeat(ctx: Context, s: State, staleOnly: bool, v: nat, u: nat)
    requires WellFormed(ctx) && Reachable(ctx, s, staleOnly)
    requires v < u && Expired(ctx, s, u)
    ensures var heartbeat, deadline := s.history[u - 1].heartbeatTime, ctx.spec.heartbeatDeadlineSeconds;
      && heartbeat.Some? && deadline.Some?
      && (Changed(s, v, u - 1) <==> BeatSince(s, v, u - 1))
      && (BeatSince(s, v, u - 1) ==> exists y :: v < y < u && Beat(s, y) && s.history[y].heartbeatTime == heartbeat)
      && (!BeatSince(s, v, u - 1) ==> heartbeat == s.history[v].heartbeatTime)
      && (ByController(s, v) && heartbeat.value >= s.authors[v].at ==>
            s.authors[u].at - s.authors[v].at > deadline.value * 1_000_000_000)
  {
    assert VersionsInv(ctx, s) by { ReachableInv(ctx, s, staleOnly); }
    TimeoutIsSound(ctx, s, staleOnly, u);
    ChangedIffBeat(ctx, s, v, u - 1);
    HeartbeatIsInherited(ctx, s, v, u - 1);
    if BeatSince(s, v, u - 1) {
      HeartbeatIsBeaten(ctx, s, v, u - 1);
    }
  }
}
