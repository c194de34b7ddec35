/** Concrete runs showing that conditions of the protocol theorems cannot be dropped. */
module Limits {
  import opened Types
  import opened Reconcile
  import opened Cursor
  import opened System
  import opened Protocol
  import opened Windows
  import Deadline

  lemma {:induction false} RunAppend(ctx: Context, s: State, labels: seq<Label>, l: Label)
    requires Legal(ctx, s, labels) && Enabled(ctx, Execute(ctx, s, labels), l)
    ensures Legal(ctx, s, labels + [l])
    ensures Execute(ctx, s, labels + [l]) == Apply(ctx, Execute(ctx, s, labels), l)
    decreases |labels|
  {
    var longer := labels + [l];
    if labels == [] {
      assert longer[1..] == [];
    } else {
      RunAppend(ctx, Apply(ctx, s, labels[0]), labels[1..], l);
      assert longer[1..] == labels[1..] + [l];
    }
  }

  lemma InitReachable(ctx: Context, s: State, staleOnly: bool)
    requires Init(ctx, s)
    ensures Reachable(ctx, s, staleOnly)
  {
    assert RunsTo(ctx, s, [], s, staleOnly);
  }

  /** One more step of a run. */
  lemma Step(ctx: Context, s: State, l: Label, staleOnly: bool) returns (t: State)
    requires Reachable(ctx, s, staleOnly) && Enabled(ctx, s, l) && (staleOnly ==> StaleOnly(l))
    ensures t == Apply(ctx, s, l) && Reachable(ctx, t, staleOnly)
  {
    var s0, labels :| RunsTo(ctx, s0, labels, s, staleOnly);
    RunAppend(ctx, s0, labels, l);
    t := Apply(ctx, s, l);
    assert RunsTo(ctx, s0, labels + [l], t, staleOnly);
  }

  function Target(ctx: Context): Pod {
    Pod(ctx.spec.namespace, ctx.spec.podName, ctx.spec.podUid)
  }

  function CacheOf(ctx: Context, pod: Pod): map<string, Pod> {
    map[ctx.spec.podName := pod]
  }

  function StatusOf(active: Option<string>, completed: bool): Status {
    Status([], "", active, completed, None, None, Allow, None)
  }

  function AtRank(ctx: Context, i: nat): Status
    requires i < |ctx.order|
  {
    StatusOf(Some(ctx.order[i].interceptorClass), true)
  }

  /** A request whose interceptors, if it has any, are through. */
  function AllThrough(ctx: Context): Status {
    if ctx.order == [] then StatusOf(None, false) else AtRank(ctx, |ctx.order| - 1)
  }

  function Start(ctx: Context, st: Status): State {
    State([st], [Creator], [CacheOf(ctx, Target(ctx))], 0, [], [])
  }

  /** Everything but copy `k` is as before. */
  predicate OnlyItem(s: State, t: State, k: nat) {
    && t.history == s.history && t.authors == s.authors && t.pods == s.pods && t.evictions == s.evictions
    && t.clock == s.clock
    && k < |s.items| == |t.items|
    && t.items == s.items[k := t.items[k]]
    && t.items[k].base == s.items[k].base
  }

  lemma Copied(ctx: Context, s: State, staleOnly: bool) returns (t: State)
    requires Reachable(ctx, s, staleOnly) && s.history != [] && s.pods != []
    ensures Reachable(ctx, t, staleOnly)
    ensures t == s.(items := s.items + [Copy(Latest(s), |s.history| - 1)])
  {
    t := Step(ctx, s, Enqueue(|s.history| - 1), staleOnly);
  }

  /** Completed at the rank. */
  predicate CompletedAt(ctx: Context, st: Status, i: nat)
    requires i < |ctx.order|
  {
    !st.policy.Unspecified? && st.completed && st.activeClass == Some(ctx.order[i].interceptorClass)
  }

  /** A reconcile of copy `k`, completed before the last rank, up to its handover write. */
  lemma RunToHandover(ctx: Context, s: State, k: nat, i: nat, staleOnly: bool) returns (t: State)
    requires WellNamed(ctx.order) && i + 1 < |ctx.order|
    requires Reachable(ctx, s, staleOnly) && s.history != [] && s.pods == [CacheOf(ctx, Target(ctx))]
    requires k < |s.items| && s.items[k].phase.Queued? && CompletedAt(ctx, s.items[k].status, i)
    ensures Reachable(ctx, t, staleOnly) && OnlyItem(s, t, k)
    ensures t.items[k].phase == Running(WriteHandler)
    ensures t.items[k].status == s.items[k].status.(activeClass := Some(ctx.order[i + 1].interceptorClass))
    ensures t.items[k].refused == s.items[k].refused
  {
    t := Step(ctx, s, Begin(k), staleOnly);
    t := Step(ctx, t, Advance(k, false, Stale, true), staleOnly);
  }

  /** A reconcile of copy `k`, all of whose interceptors are through, up to its second lookup. */
  lemma RunToPerform(ctx: Context, s: State, k: nat, staleOnly: bool) returns (t: State)
    requires WellNamed(ctx.order)
    requires Reachable(ctx, s, staleOnly) && s.history != [] && s.pods == [CacheOf(ctx, Target(ctx))]
    requires k < |s.items| && s.items[k].phase.Queued?
    requires !s.items[k].status.policy.Unspecified?
    requires ctx.order == [] || Final(ctx.order, s.items[k].status)
    ensures Reachable(ctx, t, staleOnly) && OnlyItem(s, t, k)
    ensures t.items[k].phase == Running(GetPodAgain) && t.items[k].status == s.items[k].status
    ensures t.items[k].refused == s.items[k].refused
  {
    t := Step(ctx, s, Begin(k), staleOnly);
    t := Step(ctx, t, Advance(k, false, Stale, true), staleOnly);
  }

  /** ... and up to its eviction call. */
  lemma RunToEvict(ctx: Context, s: State, k: nat, staleOnly: bool) returns (t: State)
    requires WellNamed(ctx.order)
    requires Reachable(ctx, s, staleOnly) && s.history != [] && s.pods == [CacheOf(ctx, Target(ctx))]
    requires k < |s.items| && s.items[k].phase.Queued?
    requires !s.items[k].status.policy.Unspecified?
    requires ctx.order == [] || Final(ctx.order, s.items[k].status)
    ensures Reachable(ctx, t, staleOnly) && OnlyItem(s, t, k)
    ensures t.items[k].phase == Running(Evict(Target(ctx))) && t.items[k].status == s.items[k].status
    ensures t.items[k].refused == s.items[k].refused
  {
    t := RunToPerform(ctx, s, k, staleOnly);
    t := Step(ctx, t, Advance(k, false, Stale, true), staleOnly);
  }

  lemma Stored(ctx: Context, s: State, k: nat, staleOnly: bool) returns (t: State)
    requires Reachable(ctx, s, staleOnly) && s.history != [] && s.pods != []
    requires k < |s.items| && s.items[k].phase == Running(WriteHandler) && s.items[k].base == |s.history| - 1
    ensures Reachable(ctx, t, staleOnly)
    ensures t.history == s.history + [s.items[k].status]
    ensures t.authors == s.authors + [AuthorOf(s.items[k], k, s.clock)] && ByController(t, |s.authors|)
    ensures t.pods == s.pods && t.clock == s.clock && t.evictions == s.evictions
    ensures |t.items| == |s.items| && forall j :: 0 <= j < |s.items| && j != k ==> t.items[j] == s.items[j]
  {
    t := Step(ctx, s, Advance(k, false, Accepted, true), staleOnly);
  }

  /** A refused write leaves the moved class in the requeued copy. */
  lemma RefusedAndRequeued(ctx: Context, s: State, k: nat, fate: Fate, staleOnly: bool) returns (t: State)
    requires Reachable(ctx, s, staleOnly) && s.history != [] && s.pods != []
    requires k < |s.items| && s.items[k].phase == Running(WriteHandler)
    requires (fate.Stale? && s.items[k].base != |s.history| - 1) || (fate.Transient? && !staleOnly)
    ensures Reachable(ctx, t, staleOnly) && OnlyItem(s, t, k)
    ensures t.items[k].status == s.items[k].status && t.items[k].phase.Queued?
    ensures t.items[k].refused == s.items[k].refused + 1
  {
    t := Step(ctx, s, Advance(k, false, fate, true), staleOnly);
    t := Step(ctx, t, End(k), staleOnly);
  }

  lemma Evicted(ctx: Context, s: State, k: nat, succeeds: bool, staleOnly: bool) returns (t: State)
    requires Reachable(ctx, s, staleOnly) && s.history != [] && s.pods != []
    requires k < |s.items| && s.items[k].phase.Running? && s.items[k].phase.pc.Evict?
    ensures Reachable(ctx, t, staleOnly)
    ensures t.history == s.history && t.authors == s.authors && t.pods == s.pods && t.clock == s.clock
    ensures t.evictions == s.evictions + [EvictionOf(ctx, s.items[k], k, succeeds, |s.history| - 1, s.clock)]
    ensures |t.items| == |s.items| && t.items[k].base == s.items[k].base
    ensures t.items[k].phase == Running(Stamp(succeeds)) && t.items[k].status == s.items[k].status
  {
    t := Step(ctx, s, Advance(k, false, Stale, succeeds), staleOnly);
  }

  /** Two copies of a request completed at the last rank but one. */
  lemma TwoCopies(ctx: Context) returns (s: State)
    requires WellNamed(ctx.order) && |ctx.order| >= 2
    ensures var st := AtRank(ctx, |ctx.order| - 2);
      && Reachable(ctx, s, true)
      && s == Start(ctx, st).(items := [Copy(st, 0), Copy(st, 0)])
  {
    s := Start(ctx, AtRank(ctx, |ctx.order| - 2));
    InitReachable(ctx, s, true);
    s := Copied(ctx, s, true);
    s := Copied(ctx, s, true);
  }

  /** The first stores its handover to the last interceptor, which then goes to work and clears the
      completed flag. */
  lemma OneOfTwoStored(ctx: Context) returns (s: State)
    requires WellNamed(ctx.order) && |ctx.order| >= 2
    ensures Reachable(ctx, s, true) && s.pods == [CacheOf(ctx, Target(ctx))] && s.evictions == []
    ensures |s.history| == 3 && Latest(s) == AtRank(ctx, |ctx.order| - 1).(completed := false)
    ensures |s.items| == 2 && s.items[1] == Copy(AtRank(ctx, |ctx.order| - 2), 0)
  {
    s := TwoCopies(ctx);
    s := RunToHandover(ctx, s, 0, |ctx.order| - 2, true);
    s := Stored(ctx, s, 0, true);
    s := Step(ctx, s, Update(AtRank(ctx, |ctx.order| - 1).(completed := false)), true);
  }

  /** Stale refusals alone let any request with two or more interceptors lose its pod while the stored
      status says the last interceptor is still at work: the refused copy is requeued with the class it
      failed to store, and walks on from there. */
  lemma StaleCopyEvictsEarly(ctx: Context) returns (s: State)
    requires WellFormed(ctx) && |ctx.order| >= 2
    ensures Reachable(ctx, s, true) && |s.evictions| == 1
    ensures var e := s.evictions[0];
      && e.pod == Target(ctx) && e.base < e.version < |s.history| && e.refused > 0
      && !s.history[e.version].completed
      && Rank(ctx.order, s.history[e.version].activeClass) == |ctx.order| - 1
  {
    WellFormedIsWellNamed(ctx);
    var n := |ctx.order|;
    s := OneOfTwoStored(ctx);
    s := RunToHandover(ctx, s, 1, n - 2, true);
    s := RefusedAndRequeued(ctx, s, 1, Stale, true);
    RankOfSelected(ctx.order, n - 1);
    s := RunToEvict(ctx, s, 1, true);
    s := Evicted(ctx, s, 1, true, true);
  }

  /** So does, for any request with interceptors, the last one taking its completed flag back after a copy
      was made: no write is refused at all. */
  lemma ClearedCopyEvictsEarly(ctx: Context) returns (s: State)
    requires WellFormed(ctx) && ctx.order != []
    ensures Reachable(ctx, s, true) && |s.evictions| == 1
    ensures var e := s.evictions[0];
      && e.pod == Target(ctx) && e.base < e.version < |s.history| && e.refused == 0
      && !s.history[e.version].completed
      && Rank(ctx.order, s.history[e.version].activeClass) == |ctx.order| - 1
  {
    WellFormedIsWellNamed(ctx);
    RankOfSelected(ctx.order, |ctx.order| - 1);
    var st := AllThrough(ctx);
    s := Start(ctx, st);
    InitReachable(ctx, s, true);
    s := Copied(ctx, s, true);
    s := RunToEvict(ctx, s, 0, true);
    s := Step(ctx, s, Update(st.(completed := false)), true);
    s := Evicted(ctx, s, 0, true, true);
  }

  // ---- The predecessor's heartbeat ----

  /** A reconcile of copy `k` whose interceptor has missed the deadline, up to its write. */
  lemma RunToExpiry(ctx: Context, s: State, k: nat) returns (t: State)
    requires ctx.order != []
    requires Reachable(ctx, s, true) && s.history != [] && s.pods == [CacheOf(ctx, Target(ctx))]
    requires k < |s.items| && s.items[k].phase.Queued?
    requires var st := s.items[k].status;
      && !st.policy.Unspecified? && !st.completed && !NoActive(st.activeClass)
      && Deadline.TimedOut(ctx.spec.heartbeatDeadlineSeconds, st.heartbeatTime, s.clock)
    ensures Reachable(ctx, t, true) && OnlyItem(s, t, k)
    ensures t.items[k].phase == Running(WriteHandler) && t.items[k].status == s.items[k].status.(completed := true)
  {
    t := Step(ctx, s, Begin(k), true);
    t := Step(ctx, t, Advance(k, false, Stale, true), true);
    t := Step(ctx, t, Advance(k, false, Stale, true), true);
  }

  /** The state after one more version by a new copy, at the same time. */
  ghost predicate OneMore(ctx: Context, s: State, t: State, st: Status) {
    && Reachable(ctx, t, true)
    && t.history == s.history + [st] && |t.authors| == |s.authors| + 1 && s.authors <= t.authors
    && t.authors[|s.authors|].Controller? && t.authors[|s.authors|].at == s.clock
    && t.pods == s.pods && t.clock == s.clock
  }

  lemma HandedOver(ctx: Context, s: State, i: nat) returns (t: State)
    requires WellNamed(ctx.order) && i + 1 < |ctx.order|
    requires Reachable(ctx, s, true) && s.history != [] && s.pods == [CacheOf(ctx, Target(ctx))]
    requires CompletedAt(ctx, Latest(s), i)
    ensures OneMore(ctx, s, t, Latest(s).(activeClass := Some(ctx.order[i + 1].interceptorClass)))
  {
    t := Copied(ctx, s, true);
    t := RunToHandover(ctx, t, |s.items|, i, true);
    t := Stored(ctx, t, |s.items|, true);
  }

  lemma FoundExpired(ctx: Context, s: State) returns (t: State)
    requires ctx.order != []
    requires Reachable(ctx, s, true) && s.history != [] && s.pods == [CacheOf(ctx, Target(ctx))]
    requires var st := Latest(s);
      && !st.policy.Unspecified? && !st.completed && !NoActive(st.activeClass)
      && Deadline.TimedOut(ctx.spec.heartbeatDeadlineSeconds, st.heartbeatTime, s.clock)
    ensures OneMore(ctx, s, t, Latest(s).(completed := true))
  {
    t := Copied(ctx, s, true);
    t := RunToExpiry(ctx, t, |s.items|);
    t := Stored(ctx, t, |s.items|, true);
  }

  /** Selected after `st`, and cleared, in a run at time 0. */
  lemma SelectedAndCleared(ctx: Context, st: Status) returns (s: State)
    requires WellNamed(ctx.order) && |ctx.order| >= 2 && CompletedAt(ctx, st, 0)
    ensures Reachable(ctx, s, true) && s.pods == [CacheOf(ctx, Target(ctx))] && s.clock == 0
    ensures var second := st.(activeClass := Some(ctx.order[1].interceptorClass));
      s.history == [st, second, second.(completed := false)]
    ensures |s.authors| == 3 && s.authors[1].Controller? && s.authors[1].at == 0 && s.authors[2].InterceptorWrote?
  {
    s := Start(ctx, st);
    InitReachable(ctx, s, true);
    s := HandedOver(ctx, s, 0);
    s := Step(ctx, s, Update(Latest(s).(completed := false)), true);
  }

  /** ... then expired and left. */
  lemma FiveVersions(ctx: Context, st: Status) returns (s: State)
    requires WellNamed(ctx.order) && |ctx.order| >= 3 && CompletedAt(ctx, st, 0)
    requires Deadline.TimedOut(ctx.spec.heartbeatDeadlineSeconds, st.heartbeatTime, 0)
    ensures Reachable(ctx, s, true) && |s.authors| == 5
    ensures var second := st.(activeClass := Some(ctx.order[1].interceptorClass));
      s.history == [st, second, second.(completed := false), second,
        st.(activeClass := Some(ctx.order[2].interceptorClass))]
    ensures s.authors[2].InterceptorWrote?
    ensures s.authors[1].Controller? && s.authors[3].Controller? && s.authors[4].Controller?
    ensures s.authors[1].at == s.authors[3].at == s.authors[4].at == 0
  {
    var s3 := SelectedAndCleared(ctx, st);
    var s4 := FoundExpired(ctx, s3);
    s := HandedOver(ctx, s4, 1);
    assert s.authors[..3] == s4.authors[..3] == s3.authors;
  }

  /** With a deadline, the interceptor at rank 1 of any request with three or more is selected, clears the
      flag, is found expired by the heartbeat of its predecessor, and is left, all at the same time. */
  lemma PredecessorsHeartbeatExpires(ctx: Context) returns (s: State)
    requires WellFormed(ctx) && |ctx.order| >= 3 && ctx.spec.heartbeatDeadlineSeconds.Some?
    ensures Reachable(ctx, s, true) && |s.history| == |s.authors| == 5
    ensures Rank(ctx.order, s.history[0].activeClass) == 0
    ensures forall v :: 1 <= v <= 3 ==> Rank(ctx.order, s.history[v].activeClass) == 1
    ensures Rank(ctx.order, s.history[4].activeClass) == 2
    ensures ByController(s, 1) && Cleared(s, 2) && Expired(ctx, s, 3) && ByController(s, 4)
    ensures s.authors[1].at == s.authors[3].at == s.authors[4].at
    ensures forall v :: 0 <= v < 5 ==> s.history[v].heartbeatTime == s.history[0].heartbeatTime
    ensures !Engaged(s, 1, 4)
  {
    WellFormedIsWellNamed(ctx);
    var deadline := ctx.spec.heartbeatDeadlineSeconds;
    var stale := Some(-1 - deadline.value * 1_000_000_000);
    Deadline.TimeoutIsExact(deadline, stale, 0);
    s := FiveVersions(ctx, AtRank(ctx, 0).(heartbeatTime := stale));
    RankOfSelected(ctx.order, 0);
    RankOfSelected(ctx.order, 1);
    RankOfSelected(ctx.order, 2);
  }

  // ---- Failed writes, replaced pods and full counters ----

  /** One transient failure lets any request with three or more interceptors skip one in the stored history. */
  lemma TransientFailureSkips(ctx: Context) returns (s: State)
    requires WellFormed(ctx) && |ctx.order| >= 3
    ensures Reachable(ctx, s, false)
    ensures |s.history| == 2 && ByController(s, 1)
    ensures Skips(ctx.order, s.history[0], s.history[1], 1)
  {
    WellFormedIsWellNamed(ctx);
    s := Start(ctx, AtRank(ctx, 0));
    InitReachable(ctx, s, false);
    s := Copied(ctx, s, false);
    s := RunToHandover(ctx, s, 0, 0, false);
    s := RefusedAndRequeued(ctx, s, 0, Transient, false);
    s := RunToHandover(ctx, s, 0, 1, false);
    s := Stored(ctx, s, 0, false);
  }

  lemma ReplacedAndFound(ctx: Context, s: State, other: Pod) returns (t: State)
    requires Reachable(ctx, s, true) && s.history != [] && s.pods != []
    requires |s.items| == 1 && s.items[0].phase == Running(GetPodAgain)
    requires other.name == ctx.spec.podName && other.namespace == ctx.spec.namespace
    ensures Reachable(ctx, t, true) && t.history == s.history && t.pods != [] && t.evictions == s.evictions
    ensures |t.items| == 1 && t.items[0].phase == Running(Evict(other))
  {
    t := Step(ctx, s, Cache(CacheOf(ctx, other)), true);
    t := Step(ctx, t, Advance(0, false, Stale, true), true);
  }

  /** A pod replaced between the two lookups is evicted in place of the target, for any request. */
  lemma ReplacedPodIsEvicted(ctx: Context) returns (s: State)
    requires WellFormed(ctx)
    ensures Reachable(ctx, s, true)
    ensures |s.evictions| == 1 && s.evictions[0].pod.uid != ctx.spec.podUid
  {
    WellFormedIsWellNamed(ctx);
    var other := Target(ctx).(uid := ctx.spec.podUid + "x");
    assert |other.uid| != |ctx.spec.podUid|;
    s := Start(ctx, AllThrough(ctx));
    InitReachable(ctx, s, true);
    s := Copied(ctx, s, true);
    s := RunToPerform(ctx, s, 0, true);
    s := ReplacedAndFound(ctx, s, other);
    s := Evicted(ctx, s, 0, true, true);
  }

  /** The report of a failed eviction call by a copy of the stored version. */
  lemma FailureReported(ctx: Context, s: State, k: nat) returns (t: State)
    requires Reachable(ctx, s, true) && s.history != [] && s.pods != [] && |s.authors| == |s.history|
    requires k < |s.items| && s.items[k].phase == Running(Stamp(false)) && s.items[k].base == |s.history| - 1
    ensures Reachable(ctx, t, true) && ByController(t, |s.history|)
    ensures t.history == s.history + [Reported(s.items[k].status, false, s.clock)]
  {
    t := Step(ctx, s, Advance(k, false, Stale, false), true);
    t := Step(ctx, t, Advance(k, false, Accepted, false), true);
  }

  lemma FailureAtLimit(st: Status, now: int)
    requires st.failedCounter == Some(MAX_INT32)
    ensures CounterOf(Reported(st, false, now)) == -0x8000_0000
  {
  }

  /** A copy at its eviction call, of a request at the int32 limit whose interceptors are through. */
  lemma FullAtEviction(ctx: Context, st: Status) returns (s: State)
    requires WellNamed(ctx.order) && st == AllThrough(ctx).(failedCounter := Some(MAX_INT32))
    ensures Reachable(ctx, s, true) && s.history == [st] && |s.authors| == 1 && s.pods != [] && |s.items| == 1
    ensures s.items[0].phase == Running(Evict(Target(ctx))) && s.items[0].status == st && s.items[0].base == 0
  {
    s := Start(ctx, st);
    InitReachable(ctx, s, true);
    s := Copied(ctx, s, true);
    if ctx.order != [] {
      RankOfSelected(ctx.order, |ctx.order| - 1);
    }
    s := RunToEvict(ctx, s, 0, true);
  }

  /** At the int32 limit one more failed eviction call makes the stored counter negative, for any request. */
  lemma CounterWraps(ctx: Context) returns (s: State)
    requires WellFormed(ctx)
    ensures Reachable(ctx, s, true) && |s.history| == 2 && ByController(s, 1)
    ensures CounterOf(s.history[0]) == MAX_INT32 && CounterOf(s.history[1]) == -0x8000_0000
  {
    WellFormedIsWellNamed(ctx);
    var st := AllThrough(ctx).(failedCounter := Some(MAX_INT32));
    s := FullAtEviction(ctx, st);
    var clock := s.clock;
    s := Evicted(ctx, s, 0, false, true);
    s := FailureReported(ctx, s, 0);
    FailureAtLimit(st, clock);
  }
}
