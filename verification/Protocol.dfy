/** Safety of the controller over every run: any number of workers, stale and requeued copies, lost
    replies and transient failures. */
module Protocol {
  import opened Types
  import opened Reconcile
  import opened Cursor
  import opened System
  import opened Invariants
  import Conditions
  import Deadline

  /** Version `v` was stored by the controller. */
  predicate ByController(s: State, v: nat) {
    v < |s.authors| && s.authors[v].Controller?
  }

  lemma ControllerVersion(ctx: Context, s: State, staleOnly: bool, v: nat)
    requires WellFormed(ctx) && Reachable(ctx, s, staleOnly) && ByController(s, v)
    ensures WellNamed(ctx.order) && Inv(ctx, s)
    ensures |s.history| == |s.authors| && 0 < v < |s.history| && VersionOk(ctx, s, v)
  {
    ReachableInv(ctx, s, staleOnly);
    assert VersionOk(ctx, s, v);
  }

  lemma SameRankSameClass(ctx: Context, a: Option<string>, b: Option<string>)
    ensures 0 <= Rank(ctx.order, a) == Rank(ctx.order, b) < |ctx.order| ==> a == b
  {
  }

  /** A stored controller write keeps what others wrote on top of which it lands: heartbeat, expected
      finish, message, a chosen policy, and every condition but its own; the class only moves forward,
      `completed` only turns true, and the policy is never left empty. */
  lemma NoLostUpdates(ctx: Context, s: State, staleOnly: bool, v: nat)
    requires WellFormed(ctx) && Reachable(ctx, s, staleOnly) && ByController(s, v)
    ensures 0 < v < |s.history|
    ensures var before, after := s.history[v - 1], s.history[v];
      && after.heartbeatTime == before.heartbeatTime
      && after.expectedFinishTime == before.expectedFinishTime
      && after.message == before.message
      && after.policy == (if before.policy.Unspecified? then Allow else before.policy)
      && Conditions.OthersKept(before.conditions, after.conditions, Conditions.EVICTED)
      && (before.completed ==> after.completed)
      && (after.activeClass != before.activeClass ==>
            Rank(ctx.order, before.activeClass) < Rank(ctx.order, after.activeClass) < |ctx.order|)
  {
    ControllerVersion(ctx, s, staleOnly, v);
    var before, after, author := s.history[v - 1], s.history[v], s.authors[v];
    assert WriteOk(ctx, before, after, author.refused, author.failures, author.site, author.at);
    SameRankSameClass(ctx, s.history[v - 1].activeClass, s.history[v].activeClass);
  }

  /** A stored handover away from a selected interceptor only happens when the stored status says it has
      completed, or its stored heartbeat has expired by then. */
  lemma HandoverIsJustified(ctx: Context, s: State, staleOnly: bool, v: nat)
    requires WellFormed(ctx) && Reachable(ctx, s, staleOnly) && ByController(s, v)
    requires 0 < v < |s.history| && !NoActive(s.history[v - 1].activeClass)
    requires s.history[v].activeClass != s.history[v - 1].activeClass
    ensures s.history[v - 1].completed
      || Deadline.TimedOut(ctx.spec.heartbeatDeadlineSeconds, s.history[v - 1].heartbeatTime, s.authors[v].at)
    ensures s.history[v].completed
  {
    NoLostUpdates(ctx, s, staleOnly, v);
    ControllerVersion(ctx, s, staleOnly, v);
  }

  /** When a write turning `completed` from false to true is stored, the stored heartbeat exists and is
      older than the deadline at that very moment. */
  lemma TimeoutIsSound(ctx: Context, s: State, staleOnly: bool, v: nat)
    requires WellFormed(ctx) && Reachable(ctx, s, staleOnly) && ByController(s, v)
    requires 0 < v < |s.history| && !s.history[v - 1].completed && s.history[v].completed
    ensures var heartbeat, deadline := s.history[v - 1].heartbeatTime, ctx.spec.heartbeatDeadlineSeconds;
      && heartbeat.Some? && deadline.Some?
      && s.authors[v].at - heartbeat.value > deadline.value * 1_000_000_000
      && s.authors[v].at <= s.clock
  {
    ControllerVersion(ctx, s, staleOnly, v);
    Deadline.TimeoutIsExact(ctx.spec.heartbeatDeadlineSeconds, s.history[v - 1].heartbeatTime, s.authors[v].at);
  }

  lemma VersionKeepsRank(ctx: Context, s: State, v: nat)
    requires 0 < v < |s.history| == |s.authors| && VersionOk(ctx, s, v)
    ensures Rank(ctx.order, s.history[v - 1].activeClass) <= Rank(ctx.order, s.history[v].activeClass)
  {
  }

  lemma {:induction false} RanksOrdered(ctx: Context, s: State, v: nat, w: nat)
    requires VersionsInv(ctx, s) && v <= w < |s.history|
    ensures Rank(ctx.order, s.history[v].activeClass) <= Rank(ctx.order, s.history[w].activeClass)
    decreases w
  {
    if v < w {
      VersionKeepsRank(ctx, s, w);
      RanksOrdered(ctx, s, v, w - 1);
    }
  }

  /** The rank of the stored class never decreases. */
  lemma RankNeverDecreases(ctx: Context, s: State, staleOnly: bool, v: nat, w: nat)
    requires WellFormed(ctx) && Reachable(ctx, s, staleOnly)
    requires v <= w < |s.history|
    ensures Rank(ctx.order, s.history[v].activeClass) <= Rank(ctx.order, s.history[w].activeClass)
  {
    ReachableInv(ctx, s, staleOnly);
    RanksOrdered(ctx, s, v, w);
  }

  /** The listed interceptor at rank `j` lies strictly between two stored classes. */
  predicate Skips(order: seq<InterceptorValue>, before: Status, after: Status, j: nat) {
    j < |order| && Rank(order, before.activeClass) < j < Rank(order, after.activeClass)
  }

  lemma SkipsIffGap(order: seq<InterceptorValue>, before: Status, after: Status)
    requires after.activeClass == before.activeClass || Rank(order, after.activeClass) < |order|
    ensures (exists j :: Skips(order, before, after, j)) <==>
      Rank(order, after.activeClass) - Rank(order, before.activeClass) >= 2
  {
    var next := Rank(order, before.activeClass) + 1;
    assert Rank(order, after.activeClass) - Rank(order, before.activeClass) >= 2 ==> Skips(order, before, after, next);
  }

  /** A stored controller write moves the class by one rank if it is a handover, and by one more for every
      earlier handler write of the same copy that was reported as failed, less one if `completed` was
      turned true on the way: an interceptor is skipped if and only if these make two ranks or more. */
  lemma SkippedStepsAreFailedWrites(ctx: Context, s: State, staleOnly: bool, v: nat)
    requires WellFormed(ctx) && Reachable(ctx, s, staleOnly) && ByController(s, v)
    ensures 0 < v < |s.history|
    ensures var before, after, author := s.history[v - 1], s.history[v], s.authors[v];
      var attempted := author.refused + (if author.site.WriteHandler? then 1 else 0);
      var moved := attempted - (if after.completed && !before.completed then 1 else 0);
      && Rank(ctx.order, after.activeClass) == Rank(ctx.order, before.activeClass) + moved
      && ((exists j :: Skips(ctx.order, before, after, j)) <==> moved >= 2)
  {
    ControllerVersion(ctx, s, staleOnly, v);
    SkipsIffGap(ctx.order, s.history[v - 1], s.history[v]);
  }

  /** Every eviction call of a request with interceptors comes from a copy at the end of the list, whose
      completed flag was in its snapshot or came from an expired snapshot heartbeat. The copy got there by
      exactly as many failed handler writes as it is steps from its snapshot, so the snapshot itself was
      final if and only if no handler write of the copy had failed. */
  lemma EvictionIsJustified(ctx: Context, s: State, staleOnly: bool, i: nat)
    requires WellFormed(ctx) && Reachable(ctx, s, staleOnly)
    requires i < |s.evictions| && ctx.order != []
    ensures var e := s.evictions[i];
      && e.base < |s.history|
      && Final(ctx.order, e.status)
      && (s.history[e.base].completed
          || Deadline.TimedOut(ctx.spec.heartbeatDeadlineSeconds, s.history[e.base].heartbeatTime, e.at))
      && Progress(ctx.order, e.status) == Progress(ctx.order, s.history[e.base]) + e.refused
      && (Final(ctx.order, s.history[e.base]) <==> e.refused == 0)
  {
    ReachableInv(ctx, s, staleOnly);
    assert EvictionOk(ctx, s, s.evictions[i]);
  }

  /** An unlisted class is never moved away from, and never moved to. */
  lemma {:induction false} UnlistedStays(ctx: Context, s: State, v: nat, w: nat)
    requires VersionsInv(ctx, s) && v <= w < |s.history|
    requires Rank(ctx.order, s.history[w].activeClass) == |ctx.order|
    ensures s.history[v].activeClass == s.history[w].activeClass
    decreases w
  {
    if v < w {
      assert VersionOk(ctx, s, w);
      UnlistedStays(ctx, s, v, w - 1);
    }
  }

  /** The stored status at the moment of an eviction call is final if and only if the store has moved on
      from the snapshot by exactly as many steps as the copy has failed to store. So a copy of the stored
      version evicts a final request if and only if none of its handler writes had failed, and a copy
      without failed handler writes, however old, if and only if the stored flag is still up. */
  lemma EvictionAgainstStored(ctx: Context, s: State, staleOnly: bool, i: nat)
    requires WellFormed(ctx) && Reachable(ctx, s, staleOnly)
    requires i < |s.evictions| && ctx.order != []
    ensures var e := s.evictions[i];
      && e.base <= e.version < |s.history|
      && var base, stored := s.history[e.base], s.history[e.version];
         && (Final(ctx.order, stored) <==> Progress(ctx.order, stored) - Progress(ctx.order, base) == e.refused)
         && (e.base == e.version ==> (Final(ctx.order, stored) <==> e.refused == 0))
         && (e.refused == 0 ==> (Final(ctx.order, stored) <==> stored.completed))
  {
    EvictionIsJustified(ctx, s, staleOnly, i);
    var e := s.evictions[i];
    assert EvictionOk(ctx, s, e) && VersionsInv(ctx, s) by { ReachableInv(ctx, s, staleOnly); }
    RanksOrdered(ctx, s, e.base, e.version);
    if Rank(ctx.order, s.history[e.version].activeClass) == |ctx.order| {
      UnlistedStays(ctx, s, e.base, e.version);
    }
  }

  // ---- The pod ----

  /** The call names the target's namespace and name. The first lookup saw the spec's UID; the pod named is
      the right one, by UID, exactly when the second lookup saw it too, in particular when the cache did
      not change between. */
  lemma TargetIntegrity(ctx: Context, s: State, staleOnly: bool, i: nat)
    requires WellFormed(ctx) && Reachable(ctx, s, staleOnly) && i < |s.evictions|
    ensures var e, name := s.evictions[i], ctx.spec.podName;
      && e.call == Evicting(ctx.spec.namespace, name)
      && e.pod.namespace == ctx.spec.namespace && e.pod.name == name
      && e.seen < |s.pods| && e.seenAgain < |s.pods|
      && name in s.pods[e.seen] && name in s.pods[e.seenAgain]
      && s.pods[e.seen][name].uid == ctx.spec.podUid
      && (e.pod.uid == ctx.spec.podUid <==> s.pods[e.seenAgain][name].uid == s.pods[e.seen][name].uid)
      && (s.pods[e.seen] == s.pods[e.seenAgain] ==> e.pod.uid == ctx.spec.podUid)
  {
    ReachableInv(ctx, s, staleOnly);
    assert EvictionOk(ctx, s, s.evictions[i]);
    assert Indexed(ctx, s.pods[s.evictions[i].seenAgain]);
  }

  /** The next interaction is a status write or an eviction call. */
  predicate Acts(phase: Phase) {
    phase.Running? && (IsWrite(phase.pc) || phase.pc.Evict?)
  }

  /** A missing or mismatched pod causes neither a write nor an eviction: every copy at a status write or an
      eviction call, every version the controller stored and every eviction call comes after a first
      lookup, in the same attempt, that found the target with the spec's UID. */
  lemma MismatchDoesNothing(ctx: Context, s: State, staleOnly: bool)
    requires WellFormed(ctx) && Reachable(ctx, s, staleOnly)
    ensures forall k :: 0 <= k < |s.items| && Acts(s.items[k].phase) ==> Matches(ctx, s.pods, s.items[k].seen)
    ensures forall v :: 0 <= v < |s.history| && ByController(s, v) ==> Matches(ctx, s.pods, s.authors[v].seen)
    ensures forall i :: 0 <= i < |s.evictions| ==> Matches(ctx, s.pods, s.evictions[i].seen)
  {
    ReachableInv(ctx, s, staleOnly);
    forall k | 0 <= k < |s.items| ensures LookedInv(ctx, s.pods, s.items[k]) {
      assert ItemOk(ctx, s.history, s.pods, s.clock, s.items[k]);
    }
    forall v | 0 <= v < |s.history| && ByController(s, v) ensures Matches(ctx, s.pods, s.authors[v].seen) {
      assert VersionOk(ctx, s, v);
    }
    forall i | 0 <= i < |s.evictions| ensures Matches(ctx, s.pods, s.evictions[i].seen) {
      assert EvictionOk(ctx, s, s.evictions[i]);
    }
  }

  // ---- Writes of one copy ----

  /** A queued copy stores at most one version, right after the one it was copied from. */
  lemma OneWritePerCopy(ctx: Context, s: State, staleOnly: bool, v: nat, w: nat)
    requires WellFormed(ctx) && Reachable(ctx, s, staleOnly)
    requires ByController(s, v) && ByController(s, w) && s.authors[v].item == s.authors[w].item
    ensures s.authors[v].item < |s.items| && s.items[s.authors[v].item].base + 1 == v == w
  {
    ControllerVersion(ctx, s, staleOnly, v);
    ControllerVersion(ctx, s, staleOnly, w);
  }

  /** Once a copy's write is stored (its policy default, say), every later write of that copy, in this
      attempt or a retry, is refused. */
  lemma WonCopyIsRefused(ctx: Context, s: State, staleOnly: bool, k: nat, lookupFails: bool, fate: Fate, evicted: bool)
    requires WellFormed(ctx) && Reachable(ctx, s, staleOnly)
    requires k < |s.items| && s.items[k].won
    requires Enabled(ctx, s, Advance(k, lookupFails, fate, evicted)) && IsWrite(s.items[k].phase.pc)
    ensures fate.Stale? || fate.Transient?
    ensures ApplyAdvance(ctx, s, k, lookupFails, fate, evicted).history == s.history
  {
    ReachableInv(ctx, s, staleOnly);
    assert ItemOk(ctx, s.history, s.pods, s.clock, s.items[k]);
  }

  // ---- The failure counter ----

  /** What the controller's writes up to version `n` have added to the stored counter. */
  function ControllerRise(s: State, n: nat): int
    requires n <= |s.history| == |s.authors|
  {
    if n == 0 then 0
    else
      ControllerRise(s, n - 1)
      + if n > 1 && ByController(s, n - 1) then CounterOf(s.history[n - 1]) - CounterOf(s.history[n - 2]) else 0
  }

  /** No controller write takes the counter past the int32 limit. */
  ghost predicate NoOverflow(s: State)
    requires |s.history| == |s.authors|
  {
    forall v :: 1 <= v < |s.history| && ByController(s, v) ==>
      CounterOf(s.history[v - 1]) + s.authors[v].failures <= MAX_INT32
  }

  lemma WrapIsExact(c: int32, n: nat)
    ensures Wrap32(c + n) == c + n <==> c + n <= MAX_INT32
    ensures n <= MAX_INT32 ==> (Wrap32(c + n) >= c <==> c + n <= MAX_INT32)
  {
  }

  lemma ControllerWraps(ctx: Context, s: State, v: nat)
    requires 0 < v < |s.history| == |s.authors| && VersionOk(ctx, s, v) && ByController(s, v)
    ensures CounterOf(s.history[v]) == Wrap32(CounterOf(s.history[v - 1]) + s.authors[v].failures)
  {
  }

  /** Adding `failures` to a counter in int32 arithmetic, against adding them exactly. */
  ghost predicate ExactUnlessFull(before: int32, after: int32, failures: nat) {
    && (after == before + failures <==> before + failures <= MAX_INT32)
    && (failures <= MAX_INT32 ==> (after >= before <==> before + failures <= MAX_INT32))
  }

  lemma VersionRise(ctx: Context, s: State, v: nat)
    requires 0 < v < |s.history| == |s.authors| && VersionOk(ctx, s, v) && ByController(s, v)
    ensures ExactUnlessFull(CounterOf(s.history[v - 1]), CounterOf(s.history[v]), s.authors[v].failures)
  {
    ControllerWraps(ctx, s, v);
    WrapIsExact(CounterOf(s.history[v - 1]), s.authors[v].failures);
  }

  /** A controller write adds the failures of its copy exactly, if and only if the sum fits int32;
      beyond that the stored counter falls. */
  lemma CounterRiseIsExact(ctx: Context, s: State, staleOnly: bool, v: nat)
    requires WellFormed(ctx) && Reachable(ctx, s, staleOnly) && ByController(s, v)
    ensures 0 < v < |s.history|
    ensures ExactUnlessFull(CounterOf(s.history[v - 1]), CounterOf(s.history[v]), s.authors[v].failures)
  {
    ControllerVersion(ctx, s, staleOnly, v);
    VersionRise(ctx, s, v);
  }

  /** Failures of copies that have stored a version not above `n`. */
  function WonFailures(items: seq<Item>, n: nat): nat {
    if items == [] then 0
    else
      var last := items[|items| - 1];
      WonFailures(items[..|items| - 1], n) + if last.won && last.base + 1 < n then last.failures else 0
  }

  lemma {:induction false} WonFailuresBound(items: seq<Item>, n: nat)
    ensures WonFailures(items, n) <= Failures(items)
    ensures WonFailures(items, n) <= WonFailures(items, n + 1)
  {
    if items != [] {
      WonFailuresBound(items[..|items| - 1], n);
    }
  }

  lemma {:induction false} WonFailuresStep(items: seq<Item>, n: nat, k: nat)
    requires k < |items| && items[k].won && items[k].base + 1 == n
    ensures WonFailures(items, n) + items[k].failures <= WonFailures(items, n + 1)
  {
    var front := items[..|items| - 1];
    if k < |front| {
      WonFailuresStep(front, n, k);
    } else {
      WonFailuresBound(front, n);
    }
  }

  lemma ControllerCounts(ctx: Context, s: State, v: nat)
    requires 1 <= v < |s.history| == |s.authors| && VersionOk(ctx, s, v) && ByController(s, v)
    requires CounterOf(s.history[v - 1]) + s.authors[v].failures <= MAX_INT32
    ensures CounterOf(s.history[v]) == CounterOf(s.history[v - 1]) + s.authors[v].failures
    ensures s.authors[v].item < |s.items|
    ensures var it := s.items[s.authors[v].item]; it.won && it.base + 1 == v && s.authors[v].failures <= it.failures
  {
  }

  lemma {:induction false} RiseBound(ctx: Context, s: State, n: nat)
    requires Inv(ctx, s) && NoOverflow(s) && n <= |s.history|
    ensures 0 <= ControllerRise(s, n) <= WonFailures(s.items, n)
  {
    if n > 0 {
      RiseBound(ctx, s, n - 1);
      WonFailuresBound(s.items, n - 1);
      if n > 1 && ByController(s, n - 1) {
        assert VersionOk(ctx, s, n - 1);
        ControllerCounts(ctx, s, n - 1);
        WonFailuresStep(s.items, n - 1, s.authors[n - 1].item);
      }
    }
  }

  /** Below the limit the controller never lowers the counter, and its whole contribution is at most the
      number of eviction calls that failed: no failure is counted twice. */
  lemma NoFailureCountedTwice(ctx: Context, s: State, staleOnly: bool)
    requires WellFormed(ctx) && Reachable(ctx, s, staleOnly)
    requires |s.history| == |s.authors| && NoOverflow(s)
    ensures 0 <= ControllerRise(s, |s.history|) <= FailedCalls(s.evictions)
    ensures forall v :: 1 <= v < |s.history| && ByController(s, v) ==>
      CounterOf(s.history[v - 1]) <= CounterOf(s.history[v])
  {
    ReachableInv(ctx, s, staleOnly);
    RiseBound(ctx, s, |s.history|);
    WonFailuresBound(s.items, |s.history|);
    forall v | 1 <= v < |s.history| && ByController(s, v)
      ensures CounterOf(s.history[v - 1]) <= CounterOf(s.history[v])
    {
      assert VersionOk(ctx, s, v);
      ControllerCounts(ctx, s, v);
    }
  }

  // ---- Attempts are reconciles ----

  /** Replaying answers, all of them used, is running the reconcile under them. */
  lemma {:induction false} ReplayIsFinish(ctx: Context, oracle: Oracle, began: Status, inputs: seq<Input>)
    requires forall n :: 0 <= n < |inputs| ==> oracle(n) == inputs[n]
    requires |Replay(ctx, began, inputs).calls| == |inputs|
    ensures Finish(ctx, oracle, Run(Local(GetPod, began), [])) == Finish(ctx, oracle, Replay(ctx, began, inputs))
    decreases |inputs|
  {
    if inputs != [] {
      var front := inputs[..|inputs| - 1];
      var before := Replay(ctx, began, front);
      ReplayIsFinish(ctx, oracle, began, front);
      FinishStep(ctx, oracle, before);
    }
  }

  /** In every run, what a worker has done to a copy in one attempt is one reconcile of it: the same calls
      with the same contents, the same resulting status and the same verdict as the sequential program
      under the same answers. */
  lemma AttemptIsReconcile(ctx: Context, s: State, staleOnly: bool, k: nat, oracle: Oracle)
    requires WellFormed(ctx) && Reachable(ctx, s, staleOnly)
    requires k < |s.items| && s.items[k].phase.Running?
    requires forall n :: 0 <= n < |s.items[k].inputs| ==> oracle(n) == s.items[k].inputs[n]
    ensures var it := s.items[k];
      var begun, here := Run(Local(GetPod, it.began), []), Run(Local(it.phase.pc, it.status), it.calls);
      && |it.calls| == |it.inputs|
      && Finish(ctx, oracle, begun) == Finish(ctx, oracle, here)
      && (it.phase.pc.Done? ==> Finish(ctx, oracle, begun) == here)
  {
    ReachableInv(ctx, s, staleOnly);
    var it := s.items[k];
    assert ItemOk(ctx, s.history, s.pods, s.clock, it);
    ReplayIsFinish(ctx, oracle, it.began, it.inputs);
  }
}
