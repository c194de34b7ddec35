/** What every step of the system keeps, whatever the interleaving and whatever fails. */
module Invariants {
  import opened Types
  import opened Reconcile
  import opened Cursor
  import opened System
  import Conditions
  import Deadline

  // ---- One copy against the status it was copied from ----

  /** Fields of other writers are exactly those of the snapshot. */
  ghost predicate Kept(b: Status, st: Status) {
    && st.heartbeatTime == b.heartbeatTime
    && st.expectedFinishTime == b.expectedFinishTime
    && st.message == b.message
    && (st.policy == b.policy || (b.policy.Unspecified? && st.policy.Allow?))
    && Conditions.OthersKept(b.conditions, st.conditions, Conditions.EVICTED)
  }

  /** The class only moves forward, past a selected one only with `completed` set, and `completed` only
      turns true. */
  ghost predicate Forward(ctx: Context, b: Status, st: Status) {
    && Rank(ctx.order, b.activeClass) <= Rank(ctx.order, st.activeClass)
    && (st.activeClass == b.activeClass || 0 <= Rank(ctx.order, st.activeClass) < |ctx.order|)
    && (Rank(ctx.order, b.activeClass) < Rank(ctx.order, st.activeClass) && 0 < Rank(ctx.order, st.activeClass) ==>
          st.completed)
    && (b.completed ==> st.completed)
  }

  /** A completed flag that the snapshot lacks comes from an expired snapshot heartbeat. */
  ghost predicate TimedOutBy(ctx: Context, b: Status, st: Status, now: int) {
    st.completed && !b.completed ==>
      Deadline.TimedOut(ctx.spec.heartbeatDeadlineSeconds, b.heartbeatTime, now)
  }

  /** The counter is the snapshot's plus the counted failures, in int32 arithmetic. */
  ghost predicate Counted(b: Status, st: Status, failures: int) {
    && CounterOf(st) == Wrap32(CounterOf(b) + failures)
    && (failures == 0 ==> st.failedCounter == b.failedCounter)
  }

  /** A failed call is counted at the next interaction. */
  function Uncounted(phase: Phase): nat {
    if phase == Running(Stamp(false)) then 1 else 0
  }

  /** The handler's write that is prepared but not yet tried. */
  function Prepared(phase: Phase): nat {
    if phase == Running(WriteHandler) then 1 else 0
  }

  /** The sync has ended without an error. */
  predicate Finished(phase: Phase) {
    phase.Gone? || phase == Running(Done(false))
  }

  ghost predicate AtPc(ctx: Context, st: Status, pc: Pc) {
    && (!pc.GetPod? && !pc.Done? ==> !st.policy.Unspecified?)
    && (pc.ReadClock? ==> ctx.order != [] && !NoActive(st.activeClass) && !st.completed)
    && (pc.GetPodAgain? || pc.Evict? || pc.Stamp? || pc.WriteReport? ==>
          ctx.order != [] ==> Final(ctx.order, st))
  }

  ghost predicate ItemInv(ctx: Context, b: Status, clock: int, it: Item) {
    && Kept(b, it.status)
    && Forward(ctx, b, it.status)
    && TimedOutBy(ctx, b, it.status, clock)
    && it.failures >= Uncounted(it.phase)
    && Counted(b, it.status, it.failures - Uncounted(it.phase))
    && (!Finished(it.phase) ==>
          Progress(ctx.order, it.status) == Progress(ctx.order, b) + it.refused + Prepared(it.phase))
    && (it.phase.Running? ==> AtPc(ctx, it.status, it.phase.pc))
  }

  // ---- One interaction ----

  lemma DispatchForward(ctx: Context, st: Status)
    requires WellNamed(ctx.order)
    ensures var next := Dispatch(ctx, st);
      && Forward(ctx, st, next.status)
      && next.status == st.(activeClass := next.status.activeClass)
      && Progress(ctx.order, next.status) == Progress(ctx.order, st) + (if next.pc.WriteHandler? then 1 else 0)
      && (next.pc.WriteHandler? || next.pc.ReadClock? || next.pc.GetPodAgain? || next.pc == Done(false))
      && (!st.policy.Unspecified? ==> AtPc(ctx, next.status, next.pc))
  {
    if ctx.order != [] {
      if NoActive(st.activeClass) {
        RankOfSelected(ctx.order, 0);
      } else if st.completed {
        var i := Find(ctx.order, st.activeClass.value);
        if i >= 0 && i + 1 < |ctx.order| {
          RankOfSelected(ctx.order, i + 1);
        }
      }
    }
  }

  lemma ForwardTransitive(ctx: Context, a: Status, b: Status, c: Status)
    requires Forward(ctx, a, b) && Forward(ctx, b, c)
    ensures Forward(ctx, a, c)
  {
  }

  lemma WrapStep(c: int32, n: nat)
    ensures Wrap32(Wrap32(c + n) + 1) == Wrap32(c + n + 1)
    ensures Wrap32(c) == c
  {
    var wraps := (c + n + 0x8000_0000) / 0x1_0000_0000;
    assert Wrap32(c + n) == c + n - wraps * 0x1_0000_0000;
  }

  lemma ReportedKeeps(st: Status, evicted: bool, now: int)
    ensures var r := Reported(st, evicted, now);
      && Kept(st, r)
      && !r.policy.Unspecified?
      && r.activeClass == st.activeClass && r.completed == st.completed
      && (if evicted then r.failedCounter == st.failedCounter else CounterOf(r) == Wrap32(CounterOf(st) + 1))
  {
  }

  lemma KeptTransitive(a: Status, b: Status, c: Status)
    requires Kept(a, b) && Kept(b, c)
    ensures Kept(a, c)
  {
  }

  /** Starting the next reconcile of a copy, after its first lookup or its policy write. */
  lemma DispatchKeeps(ctx: Context, b: Status, clock: int, it: Item, after: Item)
    requires WellNamed(ctx.order)
    requires ItemInv(ctx, b, clock, it) && !Finished(it.phase) && Uncounted(it.phase) == 0 && Prepared(it.phase) == 0
    requires !it.status.policy.Unspecified?
    requires after.status == Dispatch(ctx, it.status).status && after.phase == Running(Dispatch(ctx, it.status).pc)
    requires after.refused == it.refused && after.failures == it.failures
    ensures ItemInv(ctx, b, clock, after)
  {
    DispatchForward(ctx, it.status);
    ForwardTransitive(ctx, b, it.status, after.status);
  }

  /** A copy whose status moves at most from no policy to `Allow`, between points with nothing pending. */
  lemma SettledKeeps(ctx: Context, b: Status, clock: int, it: Item, after: Item)
    requires ItemInv(ctx, b, clock, it) && !Finished(it.phase) && Uncounted(it.phase) == 0 && Prepared(it.phase) == 0
    requires Uncounted(after.phase) == 0 && Prepared(after.phase) == 0
    requires after.status == it.status || (it.status.policy.Unspecified? && after.status == it.status.(policy := Allow))
    requires after.refused == it.refused && after.failures == it.failures
    requires after.phase.Running? ==> AtPc(ctx, after.status, after.phase.pc)
    ensures ItemInv(ctx, b, clock, after)
  {
  }

  lemma FirstLookupKeeps(ctx: Context, b: Status, clock: int, it: Item, input: Input, fate: Fate, revision: nat)
    requires WellNamed(ctx.order)
    requires ItemInv(ctx, b, clock, it)
    requires it.phase.Running? && it.phase.pc.GetPod?
    ensures ItemInv(ctx, b, clock, AdvanceItem(ctx, it, input, fate, revision))
  {
    var after := AdvanceItem(ctx, it, input, fate, revision);
    var next := AfterFirstLookup(ctx, it.status, input.lookup);
    assert after.status == next.status && after.phase == Running(next.pc);
    assert after.refused == it.refused && after.failures == it.failures;
    if next.pc.Done? || next.pc.WritePolicy? {
      SettledKeeps(ctx, b, clock, it, after);
    } else {
      assert next == Dispatch(ctx, it.status) by { DispatchForward(ctx, it.status); }
      assert !it.status.policy.Unspecified?;
      DispatchKeeps(ctx, b, clock, it, after);
    }
  }

  lemma PolicyKeeps(ctx: Context, b: Status, clock: int, it: Item, input: Input, fate: Fate, revision: nat)
    requires WellNamed(ctx.order)
    requires ItemInv(ctx, b, clock, it)
    requires it.phase.Running? && it.phase.pc.WritePolicy?
    requires input.now == clock && input.written == Succeeds(fate)
    ensures ItemInv(ctx, b, clock, AdvanceItem(ctx, it, input, fate, revision))
  {
    var after := AdvanceItem(ctx, it, input, fate, revision);
    if input.written {
      DispatchKeeps(ctx, b, clock, it, after);
    }
  }

  lemma ClockKeeps(ctx: Context, b: Status, clock: int, it: Item, input: Input, fate: Fate, revision: nat)
    requires WellNamed(ctx.order)
    requires ItemInv(ctx, b, clock, it)
    requires it.phase.Running? && it.phase.pc.ReadClock?
    requires input.now == clock && input.written == Succeeds(fate)
    ensures ItemInv(ctx, b, clock, AdvanceItem(ctx, it, input, fate, revision))
  {
  }

  lemma ReportKept(b: Status, st: Status, evicted: bool, now: int)
    requires Kept(b, st)
    ensures Kept(b, Reported(st, evicted, now))
  {
    ReportedKeeps(st, evicted, now);
    KeptTransitive(b, st, Reported(st, evicted, now));
  }

  lemma ReportCounted(b: Status, st: Status, evicted: bool, now: int, failures: nat)
    requires Counted(b, st, failures)
    ensures Counted(b, Reported(st, evicted, now), if evicted then failures else failures + 1)
  {
    ReportedKeeps(st, evicted, now);
    WrapStep(CounterOf(b), failures);
  }

  /** A copy with its report prepared. */
  lemma ReportedItem(ctx: Context, b: Status, clock: int, it: Item, after: Item, evicted: bool)
    requires ItemInv(ctx, b, clock, it) && it.phase == Running(Stamp(evicted))
    requires after.status.activeClass == it.status.activeClass && after.status.completed == it.status.completed
    requires !after.status.policy.Unspecified? && Kept(b, after.status)
    requires after.phase == Running(WriteReport(evicted)) && after.refused == it.refused
    requires after.failures == it.failures && Counted(b, after.status, it.failures)
    ensures ItemInv(ctx, b, clock, after)
  {
  }

  lemma StampKeeps(ctx: Context, b: Status, clock: int, it: Item, input: Input, fate: Fate, revision: nat)
    requires ItemInv(ctx, b, clock, it)
    requires it.phase.Running? && it.phase.pc.Stamp?
    ensures ItemInv(ctx, b, clock, AdvanceItem(ctx, it, input, fate, revision))
  {
    var evicted := it.phase.pc.evicted;
    ReportKept(b, it.status, evicted, input.now);
    ReportCounted(b, it.status, evicted, input.now, it.failures - Uncounted(it.phase));
    ReportedKeeps(it.status, evicted, input.now);
    ReportedItem(ctx, b, clock, it, AdvanceItem(ctx, it, input, fate, revision), evicted);
  }

  lemma HandlerWriteKeeps(ctx: Context, b: Status, clock: int, it: Item, input: Input, fate: Fate, revision: nat)
    requires ItemInv(ctx, b, clock, it)
    requires it.phase.Running? && it.phase.pc.WriteHandler?
    requires input.written == Succeeds(fate)
    ensures ItemInv(ctx, b, clock, AdvanceItem(ctx, it, input, fate, revision))
  {
  }

  lemma EvictKeeps(ctx: Context, b: Status, clock: int, it: Item, input: Input, fate: Fate, revision: nat)
    requires ItemInv(ctx, b, clock, it)
    requires it.phase.Running? && it.phase.pc.Evict?
    requires input.written == Succeeds(fate)
    ensures ItemInv(ctx, b, clock, AdvanceItem(ctx, it, input, fate, revision))
  {
  }

  lemma QuietKeeps(ctx: Context, b: Status, clock: int, it: Item, input: Input, fate: Fate, revision: nat)
    requires ItemInv(ctx, b, clock, it)
    requires it.phase.Running? && (it.phase.pc.GetPodAgain? || it.phase.pc.WriteReport?)
    requires input.written == Succeeds(fate)
    ensures ItemInv(ctx, b, clock, AdvanceItem(ctx, it, input, fate, revision))
  {
    SettledKeeps(ctx, b, clock, it, AdvanceItem(ctx, it, input, fate, revision));
  }

  /** Every interaction keeps the invariant of its copy, whatever is answered. */
  lemma AdvanceKeeps(ctx: Context, b: Status, clock: int, it: Item, input: Input, fate: Fate, revision: nat)
    requires WellNamed(ctx.order)
    requires ItemInv(ctx, b, clock, it)
    requires it.phase.Running? && !it.phase.pc.Done?
    requires input.now == clock && input.written == Succeeds(fate)
    ensures ItemInv(ctx, b, clock, AdvanceItem(ctx, it, input, fate, revision))
  {
    match it.phase.pc {
      case GetPod => FirstLookupKeeps(ctx, b, clock, it, input, fate, revision);
      case WritePolicy => PolicyKeeps(ctx, b, clock, it, input, fate, revision);
      case ReadClock => ClockKeeps(ctx, b, clock, it, input, fate, revision);
      case Stamp(_) => StampKeeps(ctx, b, clock, it, input, fate, revision);
      case WriteHandler => HandlerWriteKeeps(ctx, b, clock, it, input, fate, revision);
      case GetPodAgain => QuietKeeps(ctx, b, clock, it, input, fate, revision);
      case Evict(_) => EvictKeeps(ctx, b, clock, it, input, fate, revision);
      case WriteReport(_) => QuietKeeps(ctx, b, clock, it, input, fate, revision);
    }
  }

  // ---- The pod a copy looked at ----

  /** Revision `r` of the cache holds, under the target's name, a pod with the spec's UID. */
  predicate Matches(ctx: Context, pods: seq<map<string, Pod>>, r: nat) {
    r < |pods| && ctx.spec.podName in pods[r] && pods[r][ctx.spec.podName].uid == ctx.spec.podUid
  }

  ghost predicate LookedInv(ctx: Context, pods: seq<map<string, Pod>>, it: Item) {
    it.phase.Running? ==>
      && (!it.phase.pc.GetPod? && !it.phase.pc.Done? ==> Matches(ctx, pods, it.seen))
      && (it.phase.pc.Evict? ==>
            && it.seenAgain < |pods|
            && ctx.spec.podName in pods[it.seenAgain]
            && it.phase.pc.pod == pods[it.seenAgain][ctx.spec.podName])
  }

  lemma AdvanceLooks(ctx: Context, s: State, it: Item, lookupFails: bool, fate: Fate, evicted: bool)
    requires s.pods != []
    requires LookedInv(ctx, s.pods, it) && it.phase.Running? && !it.phase.pc.Done?
    ensures LookedInv(ctx, s.pods,
      AdvanceItem(ctx, it, InputOf(ctx, s, lookupFails, fate, evicted), fate, |s.pods| - 1))
  {
  }

  // ---- The attempt in progress ----

  /** A reconcile of `began` after the given answers; answers past its end are not used. */
  function Replay(ctx: Context, began: Status, inputs: seq<Input>): (run: Run)
    ensures |run.calls| <= |inputs|
  {
    if inputs == [] then Run(Local(GetPod, began), [])
    else
      var before := Replay(ctx, began, inputs[..|inputs| - 1]);
      if before.local.pc.Done? then before
      else Run(Next(ctx, before.local, inputs[|inputs| - 1]), before.calls + [CallOf(ctx, before.local)])
  }

  /** An item in the hands of a worker is one reconcile of the copy it began with, with the same calls. */
  ghost predicate ReplayInv(ctx: Context, it: Item) {
    it.phase.Running? ==>
      && Run(Local(it.phase.pc, it.status), it.calls) == Replay(ctx, it.began, it.inputs)
      && |it.calls| == |it.inputs|
  }

  lemma AdvanceReplays(ctx: Context, it: Item, input: Input, fate: Fate, revision: nat)
    requires it.phase.Running? && !it.phase.pc.Done? && ReplayInv(ctx, it)
    ensures ReplayInv(ctx, AdvanceItem(ctx, it, input, fate, revision))
  {
  }

  // ---- The whole state ----

  ghost predicate ItemOk(ctx: Context, history: seq<Status>, pods: seq<map<string, Pod>>, clock: int, it: Item) {
    && it.base < |history|
    && ItemInv(ctx, history[it.base], clock, it)
    && (it.won ==> it.base < |history| - 1)
    && LookedInv(ctx, pods, it)
    && ReplayInv(ctx, it)
  }

  /** What a controller write may do to the stored status. */
  ghost predicate WriteOk(ctx: Context, before: Status, after: Status, refused: nat, failures: nat, site: Pc, at: int) {
    && Kept(before, after)
    && !after.policy.Unspecified?
    && Forward(ctx, before, after)
    && TimedOutBy(ctx, before, after, at)
    && Counted(before, after, failures)
    && Progress(ctx.order, after) == Progress(ctx.order, before) + refused + if site.WriteHandler? then 1 else 0
  }

  ghost predicate VersionOk(ctx: Context, s: State, v: nat)
    requires v < |s.history| == |s.authors|
  {
    match s.authors[v]
    case Creator => v == 0
    case InterceptorWrote => v > 0 && s.history[v].activeClass == s.history[v - 1].activeClass
    case Controller(k, site, _, refused, failures, seen, at) =>
      && v > 0 && at <= s.clock
      && Matches(ctx, s.pods, seen)
      && k < |s.items| && s.items[k].won && s.items[k].base == v - 1 && failures <= s.items[k].failures
      && WriteOk(ctx, s.history[v - 1], s.history[v], refused, failures, site, at)
  }

  ghost predicate EvictionOk(ctx: Context, s: State, e: EvictionCall) {
    && e.base <= e.version < |s.history|
    && e.at <= s.clock
    && (ctx.order != [] ==>
          && Final(ctx.order, e.status)
          && Forward(ctx, s.history[e.base], e.status)
          && TimedOutBy(ctx, s.history[e.base], e.status, e.at)
          && Progress(ctx.order, e.status) == Progress(ctx.order, s.history[e.base]) + e.refused)
    && Matches(ctx, s.pods, e.seen)
    && e.seenAgain < |s.pods|
    && ctx.spec.podName in s.pods[e.seenAgain]
    && e.pod == s.pods[e.seenAgain][ctx.spec.podName]
    && e.call == Evicting(e.pod.namespace, e.pod.name)
  }

  function FailedCalls(evictions: seq<EvictionCall>): nat {
    if evictions == [] then 0
    else FailedCalls(evictions[..|evictions| - 1]) + if evictions[|evictions| - 1].succeeded then 0 else 1
  }

  function Failures(items: seq<Item>): nat {
    if items == [] then 0 else Failures(items[..|items| - 1]) + items[|items| - 1].failures
  }

  ghost predicate CacheInv(ctx: Context, s: State) {
    s.pods != [] && forall r :: 0 <= r < |s.pods| ==> Indexed(ctx, s.pods[r])
  }

  ghost predicate ItemsInv(ctx: Context, s: State) {
    forall k :: 0 <= k < |s.items| ==> ItemOk(ctx, s.history, s.pods, s.clock, s.items[k])
  }

  ghost predicate VersionsInv(ctx: Context, s: State) {
    |s.history| == |s.authors| && forall v :: 0 <= v < |s.history| ==> VersionOk(ctx, s, v)
  }

  ghost predicate EvictionsInv(ctx: Context, s: State) {
    forall i :: 0 <= i < |s.evictions| ==> EvictionOk(ctx, s, s.evictions[i])
  }

  ghost predicate Inv(ctx: Context, s: State) {
    && s.history != []
    && CacheInv(ctx, s)
    && ItemsInv(ctx, s)
    && VersionsInv(ctx, s)
    && EvictionsInv(ctx, s)
    && FailedCalls(s.evictions) == Failures(s.items)
  }

  lemma {:induction false} FailuresUpdate(items: seq<Item>, k: nat, it: Item)
    requires k < |items|
    ensures Failures(items[k := it]) == Failures(items) - items[k].failures + it.failures
  {
    var n := |items| - 1;
    if k < n {
      FailuresUpdate(items[..n], k, it);
      assert items[k := it][..n] == items[..n][k := it];
    } else {
      assert items[k := it][..n] == items[..n];
    }
  }

  /** Growing the logs and replacing items by later states of theirs keeps what was written. */
  ghost predicate Grows(s: State, t: State) {
    && s.history <= t.history && s.authors <= t.authors && s.pods <= t.pods && s.clock <= t.clock
    && |s.items| <= |t.items|
    && forall k :: 0 <= k < |s.items| ==>
         && t.items[k].base == s.items[k].base
         && (s.items[k].won ==> t.items[k].won)
         && s.items[k].failures <= t.items[k].failures
  }

  lemma VersionGrows(ctx: Context, s: State, t: State, v: nat)
    requires v < |s.history| == |s.authors| && |t.history| == |t.authors|
    requires VersionOk(ctx, s, v) && Grows(s, t)
    ensures VersionOk(ctx, t, v)
  {
  }

  lemma VersionsGrow(ctx: Context, s: State, t: State)
    requires VersionsInv(ctx, s) && Grows(s, t) && |t.history| == |t.authors|
    ensures forall v :: 0 <= v < |s.history| ==> VersionOk(ctx, t, v)
  {
    forall v | 0 <= v < |s.history| ensures VersionOk(ctx, t, v) {
      VersionGrows(ctx, s, t, v);
    }
  }

  lemma EvictionGrows(ctx: Context, s: State, t: State, e: EvictionCall)
    requires EvictionOk(ctx, s, e) && Grows(s, t)
    ensures EvictionOk(ctx, t, e)
  {
  }

  lemma EvictionsGrow(ctx: Context, s: State, t: State)
    requires EvictionsInv(ctx, s) && Grows(s, t)
    ensures forall i :: 0 <= i < |s.evictions| ==> EvictionOk(ctx, t, s.evictions[i])
  {
  }

  lemma ItemsGrow(ctx: Context, s: State, t: State)
    requires ItemsInv(ctx, s) && Grows(s, t)
    ensures forall k :: 0 <= k < |s.items| ==> ItemOk(ctx, t.history, t.pods, t.clock, s.items[k])
  {
  }

  /** Rewriting one item. */
  lemma ItemsReplaced(ctx: Context, s: State, t: State, k: nat)
    requires ItemsInv(ctx, s) && Grows(s, t) && k < |s.items|
    requires t.items == s.items[k := t.items[k]]
    requires ItemOk(ctx, t.history, t.pods, t.clock, t.items[k])
    ensures ItemsInv(ctx, t)
  {
    ItemsGrow(ctx, s, t);
  }

  // ---- A worker's interaction ----

  /** The stepping copy, against its snapshot. */
  lemma SteppedItem(ctx: Context, s: State, it: Item, lookupFails: bool, fate: Fate, evicted: bool)
    requires WellNamed(ctx.order) && s.pods != []
    requires ItemOk(ctx, s.history, s.pods, s.clock, it) && it.phase.Running? && !it.phase.pc.Done?
    ensures var after := AdvanceItem(ctx, it, InputOf(ctx, s, lookupFails, fate, evicted), fate, |s.pods| - 1);
      && ItemInv(ctx, s.history[it.base], s.clock, after)
      && LookedInv(ctx, s.pods, after)
      && ReplayInv(ctx, after)
  {
    var input := InputOf(ctx, s, lookupFails, fate, evicted);
    AdvanceKeeps(ctx, s.history[it.base], s.clock, it, input, fate, |s.pods| - 1);
    AdvanceLooks(ctx, s, it, lookupFails, fate, evicted);
    AdvanceReplays(ctx, it, input, fate, |s.pods| - 1);
  }

  /** ... and against the state after its step. */
  lemma SteppedItemOk(ctx: Context, s: State, t: State, k: nat, lookupFails: bool, fate: Fate, evicted: bool)
    requires WellNamed(ctx.order) && ItemsInv(ctx, s)
    requires Enabled(ctx, s, Advance(k, lookupFails, fate, evicted))
    requires t == ApplyAdvance(ctx, s, k, lookupFails, fate, evicted)
    ensures ItemOk(ctx, t.history, t.pods, t.clock, t.items[k])
  {
    var it := s.items[k];
    assert ItemOk(ctx, s.history, s.pods, s.clock, it);
    SteppedItem(ctx, s, it, lookupFails, fate, evicted);
    assert t.history[it.base] == s.history[it.base];
  }

  /** What a copy at a write would write. */
  lemma CopyWriteOk(ctx: Context, b: Status, clock: int, it: Item)
    requires ItemInv(ctx, b, clock, it)
    requires it.phase.Running? && IsWrite(it.phase.pc)
    ensures WriteOk(ctx, b, it.status, it.refused, it.failures, it.phase.pc, clock)
  {
  }

  /** The version a won write has stored. */
  lemma StoredVersionOk(ctx: Context, t: State, k: nat, b: Status, it: Item)
    requires |t.history| == |t.authors| == it.base + 2 && k < |t.items|
    requires t.history[it.base] == b && t.history[it.base + 1] == it.status
    requires it.phase.Running? && Matches(ctx, t.pods, it.seen)
    requires WriteOk(ctx, b, it.status, it.refused, it.failures, it.phase.pc, t.clock)
    requires t.authors[it.base + 1] == AuthorOf(it, k, t.clock)
    requires t.items[k].won && t.items[k].base == it.base && t.items[k].failures >= it.failures
    ensures VersionOk(ctx, t, it.base + 1)
  {
  }

  /** A stored write is the copy's, on top of the version it was copied from. */
  lemma AdvanceVersions(ctx: Context, s: State, t: State, k: nat, lookupFails: bool, fate: Fate, evicted: bool)
    requires ItemsInv(ctx, s) && VersionsInv(ctx, s)
    requires Enabled(ctx, s, Advance(k, lookupFails, fate, evicted))
    requires t == ApplyAdvance(ctx, s, k, lookupFails, fate, evicted)
    ensures VersionsInv(ctx, t)
  {
    var it := s.items[k];
    VersionsGrow(ctx, s, t);
    if IsWrite(it.phase.pc) && Stores(fate) {
      var v := |s.history|;
      assert ItemOk(ctx, s.history, s.pods, s.clock, it);
      CopyWriteOk(ctx, s.history[it.base], s.clock, it);
      StoredVersionOk(ctx, t, k, s.history[it.base], it);
    }
  }

  lemma CopyEvictionOk(ctx: Context, s: State, k: nat, succeeded: bool)
    requires k < |s.items| && ItemOk(ctx, s.history, s.pods, s.clock, s.items[k])
    requires s.items[k].phase.Running? && s.items[k].phase.pc.Evict?
    ensures EvictionOk(ctx, s, EvictionOf(ctx, s.items[k], k, succeeded, |s.history| - 1, s.clock))
  {
  }

  lemma AdvanceEvictions(ctx: Context, s: State, t: State, k: nat, lookupFails: bool, fate: Fate, evicted: bool)
    requires ItemsInv(ctx, s) && EvictionsInv(ctx, s)
    requires Enabled(ctx, s, Advance(k, lookupFails, fate, evicted))
    requires t == ApplyAdvance(ctx, s, k, lookupFails, fate, evicted)
    ensures EvictionsInv(ctx, t)
  {
    EvictionsGrow(ctx, s, t);
    if s.items[k].phase.pc.Evict? {
      CopyEvictionOk(ctx, s, k, evicted);
      EvictionGrows(ctx, s, t, t.evictions[|s.evictions|]);
    }
  }

  /** What one interaction does to the counts of failures. */
  lemma AdvanceCounts(ctx: Context, s: State, t: State, k: nat, lookupFails: bool, fate: Fate, evicted: bool)
    requires Enabled(ctx, s, Advance(k, lookupFails, fate, evicted))
    requires t == ApplyAdvance(ctx, s, k, lookupFails, fate, evicted)
    ensures var call := s.items[k].phase.pc.Evict?;
      && t.items == s.items[k := t.items[k]]
      && t.items[k].failures == s.items[k].failures + (if call && !evicted then 1 else 0)
      && |t.evictions| == |s.evictions| + (if call then 1 else 0)
      && t.evictions[..|s.evictions|] == s.evictions
      && (call ==> t.evictions[|s.evictions|].succeeded == evicted)
  {
  }

  lemma AdvanceFailures(ctx: Context, s: State, t: State, k: nat, lookupFails: bool, fate: Fate, evicted: bool)
    requires FailedCalls(s.evictions) == Failures(s.items)
    requires Enabled(ctx, s, Advance(k, lookupFails, fate, evicted))
    requires t == ApplyAdvance(ctx, s, k, lookupFails, fate, evicted)
    ensures FailedCalls(t.evictions) == Failures(t.items)
  {
    AdvanceCounts(ctx, s, t, k, lookupFails, fate, evicted);
    FailuresUpdate(s.items, k, t.items[k]);
    if |t.evictions| == |s.evictions| {
      assert t.evictions == s.evictions;
    }
  }

  lemma AdvanceItems(ctx: Context, s: State, t: State, k: nat, lookupFails: bool, fate: Fate, evicted: bool)
    requires WellNamed(ctx.order) && ItemsInv(ctx, s)
    requires Enabled(ctx, s, Advance(k, lookupFails, fate, evicted))
    requires t == ApplyAdvance(ctx, s, k, lookupFails, fate, evicted)
    ensures ItemsInv(ctx, t)
  {
    SteppedItemOk(ctx, s, t, k, lookupFails, fate, evicted);
    ItemsReplaced(ctx, s, t, k);
  }

  lemma AdvanceInv(ctx: Context, s: State, t: State, k: nat, lookupFails: bool, fate: Fate, evicted: bool)
    requires WellNamed(ctx.order) && Inv(ctx, s)
    requires Enabled(ctx, s, Advance(k, lookupFails, fate, evicted))
    requires t == ApplyAdvance(ctx, s, k, lookupFails, fate, evicted)
    ensures Inv(ctx, t)
  {
    AdvanceItems(ctx, s, t, k, lookupFails, fate, evicted);
    AdvanceVersions(ctx, s, t, k, lookupFails, fate, evicted);
    AdvanceEvictions(ctx, s, t, k, lookupFails, fate, evicted);
    AdvanceFailures(ctx, s, t, k, lookupFails, fate, evicted);
  }

  // ---- The other steps ----

  lemma EnqueueItems(ctx: Context, s: State, v: nat)
    requires ItemsInv(ctx, s) && v < |s.history|
    ensures ItemsInv(ctx, s.(items := s.items + [Copy(s.history[v], v)]))
  {
  }

  lemma BeginItems(ctx: Context, s: State, k: nat)
    requires ItemsInv(ctx, s) && k < |s.items| && s.items[k].phase.Queued?
    ensures ItemsInv(ctx, s.(items := s.items[k := BeginItem(s.items[k])]))
  {
  }

  lemma EndItems(ctx: Context, s: State, k: nat)
    requires ItemsInv(ctx, s) && k < |s.items| && s.items[k].phase.Running? && s.items[k].phase.pc.Done?
    ensures ItemsInv(ctx, s.(items := s.items[k := EndItem(s.items[k])]))
  {
  }

  /** Steps that store nothing and evict nothing keep the logs. */
  lemma LogsGrow(ctx: Context, s: State, t: State)
    requires VersionsInv(ctx, s) && EvictionsInv(ctx, s) && Grows(s, t)
    requires t.evictions == s.evictions && |t.history| == |t.authors|
    ensures EvictionsInv(ctx, t)
    ensures t.history == s.history ==> VersionsInv(ctx, t)
    ensures |t.history| == |s.history| + 1 && VersionOk(ctx, t, |s.history|) ==> VersionsInv(ctx, t)
  {
    VersionsGrow(ctx, s, t);
    EvictionsGrow(ctx, s, t);
  }

  lemma EnqueueInv(ctx: Context, s: State, l: Label)
    requires Inv(ctx, s) && Enabled(ctx, s, l) && l.Enqueue?
    ensures Inv(ctx, Apply(ctx, s, l))
  {
    var t := Apply(ctx, s, l);
    LogsGrow(ctx, s, t);
    EnqueueItems(ctx, s, l.version);
    assert t.items[..|s.items|] == s.items;
  }

  lemma BeginInv(ctx: Context, s: State, l: Label)
    requires Inv(ctx, s) && Enabled(ctx, s, l) && l.Begin?
    ensures Inv(ctx, Apply(ctx, s, l))
  {
    var t := Apply(ctx, s, l);
    LogsGrow(ctx, s, t);
    BeginItems(ctx, s, l.item);
    FailuresUpdate(s.items, l.item, t.items[l.item]);
  }

  lemma EndInv(ctx: Context, s: State, l: Label)
    requires Inv(ctx, s) && Enabled(ctx, s, l) && l.End?
    ensures Inv(ctx, Apply(ctx, s, l))
  {
    var t := Apply(ctx, s, l);
    LogsGrow(ctx, s, t);
    EndItems(ctx, s, l.item);
    FailuresUpdate(s.items, l.item, t.items[l.item]);
  }

  lemma UpdateInv(ctx: Context, s: State, l: Label)
    requires Inv(ctx, s) && Enabled(ctx, s, l) && l.Update?
    ensures Inv(ctx, Apply(ctx, s, l))
  {
    var t := Apply(ctx, s, l);
    LogsGrow(ctx, s, t);
    ItemsGrow(ctx, s, t);
    assert VersionOk(ctx, t, |s.history|);
  }

  lemma TickInv(ctx: Context, s: State, l: Label)
    requires Inv(ctx, s) && Enabled(ctx, s, l) && l.Tick?
    ensures Inv(ctx, Apply(ctx, s, l))
  {
    var t := Apply(ctx, s, l);
    LogsGrow(ctx, s, t);
    ItemsGrow(ctx, s, t);
  }

  lemma CacheStepInv(ctx: Context, s: State, l: Label)
    requires Inv(ctx, s) && Enabled(ctx, s, l) && l.Cache?
    ensures Inv(ctx, Apply(ctx, s, l))
  {
    var t := Apply(ctx, s, l);
    LogsGrow(ctx, s, t);
    ItemsGrow(ctx, s, t);
  }

  lemma StepInv(ctx: Context, s: State, l: Label)
    requires WellNamed(ctx.order) && Inv(ctx, s) && Enabled(ctx, s, l)
    ensures Inv(ctx, Apply(ctx, s, l))
  {
    match l {
      case Advance(k, lookupFails, fate, evicted) =>
        AdvanceInv(ctx, s, Apply(ctx, s, l), k, lookupFails, fate, evicted);
      case Enqueue(_) => EnqueueInv(ctx, s, l);
      case Begin(_) => BeginInv(ctx, s, l);
      case End(_) => EndInv(ctx, s, l);
      case Update(_) => UpdateInv(ctx, s, l);
      case Tick(_) => TickInv(ctx, s, l);
      case Cache(_) => CacheStepInv(ctx, s, l);
    }
  }

  lemma {:induction false} RunInv(ctx: Context, s: State, labels: seq<Label>)
    requires WellNamed(ctx.order) && Inv(ctx, s) && Legal(ctx, s, labels)
    ensures Inv(ctx, Execute(ctx, s, labels))
    decreases |labels|
  {
    if labels != [] {
      StepInv(ctx, s, labels[0]);
      RunInv(ctx, Apply(ctx, s, labels[0]), labels[1..]);
    }
  }

  /** The invariant holds at the end of every run. */
  lemma ReachableInv(ctx: Context, s: State, staleOnly: bool)
    requires WellFormed(ctx) && Reachable(ctx, s, staleOnly)
    ensures WellNamed(ctx.order) && Inv(ctx, s)
  {
    WellFormedIsWellNamed(ctx);
    var s0, labels :| RunsTo(ctx, s0, labels, s, staleOnly);
    assert Inv(ctx, s0);
    RunInv(ctx, s0, labels);
  }
}
