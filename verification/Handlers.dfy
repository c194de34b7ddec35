/** The controller's methods on a mutable request, against the step program of one reconcile.
    Everything outside the controller is a `Cluster` whose n-th answer is fixed in advance. */
module Handlers {
  import opened Types
  import opened Objects
  import opened Reconcile
  import opened Script
  import Priority
  import Conditions
  import Deadline

  /** Serialization of the status of an object. */
  method Snapshot(req: EvictionRequest) returns (st: Status)
    requires req.Valid()
    ensures st == req.Status()
  {
    var f := req.status;
    st := Status(
      if f.conditions == null then [] else f.conditions[..], f.message, ClassOf(f.activeClass), f.completed,
      if f.heartbeatTime == null then None else Some(f.heartbeatTime.value),
      if f.expectedFinishTime == null then None else Some(f.expectedFinishTime.value),
      f.policy,
      if f.podEviction == null then None else Some(f.podEviction.failedCounter));
  }

  class Cluster {
    const oracle: Oracle
    var calls: seq<Call>

    constructor (oracle: Oracle)
      ensures this.oracle == oracle && calls == []
    {
      this.oracle, calls := oracle, [];
    }

    method GetPod(namespace: string, name: string) returns (answer: Lookup)
      modifies this
      ensures calls == old(calls) + [Looked(namespace, name)] && answer == oracle(|old(calls)|).lookup
    {
      answer := oracle(|calls|).lookup;
      calls := calls + [Looked(namespace, name)];
    }

    /** Sends the object; the answer carries no new version back into it. */
    method UpdateStatus(req: EvictionRequest) returns (failed: bool)
      requires req.Valid()
      modifies this
      ensures calls == old(calls) + [Wrote(req.Status())] && failed == !oracle(|old(calls)|).written
    {
      failed := !oracle(|calls|).written;
      var st := Snapshot(req);
      calls := calls + [Wrote(st)];
    }

    method EvictV1(namespace: string, name: string) returns (failed: bool)
      modifies this
      ensures calls == old(calls) + [Evicting(namespace, name)] && failed == !oracle(|old(calls)|).evicted
    {
      failed := !oracle(|calls|).evicted;
      calls := calls + [Evicting(namespace, name)];
    }

    method Now() returns (now: int)
      modifies this
      ensures calls == old(calls) + [Asked] && now == oracle(|old(calls)|).now
    {
      now := oracle(|calls|).now;
      calls := calls + [Asked];
    }
  }

  /** Identity and spec pointers stay; the pointees of the spec are outside every `modifies`. */
  twostate predicate SpecKept(req: EvictionRequest)
    reads req
  {
    && req.spec == old(req.spec)
    && req.namespace == old(req.namespace) && req.name == old(req.name) && req.version == old(req.version)
  }

  /** IncrementFailedEvictionCounter and UpsertCondition write in place or allocate. */
  twostate predicate OwnParts(req: EvictionRequest)
    reads req
  {
    var list, counter := req.status.conditions, req.status.podEviction;
    && (list == null || list == old(req.status.conditions) || fresh(list))
    && (counter == null || counter == old(req.status.podEviction) || fresh(counter))
  }

  twostate predicate SameParts(req: EvictionRequest)
    reads req
  {
    req.status.conditions == old(req.status.conditions) && req.status.podEviction == old(req.status.podEviction)
  }

  /** The context the handlers compute: the spec with its interceptors sorted. */
  ghost function ContextOf(spec: Spec): Context {
    ContextData(spec, Priority.SortDescending(spec.interceptors))
  }

  /** The order the handlers sort into is a priority order, so the protocol results apply to it. */
  lemma SortedContextIsWellFormed(spec: Spec)
    requires Priority.DistinctClasses(spec.interceptors) && Priority.NamedClasses(spec.interceptors)
    ensures WellFormed(ContextOf(spec))
  {
    Priority.SortIsPriorityOrder(spec.interceptors);
  }

  // ---- Sorting and searching ----

  method InsertLast(a: array<Entry>, n: nat)
    requires n < a.Length
    modifies a
    ensures a[..n + 1] == Priority.InsertDescending(old(a[..n]), old(a[n]))
    ensures a[n + 1..] == old(a[n + 1..])
  {
    var x := a[n];
    ghost var s := a[..n];
    var i := n;
    while i > 0 && a[i - 1].priority < x.priority
      invariant i <= n
      invariant forall j :: 0 <= j < i ==> a[j] == s[j]
      invariant forall j :: i < j <= n ==> a[j] == s[j - 1]
      invariant forall j :: n < j < a.Length ==> a[j] == old(a[j])
      invariant forall j :: i <= j < n ==> s[j].priority < x.priority
    {
      a[i] := a[i - 1];
      i := i - 1;
    }
    a[i] := x;
    Priority.InsertLandsAt(a[..n + 1], s, x, i);
  }

  /** The next element of the unsorted rest. */
  lemma TailStep(tail: seq<Entry>, original: seq<Entry>, n: nat)
    requires n < |original| && tail == original[n..]
    ensures tail[0] == original[n] && tail[1..] == original[n + 1..]
    ensures Priority.SortDescending(original[..n + 1]) ==
      Priority.InsertDescending(Priority.SortDescending(original[..n]), original[n])
  {
    assert original[..n + 1][..n] == original[..n];
  }

  /** sortInterceptorsByPriority: sorts a copy, which shares the roles with the spec's list. */
  method SortInterceptors(list: array?<Entry>) returns (sorted: array<Entry>)
    ensures fresh(sorted)
    ensures sorted[..] == Priority.SortDescending(Elements(list))
  {
    if list == null {
      sorted := new Entry[0];
      assert sorted[..] == [];
      return;
    }
    sorted := new Entry[list.Length](i requires 0 <= i < list.Length reads list => list[i]);
    ghost var original := list[..];
    assert sorted[..] == original;
    for n := 0 to sorted.Length
      invariant fresh(sorted) && sorted.Length == list.Length
      invariant sorted[..n] == Priority.SortDescending(original[..n])
      invariant sorted[n..] == original[n..]
      modifies sorted
    {
      TailStep(sorted[n..], original, n);
      InsertLast(sorted, n);
    }
    assert original[..sorted.Length] == original;
  }

  /** Corresponding lists: the handlers see only classes and priorities. */
  ghost predicate Denotes(entries: seq<Entry>, values: seq<InterceptorValue>) {
    && |entries| == |values|
    && forall i :: 0 <= i < |entries| ==>
         entries[i].interceptorClass == values[i].interceptorClass && entries[i].priority == values[i].priority
  }

  lemma {:induction false} InsertDenotes(entries: seq<Entry>, values: seq<InterceptorValue>,
        x: Entry, v: InterceptorValue)
    requires Denotes(entries, values) && Denotes([x], [v])
    ensures Denotes(Priority.InsertDescending(entries, x), Priority.InsertDescending(values, v))
  {
    assert [x][0].priority == [v][0].priority;
    if entries == [] || entries[|entries| - 1].priority >= x.priority {
    } else {
      InsertDenotes(entries[..|entries| - 1], values[..|values| - 1], x, v);
    }
  }

  lemma {:induction false} SortDenotes(entries: seq<Entry>, values: seq<InterceptorValue>)
    requires Denotes(entries, values)
    ensures Denotes(Priority.SortDescending(entries), Priority.SortDescending(values))
  {
    if entries != [] {
      var n := |entries| - 1;
      SortDenotes(entries[..n], values[..n]);
      InsertDenotes(Priority.SortDescending(entries[..n]), Priority.SortDescending(values[..n]), entries[n], values[n]);
    }
  }

  /** findInterceptorIndex */
  method FindInterceptorIndex(list: array<Entry>, name: string, ghost order: seq<InterceptorValue>) returns (index: int)
    requires Denotes(list[..], order)
    ensures index == Find(order, name)
  {
    for i := 0 to list.Length
      invariant Find(order, name) == FindFrom(order, name, i)
    {
      assert order[i].interceptorClass == list[..][i].interceptorClass;
      if list[i].interceptorClass == name {
        return i;
      }
    }
    return -1;
  }

  // ---- Status handler ----

  /** A status write leaves the object as it is. */
  method Send(req: EvictionRequest, cluster: Cluster) returns (failed: bool)
    requires req.Valid()
    modifies cluster
    ensures req.Valid() && req.Status() == old(req.Status())
    ensures cluster.calls == old(cluster.calls) + [Wrote(req.Status())]
    ensures failed == !cluster.oracle(|old(cluster.calls)|).written
  {
    failed := cluster.UpdateStatus(req);
  }

  /** The policy default, on the object. */
  method AllowByDefault(req: EvictionRequest)
    requires req.Valid()
    modifies req
    ensures req.Valid() && SpecKept(req) && SameParts(req)
    ensures req.Status() == DefaultPolicy(old(req.Status()))
  {
    if req.status.policy.Unspecified? {
      req.status := req.status.(policy := Allow);
    }
  }

  /** The scan of the condition list: replace in place, or append. */
  method PutCondition(req: EvictionRequest, condition: Condition)
    requires req.Valid()
    modifies req.Mutable()
    ensures req.Valid() && SpecKept(req) && OwnParts(req)
    ensures req.Status() ==
      old(req.Status()).(conditions := Conditions.Upsert(old(req.Status()).conditions, condition))
  {
    var list := req.status.conditions;
    if list == null {
      var first := new Condition[] [condition];
      req.status := req.status.(conditions := first);
      return;
    }
    ghost var before := list[..];
    var i := 0;
    while i < list.Length && list[i].conditionType != condition.conditionType
      invariant i <= list.Length
      invariant forall j :: 0 <= j < i ==> list[j].conditionType != condition.conditionType
    {
      i := i + 1;
    }
    assert i == Conditions.Position(before, condition.conditionType);
    if i < list.Length {
      list[i] := Conditions.Replacement(list[i], condition);
      assert list[..] == Conditions.Upsert(before, condition);
    } else {
      var longer := new Condition[list.Length + 1](j requires 0 <= j <= list.Length reads list =>
        if j < list.Length then list[j] else condition);
      assert longer[..] == before + [condition];
      req.status := req.status.(conditions := longer);
    }
  }

  /** The condition is put into the list, an empty policy becomes Allow, and the rest stays. */
  function Upserted(st: Status, condition: Condition): Status {
    st.(conditions := Conditions.Upsert(st.conditions, condition),
      policy := if st.policy == Unspecified then Allow else st.policy)
  }

  /** UpsertCondition */
  method UpsertCondition(req: EvictionRequest, cluster: Cluster,
        conditionType: string, status: ConditionStatus, reason: string, message: string)
    returns (failed: bool)
    requires req.Valid()
    modifies req.Mutable(), cluster
    ensures req.Valid() && SpecKept(req) && OwnParts(req)
    ensures var now := cluster.oracle(|old(cluster.calls)|).now;
      && req.Status() == Upserted(old(req.Status()), Condition(conditionType, status, 0, now, reason, message))
      && cluster.calls == old(cluster.calls) + [Asked, Wrote(req.Status())]
      && failed == !cluster.oracle(|old(cluster.calls)| + 1).written
  {
    var now := cluster.Now();
    assert req.Status() == old(req.Status());
    PutCondition(req, Condition(conditionType, status, 0, now, reason, message));
    AllowByDefault(req);
    failed := Send(req, cluster);
  }

  /** The counter, created when missing and incremented in place. */
  method BumpCounter(req: EvictionRequest)
    requires req.Valid()
    modifies req.Mutable()
    ensures req.Valid() && SpecKept(req) && OwnParts(req)
    ensures req.Status() == old(req.Status()).(failedCounter := Some(Wrap32(CounterOf(old(req.Status())) + 1)))
  {
    if req.status.podEviction == null {
      var none := new PodEvictionStatus(0);
      req.status := req.status.(podEviction := none);
    }
    var counter := req.status.podEviction;
    counter.failedCounter := Wrap32(counter.failedCounter + 1);
  }

  method CountOnObject(req: EvictionRequest)
    requires req.Valid()
    modifies req.Mutable()
    ensures req.Valid() && SpecKept(req) && OwnParts(req)
    ensures req.Status() == CountFailure(old(req.Status()))
  {
    BumpCounter(req);
    AllowByDefault(req);
  }

  lemma FailureIsTold(st: Status, now: int)
    ensures Upserted(CountFailure(st), EvictedCondition(false, now)) == Told(st, false, now)
    ensures Announces(Told(st, false, now), false)
  {
    ToldAnnounces(st, false, now);
  }

  /** IncrementFailedEvictionCounter */
  method IncrementFailedEvictionCounter(req: EvictionRequest, cluster: Cluster) returns (failed: bool)
    requires req.Valid()
    modifies req.Mutable(), cluster
    ensures req.Valid() && SpecKept(req) && OwnParts(req)
    ensures Announces(req.Status(), false)
    ensures var now := cluster.oracle(|old(cluster.calls)|).now;
      && req.Status() == Told(old(req.Status()), false, now)
      && cluster.calls == old(cluster.calls) + [Asked, Wrote(req.Status())]
      && failed == !cluster.oracle(|old(cluster.calls)| + 1).written
  {
    FailureIsTold(req.Status(), cluster.oracle(|cluster.calls|).now);
    CountOnObject(req);
    failed := UpsertCondition(req, cluster,
      Conditions.EVICTED, ConditionFalse, Conditions.EVICTION_FAILED, "Failed to evict pod");
  }

  // ---- Performing the eviction ----

  /** The object's spec is the context's, as far as the handlers read it. */
  ghost predicate Reflects(req: EvictionRequest, ctx: Context)
    reads req, req.spec.podRef, req.spec.interceptors, req.spec.heartbeatDeadlineSeconds
  {
    && req.spec.podRef != null
    && ctx.spec.namespace == req.namespace
    && ctx.spec.podName == req.spec.podRef.name
    && ctx.spec.podUid == req.spec.podRef.uid
    && ctx.spec.heartbeatDeadlineSeconds == BoxValue(req.spec.heartbeatDeadlineSeconds)
    && Denotes(Elements(req.spec.interceptors), ctx.spec.interceptors)
    && ctx.order == Priority.SortDescending(ctx.spec.interceptors)
  }

  /** A reconcile of `req` from `run` on, as the step program runs it. */
  ghost predicate Completes(ctx: Context, req: EvictionRequest, cluster: Cluster, failed: bool, run: Run)
    requires req.Valid()
    reads req, req.status.conditions, req.status.heartbeatTime, req.status.expectedFinishTime, req.status.podEviction
    reads PointeeString(req.status.activeClass), PointeeList(req.status.activeClass), cluster
  {
    Run(Local(Done(failed), req.Status()), cluster.calls) == Finish(ctx, cluster.oracle, run)
  }

  /** ... and as it is written out. */
  ghost predicate Plays(req: EvictionRequest, cluster: Cluster, failed: bool, outcome: Outcome)
    requires req.Valid()
    reads req, req.status.conditions, req.status.heartbeatTime, req.status.expectedFinishTime, req.status.podEviction
    reads PointeeString(req.status.activeClass), PointeeList(req.status.activeClass), cluster
  {
    Outcome(cluster.calls, req.Status(), failed) == outcome
  }

  /** The report of an eviction call; errors of the status handler are ignored. */
  method ReportEviction(req: EvictionRequest, cluster: Cluster, evicted: bool, ghost ctx: Context)
    requires req.Valid()
    modifies req.Mutable(), cluster
    ensures req.Valid() && SpecKept(req) && OwnParts(req)
    ensures Completes(ctx, req, cluster, !evicted, Run(Local(Stamp(evicted), old(req.Status())), old(cluster.calls)))
  {
    ReportFollows(ctx, cluster.oracle, req.Status(), evicted, cluster.calls);
    if evicted {
      var _ := UpsertCondition(req, cluster,
        Conditions.EVICTED, ConditionTrue, Conditions.EVICTION_SUCCEEDED, "Pod evicted successfully");
    } else {
      var _ := IncrementFailedEvictionCounter(req, cluster);
    }
  }

  /** The eviction call of Perform. */
  method EvictPod(req: EvictionRequest, cluster: Cluster, pod: Pod, ghost ctx: Context) returns (failed: bool)
    requires req.Valid()
    modifies req.Mutable(), cluster
    ensures req.Valid() && SpecKept(req) && OwnParts(req)
    ensures Completes(ctx, req, cluster, failed, Run(Local(Evict(pod), old(req.Status())), old(cluster.calls)))
  {
    ghost var st := req.Status();
    FinishStep(ctx, cluster.oracle, Run(Local(Evict(pod), st), cluster.calls));
    failed := cluster.EvictV1(pod.namespace, pod.name);
    assert req.Status() == st && SameParts(req);
    ReportEviction(req, cluster, !failed, ctx);
  }

  /** Perform. Without a reference it looks nothing up, evicts nothing, and fails. */
  method Perform(req: EvictionRequest, cluster: Cluster, ghost ctx: Context) returns (failed: bool)
    requires req.Valid() && (req.spec.podRef != null ==> Reflects(req, ctx))
    modifies req.Mutable(), cluster
    ensures req.Valid() && SpecKept(req) && OwnParts(req)
    ensures req.spec.podRef != null ==>
      && Completes(ctx, req, cluster, failed, Run(Local(GetPodAgain, old(req.Status())), old(cluster.calls)))
      && Plays(req, cluster, failed, ScriptOfEviction(ctx, old(req.Status()), cluster.oracle, old(cluster.calls)))
    ensures req.spec.podRef == null ==>
      && failed && cluster.calls == old(cluster.calls) + [Asked, Wrote(req.Status())]
      && req.Status() == Upserted(old(req.Status()),
           Condition("Ready", ConditionFalse, 0, cluster.oracle(|old(cluster.calls)|).now, "PodNotFound",
             "EvictionRequest.Spec.Target.PodRef cannot be nil"))
  {
    if req.spec.podRef == null {
      var _ := UpsertCondition(req, cluster,
        Conditions.READY, ConditionFalse, Conditions.POD_NOT_FOUND, "EvictionRequest.Spec.Target.PodRef cannot be nil");
      return true;
    }
    ghost var st := req.Status();
    EvictionFollows(ctx, cluster.oracle, st, cluster.calls);
    FinishStep(ctx, cluster.oracle, Run(Local(GetPodAgain, st), cluster.calls));
    var lookup := cluster.GetPod(req.namespace, req.spec.podRef.name);
    assert req.Status() == st && SameParts(req);
    if !lookup.Found? {
      return lookup.LookupFailed?;
    }
    failed := EvictPod(req, cluster, lookup.pod, ctx);
  }

  // ---- Interceptor handler ----

  /** updateEvictionRequestStatus */
  method UpdateEvictionRequestStatus(req: EvictionRequest, cluster: Cluster, ghost ctx: Context) returns (failed: bool)
    requires req.Valid()
    modifies cluster
    ensures req.Valid() && req.Status() == old(req.Status())
    ensures Completes(ctx, req, cluster, failed, Run(Local(WriteHandler, req.Status()), old(cluster.calls)))
  {
    failed := Send(req, cluster);
  }

  /** selectInitialInterceptor and selectNextInterceptor: the class pointer goes into the sorted list. */
  method SelectInterceptor(req: EvictionRequest, cluster: Cluster, sorted: array<Entry>, index: nat, ghost ctx: Context)
    returns (failed: bool)
    requires req.Valid() && Denotes(sorted[..], ctx.order) && index < sorted.Length
    modifies req, cluster
    ensures req.Valid() && SpecKept(req) && SameParts(req)
    ensures Completes(ctx, req, cluster, failed, Run(SelectRank(ctx, old(req.Status()), index), old(cluster.calls)))
  {
    assert ctx.order[index].interceptorClass == sorted[..][index].interceptorClass;
    req.status := req.status.(activeClass := ElementOf(sorted, index));
    failed := UpdateEvictionRequestStatus(req, cluster, ctx);
  }

  /** markInterceptorAsCompleted */
  method MarkInterceptorAsCompleted(req: EvictionRequest, cluster: Cluster, ghost ctx: Context) returns (failed: bool)
    requires req.Valid()
    modifies req, cluster
    ensures req.Valid() && SpecKept(req) && SameParts(req)
    ensures Completes(ctx, req, cluster, failed,
      Run(Local(WriteHandler, old(req.Status()).(completed := true)), old(cluster.calls)))
  {
    req.status := req.status.(completed := true);
    failed := UpdateEvictionRequestStatus(req, cluster, ctx);
  }

  /** checkInterceptorTimeout: the clock is read only when there is a deadline and a heartbeat. */
  method CheckInterceptorTimeout(req: EvictionRequest, cluster: Cluster, ghost ctx: Context) returns (failed: bool)
    requires req.Valid() && Reflects(req, ctx) && ctx.order != []
    requires !NoActive(req.Status().activeClass) && !req.status.completed
    modifies req, cluster
    ensures req.Valid() && SpecKept(req) && SameParts(req)
    ensures Completes(ctx, req, cluster, failed, Run(Handle(ctx, old(req.Status())), old(cluster.calls)))
    ensures req.status.completed <==>
      && req.spec.heartbeatDeadlineSeconds != null && old(req.status.heartbeatTime) != null
      && cluster.oracle(|old(cluster.calls)|).now - old(req.status.heartbeatTime.value)
         > req.spec.heartbeatDeadlineSeconds.value * 1_000_000_000
  {
    if req.spec.heartbeatDeadlineSeconds != null && req.status.heartbeatTime != null {
      FinishStep(ctx, cluster.oracle, Run(Local(ReadClock, req.Status()), cluster.calls));
      var deadline := Deadline.DurationOf(req.spec.heartbeatDeadlineSeconds.value);
      var now := cluster.Now();
      assert req.Status() == old(req.Status());
      if Deadline.SaturatingSub(now, req.status.heartbeatTime.value) > deadline {
        failed := MarkInterceptorAsCompleted(req, cluster, ctx);
        return;
      }
    }
    return false;
  }

  /** handleCompletedInterceptor */
  method HandleCompletedInterceptor(req: EvictionRequest, cluster: Cluster, sorted: array<Entry>, ghost ctx: Context)
    returns (failed: bool)
    requires req.Valid() && Reflects(req, ctx)
    requires Denotes(sorted[..], ctx.order) && req.Status().activeClass.Some?
    modifies req.Mutable(), cluster
    ensures req.Valid() && SpecKept(req) && OwnParts(req)
    ensures Completes(ctx, req, cluster, failed, Run(AfterCompleted(ctx, old(req.Status())), old(cluster.calls)))
  {
    ghost var st := req.Status();
    var current := FindInterceptorIndex(sorted, ClassOf(req.status.activeClass).value, ctx.order);
    assert req.Status() == st && SameParts(req);
    if current >= 0 && current + 1 < sorted.Length {
      assert AfterCompleted(ctx, st) == SelectRank(ctx, st, current + 1);
      failed := SelectInterceptor(req, cluster, sorted, current + 1, ctx);
    } else {
      assert AfterCompleted(ctx, st) == Local(GetPodAgain, st);
      failed := Perform(req, cluster, ctx);
    }
  }

  method HandleStates(req: EvictionRequest, cluster: Cluster, sorted: array<Entry>, ghost ctx: Context)
    returns (failed: bool)
    requires req.Valid() && Reflects(req, ctx)
    requires ctx.order != [] && Denotes(sorted[..], ctx.order)
    modifies req.Mutable(), cluster
    ensures req.Valid() && SpecKept(req) && OwnParts(req)
    ensures Completes(ctx, req, cluster, failed, Run(Handle(ctx, old(req.Status())), old(cluster.calls)))
  {
    ghost var st := req.Status();
    var active := ClassOf(req.status.activeClass);
    if NoActive(active) {
      assert Handle(ctx, st) == SelectRank(ctx, st, 0);
      failed := SelectInterceptor(req, cluster, sorted, 0, ctx);
    } else if req.status.completed {
      assert Handle(ctx, st) == AfterCompleted(ctx, st);
      failed := HandleCompletedInterceptor(req, cluster, sorted, ctx);
    } else {
      failed := CheckInterceptorTimeout(req, cluster, ctx);
    }
  }

  /** Handle: the three states. */
  method HandleInterceptors(req: EvictionRequest, cluster: Cluster, ghost ctx: Context) returns (failed: bool)
    requires req.Valid() && Reflects(req, ctx)
    requires ctx.spec.interceptors != []
    modifies req.Mutable(), cluster
    ensures req.Valid() && SpecKept(req) && OwnParts(req)
    ensures Completes(ctx, req, cluster, failed, Run(Handle(ctx, old(req.Status())), old(cluster.calls)))
  {
    ghost var st := req.Status();
    SortDenotes(Elements(req.spec.interceptors), ctx.spec.interceptors);
    var sorted := SortInterceptors(req.spec.interceptors);
    assert req.Status() == st && SameParts(req);
    failed := HandleStates(req, cluster, sorted, ctx);
  }

  // ---- The reconciler ----

  method WriteDefault(req: EvictionRequest, cluster: Cluster) returns (failed: bool)
    requires req.Valid()
    modifies req, cluster
    ensures req.Valid() && SpecKept(req) && SameParts(req)
    ensures req.Status() == DefaultPolicy(old(req.Status()))
    ensures cluster.calls == old(cluster.calls) + [Wrote(req.Status())]
    ensures failed == !cluster.oracle(|old(cluster.calls)|).written
  {
    AllowByDefault(req);
    failed := Send(req, cluster);
  }

  method DispatchRequest(req: EvictionRequest, cluster: Cluster, ghost ctx: Context) returns (failed: bool)
    requires req.Valid() && Reflects(req, ctx)
    modifies req.Mutable(), cluster
    ensures req.Valid() && SpecKept(req) && OwnParts(req)
    ensures Completes(ctx, req, cluster, failed, Run(Dispatch(ctx, old(req.Status())), old(cluster.calls)))
  {
    if req.spec.interceptors != null && req.spec.interceptors.Length > 0 {
      failed := HandleInterceptors(req, cluster, ctx);
    } else {
      failed := Perform(req, cluster, ctx);
    }
  }

  /** A reconcile after its pod checks: the policy default, then the handlers. */
  method Proceed(req: EvictionRequest, cluster: Cluster, ghost ctx: Context) returns (failed: bool)
    requires req.Valid() && Reflects(req, ctx)
    modifies req.Mutable(), cluster
    ensures req.Valid() && SpecKept(req) && OwnParts(req)
    ensures var st := old(req.Status());
      Completes(ctx, req, cluster, failed, Run(
        if st.policy.Unspecified? then Local(WritePolicy, st.(policy := Allow)) else Dispatch(ctx, st),
        old(cluster.calls)))
      && Plays(req, cluster, failed, ScriptOfMatched(ctx, st, cluster.oracle, old(cluster.calls)))
  {
    MatchedFollows(ctx, cluster.oracle, req.Status(), cluster.calls);
    ghost var start := Run(Local(WritePolicy, DefaultPolicy(req.Status())), cluster.calls);
    FinishStep(ctx, cluster.oracle, start);
    if req.status.policy.Unspecified? {
      failed := WriteDefault(req, cluster);
      if failed {
        return;
      }
      assert StepRun(ctx, cluster.oracle, start) == Run(Dispatch(ctx, req.Status()), cluster.calls);
    }
    failed := DispatchRequest(req, cluster, ctx);
  }

  /** ReconcileEvictionRequest: the first lookup, by the reference of the object, and its checks. */
  method LookUpAndProceed(req: EvictionRequest, cluster: Cluster, ghost ctx: Context) returns (failed: bool)
    requires req.Valid() && Reflects(req, ctx)
    modifies req.Mutable(), cluster
    ensures req.Valid() && SpecKept(req) && OwnParts(req)
    ensures Completes(ctx, req, cluster, failed, Run(Local(GetPod, old(req.Status())), old(cluster.calls)))
    ensures Plays(req, cluster, failed,
      ScriptOfReconcile(ctx, old(req.Status()), cluster.oracle, old(cluster.calls)))
    ensures |cluster.calls| > |old(cluster.calls)|
      && cluster.calls[|old(cluster.calls)|] == Looked(req.namespace, req.spec.podRef.name)
  {
    ReconcileIsScripted(ctx, cluster.oracle, req.Status(), cluster.calls);
    ScriptLooksFirst(ctx, req.Status(), cluster.oracle, cluster.calls);
    var lookup := cluster.GetPod(req.namespace, req.spec.podRef.name);
    assert req.Status() == old(req.Status());
    if !lookup.Found? {
      return lookup.LookupFailed?;
    }
    if lookup.pod.uid != req.spec.podRef.uid {
      return false;
    }
    failed := Proceed(req, cluster, ctx);
  }

  lemma SpecReflects(req: EvictionRequest)
    requires req.spec.podRef != null
    ensures Reflects(req, ContextOf(req.Spec()))
  {
  }

  /** ReconcileEvictionRequest performs on the object exactly the run of the step program, which is the
      script, and looks up the pod of the object first. A reference to a pod is needed: the code
      dereferences it before any check. */
  method ReconcileEvictionRequest(req: EvictionRequest, cluster: Cluster) returns (failed: bool)
    requires req.Valid() && req.spec.podRef != null
    modifies req.Mutable(), cluster
    ensures req.Valid() && SpecKept(req) && OwnParts(req)
    ensures Completes(ContextOf(old(req.Spec())), req, cluster, failed,
      Run(Local(GetPod, old(req.Status())), old(cluster.calls)))
    ensures Plays(req, cluster, failed,
      ScriptOfReconcile(ContextOf(old(req.Spec())), old(req.Status()), cluster.oracle, old(cluster.calls)))
    ensures |cluster.calls| > |old(cluster.calls)|
      && cluster.calls[|old(cluster.calls)|] == Looked(req.namespace, req.spec.podRef.name)
  {
    ghost var ctx := ContextOf(req.Spec());
    SpecReflects(req);
    failed := LookUpAndProceed(req, cluster, ctx);
  }
}
