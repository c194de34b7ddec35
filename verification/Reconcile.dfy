/** One reconcile as a program of single interactions with the outside world
    (pkg/reconciler/reconciler.go, pkg/reconciler/interceptor/interceptor.go,
    pkg/reconciler/eviction/eviction.go, pkg/reconciler/status/status.go).
    Local computation is merged into the interaction that precedes it. */
module Reconcile {
  import opened Types
  import opened Priority
  import Conditions
  import Deadline

  /** A request's immutable spec with its interceptors in the priority order the sort gives. */
  type Context = c: ContextData | |c.order| == |c.spec.interceptors|
    witness ContextData(Spec("", "", "", "", [], [], None), [])
  datatype ContextData = ContextData(spec: Spec, order: seq<InterceptorValue>)

  /** Interceptor classes are unique and non-empty (a map list keyed by a hostname), and the
      order is one by descending priority. */
  ghost predicate WellFormed(ctx: Context) {
    && IsPriorityOrder(ctx.order, ctx.spec.interceptors)
    && DistinctClasses(ctx.spec.interceptors)
    && NamedClasses(ctx.spec.interceptors)
  }

  /** The next interaction of a reconcile. */
  datatype Pc =
    | GetPod                  // first pod lookup
    | WritePolicy             // status write of the defaulted policy
    | ReadClock               // deadline check of the active interceptor
    | WriteHandler            // status write of the interceptor handler
    | GetPodAgain             // pod lookup of Perform
    | Evict(pod: Pod)         // eviction call
    | Stamp(evicted: bool)    // clock read of UpsertCondition
    | WriteReport(evicted: bool) // status write of the status handler
    | Done(failed: bool)

  predicate IsWrite(pc: Pc) {
    pc.WritePolicy? || pc.WriteHandler? || pc.WriteReport?
  }

  /** What the outside answers to one interaction; each uses the part it needs. */
  datatype Input = Input(lookup: Lookup, written: bool, evicted: bool, now: int)

  datatype Local = Local(pc: Pc, status: Status)

  /** findInterceptorIndex, searching from position `i`. */
  function FindFrom(order: seq<InterceptorValue>, name: string, i: nat): (r: int)
    requires i <= |order|
    ensures r == -1 || i <= r < |order|
    ensures r == -1 ==> forall j :: i <= j < |order| ==> order[j].interceptorClass != name
    ensures r >= 0 ==> order[r].interceptorClass == name
    ensures r >= 0 ==> forall j :: i <= j < r ==> order[j].interceptorClass != name
    decreases |order| - i
  {
    if i == |order| then -1
    else if order[i].interceptorClass == name then i
    else FindFrom(order, name, i + 1)
  }

  function Find(order: seq<InterceptorValue>, name: string): int {
    FindFrom(order, name, 0)
  }

  function SelectRank(ctx: Context, st: Status, rank: nat): Local
    requires rank < |ctx.order|
  {
    Local(WriteHandler, st.(activeClass := Some(ctx.order[rank].interceptorClass)))
  }

  /** handleCompletedInterceptor */
  function AfterCompleted(ctx: Context, st: Status): Local
    requires st.activeClass.Some?
  {
    var i := Find(ctx.order, st.activeClass.value);
    if i >= 0 && i + 1 < |ctx.order| then SelectRank(ctx, st, i + 1)
    else Local(GetPodAgain, st)
  }

  /** Handle, up to its first interaction. */
  function Handle(ctx: Context, st: Status): Local
    requires ctx.order != []
  {
    if NoActive(st.activeClass) then SelectRank(ctx, st, 0)
    else if st.completed then AfterCompleted(ctx, st)
    else if ctx.spec.heartbeatDeadlineSeconds.Some? && st.heartbeatTime.Some? then Local(ReadClock, st)
    else Local(Done(false), st)
  }

  /** ReconcileEvictionRequest after its policy default. */
  function Dispatch(ctx: Context, st: Status): Local {
    if |ctx.spec.interceptors| > 0 then Handle(ctx, st) else Local(GetPodAgain, st)
  }

  function EvictedCondition(evicted: bool, now: int): Condition {
    if evicted then
      Condition(Conditions.EVICTED, ConditionTrue, 0, now, Conditions.EVICTION_SUCCEEDED, "Pod evicted successfully")
    else
      Condition(Conditions.EVICTED, ConditionFalse, 0, now, Conditions.EVICTION_FAILED, "Failed to evict pod")
  }

  function WithCondition(st: Status, c: Condition): Status {
    DefaultPolicy(st.(conditions := Conditions.Upsert(st.conditions, c)))
  }

  function CountFailure(st: Status): Status {
    DefaultPolicy(st.(failedCounter := Some(Wrap32(CounterOf(st) + 1))))
  }

  /** The status after the eviction call: success condition, or counted failure. */
  function Reported(st: Status, evicted: bool, now: int): Status {
    WithCondition(if evicted then st else CountFailure(st), EvictedCondition(evicted, now))
  }

  function AfterFirstLookup(ctx: Context, st: Status, lookup: Lookup): Local {
    match lookup
    case NotFound => Local(Done(false), st)
    case LookupFailed => Local(Done(true), st)
    case Found(pod) =>
      if pod.uid != ctx.spec.podUid then Local(Done(false), st)
      else if st.policy.Unspecified? then Local(WritePolicy, st.(policy := Allow))
      else Dispatch(ctx, st)
  }

  function AfterSecondLookup(st: Status, lookup: Lookup): Local {
    match lookup
    case NotFound => Local(Done(false), st)
    case LookupFailed => Local(Done(true), st)
    case Found(pod) => Local(Evict(pod), st)
  }

  /** checkInterceptorTimeout: expired marks the interceptor as completed, otherwise wait. */
  function AfterClock(ctx: Context, st: Status, now: int): Local {
    if Deadline.TimedOut(ctx.spec.heartbeatDeadlineSeconds, st.heartbeatTime, now)
    then Local(WriteHandler, st.(completed := true))
    else Local(Done(false), st)
  }

  /** One interaction: the answer decides the next one and the status of the local copy. */
  function Next(ctx: Context, local: Local, input: Input): Local {
    var st := local.status;
    match local.pc
    case GetPod => AfterFirstLookup(ctx, st, input.lookup)
    case WritePolicy => if input.written then Dispatch(ctx, st) else Local(Done(true), st)
    case ReadClock => AfterClock(ctx, st, input.now)
    case WriteHandler => Local(Done(!input.written), st)
    case GetPodAgain => AfterSecondLookup(st, input.lookup)
    case Evict(_) => Local(Stamp(input.evicted), st)
    case Stamp(evicted) => Local(WriteReport(evicted), Reported(st, evicted, input.now))
    case WriteReport(evicted) => Local(Done(!evicted), st)
    case Done(_) => local
  }

  function Remaining(pc: Pc): nat {
    match pc
    case GetPod => 8
    case WritePolicy => 7
    case ReadClock => 6
    case WriteHandler => 5
    case GetPodAgain => 4
    case Evict(_) => 3
    case Stamp(_) => 2
    case WriteReport(_) => 1
    case Done(_) => 0
  }

  lemma NextAdvances(ctx: Context, local: Local, input: Input)
    requires !local.pc.Done?
    ensures Remaining(Next(ctx, local, input).pc) < Remaining(local.pc)
  {
  }

  /** An interaction as the outside sees it. */
  datatype Call =
    | Looked(namespace: string, name: string)
    | Wrote(status: Status)
    | Asked
    | Evicting(namespace: string, name: string)

  function CallOf(ctx: Context, local: Local): Call
    requires !local.pc.Done?
  {
    match local.pc
    case GetPod => Looked(ctx.spec.namespace, ctx.spec.podName)
    case GetPodAgain => Looked(ctx.spec.namespace, ctx.spec.podName)
    case ReadClock => Asked
    case Stamp(_) => Asked
    case Evict(pod) => Evicting(pod.namespace, pod.name)
    case WritePolicy => Wrote(local.status)
    case WriteHandler => Wrote(local.status)
    case WriteReport(_) => Wrote(local.status)
  }

  /** A reconcile in progress with the calls made so far. */
  datatype Run = Run(local: Local, calls: seq<Call>)

  type Oracle = nat -> Input

  function StepRun(ctx: Context, oracle: Oracle, run: Run): Run
    requires !run.local.pc.Done?
  {
    Run(Next(ctx, run.local, oracle(|run.calls|)), run.calls + [CallOf(ctx, run.local)])
  }

  /** Runs a reconcile to its end; the n-th call overall is answered by `oracle(n)`. */
  function Finish(ctx: Context, oracle: Oracle, run: Run): (r: Run)
    ensures r.local.pc.Done?
    decreases Remaining(run.local.pc)
  {
    if run.local.pc.Done? then run
    else
      NextAdvances(ctx, run.local, oracle(|run.calls|));
      Finish(ctx, oracle, StepRun(ctx, oracle, run))
  }

  lemma FinishStep(ctx: Context, oracle: Oracle, run: Run)
    requires !run.local.pc.Done?
    ensures Finish(ctx, oracle, run) == Finish(ctx, oracle, StepRun(ctx, oracle, run))
  {
  }

  /** The status a reconcile of a fresh copy of `st` writes first, if it writes at all: the decision table
      of the controller, for reconciles whose two lookups get the same answer. */
  function FirstWrite(ctx: Context, st: Status, input: Input): Option<Status> {
    if !input.lookup.Found? || input.lookup.pod.uid != ctx.spec.podUid then None
    else if st.policy.Unspecified? then Some(st.(policy := Allow))
    else if ctx.order == [] then Some(Reported(st, input.evicted, input.now))
    else if NoActive(st.activeClass) then Some(st.(activeClass := Some(ctx.order[0].interceptorClass)))
    else if st.completed then
      var i := Find(ctx.order, st.activeClass.value);
      if 0 <= i < |ctx.order| - 1
      then Some(st.(activeClass := Some(ctx.order[i + 1].interceptorClass)))
      else Some(Reported(st, input.evicted, input.now))
    else if Deadline.TimedOut(ctx.spec.heartbeatDeadlineSeconds, st.heartbeatTime, input.now)
    then Some(st.(completed := true))
    else None
  }

  /** The first status write among calls. */
  function FirstWritten(calls: seq<Call>): Option<Status> {
    if calls == [] then None
    else if calls[0].Wrote? then Some(calls[0].status)
    else FirstWritten(calls[1..])
  }

  lemma FirstWrittenOfPrefix(prefix: seq<Call>, calls: seq<Call>)
    requires prefix <= calls
    requires FirstWritten(prefix).Some?
    ensures FirstWritten(calls) == FirstWritten(prefix)
    decreases |prefix|
  {
  }

  /** Calls already made stay made. */
  lemma {:induction false} FinishExtends(ctx: Context, oracle: Oracle, run: Run)
    ensures run.calls <= Finish(ctx, oracle, run).calls
    decreases Remaining(run.local.pc)
  {
    if !run.local.pc.Done? {
      NextAdvances(ctx, run.local, oracle(|run.calls|));
      FinishExtends(ctx, oracle, StepRun(ctx, oracle, run));
    }
  }

  /** The first write reached from a point of the program with constant answers. */
  ghost function AloneWrite(ctx: Context, local: Local, input: Input): Option<Status>
    decreases Remaining(local.pc)
  {
    if local.pc.Done? then None
    else if IsWrite(local.pc) then Some(local.status)
    else
      NextAdvances(ctx, local, input);
      AloneWrite(ctx, Next(ctx, local, input), input)
  }

  lemma FirstWrittenAppend(calls: seq<Call>, call: Call)
    requires FirstWritten(calls).None?
    ensures FirstWritten(calls + [call]) == if call.Wrote? then Some(call.status) else None
  {
    if calls != [] {
      assert (calls + [call])[1..] == calls[1..] + [call];
    }
  }

  /** Follows the run over interactions that do not write. */
  lemma {:induction false} WalkToWrite(ctx: Context, oracle: Oracle, input: Input, run: Run)
    requires forall n: nat :: oracle(n) == input
    requires FirstWritten(run.calls) == None
    ensures FirstWritten(Finish(ctx, oracle, run).calls) == AloneWrite(ctx, run.local, input)
    decreases Remaining(run.local.pc)
  {
    if !run.local.pc.Done? {
      var next := StepRun(ctx, oracle, run);
      NextAdvances(ctx, run.local, input);
      if IsWrite(run.local.pc) {
        FirstWrittenAppend(run.calls, CallOf(ctx, run.local));
        FinishExtends(ctx, oracle, next);
        FirstWrittenOfPrefix(next.calls, Finish(ctx, oracle, next).calls);
      } else {
        FirstWrittenAppend(run.calls, CallOf(ctx, run.local));
        WalkToWrite(ctx, oracle, input, next);
      }
    }
  }

  lemma AloneEviction(ctx: Context, st: Status, input: Input)
    requires input.lookup.Found?
    ensures AloneWrite(ctx, Local(GetPodAgain, st), input) == Some(Reported(st, input.evicted, input.now))
  {
    var l1 := Local(Evict(input.lookup.pod), st);
    assert AloneWrite(ctx, Local(GetPodAgain, st), input) == AloneWrite(ctx, l1, input);
    var l2 := Local(Stamp(input.evicted), st);
    assert AloneWrite(ctx, l1, input) == AloneWrite(ctx, l2, input);
    var l3 := Local(WriteReport(input.evicted), Reported(st, input.evicted, input.now));
    assert AloneWrite(ctx, l2, input) == AloneWrite(ctx, l3, input);
  }

  lemma AloneWriteIsTable(ctx: Context, st: Status, input: Input)
    ensures AloneWrite(ctx, Local(GetPod, st), input) == FirstWrite(ctx, st, input)
  {
    var l1 := Next(ctx, Local(GetPod, st), input);
    assert AloneWrite(ctx, Local(GetPod, st), input) == AloneWrite(ctx, l1, input);
    if l1.pc.GetPodAgain? {
      AloneEviction(ctx, st, input);
    } else if l1.pc.ReadClock? {
      var l2 := Next(ctx, l1, input);
      assert AloneWrite(ctx, l1, input) == AloneWrite(ctx, l2, input);
    }
  }

  /** Running a reconcile alone, with the same answer to both lookups, writes first what the decision
      table says. */
  lemma FirstWriteOfReconcile(ctx: Context, st: Status, input: Input)
    ensures FirstWritten(Finish(ctx, _ => input, Run(Local(GetPod, st), [])).calls) == FirstWrite(ctx, st, input)
  {
    var oracle: Oracle := _ => input;
    WalkToWrite(ctx, oracle, input, Run(Local(GetPod, st), []));
    AloneWriteIsTable(ctx, st, input);
  }

  // ---- When a reconcile fails ----

  predicate HasEvicted(calls: seq<Call>) {
    exists i :: 0 <= i < |calls| && calls[i].Evicting?
  }

  /** The i-th call went wrong in a way that counts: a failed lookup, a failed eviction, or a refused
      write, except for the write that reports an eviction. */
  predicate Trouble(oracle: Oracle, calls: seq<Call>, i: nat)
    requires i < |calls|
  {
    match calls[i]
    case Looked(_, _) => oracle(i).lookup.LookupFailed?
    case Wrote(_) => !oracle(i).written && !HasEvicted(calls[..i])
    case Asked => false
    case Evicting(_, _) => !oracle(i).evicted
  }

  predicate Troubled(oracle: Oracle, calls: seq<Call>) {
    exists i :: 0 <= i < |calls| && Trouble(oracle, calls, i)
  }

  predicate Doomed(pc: Pc) {
    pc == Stamp(false) || pc == WriteReport(false) || pc == Done(true)
  }

  lemma CallsAppend(oracle: Oracle, calls: seq<Call>, call: Call)
    ensures HasEvicted(calls + [call]) <==> HasEvicted(calls) || call.Evicting?
    ensures Troubled(oracle, calls + [call]) <==>
      Troubled(oracle, calls) || Trouble(oracle, calls + [call], |calls|)
  {
    var longer := calls + [call];
    assert longer[|calls|] == call;
    if HasEvicted(calls) {
      var i :| 0 <= i < |calls| && calls[i].Evicting?;
      assert longer[i].Evicting?;
    }
    forall i | 0 <= i < |calls| ensures Trouble(oracle, longer, i) <==> Trouble(oracle, calls, i) {
      assert longer[..i] == calls[..i];
    }
    if Troubled(oracle, calls) {
      var i :| 0 <= i < |calls| && Trouble(oracle, calls, i);
      assert Trouble(oracle, longer, i);
    }
  }

  lemma {:induction false} DoomedIffTroubled(ctx: Context, oracle: Oracle, run: Run)
    requires !run.local.pc.Done? ==> (HasEvicted(run.calls) <==> run.local.pc.Stamp? || run.local.pc.WriteReport?)
    requires Troubled(oracle, run.calls) <==> Doomed(run.local.pc)
    ensures var end := Finish(ctx, oracle, run);
      end.local.pc.failed <==> Troubled(oracle, end.calls)
    decreases Remaining(run.local.pc)
  {
    if !run.local.pc.Done? {
      var input := oracle(|run.calls|);
      NextAdvances(ctx, run.local, input);
      var call := CallOf(ctx, run.local);
      CallsAppend(oracle, run.calls, call);
      assert (run.calls + [call])[..|run.calls|] == run.calls;
      DoomedIffTroubled(ctx, oracle, StepRun(ctx, oracle, run));
    }
  }

  /** A reconcile returns an error, and its copy is requeued, exactly when a lookup failed, the eviction
      call failed, or a write other than the report of an eviction was refused. */
  lemma FailsExactlyWhenTroubled(ctx: Context, oracle: Oracle, st: Status)
    ensures var end := Finish(ctx, oracle, Run(Local(GetPod, st), []));
      end.local.pc == Done(Troubled(oracle, end.calls))
  {
    DoomedIffTroubled(ctx, oracle, Run(Local(GetPod, st), []));
  }
}
