/** One reconcile written out in one piece, from its first lookup to its last write: the reference for the
    step program of `Reconcile` and for the methods of `Handlers`
    (pkg/reconciler/reconciler.go:61-94, pkg/reconciler/interceptor/interceptor.go:51-147,
    pkg/reconciler/eviction/eviction.go:54-91, pkg/reconciler/status/status.go:40-97). */
module Script {
  import opened Types
  import opened Reconcile
  import opened Cursor
  import Conditions
  import Deadline

  datatype Outcome = Outcome(calls: seq<Call>, status: Status, failed: bool)

  // ---- The script ----

  function ScriptOfWrite(st: Status, answers: Oracle, before: seq<Call>): Outcome {
    Outcome(before + [Wrote(st)], st, !answers(|before|).written)
  }

  /** A missing counter counts from zero; a full one wraps around. */
  function OneMore(counter: Option<int32>): int32 {
    if counter.None? then 1
    else if counter.value == 0x7fff_ffff then -0x8000_0000
    else counter.value + 1
  }

  /** The status that tells of an eviction call. */
  function Told(st: Status, evicted: bool, now: int): Status {
    var policy := if st.policy == Unspecified then Allow else st.policy;
    if evicted then
      st.(policy := policy, conditions := Conditions.Upsert(st.conditions,
        Condition("Evicted", ConditionTrue, 0, now, "EvictionSucceeded", "Pod evicted successfully")))
    else
      st.(policy := policy, failedCounter := Some(OneMore(st.failedCounter)),
        conditions := Conditions.Upsert(st.conditions,
          Condition("Evicted", ConditionFalse, 0, now, "EvictionFailed", "Failed to evict pod")))
  }

  /** The pod is looked up again and evicted, and the outcome is reported; the report's own fate does not
      matter. */
  function ScriptOfEviction(ctx: Context, st: Status, answers: Oracle, before: seq<Call>): Outcome {
    var answer := answers(|before|).lookup;
    var looked := before + [Looked(ctx.spec.namespace, ctx.spec.podName)];
    if !answer.Found? then Outcome(looked, st, answer.LookupFailed?)
    else
      var evicted, now := answers(|before| + 1).evicted, answers(|before| + 2).now;
      var told := Told(st, evicted, now);
      Outcome(looked + [Evicting(answer.pod.namespace, answer.pod.name), Asked, Wrote(told)], told, !evicted)
  }

  /** Whose turn it is: the pod's, the next interceptor's, or still the active one's. */
  function ScriptOfTurn(ctx: Context, st: Status, answers: Oracle, before: seq<Call>): Outcome {
    var n, rank, deadline := |ctx.order|, Rank(ctx.order, st.activeClass), ctx.spec.heartbeatDeadlineSeconds;
    if n == 0 || (rank >= n - 1 && st.completed) then ScriptOfEviction(ctx, st, answers, before)
    else if rank < 0 || st.completed then
      ScriptOfWrite(st.(activeClass := Some(ctx.order[rank + 1].interceptorClass)), answers, before)
    else if deadline.None? || st.heartbeatTime.None? then Outcome(before, st, false)
    else if answers(|before|).now - st.heartbeatTime.value <= deadline.value * 1_000_000_000 then
      Outcome(before + [Asked], st, false)
    else ScriptOfWrite(st.(completed := true), answers, before + [Asked])
  }

  /** The target is there: an empty policy becomes Allow, which is stored before anything else is done. */
  function ScriptOfMatched(ctx: Context, st: Status, answers: Oracle, before: seq<Call>): Outcome {
    if st.policy != Unspecified then ScriptOfTurn(ctx, st, answers, before)
    else
      var allowed := st.(policy := Allow);
      var wrote := before + [Wrote(allowed)];
      if answers(|before|).written then ScriptOfTurn(ctx, allowed, answers, wrote)
      else Outcome(wrote, allowed, true)
  }

  /** The n-th call is answered by `answers(n)`; `before` are the calls made earlier. */
  function ScriptOfReconcile(ctx: Context, st: Status, answers: Oracle, before: seq<Call>): Outcome {
    var answer := answers(|before|).lookup;
    var looked := before + [Looked(ctx.spec.namespace, ctx.spec.podName)];
    if !answer.Found? then Outcome(looked, st, answer.LookupFailed?)
    else if answer.pod.uid != ctx.spec.podUid then Outcome(looked, st, false)
    else ScriptOfMatched(ctx, st, answers, looked)
  }

  /** Its first call looks up the target. */
  lemma ScriptLooksFirst(ctx: Context, st: Status, answers: Oracle, before: seq<Call>)
    ensures before + [Looked(ctx.spec.namespace, ctx.spec.podName)]
      <= ScriptOfReconcile(ctx, st, answers, before).calls
  {
  }

  // ---- The step program follows it ----

  ghost predicate Follows(run: Run, outcome: Outcome) {
    run == Run(Local(Done(outcome.failed), outcome.status), outcome.calls)
  }

  lemma ReportIsTold(st: Status, evicted: bool, now: int)
    ensures Reported(st, evicted, now) == Told(st, evicted, now)
  {
  }

  lemma ReportFollows(ctx: Context, oracle: Oracle, st: Status, evicted: bool, calls: seq<Call>)
    ensures var told := Told(st, evicted, oracle(|calls|).now);
      Follows(Finish(ctx, oracle, Run(Local(Stamp(evicted), st), calls)),
        Outcome(calls + [Asked, Wrote(told)], told, !evicted))
  {
    var r1 := Run(Local(Stamp(evicted), st), calls);
    var r2 := StepRun(ctx, oracle, r1);
    FinishStep(ctx, oracle, r1);
    FinishStep(ctx, oracle, r2);
    ReportIsTold(st, evicted, oracle(|calls|).now);
    assert StepRun(ctx, oracle, r2).calls == calls + [Asked, CallOf(ctx, r2.local)];
  }

  lemma CallFollows(ctx: Context, oracle: Oracle, st: Status, pod: Pod, calls: seq<Call>)
    ensures var evicted, told := oracle(|calls|).evicted, Told(st, oracle(|calls|).evicted, oracle(|calls| + 1).now);
      Follows(Finish(ctx, oracle, Run(Local(Evict(pod), st), calls)),
        Outcome(calls + [Evicting(pod.namespace, pod.name), Asked, Wrote(told)], told, !evicted))
  {
    var evicted, called := oracle(|calls|).evicted, calls + [Evicting(pod.namespace, pod.name)];
    var told := Told(st, evicted, oracle(|calls| + 1).now);
    FinishStep(ctx, oracle, Run(Local(Evict(pod), st), calls));
    ReportFollows(ctx, oracle, st, evicted, called);
    assert called + [Asked, Wrote(told)] == calls + [Evicting(pod.namespace, pod.name), Asked, Wrote(told)];
  }

  lemma EvictionFollows(ctx: Context, oracle: Oracle, st: Status, calls: seq<Call>)
    ensures Follows(Finish(ctx, oracle, Run(Local(GetPodAgain, st), calls)), ScriptOfEviction(ctx, st, oracle, calls))
  {
    var answer := oracle(|calls|).lookup;
    FinishStep(ctx, oracle, Run(Local(GetPodAgain, st), calls));
    if answer.Found? {
      CallFollows(ctx, oracle, st, answer.pod, calls + [Looked(ctx.spec.namespace, ctx.spec.podName)]);
    }
  }

  lemma WriteFollows(ctx: Context, oracle: Oracle, st: Status, calls: seq<Call>)
    ensures Follows(Finish(ctx, oracle, Run(Local(WriteHandler, st), calls)), ScriptOfWrite(st, oracle, calls))
  {
    FinishStep(ctx, oracle, Run(Local(WriteHandler, st), calls));
  }

  lemma TurnFollows(ctx: Context, oracle: Oracle, st: Status, calls: seq<Call>)
    ensures Follows(Finish(ctx, oracle, Run(Dispatch(ctx, st), calls)), ScriptOfTurn(ctx, st, oracle, calls))
  {
    var run := Run(Dispatch(ctx, st), calls);
    if run.local.pc.GetPodAgain? {
      EvictionFollows(ctx, oracle, st, calls);
    } else if run.local.pc.WriteHandler? {
      WriteFollows(ctx, oracle, run.local.status, calls);
    } else if run.local.pc.ReadClock? {
      var now := oracle(|calls|).now;
      Deadline.TimeoutIsExact(ctx.spec.heartbeatDeadlineSeconds, st.heartbeatTime, now);
      FinishStep(ctx, oracle, run);
      WriteFollows(ctx, oracle, st.(completed := true), calls + [Asked]);
    }
  }

  lemma MatchedFollows(ctx: Context, oracle: Oracle, st: Status, calls: seq<Call>)
    ensures var local :=
        if st.policy.Unspecified? then Local(WritePolicy, st.(policy := Allow)) else Dispatch(ctx, st);
      Follows(Finish(ctx, oracle, Run(local, calls)), ScriptOfMatched(ctx, st, oracle, calls))
  {
    if st.policy.Unspecified? {
      var allowed := st.(policy := Allow);
      FinishStep(ctx, oracle, Run(Local(WritePolicy, allowed), calls));
      TurnFollows(ctx, oracle, allowed, calls + [Wrote(allowed)]);
    } else {
      TurnFollows(ctx, oracle, st, calls);
    }
  }

  /** The step program does what is written out above, for every status and all answers: the same calls in
      the same order with the same contents, the same resulting copy, the same verdict. */
  lemma ReconcileIsScripted(ctx: Context, oracle: Oracle, st: Status, calls: seq<Call>)
    ensures Follows(Finish(ctx, oracle, Run(Local(GetPod, st), calls)), ScriptOfReconcile(ctx, st, oracle, calls))
  {
    var run := Run(Local(GetPod, st), calls);
    FinishStep(ctx, oracle, run);
    if PodMatches(ctx, oracle(|calls|)) {
      MatchedFollows(ctx, oracle, st, StepRun(ctx, oracle, run).calls);
    }
  }

  // ---- After the policy default ----

  /** With constant answers earlier calls make no difference. */
  lemma {:induction false} FinishShifts(ctx: Context, oracle: Oracle, input: Input, run: Run)
    requires forall n: nat :: oracle(n) == input
    ensures Finish(ctx, oracle, run).calls == run.calls + Finish(ctx, oracle, Run(run.local, [])).calls
    decreases Remaining(run.local.pc)
  {
    if !run.local.pc.Done? {
      NextAdvances(ctx, run.local, input);
      var here := Run(run.local, []);
      FinishShifts(ctx, oracle, input, StepRun(ctx, oracle, run));
      FinishShifts(ctx, oracle, input, StepRun(ctx, oracle, here));
    }
  }

  lemma TurnIsTable(ctx: Context, st: Status, input: Input)
    requires !st.policy.Unspecified? && PodMatches(ctx, input)
    ensures FirstWritten(Finish(ctx, _ => input, Run(Dispatch(ctx, st), [])).calls) == FirstWrite(ctx, st, input)
  {
    var oracle: Oracle := _ => input;
    var start := Run(Local(GetPod, st), []);
    FirstWriteOfReconcile(ctx, st, input);
    FinishStep(ctx, oracle, start);
    var looked := StepRun(ctx, oracle, start);
    FinishShifts(ctx, oracle, input, looked);
    var rest := Finish(ctx, oracle, Run(Dispatch(ctx, st), [])).calls;
    assert (looked.calls + rest)[1..] == rest;
  }

  /** Once the default is stored, a reconcile writes what the decision table says for a request with a
      policy; when storing it fails, it does nothing more and returns the error. */
  lemma DefaultIsFollowedByTurn(ctx: Context, st: Status, input: Input)
    requires st.policy.Unspecified? && PodMatches(ctx, input)
    ensures var allowed := st.(policy := Allow);
      var end := Finish(ctx, _ => input, Run(Local(GetPod, st), []));
      && |end.calls| >= 2 && end.calls[1] == Wrote(allowed)
      && (input.written ==> FirstWritten(end.calls[2..]) == FirstWrite(ctx, allowed, input))
      && (!input.written ==> |end.calls| == 2 && end.local == Local(Done(true), allowed))
  {
    var oracle: Oracle := _ => input;
    var allowed := st.(policy := Allow);
    var start := Run(Local(GetPod, st), []);
    var looked := StepRun(ctx, oracle, start);
    var wrote := StepRun(ctx, oracle, looked);
    FinishStep(ctx, oracle, start);
    FinishStep(ctx, oracle, looked);
    FinishExtends(ctx, oracle, wrote);
    if input.written {
      FinishShifts(ctx, oracle, input, wrote);
      FirstWriteOfReconcile(ctx, allowed, input);
      TurnIsTable(ctx, allowed, input);
    }
  }

  // ---- The pod that is named ----

  /** A lookup names the target, and an eviction call names the pod that the lookup just before it, the
      second one, has found. */
  ghost predicate Names(ctx: Context, answers: Oracle, calls: seq<Call>, i: nat)
    requires i < |calls|
  {
    match calls[i]
    case Looked(namespace, name) => namespace == ctx.spec.namespace && name == ctx.spec.podName
    case Evicting(namespace, name) =>
      && i >= 2 && calls[0].Looked? && calls[i - 1].Looked?
      && answers(i - 1).lookup.Found?
      && namespace == answers(i - 1).lookup.pod.namespace && name == answers(i - 1).lookup.pod.name
    case _ => true
  }

  ghost predicate AllNamed(ctx: Context, answers: Oracle, calls: seq<Call>) {
    && (calls != [] ==> calls[0].Looked?)
    && forall i :: 0 <= i < |calls| ==> Names(ctx, answers, calls, i)
  }

  lemma NamedAppend(ctx: Context, answers: Oracle, calls: seq<Call>, call: Call)
    requires AllNamed(ctx, answers, calls) && (calls == [] ==> call.Looked?)
    requires Names(ctx, answers, calls + [call], |calls|)
    ensures AllNamed(ctx, answers, calls + [call])
  {
    forall i | 0 <= i < |calls| ensures Names(ctx, answers, calls + [call], i) {
      assert Names(ctx, answers, calls, i);
    }
  }

  lemma EvictionNames(ctx: Context, st: Status, answers: Oracle, before: seq<Call>)
    requires AllNamed(ctx, answers, before) && before != []
    ensures AllNamed(ctx, answers, ScriptOfEviction(ctx, st, answers, before).calls)
  {
    var looked := before + [Looked(ctx.spec.namespace, ctx.spec.podName)];
    NamedAppend(ctx, answers, before, Looked(ctx.spec.namespace, ctx.spec.podName));
    var answer := answers(|before|).lookup;
    if answer.Found? {
      var evicting := Evicting(answer.pod.namespace, answer.pod.name);
      var told := Wrote(Told(st, answers(|before| + 1).evicted, answers(|before| + 2).now));
      NamedAppend(ctx, answers, looked, evicting);
      NamedAppend(ctx, answers, looked + [evicting], Asked);
      NamedAppend(ctx, answers, looked + [evicting] + [Asked], told);
      assert looked + [evicting, Asked, told] == looked + [evicting] + [Asked] + [told];
    }
  }

  lemma TurnNames(ctx: Context, st: Status, answers: Oracle, before: seq<Call>)
    requires AllNamed(ctx, answers, before) && before != []
    ensures AllNamed(ctx, answers, ScriptOfTurn(ctx, st, answers, before).calls)
  {
    EvictionNames(ctx, st, answers, before);
    NamedAppend(ctx, answers, before, Asked);
    forall next ensures AllNamed(ctx, answers, before + [Wrote(next)]) {
      NamedAppend(ctx, answers, before, Wrote(next));
    }
    forall next ensures AllNamed(ctx, answers, before + [Asked] + [Wrote(next)]) {
      NamedAppend(ctx, answers, before + [Asked], Wrote(next));
    }
  }

  lemma ScriptNames(ctx: Context, st: Status, answers: Oracle)
    ensures AllNamed(ctx, answers, ScriptOfReconcile(ctx, st, answers, []).calls)
  {
    var look := Looked(ctx.spec.namespace, ctx.spec.podName);
    NamedAppend(ctx, answers, [], look);
    var allowed := st.(policy := Allow);
    NamedAppend(ctx, answers, [] + [look], Wrote(allowed));
    TurnNames(ctx, st, answers, [] + [look]);
    TurnNames(ctx, allowed, answers, [] + [look] + [Wrote(allowed)]);
  }

  /** Every call of a reconcile that names a pod names the right one. */
  lemma CallsNameTarget(ctx: Context, oracle: Oracle, st: Status)
    ensures AllNamed(ctx, oracle, Finish(ctx, oracle, Run(Local(GetPod, st), [])).calls)
  {
    ReconcileIsScripted(ctx, oracle, st, []);
    ScriptNames(ctx, st, oracle);
  }

  // ---- What is told about an eviction ----

  /** The condition list says truly whether the pod was evicted. */
  ghost predicate Announces(st: Status, evicted: bool) {
    var c := Conditions.Current(st.conditions, "Evicted");
    && c.Some?
    && if evicted then
         && c.value.status == ConditionTrue
         && c.value.reason == "EvictionSucceeded" && c.value.message == "Pod evicted successfully"
       else
         && c.value.status == ConditionFalse
         && c.value.reason == "EvictionFailed" && c.value.message == "Failed to evict pod"
  }

  lemma ToldAnnounces(st: Status, evicted: bool, now: int)
    ensures Announces(Told(st, evicted, now), evicted)
  {
    var status, reason, message :=
      if evicted then ConditionTrue else ConditionFalse,
      if evicted then "EvictionSucceeded" else "EvictionFailed",
      if evicted then "Pod evicted successfully" else "Failed to evict pod";
    Conditions.CurrentOfUpsert(st.conditions, Condition("Evicted", status, 0, now, reason, message));
  }

  /** After the eviction call at `i` the clock is read and the last status written, and an error returned if
      and only if the call failed. The status announces how the call ended; only a failure is counted. */
  ghost predicate ToldAfter(st: Status, answers: Oracle, outcome: Outcome, i: nat)
    requires i < |outcome.calls|
  {
    var evicted := answers(i).evicted;
    && outcome.calls[i + 1..] == [Asked, Wrote(outcome.status)]
    && outcome.failed == !evicted
    && Announces(outcome.status, evicted)
    && outcome.status.failedCounter == if evicted then st.failedCounter else Some(OneMore(st.failedCounter))
  }

  lemma EvictionTells(ctx: Context, st: Status, answers: Oracle, before: seq<Call>, i: nat)
    requires !HasEvicted(before)
    requires i < |ScriptOfEviction(ctx, st, answers, before).calls|
    requires ScriptOfEviction(ctx, st, answers, before).calls[i].Evicting?
    ensures ToldAfter(st, answers, ScriptOfEviction(ctx, st, answers, before), i)
  {
    assert forall j :: 0 <= j < |before| ==> !before[j].Evicting?;
    ToldAnnounces(st, answers(i).evicted, answers(i + 1).now);
  }

  lemma TurnTells(ctx: Context, st: Status, answers: Oracle, before: seq<Call>, i: nat)
    requires !HasEvicted(before)
    requires i < |ScriptOfTurn(ctx, st, answers, before).calls|
    requires ScriptOfTurn(ctx, st, answers, before).calls[i].Evicting?
    ensures ToldAfter(st, answers, ScriptOfTurn(ctx, st, answers, before), i)
  {
    assert forall j :: 0 <= j < |before| ==> !before[j].Evicting?;
    if ctx.order == [] || Final(ctx.order, st) {
      EvictionTells(ctx, st, answers, before, i);
    } else {
      assert false;
    }
  }

  lemma ScriptTells(ctx: Context, st: Status, answers: Oracle, i: nat)
    requires i < |ScriptOfReconcile(ctx, st, answers, []).calls|
    requires ScriptOfReconcile(ctx, st, answers, []).calls[i].Evicting?
    ensures ToldAfter(st, answers, ScriptOfReconcile(ctx, st, answers, []), i)
  {
    var looked := [] + [Looked(ctx.spec.namespace, ctx.spec.podName)];
    var allowed := st.(policy := Allow);
    if !PodMatches(ctx, answers(0)) {
      assert false;
    } else if !st.policy.Unspecified? {
      TurnTells(ctx, st, answers, looked, i);
    } else if answers(1).written {
      TurnTells(ctx, allowed, answers, looked + [Wrote(allowed)], i);
    } else {
      assert false;
    }
  }

  /** A reconcile tells the truth about the eviction it made. */
  lemma EvictionIsAnnounced(ctx: Context, oracle: Oracle, st: Status, i: nat)
    requires i < |Finish(ctx, oracle, Run(Local(GetPod, st), [])).calls|
    requires Finish(ctx, oracle, Run(Local(GetPod, st), [])).calls[i].Evicting?
    ensures var end := Finish(ctx, oracle, Run(Local(GetPod, st), []));
      ToldAfter(st, oracle, Outcome(end.calls, end.local.status, end.local.pc.failed), i)
  {
    ReconcileIsScripted(ctx, oracle, st, []);
    ScriptTells(ctx, st, oracle, i);
  }
}
