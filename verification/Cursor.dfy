/** The position of a request in its interceptor list: the controller stores a class name and searches
    for it on every reconcile (pkg/reconciler/interceptor/interceptor.go:51-114). */
module Cursor {
  import opened Types
  import opened Priority
  import opened Reconcile
  import Deadline

  ghost predicate NamedBelow(order: seq<InterceptorValue>, n: nat)
    requires n <= |order|
  {
    forall i :: 0 <= i < n ==> order[i].interceptorClass != "" && Find(order, order[i].interceptorClass) == i
  }

  /** Searching for the class at a rank finds that rank, and no class reads as "none active". */
  ghost predicate WellNamed(order: seq<InterceptorValue>) {
    NamedBelow(order, |order|)
  }

  lemma WellNamedIffDistinct(order: seq<InterceptorValue>)
    ensures WellNamed(order) <==> DistinctClasses(order) && NamedClasses(order)
  {
  }

  lemma WellFormedIsWellNamed(ctx: Context)
    requires WellFormed(ctx)
    ensures WellNamed(ctx.order)
  {
    DistinctClassesOfPermutation(ctx.spec.interceptors, ctx.order);
    WellNamedIffDistinct(ctx.order);
  }

  /** -1: nothing selected; the index of a listed class; past the end for an unlisted one. */
  function Rank(order: seq<InterceptorValue>, active: Option<string>): int {
    if NoActive(active) then -1
    else
      var i := Find(order, active.value);
      if i < 0 then |order| else i
  }

  lemma RankOfSelected(order: seq<InterceptorValue>, i: nat)
    requires WellNamed(order) && i < |order|
    ensures Rank(order, Some(order[i].interceptorClass)) == i
  {
  }

  // ---- Name cursor and integer cursor ----

  datatype Decision = Select(rank: nat) | Expire | Wait | Perform

  /** What one reconcile sees: the completed flag and whether the heartbeat has expired. */
  datatype Sight = Sight(completed: bool, expired: bool)

  function NameDecision(order: seq<InterceptorValue>, active: Option<string>, sight: Sight): Decision {
    if NoActive(active) then Select(0)
    else if sight.completed then
      var i := Find(order, active.value);
      if i >= 0 && i + 1 < |order| then Select(i + 1) else Perform
    else if sight.expired then Expire
    else Wait
  }

  function CursorDecision(n: nat, cursor: int, sight: Sight): Decision {
    if cursor < 0 then Select(0)
    else if sight.completed then if cursor + 1 < n then Select(cursor + 1) else Perform
    else if sight.expired then Expire
    else Wait
  }

  function NameRun(order: seq<InterceptorValue>, active: Option<string>, sights: seq<Sight>): seq<Decision>
    decreases |sights|
  {
    if sights == [] then []
    else
      var d := NameDecision(order, active, sights[0]);
      var next := if d.Select? && d.rank < |order| then Some(order[d.rank].interceptorClass) else active;
      [d] + NameRun(order, next, sights[1..])
  }

  function CursorRun(n: nat, cursor: int, sights: seq<Sight>): seq<Decision>
    decreases |sights|
  {
    if sights == [] then []
    else
      var d := CursorDecision(n, cursor, sights[0]);
      [d] + CursorRun(n, if d.Select? then d.rank else cursor, sights[1..])
  }

  /** The handler takes the decision by name. */
  lemma HandlerDecidesByName(ctx: Context, st: Status, now: int)
    requires ctx.order != []
    ensures var expired := Deadline.TimedOut(ctx.spec.heartbeatDeadlineSeconds, st.heartbeatTime, now);
      var first := Handle(ctx, st);
      var after := if first.pc.ReadClock? then AfterClock(ctx, first.status, now) else first;
      match NameDecision(ctx.order, st.activeClass, Sight(st.completed, expired))
      case Select(i) => i < |ctx.order| && after == SelectRank(ctx, st, i)
      case Expire => after == Local(WriteHandler, st.(completed := true))
      case Wait => after == Local(Done(false), st)
      case Perform => after == Local(GetPodAgain, st)
  {
  }

  /** With well-formed classes that is the decision of an index, the rank of the stored class: a handover
      stores the class of the index selected, and changes nothing else. */
  lemma HandlerMovesCursor(ctx: Context, st: Status, now: int)
    requires WellFormed(ctx) && ctx.order != []
    ensures var expired := Deadline.TimedOut(ctx.spec.heartbeatDeadlineSeconds, st.heartbeatTime, now);
      var first := Handle(ctx, st);
      var after := if first.pc.ReadClock? then AfterClock(ctx, first.status, now) else first;
      match CursorDecision(|ctx.order|, Rank(ctx.order, st.activeClass), Sight(st.completed, expired))
      case Select(i) =>
        && after.pc.WriteHandler? && Rank(ctx.order, after.status.activeClass) == i
        && after.status == st.(activeClass := after.status.activeClass)
      case Expire => after == Local(WriteHandler, st.(completed := true))
      case Wait => after == Local(Done(false), st)
      case Perform => after == Local(GetPodAgain, st)
  {
    WellFormedIsWellNamed(ctx);
    HandlerDecidesByName(ctx, st, now);
    var decision := CursorDecision(|ctx.order|, Rank(ctx.order, st.activeClass), Sight(st.completed, false));
    if decision.Select? {
      RankOfSelected(ctx.order, decision.rank);
    }
  }

  lemma {:induction false} RunsAgree(order: seq<InterceptorValue>, active: Option<string>, sights: seq<Sight>)
    requires WellNamed(order) && order != []
    ensures NameRun(order, active, sights) == CursorRun(|order|, Rank(order, active), sights)
    decreases |sights|
  {
    if sights != [] {
      var d := NameDecision(order, active, sights[0]);
      assert d == CursorDecision(|order|, Rank(order, active), sights[0]);
      if d.Select? {
        RankOfSelected(order, d.rank);
        RunsAgree(order, Some(order[d.rank].interceptorClass), sights[1..]);
      } else {
        RunsAgree(order, active, sights[1..]);
      }
    }
  }

  function AllCompleted(n: nat): seq<Sight> {
    if n == 0 then [] else [Sight(true, false)] + AllCompleted(n - 1)
  }

  /** With every interceptor completing at once, the machines part at the first misnamed rank. */
  lemma {:induction false} RunsDiverge(order: seq<InterceptorValue>, i: int, bad: nat)
    requires -1 <= i <= bad < |order|
    requires NamedBelow(order, bad) && !NamedBelow(order, bad + 1)
    ensures NameRun(order, if i < 0 then None else Some(order[i].interceptorClass), AllCompleted(bad - i + 1))
         != CursorRun(|order|, i, AllCompleted(bad - i + 1))
    decreases bad - i
  {
    var active := if i < 0 then None else Some(order[i].interceptorClass);
    var sights := AllCompleted(bad - i + 1);
    var rest := sights[1..];
    assert rest == AllCompleted(bad - i);
    var names, cursors := NameRun(order, active, sights), CursorRun(|order|, i, sights);
    if i == bad {
      assert names[0] != cursors[0];
    } else {
      RunsDiverge(order, i + 1, bad);
      assert names[1..] == NameRun(order, Some(order[i + 1].interceptorClass), rest);
      assert cursors[1..] == CursorRun(|order|, i + 1, rest);
    }
  }

  lemma FirstMisnamed(order: seq<InterceptorValue>) returns (bad: nat)
    requires !WellNamed(order)
    ensures bad < |order| && NamedBelow(order, bad) && !NamedBelow(order, bad + 1)
  {
    bad := 0;
    while NamedBelow(order, bad + 1)
      invariant bad < |order| && NamedBelow(order, bad)
      decreases |order| - bad
    {
      bad := bad + 1;
    }
  }

  /** Storing the class name is as good as storing an index into one fixed sorted list exactly when
      the classes are distinct and non-empty. */
  lemma NamesRefineCursor(order: seq<InterceptorValue>)
    requires order != []
    ensures DistinctClasses(order) && NamedClasses(order) <==>
      forall sights: seq<Sight> :: NameRun(order, None, sights) == CursorRun(|order|, -1, sights)
  {
    WellNamedIffDistinct(order);
    if WellNamed(order) {
      forall sights: seq<Sight> ensures NameRun(order, None, sights) == CursorRun(|order|, -1, sights) {
        RunsAgree(order, None, sights);
      }
    } else {
      var bad := FirstMisnamed(order);
      RunsDiverge(order, -1, bad);
    }
  }

  // ---- Order independence ----

  lemma {:induction false} FinishDependsOnOrder(a: Context, b: Context, oracle: Oracle, run: Run)
    requires a.order == b.order
    requires b.spec == a.spec.(interceptors := b.spec.interceptors)
    ensures Finish(a, oracle, run) == Finish(b, oracle, run)
    decreases Remaining(run.local.pc)
  {
    if !run.local.pc.Done? {
      var input := oracle(|run.calls|);
      NextAdvances(a, run.local, input);
      assert Next(a, run.local, input) == Next(b, run.local, input);
      FinishDependsOnOrder(a, b, oracle, StepRun(a, oracle, run));
    }
  }

  /** Two requests whose interceptor lists are permutations of each other, with distinct priorities,
      run the same reconcile: same calls, same resulting copy, for every status and every answer. */
  lemma OrderIndependence(a: Context, b: Context, oracle: Oracle, st: Status)
    requires IsPriorityOrder(a.order, a.spec.interceptors) && IsPriorityOrder(b.order, b.spec.interceptors)
    requires multiset(a.spec.interceptors) == multiset(b.spec.interceptors)
    requires DistinctPriorities(a.order)
    requires b.spec == a.spec.(interceptors := b.spec.interceptors)
    ensures Finish(a, oracle, Run(Local(GetPod, st), [])) == Finish(b, oracle, Run(Local(GetPod, st), []))
  {
    PriorityOrderUnique(a.order, b.order);
    FinishDependsOnOrder(a, b, oracle, Run(Local(GetPod, st), []));
  }

  // ---- Progress ----

  /** All interceptors are through: what makes the controller evict. */
  predicate Final(order: seq<InterceptorValue>, st: Status) {
    st.completed && Rank(order, st.activeClass) >= |order| - 1
  }

  function Progress(order: seq<InterceptorValue>, st: Status): int {
    Rank(order, st.activeClass) + if st.completed then 1 else 0
  }

  /** Writes left before the controller calls Perform, if nobody else writes. */
  function Budget(ctx: Context, st: Status): int {
    (if st.policy.Unspecified? then 1 else 0)
    + (if Rank(ctx.order, st.activeClass) < |ctx.order| then |ctx.order| - 1 - Rank(ctx.order, st.activeClass) else 0)
    + (if st.completed then 0 else 1)
  }

  predicate PodMatches(ctx: Context, input: Input) {
    input.lookup.Found? && input.lookup.pod.uid == ctx.spec.podUid
  }

  predicate Performs(ctx: Context, st: Status) {
    !st.policy.Unspecified? && Final(ctx.order, st)
  }

  lemma BudgetBound(ctx: Context, st: Status)
    requires ctx.order != []
    ensures 0 <= Budget(ctx, st) <= |ctx.order| + 2
    ensures Performs(ctx, st) <==> Budget(ctx, st) == 0
  {
  }

  /** Each write spends exactly one unit of the budget, until Perform is reached. */
  lemma WriteSpends(ctx: Context, st: Status, input: Input)
    requires WellNamed(ctx.order) && ctx.order != []
    requires FirstWrite(ctx, st, input).Some?
    ensures var left := Budget(ctx, FirstWrite(ctx, st, input).value);
      left == if Performs(ctx, st) then 0 else Budget(ctx, st) - 1
  {
  }

  ghost predicate MayWrite(ctx: Context, before: Status, after: Status) {
    exists input :: FirstWrite(ctx, before, input) == Some(after)
  }

  /** Successive stored statuses when only the controller writes and every reconcile starts from the
      stored object; the clock and the pod cache may do anything. */
  ghost predicate QuietRun(ctx: Context, stored: seq<Status>) {
    forall v :: 1 <= v < |stored| ==> MayWrite(ctx, stored[v - 1], stored[v])
  }

  lemma {:induction false} QuietRunSpends(ctx: Context, stored: seq<Status>, v: nat)
    requires WellNamed(ctx.order) && ctx.order != []
    requires QuietRun(ctx, stored) && v < |stored|
    ensures Budget(ctx, stored[v]) == if v <= Budget(ctx, stored[0]) then Budget(ctx, stored[0]) - v else 0
    decreases v
  {
    BudgetBound(ctx, stored[0]);
    if v > 0 {
      QuietRunSpends(ctx, stored, v - 1);
      assert MayWrite(ctx, stored[v - 1], stored[v]);
      var input :| FirstWrite(ctx, stored[v - 1], input) == Some(stored[v]);
      BudgetBound(ctx, stored[v - 1]);
      WriteSpends(ctx, stored[v - 1], input);
    }
  }

  /** The controller is at Perform after exactly as many writes as the first status had left, never more
      than n + 2, and stays there. */
  lemma QuietRunIsShort(ctx: Context, stored: seq<Status>, v: nat)
    requires WellFormed(ctx) && ctx.order != []
    requires QuietRun(ctx, stored) && v < |stored|
    ensures 0 <= Budget(ctx, stored[0]) <= |ctx.order| + 2
    ensures Performs(ctx, stored[v]) <==> v >= Budget(ctx, stored[0])
  {
    WellFormedIsWellNamed(ctx);
    QuietRunSpends(ctx, stored, v);
    BudgetBound(ctx, stored[0]);
    BudgetBound(ctx, stored[v]);
  }

  // ---- When a reconcile evicts ----

  lemma {:induction false} NoEvictionFrom(ctx: Context, oracle: Oracle, run: Run)
    requires !HasEvicted(run.calls)
    requires run.local.pc.Done? || run.local.pc.WriteHandler? || run.local.pc.ReadClock?
    ensures !HasEvicted(Finish(ctx, oracle, run).calls)
    decreases Remaining(run.local.pc)
  {
    if !run.local.pc.Done? {
      NextAdvances(ctx, run.local, oracle(|run.calls|));
      NoEvictionFrom(ctx, oracle, StepRun(ctx, oracle, run));
    }
  }

  lemma EvictionFromLookup(ctx: Context, oracle: Oracle, run: Run)
    requires !HasEvicted(run.calls) && run.local.pc.GetPodAgain?
    ensures HasEvicted(Finish(ctx, oracle, run).calls) <==> oracle(|run.calls|).lookup.Found?
  {
    var next := StepRun(ctx, oracle, run);
    FinishStep(ctx, oracle, run);
    if oracle(|run.calls|).lookup.Found? {
      FinishStep(ctx, oracle, next);
      var called := StepRun(ctx, oracle, next);
      assert called.calls[|next.calls|].Evicting?;
      FinishExtends(ctx, oracle, called);
    } else {
      NoEvictionFrom(ctx, oracle, next);
    }
  }

  lemma EvictionFromDispatch(ctx: Context, oracle: Oracle, st: Status, calls: seq<Call>)
    requires !HasEvicted(calls)
    ensures HasEvicted(Finish(ctx, oracle, Run(Dispatch(ctx, st), calls)).calls) <==>
      (ctx.order == [] || Final(ctx.order, st)) && oracle(|calls|).lookup.Found?
  {
    var run := Run(Dispatch(ctx, st), calls);
    assert run.local.pc.GetPodAgain? <==> ctx.order == [] || Final(ctx.order, st);
    if run.local.pc.GetPodAgain? {
      EvictionFromLookup(ctx, oracle, run);
    } else {
      NoEvictionFrom(ctx, oracle, run);
    }
  }

  /** A reconcile of `st` calls the eviction API. */
  predicate Evicts(ctx: Context, oracle: Oracle, st: Status) {
    HasEvicted(Finish(ctx, oracle, Run(Local(GetPod, st), [])).calls)
  }

  /** The number of the call that looks the pod up again. */
  function SecondLookup(st: Status): nat {
    if st.policy.Unspecified? then 2 else 1
  }

  /** A reconcile calls the eviction API if and only if the first lookup finds the target, the policy is
      set or its default is stored, all interceptors are through, and the pod is found again. */
  lemma EvictsExactlyWhen(ctx: Context, oracle: Oracle, st: Status)
    ensures Evicts(ctx, oracle, st) <==>
      && PodMatches(ctx, oracle(0))
      && (st.policy.Unspecified? ==> oracle(1).written)
      && (ctx.order == [] || Final(ctx.order, st))
      && oracle(SecondLookup(st)).lookup.Found?
  {
    var start := Run(Local(GetPod, st), []);
    var looked := StepRun(ctx, oracle, start);
    FinishStep(ctx, oracle, start);
    if !PodMatches(ctx, oracle(0)) {
      NoEvictionFrom(ctx, oracle, looked);
    } else if st.policy.Unspecified? {
      FinishStep(ctx, oracle, looked);
      var wrote := StepRun(ctx, oracle, looked);
      if oracle(1).written {
        EvictionFromDispatch(ctx, oracle, looked.local.status, wrote.calls);
      } else {
        NoEvictionFrom(ctx, oracle, wrote);
      }
    } else {
      EvictionFromDispatch(ctx, oracle, st, looked.calls);
    }
  }

  // ---- Completed requests ----

  /** Repeated reconciles of the stored object; `None` when one makes no write. */
  function Reconciles(ctx: Context, st: Status, inputs: seq<Input>): Option<Status>
    decreases |inputs|
  {
    if inputs == [] then Some(st)
    else
      match FirstWrite(ctx, st, inputs[0])
      case None => None
      case Some(next) => Reconciles(ctx, next, inputs[1..])
  }

  /** The class selected `k` handovers after rank `i`. */
  function ClassAfter(ctx: Context, st: Status, i: nat, k: nat): Option<string>
    requires i + k < |ctx.order|
  {
    if k == 0 then st.activeClass else Some(ctx.order[i + k].interceptorClass)
  }

  lemma {:induction false} HandoversInARow(ctx: Context, st: Status, i: nat, inputs: seq<Input>)
    requires WellNamed(ctx.order) && !st.policy.Unspecified? && st.completed
    requires Rank(ctx.order, st.activeClass) == i && i + |inputs| < |ctx.order|
    requires forall k :: 0 <= k < |inputs| ==> PodMatches(ctx, inputs[k])
    ensures Reconciles(ctx, st, inputs) == Some(st.(activeClass := ClassAfter(ctx, st, i, |inputs|)))
    decreases |inputs|
  {
    if inputs != [] {
      assert PodMatches(ctx, inputs[0]);
      var next := st.(activeClass := Some(ctx.order[i + 1].interceptorClass));
      assert FirstWrite(ctx, st, inputs[0]) == Some(next);
      RankOfSelected(ctx.order, i + 1);
      assert forall k :: 0 <= k < |inputs[1..]| ==> inputs[1..][k] == inputs[k + 1];
      HandoversInARow(ctx, next, i + 1, inputs[1..]);
    }
  }

  /** From rank i with `completed` set, the next k writes are the handovers to i+1 .. i+k, whatever the
      clock says: a handover leaves `completed` set, so no later interceptor is waited for. The reconcile
      after them evicts the pod it finds if and only if rank i+k is the last. */
  lemma {:induction false} CompletedSweeps(ctx: Context, st: Status, i: nat, inputs: seq<Input>, oracle: Oracle)
    requires WellFormed(ctx) && !st.policy.Unspecified? && st.completed
    requires Rank(ctx.order, st.activeClass) == i && i + |inputs| < |ctx.order|
    requires forall k :: 0 <= k < |inputs| ==> PodMatches(ctx, inputs[k])
    requires PodMatches(ctx, oracle(0)) && oracle(1).lookup.Found?
    ensures var last := st.(activeClass := ClassAfter(ctx, st, i, |inputs|));
      && Reconciles(ctx, st, inputs) == Some(last)
      && (Evicts(ctx, oracle, last) <==> i + |inputs| == |ctx.order| - 1)
  {
    WellFormedIsWellNamed(ctx);
    HandoversInARow(ctx, st, i, inputs);
    RankOfSelected(ctx.order, i + |inputs|);
    EvictsExactlyWhen(ctx, oracle, st.(activeClass := ClassAfter(ctx, st, i, |inputs|)));
  }
}
