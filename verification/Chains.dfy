/** Whatever fails, the status of a copy is what a row of reconciles of its snapshot would write, each
    starting from what the one before it wrote. */
module Chains {
  import opened Types
  import opened Reconcile
  import opened Cursor
  import opened System
  import opened Protocol

  // ---- Rows of first writes ----

  /** One reconcile of `before`, run alone by time `at`, may write `after` first. */
  ghost predicate SequentialWrite(ctx: Context, before: Status, after: Status, at: int) {
    exists input :: PodMatches(ctx, input) && input.now <= at && FirstWrite(ctx, before, input) == Some(after)
  }

  /** `n` steps in a row lead from `a` to `b`. */
  ghost predicate Row<T(!new)>(step: (T, T) -> bool, a: T, b: T, n: nat)
    decreases n
  {
    if n == 0 then a == b else exists before :: Row(step, a, before, n - 1) && step(before, b)
  }

  lemma {:induction false} RowWeakens<T(!new)>(step: (T, T) -> bool, weaker: (T, T) -> bool, a: T, b: T, n: nat)
    requires Row(step, a, b, n) && forall x, y :: step(x, y) ==> weaker(x, y)
    ensures Row(weaker, a, b, n)
    decreases n
  {
    if n > 0 {
      var before :| Row(step, a, before, n - 1) && step(before, b);
      RowWeakens(step, weaker, a, before, n - 1);
    }
  }

  ghost function WriteBy(ctx: Context, at: int): (Status, Status) -> bool {
    (before, after) => SequentialWrite(ctx, before, after, at)
  }

  /** `n` such writes in a row lead from `b` to `st`. */
  ghost predicate Chain(ctx: Context, b: Status, st: Status, n: nat, at: int) {
    Row(WriteBy(ctx, at), b, st, n)
  }

  lemma ChainGrows(ctx: Context, b: Status, before: Status, st: Status, n: nat, at: int)
    requires Chain(ctx, b, before, n, at) && SequentialWrite(ctx, before, st, at)
    ensures Chain(ctx, b, st, n + 1, at)
  {
    assert WriteBy(ctx, at)(before, st);
  }

  lemma WriteLater(ctx: Context, before: Status, after: Status, at: int, later: int)
    requires SequentialWrite(ctx, before, after, at) && at <= later
    ensures SequentialWrite(ctx, before, after, later)
  {
  }

  lemma {:induction false} ChainLater(ctx: Context, b: Status, st: Status, n: nat, at: int, later: int)
    requires Chain(ctx, b, st, n, at) && at <= later
    ensures Chain(ctx, b, st, n, later)
  {
    forall x, y | WriteBy(ctx, at)(x, y) ensures WriteBy(ctx, later)(x, y) {
      WriteLater(ctx, x, y, at, later);
    }
    RowWeakens(WriteBy(ctx, at), WriteBy(ctx, later), b, st, n);
  }

  // ---- A copy since the status it sent last, or was copied with ----

  ghost predicate FreshAt(ctx: Context, b: Status, clock: int, st: Status, pc: Pc, failures: nat) {
    match pc
    case GetPod => st == b && failures == 0
    case Done(_) => st == b && failures == 0
    case WritePolicy => b.policy.Unspecified? && st == b.(policy := Allow) && failures == 0
    case ReadClock => !b.policy.Unspecified? && Dispatch(ctx, b) == Local(ReadClock, st) && failures == 0
    case WriteHandler =>
      && !b.policy.Unspecified?
      && failures == 0
      && (Dispatch(ctx, b) == Local(WriteHandler, st)
          || (Dispatch(ctx, b) == Local(ReadClock, b) && AfterClock(ctx, b, clock) == Local(WriteHandler, st)))
    case GetPodAgain => !b.policy.Unspecified? && Dispatch(ctx, b) == Local(GetPodAgain, st) && failures == 0
    case Evict(_) => !b.policy.Unspecified? && Dispatch(ctx, b) == Local(GetPodAgain, st) && failures == 0
    case Stamp(evicted) =>
      && !b.policy.Unspecified? && Dispatch(ctx, b) == Local(GetPodAgain, st)
      && failures == if evicted then 0 else 1
    case WriteReport(evicted) =>
      && !b.policy.Unspecified? && Dispatch(ctx, b) == Local(GetPodAgain, b)
      && failures == (if evicted then 0 else 1)
      && exists now :: now <= clock && st == Reported(b, evicted, now)
  }

  lemma DispatchIsQuiet(ctx: Context, b: Status)
    ensures !Dispatch(ctx, b).pc.WriteHandler? ==> Dispatch(ctx, b).status == b
    ensures var pc := Dispatch(ctx, b).pc; pc.ReadClock? || pc.GetPodAgain? || pc.WriteHandler? || pc == Done(false)
  {
  }

  lemma FreshFirstLookup(ctx: Context, b: Status, clock: int, input: Input)
    ensures var next := AfterFirstLookup(ctx, b, input.lookup); FreshAt(ctx, b, clock, next.status, next.pc, 0)
  {
    DispatchIsQuiet(ctx, b);
  }

  /** An interaction that is not a write. */
  lemma FreshStep(ctx: Context, b: Status, clock: int, local: Local, input: Input, failures: nat)
    requires FreshAt(ctx, b, clock, local.status, local.pc, failures)
    requires !IsWrite(local.pc) && !local.pc.Done? && input.now == clock
    ensures var next := Next(ctx, local, input);
      FreshAt(ctx, b, clock, next.status, next.pc, failures + if local.pc.Evict? && !input.evicted then 1 else 0)
  {
    DispatchIsQuiet(ctx, b);
    match local.pc {
      case GetPod => FreshFirstLookup(ctx, b, clock, input);
      case Stamp(evicted) => assert Next(ctx, local, input).status == Reported(b, evicted, clock);
      case ReadClock =>
      case GetPodAgain =>
      case Evict(_) =>
    }
  }

  /** A write, whatever becomes of it, starts anew from what was sent. */
  lemma FreshAfterWrite(ctx: Context, b: Status, clock: int, local: Local, input: Input, failures: nat)
    requires FreshAt(ctx, b, clock, local.status, local.pc, failures) && IsWrite(local.pc)
    ensures var next := Next(ctx, local, input); FreshAt(ctx, local.status, clock, next.status, next.pc, 0)
  {
    DispatchIsQuiet(ctx, local.status);
  }

  lemma HandlerWriteIsFirst(ctx: Context, b: Status, st: Status, input: Input)
    requires PodMatches(ctx, input) && !b.policy.Unspecified?
    requires Dispatch(ctx, b) == Local(WriteHandler, st)
      || (Dispatch(ctx, b) == Local(ReadClock, b) && AfterClock(ctx, b, input.now) == Local(WriteHandler, st))
    ensures FirstWrite(ctx, b, input) == Some(st)
  {
  }

  /** What such a copy writes is a first write of that status. */
  lemma FreshWriteIsSequential(ctx: Context, b: Status, clock: int, st: Status, pc: Pc, failures: nat)
    requires FreshAt(ctx, b, clock, st, pc, failures) && IsWrite(pc)
    ensures SequentialWrite(ctx, b, st, clock) && failures <= 1
  {
    var pod := Found(Pod(ctx.spec.namespace, ctx.spec.podName, ctx.spec.podUid));
    match pc {
      case WritePolicy =>
        var input := Input(pod, true, true, clock);
        assert FirstWrite(ctx, b, input) == Some(st);
      case WriteHandler =>
        var input := Input(pod, true, true, clock);
        HandlerWriteIsFirst(ctx, b, st, input);
      case WriteReport(evicted) =>
        var now :| now <= clock && st == Reported(b, evicted, now);
        var input := Input(pod, true, evicted, now);
        assert FirstWrite(ctx, b, input) == Some(st);
    }
  }

  /** The copy sent `last` last, or was copied with it, and has had `own` eviction calls fail since. */
  ghost predicate SentLast(ctx: Context, b: Status, clock: int, it: Item, last: Status, own: nat) {
    && Chain(ctx, b, last, it.tried, clock)
    && own <= it.failures <= it.tried + own
    && (it.phase.Queued? ==> it.status == last && own == 0)
    && (it.phase.Running? ==> FreshAt(ctx, last, clock, it.status, it.phase.pc, own))
  }

  lemma SentLastLater(ctx: Context, b: Status, clock: int, it: Item, last: Status, own: nat, later: int)
    requires SentLast(ctx, b, clock, it, last, own) && clock <= later
    ensures SentLast(ctx, b, later, it, last, own)
  {
    ChainLater(ctx, b, last, it.tried, clock, later);
  }

  lemma SentLastWrites(ctx: Context, b: Status, clock: int, it: Item, input: Input, fate: Fate, revision: nat,
        last: Status, own: nat)
    requires it.phase.Running? && IsWrite(it.phase.pc)
    requires SentLast(ctx, b, clock, it, last, own)
    ensures SentLast(ctx, b, clock, AdvanceItem(ctx, it, input, fate, revision), it.status, 0)
  {
    FreshAfterWrite(ctx, last, clock, Local(it.phase.pc, it.status), input, own);
    FreshWriteIsSequential(ctx, last, clock, it.status, it.phase.pc, own);
    ChainGrows(ctx, b, last, it.status, it.tried, clock);
  }

  lemma SentLastSteps(ctx: Context, b: Status, clock: int, it: Item, input: Input, fate: Fate, revision: nat,
        last: Status, own: nat)
    requires it.phase.Running? && !it.phase.pc.Done? && !IsWrite(it.phase.pc) && input.now == clock
    requires SentLast(ctx, b, clock, it, last, own)
    ensures var more := if it.phase.pc.Evict? && !input.evicted then 1 else 0;
      SentLast(ctx, b, clock, AdvanceItem(ctx, it, input, fate, revision), last, own + more)
  {
    FreshStep(ctx, last, clock, Local(it.phase.pc, it.status), input, own);
  }

  // ---- The whole state ----

  ghost predicate ItemChained(ctx: Context, b: Status, clock: int, it: Item) {
    !it.won ==> exists last, own :: SentLast(ctx, b, clock, it, last, own)
  }

  ghost predicate ItemChainOk(ctx: Context, history: seq<Status>, clock: int, it: Item) {
    && it.base < |history|
    && (it.won ==> it.base < |history| - 1)
    && ItemChained(ctx, history[it.base], clock, it)
  }

  ghost predicate ItemsChained(ctx: Context, s: State) {
    forall k :: 0 <= k < |s.items| ==> ItemChainOk(ctx, s.history, s.clock, s.items[k])
  }

  ghost predicate VersionChained(ctx: Context, history: seq<Status>, authors: seq<Author>, v: nat)
    requires v < |history| == |authors|
  {
    authors[v].Controller? ==>
      && v > 0
      && Chain(ctx, history[v - 1], history[v], authors[v].tried + 1, authors[v].at)
      && authors[v].failures <= authors[v].tried + 1
  }

  ghost predicate VersionsChained(ctx: Context, s: State) {
    && |s.history| == |s.authors|
    && forall v :: 0 <= v < |s.history| ==> VersionChained(ctx, s.history, s.authors, v)
  }

  ghost predicate ChainsInv(ctx: Context, s: State) {
    s.history != [] && ItemsChained(ctx, s) && VersionsChained(ctx, s)
  }

  lemma ItemChainGrows(ctx: Context, s: State, t: State, it: Item)
    requires ItemChainOk(ctx, s.history, s.clock, it) && s.history <= t.history && s.clock <= t.clock
    ensures ItemChainOk(ctx, t.history, t.clock, it)
  {
    if !it.won {
      var b := s.history[it.base];
      var last, own :| SentLast(ctx, b, s.clock, it, last, own);
      SentLastLater(ctx, b, s.clock, it, last, own, t.clock);
    }
  }

  lemma ItemChainsGrow(ctx: Context, s: State, t: State)
    requires ItemsChained(ctx, s) && s.history <= t.history && s.clock <= t.clock
    ensures forall k :: 0 <= k < |s.items| ==> ItemChainOk(ctx, t.history, t.clock, s.items[k])
  {
    forall k | 0 <= k < |s.items| ensures ItemChainOk(ctx, t.history, t.clock, s.items[k]) {
      ItemChainGrows(ctx, s, t, s.items[k]);
    }
  }

  lemma VersionsAppend(ctx: Context, s: State, t: State)
    requires VersionsChained(ctx, s)
    requires s.history <= t.history && s.authors <= t.authors && |t.history| == |t.authors| <= |s.history| + 1
    requires |t.history| == |s.history| + 1 ==> VersionChained(ctx, t.history, t.authors, |s.history|)
    ensures VersionsChained(ctx, t)
  {
    forall v | 0 <= v < |t.history| ensures VersionChained(ctx, t.history, t.authors, v) {
      if v < |s.history| {
        assert VersionChained(ctx, s.history, s.authors, v);
        assert t.history[v] == s.history[v] && t.authors[v] == s.authors[v];
        assert v > 0 ==> t.history[v - 1] == s.history[v - 1];
      }
    }
  }

  lemma SteppedChained(ctx: Context, b: Status, clock: int, it: Item, input: Input, fate: Fate, revision: nat)
    requires it.phase.Running? && !it.phase.pc.Done?
    requires ItemChained(ctx, b, clock, it) && input.now == clock
    ensures ItemChained(ctx, b, clock, AdvanceItem(ctx, it, input, fate, revision))
  {
    if !it.won {
      var last, own :| SentLast(ctx, b, clock, it, last, own);
      if IsWrite(it.phase.pc) {
        SentLastWrites(ctx, b, clock, it, input, fate, revision, last, own);
      } else {
        SentLastSteps(ctx, b, clock, it, input, fate, revision, last, own);
      }
    }
  }

  lemma AdvanceItemsChained(ctx: Context, s: State, t: State, k: nat, lookupFails: bool, fate: Fate, evicted: bool)
    requires ItemsChained(ctx, s)
    requires Enabled(ctx, s, Advance(k, lookupFails, fate, evicted))
    requires t == ApplyAdvance(ctx, s, k, lookupFails, fate, evicted)
    ensures ItemsChained(ctx, t)
  {
    ItemChainsGrow(ctx, s, t);
    var it := s.items[k];
    assert ItemChainOk(ctx, s.history, s.clock, it);
    var input := InputOf(ctx, s, lookupFails, fate, evicted);
    SteppedChained(ctx, s.history[it.base], s.clock, it, input, fate, |s.pods| - 1);
    assert t.history[it.base] == s.history[it.base];
    assert ItemChainOk(ctx, t.history, t.clock, t.items[k]);
  }

  /** What a copy at a write sends next. */
  lemma SendingChained(ctx: Context, b: Status, clock: int, it: Item)
    requires ItemChained(ctx, b, clock, it) && !it.won && it.phase.Running? && IsWrite(it.phase.pc)
    ensures Chain(ctx, b, it.status, it.tried + 1, clock) && it.failures <= it.tried + 1
  {
    var last, own :| SentLast(ctx, b, clock, it, last, own);
    FreshWriteIsSequential(ctx, last, clock, it.status, it.phase.pc, own);
    ChainGrows(ctx, b, last, it.status, it.tried, clock);
  }

  lemma AdvanceVersionsChained(ctx: Context, s: State, t: State, k: nat, lookupFails: bool, fate: Fate, evicted: bool)
    requires ChainsInv(ctx, s)
    requires Enabled(ctx, s, Advance(k, lookupFails, fate, evicted))
    requires t == ApplyAdvance(ctx, s, k, lookupFails, fate, evicted)
    ensures VersionsChained(ctx, t)
  {
    var it := s.items[k];
    if IsWrite(it.phase.pc) && Stores(fate) {
      var v := |s.history|;
      assert ItemChainOk(ctx, s.history, s.clock, it);
      SendingChained(ctx, s.history[it.base], s.clock, it);
      assert t.history[v - 1] == s.history[it.base] && t.history[v] == it.status;
    }
    VersionsAppend(ctx, s, t);
  }

  lemma EnqueueChains(ctx: Context, s: State, v: nat)
    requires ItemsChained(ctx, s) && v < |s.history|
    ensures ItemsChained(ctx, s.(items := s.items + [Copy(s.history[v], v)]))
  {
    assert SentLast(ctx, s.history[v], s.clock, Copy(s.history[v], v), s.history[v], 0);
    assert ItemChainOk(ctx, s.history, s.clock, Copy(s.history[v], v));
  }

  lemma BeginChains(ctx: Context, s: State, k: nat)
    requires ItemsChained(ctx, s) && k < |s.items| && s.items[k].phase.Queued?
    ensures ItemsChained(ctx, s.(items := s.items[k := BeginItem(s.items[k])]))
  {
    var it := s.items[k];
    assert ItemChainOk(ctx, s.history, s.clock, it);
    if !it.won {
      var last, own :| SentLast(ctx, s.history[it.base], s.clock, it, last, own);
      assert SentLast(ctx, s.history[it.base], s.clock, BeginItem(it), last, own);
    }
    assert ItemChainOk(ctx, s.history, s.clock, BeginItem(it));
  }

  lemma EndChains(ctx: Context, s: State, k: nat)
    requires ItemsChained(ctx, s) && k < |s.items| && s.items[k].phase.Running? && s.items[k].phase.pc.Done?
    ensures ItemsChained(ctx, s.(items := s.items[k := EndItem(s.items[k])]))
  {
    var it := s.items[k];
    assert ItemChainOk(ctx, s.history, s.clock, it);
    if !it.won {
      var last, own :| SentLast(ctx, s.history[it.base], s.clock, it, last, own);
      assert SentLast(ctx, s.history[it.base], s.clock, EndItem(it), last, own);
    }
    assert ItemChainOk(ctx, s.history, s.clock, EndItem(it));
  }

  lemma StepChains(ctx: Context, s: State, l: Label)
    requires ChainsInv(ctx, s) && Enabled(ctx, s, l)
    ensures ChainsInv(ctx, Apply(ctx, s, l))
  {
    var t := Apply(ctx, s, l);
    match l {
      case Advance(k, lookupFails, fate, evicted) =>
        AdvanceItemsChained(ctx, s, t, k, lookupFails, fate, evicted);
        AdvanceVersionsChained(ctx, s, t, k, lookupFails, fate, evicted);
      case Enqueue(v) => EnqueueChains(ctx, s, v);
      case Begin(k) => BeginChains(ctx, s, k);
      case End(k) => EndChains(ctx, s, k);
      case Update(_) =>
        ItemChainsGrow(ctx, s, t);
        VersionsAppend(ctx, s, t);
      case Tick(_) => ItemChainsGrow(ctx, s, t);
      case Cache(_) =>
    }
  }

  lemma {:induction false} RunChains(ctx: Context, s: State, labels: seq<Label>)
    requires ChainsInv(ctx, s) && Legal(ctx, s, labels)
    ensures ChainsInv(ctx, Execute(ctx, s, labels))
    decreases |labels|
  {
    if labels != [] {
      StepChains(ctx, s, labels[0]);
      RunChains(ctx, Apply(ctx, s, labels[0]), labels[1..]);
    }
  }

  /** In every run, whatever fails: a stored controller write ends a row of first writes of the status stored
      before it, one longer than the writes its copy had sent earlier, and counts at most one failed
      eviction for each. */
  lemma ConcurrentRefinesChains(ctx: Context, s: State, staleOnly: bool, v: nat)
    requires Reachable(ctx, s, staleOnly) && ByController(s, v)
    ensures 0 < v < |s.history|
    ensures Chain(ctx, s.history[v - 1], s.history[v], s.authors[v].tried + 1, s.authors[v].at)
    ensures s.authors[v].failures <= s.authors[v].tried + 1
  {
    var s0, labels :| RunsTo(ctx, s0, labels, s, staleOnly);
    assert ChainsInv(ctx, s0);
    RunChains(ctx, s0, labels);
    assert VersionChained(ctx, s.history, s.authors, v);
  }
}
