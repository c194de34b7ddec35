/** When status writes fail only by being stale, the concurrent controller is a sequential one. */
module Sequential {
  import opened Types
  import opened Reconcile
  import opened Cursor
  import opened System
  import opened Invariants
  import opened Protocol
  import opened Chains

  // ---- The sequential machine ----

  /** A version is the first write of a reconcile of the one before, or an update by an interceptor. */
  ghost predicate SequentialStep(ctx: Context, before: Status, after: Status, author: Author) {
    match author
    case Creator => false
    case InterceptorWrote => after.activeClass == before.activeClass
    case Controller(_, _, _, _, _, _, at) => SequentialWrite(ctx, before, after, at)
  }

  ghost predicate SequentialHistory(ctx: Context, history: seq<Status>, authors: seq<Author>) {
    && |history| == |authors|
    && forall v :: 1 <= v < |history| ==> SequentialStep(ctx, history[v - 1], history[v], authors[v])
  }

  // ---- Copies of the stored version have not written ----

  lemma CountedReportDiffers(b: Status, now: int)
    ensures Reported(b, false, now) != b
  {
  }

  /** A no-op write can only repeat a success report. */
  lemma UnchangedIsReport(ctx: Context, b: Status, clock: int, st: Status, pc: Pc, failures: nat)
    requires FreshAt(ctx, b, clock, st, pc, failures) && IsWrite(pc) && st == b
    ensures !pc.WritePolicy? && failures == 0
  {
    forall now ensures Reported(b, false, now) != b {
      CountedReportDiffers(b, now);
    }
  }

  /** A copy of the stored version that has not written is done when its write has no effect. */
  lemma UnchangedFinishes(ctx: Context, b: Status, clock: int, it: Item, input: Input, fate: Fate, revision: nat)
    requires it.phase.Running? && IsWrite(it.phase.pc) && it.tried == 0 && !it.won && it.status == b
    requires ItemChained(ctx, b, clock, it) && input.written
    ensures Finished(AdvanceItem(ctx, it, input, fate, revision).phase)
  {
    var last, own :| SentLast(ctx, b, clock, it, last, own);
    UnchangedIsReport(ctx, b, clock, it.status, it.phase.pc, own);
  }

  ghost predicate Untried(history: seq<Status>, it: Item) {
    && it.base < |history|
    && it.refused <= it.tried
    && (it.tried > 0 ==> it.base < |history| - 1 || Finished(it.phase))
  }

  ghost predicate SequentialInv(ctx: Context, s: State) {
    && ChainsInv(ctx, s)
    && (forall k :: 0 <= k < |s.items| ==> Untried(s.history, s.items[k]))
    && (forall v :: 0 <= v < |s.authors| && ByController(s, v) ==> s.authors[v].tried == 0)
    && (forall i :: 0 <= i < |s.evictions| && s.evictions[i].base == s.evictions[i].version ==>
          s.evictions[i].refused == 0)
  }

  lemma SteppedUntried(ctx: Context, s: State, t: State, k: nat, lookupFails: bool, fate: Fate, evicted: bool)
    requires SequentialInv(ctx, s)
    requires var l := Advance(k, lookupFails, fate, evicted); Enabled(ctx, s, l) && StaleOnly(l)
    requires t == ApplyAdvance(ctx, s, k, lookupFails, fate, evicted)
    ensures Untried(t.history, t.items[k])
  {
    var it := s.items[k];
    assert Untried(s.history, it) && ItemChainOk(ctx, s.history, s.clock, it);
    if IsWrite(it.phase.pc) && fate.Unchanged? {
      var input := InputOf(ctx, s, lookupFails, fate, evicted);
      UnchangedFinishes(ctx, s.history[it.base], s.clock, it, input, fate, |s.pods| - 1);
    }
  }

  lemma AdvanceSequential(ctx: Context, s: State, t: State, k: nat, lookupFails: bool, fate: Fate, evicted: bool)
    requires SequentialInv(ctx, s) && ChainsInv(ctx, t)
    requires var l := Advance(k, lookupFails, fate, evicted); Enabled(ctx, s, l) && StaleOnly(l)
    requires t == ApplyAdvance(ctx, s, k, lookupFails, fate, evicted)
    ensures SequentialInv(ctx, t)
  {
    assert Untried(s.history, s.items[k]);
    SteppedUntried(ctx, s, t, k, lookupFails, fate, evicted);
  }

  lemma StepSequential(ctx: Context, s: State, l: Label)
    requires SequentialInv(ctx, s) && Enabled(ctx, s, l) && StaleOnly(l)
    ensures SequentialInv(ctx, Apply(ctx, s, l))
  {
    StepChains(ctx, s, l);
    if l.Advance? {
      AdvanceSequential(ctx, s, Apply(ctx, s, l), l.item, l.lookupFails, l.fate, l.evicted);
    }
  }

  lemma {:induction false} RunSequential(ctx: Context, s: State, labels: seq<Label>)
    requires SequentialInv(ctx, s) && Legal(ctx, s, labels)
    requires forall i :: 0 <= i < |labels| ==> StaleOnly(labels[i])
    ensures SequentialInv(ctx, Execute(ctx, s, labels))
    decreases |labels|
  {
    if labels != [] {
      StepSequential(ctx, s, labels[0]);
      RunSequential(ctx, Apply(ctx, s, labels[0]), labels[1..]);
    }
  }

  lemma ReachableSequential(ctx: Context, s: State)
    requires Reachable(ctx, s, true)
    ensures SequentialInv(ctx, s)
  {
    var s0, labels :| RunsTo(ctx, s0, labels, s, true);
    assert SequentialInv(ctx, s0);
    RunSequential(ctx, s0, labels);
  }

  /** A row of one. */
  lemma ChainOfOne(ctx: Context, b: Status, st: Status, at: int)
    requires Chain(ctx, b, st, 1, at)
    ensures SequentialWrite(ctx, b, st, at)
  {
    var before :| Row(WriteBy(ctx, at), b, before, 0) && WriteBy(ctx, at)(before, st);
  }

  /** Every stored controller write, for any number of workers and stale copies, is the first write one
      reconcile of the then stored object could make, and counts at most one failed eviction. */
  lemma ConcurrentRefinesSequential(ctx: Context, s: State)
    requires WellFormed(ctx) && Reachable(ctx, s, true)
    ensures SequentialHistory(ctx, s.history, s.authors)
    ensures forall v :: 1 <= v < |s.history| && ByController(s, v) ==> s.authors[v].failures <= 1
  {
    ReachableSequential(ctx, s);
    ReachableInv(ctx, s, true);
    forall v | 1 <= v < |s.history|
      ensures SequentialStep(ctx, s.history[v - 1], s.history[v], s.authors[v])
      ensures ByController(s, v) ==> s.authors[v].failures <= 1
    {
      assert VersionOk(ctx, s, v);
      assert VersionChained(ctx, s.history, s.authors, v);
      if ByController(s, v) {
        ChainOfOne(ctx, s.history[v - 1], s.history[v], s.authors[v].at);
      }
    }
  }

  /** In particular a copy of the stored version evicts only a request whose stored status is final. */
  lemma FreshCopyEvictsInTurn(ctx: Context, s: State, i: nat)
    requires WellFormed(ctx) && Reachable(ctx, s, true)
    requires i < |s.evictions| && ctx.order != [] && s.evictions[i].base == s.evictions[i].version
    ensures s.evictions[i].version < |s.history| && Final(ctx.order, s.history[s.evictions[i].version])
  {
    ReachableSequential(ctx, s);
    EvictionAgainstStored(ctx, s, true, i);
  }

  /** When only the controller writes, a reconcile of version v evicts the pod it finds if and only if v is
      past the number of writes the first version had left, at most n + 2. (Only a request as created can
      lack a policy; its default is one of these writes.) */
  lemma QuietSystemIsShort(ctx: Context, s: State, v: nat, oracle: Oracle)
    requires WellFormed(ctx) && Reachable(ctx, s, true) && ctx.order != []
    requires v < |s.history| && forall w :: 1 <= w < |s.history| ==> ByController(s, w)
    requires PodMatches(ctx, oracle(0)) && oracle(1).lookup.Found?
    ensures 0 <= Budget(ctx, s.history[0]) <= |ctx.order| + 2
    ensures v > 0 || !s.history[v].policy.Unspecified? ==>
      (Evicts(ctx, oracle, s.history[v]) <==> v >= Budget(ctx, s.history[0]))
  {
    ConcurrentRefinesSequential(ctx, s);
    forall w | 1 <= w < |s.history| ensures MayWrite(ctx, s.history[w - 1], s.history[w]) {
      assert ByController(s, w) && SequentialStep(ctx, s.history[w - 1], s.history[w], s.authors[w]);
    }
    if v > 0 {
      NoLostUpdates(ctx, s, true, v);
    }
    QuietRunIsShort(ctx, s.history, v);
    EvictsExactlyWhen(ctx, oracle, s.history[v]);
  }

  // ---- Ordered handover ----

  function Classes(order: seq<InterceptorValue>): seq<string> {
    seq(|order|, i requires 0 <= i < |order| => order[i].interceptorClass)
  }

  /** The successive distinct active classes of a history. */
  function Handovers(history: seq<Status>): seq<string> {
    if history == [] then []
    else
      var earlier := Handovers(history[..|history| - 1]);
      var active := history[|history| - 1].activeClass;
      if NoActive(active) || (earlier != [] && earlier[|earlier| - 1] == active.value) then earlier
      else earlier + [active.value]
  }

  /** The class stays, or moves from a listed rank (or none) to the next one. */
  ghost predicate MovesOneRank(ctx: Context, before: Status, after: Status) {
    var rank := Rank(ctx.order, before.activeClass);
    rank < |ctx.order| ==>
      after.activeClass == before.activeClass
      || (rank + 1 < |ctx.order| && after.activeClass == Some(ctx.order[rank + 1].interceptorClass))
  }

  lemma SequentialStepMovesOneRank(ctx: Context, before: Status, after: Status, author: Author)
    requires SequentialStep(ctx, before, after, author)
    ensures MovesOneRank(ctx, before, after)
  {
  }

  ghost predicate OrderedHistory(ctx: Context, history: seq<Status>) {
    forall v :: 1 <= v < |history| ==> MovesOneRank(ctx, history[v - 1], history[v])
  }

  /** One more stored class. */
  lemma HandoverExtends(ctx: Context, earlier: seq<string>, before: Option<string>, after: Option<string>)
    requires WellNamed(ctx.order)
    requires var rank := Rank(ctx.order, before);
      && rank < |ctx.order| && earlier == Classes(ctx.order)[..rank + 1]
      && (after == before
          || (rank + 1 < |ctx.order| && after == Some(ctx.order[rank + 1].interceptorClass)))
    ensures var rank := Rank(ctx.order, after);
      && rank < |ctx.order|
      && Classes(ctx.order)[..rank + 1] ==
         if NoActive(after) || (earlier != [] && earlier[|earlier| - 1] == after.value) then earlier
         else earlier + [after.value]
  {
  }

  lemma {:induction false} HandoversArePrefix(ctx: Context, history: seq<Status>)
    requires WellNamed(ctx.order) && OrderedHistory(ctx, history)
    requires history != [] && NoActive(history[0].activeClass)
    ensures var rank := Rank(ctx.order, history[|history| - 1].activeClass);
      rank < |ctx.order| && Handovers(history) == Classes(ctx.order)[..rank + 1]
    decreases |history|
  {
    var n := |history| - 1;
    if n == 0 {
      assert Handovers(history[..0]) == [];
    } else {
      var front := history[..n];
      assert front[|front| - 1] == history[n - 1];
      forall v | 1 <= v < n ensures MovesOneRank(ctx, front[v - 1], front[v]) {
        assert MovesOneRank(ctx, history[v - 1], history[v]);
      }
      HandoversArePrefix(ctx, front);
      assert MovesOneRank(ctx, history[n - 1], history[n]);
      HandoverExtends(ctx, Handovers(front), history[n - 1].activeClass, history[n].activeClass);
    }
  }

  /** From an object without an active class, the distinct classes ever stored are a prefix of the
      priority-sorted list: each once, none skipped, in order. */
  lemma HandoverIsOrdered(ctx: Context, s: State)
    requires WellFormed(ctx) && Reachable(ctx, s, true)
    requires s.history != [] && NoActive(s.history[0].activeClass)
    ensures var rank := Rank(ctx.order, s.history[|s.history| - 1].activeClass);
      rank < |ctx.order| && Handovers(s.history) == Classes(ctx.order)[..rank + 1]
  {
    WellFormedIsWellNamed(ctx);
    ConcurrentRefinesSequential(ctx, s);
    forall v | 1 <= v < |s.history| ensures MovesOneRank(ctx, s.history[v - 1], s.history[v]) {
      SequentialStepMovesOneRank(ctx, s.history[v - 1], s.history[v], s.authors[v]);
    }
    HandoversArePrefix(ctx, s.history);
  }
}
