/** What leaves the controller in any run: every call names the target, and every stored report of an
    eviction is true of one eviction call. */
module Effects {
  import opened Types
  import opened Reconcile
  import opened System
  import opened Invariants
  import opened Protocol
  import opened Script

  /** A lookup or an eviction names the target of the request. */
  predicate NamesTarget(ctx: Context, call: Call) {
    match call
    case Looked(namespace, name) => namespace == ctx.spec.namespace && name == ctx.spec.podName
    case Evicting(namespace, name) => namespace == ctx.spec.namespace && name == ctx.spec.podName
    case _ => true
  }

  /** An eviction has been called and its report not yet written. */
  predicate Awaiting(phase: Phase) {
    phase.Running? && (phase.pc.Stamp? || phase.pc.WriteReport?)
  }

  /** Call `i` of the log is one of copy `k`, made after `tried` status writes, and ended so. */
  predicate IsCall(evictions: seq<EvictionCall>, i: nat, k: nat, tried: nat, succeeded: bool) {
    && i < |evictions|
    && evictions[i].item == k && evictions[i].tried == tried && evictions[i].succeeded == succeeded
  }

  ghost predicate Called(evictions: seq<EvictionCall>, k: nat, tried: nat, succeeded: bool) {
    exists i :: IsCall(evictions, i, k, tried, succeeded)
  }

  /** Two calls of one copy have a status write between them. */
  ghost predicate CallsApart(evictions: seq<EvictionCall>) {
    forall i, j :: 0 <= i < j < |evictions| && evictions[i].item == evictions[j].item ==>
      evictions[i].tried < evictions[j].tried
  }

  predicate IsTarget(ctx: Context, pod: Pod) {
    pod.namespace == ctx.spec.namespace && pod.name == ctx.spec.podName
  }

  ghost predicate ItemTells(ctx: Context, evictions: seq<EvictionCall>, k: nat, it: Item) {
    && (forall i :: 0 <= i < |it.calls| ==> NamesTarget(ctx, it.calls[i]))
    && (it.phase.Running? && it.phase.pc.Evict? ==> IsTarget(ctx, it.phase.pc.pod))
    && (it.phase.Running? && it.phase.pc.Stamp? ==> Called(evictions, k, it.tried, it.phase.pc.evicted))
    && (it.phase.Running? && it.phase.pc.WriteReport? ==>
          && Called(evictions, k, it.tried, it.phase.pc.evicted)
          && Announces(it.status, it.phase.pc.evicted))
  }

  ghost predicate CallKnown(items: seq<Item>, e: EvictionCall) {
    && e.item < |items|
    && e.tried <= items[e.item].tried
    && (e.tried == items[e.item].tried ==> Awaiting(items[e.item].phase))
  }

  ghost predicate VersionTells(s: State, v: nat)
    requires v < |s.history| == |s.authors|
  {
    s.authors[v].Controller? && s.authors[v].site.WriteReport? ==>
      && Called(s.evictions, s.authors[v].item, s.authors[v].tried, s.authors[v].site.evicted)
      && Announces(s.history[v], s.authors[v].site.evicted)
  }

  ghost predicate ItemsTell(ctx: Context, s: State) {
    forall k :: 0 <= k < |s.items| ==> ItemTells(ctx, s.evictions, k, s.items[k])
  }

  ghost predicate CallsKnown(s: State) {
    && (forall i :: 0 <= i < |s.evictions| ==> CallKnown(s.items, s.evictions[i]))
    && CallsApart(s.evictions)
  }

  ghost predicate VersionsTell(s: State) {
    && |s.history| == |s.authors|
    && forall v :: 0 <= v < |s.history| ==> VersionTells(s, v)
  }

  ghost predicate EffectsInv(ctx: Context, s: State) {
    && s.history != [] && CacheInv(ctx, s)
    && ItemsTell(ctx, s) && CallsKnown(s) && VersionsTell(s)
  }

  // ---- Growth of the log ----

  lemma CalledGrows(before: seq<EvictionCall>, after: seq<EvictionCall>, k: nat, tried: nat, succeeded: bool)
    requires before <= after && Called(before, k, tried, succeeded)
    ensures Called(after, k, tried, succeeded)
  {
    var i :| IsCall(before, i, k, tried, succeeded);
    assert IsCall(after, i, k, tried, succeeded);
  }

  lemma ItemTellsGrows(ctx: Context, before: seq<EvictionCall>, after: seq<EvictionCall>, k: nat, it: Item)
    requires ItemTells(ctx, before, k, it) && before <= after
    ensures ItemTells(ctx, after, k, it)
  {
    if Awaiting(it.phase) {
      CalledGrows(before, after, k, it.tried, it.phase.pc.evicted);
    }
  }

  lemma VersionsGrow(s: State, t: State)
    requires VersionsTell(s) && |t.history| == |t.authors|
    requires s.history <= t.history && s.authors <= t.authors && s.evictions <= t.evictions
    requires |s.history| < |t.history| ==> |t.history| == |s.history| + 1 && VersionTells(t, |s.history|)
    ensures VersionsTell(t)
  {
    forall v | 0 <= v < |s.history| ensures VersionTells(t, v) {
      assert VersionTells(s, v);
      var author := s.authors[v];
      if author.Controller? && author.site.WriteReport? {
        CalledGrows(s.evictions, t.evictions, author.item, author.tried, author.site.evicted);
      }
    }
  }

  // ---- A worker's interaction ----

  /** The next interaction has been prepared truly. */
  lemma NextTells(ctx: Context, s: State, it: Item, lookupFails: bool, fate: Fate, evicted: bool)
    requires s.pods != [] && Indexed(ctx, s.pods[|s.pods| - 1]) && it.phase.Running? && !it.phase.pc.Done?
    ensures var input := InputOf(ctx, s, lookupFails, fate, evicted);
      var next := Next(ctx, Local(it.phase.pc, it.status), input);
      && (next.pc.Evict? ==> it.phase.pc.GetPodAgain? && IsTarget(ctx, next.pc.pod))
      && (next.pc.Stamp? ==> it.phase.pc.Evict? && next.pc.evicted == evicted)
      && (next.pc.WriteReport? ==>
            it.phase == Running(Stamp(next.pc.evicted)) && Announces(next.status, next.pc.evicted))
  {
    if it.phase.pc.Stamp? {
      ReportIsTold(it.status, it.phase.pc.evicted, s.clock);
      ToldAnnounces(it.status, it.phase.pc.evicted, s.clock);
    }
  }

  lemma SteppedTells(ctx: Context, s: State, t: State, k: nat, lookupFails: bool, fate: Fate, evicted: bool)
    requires EffectsInv(ctx, s)
    requires Enabled(ctx, s, Advance(k, lookupFails, fate, evicted))
    requires t == ApplyAdvance(ctx, s, k, lookupFails, fate, evicted)
    ensures ItemTells(ctx, t.evictions, k, t.items[k])
  {
    var it := s.items[k];
    assert ItemTells(ctx, s.evictions, k, it);
    ItemTellsGrows(ctx, s.evictions, t.evictions, k, it);
    NextTells(ctx, s, it, lookupFails, fate, evicted);
    if it.phase.pc.Evict? {
      assert IsCall(t.evictions, |s.evictions|, k, it.tried, evicted);
    }
  }

  lemma AdvanceItemsTell(ctx: Context, s: State, t: State, k: nat, lookupFails: bool, fate: Fate, evicted: bool)
    requires EffectsInv(ctx, s)
    requires Enabled(ctx, s, Advance(k, lookupFails, fate, evicted))
    requires t == ApplyAdvance(ctx, s, k, lookupFails, fate, evicted)
    ensures ItemsTell(ctx, t)
  {
    SteppedTells(ctx, s, t, k, lookupFails, fate, evicted);
    forall j | 0 <= j < |t.items| && j != k ensures ItemTells(ctx, t.evictions, j, t.items[j]) {
      assert ItemTells(ctx, s.evictions, j, s.items[j]);
      ItemTellsGrows(ctx, s.evictions, t.evictions, j, s.items[j]);
    }
  }

  lemma AdvanceCallsKnown(ctx: Context, s: State, t: State, k: nat, lookupFails: bool, fate: Fate, evicted: bool)
    requires EffectsInv(ctx, s)
    requires Enabled(ctx, s, Advance(k, lookupFails, fate, evicted))
    requires t == ApplyAdvance(ctx, s, k, lookupFails, fate, evicted)
    ensures CallsKnown(t)
  {
    forall i | 0 <= i < |s.evictions| ensures CallKnown(t.items, s.evictions[i]) {
      assert CallKnown(s.items, s.evictions[i]);
    }
  }

  lemma AdvanceVersionsTell(ctx: Context, s: State, t: State, k: nat, lookupFails: bool, fate: Fate, evicted: bool)
    requires EffectsInv(ctx, s)
    requires Enabled(ctx, s, Advance(k, lookupFails, fate, evicted))
    requires t == ApplyAdvance(ctx, s, k, lookupFails, fate, evicted)
    ensures VersionsTell(t)
  {
    assert ItemTells(ctx, s.evictions, k, s.items[k]);
    VersionsGrow(s, t);
  }

  // ---- Runs ----

  /** Steps that make no call. */
  lemma QuietStepTells(ctx: Context, s: State, l: Label)
    requires EffectsInv(ctx, s) && Enabled(ctx, s, l) && !l.Advance?
    ensures EffectsInv(ctx, Apply(ctx, s, l))
  {
    var t := Apply(ctx, s, l);
    VersionsGrow(s, t);
    forall k | 0 <= k < |t.items| ensures ItemTells(ctx, t.evictions, k, t.items[k]) {
      assert k < |s.items| ==> ItemTells(ctx, s.evictions, k, s.items[k]);
    }
    forall i | 0 <= i < |t.evictions| ensures CallKnown(t.items, t.evictions[i]) {
      assert CallKnown(s.items, s.evictions[i]);
    }
  }

  lemma StepTells(ctx: Context, s: State, l: Label)
    requires EffectsInv(ctx, s) && Enabled(ctx, s, l)
    ensures EffectsInv(ctx, Apply(ctx, s, l))
  {
    if l.Advance? {
      var t := Apply(ctx, s, l);
      AdvanceItemsTell(ctx, s, t, l.item, l.lookupFails, l.fate, l.evicted);
      AdvanceCallsKnown(ctx, s, t, l.item, l.lookupFails, l.fate, l.evicted);
      AdvanceVersionsTell(ctx, s, t, l.item, l.lookupFails, l.fate, l.evicted);
    } else {
      QuietStepTells(ctx, s, l);
    }
  }

  lemma {:induction false} RunTells(ctx: Context, s: State, labels: seq<Label>)
    requires EffectsInv(ctx, s) && Legal(ctx, s, labels)
    ensures EffectsInv(ctx, Execute(ctx, s, labels))
    decreases |labels|
  {
    if labels != [] {
      StepTells(ctx, s, labels[0]);
      RunTells(ctx, Apply(ctx, s, labels[0]), labels[1..]);
    }
  }

  lemma ReachableTells(ctx: Context, s: State, staleOnly: bool)
    requires Reachable(ctx, s, staleOnly)
    ensures EffectsInv(ctx, s)
  {
    var s0, labels :| RunsTo(ctx, s0, labels, s, staleOnly);
    assert EffectsInv(ctx, s0);
    RunTells(ctx, s0, labels);
  }

  /** In every run each lookup and each eviction call of every attempt names the target. */
  lemma EveryCallNamesTarget(ctx: Context, s: State, staleOnly: bool, k: nat, i: nat)
    requires Reachable(ctx, s, staleOnly) && k < |s.items| && i < |s.items[k].calls|
    ensures match s.items[k].calls[i]
      case Looked(namespace, name) => namespace == ctx.spec.namespace && name == ctx.spec.podName
      case Evicting(namespace, name) => namespace == ctx.spec.namespace && name == ctx.spec.podName
      case _ => true
  {
    ReachableTells(ctx, s, staleOnly);
    assert ItemTells(ctx, s.evictions, k, s.items[k]);
    assert NamesTarget(ctx, s.items[k].calls[i]);
  }

  /** In every run a stored report says how one eviction call ended, the only one its copy made between its
      previous status write and the report. */
  lemma StoredReportIsTrue(ctx: Context, s: State, staleOnly: bool, v: nat)
    requires Reachable(ctx, s, staleOnly) && ByController(s, v) && s.authors[v].site.WriteReport?
    ensures v < |s.history|
    ensures var author := s.authors[v];
      && Announces(s.history[v], author.site.evicted)
      && (exists i :: IsCall(s.evictions, i, author.item, author.tried, author.site.evicted))
      && (forall i, j, a, b ::
            IsCall(s.evictions, i, author.item, author.tried, a) && IsCall(s.evictions, j, author.item, author.tried, b)
            ==> i == j)
  {
    ReachableTells(ctx, s, staleOnly);
    assert VersionTells(s, v);
  }
}
