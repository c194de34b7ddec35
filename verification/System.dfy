/** Any number of queued copies of one request, an API server that refuses stale status writes, the
    pod cache, the clock and the interceptors, interleaved one interaction at a time
    (pkg/worker/worker.go:100-146). */
module System {
  import opened Types
  import opened Reconcile

  /** What becomes of a status write. A version is consumed by `Accepted` and `ReplyLost`. */
  datatype Fate =
    | Accepted
    | ReplyLost   // stored, but the caller gets an error
    | Unchanged   // accepted without effect: the copy equals the stored status
    | Stale       // refused: the copy is not of the stored version
    | Transient   // failed without effect

  predicate Stores(fate: Fate) { fate.Accepted? || fate.ReplyLost? }

  predicate Succeeds(fate: Fate) { fate.Accepted? || fate.Unchanged? }

  datatype Phase = Queued | Running(pc: Pc) | Gone

  /** One object in the work queue. Its version never moves: results of UpdateStatus are discarded.
      The fields from `refused` on record what happened to it. */
  datatype Item = Item(
    base: nat,
    status: Status,
    phase: Phase,
    refused: nat,        // writes of the interceptor handler that reported an error
    failures: nat,       // eviction calls that failed
    tried: nat,          // status writes sent
    won: bool,           // a status write was stored
    seen: nat,           // cache revision of the latest first lookup
    seenAgain: nat,      // cache revision of the latest second lookup
    began: Status,       // the copy when the current attempt began
    calls: seq<Call>,    // interactions of the current attempt
    inputs: seq<Input>)  // their answers

  datatype Author =
    | Creator
    | InterceptorWrote
    | Controller(item: nat, site: Pc, tried: nat, refused: nat, failures: nat, seen: nat, at: int)

  /** An eviction call; `pod` is what the second lookup found, `version` the one stored at that moment,
      `base` the one that was copied. */
  datatype EvictionCall = EvictionCall(
    item: nat,
    call: Call,
    pod: Pod,
    succeeded: bool,
    tried: nat,
    version: nat,
    base: nat,
    status: Status,
    refused: nat,
    seen: nat,
    seenAgain: nat,
    at: int)

  datatype State = State(
    history: seq<Status>,            // history[v] is the status stored at version v
    authors: seq<Author>,
    pods: seq<map<string, Pod>>,     // revisions of the pod cache in the request's namespace
    clock: int,
    items: seq<Item>,
    evictions: seq<EvictionCall>)

  datatype Label =
    | Enqueue(version: nat)
    | Begin(item: nat)
    | Advance(item: nat, lookupFails: bool, fate: Fate, evicted: bool)
    | End(item: nat)
    | Update(status: Status)
    | Tick(now: int)
    | Cache(pods: map<string, Pod>)

  /** A lister indexes pods by their own namespace and name. */
  predicate Indexed(ctx: Context, pods: map<string, Pod>) {
    forall n :: n in pods ==> pods[n].name == n && pods[n].namespace == ctx.spec.namespace
  }

  predicate Init(ctx: Context, s: State) {
    && |s.history| == 1
    && s.authors == [Creator]
    && |s.pods| == 1
    && Indexed(ctx, s.pods[0])
    && s.items == []
    && s.evictions == []
  }

  function Latest(s: State): Status
    requires s.history != []
  {
    s.history[|s.history| - 1]
  }

  predicate FateAllowed(s: State, item: Item, fate: Fate)
    requires s.history != []
  {
    match fate
    case Accepted => item.base == |s.history| - 1
    case ReplyLost => item.base == |s.history| - 1
    case Unchanged => item.base == |s.history| - 1 && item.status == Latest(s)
    case Stale => item.base != |s.history| - 1
    case Transient => true
  }

  predicate Enabled(ctx: Context, s: State, l: Label) {
    && s.history != []
    && s.pods != []
    && match l
       case Enqueue(v) => v < |s.history|
       case Begin(k) => k < |s.items| && s.items[k].phase.Queued?
       case Advance(k, _, fate, _) =>
         && k < |s.items| && s.items[k].phase.Running? && !s.items[k].phase.pc.Done?
         && (IsWrite(s.items[k].phase.pc) ==> FateAllowed(s, s.items[k], fate))
       case End(k) => k < |s.items| && s.items[k].phase.Running? && s.items[k].phase.pc.Done?
       // interceptors write through the same server, and never the active class
       case Update(st) => st.activeClass == Latest(s).activeClass
       case Tick(now) => s.clock <= now
       case Cache(pods) => Indexed(ctx, pods)
  }

  function CacheGet(pods: map<string, Pod>, name: string): Lookup {
    if name in pods then Found(pods[name]) else NotFound
  }

  function InputOf(ctx: Context, s: State, lookupFails: bool, fate: Fate, evicted: bool): Input
    requires s.pods != []
  {
    Input(
      if lookupFails then LookupFailed else CacheGet(s.pods[|s.pods| - 1], ctx.spec.podName),
      Succeeds(fate), evicted, s.clock)
  }

  function AdvanceItem(ctx: Context, item: Item, input: Input, fate: Fate, revision: nat): Item
    requires item.phase.Running? && !item.phase.pc.Done?
  {
    var pc := item.phase.pc;
    var next := Next(ctx, Local(pc, item.status), input);
    item.(
      status := next.status,
      phase := Running(next.pc),
      refused := item.refused + if pc.WriteHandler? && !input.written then 1 else 0,
      failures := item.failures + if pc.Evict? && !input.evicted then 1 else 0,
      tried := item.tried + if IsWrite(pc) then 1 else 0,
      won := item.won || (IsWrite(pc) && Stores(fate)),
      seen := if pc.GetPod? then revision else item.seen,
      seenAgain := if pc.GetPodAgain? then revision else item.seenAgain,
      calls := item.calls + [CallOf(ctx, Local(pc, item.status))],
      inputs := item.inputs + [input])
  }

  /** A copy of some stored version (apis deep copy; pkg/worker/worker.go:72). */
  function Copy(status: Status, version: nat): Item {
    Item(version, status, Queued, 0, 0, 0, false, 0, 0, status, [], [])
  }

  function BeginItem(item: Item): Item {
    item.(phase := Running(GetPod), began := item.status, calls := [], inputs := [])
  }

  /** A failed sync requeues the same, already changed object; a successful one forgets it. */
  function EndItem(item: Item): Item
    requires item.phase.Running? && item.phase.pc.Done?
  {
    item.(phase := if item.phase.pc.failed then Queued else Gone)
  }

  function AuthorOf(item: Item, k: nat, at: int): Author
    requires item.phase.Running?
  {
    Controller(k, item.phase.pc, item.tried, item.refused, item.failures, item.seen, at)
  }

  function EvictionOf(ctx: Context, item: Item, k: nat, succeeded: bool, version: nat, at: int): EvictionCall
    requires item.phase.Running? && item.phase.pc.Evict?
  {
    EvictionCall(
      k, CallOf(ctx, Local(item.phase.pc, item.status)), item.phase.pc.pod, succeeded, item.tried,
      version, item.base, item.status, item.refused, item.seen, item.seenAgain, at)
  }

  function ApplyAdvance(ctx: Context, s: State, k: nat, lookupFails: bool, fate: Fate, evicted: bool): State
    requires Enabled(ctx, s, Advance(k, lookupFails, fate, evicted))
  {
    var item := s.items[k];
    var pc := item.phase.pc;
    var input := InputOf(ctx, s, lookupFails, fate, evicted);
    var stored := IsWrite(pc) && Stores(fate);
    s.(
      items := s.items[k := AdvanceItem(ctx, item, input, fate, |s.pods| - 1)],
      history := if stored then s.history + [item.status] else s.history,
      authors := if stored then s.authors + [AuthorOf(item, k, s.clock)] else s.authors,
      evictions :=
        if pc.Evict? then s.evictions + [EvictionOf(ctx, item, k, evicted, |s.history| - 1, s.clock)]
        else s.evictions)
  }

  function Apply(ctx: Context, s: State, l: Label): State
    requires Enabled(ctx, s, l)
  {
    match l
    case Enqueue(v) => s.(items := s.items + [Copy(s.history[v], v)])
    case Begin(k) => s.(items := s.items[k := BeginItem(s.items[k])])
    case Advance(k, lookupFails, fate, evicted) => ApplyAdvance(ctx, s, k, lookupFails, fate, evicted)
    case End(k) => s.(items := s.items[k := EndItem(s.items[k])])
    case Update(st) => s.(history := s.history + [st], authors := s.authors + [InterceptorWrote])
    case Tick(now) => s.(clock := now)
    case Cache(pods) => s.(pods := s.pods + [pods])
  }

  /** The only failure of a write is being stale. */
  predicate StaleOnly(l: Label) {
    l.Advance? ==> !l.fate.ReplyLost? && !l.fate.Transient?
  }

  predicate Legal(ctx: Context, s: State, labels: seq<Label>)
    decreases |labels|
  {
    labels != [] ==> Enabled(ctx, s, labels[0]) && Legal(ctx, Apply(ctx, s, labels[0]), labels[1..])
  }

  function Execute(ctx: Context, s: State, labels: seq<Label>): State
    requires Legal(ctx, s, labels)
    decreases |labels|
  {
    if labels == [] then s else Execute(ctx, Apply(ctx, s, labels[0]), labels[1..])
  }

  ghost predicate RunsTo(ctx: Context, s0: State, labels: seq<Label>, s: State, staleOnly: bool) {
    && Init(ctx, s0)
    && Legal(ctx, s0, labels)
    && Execute(ctx, s0, labels) == s
    && (staleOnly ==> forall i :: 0 <= i < |labels| ==> StaleOnly(labels[i]))
  }

  /** `s` ends some run; with `staleOnly`, one whose writes fail only by being stale. */
  ghost predicate Reachable(ctx: Context, s: State, staleOnly: bool) {
    exists s0, labels :: RunsTo(ctx, s0, labels, s, staleOnly)
  }
}
