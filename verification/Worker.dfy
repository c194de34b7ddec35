/** The worker's side of the queue, on real objects (pkg/worker/worker.go:52-146). */
module Worker {
  import opened Types
  import opened Objects
  import opened Reconcile
  import opened Handlers
  import Q = Queue

  /** What the queue may hold: a request, or anything else (also a request without a key). */
  datatype Object = Request(req: EvictionRequest) | Foreign(tag: nat)

  /** client-go's rate-limited queue. */
  class WorkQueue {
    var ready: seq<Object>
    var dirty: set<Object>
    var processing: set<Object>
    var waiting: set<Object>
    var closed: bool

    constructor ()
      ensures State() == Q.Queue([], {}, {}, {}, false)
    {
      ready, dirty, processing, waiting, closed := [], {}, {}, {}, false;
    }

    function State(): Q.Queue<Object>
      reads this
    {
      Q.Queue(ready, dirty, processing, waiting, closed)
    }

    method Add(x: Object)
      modifies this
      ensures State() == old(State()).Add(x)
    {
      if closed || x in dirty {
        return;
      }
      dirty := dirty + {x};
      if x !in processing {
        ready := ready + [x];
      }
    }

    /** Get, at a moment when it does not block. */
    method Get() returns (x: Object, shutdown: bool)
      requires ready != [] || closed
      modifies this
      ensures shutdown == (old(ready) == [])
      ensures shutdown ==> State() == old(State())
      ensures !shutdown ==> x == old(ready[0]) && State() == old(State()).AfterGet()
    {
      if ready == [] {
        return Foreign(0), true;
      }
      x, shutdown := ready[0], false;
      ready := ready[1..];
      processing := processing + {x};
      dirty := dirty - {x};
    }

    method Done(x: Object)
      modifies this
      ensures State() == old(State()).Done(x)
    {
      processing := processing - {x};
      if x in dirty {
        ready := ready + [x];
      } else {
        assert ready == ready + [];
      }
    }

    method AddRateLimited(x: Object)
      modifies this
      ensures State() == old(State()).AddRateLimited(x)
    {
      if !closed {
        waiting := waiting + {x};
      }
    }

    method Due(x: Object)
      requires x in waiting
      modifies this
      ensures State() == old(State()).Due(x)
    {
      waiting := waiting - {x};
      Add(x);
    }

    method ShutDown()
      modifies this
      ensures State() == old(State()).Close()
    {
      closed := true;
    }
  }

  /** The queue does not look into its items. */
  method AddCopy(queue: WorkQueue, copy: EvictionRequest)
    requires copy.Valid()
    modifies queue
    ensures queue.State() == old(queue.State()).Add(Request(copy))
    ensures copy.Spec() == old(copy.Spec()) && copy.Status() == old(copy.Status())
    ensures SpecReads(copy.spec) == old(SpecReads(copy.spec))
  {
    queue.Add(Request(copy));
  }

  /** Enqueue: always a new deep copy, so two events for one request are never merged and the queue
      shares nothing with the informer's cache. */
  method Enqueue(queue: WorkQueue, obj: Object)
    requires obj.Request? ==> obj.req.Valid()
    modifies queue
    ensures obj.Foreign? || old(queue.closed) ==> queue.State() == old(queue.State())
    ensures obj.Request? && !old(queue.closed) ==>
      && |queue.ready| == |old(queue.ready)| + 1 && queue.ready[..|old(queue.ready)|] == old(queue.ready)
      && var last := queue.ready[|old(queue.ready)|];
         && last.Request? && fresh(last.req) && last.req.Valid()
         && fresh(Real(SpecReads(last.req.spec))) && fresh(Real(StatusReads(last.req.status)))
         && last.req.Spec() == old(obj.req.Spec()) && last.req.Status() == old(obj.req.Status())
         && last.req.namespace == old(obj.req.namespace) && last.req.name == old(obj.req.name)
         && last.req.version == old(obj.req.version)
         && queue.State() == old(queue.State()).(ready := queue.ready, dirty := old(queue.dirty) + {last})
  {
    if obj.Request? {
      var copy := obj.req.DeepCopy();
      AddCopy(queue, copy);
    }
  }

  /** What syncing the request in `x` may write to. */
  function Written(ready: seq<Object>): set<object?>
    reads if ready != [] && ready[0].Request? then {ready[0].req} else {}
  {
    if ready != [] && ready[0].Request?
    then ready[0].req.Mutable()
    else {}
  }

  twostate lemma EntriesStay(entries: seq<Entry>)
    requires forall i :: 0 <= i < |entries| && entries[i].role != null ==> unchanged(entries[i].role)
    ensures EntryValues(entries) == old(EntryValues(entries))
  {
  }

  /** An object that keeps its spec pointers, the pointees of which are not written, keeps its spec. */
  twostate lemma SpecStays(req: EvictionRequest)
    requires SpecKept(req)
    requires req.spec.podRef != null ==> unchanged(req.spec.podRef)
    requires req.spec.requesters != null ==> unchanged(req.spec.requesters)
    requires req.spec.interceptors != null ==> unchanged(req.spec.interceptors)
    requires req.spec.heartbeatDeadlineSeconds != null ==> unchanged(req.spec.heartbeatDeadlineSeconds)
    requires var entries := Elements(req.spec.interceptors);
      forall i :: 0 <= i < |entries| && entries[i].role != null ==> unchanged(entries[i].role)
    ensures req.Spec() == old(req.Spec())
  {
    EntriesStay(Elements(req.spec.interceptors));
  }

  /** One reconcile of a queued object, with its spec untouched. */
  method SyncHandler(req: EvictionRequest, cluster: Cluster) returns (failed: bool)
    requires req.Valid() && req.spec.podRef != null
    modifies req.Mutable(), cluster
    ensures req.Valid() && SpecKept(req) && OwnParts(req) && req.Spec() == old(req.Spec())
    ensures Completes(ContextOf(old(req.Spec())), req, cluster, failed,
      Run(Local(GetPod, old(req.Status())), old(cluster.calls)))
  {
    failed := ReconcileEvictionRequest(req, cluster);
    SpecStays(req);
  }

  /** The sync of a taken item; the queue is not touched meanwhile. */
  method SyncItem(req: EvictionRequest, cluster: Cluster, ghost queue: WorkQueue) returns (failed: bool)
    requires req.Valid() && req.spec.podRef != null
    modifies req.Mutable(), cluster
    ensures req.Valid() && queue.State() == old(queue.State())
    ensures SpecKept(req) && req.Spec() == old(req.Spec())
    ensures Run(Local(Done(failed), req.Status()), cluster.calls) ==
      Finish(ContextOf(old(req.Spec())), cluster.oracle, Run(Local(GetPod, old(req.Status())), old(cluster.calls)))
  {
    failed := SyncHandler(req, cluster);
  }

  /** Requeue or forget, then the deferred Done. */
  method Settle(queue: WorkQueue, x: Object, failed: bool)
    requires x.Request? ==> x.req.Valid()
    modifies queue
    ensures queue.State() ==
      (if failed then old(queue.State()).AddRateLimited(x) else old(queue.State())).Done(x)
    ensures x.Request? ==> x.req.Valid() && x.req.Status() == old(x.req.Status()) && x.req.Spec() == old(x.req.Spec())
  {
    if failed {
      queue.AddRateLimited(x);
    }
    queue.Done(x);
  }

  /** processNextWorkItem, without interference: Get, then Forget or AddRateLimited as the sync ends,
      then Done. The object is requeued if and only if the reconcile of it fails, and then as the copy it
      was: of the same version, name and spec. */
  method ProcessNextWorkItem(queue: WorkQueue, cluster: Cluster) returns (more: bool)
    requires queue.ready != [] || queue.closed
    requires queue.ready != [] && queue.ready[0].Request? ==>
      queue.ready[0].req.Valid() && queue.ready[0].req.spec.podRef != null
    modifies queue, cluster, Written(queue.ready)
    ensures more == (old(queue.ready) != [])
    ensures !more ==> queue.State() == old(queue.State()) && cluster.calls == old(cluster.calls)
    ensures more && old(queue.ready)[0].Foreign? ==>
      && queue.State() == old(queue.State()).AfterGet().Done(old(queue.ready)[0])
      && cluster.calls == old(cluster.calls)
    ensures more && old(queue.ready)[0].Request? ==>
      var x := old(queue.ready)[0];
      var run := Finish(ContextOf(old(queue.ready[0].req.Spec())), cluster.oracle,
        Run(Local(GetPod, old(queue.ready[0].req.Status())), old(cluster.calls)));
      var taken := old(queue.State()).AfterGet();
      && x.req.Valid() && x.req.version == old(queue.ready[0].req.version)
      && x.req.namespace == old(queue.ready[0].req.namespace) && x.req.name == old(queue.ready[0].req.name)
      && x.req.spec == old(queue.ready[0].req.spec) && x.req.Spec() == old(queue.ready[0].req.Spec())
      && Run(Local(run.local.pc, x.req.Status()), cluster.calls) == run
      && queue.State() == (if run.local.pc.failed then taken.AddRateLimited(x) else taken).Done(x)
  {
    label Start:
    var x, shutdown := queue.Get();
    if shutdown {
      return false;
    }
    var failed := false;
    if x.Request? {
      assert x.req.Status() == old@Start(x.req.Status());
      assert x.req.Spec() == old@Start(x.req.Spec());
      failed := SyncItem(x.req, cluster, queue);
    }
    Settle(queue, x, failed);
    return true;
  }

  /** The copy's status and the calls after `n` attempts. */
  function Attempts(ctx: Context, oracle: Oracle, st: Status, calls: seq<Call>, n: nat): Run {
    if n == 0 then Run(Local(GetPod, st), calls)
    else
      var before := Attempts(ctx, oracle, st, calls, n - 1);
      Finish(ctx, oracle, Run(Local(GetPod, before.local.status), before.calls))
  }

  /** Any number of attempts on a queued object, each from what the last one left. */
  method SyncTimes(req: EvictionRequest, cluster: Cluster, attempts: nat)
    requires req.Valid() && req.spec.podRef != null
    modifies req.Mutable(), cluster
    ensures req.Valid() && SpecKept(req) && req.Spec() == old(req.Spec())
    ensures var ctx, oracle := ContextOf(old(req.Spec())), cluster.oracle;
      var run := Attempts(ctx, oracle, old(req.Status()), old(cluster.calls), attempts);
      req.Status() == run.local.status && cluster.calls == run.calls
  {
    ghost var ctx, st, calls := ContextOf(req.Spec()), req.Status(), cluster.calls;
    for n := 0 to attempts
      invariant req.Valid() && SpecKept(req) && OwnParts(req)
      invariant req.spec.podRef != null && req.Spec() == old(req.Spec())
      invariant req.Status() == Attempts(ctx, cluster.oracle, st, calls, n).local.status
      invariant cluster.calls == Attempts(ctx, cluster.oracle, st, calls, n).calls
    {
      var _ := SyncHandler(req, cluster);
    }
  }

  /** The same on the queued copy of a cached object. */
  method SyncCopy(cached: EvictionRequest, cluster: Cluster, attempts: nat) returns (copy: EvictionRequest)
    requires cached.Valid() && cached.spec.podRef != null
    modifies cluster
    ensures fresh(copy) && copy.Valid() && copy.Spec() == old(cached.Spec())
    ensures copy.namespace == old(cached.namespace) && copy.name == old(cached.name)
    ensures copy.version == old(cached.version)
    ensures var ctx, oracle := ContextOf(old(cached.Spec())), cluster.oracle;
      var run := Attempts(ctx, oracle, old(cached.Status()), old(cluster.calls), attempts);
      copy.Status() == run.local.status && cluster.calls == run.calls
  {
    copy := cached.DeepCopy();
    SyncTimes(copy, cluster, attempts);
  }

  /** The same, seen from outside. */
  method SyncAway(cached: EvictionRequest, cluster: Cluster, attempts: nat)
    requires cached.Valid() && cached.spec.podRef != null
    modifies cluster
  {
    var _ := SyncCopy(cached, cluster, attempts);
  }

  /** Nothing that existed before is written but the record of calls: however often its queued copy is
      synced, the cached object keeps its value. */
  method CacheIsIsolated(cached: EvictionRequest, cluster: Cluster, attempts: nat)
    requires cached.Valid() && cached.spec.podRef != null
    modifies cluster
    ensures unchanged(cached) && cached.Valid()
    ensures cached.Spec() == old(cached.Spec()) && cached.Status() == old(cached.Status())
  {
    SyncAway(cached, cluster, attempts);
  }
}
