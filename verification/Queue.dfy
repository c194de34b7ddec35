/** The work queue shared by the workers and the passes they make over it (pkg/worker/worker.go:52-146).
    The queue itself is client-go's: `dirty` items need processing, `processing` ones are held by a
    worker, `waiting` ones come back after a rate-limited delay. */
module Queue {

  datatype Queue<T(==)> = Queue(ready: seq<T>, dirty: set<T>, processing: set<T>, waiting: set<T>, closed: bool) {

    function Add(x: T): Queue<T> {
      if closed || x in dirty then this
      else if x in processing then this.(dirty := dirty + {x})
      else this.(dirty := dirty + {x}, ready := ready + [x])
    }

    function AfterGet(): Queue<T>
      requires ready != []
    {
      this.(ready := ready[1..], dirty := dirty - {ready[0]}, processing := processing + {ready[0]})
    }

    function Done(x: T): Queue<T> {
      this.(processing := processing - {x}, ready := ready + if x in dirty then [x] else [])
    }

    function AddRateLimited(x: T): Queue<T> {
      if closed then this else this.(waiting := waiting + {x})
    }

    /** Shutdown: nothing is added any more, and what is ready is still handed out. */
    function Close(): Queue<T> {
      this.(closed := true)
    }

    /** The delay of `x` is over. */
    function Due(x: T): Queue<T>
      requires x in waiting
    {
      this.(waiting := waiting - {x}).Add(x)
    }
  }

  /** What a worker holds: nothing; an item being synced; an item whose deferred Done is still to come. */
  datatype Hand<T> = Idle | Syncing(item: T) | Leaving(item: T, requeued: bool)

  datatype Outcome = Succeeded | Invalid | Failed

  datatype Pool<T(==)> = Pool(
    queue: Queue<T>,
    hands: seq<Hand<T>>,
    admitted: set<T>,           // everything ever enqueued
    retired: map<T, Outcome>,   // what left for good, and why
    gets: multiset<T>,
    dones: multiset<T>)

  datatype Step<T> =
    | Admit(item: T)                       // Enqueue of a new deep copy
    | Take(worker: nat)                    // Get
    | Sync(worker: nat, outcome: Outcome)  // syncHandler, then Forget or AddRateLimited
    | Release(worker: nat)                 // deferred Done
    | Expire(item: T)                      // end of a delay
    | Close                                // ShutDown

  predicate Init<T(==)>(p: Pool<T>) {
    && p.queue == Queue([], {}, {}, {}, false)
    && (forall w :: 0 <= w < |p.hands| ==> p.hands[w].Idle?)
    && p.admitted == {} && p.retired == map[]
    && p.gets == multiset{} && p.dones == multiset{}
  }

  predicate Enabled<T(==)>(p: Pool<T>, step: Step<T>) {
    match step
    case Admit(x) => x !in p.admitted
    case Take(w) => w < |p.hands| && p.hands[w].Idle? && p.queue.ready != []
    case Sync(w, _) => w < |p.hands| && p.hands[w].Syncing?
    case Release(w) => w < |p.hands| && p.hands[w].Leaving?
    case Expire(x) => x in p.queue.waiting
    case Close => true
  }

  function Apply<T(==)>(p: Pool<T>, step: Step<T>): Pool<T>
    requires Enabled(p, step)
  {
    match step
    case Admit(x) => p.(queue := p.queue.Add(x), admitted := p.admitted + {x})
    case Take(w) =>
      var x := p.queue.ready[0];
      p.(queue := p.queue.AfterGet(), hands := p.hands[w := Syncing(x)], gets := p.gets + multiset{x})
    case Sync(w, outcome) =>
      var x := p.hands[w].item;
      if outcome.Failed? then
        p.(queue := p.queue.AddRateLimited(x), hands := p.hands[w := Leaving(x, true)])
      else
        p.(hands := p.hands[w := Leaving(x, false)], retired := p.retired[x := outcome])
    case Release(w) =>
      var x := p.hands[w].item;
      p.(queue := p.queue.Done(x), hands := p.hands[w := Idle], dones := p.dones + multiset{x})
    case Expire(x) => p.(queue := p.queue.Due(x))
    case Close => p.(queue := p.queue.Close())
  }

  predicate Legal<T(==)>(p: Pool<T>, steps: seq<Step<T>>)
    decreases |steps|
  {
    steps != [] ==> Enabled(p, steps[0]) && Legal(Apply(p, steps[0]), steps[1..])
  }

  function Execute<T(==)>(p: Pool<T>, steps: seq<Step<T>>): Pool<T>
    requires Legal(p, steps)
    decreases |steps|
  {
    if steps == [] then p else Execute(Apply(p, steps[0]), steps[1..])
  }

  // ---- Invariant ----

  predicate Holds<T(==)>(hand: Hand<T>, x: T) {
    !hand.Idle? && hand.item == x
  }

  ghost predicate Held<T(!new)>(p: Pool<T>, x: T) {
    exists w :: 0 <= w < |p.hands| && Holds(p.hands[w], x)
  }

  ghost predicate NoDuplicates<T(!new)>(s: seq<T>) {
    forall i, j :: 0 <= i < j < |s| ==> s[i] != s[j]
  }

  /** The books of the queue about one item. */
  ghost predicate Booked<T(!new)>(p: Pool<T>, x: T) {
    var q := p.queue;
    && (x in q.ready <==> x in q.dirty && x !in q.processing)
    && (x in q.processing <==> Held(p, x))
    && p.gets[x] == p.dones[x] + (if x in q.processing then 1 else 0)
    && !(x in q.waiting && x in q.dirty)
    && (x in q.dirty || x in q.waiting || x in q.processing ==> x in p.admitted)
    && (x in p.retired ==> x in p.admitted && x !in q.dirty && x !in q.waiting && p.retired[x] != Failed)
    // not lost before shutdown: an admitted item is queued, delayed, held or retired
    && (x in p.admitted && x !in p.retired ==> q.closed || x in q.dirty || x in q.waiting || x in q.processing)
  }

  /** What a hand says about the books. */
  ghost predicate HandOk<T(!new)>(p: Pool<T>, hand: Hand<T>) {
    match hand
    case Idle => true
    case Syncing(x) => x !in p.queue.dirty && x !in p.queue.waiting && x !in p.retired
    case Leaving(x, requeued) =>
      if requeued then x !in p.retired && (p.queue.closed || x in p.queue.dirty || x in p.queue.waiting)
      else x in p.retired
  }

  ghost predicate OneHand<T(!new)>(hands: seq<Hand<T>>) {
    forall v, w :: 0 <= v < w < |hands| && !hands[v].Idle? && !hands[w].Idle? ==> hands[v].item != hands[w].item
  }

  ghost predicate Books<T(!new)>(p: Pool<T>) {
    && NoDuplicates(p.queue.ready)
    && forall x :: Booked(p, x)
  }

  ghost predicate Hands<T(!new)>(p: Pool<T>) {
    && (forall w :: 0 <= w < |p.hands| ==> HandOk(p, p.hands[w]))
    && OneHand(p.hands)
  }

  ghost predicate Inv<T(!new)>(p: Pool<T>) {
    Books(p) && Hands(p)
  }

  lemma HeldAfter<T(!new)>(p: Pool<T>, t: Pool<T>, w: nat, x: T)
    requires w < |p.hands| == |t.hands| && t.hands == p.hands[w := t.hands[w]]
    ensures Held(t, x) ==> Held(p, x) || Holds(t.hands[w], x)
    ensures Holds(t.hands[w], x) ==> Held(t, x)
    ensures Held(p, x) && !Holds(p.hands[w], x) ==> Held(t, x)
  {
    if Held(p, x) && !Holds(p.hands[w], x) {
      var v :| 0 <= v < |p.hands| && Holds(p.hands[v], x);
      assert Holds(t.hands[v], x);
    }
    if Held(t, x) && !Holds(t.hands[w], x) {
      var v :| 0 <= v < |t.hands| && Holds(t.hands[v], x);
      assert Holds(p.hands[v], x);
    }
  }

  lemma HandIsHeld<T(!new)>(p: Pool<T>, w: nat)
    requires Books(p) && w < |p.hands| && !p.hands[w].Idle?
    ensures Held(p, p.hands[w].item) && p.hands[w].item in p.queue.processing && p.hands[w].item !in p.queue.ready
  {
    assert Holds(p.hands[w], p.hands[w].item);
    assert Booked(p, p.hands[w].item);
  }

  // ---- Admit and Expire: the hands do not move ----

  lemma AdmitInv<T(!new)>(p: Pool<T>, x: T)
    requires Inv(p) && Enabled(p, Admit(x))
    ensures Inv(Apply(p, Admit(x)))
  {
    var t := Apply(p, Admit(x));
    assert Booked(p, x);
    forall y ensures Booked(t, y) {
      assert Booked(p, y);
      assert Held(t, y) <==> Held(p, y);
    }
    forall w | 0 <= w < |t.hands| ensures HandOk(t, t.hands[w]) {
      assert HandOk(p, p.hands[w]);
      assert !p.hands[w].Idle? ==> Holds(p.hands[w], p.hands[w].item) && Booked(p, p.hands[w].item);
    }
  }

  lemma ExpireInv<T(!new)>(p: Pool<T>, x: T)
    requires Inv(p) && Enabled(p, Expire(x))
    ensures Inv(Apply(p, Expire(x)))
  {
    var t := Apply(p, Expire(x));
    assert Booked(p, x);
    forall y ensures Booked(t, y) {
      assert Booked(p, y);
      assert Held(t, y) <==> Held(p, y);
    }
    forall v | 0 <= v < |t.hands| ensures HandOk(t, t.hands[v]) {
      assert HandOk(p, p.hands[v]);
    }
  }

  // ---- Take ----

  lemma TakeBooks<T(!new)>(p: Pool<T>, w: nat)
    requires Books(p) && Enabled(p, Take(w))
    ensures Books(Apply(p, Take(w)))
  {
    var t := Apply(p, Take(w));
    var x := p.queue.ready[0];
    assert x in p.queue.ready && Booked(p, x);
    assert p.queue.ready == [x] + t.queue.ready;
    assert x !in t.queue.ready;
    forall y ensures Booked(t, y) {
      assert Booked(p, y);
      HeldAfter(p, t, w, y);
    }
  }

  lemma TakeHands<T(!new)>(p: Pool<T>, w: nat)
    requires Books(p) && Hands(p) && Enabled(p, Take(w))
    ensures Hands(Apply(p, Take(w)))
  {
    var t := Apply(p, Take(w));
    var x := p.queue.ready[0];
    assert x in p.queue.ready && Booked(p, x);
    forall v | 0 <= v < |t.hands| ensures HandOk(t, t.hands[v]) {
      assert HandOk(p, p.hands[v]);
    }
    forall v | 0 <= v < |p.hands| && !p.hands[v].Idle? ensures p.hands[v].item != x {
      HandIsHeld(p, v);
    }
  }

  lemma TakeInv<T(!new)>(p: Pool<T>, w: nat)
    requires Inv(p) && Enabled(p, Take(w))
    ensures Inv(Apply(p, Take(w)))
  {
    TakeBooks(p, w);
    TakeHands(p, w);
  }

  // ---- Sync ----

  lemma SyncBooks<T(!new)>(p: Pool<T>, w: nat, outcome: Outcome)
    requires Books(p) && Hands(p) && Enabled(p, Sync(w, outcome))
    ensures Books(Apply(p, Sync(w, outcome)))
  {
    var t := Apply(p, Sync(w, outcome));
    var x := p.hands[w].item;
    HandIsHeld(p, w);
    assert HandOk(p, p.hands[w]);
    forall y ensures Booked(t, y) {
      assert Booked(p, y);
      HeldAfter(p, t, w, y);
      HeldAfter(t, p, w, y);
    }
  }

  lemma SyncHands<T(!new)>(p: Pool<T>, w: nat, outcome: Outcome)
    requires Hands(p) && Enabled(p, Sync(w, outcome))
    ensures Hands(Apply(p, Sync(w, outcome)))
  {
  }

  lemma SyncInv<T(!new)>(p: Pool<T>, w: nat, outcome: Outcome)
    requires Inv(p) && Enabled(p, Sync(w, outcome))
    ensures Inv(Apply(p, Sync(w, outcome)))
  {
    SyncBooks(p, w, outcome);
    SyncHands(p, w, outcome);
  }

  // ---- Release ----

  lemma ReleaseBooks<T(!new)>(p: Pool<T>, w: nat)
    requires Books(p) && Hands(p) && Enabled(p, Release(w))
    ensures Books(Apply(p, Release(w)))
  {
    var t := Apply(p, Release(w));
    var x := p.hands[w].item;
    HandIsHeld(p, w);
    assert HandOk(p, p.hands[w]);
    forall v | 0 <= v < |t.hands| ensures !Holds(t.hands[v], x) {
    }
    forall y ensures Booked(t, y) {
      assert Booked(p, y);
      HeldAfter(p, t, w, y);
    }
  }

  lemma ReleaseHands<T(!new)>(p: Pool<T>, w: nat)
    requires Hands(p) && Enabled(p, Release(w))
    ensures Hands(Apply(p, Release(w)))
  {
  }

  lemma ReleaseInv<T(!new)>(p: Pool<T>, w: nat)
    requires Inv(p) && Enabled(p, Release(w))
    ensures Inv(Apply(p, Release(w)))
  {
    ReleaseBooks(p, w);
    ReleaseHands(p, w);
  }

  // ---- Close ----

  lemma CloseInv<T(!new)>(p: Pool<T>)
    requires Inv(p)
    ensures Inv(Apply(p, Close))
  {
    var t := Apply(p, Close);
    forall y ensures Booked(t, y) {
      assert Booked(p, y);
      assert Held(t, y) <==> Held(p, y);
    }
    forall v | 0 <= v < |t.hands| ensures HandOk(t, t.hands[v]) {
      assert HandOk(p, p.hands[v]);
    }
  }

  lemma {:induction false} RunInv<T(!new)>(p: Pool<T>, steps: seq<Step<T>>)
    requires Inv(p) && Legal(p, steps)
    ensures Inv(Execute(p, steps))
    decreases |steps|
  {
    if steps != [] {
      match steps[0] {
        case Admit(x) => AdmitInv(p, x);
        case Take(w) => TakeInv(p, w);
        case Sync(w, outcome) => SyncInv(p, w, outcome);
        case Release(w) => ReleaseInv(p, w);
        case Expire(x) => ExpireInv(p, x);
        case Close => CloseInv(p);
      }
      RunInv(Apply(p, steps[0]), steps[1..]);
    }
  }

  /** Whatever the interleaving of any number of workers: no enqueued item is lost before shutdown, none is
      queued twice or held by two workers, every Get is matched by one Done except for the items in hand,
      and an item that is retired was synced without error or found invalid, and is nowhere else. */
  lemma QueueConserves<T(!new)>(p0: Pool<T>, steps: seq<Step<T>>, x: T)
    requires Init(p0) && Legal(p0, steps)
    ensures var p := Execute(p0, steps); var q := p.queue;
      && (x in p.admitted ==> q.closed || x in q.ready || x in q.waiting || Held(p, x) || x in p.retired)
      && (x in p.retired ==> p.retired[x] != Failed && x !in q.ready && x !in q.waiting && x !in q.dirty)
      && NoDuplicates(q.ready)
      && !(x in q.ready && Held(p, x))
      && !(x in q.ready && x in q.waiting)
      && OneHand(p.hands)
      && p.gets[x] == p.dones[x] + (if Held(p, x) then 1 else 0)
  {
    assert Inv(p0);
    RunInv(p0, steps);
    assert Booked(Execute(p0, steps), x);
  }

  /** After shutdown a failed sync is the end of an item: it is not retired, and will not be retried. */
  lemma ShutdownDropsRetries<T(!new)>(p: Pool<T>, w: nat)
    requires Inv(p) && p.queue.closed && Enabled(p, Sync(w, Failed))
    ensures var x := p.hands[w].item; var pass: seq<Step<T>> := [Sync(w, Failed), Release(w)];
      && Legal(p, pass)
      && var q := Execute(p, pass).queue;
         && x !in q.ready && x !in q.waiting && x !in q.dirty && x !in q.processing
         && x in Execute(p, pass).admitted && x !in Execute(p, pass).retired
  {
    var pass: seq<Step<T>> := [Sync(w, Failed), Release(w)];
    var last: seq<Step<T>> := [Release(w)];
    var p1 := Apply(p, Sync(w, Failed));
    var p2 := Apply(p1, Release(w));
    assert pass[1..] == last && last[1..] == [];
    assert Legal(p1, last);
    assert Execute(p2, last[1..]) == p2;
    assert Execute(p1, last) == p2 && Execute(p, pass) == p2;
    HandIsHeld(p, w);
    assert HandOk(p, p.hands[w]) && Booked(p, p.hands[w].item);
  }

  /** A retired item stays retired, with the same outcome. */
  lemma {:induction false} RetiredForGood<T(!new)>(p: Pool<T>, steps: seq<Step<T>>, x: T)
    requires Inv(p) && Legal(p, steps) && x in p.retired
    ensures x in Execute(p, steps).retired && Execute(p, steps).retired[x] == p.retired[x]
    decreases |steps|
  {
    if steps != [] {
      if steps[0].Sync? {
        assert HandOk(p, p.hands[steps[0].worker]);
      }
      RunInv(p, [steps[0]]);
      assert Execute(p, [steps[0]]) == Apply(p, steps[0]);
      RetiredForGood(Apply(p, steps[0]), steps[1..], x);
    }
  }

  /** A worker's pass that nothing interrupts is three steps of the machine. */
  lemma UninterruptedPass<T(!new)>(p: Pool<T>, w: nat, outcome: Outcome)
    requires Inv(p) && Enabled(p, Take(w))
    ensures var x, taken := p.queue.ready[0], p.queue.AfterGet();
      var pass: seq<Step<T>> := [Take(w), Sync(w, outcome), Release(w)];
      && Legal(p, pass)
      && Execute(p, pass).queue == (if outcome.Failed? then taken.AddRateLimited(x) else taken).Done(x)
  {
    var p1 := Apply(p, Take(w));
    var p2 := Apply(p1, Sync(w, outcome));
    var pass: seq<Step<T>> := [Take(w), Sync(w, outcome), Release(w)];
    var rest: seq<Step<T>> := [Sync(w, outcome), Release(w)];
    var last: seq<Step<T>> := [Release(w)];
    assert pass[1..] == rest && rest[1..] == last && last[1..] == [];
    var p3 := Apply(p2, Release(w));
    assert Legal(p2, last);
    assert Execute(p3, last[1..]) == p3 == Execute(p2, last);
    assert Legal(p1, rest) && Execute(p1, rest) == p3;
  }

  // ---- The life of one copy ----

  /** Where a copy is in its life, as the protocol sees it. */
  datatype Life = Absent | Queued | InSync | Gone

  ghost predicate BeingSynced<T(!new)>(p: Pool<T>, x: T) {
    exists w :: 0 <= w < |p.hands| && p.hands[w] == Syncing(x)
  }

  ghost function LifeOf<T(!new)>(p: Pool<T>, x: T): Life {
    if x !in p.admitted then Absent
    else if x in p.retired then Gone
    else if BeingSynced(p, x) then InSync
    else Queued
  }

  /** What a step does to the life of the copy it concerns. */
  predicate LifeStep<T(==)>(p: Pool<T>, step: Step<T>, x: T, before: Life, after: Life)
    requires Enabled(p, step)
  {
    match step
    case Admit(y) => if x == y then before == Absent && after == Queued else after == before
    case Take(w) => if x == p.queue.ready[0] then before == Queued && after == InSync else after == before
    case Sync(w, outcome) =>
      if x == p.hands[w].item then before == InSync && after == (if outcome.Failed? then Queued else Gone)
      else after == before
    case Release(_) => after == before
    case Expire(_) => after == before
    case Close => after == before
  }

  lemma SyncedAfter<T(!new)>(p: Pool<T>, t: Pool<T>, w: nat, x: T)
    requires w < |p.hands| == |t.hands| && t.hands == p.hands[w := t.hands[w]]
    requires t.hands[w] != Syncing(x) && p.hands[w] != Syncing(x)
    ensures BeingSynced(t, x) <==> BeingSynced(p, x)
  {
    if BeingSynced(p, x) {
      var v :| 0 <= v < |p.hands| && p.hands[v] == Syncing(x);
      assert t.hands[v] == Syncing(x);
    }
    if BeingSynced(t, x) {
      var v :| 0 <= v < |t.hands| && t.hands[v] == Syncing(x);
      assert p.hands[v] == Syncing(x);
    }
  }

  lemma NotHeldNotSynced<T(!new)>(p: Pool<T>, x: T)
    requires Booked(p, x) && x !in p.queue.processing
    ensures !BeingSynced(p, x)
  {
  }

  /** Until shutdown every step of the pool moves a copy through its life as the protocol's Enqueue, Begin
      and End do: one sync at a time, ending in the queue after an error and gone otherwise. Delays,
      deferred Done calls and the queue's dirty marks are invisible to it. */
  lemma LifeCycle<T(!new)>(p: Pool<T>, step: Step<T>, x: T)
    requires Inv(p) && Enabled(p, step) && !p.queue.closed
    ensures LifeStep(p, step, x, LifeOf(p, x), LifeOf(Apply(p, step), x))
  {
    var t := Apply(p, step);
    assert Booked(p, x);
    match step {
      case Admit(y) =>
        assert BeingSynced(t, x) <==> BeingSynced(p, x);
        NotHeldNotSynced(p, y);
      case Expire(_) =>
        assert BeingSynced(t, x) <==> BeingSynced(p, x);
      case Close =>
        assert BeingSynced(t, x) <==> BeingSynced(p, x);
      case Take(w) =>
        var y := p.queue.ready[0];
        assert Booked(p, y) && y in p.queue.ready;
        NotHeldNotSynced(p, y);
        if x == y {
          assert t.hands[w] == Syncing(x);
        } else {
          SyncedAfter(p, t, w, x);
        }
      case Sync(w, outcome) =>
        var y := p.hands[w].item;
        assert p.hands[w] == Syncing(y) && HandOk(p, p.hands[w]);
        HandIsHeld(p, w);
        assert Booked(p, y);
        if x == y {
          forall v | 0 <= v < |t.hands| ensures t.hands[v] != Syncing(x) {
            assert v != w && !p.hands[v].Idle? ==> p.hands[v].item != x;
          }
        } else {
          SyncedAfter(p, t, w, x);
        }
      case Release(w) =>
        SyncedAfter(p, t, w, x);
    }
  }
}
