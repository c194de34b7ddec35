/** EvictionRequest objects as the Go code holds them: structs of pointers and slices, deep copied
    before they are queued (apis/evictionrequest/v1alpha1/zz_generated.deepcopy.go). A Go struct is a
    datatype of references, so `*out = *in` is plain assignment and shares every pointee. */
module Objects {
  import opened Types

  /** What a *string, *int32 or *metav1.Time points to. */
  class Box<T> {
    var value: T

    constructor (value: T)
      ensures this.value == value
    {
      this.value := value;
    }
  }

  class PodReference {
    var name: string
    var uid: string

    constructor (name: string, uid: string)
      ensures this.name == name && this.uid == uid
    {
      this.name, this.uid := name, uid;
    }
  }

  class PodEvictionStatus {
    var failedCounter: int32

    constructor (failedCounter: int32)
      ensures this.failedCounter == failedCounter
    {
      this.failedCounter := failedCounter;
    }
  }

  type Entry = Interceptor<Box?<string>>

  /** status.activeInterceptorClass: nil, a string of its own, or the class field of a list element. */
  datatype ClassPointer = NilClass | OwnString(box: Box<string>) | ElementOf(list: array<Entry>, index: nat)

  datatype SpecStruct = SpecStruct(
    kind: string,
    podRef: PodReference?,
    requesters: array?<string>,
    interceptors: array?<Entry>,
    heartbeatDeadlineSeconds: Box?<int32>)

  datatype StatusStruct = StatusStruct(
    conditions: array?<Condition>,
    message: string,
    activeClass: ClassPointer,
    completed: bool,
    heartbeatTime: Box?<int>,
    expectedFinishTime: Box?<int>,
    policy: CancellationPolicy,
    podEviction: PodEvictionStatus?)

  // ---- What the pointers mean ----

  ghost function BoxValue<T>(box: Box?<T>): Option<T>
    reads box
  {
    if box == null then None else Some(box.value)
  }

  ghost function RolesOf(entries: seq<Entry>): set<Box?<string>> {
    set i | 0 <= i < |entries| :: entries[i].role
  }

  ghost function EntryValue(entry: Entry): InterceptorValue
    reads entry.role
  {
    Interceptor(entry.interceptorClass, entry.priority, BoxValue(entry.role))
  }

  ghost function EntryValues(entries: seq<Entry>): (r: seq<InterceptorValue>)
    reads RolesOf(entries)
    ensures |r| == |entries|
    ensures forall i :: 0 <= i < |entries| ==> r[i] == EntryValue(entries[i])
  {
    seq(|entries|, i requires 0 <= i < |entries| reads RolesOf(entries) => EntryValue(entries[i]))
  }

  /** A nil slice has no elements. */
  ghost function Elements<T>(list: array?<T>): seq<T>
    reads list
  {
    if list == null then [] else list[..]
  }

  predicate ValidPointer(p: ClassPointer) {
    p.ElementOf? ==> p.index < p.list.Length
  }

  function PointeeString(p: ClassPointer): Box?<string> {
    if p.OwnString? then p.box else null
  }

  function PointeeList(p: ClassPointer): array?<Entry> {
    if p.ElementOf? then p.list else null
  }

  function ClassOf(p: ClassPointer): Option<string>
    requires ValidPointer(p)
    reads PointeeString(p), PointeeList(p)
  {
    match p
    case NilClass => None
    case OwnString(box) => Some(box.value)
    case ElementOf(list, i) => Some(list[i].interceptorClass)
  }

  ghost function SpecReads(f: SpecStruct): set<object?>
    reads f.interceptors
  {
    {f.podRef, f.requesters, f.interceptors, f.heartbeatDeadlineSeconds} + RolesOf(Elements(f.interceptors))
  }

  ghost function SpecValue(namespace: string, f: SpecStruct): Spec
    reads f.podRef, f.requesters, f.interceptors, f.heartbeatDeadlineSeconds, RolesOf(Elements(f.interceptors))
  {
    Spec(f.kind, namespace,
      if f.podRef == null then "" else f.podRef.name,
      if f.podRef == null then "" else f.podRef.uid,
      Elements(f.requesters), EntryValues(Elements(f.interceptors)), BoxValue(f.heartbeatDeadlineSeconds))
  }

  function StatusReads(f: StatusStruct): set<object?> {
    {f.conditions, f.heartbeatTime, f.expectedFinishTime, f.podEviction,
      PointeeString(f.activeClass), PointeeList(f.activeClass)}
  }

  ghost function StatusValue(f: StatusStruct): Status
    requires ValidPointer(f.activeClass)
    reads f.conditions, f.heartbeatTime, f.expectedFinishTime, f.podEviction
    reads PointeeString(f.activeClass), PointeeList(f.activeClass)
  {
    Status(Elements(f.conditions), f.message, ClassOf(f.activeClass), f.completed,
      BoxValue(f.heartbeatTime), BoxValue(f.expectedFinishTime), f.policy,
      if f.podEviction == null then None else Some(f.podEviction.failedCounter))
  }

  /** Same pointers are nil: a deep copy keeps nil and empty apart. */
  predicate SameNils(f: SpecStruct, g: SpecStruct) {
    && (f.podRef == null <==> g.podRef == null)
    && (f.requesters == null <==> g.requesters == null)
    && (f.interceptors == null <==> g.interceptors == null)
  }

  ghost function Real(objects: set<object?>): set<object> {
    set o: object | o in objects
  }

  method CopyBox<T>(box: Box?<T>) returns (out: Box?<T>)
    ensures BoxValue(out) == BoxValue(box)
    ensures out != null ==> fresh(out)
  {
    if box == null {
      out := null;
    } else {
      out := new Box(box.value);
    }
  }

  method CopySlice<T>(list: array?<T>) returns (out: array?<T>)
    ensures (list == null <==> out == null) && Elements(out) == Elements(list)
    ensures out != null ==> fresh(out)
  {
    if list == null {
      out := null;
    } else {
      out := new T[list.Length](i requires 0 <= i < list.Length reads list => list[i]);
    }
  }

  /** Interceptors are copied one by one, each with a role of its own. */
  method CopyInterceptors(list: array?<Entry>) returns (out: array?<Entry>)
    ensures (list == null <==> out == null)
    ensures out != null ==> fresh(out)
    ensures fresh(Real(RolesOf(Elements(out))))
    ensures EntryValues(Elements(out)) == EntryValues(Elements(list))
  {
    if list == null {
      out := null;
      return;
    }
    out := new Entry[list.Length](i requires 0 <= i < list.Length reads list => list[i]);
    for i := 0 to list.Length
      invariant fresh(out) && out.Length == list.Length
      invariant forall j :: i <= j < out.Length ==> out[j] == list[j]
      invariant forall j :: 0 <= j < i ==> EntryValue(out[j]) == EntryValue(list[j])
      invariant forall j :: 0 <= j < i && out[j].role != null ==> fresh(out[j].role)
      modifies out
    {
      var role := CopyBox(list[i].role);
      out[i] := list[i].(role := role);
    }
  }

  method CopyPodReference(podRef: PodReference?) returns (out: PodReference?)
    ensures podRef == null <==> out == null
    ensures out != null ==> fresh(out) && out.name == podRef.name && out.uid == podRef.uid
  {
    if podRef == null {
      out := null;
    } else {
      out := new PodReference(podRef.name, podRef.uid);
    }
  }

  method DeepCopySpec(ghost namespace: string, f: SpecStruct) returns (g: SpecStruct)
    ensures SameNils(f, g) && fresh(Real(SpecReads(g)))
    ensures SpecValue(namespace, g) == old(SpecValue(namespace, f))
  {
    var podRef := CopyPodReference(f.podRef);
    var requesters := CopySlice(f.requesters);
    var deadline := CopyBox(f.heartbeatDeadlineSeconds);
    var interceptors := CopyInterceptors(f.interceptors);
    assert EntryValues(Elements(interceptors)) == old(EntryValues(Elements(f.interceptors)));
    g := SpecStruct(f.kind, podRef, requesters, interceptors, deadline);
    assert forall o: object :: o in Real(SpecReads(g)) ==>
      o == podRef || o == requesters || o == interceptors || o == deadline
      || o in Real(RolesOf(Elements(interceptors)));
  }

  /** The class is copied into a string of its own, also when it points into a list. */
  method CopyClass(p: ClassPointer) returns (q: ClassPointer)
    requires ValidPointer(p)
    ensures !q.ElementOf? && (q.OwnString? ==> fresh(q.box))
    ensures ClassOf(q) == old(ClassOf(p))
  {
    if p.NilClass? {
      q := NilClass;
    } else {
      var box := new Box(ClassOf(p).value);
      q := OwnString(box);
    }
  }

  method CopyCounter(p: PodEvictionStatus?) returns (q: PodEvictionStatus?)
    ensures p == null <==> q == null
    ensures p != null ==> fresh(q) && q.failedCounter == old(p.failedCounter)
  {
    q := null;
    if p != null {
      q := new PodEvictionStatus(p.failedCounter);
    }
  }

  method DeepCopyStatus(f: StatusStruct) returns (g: StatusStruct)
    requires ValidPointer(f.activeClass)
    ensures ValidPointer(g.activeClass) && !g.activeClass.ElementOf? && fresh(Real(StatusReads(g)))
    ensures StatusValue(g) == old(StatusValue(f)) && (g.conditions == null <==> f.conditions == null)
  {
    var conditions := CopySlice(f.conditions);
    var active := CopyClass(f.activeClass);
    var heartbeat := CopyBox(f.heartbeatTime);
    var finish := CopyBox(f.expectedFinishTime);
    var podEviction := CopyCounter(f.podEviction);
    assert Elements(conditions) == old(Elements(f.conditions)) && ClassOf(active) == old(ClassOf(f.activeClass));
    g := StatusStruct(conditions, f.message, active, f.completed, heartbeat, finish, f.policy, podEviction);
    assert forall o: object :: o in Real(StatusReads(g)) ==>
      o == conditions || o == heartbeat || o == finish || o == podEviction || o == PointeeString(active);
  }

  method DeepCopyParts(ghost namespace: string, spec: SpecStruct, status: StatusStruct)
    returns (s: SpecStruct, t: StatusStruct)
    requires ValidPointer(status.activeClass)
    ensures SameNils(spec, s) && fresh(Real(SpecReads(s)))
    ensures SpecValue(namespace, s) == old(SpecValue(namespace, spec))
    ensures ValidPointer(t.activeClass) && fresh(Real(StatusReads(t)))
    ensures StatusValue(t) == old(StatusValue(status)) && (t.conditions == null <==> status.conditions == null)
  {
    s := DeepCopySpec(namespace, spec);
    label Copied:
    t := DeepCopyStatus(status);
    assert SpecReads(s) == old@Copied(SpecReads(s));
    assert SpecValue(namespace, s) == old@Copied(SpecValue(namespace, s));
  }

  class EvictionRequest {
    var namespace: string
    var name: string
    var version: nat
    var spec: SpecStruct
    var status: StatusStruct

    constructor (namespace: string, name: string, version: nat, spec: SpecStruct, status: StatusStruct)
      ensures this.namespace == namespace && this.name == name && this.version == version
      ensures this.spec == spec && this.status == status
    {
      this.namespace, this.name, this.version, this.spec, this.status := namespace, name, version, spec, status;
    }

    predicate Valid()
      reads this
    {
      ValidPointer(status.activeClass)
    }

    /** Everything the controller writes to: the struct, its conditions and its counter. */
    function Mutable(): set<object?>
      reads this
    {
      {this, status.conditions, status.podEviction}
    }

    ghost function Spec(): Types.Spec
      reads this, spec.podRef, spec.requesters, spec.interceptors, spec.heartbeatDeadlineSeconds
      reads RolesOf(Elements(spec.interceptors))
    {
      SpecValue(namespace, spec)
    }

    ghost function Status(): Types.Status
      requires Valid()
      reads this, status.conditions, status.heartbeatTime, status.expectedFinishTime, status.podEviction
      reads PointeeString(status.activeClass), PointeeList(status.activeClass)
    {
      StatusValue(status)
    }

    /** DeepCopy: an object of equal value that shares no pointee with this one. */
    method DeepCopy() returns (out: EvictionRequest)
      requires Valid()
      ensures fresh(out) && out.Valid()
      ensures fresh(Real(SpecReads(out.spec))) && fresh(Real(StatusReads(out.status)))
      ensures out.status.conditions == null || fresh(out.status.conditions)
      ensures out.status.podEviction == null || fresh(out.status.podEviction)
      ensures out.namespace == namespace && out.name == name && out.version == version
      ensures out.Spec() == old(Spec()) && SameNils(spec, out.spec)
      ensures out.Status() == old(Status()) && (out.status.conditions == null <==> status.conditions == null)
    {
      var s, t := DeepCopyParts(namespace, spec, status);
      label Copied:
      out := new EvictionRequest(namespace, name, version, s, t);
      assert StatusValue(t) == old@Copied(StatusValue(t));
      assert t.conditions != null ==> (t.conditions as object) in Real(StatusReads(t));
      assert t.podEviction != null ==> (t.podEviction as object) in Real(StatusReads(t));
      assert SpecValue(namespace, s) == old@Copied(SpecValue(namespace, s));
      assert SpecReads(s) == old@Copied(SpecReads(s));
    }
  }
}
