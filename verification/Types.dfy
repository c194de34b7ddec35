/** Values of the EvictionRequest API (apis/evictionrequest/v1alpha1/types.go) as the controller reads
    and writes them. Pointers of the API become `Option`; times are integer nanoseconds. */
module Types {

  datatype Option<+T> = None | Some(value: T)

  type int32 = x: int | -0x8000_0000 <= x < 0x8000_0000

  const MAX_INT32: int32 := 0x7fff_ffff

  /** Go's wrap-around of a signed 32-bit result. */
  function Wrap32(x: int): int32 {
    (x + 0x8000_0000) % 0x1_0000_0000 - 0x8000_0000
  }

  /** An entry of spec.interceptors. `R` is how the role is held: a value in the
      protocol, a pointer in the heap model. */
  datatype Interceptor<+R> = Interceptor(interceptorClass: string, priority: int32, role: R)

  type InterceptorValue = Interceptor<Option<string>>

  datatype Spec = Spec(
    kind: string,
    namespace: string,
    podName: string,
    podUid: string,
    requesters: seq<string>,
    interceptors: seq<InterceptorValue>,
    heartbeatDeadlineSeconds: Option<int32>)

  datatype ConditionStatus = ConditionTrue | ConditionFalse | ConditionUnknown

  datatype Condition = Condition(
    conditionType: string,
    status: ConditionStatus,
    observedGeneration: int,
    lastTransitionTime: int,
    reason: string,
    message: string)

  /** The cancellation policy: `Unspecified` is the empty string. */
  datatype CancellationPolicy = Unspecified | Allow | Forbid

  datatype Status = Status(
    conditions: seq<Condition>,
    message: string,
    activeClass: Option<string>,
    completed: bool,
    heartbeatTime: Option<int>,
    expectedFinishTime: Option<int>,
    policy: CancellationPolicy,
    failedCounter: Option<int32>)

  datatype Pod = Pod(namespace: string, name: string, uid: string)

  /** What a pod lister answers. */
  datatype Lookup = Found(pod: Pod) | NotFound | LookupFailed

  /** No interceptor has been selected: the class is nil or empty. */
  predicate NoActive(active: Option<string>) {
    active.None? || active.value == ""
  }

  /** The failed-eviction counter, with a nil podEvictionStatus read as zero. */
  function CounterOf(st: Status): int32 {
    if st.failedCounter.Some? then st.failedCounter.value else 0
  }

  function DefaultPolicy(st: Status): Status {
    if st.policy.Unspecified? then st.(policy := Allow) else st
  }
}
