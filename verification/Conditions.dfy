/** The condition list kept by UpsertCondition (pkg/reconciler/status/status.go:40-66). */
module Conditions {
  import opened Types

  const READY := "Ready"
  const EVICTED := "Evicted"
  const EVICTION_SUCCEEDED := "EvictionSucceeded"
  const EVICTION_FAILED := "EvictionFailed"
  const POD_NOT_FOUND := "PodNotFound"

  /** Position of the first condition of the type, or the length of the list. */
  function Position(conditions: seq<Condition>, conditionType: string): (i: nat)
    ensures i <= |conditions|
    ensures i < |conditions| ==> conditions[i].conditionType == conditionType
    ensures forall j :: 0 <= j < i ==> conditions[j].conditionType != conditionType
  {
    if conditions == [] || conditions[0].conditionType == conditionType then 0
    else 1 + Position(conditions[1..], conditionType)
  }

  /** The condition that replaces `existing`: an unchanged status keeps its transition time. */
  function Replacement(existing: Condition, entry: Condition): Condition {
    if existing.status != entry.status then entry
    else entry.(lastTransitionTime := existing.lastTransitionTime)
  }

  /** One upsert of `entry`, whose transition time is the time of the call. */
  function Upsert(conditions: seq<Condition>, entry: Condition): seq<Condition> {
    var i := Position(conditions, entry.conditionType);
    if i < |conditions| then conditions[i := Replacement(conditions[i], entry)]
    else conditions + [entry]
  }

  function Upserts(conditions: seq<Condition>, log: seq<Condition>): seq<Condition> {
    if log == [] then conditions
    else Upsert(Upserts(conditions, log[..|log| - 1]), log[|log| - 1])
  }

  ghost predicate DistinctTypes(conditions: seq<Condition>) {
    forall i, j :: 0 <= i < j < |conditions| ==> conditions[i].conditionType != conditions[j].conditionType
  }

  function Current(conditions: seq<Condition>, conditionType: string): Option<Condition> {
    var i := Position(conditions, conditionType);
    if i < |conditions| then Some(conditions[i]) else None
  }

  /** The entries of a log that concern one type. */
  function About(log: seq<Condition>, conditionType: string): seq<Condition> {
    if log == [] then []
    else
      About(log[..|log| - 1], conditionType) +
      if log[|log| - 1].conditionType == conditionType then [log[|log| - 1]] else []
  }

  /** Entries `start..` all report the same status, and no longer suffix does. */
  ghost predicate IsLatestRun(initial: Option<Condition>, mine: seq<Condition>, start: int) {
    && -1 <= start < |mine|
    && (forall j :: 0 <= j < |mine| && start <= j ==> mine[j].status == mine[|mine| - 1].status)
    && (start == -1 ==> mine != [] && initial.Some? && initial.value.status == mine[|mine| - 1].status)
    && (start == 0 ==> initial.None? || initial.value.status != mine[|mine| - 1].status)
    && (start > 0 ==> mine[start - 1].status != mine[|mine| - 1].status)
  }

  /** What a list should report about one type, read off the log of its upserts: the last entry,
      dated by the start of the latest unbroken run of its status (-1: since before the log). */
  ghost predicate Summarizes(now: Option<Condition>, initial: Option<Condition>, mine: seq<Condition>) {
    if mine == [] then now == initial
    else
      exists start ::
        && IsLatestRun(initial, mine, start)
        && now == Some(mine[|mine| - 1].(lastTransitionTime :=
             if start == -1 then initial.value.lastTransitionTime else mine[start].lastTransitionTime))
  }

  /** Existing positions keep their type, and the list never shrinks. */
  ghost predicate Extends(before: seq<Condition>, after: seq<Condition>) {
    && |before| <= |after|
    && forall j :: 0 <= j < |before| ==> after[j].conditionType == before[j].conditionType
  }

  /** Entries of other types stay exactly as they are, where they are. */
  ghost predicate OthersKept(before: seq<Condition>, after: seq<Condition>, conditionType: string) {
    && Extends(before, after)
    && (forall j :: 0 <= j < |before| && before[j].conditionType != conditionType ==> after[j] == before[j])
    && (forall j :: |before| <= j < |after| ==> after[j].conditionType == conditionType)
  }

  lemma UpsertLocal(conditions: seq<Condition>, entry: Condition)
    requires DistinctTypes(conditions)
    ensures DistinctTypes(Upsert(conditions, entry))
  {
  }

  lemma PositionStable(before: seq<Condition>, after: seq<Condition>, conditionType: string)
    requires Extends(before, after)
    requires Position(before, conditionType) < |before|
    ensures Position(after, conditionType) == Position(before, conditionType)
  {
  }

  /** What one upsert does to the reported condition of any type. */
  lemma UpsertCurrent(conditions: seq<Condition>, entry: Condition, t: string)
    requires DistinctTypes(conditions)
    ensures var before, after := Current(conditions, t), Current(Upsert(conditions, entry), t);
      if t != entry.conditionType then after == before
      else after == Some(if before.Some? then Replacement(before.value, entry) else entry)
  {
    var r := Upsert(conditions, entry);
    var p := Position(conditions, t);
    if p < |conditions| {
      PositionStable(conditions, r, t);
    } else {
      forall k | 0 <= k < |conditions| ensures r[k].conditionType != t {
        assert conditions[k].conditionType != t;
      }
      assert t == entry.conditionType ==> r[|conditions|].conditionType == t;
    }
  }

  /** For any list, the type of an entry reports the entry just put in. */
  lemma CurrentOfUpsert(conditions: seq<Condition>, entry: Condition)
    ensures var before := Current(conditions, entry.conditionType);
      Current(Upsert(conditions, entry), entry.conditionType) ==
        Some(if before.Some? then Replacement(before.value, entry) else entry)
  {
    var r, t := Upsert(conditions, entry), entry.conditionType;
    if Position(conditions, t) < |conditions| {
      PositionStable(conditions, r, t);
    } else {
      forall k | 0 <= k < |conditions| ensures r[k].conditionType != t {
        assert conditions[k].conditionType != t;
      }
      assert r[|conditions|].conditionType == t;
    }
  }

  lemma ExtendRun(before: Option<Condition>, initial: Option<Condition>, mine: seq<Condition>, entry: Condition)
    requires Summarizes(before, initial, mine)
    ensures Summarizes(Some(if before.Some? then Replacement(before.value, entry) else entry), initial, mine + [entry])
  {
    var next := mine + [entry];
    if mine == [] {
      assert IsLatestRun(initial, next, if before.Some? && before.value.status == entry.status then -1 else 0);
    } else {
      var start :|
        && IsLatestRun(initial, mine, start)
        && before == Some(mine[|mine| - 1].(lastTransitionTime :=
             if start == -1 then initial.value.lastTransitionTime else mine[start].lastTransitionTime));
      if before.value.status == entry.status {
        assert IsLatestRun(initial, next, start);
      } else {
        assert IsLatestRun(initial, next, |mine|);
      }
    }
  }

  /** After any sequence of upserts on a list with distinct types: types stay distinct, positions are
      kept, and every type is reported as the summary of its own log. */
  lemma {:induction false} ListSummarizesLog(conditions: seq<Condition>, log: seq<Condition>, t: string)
    requires DistinctTypes(conditions)
    ensures DistinctTypes(Upserts(conditions, log))
    ensures Extends(conditions, Upserts(conditions, log))
    ensures Summarizes(Current(Upserts(conditions, log), t), Current(conditions, t), About(log, t))
  {
    if log != [] {
      var front, last := log[..|log| - 1], log[|log| - 1];
      ListSummarizesLog(conditions, front, t);
      var list := Upserts(conditions, front);
      UpsertLocal(list, last);
      UpsertCurrent(list, last, t);
      if last.conditionType == t {
        ExtendRun(Current(list, t), Current(conditions, t), About(front, t), last);
      } else {
        assert About(log, t) == About(front, t);
      }
    }
  }

  /** The latest run is unique, so the summary determines the reported condition. */
  lemma SummaryUnique(a: Option<Condition>, b: Option<Condition>, initial: Option<Condition>, mine: seq<Condition>)
    requires Summarizes(a, initial, mine) && Summarizes(b, initial, mine)
    ensures a == b
  {
  }

  /** An upsert leaves every entry of another type exactly as it was, for any list. */
  lemma UpsertKeepsOthers(conditions: seq<Condition>, entry: Condition)
    ensures OthersKept(conditions, Upsert(conditions, entry), entry.conditionType)
  {
  }
}
