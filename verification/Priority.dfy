/** Priority order of interceptors (pkg/reconciler/interceptor/interceptor.go:68-76). */
module Priority {
  import opened Types

  function InsertDescending<R>(s: seq<Interceptor<R>>, x: Interceptor<R>): (r: seq<Interceptor<R>>)
    ensures |r| == |s| + 1
  {
    if s == [] || s[|s| - 1].priority >= x.priority then s + [x]
    else InsertDescending(s[..|s| - 1], x) + [s[|s| - 1]]
  }

  function SortDescending<R>(s: seq<Interceptor<R>>): (r: seq<Interceptor<R>>)
    ensures |r| == |s|
  {
    if s == [] then [] else InsertDescending(SortDescending(s[..|s| - 1]), s[|s| - 1])
  }

  ghost predicate Descending<R>(s: seq<Interceptor<R>>) {
    forall i, j :: 0 <= i < j < |s| ==> s[i].priority >= s[j].priority
  }

  ghost predicate DistinctPriorities<R>(s: seq<Interceptor<R>>) {
    forall i, j :: 0 <= i < j < |s| ==> s[i].priority != s[j].priority
  }

  ghost predicate DistinctClasses<R>(s: seq<Interceptor<R>>) {
    forall i, j :: 0 <= i < j < |s| ==> s[i].interceptorClass != s[j].interceptorClass
  }

  ghost predicate NamedClasses<R>(s: seq<Interceptor<R>>) {
    forall i :: 0 <= i < |s| ==> s[i].interceptorClass != ""
  }

  /** `order` lists the interceptors by descending priority; ties may be broken either way. */
  ghost predicate IsPriorityOrder<R>(order: seq<Interceptor<R>>, interceptors: seq<Interceptor<R>>) {
    && |order| == |interceptors|
    && Descending(order)
    && multiset(order) == multiset(interceptors)
  }

  lemma {:induction false} InsertIsPermutation<R>(s: seq<Interceptor<R>>, x: Interceptor<R>)
    ensures multiset(InsertDescending(s, x)) == multiset(s) + multiset{x}
  {
    if s == [] || s[|s| - 1].priority >= x.priority {
    } else {
      InsertIsPermutation(s[..|s| - 1], x);
      assert s == s[..|s| - 1] + [s[|s| - 1]];
    }
  }

  /** The element lands behind the last one of at least its priority: `t` is `s` with it at position i. */
  lemma {:induction false} InsertLandsAt<R>(t: seq<Interceptor<R>>, s: seq<Interceptor<R>>, x: Interceptor<R>, i: nat)
    requires i <= |s| && |t| == |s| + 1
    requires forall j :: 0 <= j < i ==> t[j] == s[j]
    requires t[i] == x
    requires forall j :: i < j <= |s| ==> t[j] == s[j - 1]
    requires forall j :: i <= j < |s| ==> s[j].priority < x.priority
    requires i > 0 ==> s[i - 1].priority >= x.priority
    ensures t == InsertDescending(s, x)
    decreases |s|
  {
    var n := |s|;
    if i < n {
      InsertLandsAt(t[..n], s[..n - 1], x, i);
      assert t == t[..n] + [s[n - 1]];
    } else {
      assert t == s + [x];
    }
  }

  lemma {:induction false} InsertStaysAbove<R>(s: seq<Interceptor<R>>, x: Interceptor<R>, bound: int32)
    requires x.priority >= bound && forall i :: 0 <= i < |s| ==> s[i].priority >= bound
    ensures forall i :: 0 <= i <= |s| ==> InsertDescending(s, x)[i].priority >= bound
  {
    if s != [] && s[|s| - 1].priority < x.priority {
      var front := s[..|s| - 1];
      InsertStaysAbove(front, x, bound);
      assert InsertDescending(s, x) == InsertDescending(front, x) + [s[|s| - 1]];
    }
  }

  lemma {:induction false} InsertKeepsDescending<R>(s: seq<Interceptor<R>>, x: Interceptor<R>)
    requires Descending(s)
    ensures Descending(InsertDescending(s, x))
  {
    if s != [] && s[|s| - 1].priority < x.priority {
      var front, last := s[..|s| - 1], s[|s| - 1];
      InsertKeepsDescending(front, x);
      InsertStaysAbove(front, x, last.priority);
      assert InsertDescending(s, x) == InsertDescending(front, x) + [last];
    }
  }

  /** The sort returns a descending permutation of its input. */
  lemma {:induction false} SortIsPriorityOrder<R>(s: seq<Interceptor<R>>)
    ensures IsPriorityOrder(SortDescending(s), s)
  {
    if s == [] {
    } else {
      var front, last := s[..|s| - 1], s[|s| - 1];
      SortIsPriorityOrder(front);
      InsertIsPermutation(SortDescending(front), last);
      InsertKeepsDescending(SortDescending(front), last);
      assert s == front + [last];
    }
  }

  lemma SameHead<R>(a: seq<Interceptor<R>>, b: seq<Interceptor<R>>)
    requires Descending(a) && Descending(b)
    requires multiset(a) == multiset(b)
    requires DistinctPriorities(a)
    requires a != [] && b != []
    ensures a[0] == b[0]
  {
    assert b[0] in multiset(a) && a[0] in multiset(b);
    assert b[0] in a && a[0] in b;
    var i :| 0 <= i < |a| && a[i] == b[0];
    var j :| 0 <= j < |b| && b[j] == a[0];
    assert a[0].priority >= a[i].priority;
    assert b[0].priority >= b[j].priority;
  }

  lemma TailMultiset<R>(a: seq<Interceptor<R>>)
    requires a != []
    ensures multiset(a[1..]) == multiset(a) - multiset{a[0]}
  {
    assert a == [a[0]] + a[1..];
  }

  lemma SameLength<R>(a: seq<Interceptor<R>>, b: seq<Interceptor<R>>)
    requires multiset(a) == multiset(b)
    ensures |a| == |b|
  {
    assert |multiset(a)| == |a| && |multiset(b)| == |b|;
  }

  /** A priority order is unique once the priorities are distinct. */
  lemma {:induction false} PriorityOrderUnique<R>(a: seq<Interceptor<R>>, b: seq<Interceptor<R>>)
    requires Descending(a) && Descending(b)
    requires multiset(a) == multiset(b)
    requires DistinctPriorities(a)
    ensures a == b
  {
    SameLength(a, b);
    if a != [] {
      SameHead(a, b);
      TailMultiset(a);
      TailMultiset(b);
      PriorityOrderUnique(a[1..], b[1..]);
      assert a == [a[0]] + a[1..] && b == [b[0]] + b[1..];
    }
  }

  lemma TwoOccurrences<R>(s: seq<Interceptor<R>>, i: nat, j: nat)
    requires i < j < |s| && s[i] == s[j]
    ensures multiset(s)[s[i]] >= 2
  {
    assert s == s[..j] + [s[j]] + s[j + 1..];
    assert s[..j][i] == s[i];
    assert s[i] in multiset(s[..j]);
  }

  lemma OneOccurrence<R>(s: seq<Interceptor<R>>, p: nat)
    requires p < |s| && DistinctClasses(s)
    ensures multiset(s)[s[p]] == 1
  {
    assert s == s[..p] + [s[p]] + s[p + 1..];
    assert s[p] !in s[..p];
    assert s[p] !in s[p + 1..];
  }

  /** Distinctness of classes is a property of the multiset. */
  lemma {:induction false} DistinctClassesOfPermutation<R>(a: seq<Interceptor<R>>, b: seq<Interceptor<R>>)
    requires multiset(a) == multiset(b)
    requires DistinctClasses(a) && NamedClasses(a)
    ensures DistinctClasses(b) && NamedClasses(b)
  {
    forall i | 0 <= i < |b| ensures b[i].interceptorClass != "" {
      assert b[i] in multiset(a);
    }
    forall i, j | 0 <= i < j < |b| ensures b[i].interceptorClass != b[j].interceptorClass {
      if b[i].interceptorClass == b[j].interceptorClass {
        assert b[i] in multiset(a) && b[j] in multiset(a);
        var p :| 0 <= p < |a| && a[p] == b[i];
        var q :| 0 <= q < |a| && a[q] == b[j];
        assert p == q;
        TwoOccurrences(b, i, j);
        OneOccurrence(a, p);
        assert false;
      }
    }
  }
}
