/** Vocabulary shared by every module: optional values, the outcome of a remote
    call, what a hook operation hands back, and the filter / sum / subsequence
    functions in which the views of the application are written. */
module Common {

  datatype Option<+T> = None | Some(value: T)

  /** The answer of one remote call: the backend's value, or its error. */
  datatype Remote<+T> = Ok(value: T) | Err(message: string)

  /** What a hook operation hands back to its caller: nothing (no signed-in
      user, or an error the hook swallows), the row it stored, or an error it
      rethrows. */
  datatype Outcome<+T> = Nothing | Returned(row: T) | Thrown(message: string)

  /** `Array.prototype.filter`: the elements that satisfy `p`, in order. */
  function Filter<T(!new)>(s: seq<T>, p: T -> bool): (r: seq<T>)
    ensures |r| <= |s|
    ensures forall x :: x in r <==> x in s && p(x)
  {
    if s == [] then []
    else if p(s[0]) then [s[0]] + Filter(s[1..], p)
    else Filter(s[1..], p)
  }

  /** `reduce((sum, x) => sum + f(x), 0)`. */
  function Sum<T>(s: seq<T>, f: T -> int): int
  {
    if s == [] then 0 else f(s[0]) + Sum(s[1..], f)
  }

  /** `a` is obtained from `b` by deleting elements (order is kept). */
  predicate IsSubseq<T(==)>(a: seq<T>, b: seq<T>)
  {
    if a == [] then true
    else if b == [] then false
    else if a[0] == b[0] then IsSubseq(a[1..], b[1..])
    else IsSubseq(a, b[1..])
  }

  /** Every element of `s` has a non-negative `f`. */
  predicate AllNonNegative<T>(s: seq<T>, f: T -> int)
  {
    forall i :: 0 <= i < |s| ==> f(s[i]) >= 0
  }

  lemma {:induction false} FilterIsSubseq<T(!new)>(s: seq<T>, p: T -> bool)
    ensures IsSubseq(Filter(s, p), s)
  {
    if s != [] {
      FilterIsSubseq(s[1..], p);
      if !p(s[0]) {
        var r := Filter(s[1..], p);
        if r != [] {
          assert r[0] in r;
          assert r[0] != s[0];
        }
      }
    }
  }

  /** A filter keeps each element it accepts as many times as it occurs, and
      drops every other element. */
  lemma {:induction false} FilterCount<T(!new)>(s: seq<T>, p: T -> bool, x: T)
    ensures multiset(Filter(s, p))[x] == if p(x) then multiset(s)[x] else 0
  {
    if s != [] {
      FilterCount(s[1..], p, x);
      assert s == [s[0]] + s[1..];
    }
  }

  lemma {:induction false} FilterConcat<T(!new)>(a: seq<T>, b: seq<T>, p: T -> bool)
    ensures Filter(a + b, p) == Filter(a, p) + Filter(b, p)
  {
    if a == [] {
      assert a + b == b;
    } else {
      assert (a + b)[0] == a[0] && (a + b)[1..] == a[1..] + b;
      FilterConcat(a[1..], b, p);
    }
  }

  /** Filtering with a predicate every element satisfies changes nothing. */
  lemma {:induction false} FilterAll<T(!new)>(s: seq<T>, p: T -> bool)
    requires forall i :: 0 <= i < |s| ==> p(s[i])
    ensures Filter(s, p) == s
  {
    if s != [] {
      FilterAll(s[1..], p);
    }
  }

  /** Filtering with a predicate no element satisfies leaves nothing. */
  lemma {:induction false} FilterNone<T(!new)>(s: seq<T>, p: T -> bool)
    requires forall i :: 0 <= i < |s| ==> !p(s[i])
    ensures Filter(s, p) == []
  {
    if s != [] {
      FilterNone(s[1..], p);
    }
  }

  lemma {:induction false} SumConcat<T>(a: seq<T>, b: seq<T>, f: T -> int)
    ensures Sum(a + b, f) == Sum(a, f) + Sum(b, f)
  {
    if a == [] {
      assert a + b == b;
    } else {
      assert (a + b)[0] == a[0] && (a + b)[1..] == a[1..] + b;
      SumConcat(a[1..], b, f);
    }
  }

  lemma {:induction false} SumNonNegative<T>(s: seq<T>, f: T -> int)
    requires AllNonNegative(s, f)
    ensures Sum(s, f) >= 0
  {
    if s != [] {
      SumNonNegative(s[1..], f);
    }
  }

  /** With non-negative amounts, a filtered total never exceeds the full one. */
  lemma {:induction false} SumFilterAtMost<T(!new)>(s: seq<T>, p: T -> bool, f: T -> int)
    requires AllNonNegative(s, f)
    ensures Sum(Filter(s, p), f) <= Sum(s, f)
  {
    if s != [] {
      SumFilterAtMost(s[1..], p, f);
    }
  }

  /** The elements accepted by `p` and those rejected by it account for the
      whole total. */
  lemma {:induction false} SumSplit<T(!new)>(s: seq<T>, p: T -> bool, notP: T -> bool, f: T -> int)
    requires forall x :: notP(x) == !p(x)
    ensures Sum(s, f) == Sum(Filter(s, p), f) + Sum(Filter(s, notP), f)
  {
    if s != [] {
      SumSplit(s[1..], p, notP, f);
    }
  }

  /** Filtering a filtered list keeps what both predicates accept. */
  lemma {:induction false} FilterFilter<T(!new)>(s: seq<T>, p: T -> bool, q: T -> bool, pq: T -> bool)
    requires forall x :: pq(x) == (p(x) && q(x))
    ensures Filter(Filter(s, p), q) == Filter(s, pq)
  {
    if s != [] {
      FilterFilter(s[1..], p, q, pq);
    }
  }

  /** Two predicates that agree on the elements of `s` filter it alike. */
  lemma {:induction false} FilterCongruent<T(!new)>(s: seq<T>, p: T -> bool, q: T -> bool)
    requires forall i :: 0 <= i < |s| ==> p(s[i]) == q(s[i])
    ensures Filter(s, p) == Filter(s, q)
  {
    if s != [] {
      FilterCongruent(s[1..], p, q);
    }
  }

  /** How a filter treats the first element of a list. */
  lemma FilterCons<T(!new)>(a: T, t: seq<T>, p: T -> bool)
    ensures Filter([a] + t, p) == if p(a) then [a] + Filter(t, p) else Filter(t, p)
  {
    assert ([a] + t)[0] == a && ([a] + t)[1..] == t;
  }

  /** One element inserted anywhere in a list passes the filter in place, or
      is dropped. */
  lemma FilterInsert<T(!new)>(a: seq<T>, b: seq<T>, x: T, p: T -> bool)
    ensures Filter(a + [x] + b, p) == Filter(a, p) + (if p(x) then [x] else []) + Filter(b, p)
  {
    FilterConcat(a + [x], b, p);
    FilterConcat(a, [x], p);
    FilterCons(x, [], p);
    assert [x] + [] == [x];
  }

  /** One element inserted anywhere in a list adds exactly its own amount. */
  lemma SumInsert<T>(a: seq<T>, b: seq<T>, x: T, f: T -> int)
    ensures Sum(a + [x] + b, f) == Sum(a + b, f) + f(x)
  {
    SumConcat(a + [x], b, f);
    SumConcat(a, [x], f);
    SumConcat(a, b, f);
  }

  /** How many elements a filter keeps depends only on how often the accepted
      elements occur. */
  lemma FilterLengthByMultiset<T(!new)>(a: seq<T>, b: seq<T>, p: T -> bool)
    requires forall x :: p(x) ==> multiset(a)[x] == multiset(b)[x]
    ensures |Filter(a, p)| == |Filter(b, p)|
  {
    forall x
      ensures multiset(Filter(a, p))[x] == multiset(Filter(b, p))[x]
    {
      FilterCount(a, p, x);
      FilterCount(b, p, x);
    }
    assert multiset(Filter(a, p)) == multiset(Filter(b, p));
    assert |multiset(Filter(a, p))| == |Filter(a, p)|;
    assert |multiset(Filter(b, p))| == |Filter(b, p)|;
  }

  // ---------------------------------------------------- rows keyed by an id

  /** `prev.filter(x => key(x) !== id)`: the rows whose id is not `id`. */
  function RemoveKey<T(!new)>(s: seq<T>, key: T -> string, id: string): seq<T>
  {
    Filter(s, (x: T) => key(x) != id)
  }

  /** `prev.map(x => key(x) === id ? row : x)`. */
  function ReplaceKey<T>(s: seq<T>, key: T -> string, id: string, row: T): (r: seq<T>)
    ensures |r| == |s|
    ensures forall i :: 0 <= i < |s| ==> r[i] == if key(s[i]) == id then row else s[i]
  {
    if s == [] then []
    else [if key(s[0]) == id then row else s[0]] + ReplaceKey(s[1..], key, id, row)
  }

  /** Removing by id keeps the other rows in order, each as often as before,
      and leaves no row with that id; an id no row has changes nothing. */
  lemma RemoveKeySpec<T(!new)>(s: seq<T>, key: T -> string, id: string)
    ensures IsSubseq(RemoveKey(s, key, id), s)
    ensures forall x :: multiset(RemoveKey(s, key, id))[x] == if key(x) == id then 0 else multiset(s)[x]
    ensures forall i :: 0 <= i < |RemoveKey(s, key, id)| ==> key(RemoveKey(s, key, id)[i]) != id
    ensures (forall i :: 0 <= i < |s| ==> key(s[i]) != id) ==> RemoveKey(s, key, id) == s
  {
    var p := (x: T) => key(x) != id;
    FilterIsSubseq(s, p);
    forall x ensures multiset(Filter(s, p))[x] == if key(x) == id then 0 else multiset(s)[x] {
      FilterCount(s, p, x);
    }
    var r := Filter(s, p);
    forall i | 0 <= i < |r| ensures key(r[i]) != id {
      assert r[i] in r;
    }
    if forall i :: 0 <= i < |s| ==> key(s[i]) != id {
      FilterAll(s, p);
    }
  }

  /** Deleting a row just added under an id no other row has restores the
      list as it was before the add. */
  lemma {:induction false} RemoveAfterPrepend<T(!new)>(s: seq<T>, key: T -> string, row: T)
    requires forall i :: 0 <= i < |s| ==> key(s[i]) != key(row)
    ensures RemoveKey([row] + s, key, key(row)) == s
  {
    var p := (x: T) => key(x) != key(row);
    FilterCons(row, s, p);
    FilterAll(s, p);
  }

  /** Replacing the rows with id `id` by a row with the same id, then deleting
      that id, is the same as deleting it straight away. */
  lemma {:induction false} RemoveAfterReplace<T(!new)>(s: seq<T>, key: T -> string, id: string, row: T)
    requires key(row) == id
    ensures RemoveKey(ReplaceKey(s, key, id, row), key, id) == RemoveKey(s, key, id)
  {
    if s != [] {
      RemoveAfterReplace(s[1..], key, id, row);
      var t := ReplaceKey(s, key, id, row);
      assert t[1..] == ReplaceKey(s[1..], key, id, row);
    }
  }
}
