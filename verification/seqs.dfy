/** List comprehensions over sequences: order-preserving filters, counts and sums. */
module Seqs {
  import opened Wrappers

  /** `[x for x in s if p(x)]`: the elements satisfying `p`, in their original order. */
  function Filter<T(!new)>(s: seq<T>, p: T -> bool): (r: seq<T>)
    ensures |r| <= |s|
    ensures forall x :: x in r <==> x in s && p(x)
  {
    if |s| == 0 then []
    else (if p(s[0]) then [s[0]] else []) + Filter(s[1..], p)
  }

  /** The filter of a non-empty list: its first element if it satisfies `p`, then the filter of the rest. */
  lemma FilterCons<T(!new)>(s: seq<T>, p: T -> bool)
    requires |s| > 0
    ensures Filter(s, p) == (if p(s[0]) then [s[0]] else []) + Filter(s[1..], p)
  {
  }

  /** Filtering distributes over concatenation, which is what keeping the order means. */
  lemma {:induction false} FilterAppend<T(!new)>(a: seq<T>, b: seq<T>, p: T -> bool)
    ensures Filter(a + b, p) == Filter(a, p) + Filter(b, p)
  {
    if |a| > 0 {
      FilterAppend(a[1..], b, p);
      assert (a + b)[0] == a[0] && (a + b)[1..] == a[1..] + b;
      var head := if p(a[0]) then [a[0]] else [];
      assert Filter(a + b, p) == head + (Filter(a[1..], p) + Filter(b, p));
    } else {
      assert a + b == b;
    }
  }

  /** An element the filter keeps is kept as many times as it occurs. */
  lemma {:induction false} FilterCounts<T(!new)>(s: seq<T>, p: T -> bool)
    ensures forall x :: p(x) ==> multiset(Filter(s, p))[x] == multiset(s)[x]
  {
    if |s| > 0 {
      FilterCounts(s[1..], p);
      assert s == [s[0]] + s[1..];
      var head := if p(s[0]) then [s[0]] else [];
      assert multiset(Filter(s, p)) == multiset(head) + multiset(Filter(s[1..], p));
    }
  }

  /** A filter that keeps every element is the identity. */
  lemma {:induction false} FilterAll<T(!new)>(s: seq<T>, p: T -> bool)
    requires forall x :: x in s ==> p(x)
    ensures Filter(s, p) == s
  {
    if |s| > 0 {
      FilterAll(s[1..], p);
    }
  }

  /** `len([x for x in s if p(x)])` */
  function Count<T(!new)>(s: seq<T>, p: T -> bool): nat {
    |Filter(s, p)|
  }

  /** Filtering a list with one more element at the end keeps that element exactly when it satisfies `p`. */
  lemma FilterSnoc<T(!new)>(s: seq<T>, x: T, p: T -> bool)
    ensures Filter(s + [x], p) == Filter(s, p) + (if p(x) then [x] else [])
  {
    FilterAppend(s, [x], p);
    assert Filter([x], p) == (if p(x) then [x] else []) + Filter([x][1..], p);
  }

  /** A map from each key to the elements `p(key)` selects, holding exactly the keys that select some element. */
  ghost predicate GroupsOf<K(!new), T(!new)>(g: map<K, seq<T>>, s: seq<T>, p: K -> (T -> bool)) {
    && (forall k :: k in g <==> Filter(s, p(k)) != [])
    && (forall k :: k in g ==> g[k] == Filter(s, p(k)))
  }

  /**
   * Appending one element to the list of the one key that selects it (none
   * when `key` is `None`) keeps a grouping a grouping.
   */
  lemma GroupSnoc<K(!new), T(!new)>(g: map<K, seq<T>>, s: seq<T>, x: T, p: K -> (T -> bool), key: Option<K>)
    requires GroupsOf(g, s, p)
    requires forall k :: p(k)(x) <==> key == Some(k)
    ensures GroupsOf(if key.None? then g else g[key.value := (if key.value in g then g[key.value] else []) + [x]], s + [x], p)
  {
    var h := if key.None? then g else g[key.value := (if key.value in g then g[key.value] else []) + [x]];
    forall k
      ensures k in h <==> Filter(s + [x], p(k)) != []
      ensures k in h ==> h[k] == Filter(s + [x], p(k))
    {
      FilterSnoc(s, x, p(k));
      if key == Some(k) {
        assert p(k)(x);
        assert h[k] == (if k in g then g[k] else []) + [x];
      } else {
        assert !p(k)(x);
        assert Filter(s, p(k)) + [] == Filter(s, p(k));
        assert k in h <==> k in g;
        assert k in g ==> h[k] == g[k];
      }
    }
  }

  /** Appending one element raises the count by one exactly when it satisfies `p`. */
  lemma CountSnoc<T(!new)>(s: seq<T>, x: T, p: T -> bool)
    ensures Count(s + [x], p) == Count(s, p) + (if p(x) then 1 else 0)
  {
    FilterSnoc(s, x, p);
  }

  /** `sum(s)` */
  function Sum(s: seq<int>): int {
    if |s| == 0 then 0 else s[0] + Sum(s[1..])
  }

  lemma {:induction false} SumAppend(a: seq<int>, b: seq<int>)
    ensures Sum(a + b) == Sum(a) + Sum(b)
  {
    if |a| > 0 {
      SumAppend(a[1..], b);
      assert (a + b)[1..] == a[1..] + b;
    } else {
      assert a + b == b;
    }
  }

  /** The first element satisfying `p` (Python's `next((x for x in s if p(x)), None)`), by index. */
  function FirstIndex<T>(s: seq<T>, p: T -> bool): (r: int)
    ensures -1 <= r < |s|
    ensures r >= 0 ==> p(s[r]) && forall k :: 0 <= k < r ==> !p(s[k])
    ensures r == -1 ==> forall k :: 0 <= k < |s| ==> !p(s[k])
  {
    if |s| == 0 then -1
    else if p(s[0]) then 0
    else
      var r := FirstIndex(s[1..], p);
      if r == -1 then -1 else r + 1
  }

  /** Some element satisfies `p`. */
  predicate Any<T>(s: seq<T>, p: T -> bool) {
    exists k :: 0 <= k < |s| && p(s[k])
  }

  /** Some element satisfies `p` exactly when the first does or one of the rest does. */
  lemma AnyCons<T>(s: seq<T>, p: T -> bool)
    requires s != []
    ensures Any(s, p) <==> p(s[0]) || Any(s[1..], p)
  {
    if Any(s[1..], p) {
      var k :| 0 <= k < |s[1..]| && p(s[1..][k]);
      assert p(s[k + 1]);
    }
    if Any(s, p) && !p(s[0]) {
      var k :| 0 <= k < |s| && p(s[k]);
      assert p(s[1..][k - 1]);
    }
  }

  /** Every element of the tail is an element of the sequence. */
  lemma TailMembers<T>(s: seq<T>)
    requires s != []
    ensures forall x :: x in s[1..] ==> x in s
  {
    forall x | x in s[1..] ensures x in s {
      var k :| 0 <= k < |s[1..]| && s[1..][k] == x;
      assert s[k + 1] == x;
    }
  }

  /** `[f(x) for x in s]`. */
  function Map<T, U>(s: seq<T>, f: T -> U): (r: seq<U>)
    ensures |r| == |s| && forall k :: 0 <= k < |s| ==> r[k] == f(s[k])
  {
    seq(|s|, k requires 0 <= k < |s| => f(s[k]))
  }

  /** Mapping a non-empty sequence maps its head, then its tail. */
  lemma MapCons<T, U>(s: seq<T>, f: T -> U)
    requires |s| > 0
    ensures Map(s, f) == [f(s[0])] + Map(s[1..], f)
  {
    assert forall k :: 1 <= k < |s| ==> s[1..][k - 1] == s[k];
  }

  /** Appending a mapped sequence is appending its first image, then the rest. */
  lemma AppendMapCons<T, U>(front: seq<U>, s: seq<T>, f: T -> U)
    requires |s| > 0
    ensures front + Map(s, f) == (front + [f(s[0])]) + Map(s[1..], f)
  {
    MapCons(s, f);
  }

  /** Mapping distributes over concatenation. */
  lemma MapAppend<T, U>(a: seq<T>, b: seq<T>, f: T -> U)
    ensures Map(a + b, f) == Map(a, f) + Map(b, f)
  {
    forall k | 0 <= k < |a + b|
      ensures Map(a + b, f)[k] == (Map(a, f) + Map(b, f))[k]
    {
      if k < |a| {
        assert (a + b)[k] == a[k];
      } else {
        assert (a + b)[k] == b[k - |a|];
      }
    }
  }

  /** Mapping a filtered non-empty sequence: the head's image when it passes, then the tail's. */
  lemma MapFilterCons<T(!new), U>(s: seq<T>, p: T -> bool, f: T -> U)
    requires |s| > 0
    ensures Map(Filter(s, p), f) == (if p(s[0]) then [f(s[0])] else []) + Map(Filter(s[1..], p), f)
  {
    FilterCons(s, p);
    var t := Filter(s[1..], p);
    if p(s[0]) {
      MapCons([s[0]] + t, f);
      assert ([s[0]] + t)[1..] == t;
    } else {
      assert Filter(s, p) == t;
    }
  }
}
