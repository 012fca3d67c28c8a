/**
 * Order-preserving selections over sequences: `filter`, and the
 * `for ... continue ... push` pattern (filter and map in one pass).
 */
module Sequences {
  import opened Wrappers

  /** Each element mapped through `f`, keeping the `Some` results in order. */
  function FilterMap<A, B>(f: A -> Option<B>, s: seq<A>): (r: seq<B>)
    ensures |r| <= |s|
  {
    if s == [] then []
    else FilterMap(f, s[..|s| - 1]) + (match f(s[|s| - 1]) case Some(b) => [b] case None => [])
  }

  lemma {:induction false} FilterMapAppend<A, B>(f: A -> Option<B>, a: seq<A>, b: seq<A>)
    ensures FilterMap(f, a + b) == FilterMap(f, a) + FilterMap(f, b)
    decreases |b|
  {
    if b == [] {
      assert a + b == a;
    } else {
      var b' := b[..|b| - 1];
      assert (a + b)[..|a + b| - 1] == a + b';
      FilterMapAppend(f, a, b');
    }
  }

  /** Two selectors that agree on every element select the same results. */
  lemma {:induction false} FilterMapAgree<A, B>(f: A -> Option<B>, g: A -> Option<B>, s: seq<A>)
    requires forall i :: 0 <= i < |s| ==> f(s[i]) == g(s[i])
    ensures FilterMap(f, s) == FilterMap(g, s)
    decreases |s|
  {
    if s != [] {
      var init := s[..|s| - 1];
      assert forall i :: 0 <= i < |init| ==> init[i] == s[i];
      FilterMapAgree(f, g, init);
    }
  }

  /** An element placed between two sequences contributes its own result, in place. */
  lemma FilterMapInsert<A, B>(f: A -> Option<B>, a: seq<A>, x: A, b: seq<A>)
    ensures f(x).Some? ==> FilterMap(f, a + [x] + b) == FilterMap(f, a) + [f(x).value] + FilterMap(f, b)
    ensures f(x).None? ==> FilterMap(f, a + [x] + b) == FilterMap(f, a + b)
  {
    FilterMapAppend(f, a + [x], b);
    FilterMapAppend(f, a, [x]);
    FilterMapAppend(f, a, b);
    assert [x][..0] == [];
  }

  lemma {:induction false} FilterMapMembers<A, B>(f: A -> Option<B>, s: seq<A>, y: B)
    ensures y in FilterMap(f, s) <==> exists i :: 0 <= i < |s| && f(s[i]) == Some(y)
    decreases |s|
  {
    if s != [] {
      var init := s[..|s| - 1];
      FilterMapMembers(f, init, y);
      assert y in FilterMap(f, s) <==> y in FilterMap(f, init) || f(s[|s| - 1]) == Some(y);
      assert s == init + [s[|s| - 1]];
      SomeIndexSplit(f, init, s[|s| - 1], y);
    }
  }

  /** Some element of `init + [last]` maps to `y` exactly when one of `init` does or `last` does. */
  lemma SomeIndexSplit<A, B>(f: A -> Option<B>, init: seq<A>, last: A, y: B)
    ensures (exists i :: 0 <= i < |init + [last]| && f((init + [last])[i]) == Some(y)) <==>
            (exists i :: 0 <= i < |init| && f(init[i]) == Some(y)) || f(last) == Some(y)
  {
    var s := init + [last];
    if exists i :: 0 <= i < |s| && f(s[i]) == Some(y) {
      var i :| 0 <= i < |s| && f(s[i]) == Some(y);
      if i < |init| {
        assert f(init[i]) == Some(y);
      }
    }
    if exists i :: 0 <= i < |init| && f(init[i]) == Some(y) {
      var i :| 0 <= i < |init| && f(init[i]) == Some(y);
      assert f(s[i]) == Some(y);
    }
    assert s[|init|] == last;
  }

  /** `s.filter(p)`. */
  function Filter<T>(p: T -> bool, s: seq<T>): (r: seq<T>)
    ensures |r| <= |s|
    ensures forall k :: 0 <= k < |r| ==> p(r[k])
  {
    if s == [] then []
    else Filter(p, s[..|s| - 1]) + (if p(s[|s| - 1]) then [s[|s| - 1]] else [])
  }

  /** The filter keeps exactly the elements that pass. */
  lemma {:induction false} FilterMembers<T>(p: T -> bool, s: seq<T>)
    ensures forall x :: x in Filter(p, s) <==> x in s && p(x)
    decreases |s|
  {
    if s != [] {
      var init := s[..|s| - 1];
      FilterMembers(p, init);
      var r := Filter(p, s);
      forall x
        ensures x in r <==> x in s && p(x)
      {
        assert x in s <==> x in init || x == s[|s| - 1] by {
          assert s == init + [s[|s| - 1]];
        }
      }
    }
  }

  lemma {:induction false} FilterAppend<T>(p: T -> bool, a: seq<T>, b: seq<T>)
    ensures Filter(p, a + b) == Filter(p, a) + Filter(p, b)
    decreases |b|
  {
    if b == [] {
      assert a + b == a;
    } else {
      var b' := b[..|b| - 1];
      assert (a + b)[..|a + b| - 1] == a + b';
      FilterAppend(p, a, b');
    }
  }

  /** Filtering twice with the same predicate is filtering once. */
  lemma {:induction false} FilterIdempotent<T>(p: T -> bool, s: seq<T>)
    ensures Filter(p, Filter(p, s)) == Filter(p, s)
    decreases |s|
  {
    if s != [] {
      var init := s[..|s| - 1];
      FilterIdempotent(p, init);
      var last := if p(s[|s| - 1]) then [s[|s| - 1]] else [];
      FilterAppend(p, Filter(p, init), last);
    }
  }

  /** The elements of `s` in order of first occurrence, each once (the key order of a JavaScript `Map`). */
  function FirstAppearance<T(==)>(s: seq<T>): (r: seq<T>)
    ensures |r| <= |s|
  {
    if s == [] then []
    else
      var r := FirstAppearance(s[..|s| - 1]);
      if s[|s| - 1] in r then r else r + [s[|s| - 1]]
  }

  /** Every element of `s` occurs exactly once in its first-appearance order, and nothing else does. */
  lemma {:induction false} FirstAppearanceOccurrences<T>(s: seq<T>, x: T)
    ensures multiset(FirstAppearance(s))[x] == if x in s then 1 else 0
    decreases |s|
  {
    if s != [] {
      var init, c := s[..|s| - 1], s[|s| - 1];
      assert s == init + [c];
      FirstAppearanceOccurrences(init, x);
      FirstAppearanceOccurrences(init, c);
    }
  }

  /** Appending an element extends the first-appearance order only when the element is new. */
  lemma FirstAppearanceStep<T>(s: seq<T>, x: T)
    ensures x in s ==> FirstAppearance(s + [x]) == FirstAppearance(s)
    ensures x !in s ==> FirstAppearance(s + [x]) == FirstAppearance(s) + [x]
  {
    assert (s + [x])[..|s|] == s;
    FirstAppearanceOccurrences(s, x);
  }

  predicate Distinct<T(==)>(s: seq<T>) {
    forall i, j :: 0 <= i < j < |s| ==> s[i] != s[j]
  }

  lemma DistinctFromOccurrences<T>(s: seq<T>)
    requires forall x :: multiset(s)[x] <= 1
    ensures Distinct(s)
  {
    forall i, j | 0 <= i < j < |s|
      ensures s[i] != s[j]
    {
      assert s == s[..j] + [s[j]] + s[j + 1..];
      assert s[i] == s[..j][i];
      assert multiset(s)[s[j]] >= multiset(s[..j])[s[j]] + 1;
    }
  }

  /** A sequence without repetitions has as many elements as the set of its elements. */
  lemma {:induction false} DistinctCardinality<T>(s: seq<T>)
    requires Distinct(s)
    ensures |set x | x in s| == |s|
    decreases |s|
  {
    if s != [] {
      var init := s[..|s| - 1];
      assert Distinct(init);
      DistinctCardinality(init);
      assert (set x | x in s) == (set x | x in init) + {s[|s| - 1]};
      assert s[|s| - 1] !in init;
    }
  }

  lemma {:induction false} SubsetCardinality<T>(a: set<T>, b: set<T>)
    requires a <= b
    ensures |a| <= |b|
    decreases |a|
  {
    if a != {} {
      var x :| x in a;
      SubsetCardinality(a - {x}, b - {x});
    }
  }

  /** The sum, over the elements of `order`, of their multiplicities in `m`. */
  function SumOccurrences<T>(order: seq<T>, m: multiset<T>): nat {
    if order == [] then 0 else SumOccurrences(order[..|order| - 1], m) + m[order[|order| - 1]]
  }

  lemma {:induction false} SumOccurrencesAdd<T>(order: seq<T>, m: multiset<T>, x: T)
    ensures SumOccurrences(order, m + multiset{x}) == SumOccurrences(order, m) + multiset(order)[x]
    decreases |order|
  {
    if order != [] {
      var init := order[..|order| - 1];
      assert order == init + [order[|order| - 1]];
      SumOccurrencesAdd(init, m, x);
    }
  }

  /** Counting each distinct element of `s` once per occurrence counts every element of `s`. */
  lemma {:induction false} FirstAppearanceCountsAll<T>(s: seq<T>)
    ensures SumOccurrences(FirstAppearance(s), multiset(s)) == |s|
    decreases |s|
  {
    if s != [] {
      var init, c := s[..|s| - 1], s[|s| - 1];
      assert s == init + [c];
      assert multiset(s) == multiset(init) + multiset{c};
      FirstAppearanceCountsAll(init);
      FirstAppearanceStep(init, c);
      FirstAppearanceOccurrences(init, c);
      var order := FirstAppearance(init);
      SumOccurrencesAdd(order, multiset(init), c);
      if c !in init {
        assert (order + [c])[..|order|] == order;
      }
    }
  }
}
