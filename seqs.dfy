/**
 * `Array.prototype.filter` on sequences, and `map` followed by dropping the
 * absent results, with the facts about them that the loader and the views rely on.
 */
module Seqs {
  import opened Wrappers

  /** The elements of `s` that satisfy `p`, in their order in `s`. */
  function Filter<T>(s: seq<T>, p: T -> bool): (r: seq<T>)
    ensures |r| <= |s|
    ensures forall x :: x in r ==> x in s && p(x)
    decreases |s|
  {
    if |s| == 0 then []
    else (if p(s[0]) then [s[0]] else []) + Filter(s[1..], p)
  }

  /** Filtering distributes over concatenation: the result keeps the input's order. */
  lemma {:induction false} FilterAppend<T>(a: seq<T>, b: seq<T>, p: T -> bool)
    ensures Filter(a + b, p) == Filter(a, p) + Filter(b, p)
    decreases |a|
  {
    if |a| == 0 {
      assert a + b == b;
    } else {
      assert (a + b)[1..] == a[1..] + b;
      FilterAppend(a[1..], b, p);
    }
  }

  /** An element is kept exactly when it occurs in the input and satisfies the predicate. */
  lemma {:induction false} FilterMember<T>(s: seq<T>, p: T -> bool, x: T)
    ensures x in Filter(s, p) <==> x in s && p(x)
    decreases |s|
  {
    if |s| > 0 {
      FilterMember(s[1..], p, x);
      assert x in s <==> x == s[0] || x in s[1..];
    }
  }

  /** When every element satisfies the predicate, nothing is dropped. */
  lemma {:induction false} FilterKeepsAll<T>(s: seq<T>, p: T -> bool)
    requires forall i :: 0 <= i < |s| ==> p(s[i])
    ensures Filter(s, p) == s
    decreases |s|
  {
    if |s| > 0 {
      FilterKeepsAll(s[1..], p);
      assert [s[0]] + s[1..] == s;
    }
  }

  /** When no element satisfies the predicate, the result is empty. */
  lemma {:induction false} FilterDropsAll<T>(s: seq<T>, p: T -> bool)
    requires forall i :: 0 <= i < |s| ==> !p(s[i])
    ensures Filter(s, p) == []
    decreases |s|
  {
    if |s| > 0 {
      FilterDropsAll(s[1..], p);
    }
  }

  /** Two predicates that agree on every element of `s` select the same elements. */
  lemma {:induction false} FilterCongruent<T>(s: seq<T>, p: T -> bool, q: T -> bool)
    requires forall i :: 0 <= i < |s| ==> p(s[i]) == q(s[i])
    ensures Filter(s, p) == Filter(s, q)
    decreases |s|
  {
    if |s| > 0 {
      FilterCongruent(s[1..], p, q);
    }
  }

  /** The result is empty exactly when no element satisfies the predicate. */
  lemma FilterEmpty<T>(s: seq<T>, p: T -> bool)
    ensures Filter(s, p) == [] <==> forall i :: 0 <= i < |s| ==> !p(s[i])
  {
    if Filter(s, p) == [] {
      forall i | 0 <= i < |s| ensures !p(s[i]) {
        FilterMember(s, p, s[i]);
      }
    } else {
      var x := Filter(s, p)[0];
      assert x in Filter(s, p);
    }
    if forall i :: 0 <= i < |s| ==> !p(s[i]) {
      FilterDropsAll(s, p);
    }
  }

  /** `s.map(f).filter(x => x !== null)`: the present results of `f`, in the order of `s`. */
  function FilterMap<A, B>(s: seq<A>, f: A -> Option<B>): (r: seq<B>)
    ensures |r| <= |s|
    decreases |s|
  {
    if |s| == 0 then [] else ResultOf(f, s[0]) + FilterMap(s[1..], f)
  }

  /** What one element contributes: its result when present, nothing otherwise. */
  function ResultOf<A, B>(f: A -> Option<B>, x: A): seq<B> {
    if f(x).Some? then [f(x).value] else []
  }

  /** The elements on which `f` gives a result. */
  function Present<A, B>(f: A -> Option<B>): A -> bool {
    (x: A) => f(x).Some?
  }

  /** `rs` is `xs` mapped by `f`, position by position, every result present. */
  ghost predicate MapsTo<A, B>(f: A -> Option<B>, xs: seq<A>, rs: seq<B>) {
    |xs| == |rs| && forall i :: 0 <= i < |rs| ==> f(xs[i]) == Some(rs[i])
  }

  lemma MapsToCons<A, B>(f: A -> Option<B>, x: A, r: B, xs: seq<A>, rs: seq<B>)
    requires f(x) == Some(r) && MapsTo(f, xs, rs)
    ensures MapsTo(f, [x] + xs, [r] + rs)
  {
    var xs', rs' := [x] + xs, [r] + rs;
    forall i | 0 <= i < |rs'| ensures f(xs'[i]) == Some(rs'[i]) {
      if i > 0 {
        assert xs'[i] == xs[i - 1] && rs'[i] == rs[i - 1];
      }
    }
  }

  /** The results are exactly the kept elements mapped by `f`, one for one, in order. */
  lemma {:induction false} FilterMapKept<A, B>(s: seq<A>, f: A -> Option<B>)
    ensures MapsTo(f, Filter(s, Present(f)), FilterMap(s, f))
    decreases |s|
  {
    if |s| > 0 {
      FilterMapKept(s[1..], f);
      var rest, restKept := FilterMap(s[1..], f), Filter(s[1..], Present(f));
      assert FilterMap(s, f) == ResultOf(f, s[0]) + rest;
      assert Filter(s, Present(f)) == (if Present(f)(s[0]) then [s[0]] else []) + restKept;
      if f(s[0]).Some? {
        assert Present(f)(s[0]) && ResultOf(f, s[0]) == [f(s[0]).value];
        MapsToCons(f, s[0], f(s[0]).value, restKept, rest);
      } else {
        assert !Present(f)(s[0]) && ResultOf(f, s[0]) == [];
        assert [] + rest == rest && [] + restKept == restKept;
      }
    }
  }

  /** Mapping then dropping distributes over concatenation: results keep the input's order. */
  lemma {:induction false} FilterMapAppend<A, B>(a: seq<A>, b: seq<A>, f: A -> Option<B>)
    ensures FilterMap(a + b, f) == FilterMap(a, f) + FilterMap(b, f)
    decreases |a|
  {
    if |a| == 0 {
      assert a + b == b;
    } else {
      FilterMapAppend(a[1..], b, f);
      calc {
        FilterMap(a + b, f);
        ResultOf(f, (a + b)[0]) + FilterMap((a + b)[1..], f);
        { assert (a + b)[0] == a[0] && (a + b)[1..] == a[1..] + b; }
        ResultOf(f, a[0]) + (FilterMap(a[1..], f) + FilterMap(b, f));
        (ResultOf(f, a[0]) + FilterMap(a[1..], f)) + FilterMap(b, f);
      }
    }
  }

  /** When every result is present nothing is dropped: the results are the mapped elements. */
  lemma {:induction false} FilterMapAll<A, B>(s: seq<A>, f: A -> Option<B>, rs: seq<B>)
    requires MapsTo(f, s, rs)
    ensures FilterMap(s, f) == rs
    decreases |s|
  {
    if |s| > 0 {
      assert MapsTo(f, s[1..], rs[1..]) by {
        forall i | 0 <= i < |rs| - 1 ensures f(s[1..][i]) == Some(rs[1..][i]) {
          assert s[1..][i] == s[i + 1] && rs[1..][i] == rs[i + 1];
        }
      }
      FilterMapAll(s[1..], f, rs[1..]);
      assert f(s[0]) == Some(rs[0]);
      assert [rs[0]] + rs[1..] == rs;
    }
  }
}
