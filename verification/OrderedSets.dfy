/**
 * Insertion-ordered sets as Guava's `ImmutableSet` builds them: `ImmutableSet.copyOf(list)` and a
 * sequence of `ImmutableSet.Builder.add` calls both keep the first occurrence of each element and
 * iterate in insertion order. A set is represented by the duplicate-free sequence of its elements.
 */
module OrderedSets {

  /** No two positions of `xs` hold equal elements. */
  predicate NoDuplicates<X(==)>(xs: seq<X>) {
    forall i, j :: 0 <= i < j < |xs| ==> xs[i] != xs[j]
  }

  /** `ImmutableSet.Builder.add`: an element already present is ignored, a new one goes last. */
  function Add<X(==)>(acc: seq<X>, x: X): seq<X> {
    if x in acc then acc else acc + [x]
  }

  /** The set `ImmutableSet.copyOf(xs)` builds: `xs` added element by element. */
  function Distinct<X(==)>(xs: seq<X>): (r: seq<X>)
    ensures NoDuplicates(r)
    ensures |r| <= |xs|
    decreases |xs|
  {
    if xs == [] then [] else Add(Distinct(xs[..|xs| - 1]), xs[|xs| - 1])
  }

  /** The elements of `b` that do not occur in `a`, in the order of `b`. */
  function Without<X(==)>(b: seq<X>, a: seq<X>): seq<X>
    decreases |b|
  {
    if b == [] then []
    else
      var w := Without(b[..|b| - 1], a);
      if b[|b| - 1] in a then w else w + [b[|b| - 1]]
  }

  /** The copy holds exactly the elements of the list. */
  lemma {:induction false} DistinctMember<X>(xs: seq<X>, x: X)
    ensures x in Distinct(xs) <==> x in xs
    decreases |xs|
  {
    if xs != [] {
      assert xs == xs[..|xs| - 1] + [xs[|xs| - 1]];
      DistinctMember(xs[..|xs| - 1], x);
    }
  }

  /** `Without(b, a)` holds the elements of `b` that are not in `a`. */
  lemma {:induction false} WithoutMember<X>(b: seq<X>, a: seq<X>, x: X)
    ensures x in Without(b, a) <==> x in b && x !in a
    decreases |b|
  {
    if b != [] {
      assert b == b[..|b| - 1] + [b[|b| - 1]];
      WithoutMember(b[..|b| - 1], a, x);
    }
  }

  /** Adding one more element to the builder is one more `Add`. */
  lemma DistinctSnoc<X>(xs: seq<X>, x: X)
    ensures Distinct(xs + [x]) == Add(Distinct(xs), x)
  {
    assert (xs + [x])[..|xs + [x]| - 1] == xs;
  }

  /** The copy has as many elements as the list exactly when the list has no duplicates. */
  lemma {:induction false} DistinctLength<X>(xs: seq<X>)
    ensures |Distinct(xs)| == |xs| <==> NoDuplicates(xs)
    decreases |xs|
  {
    if xs != [] {
      var init, last := xs[..|xs| - 1], xs[|xs| - 1];
      assert xs == init + [last];
      DistinctLength(init);
      DistinctMember(init, last);
      if last in init {
        var i :| 0 <= i < |init| && init[i] == last;
        assert xs[i] == xs[|xs| - 1];
      } else {
        if NoDuplicates(init) {
          forall i, j | 0 <= i < j < |xs| ensures xs[i] != xs[j] {
            if j == |xs| - 1 {
              assert xs[i] == init[i];
            } else {
              assert xs[i] == init[i] && xs[j] == init[j];
            }
          }
        }
      }
    }
  }

  /** Copying a duplicate-free list gives back the same elements in the same order. */
  lemma {:induction false} DistinctOfDistinct<X>(xs: seq<X>)
    requires NoDuplicates(xs)
    ensures Distinct(xs) == xs
    decreases |xs|
  {
    if xs != [] {
      var init, last := xs[..|xs| - 1], xs[|xs| - 1];
      assert xs == init + [last];
      DistinctOfDistinct(init);
    }
  }

  /**
   * Adding `a` and then `b` yields the set of `a` followed by the elements of `b` that `a`
   * did not already contribute, in their own first-occurrence order.
   */
  lemma {:induction false} DistinctAppend<X>(a: seq<X>, b: seq<X>)
    ensures Distinct(a + b) == Distinct(a) + Distinct(Without(b, a))
    decreases |b|
  {
    if b == [] {
      assert a + b == a;
    } else {
      var init, y := b[..|b| - 1], b[|b| - 1];
      assert a + b == (a + init) + [y];
      DistinctAppend(a, init);
      DistinctSnoc(a + init, y);
      DistinctMember(a, y);
      AddAfter(Distinct(a), Distinct(Without(init, a)), y);
      if y !in a {
        assert b == init + [y];
        DistinctSnoc(Without(init, a), y);
      }
    }
  }

  /** Adding to a set whose front part is `d` leaves `d` in front. */
  lemma AddAfter<X>(d: seq<X>, e: seq<X>, y: X)
    ensures y in d ==> Add(d + e, y) == d + e
    ensures y !in d ==> Add(d + e, y) == d + Add(e, y)
  {
  }

  /** What a prefix of the adds built stays, unchanged, at the front of the final set. */
  lemma DistinctPrefix<X>(a: seq<X>, b: seq<X>)
    ensures Distinct(a) <= Distinct(a + b)
  {
    DistinctAppend(a, b);
  }

  /**
   * Adding keeps order: whatever was added before the first occurrence of `xs[b]` comes before
   * it in the set.
   */
  lemma DistinctOrder<X>(xs: seq<X>, a: nat, b: nat)
    requires a < b < |xs| && xs[b] !in xs[..b]
    ensures exists m, n :: 0 <= m < n < |Distinct(xs)| && Distinct(xs)[m] == xs[a] && Distinct(xs)[n] == xs[b]
  {
    var front := xs[..b];
    assert xs == front + xs[b..];
    DistinctPrefix(front, xs[b..]);
    var seen := Distinct(front);
    DistinctMember(front, xs[a]);
    DistinctMember(front, xs[b]);
    DistinctMember(xs, xs[b]);
    assert xs[a] == front[a];
    var m :| 0 <= m < |seen| && seen[m] == xs[a];
    var n :| 0 <= n < |Distinct(xs)| && Distinct(xs)[n] == xs[b];
    assert Distinct(xs)[m] == xs[a];
  }

  /**
   * The same for a run `c` that follows `pre` at the front of `xs`: element `k1` of the run comes
   * before element `k2 > k1` unless the latter already occurs in `pre` or earlier in the run.
   */
  lemma DistinctOrderWithin<X>(xs: seq<X>, pre: seq<X>, c: seq<X>, k1: nat, k2: nat)
    requires pre + c <= xs && k1 < k2 < |c| && c[k2] !in pre + c[..k2]
    ensures exists m, n :: 0 <= m < n < |Distinct(xs)| && Distinct(xs)[m] == c[k1] && Distinct(xs)[n] == c[k2]
  {
    var a, b := |pre| + k1, |pre| + k2;
    assert xs[a] == (pre + c)[a] == c[k1];
    assert xs[b] == (pre + c)[b] == c[k2];
    assert xs[..b] == (pre + c)[..b] == pre + c[..k2];
    DistinctOrder(xs, a, b);
  }
}
