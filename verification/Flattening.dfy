/**
 * The continuation `compute` schedules once every per-source future has settled: it walks the
 * per-source outcomes in order and adds one envelope per failed source, one per null set, and one
 * per element of every non-null set to an `ImmutableSet.Builder`.
 */
module Flattening {
  import opened Wrappers
  import opened OrderedSets
  import opened Envelopes

  /** The envelope for element `position` of the set from source `slot`; a null one fails. */
  function ElementEnvelope<T, E>(v: Option<T>, slot: nat, position: nat): Produced<T, E> {
    match v
    case None => Failed(NullPointer(NullElement, slot, position))
    case Some(x) => Successful(x)
  }

  /** The envelopes of the first `n` elements of a non-null set from source `slot`, in iteration order. */
  function ElementEnvelopes<T, E>(s: seq<Option<T>>, slot: nat, n: nat): seq<Produced<T, E>>
    requires n <= |s|
  {
    if n == 0 then []
    else ElementEnvelopes(s, slot, n - 1) + [ElementEnvelope(s[n - 1], slot, n - 1)]
  }

  /** The envelopes the outcome of source `slot` adds to the builder, in order. */
  function Contribution<T, E>(p: ProducedSet<T, E>, slot: nat): seq<Produced<T, E>> {
    match p
    case Failed(cause) => [Failed(cause)]
    case Successful(None) => [Failed(NullPointer(NullSet, slot, 0))]
    case Successful(Some(s)) => ElementEnvelopes(s, slot, |s|)
  }

  /** Every `builder.add` argument, in call order, for the first `n` per-source outcomes. */
  function Emissions<T, E>(ps: seq<ProducedSet<T, E>>, n: nat): seq<Produced<T, E>>
    requires n <= |ps|
  {
    if n == 0 then []
    else Emissions(ps, n - 1) + Contribution(ps[n - 1], n - 1)
  }

  /** The set `builder.build()` returns: the emitted envelopes, first occurrence kept. */
  function Flatten<T(==), E(==)>(ps: seq<ProducedSet<T, E>>): seq<Produced<T, E>> {
    Distinct(Emissions(ps, |ps|))
  }

  /** The anonymous `Function.apply`: nested loops over the outcomes and each set's elements. */
  method Apply<T(==), E(==)>(producedSets: seq<ProducedSet<T, E>>) returns (r: seq<Produced<T, E>>)
    ensures r == Flatten(producedSets)
  {
    var builder: seq<Produced<T, E>> := [];
    ghost var emitted: seq<Produced<T, E>> := [];
    for i := 0 to |producedSets|
      invariant emitted == Emissions(producedSets, i)
      invariant builder == Distinct(emitted)
    {
      match producedSets[i] {
        case Failed(cause) =>
          var e: Produced<T, E> := Failed(cause);
          DistinctSnoc(emitted, e);
          builder := Add(builder, e);
        case Successful(None) =>
          var e: Produced<T, E> := Failed(NullPointer(NullSet, i, 0));
          DistinctSnoc(emitted, e);
          builder := Add(builder, e);
        case Successful(Some(s)) =>
          builder := AddElements(builder, i, s, emitted);
      }
      emitted := emitted + Contribution(producedSets[i], i);
    }
    r := builder;
  }

  /** The inner loop of `apply`: one `builder.add` per element of the non-null set of `slot`. */
  method AddElements<T(==), E(==)>(builder: seq<Produced<T, E>>, slot: nat, s: seq<Option<T>>, ghost emitted: seq<Produced<T, E>>)
    returns (builder': seq<Produced<T, E>>)
    requires builder == Distinct(emitted)
    ensures builder' == Distinct(emitted + ElementEnvelopes<T, E>(s, slot, |s|))
  {
    builder' := builder;
    assert emitted + ElementEnvelopes<T, E>(s, slot, 0) == emitted;
    for k := 0 to |s|
      invariant builder' == Distinct(emitted + ElementEnvelopes<T, E>(s, slot, k))
    {
      ghost var done := ElementEnvelopes<T, E>(s, slot, k);
      var e: Produced<T, E>;
      if s[k].None? {
        e := Failed(NullPointer(NullElement, slot, k));
      } else {
        e := Successful(s[k].value);
      }
      DistinctSnoc(emitted + done, e);
      assert (emitted + done) + [e] == emitted + (done + [e]);
      builder' := Add(builder', e);
    }
  }

  /** A non-null set contributes one envelope per element. */
  lemma {:induction false} ElementEnvelopesLength<T, E>(s: seq<Option<T>>, slot: nat, n: nat)
    requires n <= |s|
    ensures |ElementEnvelopes<T, E>(s, slot, n)| == n
  {
    if n > 0 {
      ElementEnvelopesLength<T, E>(s, slot, n - 1);
    }
  }

  /** Element `k` of the set from source `slot` gets the envelope made for position `k`. */
  lemma {:induction false} ElementEnvelopesAt<T, E>(s: seq<Option<T>>, slot: nat, n: nat, k: nat)
    requires k < n <= |s|
    ensures k < |ElementEnvelopes<T, E>(s, slot, n)|
    ensures ElementEnvelopes<T, E>(s, slot, n)[k] == ElementEnvelope(s[k], slot, k)
  {
    ElementEnvelopesLength<T, E>(s, slot, n - 1);
    if k < n - 1 {
      ElementEnvelopesAt<T, E>(s, slot, n - 1, k);
    }
  }

  /**
   * How many `builder.add` calls one source makes: exactly one for a failed source or a null
   * set, one per element for a non-null set.
   */
  lemma ContributionLength<T, E>(p: ProducedSet<T, E>, slot: nat)
    ensures p.Failed? ==> Contribution(p, slot) == [Failed(p.cause)]
    ensures p == Successful(None) ==> Contribution(p, slot) == [Failed(NullPointer(NullSet, slot, 0))]
    ensures p.Successful? && p.value.Some? ==> |Contribution(p, slot)| == |p.value.value|
  {
    if p.Successful? && p.value.Some? {
      ElementEnvelopesLength<T, E>(p.value.value, slot, |p.value.value|);
    }
  }

  /** What the first `m` outcomes emit is emitted, in the same order, before anything later. */
  lemma {:induction false} EmissionsPrefix<T, E>(ps: seq<ProducedSet<T, E>>, m: nat, n: nat)
    requires m <= n <= |ps|
    ensures Emissions(ps, m) <= Emissions(ps, n)
  {
    if m < n {
      EmissionsPrefix(ps, m, n - 1);
    }
  }

  /** Emissions depend only on the outcomes emitted so far. */
  lemma {:induction false} EmissionsAgree<T, E>(ps: seq<ProducedSet<T, E>>, qs: seq<ProducedSet<T, E>>, n: nat)
    requires n <= |ps| && n <= |qs|
    requires forall i :: 0 <= i < n ==> ps[i] == qs[i]
    ensures Emissions(ps, n) == Emissions(qs, n)
  {
    if n > 0 {
      EmissionsAgree(ps, qs, n - 1);
    }
  }

  /** Some of the first `n` outcomes contributes envelope `x`. */
  ghost predicate ContributedBefore<T, E>(ps: seq<ProducedSet<T, E>>, n: nat, x: Produced<T, E>)
    requires n <= |ps|
  {
    exists i, k :: 0 <= i < n && 0 <= k < |Contribution(ps[i], i)| && Contribution(ps[i], i)[k] == x
  }

  /** Envelope `k` contributed by source `i` is emitted by every run over more than `i` outcomes. */
  lemma EmittedBy<T, E>(ps: seq<ProducedSet<T, E>>, i: nat, k: nat, n: nat)
    requires i < n <= |ps| && k < |Contribution(ps[i], i)|
    ensures Contribution(ps[i], i)[k] in Emissions(ps, n)
  {
    var pre, c := Emissions(ps, i), Contribution(ps[i], i);
    assert Emissions(ps, i + 1)[|pre| + k] == c[k];
    EmissionsPrefix(ps, i + 1, n);
    assert Emissions(ps, n)[|pre| + k] == c[k];
  }

  /** Whatever the first `n` outcomes emit, one of them contributes. */
  lemma {:induction false} EmittedFrom<T, E>(ps: seq<ProducedSet<T, E>>, n: nat, x: Produced<T, E>)
    requires n <= |ps| && x in Emissions(ps, n)
    ensures ContributedBefore(ps, n, x)
  {
    var pre, c := Emissions(ps, n - 1), Contribution(ps[n - 1], n - 1);
    assert Emissions(ps, n) == pre + c;
    if x in pre {
      EmittedFrom(ps, n - 1, x);
      var i, k :| 0 <= i < n - 1 && 0 <= k < |Contribution(ps[i], i)| && Contribution(ps[i], i)[k] == x;
      assert ContributedBefore(ps, n, x);
    } else {
      var k :| 0 <= k < |c| && c[k] == x;
      assert ContributedBefore(ps, n, x);
    }
  }

  /**
   * The output holds exactly the envelopes some source contributes: every failed source's cause,
   * every null set's exception, every element's envelope, and nothing else.
   */
  lemma FlattenMember<T, E>(ps: seq<ProducedSet<T, E>>, x: Produced<T, E>)
    ensures x in Flatten(ps) <==> ContributedBefore(ps, |ps|, x)
  {
    DistinctMember(Emissions(ps, |ps|), x);
    if x in Emissions(ps, |ps|) {
      EmittedFrom(ps, |ps|, x);
    }
    if ContributedBefore(ps, |ps|, x) {
      var i, k :| 0 <= i < |ps| && 0 <= k < |Contribution(ps[i], i)| && Contribution(ps[i], i)[k] == x;
      EmittedBy(ps, i, k, |ps|);
    }
  }

  /** Envelope `k` contributed by source `i` reaches the output, whatever the other sources did. */
  lemma ContributionKept<T, E>(ps: seq<ProducedSet<T, E>>, i: nat, k: nat)
    requires i < |ps| && k < |Contribution(ps[i], i)|
    ensures Contribution(ps[i], i)[k] in Flatten(ps)
  {
    EmittedBy(ps, i, k, |ps|);
    DistinctMember(Emissions(ps, |ps|), Contribution(ps[i], i)[k]);
  }

  /**
   * Per source: a failed outcome puts its own cause in the output, a null set one fresh
   * null-pointer failure, and a non-null set one envelope per element, a fresh null-pointer
   * failure for each null element and the value itself for the others.
   */
  lemma FlattenSlot<T, E>(ps: seq<ProducedSet<T, E>>, i: nat)
    requires i < |ps|
    ensures ps[i].Failed? ==> Failed(ps[i].cause) in Flatten(ps)
    ensures ps[i] == Successful(None) ==> Failed(NullPointer(NullSet, i, 0)) in Flatten(ps)
    ensures ps[i].Successful? && ps[i].value.Some? ==>
              forall k :: 0 <= k < |ps[i].value.value| ==>
                (ps[i].value.value[k].Some? ==> Successful(ps[i].value.value[k].value) in Flatten(ps)) &&
                (ps[i].value.value[k].None? ==> Failed(NullPointer(NullElement, i, k)) in Flatten(ps))
  {
    match ps[i] {
      case Failed(_) =>
        ContributionKept(ps, i, 0);
      case Successful(None) =>
        ContributionKept(ps, i, 0);
      case Successful(Some(s)) =>
        forall k | 0 <= k < |s|
          ensures ElementEnvelope<T, E>(s[k], i, k) in Flatten(ps)
        {
          ElementEnvelopesAt<T, E>(s, i, |s|, k);
          ContributionKept(ps, i, k);
        }
    }
  }

  /** The output for some outcomes is a prefix of the output once more outcomes follow. */
  lemma FlattenPrefix<T, E>(ps: seq<ProducedSet<T, E>>, qs: seq<ProducedSet<T, E>>)
    ensures Flatten(ps) <= Flatten(ps + qs)
  {
    var all := ps + qs;
    EmissionsAgree(ps, all, |ps|);
    EmissionsPrefix(all, |ps|, |all|);
    var front, full := Emissions(ps, |ps|), Emissions(all, |all|);
    assert full == front + full[|front|..];
    DistinctPrefix(front, full[|front|..]);
  }

  /** What the builder holds after the first `n` outcomes is a prefix of the final output. */
  lemma BuiltSoFar<T, E>(ps: seq<ProducedSet<T, E>>, n: nat)
    requires n <= |ps|
    ensures Distinct(Emissions(ps, n)) <= Flatten(ps)
  {
    var front, full := Emissions(ps, n), Emissions(ps, |ps|);
    EmissionsPrefix(ps, n, |ps|);
    assert full == front + full[|front|..];
    DistinctPrefix(front, full[|front|..]);
  }

  /**
   * Output order follows source order: an envelope of an earlier source comes before an envelope
   * of a later source that no earlier source emitted.
   */
  lemma FlattenOrder<T, E>(ps: seq<ProducedSet<T, E>>, i: nat, j: nat, kx: nat, ky: nat)
    requires i < j < |ps|
    requires kx < |Contribution(ps[i], i)| && ky < |Contribution(ps[j], j)|
    requires Contribution(ps[j], j)[ky] !in Emissions(ps, j)
    ensures exists m, n :: 0 <= m < n < |Flatten(ps)| &&
              Flatten(ps)[m] == Contribution(ps[i], i)[kx] && Flatten(ps)[n] == Contribution(ps[j], j)[ky]
  {
    var x, y := Contribution(ps[i], i)[kx], Contribution(ps[j], j)[ky];
    var front := Emissions(ps, j);
    var seen := Distinct(front);
    BuiltSoFar(ps, j);
    EmittedBy(ps, i, kx, j);
    DistinctMember(front, x);
    var m :| 0 <= m < |seen| && seen[m] == x;
    ContributionKept(ps, j, ky);
    var n :| 0 <= n < |Flatten(ps)| && Flatten(ps)[n] == y;
    DistinctMember(front, y);
    assert Flatten(ps)[m] == x;
  }

  /**
   * The output iterates in add order: an envelope emitted before the first emission of another
   * comes before it in the output.
   */
  lemma FlattenKeepsOrder<T, E>(ps: seq<ProducedSet<T, E>>, a: nat, b: nat)
    requires a < b < |Emissions(ps, |ps|)| && Emissions(ps, |ps|)[b] !in Emissions(ps, |ps|)[..b]
    ensures exists m, n :: 0 <= m < n < |Flatten(ps)| &&
              Flatten(ps)[m] == Emissions(ps, |ps|)[a] && Flatten(ps)[n] == Emissions(ps, |ps|)[b]
  {
    DistinctOrder(Emissions(ps, |ps|), a, b);
    assert Flatten(ps) == Distinct(Emissions(ps, |ps|));
  }

  /**
   * Within one source, output order follows iteration order: envelope `k1` of a set comes before
   * envelope `k2 > k1` of the same set unless the latter was emitted earlier.
   */
  lemma FlattenWithinSource<T, E>(ps: seq<ProducedSet<T, E>>, i: nat, k1: nat, k2: nat)
    requires i < |ps| && k1 < k2 < |Contribution(ps[i], i)|
    requires Contribution(ps[i], i)[k2] !in Emissions(ps, i) + Contribution(ps[i], i)[..k2]
    ensures exists m, n :: 0 <= m < n < |Flatten(ps)| &&
              Flatten(ps)[m] == Contribution(ps[i], i)[k1] && Flatten(ps)[n] == Contribution(ps[i], i)[k2]
  {
    assert Emissions(ps, i + 1) == Emissions(ps, i) + Contribution(ps[i], i);
    EmissionsPrefix(ps, i + 1, |ps|);
    DistinctOrderWithin(Emissions(ps, |ps|), Emissions(ps, i), Contribution(ps[i], i), k1, k2);
    assert Flatten(ps) == Distinct(Emissions(ps, |ps|));
  }

  /**
   * A null-pointer failure among the envelopes of source `slot`, whether created while wrapping a
   * null value or by the flattening, names that slot and its position among those envelopes.
   */
  lemma ContributionNulls<T, E>(p: ProducedSet<T, E>, slot: nat, k: nat)
    requires FailedUpstream(p, slot)
    requires k < |Contribution(p, slot)| && IsNullPointer(Contribution(p, slot)[k])
    ensures Contribution(p, slot)[k].cause.slot == slot
    ensures Contribution(p, slot)[k].cause.position == k
  {
    if p.Successful? && p.value.Some? {
      ElementEnvelopesLength<T, E>(p.value.value, slot, |p.value.value|);
      ElementEnvelopesAt<T, E>(p.value.value, slot, |p.value.value|, k);
    }
  }

  /** The null-pointer failures among the first `n` outcomes' envelopes all name one of those `n` slots. */
  lemma {:induction false} EmittedNullSlot<T, E>(ps: seq<ProducedSet<T, E>>, n: nat, j: nat)
    requires n <= |ps| && forall i :: 0 <= i < |ps| ==> FailedUpstream(ps[i], i)
    requires j < |Emissions(ps, n)| && IsNullPointer(Emissions(ps, n)[j])
    ensures Emissions(ps, n)[j].cause.slot < n
  {
    var pre, c := Emissions(ps, n - 1), Contribution(ps[n - 1], n - 1);
    assert Emissions(ps, n) == pre + c;
    if j < |pre| {
      EmittedNullSlot(ps, n - 1, j);
    } else {
      ContributionNulls(ps[n - 1], n - 1, j - |pre|);
    }
  }

  /**
   * Every null value, null set and null element gets an exception of its own: no null-pointer
   * failure among the envelopes added equals any other envelope added, so the builder never
   * drops one.
   */
  lemma {:induction false} NullPointersUnique<T, E>(ps: seq<ProducedSet<T, E>>, n: nat, j1: nat, j2: nat)
    requires n <= |ps| && forall i :: 0 <= i < |ps| ==> FailedUpstream(ps[i], i)
    requires j1 < j2 < |Emissions(ps, n)| && IsNullPointer(Emissions(ps, n)[j1])
    ensures Emissions(ps, n)[j1] != Emissions(ps, n)[j2]
  {
    var all, pre, c := Emissions(ps, n), Emissions(ps, n - 1), Contribution(ps[n - 1], n - 1);
    assert all == pre + c;
    if j2 < |pre| {
      assert all[j1] == pre[j1] && all[j2] == pre[j2];
      NullPointersUnique(ps, n - 1, j1, j2);
    } else if j1 < |pre| {
      assert all[j1] == pre[j1] && all[j2] == c[j2 - |pre|];
      EmittedNullSlot(ps, n - 1, j1);
      if IsNullPointer(c[j2 - |pre|]) {
        ContributionNulls(ps[n - 1], n - 1, j2 - |pre|);
      }
    } else {
      assert all[j1] == c[j1 - |pre|] && all[j2] == c[j2 - |pre|];
      ContributionNulls(ps[n - 1], n - 1, j1 - |pre|);
      if IsNullPointer(c[j2 - |pre|]) {
        ContributionNulls(ps[n - 1], n - 1, j2 - |pre|);
      }
    }
  }
}
