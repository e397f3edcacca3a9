/**
 * `compute`: ask every producer for its future, individual producers first and set producers
 * after, turn each settled future into a per-source outcome, and flatten the outcomes once all
 * have settled. The futures themselves are not modelled: each producer handle comes with the
 * way its future settles, or with `None` when `get()` returned null.
 */
module Aggregation {
  import opened Wrappers
  import opened Envelopes
  import opened Registration
  import opened Flattening

  /** `compute` throws a NullPointerException itself when a producer returns a null future. */
  datatype ComputeError = NullFuture

  /** `createFutureProduced(createFutureSingletonSet(...))`: a value becomes a one-element set. */
  function WrapIndividual<T, E>(f: Settled<Option<T>, E>, slot: nat): ProducedSet<T, E> {
    match f
    case Threw(e) => Failed(Cause(e))
    case Resolved(None) => Failed(NullPointer(NullValue, slot, 0))
    case Resolved(Some(v)) => Successful(Some([Some(v)]))
  }

  /** `createFutureProduced`: a settled set, or the failure that replaced it. */
  function WrapSet<T, E>(f: Settled<NullableSet<T>, E>): ProducedSet<T, E> {
    match f
    case Threw(e) => Failed(Cause(e))
    case Resolved(s) => Successful(s)
  }

  /** No producer of the aggregator returns a null future. */
  predicate FuturesPresent<H(==), S(==), T, E>(
    agg: SetOfProducedProducer<H, S>,
    getIndividual: H -> Option<Settled<Option<T>, E>>,
    getSet: S -> Option<Settled<NullableSet<T>, E>>)
  {
    (forall i :: 0 <= i < |agg.individualProducers| ==> getIndividual(agg.individualProducers[i]).Some?) &&
    (forall j :: 0 <= j < |agg.setProducers| ==> getSet(agg.setProducers[j]).Some?)
  }

  /** The outcome of slot `i`: individual producers take the first slots, set producers the rest. */
  function SourceOutcome<H(==), S(==), T, E>(
    agg: SetOfProducedProducer<H, S>,
    getIndividual: H -> Option<Settled<Option<T>, E>>,
    getSet: S -> Option<Settled<NullableSet<T>, E>>,
    i: nat): ProducedSet<T, E>
    requires FuturesPresent(agg, getIndividual, getSet)
    requires i < |agg.individualProducers| + |agg.setProducers|
  {
    var n := |agg.individualProducers|;
    if i < n then WrapIndividual(getIndividual(agg.individualProducers[i]).value, i)
    else WrapSet(getSet(agg.setProducers[i - n]).value)
  }

  /** `futureProducedSets` once every future has settled, in slot order. */
  function Outcomes<H(==), S(==), T, E>(
    agg: SetOfProducedProducer<H, S>,
    getIndividual: H -> Option<Settled<Option<T>, E>>,
    getSet: S -> Option<Settled<NullableSet<T>, E>>): seq<ProducedSet<T, E>>
    requires FuturesPresent(agg, getIndividual, getSet)
  {
    seq(|agg.individualProducers| + |agg.setProducers|,
        i requires 0 <= i < |agg.individualProducers| + |agg.setProducers| =>
          SourceOutcome(agg, getIndividual, getSet, i))
  }

  /** What `compute` delivers: a null future is thrown at once, otherwise the flattened outcomes. */
  function Produce<H(==), S(==), T(==), E(==)>(
    agg: SetOfProducedProducer<H, S>,
    getIndividual: H -> Option<Settled<Option<T>, E>>,
    getSet: S -> Option<Settled<NullableSet<T>, E>>): Result<seq<Produced<T, E>>, ComputeError>
  {
    if FuturesPresent(agg, getIndividual, getSet) then Success(Flatten(Outcomes(agg, getIndividual, getSet)))
    else Failure(NullFuture)
  }

  /** The two `for` loops of `compute` that fill `futureProducedSets`. */
  method CollectSources<H(==), S(==), T, E>(
    agg: SetOfProducedProducer<H, S>,
    getIndividual: H -> Option<Settled<Option<T>, E>>,
    getSet: S -> Option<Settled<NullableSet<T>, E>>)
    returns (r: Result<seq<ProducedSet<T, E>>, ComputeError>)
    ensures r.Success? <==> FuturesPresent(agg, getIndividual, getSet)
    ensures r.Failure? ==> r.error == NullFuture
    ensures r.Success? ==> r.value == Outcomes(agg, getIndividual, getSet)
  {
    var n := |agg.individualProducers|;
    var futureProducedSets: seq<ProducedSet<T, E>> := [];
    for i := 0 to n
      invariant |futureProducedSets| == i
      invariant forall k :: 0 <= k < i ==> getIndividual(agg.individualProducers[k]).Some?
      invariant forall k :: 0 <= k < i ==>
                  futureProducedSets[k] == WrapIndividual(getIndividual(agg.individualProducers[k]).value, k)
    {
      var future := getIndividual(agg.individualProducers[i]);
      if future.None? {
        return Failure(NullFuture);
      }
      futureProducedSets := futureProducedSets + [WrapIndividual(future.value, i)];
    }
    for j := 0 to |agg.setProducers|
      invariant |futureProducedSets| == n + j
      invariant forall k :: 0 <= k < n ==> getIndividual(agg.individualProducers[k]).Some?
      invariant forall k :: 0 <= k < j ==> getSet(agg.setProducers[k]).Some?
      invariant forall k :: 0 <= k < n ==>
                  futureProducedSets[k] == WrapIndividual(getIndividual(agg.individualProducers[k]).value, k)
      invariant forall k :: 0 <= k < j ==>
                  futureProducedSets[n + k] == WrapSet(getSet(agg.setProducers[k]).value)
    {
      var future := getSet(agg.setProducers[j]);
      if future.None? {
        return Failure(NullFuture);
      }
      futureProducedSets := futureProducedSets + [WrapSet(future.value)];
    }
    r := Success(futureProducedSets);
  }

  /** `compute` with the futures settled: collect the per-source outcomes, then flatten them. */
  method Compute<H(==), S(==), T(==), E(==)>(
    agg: SetOfProducedProducer<H, S>,
    getIndividual: H -> Option<Settled<Option<T>, E>>,
    getSet: S -> Option<Settled<NullableSet<T>, E>>)
    returns (r: Result<seq<Produced<T, E>>, ComputeError>)
    ensures r == Produce(agg, getIndividual, getSet)
  {
    var sources := CollectSources(agg, getIndividual, getSet);
    if sources.Failure? {
      return Failure(sources.error);
    }
    var flattened := Apply(sources.value);
    r := Success(flattened);
  }

  /**
   * An individual producer's result reaches the output whatever the other producers did: its
   * failure, a fresh null-pointer failure for a null value, or its value.
   */
  lemma IndividualInOutput<H, S, T, E>(
    agg: SetOfProducedProducer<H, S>,
    getIndividual: H -> Option<Settled<Option<T>, E>>,
    getSet: S -> Option<Settled<NullableSet<T>, E>>,
    i: nat)
    requires FuturesPresent(agg, getIndividual, getSet) && i < |agg.individualProducers|
    ensures var f, out := getIndividual(agg.individualProducers[i]).value, Produce(agg, getIndividual, getSet).value;
      (f.Threw? ==> Failed(Cause(f.error)) in out) &&
      (f == Resolved(None) ==> Failed(NullPointer(NullValue, i, 0)) in out) &&
      (f.Resolved? && f.value.Some? ==> Successful(f.value.value) in out)
  {
    var ps := Outcomes(agg, getIndividual, getSet);
    var f := getIndividual(agg.individualProducers[i]).value;
    assert ps[i] == SourceOutcome(agg, getIndividual, getSet, i);
    FlattenSlot(ps, i);
    if f.Resolved? && f.value.Some? {
      assert ps[i].value.value[0] == Some(f.value.value);
    }
  }

  /**
   * A set producer's result reaches the output whatever the other producers did: its failure, a
   * fresh null-pointer failure for a null set, or one envelope per element.
   */
  lemma SetInOutput<H, S, T, E>(
    agg: SetOfProducedProducer<H, S>,
    getIndividual: H -> Option<Settled<Option<T>, E>>,
    getSet: S -> Option<Settled<NullableSet<T>, E>>,
    j: nat)
    requires FuturesPresent(agg, getIndividual, getSet) && j < |agg.setProducers|
    ensures var f, out, slot := getSet(agg.setProducers[j]).value, Produce(agg, getIndividual, getSet).value,
                                |agg.individualProducers| + j;
      (f.Threw? ==> Failed(Cause(f.error)) in out) &&
      (f == Resolved(None) ==> Failed(NullPointer(NullSet, slot, 0)) in out) &&
      (f.Resolved? && f.value.Some? ==>
         forall k :: 0 <= k < |f.value.value| ==>
           (f.value.value[k].Some? ==> Successful(f.value.value[k].value) in out) &&
           (f.value.value[k].None? ==> Failed(NullPointer(NullElement, slot, k)) in out))
  {
    var ps := Outcomes(agg, getIndividual, getSet);
    var slot := |agg.individualProducers| + j;
    assert ps[slot] == SourceOutcome(agg, getIndividual, getSet, slot);
    FlattenSlot(ps, slot);
  }

  /** The output begins with exactly what the individual producers alone would produce. */
  lemma IndividualsFirst<H, S, T, E>(
    agg: SetOfProducedProducer<H, S>,
    getIndividual: H -> Option<Settled<Option<T>, E>>,
    getSet: S -> Option<Settled<NullableSet<T>, E>>)
    requires FuturesPresent(agg, getIndividual, getSet)
    ensures var alone := SetOfProducedProducer(agg.individualProducers, []);
      Produce(alone, getIndividual, getSet).Success? &&
      Produce(alone, getIndividual, getSet).value <= Produce(agg, getIndividual, getSet).value
  {
    var alone := SetOfProducedProducer(agg.individualProducers, []);
    var ps, front := Outcomes(agg, getIndividual, getSet), Outcomes(alone, getIndividual, getSet);
    var n := |agg.individualProducers|;
    assert front == ps[..n];
    assert ps == front + ps[n..];
    FlattenPrefix(front, ps[n..]);
  }

  /**
   * No null-pointer failure the aggregation creates, for a null value, a null set or a null
   * element, is merged with another envelope: each keeps an envelope of its own in the output.
   */
  lemma NullFailuresKept<H, S, T, E>(
    agg: SetOfProducedProducer<H, S>,
    getIndividual: H -> Option<Settled<Option<T>, E>>,
    getSet: S -> Option<Settled<NullableSet<T>, E>>)
    requires FuturesPresent(agg, getIndividual, getSet)
    ensures var ps := Outcomes(agg, getIndividual, getSet);
      forall j1, j2 :: 0 <= j1 < |Emissions(ps, |ps|)| && 0 <= j2 < |Emissions(ps, |ps|)| && j1 != j2 &&
                       IsNullPointer(Emissions(ps, |ps|)[j1]) ==>
        Emissions(ps, |ps|)[j1] != Emissions(ps, |ps|)[j2]
  {
    var ps := Outcomes(agg, getIndividual, getSet);
    var all := Emissions(ps, |ps|);
    forall i | 0 <= i < |ps|
      ensures FailedUpstream(ps[i], i)
    {
      assert ps[i] == SourceOutcome(agg, getIndividual, getSet, i);
    }
    forall j1, j2 | 0 <= j1 < |all| && 0 <= j2 < |all| && j1 != j2 && IsNullPointer(all[j1])
      ensures all[j1] != all[j2]
    {
      if j1 < j2 {
        NullPointersUnique(ps, |ps|, j1, j2);
      } else if IsNullPointer(all[j2]) {
        NullPointersUnique(ps, |ps|, j2, j1);
      }
    }
  }
}
