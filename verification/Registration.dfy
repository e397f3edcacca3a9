/**
 * Assembling the aggregator: `SetOfProducedProducer.Builder` collects individual producers and
 * set producers in two lists and `build()` freezes them, after checking that neither list holds
 * the same producer twice.
 */
module Registration {
  import opened Wrappers
  import opened OrderedSets

  /** The assertion errors the builder raises on a wiring mistake. */
  datatype BuildError = NullProducer | DuplicateProducers

  /**
   * The built aggregator. Its two fields are the frozen `ImmutableSet` copies of the builder's
   * lists: individual producers with handles of type `H`, set producers with handles of type `S`.
   * `compute` never consults `Valid()`, so the model of it (module `Aggregation`) takes any
   * aggregator, as the source's `compute` works on whatever the two sets hold.
   */
  datatype SetOfProducedProducer<H(==), S(==)> =
    SetOfProducedProducer(individualProducers: seq<H>, setProducers: seq<S>)
  {
    /** Neither collection holds a producer twice. */
    predicate Valid() {
      NoDuplicates(individualProducers) && NoDuplicates(setProducers)
    }
  }

  /** `hasDuplicates`: the list is longer than its copy as a set. */
  function HasDuplicates<X(==)>(xs: seq<X>): (b: bool)
    ensures b <==> exists i, j :: 0 <= i < j < |xs| && xs[i] == xs[j]
  {
    DistinctLength(xs);
    |xs| != |Distinct(xs)|
  }

  /** `SetOfProducedProducer.Builder`: two growable lists of producer handles. */
  class Builder<H(==), S(==)> {
    var individualProducers: seq<H>
    var setProducers: seq<S>

    constructor ()
      ensures individualProducers == [] && setProducers == []
    {
      individualProducers := [];
      setProducers := [];
    }

    /** `addProducer`: a null producer is an assertion error; otherwise it goes last. */
    method AddProducer(individualProducer: Option<H>) returns (r: Outcome<BuildError>)
      modifies this
      ensures individualProducer.None? ==>
                r == Fail(NullProducer) && individualProducers == old(individualProducers)
      ensures individualProducer.Some? ==>
                r == Pass && individualProducers == old(individualProducers) + [individualProducer.value]
      ensures setProducers == old(setProducers)
    {
      if individualProducer.None? {
        return Fail(NullProducer);
      }
      individualProducers := individualProducers + [individualProducer.value];
      r := Pass;
    }

    /** `addSetProducer`: the mirror image of `AddProducer`, for set producers. */
    method AddSetProducer(multipleProducer: Option<S>) returns (r: Outcome<BuildError>)
      modifies this
      ensures multipleProducer.None? ==>
                r == Fail(NullProducer) && setProducers == old(setProducers)
      ensures multipleProducer.Some? ==>
                r == Pass && setProducers == old(setProducers) + [multipleProducer.value]
      ensures individualProducers == old(individualProducers)
    {
      if multipleProducer.None? {
        return Fail(NullProducer);
      }
      setProducers := setProducers + [multipleProducer.value];
      r := Pass;
    }

    /**
     * `build`: fails when either list repeats a producer (each list is checked on its own, so
     * one handle may sit in both); otherwise the aggregator holds exactly the registered
     * producers in registration order.
     */
    method Build() returns (r: Result<SetOfProducedProducer<H, S>, BuildError>)
      ensures r.Success? <==> !HasDuplicates(individualProducers) && !HasDuplicates(setProducers)
      ensures r.Failure? ==> r.error == DuplicateProducers
      ensures r.Success? ==> r.value.Valid()
      ensures r.Success? ==> r.value.individualProducers == individualProducers
      ensures r.Success? ==> r.value.setProducers == setProducers
    {
      if HasDuplicates(individualProducers) || HasDuplicates(setProducers) {
        return Failure(DuplicateProducers);
      }
      var individual := Distinct(individualProducers);
      var sets := Distinct(setProducers);
      DistinctOfDistinct(individualProducers);
      DistinctOfDistinct(setProducers);
      r := Success(SetOfProducedProducer(individual, sets));
    }
  }
}
