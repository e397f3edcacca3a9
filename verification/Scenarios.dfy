/**
 * Concrete runs of the aggregator: the documented behaviour for a few small wirings.
 */
module Scenarios {
  import opened Wrappers
  import opened Envelopes
  import opened Registration
  import opened Flattening
  import opened Aggregation

  /** Individual producers yielding "a" and "b", then a set producer yielding {"c", "d"}. */
  lemma ValuesThenSet()
    ensures var agg := SetOfProducedProducer([1, 2], [3]);
      var getIndividual := (h: int) => if h == 1 then Some(Resolved(Some("a"))) else Some(Resolved(Some("b")));
      var getSet := (h: int) => Some(Resolved(Some([Some("c"), Some("d")])));
      Produce<int, int, string, string>(agg, getIndividual, getSet) ==
        Success([Successful("a"), Successful("b"), Successful("c"), Successful("d")])
  {
    var agg := SetOfProducedProducer([1, 2], [3]);
    var getIndividual := (h: int) => if h == 1 then Some(Resolved(Some("a"))) else Some(Resolved(Some("b")));
    var getSet := (h: int) => Some(Resolved(Some([Some("c"), Some("d")])));
    var ps := Outcomes<int, int, string, string>(agg, getIndividual, getSet);
    assert ps == [Successful(Some([Some("a")])), Successful(Some([Some("b")])), Successful(Some([Some("c"), Some("d")]))];
    assert Contribution(ps[0], 0) == [Successful("a")];
    assert Contribution(ps[1], 1) == [Successful("b")];
    assert ElementEnvelopes<string, string>([Some("c"), Some("d")], 2, 1) == [Successful("c")];
    assert Contribution(ps[2], 2) == [Successful("c"), Successful("d")];
    var emitted := [Successful("a"), Successful("b"), Successful("c"), Successful("d")];
    assert Emissions(ps, 1) == [Successful("a")];
    assert Emissions(ps, 2) == [Successful("a"), Successful("b")];
    assert Emissions(ps, 3) == emitted;
    OrderedSets.DistinctOfDistinct(emitted);
  }

  /** A failed individual producer, then a set producer yielding {"x"}: the failure does not abort the rest. */
  lemma FailureThenSet()
    ensures var agg := SetOfProducedProducer([1], [2]);
      var getIndividual := (h: int) => Some(Threw("timeout"));
      var getSet := (h: int) => Some(Resolved(Some([Some("x")])));
      Produce<int, int, string, string>(agg, getIndividual, getSet) ==
        Success([Failed(Cause("timeout")), Successful("x")])
  {
    var agg := SetOfProducedProducer([1], [2]);
    var getIndividual := (h: int) => Some(Threw("timeout"));
    var getSet := (h: int) => Some(Resolved(Some([Some("x")])));
    var ps := Outcomes<int, int, string, string>(agg, getIndividual, getSet);
    assert ps == [Failed(Cause("timeout")), Successful(Some([Some("x")]))];
    assert Contribution(ps[1], 1) == [Successful("x")];
    var emitted: seq<Produced<string, string>> := [Failed(Cause("timeout")), Successful("x")];
    assert Emissions(ps, 1) == [Failed(Cause("timeout"))];
    assert Emissions(ps, 2) == emitted;
    OrderedSets.DistinctOfDistinct(emitted);
  }

  /** A set producer yielding a null set: one null-pointer failure stands for the whole source. */
  lemma NullSetOnly()
    ensures var agg := SetOfProducedProducer([], [1]);
      var getIndividual := (h: int) => Some(Resolved(Some("unused")));
      var getSet := (h: int) => Some(Resolved(None));
      Produce<int, int, string, string>(agg, getIndividual, getSet) ==
        Success([Failed(NullPointer(NullSet, 0, 0))])
  {
    var agg := SetOfProducedProducer([], [1]);
    var getIndividual := (h: int) => Some(Resolved(Some("unused")));
    var getSet := (h: int) => Some(Resolved(None));
    var ps := Outcomes<int, int, string, string>(agg, getIndividual, getSet);
    assert ps == [Successful(None)];
    assert Emissions(ps, 1) == [Failed(NullPointer(NullSet, 0, 0))];
  }

  /** A null element among values: the values stay, and the null becomes one failure in its place. */
  lemma NullElementAmongValues()
    ensures var agg := SetOfProducedProducer([], [1]);
      var getIndividual := (h: int) => Some(Resolved(Some("unused")));
      var getSet := (h: int) => Some(Resolved(Some([Some("p"), None, Some("q")])));
      Produce<int, int, string, string>(agg, getIndividual, getSet) ==
        Success([Successful("p"), Failed(NullPointer(NullElement, 0, 1)), Successful("q")])
  {
    var agg := SetOfProducedProducer([], [1]);
    var getIndividual := (h: int) => Some(Resolved(Some("unused")));
    var getSet := (h: int) => Some(Resolved(Some([Some("p"), None, Some("q")])));
    var ps := Outcomes<int, int, string, string>(agg, getIndividual, getSet);
    var s := [Some("p"), None, Some("q")];
    assert ps == [Successful(Some(s))];
    assert ElementEnvelopes<string, string>(s, 0, 1) == [Successful("p")];
    assert ElementEnvelopes<string, string>(s, 0, 2) == [Successful("p"), Failed(NullPointer(NullElement, 0, 1))];
    var emitted := [Successful("p"), Failed(NullPointer(NullElement, 0, 1)), Successful("q")];
    assert Emissions(ps, 1) == emitted;
    OrderedSets.DistinctOfDistinct(emitted);
  }

  /**
   * Two producers failing with the same throwable, and a value produced both by an individual
   * producer and inside a set: the output set holds each equal envelope once.
   */
  lemma EqualEnvelopesCollapse()
    ensures var agg := SetOfProducedProducer([1, 2, 3], [4]);
      var getIndividual := (h: int) => if h == 3 then Some(Resolved(Some("v"))) else Some(Threw("shared"));
      var getSet := (h: int) => Some(Resolved(Some([Some("v")])));
      Produce<int, int, string, string>(agg, getIndividual, getSet) ==
        Success([Failed(Cause("shared")), Successful("v")])
  {
    var agg := SetOfProducedProducer([1, 2, 3], [4]);
    var getIndividual := (h: int) => if h == 3 then Some(Resolved(Some("v"))) else Some(Threw("shared"));
    var getSet := (h: int) => Some(Resolved(Some([Some("v")])));
    var ps := Outcomes<int, int, string, string>(agg, getIndividual, getSet);
    assert ps == [Failed(Cause("shared")), Failed(Cause("shared")), Successful(Some([Some("v")])), Successful(Some([Some("v")]))];
    SharedCauseAndRepeatedValue();
  }

  /** Flattening two equal failures, then a value from two sources. */
  lemma SharedCauseAndRepeatedValue()
    ensures Flatten<string, string>([Failed(Cause("shared")), Failed(Cause("shared")),
                                     Successful(Some([Some("v")])), Successful(Some([Some("v")]))]) ==
            [Failed(Cause("shared")), Successful("v")]
  {
    var f, v := Failed(Cause("shared")), Successful("v");
    var ps: seq<ProducedSet<string, string>> :=
      [Failed(Cause("shared")), Failed(Cause("shared")), Successful(Some([Some("v")])), Successful(Some([Some("v")]))];
    assert ElementEnvelopes<string, string>([Some("v")], 2, 1) == [v];
    assert ElementEnvelopes<string, string>([Some("v")], 3, 1) == [v];
    assert Contribution(ps[2], 2) == [v];
    assert Contribution(ps[3], 3) == [v];
    assert Emissions(ps, 1) == [f];
    assert Emissions(ps, 2) == [f, f];
    assert Emissions(ps, 3) == [f, f, v];
    assert Emissions(ps, 4) == [f, f, v, v];
    TwoPairs(f, v);
  }

  /** The builder keeps the first of each pair of equal envelopes. */
  lemma TwoPairs<X>(f: X, v: X)
    requires f != v
    ensures OrderedSets.Distinct([f, f, v, v]) == [f, v]
  {
    OrderedSets.DistinctSnoc([f], f);
    OrderedSets.DistinctSnoc([f, f], v);
    OrderedSets.DistinctSnoc([f, f, v], v);
    assert [f] + [f] == [f, f];
    assert [f, f] + [v] == [f, f, v];
    assert [f, f, v] + [v] == [f, f, v, v];
  }

  /** An individual producer whose `get()` returns null makes `compute` itself throw. */
  lemma NullFutureThrows()
    ensures var agg := SetOfProducedProducer([1, 2], [3]);
      var getIndividual: int -> Option<Settled<Option<string>, string>> :=
        (h: int) => if h == 2 then None else Some(Resolved(Some("a")));
      var getSet: int -> Option<Settled<NullableSet<string>, string>> := (h: int) => Some(Resolved(Some([Some("c")])));
      Produce<int, int, string, string>(agg, getIndividual, getSet) == Failure(NullFuture)
  {
    var agg := SetOfProducedProducer([1, 2], [3]);
    var getIndividual: int -> Option<Settled<Option<string>, string>> :=
      (h: int) => if h == 2 then None else Some(Resolved(Some("a")));
    var getSet: int -> Option<Settled<NullableSet<string>, string>> := (h: int) => Some(Resolved(Some([Some("c")])));
    assert getIndividual(agg.individualProducers[1]).None?;
  }

  /** One handle may be registered once as an individual producer and once as a set producer. */
  method SameHandleInBothLists() returns (r: Result<SetOfProducedProducer<int, int>, BuildError>)
    ensures r == Success(SetOfProducedProducer([7], [7]))
  {
    var builder := new Builder<int, int>();
    var added := builder.AddProducer(Some(7));
    added := builder.AddSetProducer(Some(7));
    r := builder.Build();
  }

  /** Registering one handle twice in the same list makes `build()` fail. */
  method DuplicateRejected() returns (r: Result<SetOfProducedProducer<int, int>, BuildError>)
    ensures r == Failure(DuplicateProducers)
  {
    var builder := new Builder<int, int>();
    var added := builder.AddSetProducer(Some(7));
    added := builder.AddProducer(Some(3));
    added := builder.AddSetProducer(Some(7));
    assert builder.setProducers[0] == builder.setProducers[1];
    r := builder.Build();
  }

  /** A null producer is refused and leaves the registered producers as they were. */
  method NullProducerRejected() returns (r: Outcome<BuildError>, registered: seq<int>)
    ensures r == Fail(NullProducer) && registered == [3]
  {
    var builder := new Builder<int, int>();
    var added := builder.AddProducer(Some(3));
    r := builder.AddProducer(None);
    registered := builder.individualProducers;
  }
}
