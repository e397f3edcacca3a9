# SetOfProducedProducer, modelled in Dafny

This project models the core of Dagger's `SetOfProducedProducer`. It is the producer behind a
`Set<Produced<T>>` multibinding. It gathers the results of individual producers, each
contributing one value, and of set producers, each contributing a whole set. It returns one set
of `Produced<T>` envelopes, where each envelope is either a successful value or the failure that
replaced it.

The model covers three parts:

- **Registration** (`Registration.dfy`). `SetOfProducedProducer.Builder` is a class with two
  sequence fields, `individualProducers` and `setProducers`. `AddProducer` and `AddSetProducer`
  append to them. `Build` freezes them after the duplicate check (`HasDuplicates`).
- **Source ordering** (`Aggregation.dfy`). The two `for` loops of `compute` fill the per-source
  list, individual producers first and set producers after (`CollectSources`). `Compute` runs
  them and then the flattening.
- **Flattening** (`Flattening.dfy`). The anonymous `Function.apply` walks the settled
  per-source outcomes with nested loops and adds envelopes to an `ImmutableSet.Builder`
  (`Apply` and `AddElements`). It is proved equal to the pure `Flatten`, and the promised
  properties are proved about `Flatten`.

Supporting modules:

- `OrderedSets.dfy` models the Guava insertion-ordered, first-occurrence-wins set.
  - `Distinct` is `ImmutableSet.copyOf`, the contents of an `ImmutableSet.Builder`.
  - `Add` is one `builder.add`.
- `Envelopes.dfy` holds the value types: `Produced`, the throwables, and settled futures.
- `Wrappers.dfy` holds `Option`, `Result` and `Outcome`.
- `Scenarios.dfy` proves concrete runs: the documented examples and the builder's edge cases.

Modelling choices:

- **Java `null`** is `Option.None`: for producers, for sets, and for set elements.
- **Java `assert` statements** are modelled as enabled. A null producer handed to the builder
  gives `Fail(NullProducer)` and leaves the builder unchanged. A repeated handle makes `Build`
  return `Failure(DuplicateProducers)`.
- **Producer handles** are type parameters with equality (`H` for individual producers, `S` for
  set producers). `build()` checks the two lists independently, so one handle may appear in both.
- **Futures are not modelled.** Each producer handle comes with the way its future settles
  (`Settled`: `Resolved(value)` or `Threw(error)`). A handle whose `get()` returns null comes with
  `None` instead; `checkNotNull` then throws at once and `compute` returns `Failure(NullFuture)`.
- **Throwables are compared by identity in Java.** `Produced.equals` compares failures by their
  causes, and `Throwable` does not override `equals`.
  - A failure a producer reported is `Cause(e)` for an opaque `e`, so equal `e` are the same
    throwable.
  - Every `new NullPointerException` the aggregation creates is a distinct object. It is
    `NullPointer(site, slot, position)`: the kind of null it reports, the source slot, and the
    element position within that source's set.
  - This covers the null-value exceptions raised while wrapping an individual producer's null, as
    well as those the flattening raises for null sets and null elements. Each names its own slot,
    and within a slot its own position, so none equals any other envelope added
    (`NullPointersUnique`, `Aggregation.NullFailuresKept`).
- **Null individual values.** The null value of an individual producer fails inside
  `createFutureSingletonSet`, because an immutable singleton set refuses null. That is modelled
  as a failed outcome `NullPointer(NullValue, slot, 0)` for that slot.
- **Sets are sequences** in iteration order. They may hold repeated values and several nulls,
  which a `java.util.Set` would not. The model still flattens them exactly as the loop would.
- **Equal envelopes collapse in the output.** `ImmutableSet.Builder` keeps only the first of
  several equal envelopes: two producers failing with the same throwable, or one value produced
  both by an individual producer and inside a set. One failed source therefore yields "exactly
  one failure envelope" only when no earlier source already contributed an equal one. The model
  follows the code here (`Scenarios.EqualEnvelopesCollapse`).

## Model

All source paths are relative to the repository root; the file is
`producers/src/main/java/dagger/producers/internal/SetOfProducedProducer.java`.

| member | source | states |
|---|---|---|
| Registration.Builder.constructor | producers/src/main/java/dagger/producers/internal/SetOfProducedProducer.java:45-51 | a new builder has no individual producers and no set producers |
| Registration.Builder.AddProducer | producers/src/main/java/dagger/producers/internal/SetOfProducedProducer.java:53-57 | a null producer is refused and nothing changes; otherwise it is appended at the end of the individual producers; the set producers never change |
| Registration.Builder.AddSetProducer | producers/src/main/java/dagger/producers/internal/SetOfProducedProducer.java:59-63 | mirror image of AddProducer: a null producer is refused; otherwise appended at the end of the set producers; individual producers never change |
| Registration.HasDuplicates | producers/src/main/java/dagger/producers/internal/SetOfProducedProducer.java:77-82 | true exactly when two different positions of the list hold equal handles (the size comparison with the list's set copy) |
| Registration.Builder.Build | producers/src/main/java/dagger/producers/internal/SetOfProducedProducer.java:65-74 | succeeds exactly when neither list has duplicates, the two checked independently; on success the aggregator holds exactly the registered handles in registration order and neither collection repeats a handle; otherwise fails with DuplicateProducers |
| OrderedSets.Distinct | producers/src/main/java/dagger/producers/internal/SetOfProducedProducer.java:72-73 | the insertion-ordered set copy never holds an element twice and is no longer than its input |
| OrderedSets.DistinctMember | producers/src/main/java/dagger/producers/internal/SetOfProducedProducer.java:72-73 | the set copy holds exactly the elements of its input |
| OrderedSets.DistinctLength | producers/src/main/java/dagger/producers/internal/SetOfProducedProducer.java:81 | the set copy is as long as its input exactly when the input has no repeated element |
| OrderedSets.DistinctOfDistinct | producers/src/main/java/dagger/producers/internal/SetOfProducedProducer.java:71-73 | copying a list without repeats keeps it unchanged, order included |
| OrderedSets.DistinctAppend | producers/src/main/java/dagger/producers/internal/SetOfProducedProducer.java:127-157 | adding one run of elements and then another gives the first run's set followed by the new elements of the second, in first-occurrence order |
| OrderedSets.DistinctPrefix | producers/src/main/java/dagger/producers/internal/SetOfProducedProducer.java:127-157 | later adds never disturb what the builder already holds: the earlier contents stay a prefix |
| OrderedSets.DistinctOrder | producers/src/main/java/dagger/producers/internal/SetOfProducedProducer.java:127-157 | the builder keeps add order: anything added before the first add of an element comes before that element in the set |
| Aggregation.CollectSources | producers/src/main/java/dagger/producers/internal/SetOfProducedProducer.java:108-120 | the two loops fail with NullFuture exactly when some producer returns a null future; otherwise they yield one outcome per producer, individual producers first, each as a one-element set (or its failure), then set producers in stored order |
| Aggregation.Compute | producers/src/main/java/dagger/producers/internal/SetOfProducedProducer.java:106-160 | compute throws on a null future and otherwise delivers the flattening of the collected outcomes |
| Aggregation.IndividualInOutput | producers/src/main/java/dagger/producers/internal/SetOfProducedProducer.java:111-117 | whatever the other producers do, an individual producer's failure, its null value (as a fresh NullPointerException for its slot) or its value appears in the output |
| Aggregation.SetInOutput | producers/src/main/java/dagger/producers/internal/SetOfProducedProducer.java:118-120 | whatever the other producers do, a set producer's failure, its null set (as a fresh NullPointerException) or every element (its value, or a fresh NullPointerException for a null element) appears in the output |
| Aggregation.IndividualsFirst | producers/src/main/java/dagger/producers/internal/SetOfProducedProducer.java:93-95 | the output starts with exactly what the individual producers alone would produce |
| Aggregation.NullFailuresKept | producers/src/main/java/dagger/producers/internal/SetOfProducedProducer.java:97-98 | no NullPointerException the aggregation creates, for a null value, a null set or a null element, equals any other envelope added, so none is lost to the set's de-duplication |
| Flattening.Apply | producers/src/main/java/dagger/producers/internal/SetOfProducedProducer.java:126-158 | the nested loops over the outcomes build exactly the set Flatten describes |
| Flattening.AddElements | producers/src/main/java/dagger/producers/internal/SetOfProducedProducer.java:141-151 | the inner loop adds one envelope per element of a non-null set, in iteration order |
| Flattening.ElementEnvelopesAt | producers/src/main/java/dagger/producers/internal/SetOfProducedProducer.java:141-151 | element k of a non-null set gives successful(value) when non-null and a NullPointerException for position k when null |
| Flattening.ContributionLength | producers/src/main/java/dagger/producers/internal/SetOfProducedProducer.java:128-155 | a failed source makes exactly one add, of failed(cause); a null set exactly one, of a NullPointerException; a non-null set one per element |
| Flattening.EmittedBy | producers/src/main/java/dagger/producers/internal/SetOfProducedProducer.java:128-156 | every envelope a source contributes is added, and stays added whatever later sources do |
| Flattening.EmittedFrom | producers/src/main/java/dagger/producers/internal/SetOfProducedProducer.java:128-156 | every envelope added was contributed by one of the sources walked so far |
| Flattening.FlattenMember | producers/src/main/java/dagger/producers/internal/SetOfProducedProducer.java:126-158 | an envelope is in the output exactly when some source contributes it: nothing is lost and nothing else appears |
| Flattening.ContributionKept | producers/src/main/java/dagger/producers/internal/SetOfProducedProducer.java:128-157 | every envelope of every source reaches the output, whether or not other sources failed |
| Flattening.FlattenSlot | producers/src/main/java/dagger/producers/internal/SetOfProducedProducer.java:128-155 | per source: a failure puts failed(cause) in the output, a null set a NullPointerException for that source, and a non-null set each value or a NullPointerException for each null element |
| Flattening.BuiltSoFar | producers/src/main/java/dagger/producers/internal/SetOfProducedProducer.java:127-157 | what the builder holds after any number of sources is a prefix of the final set |
| Flattening.FlattenPrefix | producers/src/main/java/dagger/producers/internal/SetOfProducedProducer.java:128-157 | the output for some outcomes is a prefix of the output once more outcomes follow |
| Flattening.FlattenOrder | producers/src/main/java/dagger/producers/internal/SetOfProducedProducer.java:93-95 | an envelope of an earlier source precedes a new envelope of a later source in the output's iteration order |
| Flattening.FlattenKeepsOrder | producers/src/main/java/dagger/producers/internal/SetOfProducedProducer.java:93-95 | the output iterates in add order: an envelope added before the first add of another envelope precedes it in the output |
| Flattening.FlattenWithinSource | producers/src/main/java/dagger/producers/internal/SetOfProducedProducer.java:141-151 | within one non-null set, an element's envelope precedes the envelope of a later element of that set unless the later one was added earlier |
| Flattening.ContributionNulls | producers/src/main/java/dagger/producers/internal/SetOfProducedProducer.java:131-147 | a NullPointerException among a source's envelopes, whether raised for its null value or by the flattening, names that source and the position it stands for |
| Flattening.EmittedNullSlot | producers/src/main/java/dagger/producers/internal/SetOfProducedProducer.java:131-147 | the NullPointerExceptions among the envelopes of the first n sources all belong to those sources |
| Flattening.NullPointersUnique | producers/src/main/java/dagger/producers/internal/SetOfProducedProducer.java:131-147 | each NullPointerException among the envelopes added, null-value ones included, is a distinct object: it equals no other envelope added |
| Scenarios.ValuesThenSet | producers/src/main/java/dagger/producers/internal/SetOfProducedProducer.java:93-95 | values "a", "b" and the set {"c", "d"} give successful a, b, c, d in that order |
| Scenarios.FailureThenSet | producers/src/main/java/dagger/producers/internal/SetOfProducedProducer.java:100-102 | a failed individual producer and the set {"x"} give failed(timeout) then successful x |
| Scenarios.NullSetOnly | producers/src/main/java/dagger/producers/internal/SetOfProducedProducer.java:131-139 | a single null set gives a single NullPointerException envelope |
| Scenarios.NullElementAmongValues | producers/src/main/java/dagger/producers/internal/SetOfProducedProducer.java:141-151 | the set {p, null, q} gives successful p, a NullPointerException, successful q |
| Scenarios.SharedCauseAndRepeatedValue | producers/src/main/java/dagger/producers/internal/SetOfProducedProducer.java:127-157 | two equal failures, then the same value from two sources, flatten to one envelope each |
| Scenarios.EqualEnvelopesCollapse | producers/src/main/java/dagger/producers/internal/SetOfProducedProducer.java:153-157 | two producers failing with the same throwable contribute one failure envelope, and a value from an individual producer and from a set one success envelope |
| Scenarios.NullFutureThrows | producers/src/main/java/dagger/producers/internal/SetOfProducedProducer.java:104-116 | an individual producer returning a null future makes compute throw |
| Scenarios.SameHandleInBothLists | producers/src/main/java/dagger/producers/internal/SetOfProducedProducer.java:65-74 | one handle registered once in each list builds successfully |
| Scenarios.DuplicateRejected | producers/src/main/java/dagger/producers/internal/SetOfProducedProducer.java:66-69 | one handle registered twice as a set producer makes build fail |
| Scenarios.NullProducerRejected | producers/src/main/java/dagger/producers/internal/SetOfProducedProducer.java:53-57 | a null producer is refused and the registered producers stay as they were |

## Left out

- `ListenableFuture`, `Futures.allAsList`, `Futures.transform` and cancellation propagation
  (lines 100-102, 122-123) are asynchronous plumbing. The model starts from the way each
  producer's future settles and runs the continuation once all have settled. Cancellation is
  not modelled.
- `Producers.createFutureProduced` and `Producers.createFutureSingletonSet` are not part of this
  model. Their effect is modelled as "capture a failure as `Failed`" (`Aggregation.WrapSet`) and
  "wrap the value in a one-element set, a null value failing" (`Aggregation.WrapIndividual`).
- The messages of the NullPointerExceptions are not modelled; only their identity is.
- `ProducerMonitor` (line 107) is accepted and never used by the source, so it is not a parameter.
- `create()` (lines 41-43) delegates to `SetProducer`, which is not part of this model.
- The private constructor (lines 87-91) only stores the two sets. It is the
  `Registration.SetOfProducedProducer` datatype.
- Registration.Builder.AddProducer: running with Java assertions disabled is not modelled. There
  a null producer would be appended, and `build()` would then throw a `NullPointerException`
  from `ImmutableSet.copyOf` (lines 72-73); duplicates would be accepted and the later copies
  dropped.
- The side effects of calling `get()` on the producers before a later producer's null future
  aborts `compute` are not modelled, because producers are modelled only by how their futures
  settle.
- `Throwable` identity is modelled by coordinates, not by object references.
  - Failures a producer reports are compared by value of the opaque error.
  - The exceptions the aggregation creates are compared by (site, slot, position).
