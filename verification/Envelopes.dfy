/**
 * The values that flow through the aggregation: outcome envelopes (`Produced`), the failures they
 * carry, and the settled results of the producers' futures.
 */
module Envelopes {
  import opened Wrappers

  /** Which null the aggregation met when it created a NullPointerException. */
  datatype NullSite =
    | NullValue    // an individual producer yielded null; raised while wrapping it as a singleton set
    | NullSet      // a set producer yielded a null set
    | NullElement  // a set producer's set held a null element

  /**
   * A Java throwable as the aggregation sees it. `Cause(e)` is a failure reported by a producer,
   * opaque here. `NullPointer` is an exception the aggregation creates itself. Java compares
   * throwables by identity and each `new NullPointerException(...)` is a distinct object; the
   * aggregation creates at most one per (site, source slot, element position), so those three
   * give every created exception its own identity.
   */
  datatype Throwable<E> = Cause(e: E) | NullPointer(site: NullSite, slot: nat, position: nat)

  /** `Produced<T>`: either a successful value or the failure that replaced it. */
  datatype Produced<T, E> = Successful(value: T) | Failed(cause: Throwable<E>)

  /** How a producer's future settled: with a value, or with a failure. */
  datatype Settled<V, E> = Resolved(value: V) | Threw(error: E)

  /** A Java `Set<T>` that may be null and may hold nulls, in its iteration order. */
  type NullableSet<T> = Option<seq<Option<T>>>

  /** `Produced<Set<T>>`: the per-source outcome that the flattening step consumes. */
  type ProducedSet<T, E> = Produced<NullableSet<T>, E>

  /**
   * True of the outcome of source `slot` whose failure, if any, came from a producer or from
   * wrapping that source's own null value: the flattening step has not run yet, so none of its
   * exceptions exists, and a null-value exception names the slot it was raised for.
   */
  predicate FailedUpstream<T, E>(p: ProducedSet<T, E>, slot: nat) {
    p.Failed? && p.cause.NullPointer? ==>
      p.cause.site == NullValue && p.cause.slot == slot && p.cause.position == 0
  }

  /** True of an envelope holding a NullPointerException the aggregation created. */
  predicate IsNullPointer<T, E>(p: Produced<T, E>) {
    p.Failed? && p.cause.NullPointer?
  }
}
