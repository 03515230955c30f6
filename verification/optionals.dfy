/**
 Swift's `Optional` and the small convenience extensions SwifterSwift adds to it:
 unwrapping with a default, unwrapping or throwing, running a block on the held
 value, conditional assignment `?=`, and `isNilOrEmpty`.

 Swift's `throws` becomes a `Result`, and the block handed to `run` is replaced
 by the trace of the values it would have received.
 */
module Optionals {

  /** Swift's `Wrapped?`: either no value (`nil`) or exactly one held value. */
  datatype Option<+T> = None | Some(value: T)

  /** The outcome of a throwing call: its return value or the error it threw. */
  datatype Result<+R, +E> = Success(value: R) | Failure(error: E)

  /** `o.unwrapped(or: default)`: the held value, or `default` when `o` is `nil`. */
  function UnwrappedOr<T>(o: Option<T>, default: T): (r: T)
    ensures o.None? ==> r == default
    ensures o.Some? ==> r == o.value
  {
    match o
    case Some(v) => v
    case None => default
  }

  /** `try o.unwrapped(or: error)`: returns the held value, or throws `error`
      when `o` is `nil`. */
  function UnwrappedOrThrow<T, E>(o: Option<T>, error: E): (r: Result<T, E>)
    ensures r.Failure? <==> o.None?
    ensures r.Failure? ==> r.error == error
    ensures r.Success? ==> o == Some(r.value)
  {
    match o
    case Some(v) => Success(v)
    case None => Failure(error)
  }

  /** `o.run(block)`: the sequence of arguments `block` is invoked with.
      The block runs at most once, and only ever on the held value. */
  function Run<T>(o: Option<T>): (trace: seq<T>)
    ensures |trace| <= 1
    ensures trace == [] <==> o.None?
    ensures forall i :: 0 <= i < |trace| ==> o == Some(trace[i])
  {
    match o
    case Some(v) => [v]
    case None => []
  }

  /** `target ?= v`: the new value of `target`. It takes `v` (which may be
      `nil`) only while `target` is `nil`; a held value is never replaced. */
  function ConditionalAssign<T>(target: Option<T>, v: Option<T>): (r: Option<T>)
    ensures target.Some? ==> r == target
    ensures target.None? ==> r == v
    ensures r.None? <==> target.None? && v.None?
  {
    if target.None? then v else target
  }

  /** `o.isNilOrEmpty` for an optional collection or string: `nil`, or present
      with no elements. */
  predicate IsNilOrEmpty<T>(o: Option<seq<T>>)
    ensures IsNilOrEmpty(o) <==> UnwrappedOr(o, []) == []
    ensures !IsNilOrEmpty(o) ==> o.Some? && |o.value| > 0
  {
    o.None? || |o.value| == 0
  }

  /** Throwing and defaulting agree: whenever no error is thrown, the value
      returned is the one `unwrapped(or:)` gives for every default. */
  lemma UnwrapAgreement<T, E>(o: Option<T>, error: E, default: T)
    ensures UnwrappedOrThrow(o, error).Success? ==>
              UnwrappedOrThrow(o, error).value == UnwrappedOr(o, default)
    ensures UnwrappedOrThrow(o, error).Failure? ==> UnwrappedOr(o, default) == default
  {
  }

  /** The default is only consulted when nothing is held: two defaults give
      different answers exactly when `o` is `nil` (and the defaults differ). */
  lemma UnwrapDefaultIrrelevant<T>(o: Option<T>, d1: T, d2: T)
    ensures UnwrappedOr(o, d1) != UnwrappedOr(o, d2) <==> o.None? && d1 != d2
  {
  }

  /** `run` hands the block what `unwrapped(or:)` would return, and nothing
      when `unwrapped(or:)` would fall back to its default. */
  lemma RunAgreesWithUnwrap<T>(o: Option<T>, default: T)
    ensures Run(o) == if o.None? then [] else [UnwrappedOr(o, default)]
  {
  }

  /** `?=` is idempotent: repeating it with any value changes nothing once
      the first assignment has been made with a present value. */
  lemma ConditionalAssignSettles<T>(target: Option<T>, v: Option<T>, w: Option<T>)
    requires v.Some?
    ensures ConditionalAssign(ConditionalAssign(target, v), w) == ConditionalAssign(target, v)
  {
  }

  /** `x ?= v` followed by unwrapping with `d` is unwrapping `x` with the
      fallback "`v`, or else `d`": conditional assignment is the stored form
      of nested `??`. */
  lemma ConditionalAssignIsCoalescing<T>(target: Option<T>, v: Option<T>, d: T)
    ensures UnwrappedOr(ConditionalAssign(target, v), d)
              == UnwrappedOr(target, UnwrappedOr(v, d))
  {
  }

  /** `isNilOrEmpty` is false exactly when `run` would hand the block a
      non-empty collection. */
  lemma IsNilOrEmptyViaRun<T>(o: Option<seq<T>>)
    ensures !IsNilOrEmpty(o) <==> exists i :: 0 <= i < |Run(o)| && Run(o)[i] != []
  {
    if o.Some? {
      assert Run(o)[0] == o.value;
    }
  }
}
