/** The helper of flask_apploader/util.py: normalising "one value or a collection of values"
    to something a `for` loop can walk. */
module Util {

  /** A Python value as `ensure_iterable` sees it: either it has an `__iter__` method
      (a list, tuple, ...; iterated in order) or it is a plain value such as a function. */
  datatype PyValue<T> = Plain(item: T) | Iterable(items: seq<T>)

  /** A `for` loop over `v` does not raise. */
  predicate IsIterable<T>(v: PyValue<T>) {
    v.Iterable?
  }

  /** What the caller means by `v`: a plain value stands for the one-element collection
      holding it. */
  function Meant<T>(v: PyValue<T>): seq<T> {
    match v
    case Plain(x) => [x]
    case Iterable(xs) => xs
  }

  /** `ensure_iterable(v)`: an iterable value comes back unchanged; any other value is
      wrapped in a one-element list. */
  function EnsureIterable<T>(v: PyValue<T>): (r: PyValue<T>)
    ensures IsIterable(r)
    ensures IsIterable(v) ==> r == v
    ensures !IsIterable(v) ==> r.items == [v.item]
    ensures r.items == Meant(v)
  {
    if v.Iterable? then v else Iterable([v.item])
  }

  /** Normalising twice is normalising once. */
  lemma EnsureIterableIdempotent<T>(v: PyValue<T>)
    ensures EnsureIterable(EnsureIterable(v)) == EnsureIterable(v)
  {
  }

  /** Normalising never changes what the value means, so a value and its normal form
      are iterated alike. */
  lemma EnsureIterablePreservesMeaning<T>(v: PyValue<T>)
    ensures Meant(EnsureIterable(v)) == Meant(v)
  {
  }
}
