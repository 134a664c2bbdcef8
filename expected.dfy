/** The success-or-error container returned by every fallible step of the
    query-language front end: an Expected holds exactly one of a success value
    or an error wrapped in Unexpected. */
module Expectation {

  /** The wrapper that the error arm of an Expected holds. */
  datatype Unexpected<E> = Unexpected(err: E) {

    /** The wrapped error. */
    function Error(): (e: E)
      ensures Unexpected(e) == this
    {
      err
    }

    /** Exchanging the wrapped errors of `this` and `other`; the two updated
        wrappers are returned as (new this, new other). */
    function Swap(other: Unexpected<E>): (r: (Unexpected<E>, Unexpected<E>))
      ensures r.0.Error() == other.Error()
      ensures r.1.Error() == Error()
    {
      (Unexpected(other.err), Unexpected(err))
    }
  }

  /** Swapping twice gives back both original errors. */
  lemma SwapTwice<E>(a: Unexpected<E>, b: Unexpected<E>)
    ensures var (a', b') := a.Swap(b); a'.Swap(b') == (a, b)
  {
  }

  /** One of two arms: a held value, or a held Unexpected error. */
  datatype Expected<T, E> = Expect(held: T) | Unexpect(wrapped: Unexpected<E>) {

    predicate HasValue() {
      Expect?
    }

    function HasError(): (b: bool)
      ensures b <==> !HasValue()
    {
      Unexpect?
    }

    /** The held value; asking for it on the error arm is invalid. */
    function Value(): (v: T)
      requires HasValue()
      ensures this == Expect(v)
    {
      held
    }

    /** The held error; asking for it on the value arm is invalid. */
    function Error(): (e: E)
      requires HasError()
      ensures this == Unexpect(Unexpected(e))
    {
      wrapped.Error()
    }

    /** The held value, or `default` when an error is held. */
    function ValueOr(default: T): (r: T)
      ensures HasValue() ==> r == Value()
      ensures HasError() ==> r == default
    {
      match this
      case Expect(v) => v
      case Unexpect(_) => default
    }

    /** Applies `fn` to a held value; an error is passed on untouched and
        `fn` is not applied to anything. */
    function Transform<U>(fn: T -> U): (r: Expected<U, E>)
      ensures r.HasValue() <==> HasValue()
      ensures HasValue() ==> r.Value() == fn(Value())
      ensures HasError() ==> r.Error() == Error()
    {
      match this
      case Expect(v) => Expect(fn(v))
      case Unexpect(u) => Unexpect(u)
    }
  }

  /** Construction from a value (the ExpectTag constructor). */
  function FromValue<T, E>(v: T): (r: Expected<T, E>)
    ensures r.HasValue() && r.Value() == v
  {
    Expect(v)
  }

  /** Construction from an error (the UnexpectTag constructor); the error is
      wrapped in Unexpected. */
  function FromError<T, E>(e: E): (r: Expected<T, E>)
    ensures r.HasError() && r.Error() == e
  {
    Unexpect(Unexpected(e))
  }

  /** Transform by the identity changes nothing. */
  lemma TransformIdentity<T, E>(r: Expected<T, E>)
    ensures r.Transform(x => x) == r
  {
  }

  /** Two transforms in a row are one transform by the composed function. */
  lemma TransformCompose<T, U, V, E>(r: Expected<T, E>, f: T -> U, g: U -> V)
    ensures r.Transform(f).Transform(g) == r.Transform(x => g(f(x)))
  {
  }
}
