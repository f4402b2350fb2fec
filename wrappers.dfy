/** Failure-carrying values shared by every module of the model. */
module Wrappers {

  datatype Option<+T> = None | Some(value: T)

  /** The Python exceptions that the modelled code raises, catches or re-raises.
      `Wrapped` is the generic `Exception(...)` that some handlers raise around a cause. */
  datatype Exc =
    | ValueError
    | TypeError
    | KeyError
    | IndexError
    | AttributeError
    | JsonDecodeError
    | PatternError
    | Wrapped(cause: Exc)

  /** A Python call either returns a value or raises. */
  datatype Result<+T> = Ok(value: T) | Err(exc: Exc)

  /** The list `acc` followed by the list `r` returns, or the exception `r` raised. */
  function Prepend<T>(acc: seq<T>, r: Result<seq<T>>): Result<seq<T>> {
    match r
    case Ok(rest) => Ok(acc + rest)
    case Err(e) => Err(e)
  }

  /** Prepending in two steps is prepending the concatenation. */
  lemma PrependTwice<T>(a: seq<T>, b: seq<T>, r: Result<seq<T>>)
    ensures Prepend(a, Prepend(b, r)) == Prepend(a + b, r)
  {
    if r.Ok? {
      assert a + (b + r.value) == (a + b) + r.value;
    }
  }

  /** Prepending nothing changes nothing, and prepending to an empty list gives the
      prefix. */
  lemma PrependNothing<T>(acc: seq<T>, r: Result<seq<T>>)
    ensures Prepend([], r) == r
    ensures Prepend(acc, Ok([])) == Ok(acc)
  {
    if r.Ok? {
      assert [] + r.value == r.value;
    }
    assert acc + [] == acc;
  }
}
