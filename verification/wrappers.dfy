/** Failure-carrying result types shared by every module of the model.

- Option<T>: a lookup that may find nothing (a missing store key, a bad parse).
- Result<T, E>: an operation that either returns a value or an error value.
- Outcome<E>: a check that either passes or fails with an error value.
 */
module Wrappers {

  datatype Option<+T> = None | Some(value: T) {
    /** The carried value, or `default` when there is none. */
    function GetOr(default: T): T {
      match this
      case Some(v) => v
      case None => default
    }
  }

  datatype Result<+T, +E> = Ok(value: T) | Err(error: E)

  datatype Outcome<+E> = Pass | Fail(error: E)

  /** A validator that runs its checks in order reports the first one that fails. */
  function FirstFailure<E>(failures: seq<E>): (r: Outcome<E>)
    ensures r.Pass? <==> |failures| == 0
    ensures r.Fail? ==> r.error == failures[0]
  {
    if |failures| == 0 then Pass else Fail(failures[0])
  }

  /** The check `cond` contributes `e` to the failures when it does not hold. */
  function Check<E>(cond: bool, e: E): (r: seq<E>)
    ensures cond <==> r == []
  {
    if cond then [] else [e]
  }
}
