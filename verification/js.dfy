/** Host-language values and outcomes the store works with: JavaScript's two
    "nullish" values, the `??` operator, and the three ways a callback that
    may be synchronous or asynchronous can finish. */
module Js {

  datatype Option<+T> = None | Some(value: T) {
    /** The value, or `default` when absent (a destructuring default). */
    function GetOr(default: T): T {
      match this
      case Some(v) => v
      case None => default
    }
  }

  /** A JavaScript value of (non-nullish) type T, or `undefined`, or `null`. */
  datatype Nullable<+T> = Undefined | Null | Present(value: T) {
    /** Neither `undefined` nor `null`. */
    predicate IsDefined() {
      Present?
    }
  }

  /** The nullish-coalescing operator `a ?? b`: `a` unless it is
      `undefined` or `null`. */
  function Coalesce<T>(a: Nullable<T>, b: Nullable<T>): (r: Nullable<T>)
    ensures a.IsDefined() ==> r == a
    ensures !a.IsDefined() ==> r == b
    ensures r.IsDefined() <==> a.IsDefined() || b.IsDefined()
  {
    if a.Present? then a else b
  }

  /** How a callback of type `(..) => V | Promise<V>` finished: its promise
      resolved, its promise rejected, or it threw before returning. */
  datatype Settled<+V, +E> = Resolved(value: V) | Rejected(error: E) | Threw(error: E) {
    predicate Failed() {
      !Resolved?
    }
  }

  /** How one of the store's own functions finished: it returned a value, or
      it threw (or its promise rejected). */
  datatype Result<+V, +E> = Ok(value: V) | Err(error: E)
}
