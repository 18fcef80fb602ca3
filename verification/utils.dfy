/** The null/undefined test of the oldest revision (`src/utils.ts`). */
module Utils {
  import opened Js

  /** `hasValue(x)`: `x` is neither `undefined` nor `null`. */
  function HasValue<T>(x: Nullable<T>): (r: bool)
    ensures r <==> x != Undefined && x != Null
  {
    !(x.Undefined? || x.Null?)
  }

  /** `hasValue` is exactly the test that `??` makes: `x ?? y` keeps `x`
      precisely when `hasValue(x)`. */
  lemma HasValueDecidesCoalesce<T>(x: Nullable<T>, y: Nullable<T>)
    ensures HasValue(x) <==> x.IsDefined()
    ensures Coalesce(x, y) == (if HasValue(x) then x else y)
  {
  }

  /** The primitive values the unit tests pass to `hasValue`. */
  datatype Primitive = Number(n: int) | NaN | Str(s: string)

  /** Falsy-but-defined values count as present; only `undefined` and
      `null` do not. */
  lemma HasValueExamples()
    ensures HasValue(Present(Number(1)))
    ensures HasValue(Present(Str("")))
    ensures HasValue(Present(Number(0)))
    ensures HasValue(Present(NaN))
    ensures !HasValue<Primitive>(Null)
    ensures !HasValue<Primitive>(Undefined)
  {
  }
}
