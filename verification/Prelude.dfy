/** Result types shared by the models. */
module Prelude {

  datatype Option<+T> = None | Some(value: T)

  /** `Rejected` stands for any exception the modelled code raises. */
  datatype Result<+T> = Ok(value: T) | Rejected(reason: string)

  function Last<T>(xs: seq<T>): T
    requires xs != []
  {
    xs[|xs| - 1]
  }

  function Init<T>(xs: seq<T>): seq<T>
    requires xs != []
  {
    xs[..|xs| - 1]
  }

  function Reverse<T>(xs: seq<T>): seq<T> {
    if xs == [] then [] else [Last(xs)] + Reverse(Init(xs))
  }

  function Min(a: int, b: int): int {
    if a <= b then a else b
  }

  function Max(a: int, b: int): int {
    if a >= b then a else b
  }
}
