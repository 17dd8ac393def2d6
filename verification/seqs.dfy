/** Small shared building blocks: an optional value, integer minimum and
    maximum, and the concatenation of a list of lists. */
module Seqs {
  datatype Option<T> = None | Some(value: T)

  function Min(a: int, b: int): int { if a <= b then a else b }

  function Max(a: int, b: int): int { if a >= b then a else b }

  /** The pieces concatenated in order, as `sum(pieces, [])`. */
  function Flatten<T>(pieces: seq<seq<T>>): seq<T>
  {
    if |pieces| == 0 then [] else Flatten(pieces[..|pieces| - 1]) + pieces[|pieces| - 1]
  }
}
