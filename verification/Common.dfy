/** Small shared vocabulary: the optional value that stands for the source's `null` and `undefined`, and Math.min, Math.max. */
module Common {
  datatype Option<+T> = None | Some(value: T)

  function Min(a: int, b: int): int { if a <= b then a else b }
  function Max(a: int, b: int): int { if a <= b then b else a }
}
