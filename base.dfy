/** Small shared vocabulary: 1-based positions, an optional value, min and max. */
module Base {
  /** A 1-based row or column number, as the worksheets use them. */
  type pos = x: int | x >= 1 witness 1

  datatype Option<T> = None | Some(value: T)

  function Min(a: int, b: int): int { if a <= b then a else b }

  function Max(a: int, b: int): int { if a >= b then a else b }

  lemma AppendAssoc<T>(a: seq<T>, b: seq<T>, c: seq<T>)
    ensures a + b + c == a + (b + c)
  {
  }
}
