/** Types every component of the model shares. */
module Common {

  /** A value that may be absent: a nil reference, or a failed lookup. */
  datatype Option<+T> = None | Some(value: T)

  /** One octet of a wire, a file or a string. */
  type Byte = b: int | 0 <= b < 256

  function Min(a: int, b: int): int {
    if a <= b then a else b
  }

  function Max(a: int, b: int): int {
    if a >= b then a else b
  }

  lemma Associates<T>(x: seq<T>, y: seq<T>, z: seq<T>)
    ensures x + (y + z) == (x + y) + z
  {
  }
}
