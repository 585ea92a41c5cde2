/** Types and constants shared by the components: nullable columns, byte strings, nanoseconds. */
module Common {

  /** A nullable column, or a lookup that may find nothing. */
  datatype Option<+T> = None | Some(value: T)

  newtype Byte = b: int | 0 <= b < 256
  type Bytes = seq<Byte>

  ghost predicate NoDuplicates<T>(s: seq<T>) {
    forall i, j :: 0 <= i < j < |s| ==> s[i] != s[j]
  }

  function Max(a: int, b: int): int { if a < b then b else a }

  function Coalesce<T>(a: Option<T>, b: Option<T>): Option<T> { if a.Some? then a else b }

  const SECOND := 1_000_000_000  // in nanoseconds
}
