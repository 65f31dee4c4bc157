/** What several modules share: an optional value for the source's None, byte strings, and the smaller number. */
module Options {
  datatype Option<+T> = None | Some(value: T)

  type Bytes = seq<bv8>

  function Min(a: int, b: int): int { if a <= b then a else b }
}
