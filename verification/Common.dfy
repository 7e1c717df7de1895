/** What several modules share. */
module Common {
  datatype Option<+T> = None | Some(value: T)

  /** Instants and spans are in microseconds. */
  const SECOND := 1_000_000
  const DAY := 86_400 * SECOND

  function Max(a: nat, b: nat): (m: nat)
    ensures a <= m && b <= m && (m == a || m == b)
  {
    if a < b then b else a
  }
}
