/** Small shared datatypes and the machine-word helper used by every model. */
module Wrappers {

  datatype Option<+T> = None | Some(value: T)

  datatype Result<+T, +E> = Success(value: T) | Failure(error: E)

  /** 2^32: the source computes sizes, positions and counters in `uint32_t` / `unsigned int`. */
  const WORD: int := 0x1_0000_0000

  /** Truncation to 32 bits, as the source's unsigned conversions do (also for negative results). */
  function Low32(x: int): (r: nat)
    ensures r < WORD
    ensures 0 <= x < WORD ==> r == x
  {
    x % WORD
  }

  function Min(a: int, b: int): (m: int)
  {
    if a <= b then a else b
  }

  /** Places in a list of `n` elements, in order. */
  ghost predicate Picks(places: seq<nat>, n: nat)
  {
    && (forall i :: 0 <= i < |places| ==> places[i] < n)
    && (forall i, j :: 0 <= i < j < |places| ==> places[i] < places[j])
  }
}
