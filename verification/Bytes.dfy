// Bytes of UTF-8 text.
module Bytes {

  type Byte = x: int | 0 <= x < 256

  predicate Continuation(b: Byte) { b / 64 == 2 }

  // a character of which some bytes have come: remain more are missing, -1 if the bytes were invalid
  datatype Partial = Partial(value: nat, remain: int)

  // 64 to the k: what k continuation bytes can add
  function Pow64(k: nat): (r: nat)
    ensures r > 0
  {
    if k == 0 then 1 else 64 * Pow64(k - 1)
  }

  function Concat<T>(parts: seq<seq<T>>): seq<T> {
    if parts == [] then [] else parts[0] + Concat(parts[1..])
  }
}
