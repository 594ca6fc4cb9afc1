/** The raw PGN corpus and its game index, shared read-only by every reader. */
module Corpus {
  import opened Wrappers

  /** One byte of the corpus file. */
  type Byte = b: int | 0 <= b < 256

  /** The offset recorded for game `n`, looked up positionally (`lines().nth(n)`, `lines.get(n)`). */
  function Lookup(index: seq<nat>, n: nat): (r: Option<nat>)
    ensures r.Some? <==> n < |index|
    ensures r.Some? ==> r.value == index[n]
  {
    if n < |index| then Some(index[n]) else None
  }

  /** The bytes a reader sees after seeking the corpus to `offset`; seeking past the end is allowed and reads nothing. */
  function Seek(corpus: seq<Byte>, offset: nat): (rest: seq<Byte>)
    ensures |rest| == if offset <= |corpus| then |corpus| - offset else 0
    ensures forall i :: 0 <= i < |rest| ==> rest[i] == corpus[offset + i]
  {
    if offset <= |corpus| then corpus[offset..] else []
  }
}
