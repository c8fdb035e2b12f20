/** From bytes asked for to the size of a chunk. */
module Requests {
  import opened Chunks
  import opened Extending

  const SIZE_SZ := 4

  /** request2size, in 32-bit arithmetic. */
  function Request2Size(req: int): int
    requires 0 <= req < ULONG
  {
    var padded := (req + (SIZE_SZ + 7)) % ULONG;
    if ToLong(padded) < MINSIZE + 7 then MINSIZE else padded - padded % 8
  }

  /** The largest request whose padding does not wrap. */
  const MAX_REQUEST := 0x7fff_fff4

  /** The largest request for which realloc's test for room in the top chunk does not wrap. */
  const MAX_REALLOC := 0x7fff_ffe4

  lemma SizeIsChunk(req: int)
    requires 0 <= req < 0x8000_0000
    ensures Request2Size(req) % 8 == 0 && MINSIZE <= Request2Size(req) < 0x8000_0000
  {}

  /** The chunk has room for the request if and only if the request is at most 2^31 - 12. */
  lemma SizeSuffices(req: int)
    requires 0 <= req < 0x8000_0000
    ensures req <= Request2Size(req) - SIZE_SZ <==> req <= MAX_REQUEST
  {}

  /** Among the chunk sizes with room for the request, it is the smallest. */
  lemma SizeIsLeast(req: int, size: int)
    requires 0 <= req <= MAX_REQUEST && size % 8 == 0 && MINSIZE <= size && req <= size - SIZE_SZ
    ensures Request2Size(req) <= size
  {}
}
