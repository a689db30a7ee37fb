/** Serialisation (raff_serializeChunk, raff_serializeChunkToFile): a chunk
    is delivered byte by byte as its header followed by its payload, with no
    pad byte, and a drain writes those bytes to a sink. */
module RiffSerializer {
  import opened RiffErrors
  import opened RiffWire
  import opened RiffFormat
  import opened Raff

  /** SerializationStream: the chunk being serialised and the number of
      calls made so far. */
  class SerialStream {
    const chunk: Chunk
    var next: nat

    /** raff_serializeChunk: a stream over the chunk, at its first byte. */
    constructor(chunk: Chunk)
      ensures this.chunk == chunk && next == 0
    {
      this.chunk := chunk;
      next := 0;
    }

    /** snextCb: the byte at the counter, or -1 past the end of the
        serialisation. The counter moves on at every call, also past the
        end. */
    method Next() returns (b: int)
      requires chunk.Valid()
      modifies this`next
      ensures var s := Serialized(chunk.View());
        b == if old(next) < |s| then s[old(next)] else -1
      ensures next == old(next) + 1
    {
      var i := next;
      next := next + 1;
      SerializedParts(chunk.View());
      if i < 4 {
        var tag := if chunk.kind == Other then chunk.id else if chunk.kind == ListKind then LIST_ID else RIFF_ID;
        return (tag / Pow256(3 - i)) % B1;
      }
      if i < 8 {
        var size := chunk.size;
        if chunk.kind != Other {
          size := size + 4;
        }
        return (size / Pow256(i - 4)) % B1;
      }
      var j := i - 8;
      if chunk.kind != Other {
        if i < 12 {
          return (chunk.id / Pow256(11 - i)) % B1;
        }
        j := i - 12;
      }
      if j >= chunk.size {
        return -1;
      }
      b := chunk.buf[chunk.start + j];
    }
  }

  /** raff_serializeChunkToFile with the file reduced to whether `fopen`
      succeeds and the bytes `fputc` writes: a sink that does not open is
      CantOpen and receives nothing; otherwise it receives the whole
      serialisation, in order. */
  method SerializeToSink(chunk: Chunk, opens: bool) returns (err: Error, written: seq<Byte>)
    requires chunk.Valid()
    ensures !opens ==> err == CantOpen && written == []
    ensures opens ==> err == NoError && written == Serialized(chunk.View())
  {
    if !opens {
      return CantOpen, [];
    }
    ghost var s := Serialized(chunk.View());
    var ss := new SerialStream(chunk);
    written := [];
    var b := ss.Next();
    while b >= 0
      invariant ss.chunk == chunk && ss.next == |written| + 1
      invariant |written| <= |s| && written == s[..|written|]
      invariant b == if |written| < |s| then s[|written|] else -1
      decreases |s| - |written|
    {
      written := written + [b];
      b := ss.Next();
    }
    assert written == s;
    err := NoError;
  }
}
