/** The byte sources the parser reads from (raff_Stream). Both concrete
    sources behave alike: `fgetc` over an opened file and cnextCb over a
    chunk's bytes deliver successive bytes and return -1 at the end without
    moving on. A source is modelled by the whole sequence of bytes it will
    deliver and the number already delivered. */
module RiffStream {
  import opened RiffErrors
  import opened RiffWire

  class Stream {
    /** Every byte the source delivers, in order. */
    const bytes: seq<Byte>
    /** How many bytes have been consumed (cnextCb's `next`). */
    var next: nat
    /** Whether the source's `close` callback has run. */
    var closed: bool

    /** makeChunkStream, or a freshly opened file: nothing consumed yet. */
    constructor(bytes: seq<Byte>)
      ensures this.bytes == bytes && next == 0 && !closed
    {
      this.bytes := bytes;
      next := 0;
      closed := false;
    }

    /** The bytes not yet delivered. */
    function Rest(): (s: seq<Byte>)
      reads this
      ensures next <= |bytes| ==> s == bytes[next..]
      ensures next >= |bytes| ==> s == []
    {
      if next <= |bytes| then bytes[next..] else []
    }

    /** cnextCb / fnextCb: the next byte, or -1 at the end, where the
        position stays put. */
    method Next() returns (b: int)
      modifies this`next
      ensures old(next) < |bytes| ==> b == bytes[old(next)] && next == old(next) + 1
      ensures old(next) >= |bytes| ==> b == -1 && next == old(next)
    {
      if next >= |bytes| {
        return -1;
      }
      b := bytes[next];
      next := next + 1;
    }

    /** The source's `close` callback. */
    method Close()
      modifies this`closed
      ensures closed
    {
      closed := true;
    }

    /** parseID: four reads, nothing when any of them hits the end;
        otherwise the ID of the four bytes. A failed read leaves the source
        at its end. */
    method ParseID() returns (r: Option<int>)
      modifies this`next
      ensures r == ReadID(bytes, old(next))
      ensures next == if r.Some? then old(next) + 4 else Max(old(next), |bytes|)
    {
      var i1 := Next();
      var i2 := Next();
      var i3 := Next();
      var i4 := Next();
      if i1 < 0 || i2 < 0 || i3 < 0 || i4 < 0 {
        return None;
      }
      assert [i1, i2, i3, i4] == bytes[old(next)..old(next) + 4];
      r := Some(NewID([i1, i2, i3, i4]));
    }

    /** parseSize: four reads decoded little-endian, nothing when any of
        them hits the end. */
    method ParseSize() returns (r: Option<nat>)
      modifies this`next
      ensures r == ReadSize(bytes, old(next))
      ensures next == if r.Some? then old(next) + 4 else Max(old(next), |bytes|)
    {
      var s1 := Next();
      var s2 := Next();
      var s3 := Next();
      var s4 := Next();
      if s1 < 0 || s2 < 0 || s3 < 0 || s4 < 0 {
        return None;
      }
      assert [s1, s2, s3, s4] == bytes[old(next)..old(next) + 4];
      r := Some(s1 + s2 * B1 + s3 * B2 + s4 * B3);
    }
  }

  function Max(a: nat, b: nat): nat
  {
    if a < b then b else a
  }
}
