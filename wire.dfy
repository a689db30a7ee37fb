/** The two field codecs of the RIFF wire format: four-character tags packed
    big-endian into an ID (raff_newID, parseID, addID) and 32-bit little-endian
    sizes (parseSize, addSize). */
module RiffWire {
  import opened RiffErrors

  /** One byte as the byte sources deliver it: `fgetc` and the chunk-backed
      source both return an unsigned char widened to `int`. */
  type Byte = b: int | 0 <= b < 256

  const B1: int := 0x100
  const B2: int := 0x1_0000
  const B3: int := 0x100_0000
  const B4: int := 0x1_0000_0000

  /** `a<<24 | b<<16 | c<<8 | d`: the bit fields do not overlap, so the
      bitwise or is a sum. */
  function Pack(a: Byte, b: Byte, c: Byte, d: Byte): int
  {
    a * B3 + b * B2 + c * B1 + d
  }

  /** The k-th character of a C string: past the end of the sequence the
      string's NUL terminator is read. */
  function CharAt(s: seq<Byte>, k: nat): Byte
  {
    if k < |s| then s[k] else 0
  }

  /** The four tag bytes an ID keeps from a string: its characters up to the
      first NUL, then zeros. */
  function NulStopped(s: seq<Byte>): (t: seq<Byte>)
    ensures |t| == 4
  {
    var c0, c1, c2, c3 := CharAt(s, 0), CharAt(s, 1), CharAt(s, 2), CharAt(s, 3);
    [c0,
     if c0 != 0 then c1 else 0,
     if c0 != 0 && c1 != 0 then c2 else 0,
     if c0 != 0 && c1 != 0 && c2 != 0 then c3 else 0]
  }

  /** addID (and snextCb's `(unsigned char)(id >> 8*(3-i))`): the four bytes
      of an ID, most significant first, each truncated to a byte. */
  function IdBytes(id: int): (b: seq<Byte>)
    ensures |b| == 4
  {
    [(id / B3) % B1, (id / B2) % B1, (id / B1) % B1, id % B1]
  }

  /** raff_newID: pack up to four characters big-endian, stopping at the
      first NUL. The result is a 32-bit value whose bytes are exactly the
      characters kept. */
  function NewID(s: seq<Byte>): (id: int)
    ensures 0 <= id < B4
    ensures IdBytes(id) == NulStopped(s)
  {
    var c0, c1, c2, c3 := CharAt(s, 0), CharAt(s, 1), CharAt(s, 2), CharAt(s, 3);
    if c0 == 0 then
      IdBytesPack(0, 0, 0, 0); 0
    else if c1 == 0 then
      IdBytesPack(c0, 0, 0, 0); Pack(c0, 0, 0, 0)
    else if c2 == 0 then
      IdBytesPack(c0, c1, 0, 0); Pack(c0, c1, 0, 0)
    else if c3 == 0 then
      IdBytesPack(c0, c1, c2, 0); Pack(c0, c1, c2, 0)
    else
      IdBytesPack(c0, c1, c2, c3); Pack(c0, c1, c2, c3)
  }

  /** Splitting a packed ID gives back the four bytes. */
  lemma IdBytesPack(a: Byte, b: Byte, c: Byte, d: Byte)
    ensures 0 <= Pack(a, b, c, d) < B4
    ensures IdBytes(Pack(a, b, c, d)) == [a, b, c, d]
  {
    var x := Pack(a, b, c, d);
    DivModUnique(x, B3, a, b * B2 + c * B1 + d);
    DivModUnique(x, B2, a * B1 + b, c * B1 + d);
    DivModUnique(a * B1 + b, B1, a, b);
    DivModUnique(x, B1, a * B2 + b * B1 + c, d);
    DivModUnique(a * B2 + b * B1 + c, B1, a * B1 + b, c);
  }

  /** Packing the bytes of a 32-bit ID gives back the ID. */
  lemma PackIdBytes(id: int)
    requires 0 <= id < B4
    ensures Pack(IdBytes(id)[0], IdBytes(id)[1], IdBytes(id)[2], IdBytes(id)[3]) == id
  {
    var b := IdBytes(id);
    IdBytesPack(b[0], b[1], b[2], b[3]);
    var y := Pack(b[0], b[1], b[2], b[3]);
    var q3 := id / B3;
    var r3 := id % B3;
    assert q3 < B1;
    var q2 := r3 / B2;
    var r2 := r3 % B2;
    var q1 := r2 / B1;
    var r1 := r2 % B1;
    assert id == q3 * B3 + q2 * B2 + q1 * B1 + r1;
    DivModUnique(id, B3, q3, q2 * B2 + q1 * B1 + r1);
    DivModUnique(id, B2, q3 * B1 + q2, q1 * B1 + r1);
    DivModUnique(q3 * B1 + q2, B1, q3, q2);
    DivModUnique(id, B1, q3 * B2 + q2 * B1 + q1, r1);
    DivModUnique(q3 * B2 + q2 * B1 + q1, B1, q3 * B1 + q2, q1);
  }

  /** The quotient and remainder of a division by a byte power are unique. */
  lemma DivModUnique(x: int, d: int, q: int, r: int)
    requires d == B1 || d == B2 || d == B3
    requires 0 <= r < d && x == q * d + r
    ensures x / d == q && x % d == r
  {
    if d == B1 {
      assert x == q * B1 + r;
    } else if d == B2 {
      assert x == q * B2 + r;
    } else {
      assert x == q * B3 + r;
    }
  }

  /** An ID that survives being written and read back: a 32-bit value with
      no non-zero byte after a zero byte. */
  predicate Canonical(id: int)
  {
    0 <= id < B4 && NewID(IdBytes(id)) == id
  }

  /** Every ID raff_newID makes is canonical. */
  lemma NewIDCanonical(s: seq<Byte>)
    ensures Canonical(NewID(s))
  {
    var id := NewID(s);
    var t := IdBytes(id);
    assert t == NulStopped(s);
    assert NulStopped(t) == t;
    assert IdBytes(NewID(t)) == t;
    PackIdBytes(id);
    PackIdBytes(NewID(t));
  }

  /** Two IDs with the same four bytes are the same 32-bit value. */
  lemma IdBytesInjective(x: int, y: int)
    requires 0 <= x < B4 && 0 <= y < B4
    requires IdBytes(x) == IdBytes(y)
    ensures x == y
  {
    PackIdBytes(x);
    PackIdBytes(y);
  }

  /** The reserved structural markers `LIST` and `RIFF`. */
  const LIST_ID: int := Pack(0x4C, 0x49, 0x53, 0x54)
  const RIFF_ID: int := Pack(0x52, 0x49, 0x46, 0x46)

  /** The markers are the IDs of their four letters, distinct and canonical. */
  lemma MarkersCanonical()
    ensures NewID([0x4C, 0x49, 0x53, 0x54]) == LIST_ID
    ensures NewID([0x52, 0x49, 0x46, 0x46]) == RIFF_ID
    ensures LIST_ID != RIFF_ID
    ensures Canonical(LIST_ID) && Canonical(RIFF_ID)
  {
    IdBytesPack(0x4C, 0x49, 0x53, 0x54);
    IdBytesPack(0x52, 0x49, 0x46, 0x46);
  }

  /** Only the four bytes `RIFF` read as the RIFF marker. */
  lemma RiffTagOnly(s: seq<Byte>)
    requires |s| == 4
    ensures NewID(s) == RIFF_ID <==> s == [0x52, 0x49, 0x46, 0x46]
  {
    MarkersCanonical();
    if NewID(s) == RIFF_ID {
      assert NulStopped(s) == IdBytes(RIFF_ID);
      IdBytesPack(0x52, 0x49, 0x46, 0x46);
    }
  }

  /** addSize: a size as four bytes, least significant first, truncated to
      32 bits. */
  function SizeBytes(n: int): (b: seq<Byte>)
    ensures |b| == 4
  {
    [n % B1, (n / B1) % B1, (n / B2) % B1, (n / B3) % B1]
  }

  /** parseSize: four bytes read little-endian,
      `s1 | s2 << 8 | s3 << 16 | s4 << 24`. */
  function DecodeSize(b: seq<Byte>): (n: nat)
    requires |b| == 4
    ensures n < B4
  {
    b[0] + b[1] * B1 + b[2] * B2 + b[3] * B3
  }

  /** A size written by addSize reads back modulo 2^32. */
  lemma SizeRoundTrip(n: nat)
    ensures DecodeSize(SizeBytes(n)) == n % B4
  {
    var m := n % B4;
    SizeBytesTruncate(n);
    PackIdBytes(m);
    assert SizeBytes(n) == [IdBytes(m)[3], IdBytes(m)[2], IdBytes(m)[1], IdBytes(m)[0]];
  }

  /** addSize keeps only the low 32 bits: the bytes of a size are those of
      the size modulo 2^32. */
  lemma SizeBytesTruncate(n: nat)
    ensures SizeBytes(n) == SizeBytes(n % B4)
  {
    var m := n % B4;
    var q := n / B4;
    assert n == q * B4 + m;
    DivModUnique(n, B1, q * B3 + m / B1, m % B1);
    DivModUnique(n, B2, q * B2 + m / B2, m % B2);
    DivModUnique(n, B3, q * B1 + m / B3, m % B3);
    ByteAbove(q * B3, m / B1, q * B2);
    ByteAbove(q * B2, m / B2, q * B1);
    ByteAbove(q * B1, m / B3, q);
  }

  /** Adding a multiple of 256 leaves the low byte alone. */
  lemma ByteAbove(h: int, x: nat, k: int)
    requires h == k * B1
    ensures (h + x) % B1 == x % B1
  {
    DivModUnique(h + x, B1, k + x / B1, x % B1);
  }

  /** Bytes read by parseSize are written back unchanged by addSize. */
  lemma SizeBytesDecode(b: seq<Byte>)
    requires |b| == 4
    ensures SizeBytes(DecodeSize(b)) == b
  {
    var n := DecodeSize(b);
    IdBytesPack(b[3], b[2], b[1], b[0]);
    assert n == Pack(b[3], b[2], b[1], b[0]);
  }

  /** parseID over a byte sequence read from position `pos`: the four bytes
      as a string given to raff_newID, or nothing when the source ends first. */
  function ReadID(buf: seq<Byte>, pos: nat): (r: Option<int>)
    ensures r.Some? <==> pos + 4 <= |buf|
    ensures r.Some? ==> Canonical(r.value)
    ensures r.Some? ==> IdBytes(r.value) == NulStopped(buf[pos..pos + 4])
  {
    if pos + 4 <= |buf| then
      NewIDCanonical(buf[pos..pos + 4]);
      Some(NewID(buf[pos..pos + 4]))
    else None
  }

  /** parseSize over a byte sequence read from position `pos`. */
  function ReadSize(buf: seq<Byte>, pos: nat): (r: Option<nat>)
    ensures r.Some? <==> pos + 4 <= |buf|
    ensures r.Some? ==> SizeBytes(r.value) == buf[pos..pos + 4]
    ensures r.Some? ==> r.value < B4
  {
    if pos + 4 <= |buf| then
      SizeBytesDecode(buf[pos..pos + 4]);
      Some(DecodeSize(buf[pos..pos + 4]))
    else None
  }
}
