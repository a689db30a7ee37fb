/** Three places where the C code as written departs from what it evidently
    intends. Each is modelled as written, with an input that shows the
    discrepancy; the rest of the model uses the corrected definitions of
    modules RiffWire and RiffFormat. */
module RiffFindings {
  import opened RiffErrors
  import opened RiffWire
  import opened RiffFormat
  import opened RiffRoundTrip

  // ---------------------------------------------------------------------
  // 1. raff_listAsChunk writes a container child's size without its sub-ID.
  // ---------------------------------------------------------------------

  /** The header raff_listAsChunk writes for a child: for a LIST or RIFF
      child the size field is the payload size alone, although the parser
      subtracts four for the sub-ID that follows. */
  function HeaderBytesAsWritten(v: ChunkVal): (h: seq<Byte>)
    ensures |h| == 8 + SubIdLen(v.kind)
  {
    IdBytes(WireTag(v.kind, v.id)) + SizeBytes(|v.data|)
      + (if v.kind == Other then [] else IdBytes(v.id))
  }

  /** One child as raff_listAsChunk writes it. */
  function EncodeChunkAsWritten(v: ChunkVal): (e: seq<Byte>)
    ensures |e| == EncodedSize(v)
  {
    HeaderBytesAsWritten(v) + v.data + Pad(|v.data|)
  }

  /** A list body as raff_listAsChunk writes it. */
  function EncodeListAsWritten(vs: seq<ChunkVal>): (b: seq<Byte>)
    ensures |b| == ListSize(vs)
  {
    if vs == [] then [] else EncodeChunkAsWritten(vs[0]) + EncodeListAsWritten(vs[1..])
  }

  /** Leaf children are written the same way by both definitions: only
      containers are affected. */
  lemma AsWrittenAgreesOnLeaves(v: ChunkVal)
    requires v.kind == Other
    ensures EncodeChunkAsWritten(v) == EncodeChunk(v)
  {
  }

  /** The leaf `x   ` with no payload, and a LIST `abcd` holding it. */
  function SampleLeaf(): ChunkVal
  {
    ChunkVal(Other, Pack(0x78, 0x20, 0x20, 0x20), [])
  }

  function SampleNested(): ChunkVal
  {
    ChunkVal(ListKind, Pack(0x61, 0x62, 0x63, 0x64), EncodeChunk(SampleLeaf()))
  }

  /** The sample is a chunk the wire format can carry. */
  lemma SampleNestedWellFormed()
    ensures WellFormed(SampleNested())
    ensures IdBytes(SampleNested().id) == [0x61, 0x62, 0x63, 0x64]
    ensures EncodeChunk(SampleLeaf()) == [0x78, 0x20, 0x20, 0x20, 0, 0, 0, 0]
  {
    IdBytesPack(0x61, 0x62, 0x63, 0x64);
    IdBytesPack(0x78, 0x20, 0x20, 0x20);
    assert NewID([0x61, 0x62, 0x63, 0x64]) == Pack(0x61, 0x62, 0x63, 0x64);
    assert SizeBytes(0) == [0, 0, 0, 0];
  }

  /** The 20 bytes raff_listAsChunk writes for a list holding the sample:
      its size field says 8 where the parser expects 12. */
  function SampleWritten(): (w: seq<Byte>)
    ensures |w| == 20
  {
    [0x4C, 0x49, 0x53, 0x54, 8, 0, 0, 0, 0x61, 0x62, 0x63, 0x64,
     0x78, 0x20, 0x20, 0x20, 0, 0, 0, 0]
  }

  /** They are what the as-written encoder produces for the sample. */
  lemma SampleAsWrittenBytes()
    ensures EncodeListAsWritten([SampleNested()]) == SampleWritten()
  {
    SampleNestedWellFormed();
    IdBytesPack(0x4C, 0x49, 0x53, 0x54);
    assert SizeBytes(8) == [8, 0, 0, 0];
    var v := SampleNested();
    assert HeaderBytesAsWritten(v) == [0x4C, 0x49, 0x53, 0x54, 8, 0, 0, 0, 0x61, 0x62, 0x63, 0x64];
    assert EncodeListAsWritten([v]) == EncodeChunkAsWritten(v) + EncodeListAsWritten([]);
  }

  /** The header fields the parser reads from those bytes. */
  lemma SampleWrittenFields()
    ensures ReadID(SampleWritten(), 0) == Some(LIST_ID)
    ensures ReadSize(SampleWritten(), 4) == Some(8)
    ensures ReadID(SampleWritten(), 8).Some?
    ensures ReadSize(SampleWritten(), 20) == None
  {
    var w := SampleWritten();
    MarkersCanonical();
    assert w[0..4] == [0x4C, 0x49, 0x53, 0x54];
    assert w[4..8] == [8, 0, 0, 0];
  }

  /** Those bytes do not parse: the LIST child is taken to hold 4 bytes, the
      cursor stops inside the nested leaf's header, and the next step runs
      out of bytes. */
  lemma SampleAsWrittenCorrupt()
    ensures ParseList(SampleWritten()) == Err(Corrupt)
  {
    var w := SampleWritten();
    SampleWrittenFields();
    MarkersCanonical();
    assert ParseChunkAt(w, 0).Ok? && ParseChunkAt(w, 0).value.next == 16;
    assert ParseChunkAt(w, 16) == Err(Corrupt);
    assert ParseChildren(w, 16) == Err(Corrupt);
  }

  /** A LIST holding one empty leaf: as written its list body no longer
      parses, while the corrected encoding parses back to it. */
  lemma NestedListLosesSubId()
    ensures WellFormed(SampleNested())
    ensures ParseList(EncodeListAsWritten([SampleNested()])) == Err(Corrupt)
    ensures ParseList(EncodeList([SampleNested()])).Ok?
    ensures Describes(EncodeList([SampleNested()]), ParseList(EncodeList([SampleNested()])).value, [SampleNested()])
  {
    SampleNestedWellFormed();
    SampleAsWrittenBytes();
    SampleAsWrittenCorrupt();
    ParseListEncodeList([SampleNested()]);
  }

  // ---------------------------------------------------------------------
  // 2. parseNextChunk subtracts the sub-ID from a size that may be below 4.
  // ---------------------------------------------------------------------

  /** parseNextChunk as written: `size -= 4` and `stream->next += size + pad`
      in size_t, so a container whose declared size is below 4 wraps to a
      huge size and moves the cursor backwards instead of failing. */
  function ParseChunkAtAsWritten(buf: seq<Byte>, pos: nat): (r: Result<Parsed>)
    ensures r.Err? ==> r.error == Corrupt
  {
    match ReadID(buf, pos)
    case None => Err(Corrupt)
    case Some(tag) =>
      match ReadSize(buf, pos + 4)
      case None => Err(Corrupt)
      case Some(declared) =>
        var pad := declared % 2;
        if tag == LIST_ID || tag == RIFF_ID then
          match ReadID(buf, pos + 8)
          case None => Err(Corrupt)
          case Some(sub) =>
            var size := (declared - 4) % SIZE_T;
            var next := (pos + 12 + size + pad) % SIZE_T;
            if next > |buf| then Err(Corrupt)
            else Ok(Parsed(Header(if tag == LIST_ID then ListKind else RiffKind, sub, pos + 12, size), next))
        else
          var next := (pos + 8 + declared + pad) % SIZE_T;
          if next > |buf| then Err(Corrupt)
          else Ok(Parsed(Header(Other, tag, pos + 8, declared), next))
  }

  /** `LIST`, declared size 2, sub-ID `abcd`: a container too short to
      hold its own sub-ID. */
  function ShortList(): (b: seq<Byte>)
    ensures |b| == 12
  {
    [0x4C, 0x49, 0x53, 0x54, 2, 0, 0, 0, 0x61, 0x62, 0x63, 0x64]
  }

  /** The header fields of the short container as the parser reads them. */
  lemma ShortListFields()
    ensures ReadID(ShortList(), 0) == Some(LIST_ID)
    ensures ReadSize(ShortList(), 4) == Some(2)
    ensures ReadID(ShortList(), 8).Some?
  {
    var buf := ShortList();
    MarkersCanonical();
    assert buf[0..4] == [0x4C, 0x49, 0x53, 0x54];
    assert buf[4..8] == [2, 0, 0, 0];
  }

  /** On the short container the step as written succeeds with a payload
      of 2^64 - 2 bytes that runs far past the 12-byte parent and a cursor
      that went back to 10; the corrected step reports Corrupt. */
  lemma ShortContainerUnderflows()
    ensures var r := ParseChunkAtAsWritten(ShortList(), 0);
      && r.Ok? && r.value.header.size == SIZE_T - 2
      && r.value.header.start + r.value.header.size > |ShortList()|
      && r.value.next == 10
    ensures ParseChunkAt(ShortList(), 0) == Err(Corrupt)
  {
    ShortListFields();
    var sub := ReadID(ShortList(), 8).value;
    assert (2 - 4) % SIZE_T == SIZE_T - 2 && (12 + (SIZE_T - 2)) % SIZE_T == 10;
    assert ParseChunkAtAsWritten(ShortList(), 0) == Ok(Parsed(Header(ListKind, sub, 12, SIZE_T - 2), 10));
  }

  /** The corrected step never records a range outside the parent, whatever
      the bytes: the property the as-written step loses. */
  lemma ParsedRangeInsideParent(buf: seq<Byte>, pos: nat)
    requires ParseChunkAt(buf, pos).Ok?
    ensures var h := ParseChunkAt(buf, pos).value.header;
      pos < h.start && h.start + h.size <= ParseChunkAt(buf, pos).value.next <= |buf|
  {
  }

  // ---------------------------------------------------------------------
  // 3. raff_newID sign-extends characters of 0x80 and above.
  // ---------------------------------------------------------------------

  /** A byte read into a signed `char` and widened to 64 bits with its
      sign. */
  function Widen(b: Byte): bv64
  {
    if b < 0x80 then b as bv64 else (b as bv64) | 0xFFFF_FFFF_FFFF_FF00
  }

  /** Two's complement bits read as a signed 64-bit value. */
  function Signed(b: bv64): int
  {
    if b >= 0x8000_0000_0000_0000 then b as int - SIZE_T else b as int
  }

  /** raff_newID as written where `char` is signed: each character is
      widened with its sign before it is shifted and or-ed into the ID. */
  function NewIDAsWritten(s: seq<Byte>): (id: int)
    ensures CharAt(s, 0) == 0 ==> id == 0
    ensures CharAt(s, 0) >= 0x80 ==> id < 0
  {
    var c0, c1, c2, c3 := CharAt(s, 0), CharAt(s, 1), CharAt(s, 2), CharAt(s, 3);
    if c0 == 0 then 0
    else if c1 == 0 then Signed(Widen(c0) << 24)
    else if c2 == 0 then Signed((Widen(c0) << 24) | (Widen(c1) << 16))
    else if c3 == 0 then Signed((Widen(c0) << 24) | (Widen(c1) << 16) | (Widen(c2) << 8))
    else Signed((Widen(c0) << 24) | (Widen(c1) << 16) | (Widen(c2) << 8) | Widen(c3))
  }

  /** The tag bytes `abc` 0xFF: as written they read as the ID -1, which is
      written back as four 0xFF bytes; the corrected ID keeps the tag. */
  lemma HighByteSignExtends()
    ensures NewIDAsWritten([0x61, 0x62, 0x63, 0xFF]) == -1
    ensures IdBytes(NewIDAsWritten([0x61, 0x62, 0x63, 0xFF])) == [0xFF, 0xFF, 0xFF, 0xFF]
    ensures IdBytes(NewID([0x61, 0x62, 0x63, 0xFF])) == [0x61, 0x62, 0x63, 0xFF]
  {
    assert Widen(0xFF) == 0xFFFF_FFFF_FFFF_FFFF;
  }
}
