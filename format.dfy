/** The RIFF wire format as pure functions: what one parse step reads
    (parseNextChunk), what a whole list body parses to (raff_chunkAsList),
    what the serialisers write (raff_listAsChunk, snextCb) and what a top-level
    stream opens to (openStream). The classes in module Raff are proved
    against these definitions. */
module RiffFormat {
  import opened RiffErrors
  import opened RiffWire

  /** raff_Type: a chunk's body is either a further sequence of chunks
      (`LIST` or `RIFF` form) or raw payload. */
  datatype Kind = ListKind | RiffKind | Other

  /** The value a chunk stands for: its type, its externally visible ID
      (the sub-ID for containers) and its payload bytes, which exclude the
      sub-ID and the pad byte. */
  datatype ChunkVal = ChunkVal(kind: Kind, id: int, data: seq<Byte>)

  /** What one parse step records: type, ID and the payload's range
      `[start, start + size)` inside the parent's bytes. */
  datatype Header = Header(kind: Kind, id: int, start: nat, size: nat)

  /** A parsed header and the parent cursor after its payload and pad. */
  datatype Parsed = Parsed(header: Header, next: nat)

  /** Bytes of the sub-ID that follows the size field: four for containers. */
  function SubIdLen(kind: Kind): nat
  {
    if kind == Other then 0 else 4
  }

  /** The tag written in front of the size: the marker for containers,
      the chunk's own ID otherwise. */
  function WireTag(kind: Kind, id: int): int
  {
    match kind
    case ListKind => LIST_ID
    case RiffKind => RIFF_ID
    case Other => id
  }

  /** The pad byte after an odd payload. */
  function Pad(n: nat): (p: seq<Byte>)
    ensures |p| == n % 2
    ensures forall k :: 0 <= k < |p| ==> p[k] == 0
  {
    if n % 2 == 1 then [0] else []
  }

  /** Tag, little-endian size (counting the sub-ID of a container) and, for
      a container, the sub-ID. */
  function HeaderBytes(v: ChunkVal): (h: seq<Byte>)
    ensures |h| == 8 + SubIdLen(v.kind)
  {
    IdBytes(WireTag(v.kind, v.id)) + SizeBytes(|v.data| + SubIdLen(v.kind))
      + (if v.kind == Other then [] else IdBytes(v.id))
  }

  /** One chunk as the serialisation stream delivers it: header then
      payload, no pad. */
  function Serialized(v: ChunkVal): seq<Byte>
  {
    HeaderBytes(v) + v.data
  }

  /** One child as a list body holds it: header, payload, pad. */
  function EncodeChunk(v: ChunkVal): seq<Byte>
  {
    Serialized(v) + Pad(|v.data|)
  }

  /** A list body: its children encoded one after the other. */
  function EncodeList(vs: seq<ChunkVal>): seq<Byte>
  {
    if vs == [] then [] else EncodeChunk(vs[0]) + EncodeList(vs[1..])
  }

  /** The size raff_listAsChunk counts for one child: tag, size, sub-ID of
      a container, payload and pad. */
  function EncodedSize(v: ChunkVal): nat
  {
    4 + 4 + SubIdLen(v.kind) + |v.data| + |v.data| % 2
  }

  /** The sum of EncodedSize over a list. */
  function ListSize(vs: seq<ChunkVal>): nat
  {
    if vs == [] then 0 else EncodedSize(vs[0]) + ListSize(vs[1..])
  }

  /** The bytes each child takes are exactly the bytes counted for it. */
  lemma EncodeChunkSize(v: ChunkVal)
    ensures |EncodeChunk(v)| == EncodedSize(v)
  {
  }

  /** What is written for one child is its serialisation followed by a
      zero pad byte exactly when the payload is odd. */
  lemma EncodeChunkLayout(v: ChunkVal)
    ensures |EncodeChunk(v)| == |Serialized(v)| + |v.data| % 2
    ensures EncodeChunk(v)[..|Serialized(v)|] == Serialized(v)
    ensures forall k :: |Serialized(v)| <= k < |EncodeChunk(v)| ==> EncodeChunk(v)[k] == 0
  {
    assert EncodeChunk(v) == Serialized(v) + Pad(|v.data|);
  }

  /** Every child takes an even number of bytes, at least its header and
      payload, so each child of a list body starts at an even offset. */
  lemma EncodedSizeAligned(v: ChunkVal)
    ensures EncodedSize(v) % 2 == 0
    ensures EncodedSize(v) >= 8 + SubIdLen(v.kind) + |v.data|
  {
  }

  /** A list body's size is even and counts at least a header per child. */
  lemma {:induction false} ListSizeAligned(vs: seq<ChunkVal>)
    ensures ListSize(vs) % 2 == 0
    ensures ListSize(vs) >= 8 * |vs|
  {
    if vs != [] {
      EncodedSizeAligned(vs[0]);
      ListSizeAligned(vs[1..]);
    }
  }

  /** A list body is exactly as long as the sum raff_listAsChunk allocates. */
  lemma {:induction false} EncodeListSize(vs: seq<ChunkVal>)
    ensures |EncodeList(vs)| == ListSize(vs)
  {
    if vs != [] {
      EncodeListSize(vs[1..]);
    }
  }

  /** Encoding a list one child longer appends that child's encoding. */
  lemma {:induction false} EncodeListSnoc(vs: seq<ChunkVal>, v: ChunkVal)
    ensures EncodeList(vs + [v]) == EncodeList(vs) + EncodeChunk(v)
  {
    if vs == [] {
      assert [v][1..] == [];
    } else {
      assert (vs + [v])[1..] == vs[1..] + [v];
      EncodeListSnoc(vs[1..], v);
    }
  }

  /** Counting one child more adds its encoded size. */
  lemma {:induction false} ListSizeSnoc(vs: seq<ChunkVal>, v: ChunkVal)
    ensures ListSize(vs + [v]) == ListSize(vs) + EncodedSize(v)
  {
    if vs == [] {
      assert [v][1..] == [];
    } else {
      assert (vs + [v])[1..] == vs[1..] + [v];
      ListSizeSnoc(vs[1..], v);
    }
  }

  /** The body of two lists one after the other is the one body after the
      other. */
  lemma {:induction false} EncodeListAppend(a: seq<ChunkVal>, b: seq<ChunkVal>)
    ensures EncodeList(a + b) == EncodeList(a) + EncodeList(b)
  {
    if a == [] {
      assert a + b == b;
    } else {
      assert (a + b)[1..] == a[1..] + b;
      EncodeListAppend(a[1..], b);
    }
  }

  /** Child `k` of a list body is written at the offset the sizes of the
      children before it add up to, and takes exactly its counted size. */
  lemma EncodeListChild(vs: seq<ChunkVal>, k: nat)
    requires k < |vs|
    ensures var lo := ListSize(vs[..k]);
      && lo + EncodedSize(vs[k]) <= |EncodeList(vs)|
      && EncodeList(vs)[lo..lo + EncodedSize(vs[k])] == EncodeChunk(vs[k])
  {
    var rest := [vs[k]] + vs[k + 1..];
    assert vs == vs[..k] + rest;
    assert rest[1..] == vs[k + 1..];
    EncodeListAppend(vs[..k], rest);
    EncodeListSize(vs[..k]);
    EncodeChunkSize(vs[k]);
    assert EncodeList(vs) == EncodeList(vs[..k]) + EncodeChunk(vs[k]) + EncodeList(vs[k + 1..]);
  }

  /** One child further through a list body: the bytes and the size of the
      prefix grow by that child, and the suffix still to write shrinks by
      it. */
  lemma BodyStep(vs: seq<ChunkVal>, k: nat)
    requires k < |vs|
    ensures EncodeList(vs[..k + 1]) == EncodeList(vs[..k]) + EncodeChunk(vs[k])
    ensures ListSize(vs[..k + 1]) == ListSize(vs[..k]) + EncodedSize(vs[k])
    ensures ListSize(vs[k..]) == EncodedSize(vs[k]) + ListSize(vs[k + 1..])
  {
    assert vs[..k + 1] == vs[..k] + [vs[k]];
    assert vs[k..][1..] == vs[k + 1..];
    EncodeListSnoc(vs[..k], vs[k]);
    ListSizeSnoc(vs[..k], vs[k]);
  }

  /** parseNextChunk over the parent's bytes `buf` with the cursor at `pos`:
      tag, size, then a sub-ID when the tag is `LIST` or `RIFF`; the payload
      starts at the cursor after the header and the cursor moves past the
      payload and its pad byte. A truncated header, a container whose size
      cannot hold its sub-ID, or a payload with its pad running past the
      parent is Corrupt. A successful step stays inside the parent and
      makes progress. */
  function ParseChunkAt(buf: seq<Byte>, pos: nat): (r: Result<Parsed>)
    ensures r.Err? ==> r.error == Corrupt
    ensures r.Ok? ==> var h := r.value.header;
      && h.start == pos + 8 + SubIdLen(h.kind)
      && r.value.next == h.start + h.size + h.size % 2
      && r.value.next <= |buf|
  {
    match ReadID(buf, pos)
    case None => Err(Corrupt)
    case Some(tag) =>
      match ReadSize(buf, pos + 4)
      case None => Err(Corrupt)
      case Some(declared) =>
        var pad := declared % 2;
        if tag == LIST_ID || tag == RIFF_ID then
          match ReadID(buf, pos + 8)
          case None => Err(Corrupt)
          case Some(sub) =>
            if declared < 4 then Err(Corrupt)
            else
              PadAfterSubId(declared);
              var size := declared - 4;
              var next := pos + 12 + size + pad;
              if next > |buf| then Err(Corrupt)
              else Ok(Parsed(Header(if tag == LIST_ID then ListKind else RiffKind, sub, pos + 12, size), next))
        else
          var next := pos + 8 + declared + pad;
          if next > |buf| then Err(Corrupt)
          else Ok(Parsed(Header(Other, tag, pos + 8, declared), next))
  }

  /** Taking the sub-ID off a container's size keeps its parity, so the
      pad computed from the declared size is the pad of the payload. */
  lemma PadAfterSubId(declared: nat)
    requires declared >= 4
    ensures (declared - 4) % 2 == declared % 2
  {
  }

  /** A successful parse step classifies the tag: `LIST` gives a LIST
      chunk, `RIFF` a RIFF chunk, anything else a leaf whose ID is the tag;
      the declared size counts the sub-ID of a container. */
  lemma ParseChunkAtClassifies(buf: seq<Byte>, pos: nat)
    requires ParseChunkAt(buf, pos).Ok?
    ensures var h := ParseChunkAt(buf, pos).value.header;
      var tag := NewID(buf[pos..pos + 4]);
      && (h.kind == ListKind <==> tag == LIST_ID)
      && (h.kind == RiffKind <==> tag == RIFF_ID)
      && (h.kind == Other ==> h.id == tag)
      && (h.kind != Other ==> h.id == NewID(buf[pos + 8..pos + 12]))
      && h.size + SubIdLen(h.kind) == DecodeSize(buf[pos + 4..pos + 8])
  {
    MarkersCanonical();
    assert ReadID(buf, pos) == Some(NewID(buf[pos..pos + 4]));
    assert ReadSize(buf, pos + 4) == Some(DecodeSize(buf[pos + 4..pos + 8]));
  }

  /** Where a child's payload and its pad byte end. */
  function End(h: Header): nat
  {
    h.start + h.size + h.size % 2
  }

  /** Every header lies inside `buf`, at or after `pos`, together with its
      pad byte. */
  ghost predicate Within(buf: seq<Byte>, pos: nat, hs: seq<Header>)
  {
    forall k :: 0 <= k < |hs| ==> pos <= hs[k].start && End(hs[k]) <= |buf|
  }

  /** The loop of raff_chunkAsList from cursor `pos` to the end of `buf`:
      the headers of the remaining children in order, or the first error.
      Every child's payload lies inside the parent. */
  function ParseChildren(buf: seq<Byte>, pos: nat): (r: Result<seq<Header>>)
    ensures r.Err? ==> r.error == Corrupt
    ensures r.Ok? ==> Within(buf, pos, r.value)
    decreases |buf| - pos
  {
    if pos >= |buf| then Ok([])
    else match ParseChunkAt(buf, pos)
      case Err(e) => Err(e)
      case Ok(p) =>
        match ParseChildren(buf, p.next)
        case Err(e) => Err(e)
        case Ok(rest) => Ok([p.header] + rest)
  }

  /** The children of a list body: an empty body has none, and every
      child found lies inside the body with its pad. */
  function ParseList(buf: seq<Byte>): (r: Result<seq<Header>>)
    ensures r.Err? ==> r.error == Corrupt
    ensures r.Ok? ==> Within(buf, 0, r.value)
    ensures buf == [] ==> r == Ok([])
  {
    ParseChildren(buf, 0)
  }

  /** Puts already parsed headers in front of the outcome of the rest. */
  function Prepend(hs: seq<Header>, r: Result<seq<Header>>): Result<seq<Header>>
  {
    match r
    case Ok(rest) => Ok(hs + rest)
    case Err(e) => Err(e)
  }

  /** One parse step followed by the rest of the loop is the loop. */
  lemma ParseChildrenStep(buf: seq<Byte>, pos: nat, hs: seq<Header>, p: Parsed)
    requires pos < |buf|
    requires ParseChunkAt(buf, pos) == Ok(p)
    ensures Prepend(hs, ParseChildren(buf, pos)) == Prepend(hs + [p.header], ParseChildren(buf, p.next))
  {
    match ParseChildren(buf, p.next)
    case Err(e) =>
    case Ok(rest) =>
      assert hs + [p.header] + rest == hs + ([p.header] + rest);
  }

  /** The value of a header: its type and ID with the bytes of its range. */
  function Resolve(buf: seq<Byte>, h: Header): ChunkVal
    requires h.start + h.size <= |buf|
  {
    ChunkVal(h.kind, h.id, buf[h.start..h.start + h.size])
  }

  /** Every header's range lies inside `buf`: what resolving needs. */
  ghost predicate RangesInside(buf: seq<Byte>, hs: seq<Header>)
  {
    forall k :: 0 <= k < |hs| ==> hs[k].start + hs[k].size <= |buf|
  }

  /** The values of a sequence of headers. */
  function ResolveAll(buf: seq<Byte>, hs: seq<Header>): (vs: seq<ChunkVal>)
    requires RangesInside(buf, hs)
    ensures |vs| == |hs|
    ensures forall k :: 0 <= k < |hs| ==> vs[k] == Resolve(buf, hs[k])
  {
    seq(|hs|, k requires 0 <= k < |hs| => Resolve(buf, hs[k]))
  }

  /** A chunk value that the wire format can carry and give back: a
      canonical ID, a leaf ID that is not a structural marker, and a size
      that fits the 32-bit size field together with the sub-ID. */
  predicate WellFormed(v: ChunkVal)
  {
    && Canonical(v.id)
    && (v.kind == Other ==> v.id != LIST_ID && v.id != RIFF_ID)
    && |v.data| + SubIdLen(v.kind) < B4
  }

  /** Where each field lies in a serialised chunk: the tag at 0, the size
      at 4, a container's sub-ID at 8, then the payload. */
  lemma SerializedParts(v: ChunkVal)
    ensures var s := Serialized(v);
      && |s| == 8 + SubIdLen(v.kind) + |v.data|
      && s[..4] == IdBytes(WireTag(v.kind, v.id))
      && s[4..8] == SizeBytes(|v.data| + SubIdLen(v.kind))
      && (v.kind != Other ==> s[8..12] == IdBytes(v.id))
      && s[8 + SubIdLen(v.kind)..] == v.data
  {
  }

  /** `x >> 8*k` is `x / 256^k`. */
  function Pow256(k: nat): int
    requires k < 4
  {
    if k == 0 then 1 else if k == 1 then B1 else if k == 2 then B2 else B3
  }

  /** A source starts with the RIFF marker exactly when its first four bytes
      are `RIFF`. */
  lemma RiffTagAt(input: seq<Byte>)
    ensures |input| >= 4 ==> (NewID(input[..4]) == RIFF_ID <==> input[..4] == [0x52, 0x49, 0x46, 0x46])
  {
    if |input| >= 4 {
      RiffTagOnly(input[..4]);
    }
  }

  /** size_t arithmetic wraps modulo 2^64. */
  const SIZE_T: int := 0x1_0000_0000_0000_0000

  /** openStream over the bytes of a source: the `RIFF` marker, the
      declared size, the form ID, then `declared - 4` (computed in size_t)
      payload bytes. A source that does not start with `RIFF` is NotRiff; a
      truncated size, form ID or payload is Corrupt. The root chunk has type
      RIFF, the form ID and the payload. */
  function OpenSpec(input: seq<Byte>): (r: Result<ChunkVal>)
    ensures r.Err? ==> r.error == NotRiff || r.error == Corrupt
    ensures r.Err? && r.error == NotRiff <==> |input| < 4 || input[..4] != [0x52, 0x49, 0x46, 0x46]
    ensures r.Ok? ==> && r.value.kind == RiffKind
                      && |input| >= 12 + |r.value.data|
                      && r.value.data == input[12..12 + |r.value.data|]
                      && |r.value.data| == (DecodeSize(input[4..8]) - 4) % SIZE_T
                      && r.value.id == NewID(input[8..12])
  {
    RiffTagAt(input);
    match ReadID(input, 0)
    case None => Err(NotRiff)
    case Some(tag) =>
      if tag != RIFF_ID then Err(NotRiff)
      else match ReadSize(input, 4)
        case None => Err(Corrupt)
        case Some(declared) =>
          var size := (declared - 4) % SIZE_T;
          match ReadID(input, 8)
          case None => Err(Corrupt)
          case Some(form) =>
            if |input| < 12 + size then Err(Corrupt)
            else Ok(ChunkVal(RiffKind, form, input[12..12 + size]))
  }
}
