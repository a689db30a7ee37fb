/** The round trips of the wire format: a list body written child by child
    parses back to the same children, and a serialised RIFF chunk opens back
    to the same root chunk. */
module RiffRoundTrip {
  import opened RiffErrors
  import opened RiffWire
  import opened RiffFormat

  /** A slice of the middle part of a concatenation. */
  lemma SliceMiddle(a: seq<Byte>, b: seq<Byte>, c: seq<Byte>, i: nat, j: nat)
    requires i <= j <= |b|
    ensures (a + b + c)[|a| + i..|a| + j] == b[i..j]
  {
  }

  /** Reading a canonical ID back from its own bytes. */
  lemma ReadCanonical(buf: seq<Byte>, pos: nat, id: int)
    requires Canonical(id)
    requires pos + 4 <= |buf| && buf[pos..pos + 4] == IdBytes(id)
    ensures ReadID(buf, pos) == Some(id)
  {
  }

  /** Reading a size back from its own bytes. */
  lemma ReadSizeBack(buf: seq<Byte>, pos: nat, n: nat)
    requires n < B4
    requires pos + 4 <= |buf| && buf[pos..pos + 4] == SizeBytes(n)
    ensures ReadSize(buf, pos) == Some(n)
  {
    SizeRoundTrip(n);
  }

  /** One parse step over an encoded child, whatever precedes and follows
      it, reads back its type, ID and size and moves the cursor past its
      pad byte; the recorded range holds its payload. */
  lemma ParseEncodedChunk(buf: seq<Byte>, pre: seq<Byte>, v: ChunkVal, post: seq<Byte>)
    requires WellFormed(v) && buf == pre + EncodeChunk(v) + post
    ensures ParseChunkAt(buf, |pre|) == Ok(Parsed(EncodedHeader(|pre|, v), |pre + EncodeChunk(v)|))
    ensures |pre| + 8 + SubIdLen(v.kind) + |v.data| <= |buf| && Resolve(buf, EncodedHeader(|pre|, v)) == v
  {
    var p := |pre|;
    var h := EncodedHeader(p, v);
    EncodedFields(pre, v, post);
    assert h.start + h.size <= |buf| && Resolve(buf, h) == v;
    assert p + |EncodeChunk(v)| == h.start + h.size + h.size % 2;
    if v.kind != Other {
      ContainerAt(buf, p, v.kind, v.id, |v.data|);
    } else {
      LeafAt(buf, p, v.id, |v.data|);
    }
  }

  /** The header the parser records for a child encoded at `p`. */
  function EncodedHeader(p: nat, v: ChunkVal): Header
  {
    Header(v.kind, v.id, p + 8 + SubIdLen(v.kind), |v.data|)
  }

  /** A parse step over the bytes of a container header. */
  lemma ContainerAt(buf: seq<Byte>, p: nat, kind: Kind, id: int, size: nat)
    requires kind != Other && Canonical(id) && size + 4 < B4
    requires p + 12 + size + size % 2 <= |buf|
    requires buf[p..p + 4] == IdBytes(WireTag(kind, id))
    requires buf[p + 4..p + 8] == SizeBytes(size + 4)
    requires buf[p + 8..p + 12] == IdBytes(id)
    ensures ParseChunkAt(buf, p) == Ok(Parsed(Header(kind, id, p + 12, size), p + 12 + size + size % 2))
  {
    MarkersCanonical();
    ReadCanonical(buf, p, WireTag(kind, id));
    ReadSizeBack(buf, p + 4, size + 4);
    ReadCanonical(buf, p + 8, id);
    ContainerStep(buf, p, kind, id, size);
  }

  /** A parse step over the bytes of a leaf header. */
  lemma LeafAt(buf: seq<Byte>, p: nat, id: int, size: nat)
    requires Canonical(id) && id != LIST_ID && id != RIFF_ID && size < B4
    requires p + 8 + size + size % 2 <= |buf|
    requires buf[p..p + 4] == IdBytes(id)
    requires buf[p + 4..p + 8] == SizeBytes(size)
    ensures ParseChunkAt(buf, p) == Ok(Parsed(Header(Other, id, p + 8, size), p + 8 + size + size % 2))
  {
    ReadCanonical(buf, p, id);
    ReadSizeBack(buf, p + 4, size);
    LeafStep(buf, p, id, size);
  }

  /** Where the fields of an encoded child lie, whatever precedes and
      follows it. */
  lemma EncodedFields(pre: seq<Byte>, v: ChunkVal, post: seq<Byte>)
    ensures var buf := pre + EncodeChunk(v) + post;
      var p := |pre|;
      var start := p + 8 + SubIdLen(v.kind);
      && |EncodeChunk(v)| == 8 + SubIdLen(v.kind) + |v.data| + |v.data| % 2
      && buf[p..p + 4] == IdBytes(WireTag(v.kind, v.id))
      && buf[p + 4..p + 8] == SizeBytes(|v.data| + SubIdLen(v.kind))
      && (v.kind != Other ==> buf[p + 8..p + 12] == IdBytes(v.id))
      && buf[start..start + |v.data|] == v.data
  {
    var e := EncodeChunk(v);
    var s := Serialized(v);
    var k := 8 + SubIdLen(v.kind);
    SerializedParts(v);
    assert e == s + Pad(|v.data|);
    assert e[0..4] == s[..4];
    assert e[4..8] == s[4..8];
    assert e[k..k + |v.data|] == s[k..];
    SliceMiddle(pre, e, post, 0, 4);
    SliceMiddle(pre, e, post, 4, 8);
    SliceMiddle(pre, e, post, k, k + |v.data|);
    if v.kind != Other {
      assert e[8..12] == s[8..12];
      SliceMiddle(pre, e, post, 8, 12);
    }
  }

  /** A parse step at a container header with a sub-ID. */
  lemma ContainerStep(buf: seq<Byte>, p: nat, kind: Kind, id: int, size: nat)
    requires kind != Other
    requires ReadID(buf, p) == Some(WireTag(kind, id))
    requires ReadSize(buf, p + 4) == Some(size + 4)
    requires ReadID(buf, p + 8) == Some(id)
    requires p + 12 + size + size % 2 <= |buf|
    ensures ParseChunkAt(buf, p) == Ok(Parsed(Header(kind, id, p + 12, size), p + 12 + size + size % 2))
  {
    MarkersCanonical();
    PadAfterSubId(size + 4);
  }

  /** A parse step at a leaf header. */
  lemma LeafStep(buf: seq<Byte>, p: nat, id: int, size: nat)
    requires id != LIST_ID && id != RIFF_ID
    requires ReadID(buf, p) == Some(id)
    requires ReadSize(buf, p + 4) == Some(size)
    requires p + 8 + size + size % 2 <= |buf|
    ensures ParseChunkAt(buf, p) == Ok(Parsed(Header(Other, id, p + 8, size), p + 8 + size + size % 2))
  {
  }

  /** The headers `hs` give back the values `vs`, one by one. */
  ghost predicate Describes(buf: seq<Byte>, hs: seq<Header>, vs: seq<ChunkVal>)
  {
    && |hs| == |vs|
    && forall k :: 0 <= k < |hs| ==> hs[k].start + hs[k].size <= |buf| && Resolve(buf, hs[k]) == vs[k]
  }

  /** The loop of raff_chunkAsList over encoded children, whatever precedes
      them, gives back one header per child whose range holds that child. */
  lemma {:induction false} ParseEncodedList(buf: seq<Byte>, pre: seq<Byte>, vs: seq<ChunkVal>)
    requires forall k :: 0 <= k < |vs| ==> WellFormed(vs[k])
    requires buf == pre + EncodeList(vs)
    ensures ParseChildren(buf, |pre|).Ok?
    ensures Describes(buf, ParseChildren(buf, |pre|).value, vs)
    decreases |vs|
  {
    if vs == [] {
      assert buf == pre;
    } else {
      var pe := ListStep(buf, pre, vs);
      ParseEncodedChunk(buf, pre, vs[0], EncodeList(vs[1..]));
      ParseEncodedList(buf, pe, vs[1..]);
      var hs := ParseChildren(buf, |pe|).value;
      var p := Parsed(EncodedHeader(|pre|, vs[0]), |pe|);
      ParseChildrenCons(buf, |pre|, p, hs);
      DescribesCons(buf, EncodedHeader(|pre|, vs[0]), hs, vs);
    }
  }

  /** A list body is its first child followed by the rest. */
  lemma ListStep(buf: seq<Byte>, pre: seq<Byte>, vs: seq<ChunkVal>) returns (pe: seq<Byte>)
    requires buf == pre + EncodeList(vs) && vs != []
    ensures pe == pre + EncodeChunk(vs[0])
    ensures buf == pre + EncodeChunk(vs[0]) + EncodeList(vs[1..])
    ensures buf == pe + EncodeList(vs[1..])
  {
    pe := pre + EncodeChunk(vs[0]);
    Regroup(buf, pre, EncodeChunk(vs[0]), EncodeList(vs[1..]));
  }

  /** Concatenation regroups. */
  lemma Regroup(buf: seq<Byte>, a: seq<Byte>, b: seq<Byte>, c: seq<Byte>)
    requires buf == a + (b + c)
    ensures buf == a + b + c
  {
  }

  /** A successful parse step in front of a successful rest. */
  lemma ParseChildrenCons(buf: seq<Byte>, pos: nat, p: Parsed, rest: seq<Header>)
    requires pos < |buf|
    requires ParseChunkAt(buf, pos) == Ok(p)
    requires ParseChildren(buf, p.next) == Ok(rest)
    ensures ParseChildren(buf, pos) == Ok([p.header] + rest)
  {
  }

  /** Describing the first child and the rest describes the whole list. */
  lemma DescribesCons(buf: seq<Byte>, h: Header, hs: seq<Header>, vs: seq<ChunkVal>)
    requires |vs| > 0
    requires h.start + h.size <= |buf| && Resolve(buf, h) == vs[0]
    requires Describes(buf, hs, vs[1..])
    ensures Describes(buf, [h] + hs, vs)
  {
    forall k | 0 <= k < |vs|
      ensures ([h] + hs)[k].start + ([h] + hs)[k].size <= |buf| && Resolve(buf, ([h] + hs)[k]) == vs[k]
    {
      if k > 0 {
        assert ([h] + hs)[k] == hs[k - 1];
      }
    }
  }

  /** Round trip of a list body: the children raff_listAsChunk writes parse
      back to the same children, in order, with the same type, ID and
      payload bytes (the pad byte does not leak into the size). */
  lemma ParseListEncodeList(vs: seq<ChunkVal>)
    requires forall k :: 0 <= k < |vs| ==> WellFormed(vs[k])
    ensures ParseList(EncodeList(vs)).Ok?
    ensures Describes(EncodeList(vs), ParseList(EncodeList(vs)).value, vs)
  {
    var buf := EncodeList(vs);
    ParseEncodedList(buf, [], vs);
  }

  /** Round trip of the serialiser: the bytes the serialisation stream of a
      RIFF-type chunk delivers open back to a root chunk with the same ID
      and payload. */
  lemma OpenSerialized(v: ChunkVal)
    requires v.kind == RiffKind && WellFormed(v)
    ensures OpenSpec(Serialized(v)) == Ok(v)
  {
    var s := Serialized(v);
    var n := |v.data| + 4;
    MarkersCanonical();
    assert s[0..4] == IdBytes(RIFF_ID);
    assert s[4..8] == SizeBytes(n);
    assert s[8..12] == IdBytes(v.id);
    ReadCanonical(s, 0, RIFF_ID);
    ReadSizeBack(s, 4, n);
    ReadCanonical(s, 8, v.id);
    assert s[12..12 + |v.data|] == v.data;
  }
}
