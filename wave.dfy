/** The library's own usage: a WAVE file built from a 16-byte `fmt ` chunk
    and an 8-byte `data` chunk prepended to a `WAVE` list, turned into a
    RIFF chunk and serialised, then read back and taken apart into its two
    chunks. */
module RiffWave {
  import opened RiffErrors
  import opened RiffWire
  import opened RiffFormat
  import opened RiffRoundTrip
  import opened Raff
  import opened RiffSerializer

  /** The three IDs of the scenario: `fmt `, `data` and `WAVE`. */
  function FmtID(): int { NewID([0x66, 0x6D, 0x74, 0x20]) }
  function DataID(): int { NewID([0x64, 0x61, 0x74, 0x61]) }
  function WaveID(): int { NewID([0x57, 0x41, 0x56, 0x45]) }

  /** The two leaf chunks, in the order the list ends up holding them. */
  function WaveChildren(fmt: seq<Byte>, samples: seq<Byte>): seq<ChunkVal>
  {
    [ChunkVal(Other, FmtID(), fmt), ChunkVal(Other, DataID(), samples)]
  }

  /** The IDs are the IDs of their letters, and neither leaf ID is a
      structural marker. */
  lemma WaveIDs()
    ensures FmtID() == Pack(0x66, 0x6D, 0x74, 0x20) && Canonical(FmtID())
    ensures DataID() == Pack(0x64, 0x61, 0x74, 0x61) && Canonical(DataID())
    ensures Canonical(WaveID())
    ensures FmtID() != LIST_ID && FmtID() != RIFF_ID && DataID() != LIST_ID && DataID() != RIFF_ID
  {
    NewIDCanonical([0x66, 0x6D, 0x74, 0x20]);
    NewIDCanonical([0x64, 0x61, 0x74, 0x61]);
    NewIDCanonical([0x57, 0x41, 0x56, 0x45]);
  }

  /** The value the scenario builds: a RIFF chunk of form `WAVE` whose
      payload is the list body of the two leaves. */
  function WaveVal(fmt: seq<Byte>, samples: seq<Byte>): ChunkVal
  {
    ChunkVal(RiffKind, WaveID(), EncodeList(WaveChildren(fmt, samples)))
  }

  /** The serialised WAVE chunk is 52 bytes; it opens back to the WAVE
      chunk, and its payload parses back into the two leaves. */
  lemma WaveRoundTrip(fmt: seq<Byte>, samples: seq<Byte>)
    requires |fmt| == 16 && |samples| == 8
    ensures |Serialized(WaveVal(fmt, samples))| == 52
    ensures OpenSpec(Serialized(WaveVal(fmt, samples))) == Ok(WaveVal(fmt, samples))
    ensures ParseList(WaveVal(fmt, samples).data).Ok?
    ensures Describes(WaveVal(fmt, samples).data, ParseList(WaveVal(fmt, samples).data).value, WaveChildren(fmt, samples))
  {
    var vs := WaveChildren(fmt, samples);
    WaveIDs();
    EncodeListSize(vs);
    assert vs[1..] == [vs[1]] && vs[1..][1..] == [];
    assert EncodedSize(vs[0]) == 24 && EncodedSize(vs[1]) == 16;
    assert ListSize(vs[1..]) == 16;
    assert ListSize(vs) == 40;
    OpenSerialized(WaveVal(fmt, samples));
    ParseListEncodeList(vs);
  }

  /** test-gen's object steps: raff_newData for `data` and `fmt ` and their
      chunk forms, both prepended to a new `WAVE` list (`data` first, so
      `fmt ` ends up in front), and the list made a RIFF chunk. */
  method BuildWave(fmt: seq<Byte>, samples: seq<Byte>) returns (waveCk: Chunk)
    requires |fmt| == 16 && |samples| == 8
    ensures waveCk.Valid() && waveCk.View() == WaveVal(fmt, samples)
  {
    var file := new File(0);
    var dataCk := MakeLeaf(file, NewID([0x64, 0x61, 0x74, 0x61]), samples);
    var fmtCk := MakeLeaf(file, NewID([0x66, 0x6D, 0x74, 0x20]), fmt);
    var wave := BuildList(file, fmtCk, dataCk);
    waveCk := wave.AsChunk(true);
    assert ViewsOf(wave.items) == WaveChildren(fmt, samples);
  }

  /** raff_newData then raff_dataAsChunk: a fresh leaf chunk of the file
      holding a copy of the bytes, in no list. */
  method MakeLeaf(file: File, id: int, content: seq<Byte>) returns (c: Chunk)
    ensures fresh(c) && c.Valid() && c.View() == ChunkVal(Other, id, content)
    ensures c.file == file && c.list == null
  {
    var d := new Data(file, id, content, |content|);
    c := d.AsChunk();
    assert content[..|content|] == content;
  }

  /** The `WAVE` list holding `fmt ` then `data`, made by prepending `data`
      and then `fmt ` to an empty list. */
  method BuildList(file: File, fmtCk: Chunk, dataCk: Chunk) returns (wave: List)
    requires fmtCk != dataCk && fmtCk.Valid() && dataCk.Valid()
    requires fmtCk.file == file && dataCk.file == file && fmtCk.list == null && dataCk.list == null
    modifies fmtCk`next, fmtCk`list, dataCk`next, dataCk`list
    ensures fresh(wave) && wave.Valid() && wave.asChunk == null && wave.id == WaveID()
    ensures ViewsOf(wave.items) == [fmtCk.View(), dataCk.View()]
  {
    wave := new List(file, NewID([0x57, 0x41, 0x56, 0x45]));
    wave.Prepend(dataCk);
    wave.Prepend(fmtCk);
  }

  /** The whole of test-gen without its file: the WAVE chunk built and
      serialised. The 52 bytes written open back to a RIFF chunk with form
      `WAVE` whose payload parses into the `fmt ` chunk and then the `data`
      chunk, with their bytes. */
  method GenerateWave(fmt: seq<Byte>, samples: seq<Byte>) returns (out: seq<Byte>)
    requires |fmt| == 16 && |samples| == 8
    ensures |out| == 52
    ensures OpenSpec(out).Ok? && OpenSpec(out).value.id == WaveID()
    ensures var body := OpenSpec(out).value.data;
      && body == EncodeList(WaveChildren(fmt, samples))
      && ParseList(body).Ok?
      && Describes(body, ParseList(body).value, WaveChildren(fmt, samples))
  {
    var waveCk := BuildWave(fmt, samples);
    var err;
    err, out := SerializeToSink(waveCk, true);
    WaveRoundTrip(fmt, samples);
  }
}
