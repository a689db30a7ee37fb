# libraff RIFF chunk codec in Dafny

libraff reads and writes RIFF files. A RIFF file is a tree of chunks. Each chunk has:

- a four-character tag;
- a 32-bit little-endian size;
- its payload;
- a zero pad byte after an odd payload.

The tags `LIST` and `RIFF` mark containers. A container's payload starts with a four-character sub-ID, which the library reports as the chunk's ID, followed by further chunks.

This project models the library's core, `raff.c` with the types and contracts of `raff.h`:

- the ID and size codecs;
- the top-level `openStream`;
- the lazy, offset-based parse of a container into a linked list of sub-chunks (`parseNextChunk`, `raff_chunkAsList`);
- the materialising serialiser `raff_listAsChunk`;
- the streaming serialiser `snextCb`;
- the list operations and cursor;
- the cached views between chunks, lists and data;
- the copies;
- the error messages.

Modules, one per file:

- `RiffErrors` (errors.dfy): `raff_Error`, the result type and `raff_errorMsg`.
- `RiffWire` (wire.dfy): `raff_newID`, `addID`, `addSize`, and `parseID`/`parseSize` over a byte sequence.
- `RiffFormat` (format.dfy): the wire format as pure functions. It defines:
  - one parse step and the parse of a list body;
  - a child's encoding and a list body's encoding;
  - the serialisation of one chunk;
  - what a top-level source opens to.

  Everything imperative is proved against these.
- `RiffRoundTrip` (roundtrip.dfy): encoding then parsing gives back the children; serialising then opening gives back the root chunk.
- `RiffStream` (stream.dfy): the byte sources (`cnextCb` over a chunk, `fgetc` over a file) as a class with a cursor, and `parseID`/`parseSize` as methods on it.
- `Raff` (raff.dfy): `raff_File`, `raff_Chunk`, `raff_List` and `raff_Data` as classes with the C's mutable fields. Also `parseNextChunk`, the write loops of `raff_listAsChunk`, `addID`/`addSize` on an array, and `openStream`.
  - The linked list of a `raff_List` is abstracted by a ghost sequence `items`. The predicate `Linked` ties it to `first`, `last` and the `next` links.
  - The cursor is abstracted by a ghost index `pos`.
- `RiffSerializer` (serializer.dfy): `SerializationStream`/`snextCb` as a class, and the drain loop of `raff_serializeChunkToFile`.
- `RiffFindings` (findings.dfy): three places where the code as written departs from its evident intent (see Findings).
- `RiffWave` (wave.dfy): the library's own usage, in `test-gen.c` and `test-parse.c`. A WAVE file is built from a `fmt ` chunk and a `data` chunk, serialised, and read back.

Bytes are unsigned (`Byte` is 0..255) and integers are unbounded. The C's `size_t` arithmetic is written out modulo 2^64 where it can wrap: `openStream`'s `size - 4`, and the as-written `parseNextChunk`. The 32-bit size field is written out as a truncation modulo 2^32 in `addSize` and `snextCb`.

The C keeps the code of the last operation in the global `errnum`. Here every operation returns its error instead: a `Result` or an `Error` value.

`parseNextChunk` reads the tag, then the size, then a container's sub-ID (raff.c:271-292), and the model reads them in that order.

## Model

| member | source | states |
|---|---|---|
| RiffErrors.ErrorMsg | raff.c:223-241 | every code has a non-empty fixed message, and the message is "Success" exactly for the no-error code |
| RiffErrors.ErrorMsgInjective | raff.c:223-241 | the six messages are pairwise distinct, so a message identifies its code |
| RiffWire.NewID | raff.c:624-645 | the ID is a 32-bit value whose four big-endian bytes are the string's characters up to its first NUL, then zeros; the empty string gives 0 |
| RiffWire.IdBytesPack | raff.c:399-405 | the bytes addID writes for `c0<<24 \| c1<<16 \| c2<<8 \| c3` are c0, c1, c2, c3, and the packed value is below 2^32 |
| RiffWire.PackIdBytes | raff.c:399-405 | packing the four bytes addID writes for a 32-bit ID gives the ID back |
| RiffWire.NewIDCanonical | raff.c:624-645 | every ID raff_newID returns is read back unchanged from the bytes addID writes for it |
| RiffWire.IdBytesInjective | raff.c:399-405 | two 32-bit IDs with the same addID bytes are equal |
| RiffWire.MarkersCanonical | raff.c:103-107 | the `LIST` and `RIFF` markers are raff_newID of their letters, distinct, and survive being written and read |
| RiffWire.RiffTagOnly | raff.c:112-116 | four bytes read as the RIFF marker exactly when they are `R`, `I`, `F`, `F` |
| RiffWire.DecodeSize | raff.c:89-101 | the little-endian size parseSize decodes is below 2^32 |
| RiffWire.SizeRoundTrip | raff.c:407-413 | a size written by addSize reads back through parseSize as the size modulo 2^32, so any size below 2^32 survives |
| RiffWire.SizeBytesTruncate | raff.c:407-413 | addSize writes the same four bytes for a size and for that size modulo 2^32 |
| RiffWire.SizeBytesDecode | raff.c:89-101 | four bytes parseSize decodes are written back unchanged by addSize |
| RiffWire.ReadID | raff.c:72-87 | parseID succeeds exactly when four bytes remain, and then gives the ID whose big-endian bytes are those four bytes up to the first NUL, an ID that survives a write and a read |
| RiffWire.ReadSize | raff.c:89-101 | parseSize succeeds exactly when four bytes remain, and then gives their little-endian value: below 2^32, and the size whose addSize bytes are those four bytes |
| RiffStream.Stream.constructor | raff.c:258-267 | makeChunkStream: a source over the bytes, with nothing consumed |
| RiffStream.Stream.Next | raff.c:249-256 | cnextCb delivers the byte at the cursor and advances, or returns -1 at the end and stays put |
| RiffStream.Stream.Close | raff.c:147-148 | the source's close callback has run |
| RiffStream.Stream.ParseID | raff.c:72-87 | the four reads give the ID of the next four bytes and move past them, or nothing when the source ends first |
| RiffStream.Stream.ParseSize | raff.c:89-101 | the four reads give the little-endian size of the next four bytes, or nothing when the source ends first |
| RiffFormat.Pad | raff.c:489-491 | an odd payload is followed by exactly one zero byte, an even one by none |
| RiffFormat.HeaderBytes | raff.c:464-483 | a child's header is 8 bytes, plus 4 for a container's sub-ID; a container's size field counts its sub-ID (corrected at raff.c:472, which writes a container child's size without its sub-ID; see Findings) |
| RiffFormat.EncodeChunkSize | raff.c:427-442 | the bytes written for one child are exactly the bytes the size loop counts for it |
| RiffFormat.EncodeListSize | raff.c:422-445 | a list body is exactly as long as the size raff_listAsChunk allocates for it |
| RiffFormat.EncodeChunkLayout | raff.c:462-494 | what the write loop emits for one child is its header and payload, then a zero pad byte exactly when the payload is odd (container size corrected at raff.c:472; see Findings) |
| RiffFormat.EncodedSizeAligned | raff.c:427-442 | the size counted for one child is even and covers at least its header and payload |
| RiffFormat.ListSizeAligned | raff.c:422-445 | the counted size of a list body is even and at least 8 bytes per child |
| RiffFormat.EncodeListAppend | raff.c:459-494 | writing two runs of children one after the other gives the two bodies one after the other |
| RiffFormat.EncodeListChild | raff.c:459-494 | child k is written at the offset the counted sizes of the children before it add up to, and takes exactly its own counted size (container size corrected at raff.c:472; see Findings) |
| RiffFormat.ParseList | raff.c:346-365 | parsing a list body fails only with Corrupt; an empty body has no children; every child found lies inside the body with its pad byte |
| RiffFormat.BodyStep | raff.c:462-494 | one child further through the write loop, the bytes and the count grow by that child |
| RiffFormat.ParseChunkAt | raff.c:269-322 | a step fails only with Corrupt; on success the payload starts right after the header (8 bytes, 12 for a container), the cursor moves past the payload and its pad, and the cursor stays inside the parent (corrected at raff.c:302, which accepts a container declaring a size below 4; see Findings) |
| RiffFormat.PadAfterSubId | raff.c:300-314 | subtracting the sub-ID keeps the size's parity, so the pad from the declared size is the payload's pad |
| RiffFormat.ParseChunkAtClassifies | raff.c:293-309 | a `LIST` tag gives a LIST chunk and a `RIFF` tag a RIFF chunk (both directions); any other tag gives a leaf with that ID; a container's ID is the sub-ID read after the size; the declared size is the payload size plus the sub-ID |
| RiffFormat.ParseChildren | raff.c:350-365 | the parse loop fails only with Corrupt; on success every child's payload, together with its pad byte, lies inside the parent |
| RiffFormat.ParseChildrenStep | raff.c:350-365 | one parse step followed by the rest of the loop is the whole loop |
| RiffFormat.SerializedParts | raff.c:711-757 | the serialisation holds the wire tag at bytes 0-3, the size (plus 4 for a container) at 4-7, a container's sub-ID at 8-11, then the payload, and is 8 + 4·[container] + size long |
| RiffFormat.RiffTagAt | raff.c:112-116 | a source starts with the RIFF marker exactly when its first four bytes are `RIFF` |
| RiffFormat.OpenSpec | raff.c:109-164 | a source not starting with `RIFF` is NotRiff (both directions); a truncated size, form ID or payload is Corrupt; the root is RIFF-typed with `declared - 4` (size_t) payload bytes taken from offset 12, and its ID is the form ID read at offset 8 |
| RiffRoundTrip.ParseEncodedChunk | raff.c:269-322 | a parse step over an encoded child, whatever surrounds it, gives back its type, ID and size, and a range holding its payload; the cursor moves past its pad |
| RiffRoundTrip.ParseEncodedList | raff.c:350-365 | the parse loop over encoded children, from any offset, gives one header per child whose range resolves to that child |
| RiffRoundTrip.ParseListEncodeList | raff.c:459-494 | a list body written by (corrected) raff_listAsChunk parses back to the same children in order, with equal type, ID, size and payload |
| RiffRoundTrip.OpenSerialized | raff.c:711-757 | snextCb's bytes for a RIFF chunk, fed to openStream, give a root chunk with the same ID and payload |
| Raff.File.constructor | raff.c:588-596 | raff_newFile: a file with no root chunk |
| Raff.Chunk.AsList | raff.c:329-374 | a leaf is NotList; a cached list is returned as is; otherwise the payload is parsed, and on success a fresh list with the chunk's file and ID is cached; its children are the parsed headers in order, each a range of the chunk's buffer, owned by the list, with the cursor on the first; a parse error is returned and nothing is cached |
| Raff.Chunk.ParseInto | raff.c:346-369 | the loop links exactly the payload's children in order, each fresh and owned by the list, or reports the parse error |
| Raff.Chunk.ParseStep | raff.c:350-365 | one pass parses the next child, joins it to the end of the chain and advances the cursor, or reports the error of the rest of the loop |
| Raff.Chunk.AsData | raff.c:376-397 | a container is IsList; a cached view is returned as is; otherwise a fresh view with the chunk's ID, size and bytes is cached and points back at the chunk |
| Raff.Chunk.Copy | raff.c:667-682 | a fresh chunk with the same file, type, ID and bytes, with no list, no successor and no cached views |
| Raff.Chunk.CopyTo | raff.c:685-703 | a fresh chunk of the target file with the same type, ID and bytes, held in fresh storage |
| Raff.List.constructor | raff.c:612-622 | raff_newList: an empty list with the file and ID, no cursor and no cached chunk |
| Raff.List.Install | raff.c:367-369 | the parsed chain becomes the list's children, with the cursor on the first |
| Raff.List.Start | raff.c:526-529 | the cursor goes back to the first child |
| Raff.List.Next | raff.c:531-537 | returns the children in list order, one per call, then null on every later call |
| Raff.List.DropCache | raff.c:545-549 | the cached chunk is dropped, and its cached list is cleared when it was this list |
| Raff.List.Prepend | raff.c:539-561 | the chunk becomes the first child ahead of the others in their order; an empty list ends with first = last = chunk; the cursor keeps its child; the cached chunk is dropped |
| Raff.List.LinkFirst | raff.c:557-560 | the chunk is linked in front of the old first child |
| Raff.List.Append | raff.c:563-586 | the chunk becomes the last child after the others in their order; an empty list ends with first = last = chunk; an exhausted cursor stays exhausted; the cached chunk is dropped |
| Raff.List.LinkLast | raff.c:581-585 | the chunk is linked after the old last child and ends the chain |
| Raff.List.FindID | raff.c:652-664 | the first child in list order with the key, or null exactly when no child has it |
| Raff.List.AsChunk | raff.c:415-501 | the cached chunk is returned when its RIFF-ness matches; otherwise a fresh container with the list's ID (RIFF iff `riff`), whose payload is the encoded list body, becomes the list's cached chunk (corrected at raff.c:472, which writes a container child's size without its sub-ID; see Findings) |
| Raff.List.BodyChunk | raff.c:447-457 | the new chunk is a container with the list's file and ID, whose bytes are the encoded children, and whose cached list is this list (corrected at raff.c:472, which writes a container child's size without its sub-ID; see Findings) |
| Raff.List.BodyBytes | raff.c:422-494 | the storage is exactly the counted size and holds the encoded children in list order (corrected at raff.c:472, which writes a container child's size without its sub-ID; see Findings) |
| Raff.List.BodySize | raff.c:422-445 | the size loop's sum is the encoded size of the children |
| Raff.WriteChain | raff.c:459-494 | the write loop fills storage of the counted size with the children's encodings in order (corrected at raff.c:472, which writes a container child's size without its sub-ID; see Findings) |
| Raff.Link | raff.c:356-364 | a freshly parsed child joins the end of the chain and is owned by the list |
| Raff.AttachLast | raff.c:581-585 | a chunk outside the chain is put after its last chunk, ends it, and is owned by the list |
| Raff.Data.constructor | raff.c:598-610 | raff_newData: the data holds a copy of exactly the first `size` bytes, under the ID |
| Raff.Data.Content | raff.c:796-804 | raff_dataContent is `raff_dataSize` bytes long |
| Raff.Data.Of | raff.c:387-392 | the data view of a leaf has its file, ID, size and bytes, and points back at the chunk |
| Raff.Data.AsChunk | raff.c:503-524 | a cached chunk is returned as is; otherwise a fresh leaf chunk with the data's ID and bytes is cached and points back at the data |
| Raff.ParseNextChunk | raff.c:269-322 | the step ParseChunkAt takes at the cursor: on success a fresh chunk over the child's range of the parent's buffer, and the cursor moves past the payload and pad; otherwise its error (corrected at raff.c:302, which accepts a container declaring a size below 4; see Findings) |
| Raff.WriteChild | raff.c:462-494 | one child is written as its header, payload and pad (corrected at raff.c:472, which writes a container child's size without its sub-ID; see Findings) |
| Raff.WriteHeader | raff.c:464-483 | a container's header is the marker, its size plus 4 and its sub-ID; a leaf's is its ID and size (corrected at raff.c:472, which writes a container child's size without its sub-ID; see Findings) |
| Raff.WritePayload | raff.c:485-491 | the payload is copied byte by byte, then a zero pad for an odd size |
| Raff.AddID | raff.c:399-405 | addID writes the ID's four bytes, most significant first, and advances by 4 |
| Raff.AddSize | raff.c:407-413 | addSize writes the size's four bytes, least significant first, and advances by 4 |
| Raff.CopyBytes | raff.c:607-608 | the copy loop gives fresh storage holding exactly the requested bytes |
| Raff.OpenStream | raff.c:109-164 | the outcome is OpenSpec of the bytes still to come; on success a fresh file whose root chunk is RIFF-typed with the form ID over the whole of the file's storage, and the source is closed; on failure the source stays open |
| Raff.ReadRiffHeader | raff.c:112-130 | a source not starting with the marker is NotRiff; one ending inside the header is Corrupt; otherwise the marker, size and form ID are read and the source is just past them |
| Raff.OpenSpecAccepts | raff.c:123-145 | after a good header, the source opens to the payload when `declared - 4` bytes follow, and is Corrupt otherwise |
| Raff.ReadPayload | raff.c:132-145 | the copy loop fails exactly when the source has fewer than `size` bytes left, and otherwise holds the next `size` bytes |
| RiffSerializer.SerialStream.constructor | raff.c:764-774 | raff_serializeChunk: a stream over the chunk at its first byte |
| RiffSerializer.SerialStream.Next | raff.c:711-757 | each call gives the byte of the serialisation at the counter, or -1 past its end, and the counter moves on |
| RiffSerializer.SerializeToSink | raff.c:776-794 | a sink that does not open is CantOpen and receives nothing; otherwise it receives exactly the serialisation of the chunk |
| RiffFindings.HeaderBytesAsWritten | raff.c:464-483 | the header raff_listAsChunk writes for a child is 8 bytes, plus 4 for a container |
| RiffFindings.EncodeChunkAsWritten | raff.c:462-494 | one child as written takes exactly the bytes the counting loop allots it |
| RiffFindings.EncodeListAsWritten | raff.c:459-494 | the list body as written is as long as the counted size |
| RiffFindings.AsWrittenAgreesOnLeaves | raff.c:477-483 | for a leaf child, the as-written encoding equals the corrected one |
| RiffFindings.SampleAsWrittenBytes | raff.c:464-476 | the 20 bytes written for a LIST holding one empty leaf declare size 8 |
| RiffFindings.SampleAsWrittenCorrupt | raff.c:269-322 | those 20 bytes do not parse: Corrupt |
| RiffFindings.NestedListLosesSubId | raff.c:472 | the as-written body of a nested LIST is Corrupt, while the corrected body parses back to the child |
| RiffFindings.ParseChunkAtAsWritten | raff.c:269-322 | the step as written fails only with Corrupt |
| RiffFindings.ShortContainerUnderflows | raff.c:302-314 | a `LIST` declaring size 2 is accepted as written, with a 2^64 - 2 byte payload outside the parent and the cursor moved back; the corrected step says Corrupt |
| RiffFindings.ParsedRangeInsideParent | raff.c:313-317 | every range the corrected step records lies after its position and inside the parent |
| RiffFindings.NewIDAsWritten | raff.c:624-645 | as written, an empty string gives 0 and a first character of 0x80 or above gives a negative ID |
| RiffFindings.HighByteSignExtends | raff.c:630-642 | under signed `char`, the tag `abc` 0xFF gives the ID -1, which is written back as four 0xFF bytes; the corrected ID keeps the tag |
| RiffWave.WaveIDs | test-gen.c:31-70 | the scenario's IDs survive a write and a read, and neither leaf ID is a structural marker |
| RiffWave.WaveRoundTrip | test-parse.c:17-103 | the serialised WAVE chunk is 52 bytes; it opens to the WAVE chunk, whose payload parses to `fmt ` then `data` with their bytes |
| RiffWave.MakeLeaf | test-gen.c:31-36 | raff_newData then raff_dataAsChunk give a fresh leaf chunk of the bytes, in no list |
| RiffWave.BuildList | test-gen.c:70-78 | prepending `data` then `fmt ` to a new `WAVE` list gives the children `fmt `, `data` |
| RiffWave.BuildWave | test-gen.c:18-81 | the WAVE list made a RIFF chunk is the RIFF chunk `WAVE` over the encoded two leaves |
| RiffWave.GenerateWave | test-gen.c:15-89 | the 52 bytes test-gen writes open back to a `WAVE` RIFF chunk whose payload parses into the `fmt ` chunk and then the `data` chunk, with their bytes |

## Left out

- File I/O is not modelled:
  - `raff_openFile`, `fnextCb` and `fcloseCb` (raff.c:171-204): a file source is a `Stream` over the bytes it would deliver.
  - `raff_serializeChunkToFile`'s `fopen`, `fputc` and `fclose`: whether `fopen` succeeds is a parameter, and the written bytes are the result.
- The arena (`alloc`, `raff_closeFile`, raff.c:64-70 and 206-216) and `scloseCb`'s `free` are not modelled: allocation is `new` and nothing is freed. `raff_openStream` (raff.c:166-169) is openStream itself.
- The `raff_Stream` vtable is not modelled. The two sources are one `Stream` class, and the serialiser is its own class.
- The global `errnum` and `raff_errorNum` are not modelled: each operation returns its own error.
- The `static` result slots of parseID/parseSize are replaced by an `Option` result.
- `raff_getID`, `raff_fileAsChunk` and `raff_dataSize` are plain field reads (`Chunk.id`, `File.chunk`, `Data.size`) with no members of their own.
- Buffers are values. A chunk's `buf`, and a data's, is the sequence of bytes its storage holds: each buffer is filled by the function that allocates it (raff_listAsChunk, raff_copyChunkTo, raff_newData, openStream), before that function returns, and is never written again. The model therefore does not capture aliasing between a parent's storage and its children's ranges beyond equal offsets into equal sequences. `File.data` stays an array, because openStream fills it in place.
- The chunk stream reads a snapshot of its chunk's payload: a chunk's payload never changes.
- `size_t` overflow of `raff_listAsChunk`'s size sum and of `openStream`'s `malloc(sizeof(raff_File) + size)` is not modelled. The sums are unbounded integers, and an allocation always succeeds.
- Raff.OpenStream: for a declared size below 4 the model, like the C, ends in Corrupt for every source shorter than 2^64 bytes. The heap overflow the C's wrapped `malloc` size would cause is not modelled.
- Behaviours the model fixes rather than proves:
  - `raff_newList` never initialises `last` (raff.c:612-622); the model starts it at null.
  - `raff_prepend`/`raff_append` never set the chunk's `list` (raff.c:557-585); the model sets it, so every child of a list is owned by it.
  - `raff_append` does not clear the chunk's `next` (raff.c:581-585); the model clears it, so the chain ends at the new last child.
  - `raff_dataAsChunk` leaves `asList` unset (raff.c:510-518); the model sets it to null.
  - `raff_listAsChunk` writes a container child's size without its sub-ID (raff.c:472); the model writes size + 4 (first row of Findings).
  - `parseNextChunk` accepts a container declaring a size below 4 (raff.c:302); the model says Corrupt (second row of Findings).
- Raff.List.Prepend, Raff.List.Append: they require the chunk to be of the list's file and in no list. These are the C's `assert`s, which abort otherwise.
- When `raff_listAsChunk` replaces a cached chunk of the other RIFF-ness, the stale chunk's `asList` still points at the list, as in the C. Nothing models a later use of that stale link.
- Raff.Chunk.AsList: on a parse error the C has already allocated the list and the children parsed so far. The model drops them, because nothing can reach them.

## Findings

| source | as written | input that shows it | evidently intended | confidence | as-written member | corrected member |
|---|---|---|---|---|---|---|
| raff.c:472 | raff_listAsChunk writes a LIST/RIFF child's size field as its payload size, without the 4 bytes of its sub-ID, although its own size sum (raff.c:435), snextCb (raff.c:734-735) and parseNextChunk (raff.c:302) all count the sub-ID | a list holding a LIST `abcd` whose payload is one empty leaf `x   `: the 20 bytes written declare size 8, the parser takes a 4-byte payload and stops inside the leaf's header, and the list body is Corrupt | write `size + 4` for container children, so that a serialised list parses back to its children | high, not executed | RiffFindings.NestedListLosesSubId | RiffRoundTrip.ParseListEncodeList |
| raff.c:302 | parseNextChunk subtracts the sub-ID from the declared size in `size_t` without checking that the size is at least 4, and the cursor update wraps | the 12 bytes `LIST`, size 2, `abcd`: the step succeeds with a payload of 2^64 - 2 bytes running past the 12-byte parent, and the cursor goes back to 10 | reject a container whose declared size is below 4 as Corrupt, so that every recorded range lies inside the parent | high, not executed | RiffFindings.ShortContainerUnderflows | RiffFindings.ParsedRangeInsideParent |
| raff.c:630-642 | raff_newID widens each `char` with its sign where `char` is signed, so a character of 0x80 or above sets all higher bits of the ID | the tag bytes `abc` 0xFF read by parseID: the ID is -1, and addID writes it back as four 0xFF bytes | pack the characters as unsigned bytes, so that a tag is written back as read | medium (depends on the platform's `char`), not executed | RiffFindings.HighByteSignExtends | RiffWire.NewIDCanonical |
