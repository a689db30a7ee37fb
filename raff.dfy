/** The object model of libraff: files, chunks, lists and data views with
    their caches, the lazy parse of a chunk into a list of sub-chunks
    (parseNextChunk, raff_chunkAsList), the serialisation of a list into a
    fresh chunk (raff_listAsChunk), the list operations and openStream. Each
    operation is proved against the wire-format definitions of RiffFormat. */
module Raff {
  import opened RiffErrors
  import opened RiffWire
  import opened RiffFormat
  import opened RiffStream

  /** raff_File: the storage the root chunk's bytes live in, and the root
      chunk once one has been read. */
  class File {
    var chunk: Chunk?
    const data: array<Byte>

    /** raff_newFile (with no storage) and the allocation in openStream:
        a file without a root chunk. */
    constructor(size: nat)
      ensures chunk == null && data.Length == size && fresh(data)
    {
      data := new Byte[size];
      chunk := null;
    }
  }

  /** raff_Chunk: a type, an ID and a payload of `size` bytes at `start` in
      `buf`. Parsed children point into their parent's buffer. The type,
      ID, size and bytes never change; the links and the two cached views
      do. Each buffer is filled by the function that allocates it, before
      that function returns, and is never written again, so a buffer is
      modelled by the bytes it holds. */
  class Chunk {
    var next: Chunk?
    const file: File
    var list: List?
    const kind: Kind
    const id: int
    const size: nat
    const buf: seq<Byte>
    const start: nat
    var asList: List?
    var asData: Data?

    /** The payload lies inside the buffer. */
    predicate Valid()
    {
      start + size <= |buf|
    }

    /** A chunk with no links and no cached views. */
    constructor(file: File, kind: Kind, id: int, size: nat, buf: seq<Byte>, start: nat)
      requires start + size <= |buf|
      ensures this.file == file && this.kind == kind && this.id == id && this.size == size
      ensures this.buf == buf && this.start == start && Valid()
      ensures next == null && list == null && asList == null && asData == null
    {
      this.file := file;
      this.kind := kind;
      this.id := id;
      this.size := size;
      this.buf := buf;
      this.start := start;
      next := null;
      list := null;
      asList := null;
      asData := null;
    }

    /** The payload bytes. */
    function Payload(): (p: seq<Byte>)
      requires Valid()
      ensures |p| == size
    {
      buf[start..start + size]
    }

    /** The value the chunk stands for. */
    function View(): ChunkVal
      requires Valid()
    {
      ChunkVal(kind, id, Payload())
    }

    /** raff_chunkAsList: a leaf is NotList; a container already parsed
        gives back its cached list; otherwise the payload is parsed child by
        child into a fresh list whose children are the payload's headers in
        order, each a range of this chunk's buffer, and the list is cached.
        A parse error leaves the chunk as it was. */
    method AsList() returns (r: Result<List>)
      requires Valid()
      modifies this`asList
      ensures kind == Other ==> r == Err(NotList) && asList == old(asList)
      ensures kind != Other && old(asList) != null ==> r == Ok(old(asList)) && asList == old(asList)
      ensures kind != Other && old(asList) == null ==>
        match ParseList(Payload())
        case Err(e) => r == Err(e) && asList == null
        case Ok(hs) =>
          && r.Ok? && asList == r.value && fresh(r.value)
          && r.value.Valid() && r.value.file == file && r.value.id == id
          && r.value.asChunk == this && r.value.pos == 0
          && ParsedFrom(r.value.items, this, hs)
          && (forall c :: c in r.value.items ==> fresh(c))
    {
      if kind == Other {
        return Err(NotList);
      }
      if asList != null {
        return Ok(asList);
      }
      var l := new List(file, id);
      l.asChunk := this;
      var err, firstChunk, lastChunk, made := ParseInto(l);
      if err.Some? {
        return Err(err.value);
      }
      asList := l;
      l.Install(made, firstChunk, lastChunk);
      r := Ok(l);
    }

    /** The loop of raff_chunkAsList: parseNextChunk until the payload is
        used up, each child joined to the end of a chain and given `l` as its
        list. The chain is the payload's children in order, or the parse
        error is reported. */
    method ParseInto(l: List) returns (err: Option<Error>, firstChunk: Chunk?, lastChunk: Chunk?, ghost made: seq<Chunk>)
      requires Valid()
      ensures match ParseList(Payload())
        case Err(e) => err == Some(e)
        case Ok(hs) =>
          && err == None && Building(this, l, made, hs, firstChunk, lastChunk)
          && (forall c :: c in made ==> fresh(c))
    {
      ghost var p := Payload();
      var cs := new Stream(buf[start..start + size]);
      firstChunk, lastChunk := null, null;
      made := [];
      ghost var hs: seq<Header> := [];
      assert Prepend(hs, ParseChildren(p, cs.next)) == ParseList(p) by {
        if ParseList(p).Ok? {
          assert [] + ParseList(p).value == ParseList(p).value;
        }
      }
      while cs.next < size
        invariant cs.bytes == p && fresh(cs)
        invariant Prepend(hs, ParseChildren(p, cs.next)) == ParseList(p)
        invariant Building(this, l, made, hs, firstChunk, lastChunk)
        invariant forall c :: c in made ==> fresh(c)
        decreases size - cs.next
      {
        assert lastChunk != null ==> lastChunk in made;
        ghost var c, h;
        err, firstChunk, lastChunk, c, h := ParseStep(l, cs, made, hs, firstChunk, lastChunk);
        if err.Some? {
          return err, null, null, [];
        }
        made := made + [c];
        hs := hs + [h];
      }
      assert ParseChildren(p, cs.next) == Ok([]);
      assert hs + [] == hs;
      err := None;
    }

    /** One pass of raff_chunkAsList's loop: the child at the stream's
        position is parsed and joined to the end of the chain, or the parse
        error is reported. */
    method ParseStep(l: List, cs: Stream, ghost made: seq<Chunk>, ghost hs: seq<Header>,
                     firstChunk: Chunk?, lastChunk: Chunk?)
      returns (err: Option<Error>, first': Chunk?, last': Chunk?, ghost c: Chunk, ghost h: Header)
      requires Valid() && cs.bytes == Payload() && cs.next < size
      requires Building(this, l, made, hs, firstChunk, lastChunk)
      modifies cs`next, Present(lastChunk)`next
      ensures err.Some? ==> ParseChildren(cs.bytes, old(cs.next)) == Err(err.value)
      ensures err.None? ==>
        && old(cs.next) < cs.next && fresh(c)
        && Prepend(hs, ParseChildren(cs.bytes, old(cs.next))) == Prepend(hs + [h], ParseChildren(cs.bytes, cs.next))
        && Building(this, l, made + [c], hs + [h], first', last')
    {
      ghost var at := cs.next;
      var sub := ParseNextChunk(file, this, cs);
      if sub.Err? {
        return Some(sub.error), null, null, this, Header(Other, 0, 0, 0);
      }
      ghost var parsed := ParseChunkAt(cs.bytes, at).value;
      ParseChildrenStep(cs.bytes, at, hs, parsed);
      var child := sub.value;
      c, h := child, parsed.header;
      assert child !in made;
      first', last' := Link(this, l, made, hs, firstChunk, lastChunk, child, h);
      err := None;
    }

    /** raff_chunkAsData: a container is IsList; a leaf already viewed gives
        back its cached view; otherwise a fresh view of the same ID and
        bytes, cached on the chunk and pointing back at it. */
    method AsData() returns (r: Result<Data>)
      requires Valid()
      modifies this
      ensures next == old(next) && list == old(list) && asList == old(asList)
      ensures kind != Other ==> r == Err(IsList) && asData == old(asData)
      ensures kind == Other && old(asData) != null ==> r == Ok(old(asData)) && asData == old(asData)
      ensures kind == Other && old(asData) == null ==>
        && r.Ok? && fresh(r.value) && asData == r.value
        && r.value.file == file && r.value.id == id && r.value.size == size
        && r.value.buf == buf && r.value.start == start && r.value.asChunk == this
        && r.value.Valid() && r.value.Content() == Payload()
    {
      if kind != Other {
        return Err(IsList);
      }
      if asData != null {
        return Ok(asData);
      }
      var d := new Data.Of(this);
      asData := d;
      r := Ok(d);
    }

    /** raff_copyChunk: a fresh chunk of the same file, type, ID and bytes
        (sharing the buffer), with no list, no successor and no cached
        views. */
    method Copy() returns (c: Chunk)
      requires Valid()
      ensures fresh(c) && c.Valid() && c.file == file && c.View() == View()
      ensures c.buf == buf && c.start == start
      ensures c.next == null && c.list == null && c.asList == null && c.asData == null
    {
      c := new Chunk(file, kind, id, size, buf, start);
    }

    /** raff_copyChunkTo: like Copy, but owned by `target` and with the
        bytes copied into fresh storage. */
    method CopyTo(target: File) returns (c: Chunk)
      requires Valid()
      ensures fresh(c) && c.Valid() && c.file == target && c.View() == View() && c.start == 0
      ensures c.next == null && c.list == null && c.asList == null && c.asData == null
    {
      var a := CopyBytes(buf, start, size);
      c := new Chunk(target, kind, id, size, a[..], 0);
      assert c.Payload() == a[..];
    }
  }

  /** raff_List: the children of a container as a singly linked list with a
      cursor, and the chunk the list was parsed from or last serialised to.
      The links are abstracted by `items`, the children in order, and the
      cursor by `pos`, the index of the child raff_next returns next
      (`|items|` once it is exhausted). */
  class List {
    const file: File
    const id: int
    var cursor: Chunk?
    var first: Chunk?
    var last: Chunk?
    var asChunk: Chunk?
    ghost var items: seq<Chunk>
    ghost var pos: nat

    /** A well-linked list whose cached chunk, if any, is a container with
        the list's ID. */
    ghost predicate Valid()
      reads this, items`next, items`list
    {
      && Linked()
      && (asChunk != null ==> asChunk.kind != Other && asChunk.id == id && asChunk.Valid())
    }

    /** `first` and the `next` links thread exactly `items` and `last` is the
        last of them; no child occurs twice; each child belongs to this list
        and to its file; the cursor is the child at `pos`. */
    ghost predicate Linked()
      reads this`first, this`last, this`cursor, this`items, this`pos, items`next, items`list
    {
      && ChainTo(first, items, null) && last == LastOf(items)
      && Distinct(items) && Owned(items, this, file)
      && pos <= |items|
      && cursor == (if pos < |items| then items[pos] else null)
    }

    /** raff_newList: an empty list of the file under the given ID. */
    constructor(file: File, id: int)
      ensures this.file == file && this.id == id && Valid()
      ensures items == [] && pos == 0 && cursor == null && asChunk == null
    {
      this.file := file;
      this.id := id;
      cursor := null;
      first := null;
      last := null;
      asChunk := null;
      items := [];
      pos := 0;
    }

    /** The end of raff_chunkAsList: the parsed children, already linked
        and owned by this list, become its children, and the cursor is put
        on the first of them. */
    method Install(ghost cs: seq<Chunk>, firstChunk: Chunk?, lastChunk: Chunk?)
      requires asChunk != null ==> asChunk.kind != Other && asChunk.id == id && asChunk.Valid()
      requires ChainTo(firstChunk, cs, null) && lastChunk == LastOf(cs)
      requires Distinct(cs) && Owned(cs, this, file)
      modifies this`cursor, this`first, this`last, this`items, this`pos
      ensures Valid() && items == cs && pos == 0
      ensures first == firstChunk && last == lastChunk && cursor == firstChunk
    {
      cursor := firstChunk;
      first := firstChunk;
      last := lastChunk;
      items := cs;
      pos := 0;
    }

    /** raff_start: the cursor goes back to the first child. */
    method Start()
      requires Valid()
      modifies this`cursor, this`pos
      ensures Valid() && pos == 0 && cursor == first
    {
      cursor := first;
      pos := 0;
    }

    /** raff_next: the child under the cursor, and the cursor moves on; once
        the children are exhausted, null on every call. */
    method Next() returns (r: Chunk?)
      requires Valid()
      modifies this`cursor, this`pos
      ensures Valid()
      ensures r == if old(pos) < |items| then items[old(pos)] else null
      ensures pos == if old(pos) < |items| then old(pos) + 1 else old(pos)
    {
      r := cursor;
      if cursor != null {
        cursor := cursor.next;
        pos := pos + 1;
      }
    }

    /** The part of raff_prepend and raff_append that drops the cached
        chunk: the list forgets it and it forgets the list, if it still
        pointed here. */
    method DropCache()
      requires Valid()
      modifies this`asChunk, Present(asChunk)`asList
      ensures Linked() && asChunk == null
      ensures old(asChunk) != null ==>
        old(asChunk).asList == (if old(asChunk.asList) == this then null else old(asChunk.asList))
    {
      if asChunk != null {
        if asChunk.asList == this {
          asChunk.asList := null;
        }
        asChunk := null;
      }
    }

    /** raff_prepend: the chunk, which must be of the list's file and in no
        list, becomes the first child; the other children keep their order;
        the cursor stays on the child it was on; the cached chunk is
        dropped. */
    method Prepend(c: Chunk)
      requires Valid() && c.Valid() && c.file == file && c.list == null
      modifies this`first, this`last, this`items, this`pos, this`asChunk
      modifies c`next, c`list, Present(asChunk)`asList
      ensures Valid() && asChunk == null
      ensures items == [c] + old(items) && pos == old(pos) + 1 && cursor == old(cursor)
      ensures first == c && c.next == old(first) && last == (if old(last) == null then c else old(last))
      ensures c.list == this
      ensures old(asChunk) != null ==> old(asChunk).asList == (if old(asChunk.asList) == this then null else old(asChunk.asList))
    {
      DropCache();
      LinkFirst(c);
    }

    /** The linking part of raff_prepend. */
    method LinkFirst(c: Chunk)
      requires Linked() && c.Valid() && c.file == file && c.list == null
      modifies this`first, this`last, this`items, this`pos, c`next, c`list
      ensures Linked()
      ensures items == [c] + old(items) && pos == old(pos) + 1
      ensures first == c && c.next == old(first) && last == (if old(last) == null then c else old(last))
      ensures c.list == this
    {
      assert c !in items;
      c.next := first;
      c.list := this;
      ChainCons(c, items, null);
      if last == null {
        last := c;
      }
      first := c;
      items := [c] + items;
      pos := pos + 1;
    }

    /** raff_append: the chunk, which must be of the list's file and in no
        list, becomes the last child; the other children keep their order;
        the cursor stays where it was, so an exhausted cursor stays
        exhausted; the cached chunk is dropped. */
    method Append(c: Chunk)
      requires Valid() && c.Valid() && c.file == file && c.list == null
      modifies this`first, this`last, this`items, this`pos, this`asChunk
      modifies c`next, c`list, Present(asChunk)`asList, Present(last)`next
      ensures Valid() && asChunk == null
      ensures items == old(items) + [c] && cursor == old(cursor)
      ensures pos == if old(pos) == |old(items)| then |items| else old(pos)
      ensures last == c && c.next == null && first == (if old(first) == null then c else old(first))
      ensures c.list == this
      ensures old(asChunk) != null ==> old(asChunk).asList == (if old(asChunk.asList) == this then null else old(asChunk.asList))
    {
      DropCache();
      LinkLast(c);
    }

    /** The linking part of raff_append. */
    method LinkLast(c: Chunk)
      requires Linked() && c.Valid() && c.file == file && c.list == null
      modifies this`first, this`last, this`items, this`pos, c`next, c`list, Present(last)`next
      ensures Linked()
      ensures items == old(items) + [c]
      ensures pos == if old(pos) == |old(items)| then |items| else old(pos)
      ensures last == c && c.next == null && first == (if old(first) == null then c else old(first))
      ensures c.list == this
    {
      assert c !in items;
      first := AttachLast(this, items, first, last, c);
      last := c;
      if pos == |items| {
        pos := |items| + 1;
      }
      items := items + [c];
    }

    /** raff_findID: the first child, in list order, with the given ID, or
        null when no child has it. */
    method FindID(key: int) returns (r: Chunk?)
      requires Valid()
      ensures r == null <==> forall k :: 0 <= k < |items| ==> items[k].id != key
      ensures r != null ==> exists k :: 0 <= k < |items| && items[k] == r && r.id == key
                                     && forall j :: 0 <= j < k ==> items[j].id != key
    {
      var iter := first;
      ghost var k := 0;
      while iter != null
        invariant k <= |items|
        invariant iter == if k < |items| then items[k] else null
        invariant forall j :: 0 <= j < k ==> items[j].id != key
        decreases |items| - k
      {
        if iter.id == key {
          return iter;
        }
        iter := iter.next;
        k := k + 1;
      }
      r := null;
    }

    /** raff_listAsChunk: when the cached chunk has the requested RIFF-ness
        it is returned. Otherwise a fresh container chunk with the list's ID
        whose payload is the list body, which becomes the list's cached
        chunk. */
    method AsChunk(riff: bool) returns (c: Chunk)
      requires Valid()
      modifies this`asChunk
      ensures Valid() && asChunk == c
      ensures c.kind != Other && c.id == id && c.Valid()
      ensures old(asChunk) != null && (old(asChunk).kind == RiffKind) == riff ==> c == old(asChunk)
      ensures !(old(asChunk) != null && (old(asChunk).kind == RiffKind) == riff) ==>
        && fresh(c) && c.kind == (if riff then RiffKind else ListKind) && c.file == file
        && c.Payload() == EncodeList(ViewsOf(items)) && |c.buf| == ListSize(ViewsOf(items))
        && c.asList == this && c.next == null && c.list == null && c.asData == null
    {
      if asChunk != null && (asChunk.kind == RiffKind) == riff {
        return asChunk;
      }
      c := BodyChunk(riff);
      asChunk := c;
    }

    /** The chunk raff_listAsChunk makes: a fresh container with the list's
        ID whose payload is the list body and whose cached list is this
        one. */
    method BodyChunk(riff: bool) returns (c: Chunk)
      requires Valid()
      ensures fresh(c) && c.kind == (if riff then RiffKind else ListKind) && c.id == id && c.file == file
      ensures c.Valid() && c.Payload() == EncodeList(ViewsOf(items)) && |c.buf| == ListSize(ViewsOf(items))
      ensures c.asList == this && c.next == null && c.list == null && c.asData == null
    {
      var body := BodyBytes();
      c := new Chunk(file, if riff then RiffKind else ListKind, id, |body|, body, 0);
      c.asList := this;
    }

    /** The serialisation of raff_listAsChunk: the body is counted and
        written into storage of exactly that size, each child as its header,
        payload and pad, in order. */
    method BodyBytes() returns (body: seq<Byte>)
      requires Valid()
      ensures body == EncodeList(ViewsOf(items)) && |body| == ListSize(ViewsOf(items))
    {
      var size := BodySize();
      var a := new Byte[size];
      WriteChain(a, first, items, ViewsOf(items));
      body := a[..];
    }

    /** The first loop of raff_listAsChunk: the size of the list body, each
        child's header, payload and pad counted in turn. */
    method BodySize() returns (size: nat)
      requires Valid()
      ensures size == ListSize(ViewsOf(items))
    {
      ghost var vs := ViewsOf(items);
      size := 0;
      var iter := first;
      ghost var k := 0;
      while iter != null
        invariant k <= |items|
        invariant iter == if k < |items| then items[k] else null
        invariant size == ListSize(vs[..k])
        decreases |items| - k
      {
        size := size + 4 + 4;
        if iter.kind != Other {
          size := size + 4;
        }
        size := size + iter.size;
        if iter.size % 2 == 1 {
          size := size + 1;
        }
        assert vs[k] == iter.View() && |iter.Payload()| == iter.size;
        BodyStep(vs, k);
        iter := iter.next;
        k := k + 1;
      }
      assert vs[..k] == vs;
    }
  }

  /** The second loop of raff_listAsChunk: the chunks of a chain, whose
      values are `vs`, written one after the other into storage of exactly
      the body's size. */
  method WriteChain(a: array<Byte>, first: Chunk?, ghost cs: seq<Chunk>, ghost vs: seq<ChunkVal>)
    requires ChainTo(first, cs, null) && |vs| == |cs|
    requires forall j :: 0 <= j < |cs| ==> cs[j].Valid() && cs[j].View() == vs[j]
    requires a.Length == ListSize(vs)
    modifies a
    ensures a[..] == EncodeList(vs)
  {
    var i: nat := 0;
    var iter := first;
    ghost var k := 0;
    while iter != null
      invariant k <= |cs| && i <= a.Length
      invariant iter == if k < |cs| then cs[k] else null
      invariant i + ListSize(vs[k..]) == a.Length
      invariant a[..i] == EncodeList(vs[..k])
      decreases |cs| - k
    {
      BodyStep(vs, k);
      i := WriteChild(a, i, iter);
      iter := iter.next;
      k := k + 1;
    }
    assert vs[..k] == vs;
    assert a[..] == a[..i];
  }

  /** The state of raff_chunkAsList's loop: the chunks made so far were
      parsed from `parent` at the headers `hs`, are threaded from
      `firstChunk` to `lastChunk`, occur once each and belong to `l`. */
  ghost predicate Building(parent: Chunk, l: List, made: seq<Chunk>, hs: seq<Header>, firstChunk: Chunk?, lastChunk: Chunk?)
    reads made`next, made`list, made`asList, made`asData
  {
    && ParsedFrom(made, parent, hs)
    && ChainTo(firstChunk, made, null) && lastChunk == LastOf(made)
    && Distinct(made) && Owned(made, l, parent.file)
  }

  /** The chain step of raff_chunkAsList's loop: a fresh child parsed at
      `h` joins the end of the chain, after its last chunk, and is given
      `l` as its list. */
  method Link(parent: Chunk, l: List, ghost made: seq<Chunk>, ghost hs: seq<Header>,
              firstChunk: Chunk?, lastChunk: Chunk?, c: Chunk, ghost h: Header)
    returns (first': Chunk?, last': Chunk)
    requires Building(parent, l, made, hs, firstChunk, lastChunk)
    requires c !in made && c.next == null && c.Valid() && c.file == parent.file
    requires Locates(c, parent, h) && c.asList == null && c.asData == null
    modifies Present(lastChunk)`next, c`next, c`list
    ensures Building(parent, l, made + [c], hs + [h], first', last')
  {
    ParsedFromSnoc(made, parent, hs, c, h);
    first' := AttachLast(l, made, firstChunk, lastChunk, c);
    last' := c;
  }

  /** The linking shared by raff_append and raff_chunkAsList: a chunk
      outside the chain `cs` of `l` is put after its last chunk, ends the
      chain and is given `l` as its list. */
  method AttachLast(l: List, ghost cs: seq<Chunk>, first: Chunk?, last: Chunk?, c: Chunk)
    returns (first': Chunk)
    requires ChainTo(first, cs, null) && last == LastOf(cs)
    requires Distinct(cs) && Owned(cs, l, c.file) && c !in cs && c.Valid()
    modifies Present(last)`next, c`next, c`list
    ensures ChainTo(first', cs + [c], null) && LastOf(cs + [c]) == c
    ensures Distinct(cs + [c]) && Owned(cs + [c], l, c.file)
    ensures first' == (if first == null then c else first) && c.next == null && c.list == l
  {
    c.next := null;
    c.list := l;
    OwnedSnoc(cs, l, c.file, c);
    if last == null {
      ChainJoin(c, [], c, null);
      first' := c;
    } else {
      ChainSplit(first, cs, null);
      ghost var pre := cs[..|cs| - 1];
      assert cs == pre + [last];
      last.next := c;
      ChainJoin(first, pre, last, c);
      ChainJoin(first, cs, c, null);
      first' := first;
    }
  }

  /** `first` and the `next` links thread the chunks `cs` in order, and
      the last of them links on to `end` (`first` is `end` when there are
      none). */
  ghost predicate ChainTo(first: Chunk?, cs: seq<Chunk>, end: Chunk?)
    reads cs`next
  {
    && first == (if cs == [] then end else cs[0])
    && forall k {:trigger cs[k].next} :: 0 <= k < |cs| ==> cs[k].next == (if k + 1 < |cs| then cs[k + 1] else end)
  }

  /** The chunk as a set: empty for null, for frames that name a field of
      a chunk that may be absent. */
  function Present(c: Chunk?): (s: set<Chunk>)
    ensures c == null ==> s == {}
    ensures c != null ==> s == {c}
  {
    if c == null then {} else {c}
  }

  /** The last of a sequence of chunks, or null when there is none. */
  function LastOf(cs: seq<Chunk>): Chunk?
  {
    if cs == [] then null else cs[|cs| - 1]
  }

  /** No chunk occurs twice. */
  ghost predicate Distinct(cs: seq<Chunk>)
  {
    forall i, j :: 0 <= i < j < |cs| ==> cs[i] != cs[j]
  }

  /** Every chunk belongs to the list `l` and to `file`, and is valid. */
  ghost predicate Owned(cs: seq<Chunk>, l: List, file: File)
    reads cs`list
  {
    forall c :: c in cs ==> c.list == l && c.file == file && c.Valid()
  }

  /** The chunks were parsed from `parent` at the headers `hs`, one each,
      and have no cached views yet. */
  ghost predicate ParsedFrom(cs: seq<Chunk>, parent: Chunk, hs: seq<Header>)
    reads cs`asList, cs`asData
  {
    && |cs| == |hs|
    && forall k :: 0 <= k < |cs| ==>
         Locates(cs[k], parent, hs[k]) && cs[k].asList == null && cs[k].asData == null
  }

  /** A chunk put before a chain whose first chunk is its successor. */
  lemma ChainCons(c: Chunk, cs: seq<Chunk>, end: Chunk?)
    requires ChainTo(c.next, cs, end)
    ensures ChainTo(c, [c] + cs, end)
  {
    assert forall k :: 0 < k < |cs| + 1 ==> ([c] + cs)[k] == cs[k - 1];
  }

  /** A non-empty chain is the chain of all but its last chunk, leading to
      the last chunk. */
  lemma ChainSplit(first: Chunk?, cs: seq<Chunk>, end: Chunk?)
    requires ChainTo(first, cs, end) && cs != []
    ensures ChainTo(first, cs[..|cs| - 1], cs[|cs| - 1])
  {
    var pre := cs[..|cs| - 1];
    assert forall k :: 0 <= k < |pre| ==> pre[k] == cs[k];
  }

  /** A chain leading to `x`, followed by `x`, which links on to `end`. */
  lemma ChainJoin(first: Chunk?, pre: seq<Chunk>, x: Chunk, end: Chunk?)
    requires ChainTo(first, pre, x) && x.next == end
    ensures ChainTo(first, pre + [x], end)
  {
    assert forall k :: 0 <= k < |pre| ==> (pre + [x])[k] == pre[k];
  }

  /** One owned chunk more. */
  lemma OwnedSnoc(cs: seq<Chunk>, l: List, file: File, c: Chunk)
    requires Owned(cs, l, file) && c.list == l && c.file == file && c.Valid()
    ensures Owned(cs + [c], l, file)
  {
  }

  /** One parsed chunk more. */
  lemma ParsedFromSnoc(cs: seq<Chunk>, parent: Chunk, hs: seq<Header>, c: Chunk, h: Header)
    requires ParsedFrom(cs, parent, hs) && Locates(c, parent, h)
    requires c.asList == null && c.asData == null
    ensures ParsedFrom(cs + [c], parent, hs + [h])
  {
    assert forall k :: 0 <= k < |cs| ==> (cs + [c])[k] == cs[k] && (hs + [h])[k] == hs[k];
  }

  /** raff_Data: the payload of a leaf chunk under its ID. */
  class Data {
    const file: File
    const id: int
    const size: nat
    const buf: seq<Byte>
    const start: nat
    var asChunk: Chunk?

    /** The content lies inside the buffer. */
    predicate Valid()
    {
      start + size <= |buf|
    }

    /** raff_dataContent, `raff_dataSize` bytes long. It reads like
        Chunk.Payload because raff_Data and raff_Chunk are two C types that
        both describe their bytes by a start pointer and a size. */
    function Content(): (s: seq<Byte>)
      requires Valid()
      ensures |s| == size
    {
      buf[start..start + size]
    }

    /** raff_newData: a data of the file holding a copy of the first `size`
        bytes of `content`, with no chunk form yet. */
    constructor(file: File, id: int, content: seq<Byte>, size: nat)
      requires size <= |content|
      ensures this.file == file && this.id == id && this.size == size && Valid()
      ensures Content() == content[..size] && asChunk == null
    {
      var a := CopyBytes(content, 0, size);
      this.file := file;
      this.id := id;
      this.size := size;
      this.buf := a[..];
      this.start := 0;
      asChunk := null;
      new;
      assert Content() == a[..];
    }

    /** The view raff_chunkAsData makes of a leaf: the chunk's file, ID and
        bytes, with the chunk as its chunk form. */
    constructor Of(c: Chunk)
      requires c.Valid()
      ensures file == c.file && id == c.id && size == c.size && buf == c.buf && start == c.start
      ensures asChunk == c && Valid()
    {
      file := c.file;
      id := c.id;
      size := c.size;
      buf := c.buf;
      start := c.start;
      asChunk := c;
    }

    /** raff_dataAsChunk: the cached chunk form, or a fresh leaf chunk with
        the data's ID and bytes, cached on the data and pointing back at it. */
    method AsChunk() returns (c: Chunk)
      requires Valid()
      modifies this
      ensures asChunk == c
      ensures old(asChunk) != null ==> c == old(asChunk)
      ensures old(asChunk) == null ==>
        && fresh(c) && c.Valid() && c.kind == Other && c.id == id && c.file == file
        && c.buf == buf && c.start == start && c.View() == ChunkVal(Other, id, Content())
        && c.asData == this && c.next == null && c.list == null && c.asList == null
    {
      if asChunk != null {
        return asChunk;
      }
      c := new Chunk(file, Other, id, size, buf, start);
      c.asData := this;
      asChunk := c;
    }
  }

  /** A chunk parsed from `parent` at header `h`: the header's type, ID and
      size, over the header's range of the parent's payload. */
  predicate Locates(c: Chunk, parent: Chunk, h: Header)
  {
    && c.kind == h.kind && c.id == h.id && c.size == h.size
    && c.buf == parent.buf && c.start == parent.start + h.start
  }

  /** The values of a sequence of chunks. */
  function ViewsOf(cs: seq<Chunk>): (vs: seq<ChunkVal>)
    requires forall k :: 0 <= k < |cs| ==> cs[k].Valid()
    ensures |vs| == |cs|
    ensures forall k :: 0 <= k < |cs| ==> vs[k] == cs[k].View()
  {
    seq(|cs|, k requires 0 <= k < |cs| => cs[k].View())
  }

  /** Chunks that locate the headers of a parse have the values those
      headers resolve to. */
  lemma LocatesViews(parent: Chunk, cs: seq<Chunk>, hs: seq<Header>)
    requires parent.Valid() && |cs| == |hs|
    requires RangesInside(parent.Payload(), hs)
    requires forall k :: 0 <= k < |cs| ==> Locates(cs[k], parent, hs[k])
    ensures forall k :: 0 <= k < |cs| ==> cs[k].Valid()
    ensures ViewsOf(cs) == ResolveAll(parent.Payload(), hs)
  {
    var p := parent.Payload();
    forall k | 0 <= k < |cs|
      ensures cs[k].Valid() && cs[k].View() == Resolve(p, hs[k])
    {
      LocatesView(parent, cs[k], hs[k]);
    }
    var vs := ViewsOf(cs);
    var rs := ResolveAll(p, hs);
    assert |vs| == |rs|;
    assert forall k :: 0 <= k < |vs| ==> vs[k] == rs[k];
  }

  /** One chunk that locates a header has the value the header resolves to. */
  lemma LocatesView(parent: Chunk, c: Chunk, h: Header)
    requires parent.Valid() && h.start + h.size <= parent.size
    requires Locates(c, parent, h)
    ensures c.Valid() && c.View() == Resolve(parent.Payload(), h)
  {
    SliceOfSlice(parent.buf, parent.start, parent.start + parent.size, h.start, h.start + h.size);
  }

  /** A slice of a slice is a slice. */
  lemma SliceOfSlice(s: seq<Byte>, a: nat, b: nat, i: nat, j: nat)
    requires a <= b <= |s| && i <= j <= b - a
    ensures s[a..b][i..j] == s[a + i..a + j]
  {
    forall t | 0 <= t < j - i
      ensures s[a..b][i..j][t] == s[a + i..a + j][t]
    {
    }
  }

  /** parseNextChunk over a chunk stream of `parent`: the step ParseChunkAt
      takes from the stream's position. On success a fresh chunk of `file`
      over the child's range of the parent's buffer, and the stream moves
      past the child and its pad byte. */
  method ParseNextChunk(file: File, parent: Chunk, cs: Stream) returns (r: Result<Chunk>)
    requires parent.Valid() && cs.bytes == parent.Payload()
    modifies cs`next
    ensures match ParseChunkAt(cs.bytes, old(cs.next))
      case Err(e) => r == Err(e)
      case Ok(p) =>
        && r.Ok? && fresh(r.value) && Locates(r.value, parent, p.header) && r.value.file == file && r.value.Valid()
        && r.value.next == null && r.value.list == null && r.value.asList == null && r.value.asData == null
        && cs.next == p.next
  {
    var idp := cs.ParseID();
    if idp.None? {
      return Err(Corrupt);
    }
    var tag := idp.value;
    var sizep := cs.ParseSize();
    if sizep.None? {
      return Err(Corrupt);
    }
    var size := sizep.value;
    var pad := size % 2;
    var kind: Kind;
    var id: int;
    if tag == LIST_ID || tag == RIFF_ID {
      var listIDp := cs.ParseID();
      if listIDp.None? {
        return Err(Corrupt);
      }
      if size < 4 {
        return Err(Corrupt);
      }
      size := size - 4;
      kind := if tag == LIST_ID then ListKind else RiffKind;
      id := listIDp.value;
    } else {
      kind := Other;
      id := tag;
    }
    var start := cs.next;
    cs.next := cs.next + size + pad;
    if cs.next > parent.size {
      return Err(Corrupt);
    }
    var chunk := new Chunk(file, kind, id, size, parent.buf, parent.start + start);
    r := Ok(chunk);
  }

  /** One child as raff_listAsChunk writes it at index `i`: header, then
      payload and pad. */
  method WriteChild(a: array<Byte>, i: nat, c: Chunk) returns (j: nat)
    requires c.Valid()
    requires i + EncodedSize(c.View()) <= a.Length
    modifies a
    ensures j == i + EncodedSize(c.View())
    ensures a[..j] == old(a[..i]) + EncodeChunk(c.View())
  {
    j := WriteHeader(a, i, c);
    j := WritePayload(a, j, c);
  }

  /** The header raff_listAsChunk writes for a child: the marker, the size
      counting the sub-ID and the sub-ID for a container; the ID and the
      size for a leaf. */
  method WriteHeader(a: array<Byte>, i: nat, c: Chunk) returns (j: nat)
    requires c.Valid()
    requires i + 8 + SubIdLen(c.kind) <= a.Length
    modifies a
    ensures j == i + 8 + SubIdLen(c.kind)
    ensures a[..j] == old(a[..i]) + HeaderBytes(c.View())
  {
    if c.kind != Other {
      if c.kind == RiffKind {
        j := AddID(a, i, RIFF_ID);
      } else {
        j := AddID(a, i, LIST_ID);
      }
      j := AddSize(a, j, c.size + 4);
      j := AddID(a, j, c.id);
    } else {
      j := AddID(a, i, c.id);
      j := AddSize(a, j, c.size);
    }
  }

  /** The payload of a child copied byte by byte after its header, then a
      zero pad byte when its size is odd. */
  method WritePayload(a: array<Byte>, i: nat, c: Chunk) returns (j: nat)
    requires c.Valid()
    requires i + c.size + c.size % 2 <= a.Length
    modifies a
    ensures j == i + c.size + c.size % 2
    ensures a[..j] == old(a[..i]) + c.Payload() + Pad(c.size)
  {
    ghost var before := a[..i];
    j := i;
    var n := 0;
    while n < c.size
      invariant n <= c.size && j == i + n
      invariant a[..j] == before + c.Payload()[..n]
    {
      a[j] := c.buf[c.start + n];
      assert c.Payload()[..n + 1] == c.Payload()[..n] + [c.buf[c.start + n]];
      assert a[..j + 1] == a[..j] + [a[j]];
      j := j + 1;
      n := n + 1;
    }
    assert c.Payload()[..n] == c.Payload();
    if c.size % 2 == 1 {
      a[j] := 0;
      assert a[..j + 1] == a[..j] + [0];
      j := j + 1;
    }
  }

  /** addID: the four bytes of an ID, most significant first. */
  method AddID(a: array<Byte>, i: nat, id: int) returns (j: nat)
    requires i + 4 <= a.Length
    modifies a
    ensures j == i + 4
    ensures a[..j] == old(a[..i]) + IdBytes(id)
  {
    a[i] := (id / B3) % B1;
    a[i + 1] := (id / B2) % B1;
    a[i + 2] := (id / B1) % B1;
    a[i + 3] := id % B1;
    j := i + 4;
    assert a[..j] == a[..i] + a[i..j];
  }

  /** addSize: the four bytes of a size, least significant first. */
  method AddSize(a: array<Byte>, i: nat, n: nat) returns (j: nat)
    requires i + 4 <= a.Length
    modifies a
    ensures j == i + 4
    ensures a[..j] == old(a[..i]) + SizeBytes(n)
  {
    a[i] := n % B1;
    a[i + 1] := (n / B1) % B1;
    a[i + 2] := (n / B2) % B1;
    a[i + 3] := (n / B3) % B1;
    j := i + 4;
    assert a[..j] == a[..i] + a[i..j];
  }

  /** The copy loops of raff_newData and raff_copyChunkTo: fresh storage
      holding the `n` bytes of `src` from `from`. */
  method CopyBytes(src: seq<Byte>, from: nat, n: nat) returns (a: array<Byte>)
    requires from + n <= |src|
    ensures fresh(a) && a[..] == src[from..from + n]
  {
    a := new Byte[n];
    var i := 0;
    while i < n
      invariant i <= n && a[..i] == src[from..from + i]
    {
      a[i] := src[from + i];
      assert a[..i + 1] == a[..i] + [a[i]];
      i := i + 1;
    }
    assert a[..] == a[..i];
  }

  /** openStream: the outcome OpenSpec gives for the bytes still to come.
      On success a fresh file holding the payload, whose root chunk is a
      RIFF chunk of the form ID over the whole of that storage, and the
      source has been closed; on failure the source is left open. */
  method OpenStream(s: Stream) returns (r: Result<File>)
    modifies s
    ensures match OpenSpec(old(s.Rest()))
      case Err(e) => r == Err(e) && s.closed == old(s.closed)
      case Ok(v) =>
        && r.Ok? && fresh(r.value) && fresh(r.value.data) && s.closed
        && r.value.chunk != null && fresh(r.value.chunk)
        && var root := r.value.chunk;
        && root.Valid() && root.View() == v && root.file == r.value
        && root.buf == r.value.data[..] && root.start == 0 && root.size == r.value.data.Length
        && root.next == null && root.list == null && root.asList == null && root.asData == null
  {
    ghost var input := s.Rest();
    var header := ReadRiffHeader(s);
    if header.Err? {
      return Err(header.error);
    }
    var declared := header.value.0;
    var listID := header.value.1;
    var size := (declared - 4) % SIZE_T;
    OpenSpecAccepts(input, declared, listID);
    var file := ReadPayload(s, size);
    if file == null {
      return Err(Corrupt);
    }
    s.Close();
    var chunk := new Chunk(file, RiffKind, listID, size, file.data[..], 0);
    assert chunk.Payload() == input[12..12 + size] by {
      assert input[12..][..size] == input[12..12 + size];
    }
    file.chunk := chunk;
    r := Ok(file);
  }

  /** The header openStream reads: the RIFF marker, the declared size and
      the form ID. A source that does not start with the marker is NotRiff
      and one that ends inside the header is Corrupt; otherwise the source
      is left just past the header. */
  method ReadRiffHeader(s: Stream) returns (r: Result<(nat, int)>)
    modifies s`next
    ensures r.Err? ==> OpenSpec(old(s.Rest())) == Err(r.error)
    ensures r.Ok? ==>
      && ReadID(old(s.Rest()), 0) == Some(RIFF_ID)
      && ReadSize(old(s.Rest()), 4) == Some(r.value.0)
      && ReadID(old(s.Rest()), 8) == Some(r.value.1)
      && |old(s.Rest())| >= 12 && s.Rest() == old(s.Rest())[12..]
  {
    ghost var input := s.Rest();
    ghost var n0 := s.next;
    RestReads(s.bytes, n0, input, 0);
    RestReads(s.bytes, n0, input, 4);
    RestReads(s.bytes, n0, input, 8);
    var idp := s.ParseID();
    assert idp == ReadID(input, 0);
    if idp.None? || idp.value != RIFF_ID {
      return Err(NotRiff);
    }
    var sizep := s.ParseSize();
    assert sizep == ReadSize(input, 4);
    if sizep.None? {
      return Err(Corrupt);
    }
    var listIDp := s.ParseID();
    assert listIDp == ReadID(input, 8);
    if listIDp.None? {
      return Err(Corrupt);
    }
    assert s.next == n0 + 12;
    r := Ok((sizep.value, listIDp.value));
  }

  /** A source that starts with the RIFF marker, a size and a form ID opens
      to the form's payload when enough bytes follow, and is Corrupt
      otherwise. */
  lemma OpenSpecAccepts(input: seq<Byte>, declared: nat, form: int)
    requires ReadID(input, 0) == Some(RIFF_ID)
    requires ReadSize(input, 4) == Some(declared)
    requires ReadID(input, 8) == Some(form)
    ensures var size := (declared - 4) % SIZE_T;
      OpenSpec(input) == if |input| < 12 + size then Err(Corrupt)
                         else Ok(ChunkVal(RiffKind, form, input[12..12 + size]))
  {
  }

  /** The copy loop of openStream: `size` more bytes of the source into the
      storage of a fresh file, or null when the source ends first. */
  method ReadPayload(s: Stream, size: nat) returns (file: File?)
    modifies s`next
    ensures file == null <==> |old(s.Rest())| < size
    ensures file != null ==>
      fresh(file) && fresh(file.data) && file.chunk == null && file.data[..] == old(s.Rest())[..size]
  {
    ghost var input := s.Rest();
    ghost var n0 := s.next;
    file := new File(size);
    var i := 0;
    while i < size
      modifies s`next, file.data
      invariant i <= size && i <= |input|
      invariant s.next == if n0 <= |s.bytes| then n0 + i else n0
      invariant file.data[..i] == input[..i]
    {
      var n := s.Next();
      if n < 0 {
        return null;
      }
      file.data[i] := n;
      assert input[..i + 1] == input[..i] + [n];
      assert file.data[..i + 1] == file.data[..i] + [n];
      i := i + 1;
    }
    assert file.data[..] == file.data[..i];
  }

  /** Reading the source from position `n0` is reading what is left of it
      from position 0. */
  lemma RestReads(bytes: seq<Byte>, n0: nat, rest: seq<Byte>, k: nat)
    requires rest == if n0 <= |bytes| then bytes[n0..] else []
    ensures ReadID(rest, k) == ReadID(bytes, n0 + k)
    ensures ReadSize(rest, k) == ReadSize(bytes, n0 + k)
  {
    if n0 + k + 4 <= |bytes| {
      assert rest[k..k + 4] == bytes[n0 + k..n0 + k + 4];
    }
  }
}
