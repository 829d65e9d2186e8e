/** What the writer leaves is exactly what the parser accepts and the reader decodes. */
module ObjectLayout {
  import opened Common
  import opened ObjectFormat

  // ----- reading back the fields of a header and of a table entry ---------------------------

  lemma Middle(a: seq<Byte>, b: seq<Byte>, c: seq<Byte>, all: seq<Byte>)
    requires all == a + (b + c)
    ensures all[|a|..|a| + |b|] == b
  {
  }

  lemma {:induction false} TableEntry(cs: seq<Chunk>, i: nat)
    requires i < |cs|
    ensures TableBytes(cs)[ENTRY * i..ENTRY * i + ENTRY] == EntryBytes(cs[i])
  {
    var front := cs[..|cs| - 1];
    assert TableBytes(cs) == TableBytes(front) + EntryBytes(cs[|cs| - 1]);
    if i < |front| {
      TableEntry(front, i);
      assert TableBytes(cs)[ENTRY * i..ENTRY * i + ENTRY] == TableBytes(front)[ENTRY * i..ENTRY * i + ENTRY];
    }
  }

  ghost predicate Fits(c: Chunk)
  {
    c.offset < 0x1_0000_0000_0000_0000 && c.stored <= MAX_UINT32 && c.raw <= MAX_UINT32 && c.crc <= MAX_UINT32
  }

  lemma EntryFields(c: Chunk)
    requires Fits(c)
    ensures var e := EntryBytes(c);
            c == Chunk(e[0], Get(e[4..12]), Get(e[12..16]), Get(e[16..20]), Get(e[20..24]))
  {
    hide Put, Get, Pow256;
    var e := EntryBytes(c);
    Widths();
    GetPut(c.offset, 8);
    GetPut(c.stored, 4);
    GetPut(c.raw, 4);
    GetPut(c.crc, 4);
    var start, offset := [c.codec, 0, 0, 0], Put(c.offset, 8);
    var stored, raw, crc := Put(c.stored, 4), Put(c.raw, 4), Put(c.crc, 4);
    Middle(start, offset, stored + raw + crc, e);
    Middle(start + offset, stored, raw + crc, e);
    Middle(start + offset + stored, raw, crc, e);
    Middle(start + offset + stored + raw, crc, [], e);
  }

  lemma HeaderFields(length: nat, count: nat, rest: seq<Byte>)
    requires length <= MAX_INT64
    ensures var file := HeaderBytes(length, count) + rest;
            && file[..8] == MAGIC && Get(file[8..10]) == 1 && Get(file[12..16]) == CHUNK
            && Get(file[16..24]) == length && Get(file[24..28]) == count % 0x1_0000_0000
  {
    hide Put, Get, Pow256;
    var file := HeaderBytes(length, count) + rest;
    Widths();
    GetPut(1, 2);
    GetPut(CHUNK, 4);
    GetPut(length, 8);
    GetPut(count % 0x1_0000_0000, 4);
    var start, gap, size, total := MAGIC + Put(1, 2), [0, 0], Put(CHUNK, 4), Put(length, 8);
    var number := Put(count % 0x1_0000_0000, 4);
    Middle(MAGIC, Put(1, 2), gap + size + total + number + rest, file);
    Middle(start + gap, size, total + number + rest, file);
    Middle(start + gap + size, total, number + rest, file);
    Middle(start + gap + size + total, number, rest, file);
  }

  // ----- the writer's chunks tile the file --------------------------------------------------

  lemma StoreShrinks(raw: seq<Byte>, compressing: bool, codec: Codec)
    ensures var (id, stored) := Store(raw, compressing, codec);
            && |stored| <= |raw| && (id == RAW || id == LZ4) && (id == RAW ==> stored == raw)
            && (id == LZ4 ==> stored != [])
  {
  }

  lemma {:induction false} DataLength(value: seq<Byte>, codec: Codec, i: nat)
    requires i <= CountOf(|value|, CHUNK)
    ensures |DataOf(value, codec, i)| == StoredBefore(LayoutOf(value, codec).chunks, i) <= i * CHUNK
  {
    if i > 0 {
      DataLength(value, codec, i - 1);
      CountBound(|value|, CHUNK, i - 1);
      StoreShrinks(Slice(value, CHUNK, i - 1), |value| > CHUNK, codec);
    }
  }

  lemma WrittenChunk(value: seq<Byte>, codec: Codec, i: nat)
    requires i < CountOf(|value|, CHUNK)
    ensures Placed(ChunkOf(value, codec, i), i, |value|, CHUNK,
                   HEADER + ENTRY * CountOf(|value|, CHUNK) + StoredBefore(LayoutOf(value, codec).chunks, i))
  {
    hide DataOf, ChunksOf, StoredBefore, Store, CountOf;
    CountBound(|value|, CHUNK, i);
    StoreShrinks(Slice(value, CHUNK, i), |value| > CHUNK, codec);
    DataLength(value, codec, i);
  }

  lemma WrittenFits(value: seq<Byte>, codec: Codec, i: nat)
    requires i < CountOf(|value|, CHUNK) <= MAX_UINT32
    ensures Fits(ChunkOf(value, codec, i))
  {
    hide DataOf, ChunksOf, StoredBefore, Store, CountOf;
    CountBound(|value|, CHUNK, i);
    StoreShrinks(Slice(value, CHUNK, i), |value| > CHUNK, codec);
    DataLength(value, codec, i);
  }

  lemma WrittenTiles(value: seq<Byte>, codec: Codec)
    requires |value| <= MAX_INT64 && CountOf(|value|, CHUNK) <= MAX_UINT32
    ensures Tiles(LayoutOf(value, codec), |ObjectBytes(value, codec)|)
  {
    hide DataOf, StoredBefore, Placed, ChunkOf, CountOf, HeaderBytes, TableBytes;
    var l := LayoutOf(value, codec);
    DataLength(value, codec, |l.chunks|);
    forall i | 0 <= i < |l.chunks|
      ensures Placed(l.chunks[i], i, |value|, CHUNK, HEADER + ENTRY * |l.chunks| + StoredBefore(l.chunks, i))
    {
      WrittenChunk(value, codec, i);
    }
  }

  lemma WrittenEntry(value: seq<Byte>, codec: Codec, i: nat)
    requires i < CountOf(|value|, CHUNK) <= MAX_UINT32
    ensures EntryAt(ObjectBytes(value, codec), i) == ChunkOf(value, codec, i)
  {
    hide DataOf, ChunkOf, Put, Get, HeaderBytes, TableBytes, EntryBytes, Fits;
    var cs := LayoutOf(value, codec).chunks;
    var file := ObjectBytes(value, codec);
    WrittenFits(value, codec, i);
    TableEntry(cs, i);
    EntryFields(cs[i]);
    assert file[HEADER + ENTRY * i..HEADER + ENTRY * i + ENTRY] == TableBytes(cs)[ENTRY * i..ENTRY * i + ENTRY];
  }

  lemma WrittenDescribes(value: seq<Byte>, codec: Codec)
    requires |value| <= MAX_INT64 && CountOf(|value|, CHUNK) <= MAX_UINT32
    ensures Describes(ObjectBytes(value, codec), LayoutOf(value, codec))
  {
    hide DataOf, ChunkOf, Put, Get, HeaderBytes, EntryAt;
    var l := LayoutOf(value, codec);
    var rest := TableBytes(l.chunks) + DataOf(value, codec, |l.chunks|);
    HeaderFields(|value|, |l.chunks|, rest);
    assert ObjectBytes(value, codec) == HeaderBytes(|value|, |l.chunks|) + rest;
    forall i | 0 <= i < |l.chunks|
      ensures l.chunks[i] == EntryAt(ObjectBytes(value, codec), i)
    {
      WrittenEntry(value, codec, i);
    }
  }

  /** A written object has a layout the parser accepts exactly when its chunk count fits the
      header's 32 bits. */
  lemma WrittenAccepted(value: seq<Byte>, codec: Codec)
    requires |value| <= MAX_INT64
    ensures CountOf(|value|, CHUNK) <= MAX_UINT32 <==>
              exists l :: Describes(ObjectBytes(value, codec), l) && Tiles(l, |ObjectBytes(value, codec)|)
  {
    hide DataOf, ChunksOf, TableBytes, HeaderBytes, EntryAt, StoredBefore, Placed;
    var file := ObjectBytes(value, codec);
    var count := CountOf(|value|, CHUNK);
    if count <= MAX_UINT32 {
      WrittenDescribes(value, codec);
      WrittenTiles(value, codec);
    } else {
      var rest := TableBytes(ChunksOf(value, codec, count)) + DataOf(value, codec, count);
      HeaderFields(|value|, count, rest);
      assert file == HeaderBytes(|value|, count) + rest;
    }
  }

  /** One byte more than 2^32 - 1 full chunks: the writer stores the object, the parser refuses it. */
  lemma RefusedExample(codec: Codec)
    ensures var value: seq<Byte> := seq(CHUNK * MAX_UINT32 + 1, _ => 0);
            && |value| <= MAX_INT64
            && !exists l :: Describes(ObjectBytes(value, codec), l) && Tiles(l, |ObjectBytes(value, codec)|)
  {
    hide ObjectBytes, Describes, Tiles;
    var value: seq<Byte> := seq(CHUNK * MAX_UINT32 + 1, _ => 0);
    assert CountOf(|value|, CHUNK) == MAX_UINT32 + 1;
    WrittenAccepted(value, codec);
  }

  // ----- decoding ---------------------------------------------------------------------------

  /** The contents of a chunk of the file, if they can be read and are not corrupt. */
  function Decode(file: seq<Byte>, c: Chunk, codec: Codec): Option<seq<Byte>>
  {
    if c.offset + c.stored > |file| then None
    else
      var stored := file[c.offset..c.offset + c.stored];
      var raw := if c.codec == RAW then Some(stored) else codec.uncompress(stored, c.raw);
      if raw.Some? && |raw.value| == c.raw && codec.crc(raw.value) == c.crc then raw else None
  }

  lemma {:induction false} DataAt(value: seq<Byte>, codec: Codec, i: nat, n: nat)
    requires i < n <= CountOf(|value|, CHUNK)
    ensures i * CHUNK < |value|
    ensures var before, stored := DataOf(value, codec, i), StoreAt(value, codec, i).1;
            && |before| + |stored| <= |DataOf(value, codec, n)|
            && DataOf(value, codec, n)[|before|..|before| + |stored|] == stored
    decreases n
  {
    hide Store;
    CountBound(|value|, CHUNK, i);
    if i + 1 < n {
      DataAt(value, codec, i, n - 1);
      var before, stored := DataOf(value, codec, i), StoreAt(value, codec, i).1;
      assert DataOf(value, codec, n)[|before|..|before| + |stored|]
          == DataOf(value, codec, n - 1)[|before|..|before| + |stored|];
    }
  }

  lemma StoreDecodes(raw: seq<Byte>, compressing: bool, codec: Codec)
    requires Lawful(codec)
    ensures var (id, stored) := Store(raw, compressing, codec);
            if id == RAW then stored == raw else codec.uncompress(stored, |raw|) == Some(raw)
  {
  }

  lemma WrittenBytes(value: seq<Byte>, codec: Codec, i: nat)
    requires i < CountOf(|value|, CHUNK)
    ensures var file, c := ObjectBytes(value, codec), ChunkOf(value, codec, i);
            && i * CHUNK < |value| && c.offset + c.stored <= |file|
            && file[c.offset..c.offset + c.stored] == StoreAt(value, codec, i).1
  {
    hide DataOf, ChunksOf, TableBytes, HeaderBytes, Slice, Store, CountOf;
    CountBound(|value|, CHUNK, i);
    var count := CountOf(|value|, CHUNK);
    var file, c := ObjectBytes(value, codec), ChunkOf(value, codec, i);
    DataAt(value, codec, i, count);
    var data := DataOf(value, codec, count);
    var base := HEADER + ENTRY * count;
    assert file[c.offset..c.offset + c.stored] == data[c.offset - base..c.offset - base + c.stored];
  }

  /** Every chunk of a written object decodes to the bytes it was made from. */
  lemma WrittenDecodes(value: seq<Byte>, codec: Codec, i: nat)
    requires Lawful(codec) && i < CountOf(|value|, CHUNK)
    ensures i * CHUNK < |value|
    ensures Decode(ObjectBytes(value, codec), ChunkOf(value, codec, i), codec) == Some(Slice(value, CHUNK, i))
  {
    hide DataOf, ObjectBytes, Slice, Store, CountOf, Lawful;
    WrittenBytes(value, codec, i);
    StoreDecodes(Slice(value, CHUNK, i), |value| > CHUNK, codec);
  }
}
