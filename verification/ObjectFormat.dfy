/** The on-disk object format: a header, a chunk table and the stored chunks. */
module ObjectFormat {
  import opened Common

  type Uint32 = x: int | 0 <= x < 0x1_0000_0000

  // ----- big-endian integers ----------------------------------------------------------------

  function Put(n: nat, width: nat): (s: seq<Byte>)
    ensures |s| == width
  {
    if width == 0 then [] else Put(n / 256, width - 1) + [n % 256]
  }

  function Get(s: seq<Byte>): nat
  {
    if s == [] then 0 else Get(s[..|s| - 1]) * 256 + s[|s| - 1]
  }

  function Pow256(width: nat): nat
  {
    if width == 0 then 1 else 256 * Pow256(width - 1)
  }

  /** What is read back is the value modulo the width. */
  lemma {:induction false} GetPut(n: nat, width: nat)
    ensures n < Pow256(width) ==> Get(Put(n, width)) == n
  {
    if width > 0 {
      GetPut(n / 256, width - 1);
      var s := Put(n, width);
      assert s[..|s| - 1] == Put(n / 256, width - 1);
    }
  }

  lemma Widths()
    ensures Pow256(2) == 0x1_0000 && Pow256(4) == 0x1_0000_0000 && Pow256(8) == 0x1_0000_0000_0000_0000
  {
    assert Pow256(1) == 256 * Pow256(0);
    assert Pow256(2) == 256 * Pow256(1);
    assert Pow256(3) == 256 * Pow256(2);
    assert Pow256(4) == 256 * Pow256(3);
    assert Pow256(5) == 256 * Pow256(4);
    assert Pow256(6) == 256 * Pow256(5);
    assert Pow256(7) == 256 * Pow256(6);
    assert Pow256(8) == 256 * Pow256(7);
  }

  // ----- the format -------------------------------------------------------------------------

  const CHUNK: nat := 65536
  const LEGACY_CHUNK: nat := 262144
  const HEADER: nat := 28
  const ENTRY: nat := 24
  const RAW: Byte := 0
  const LZ4: Byte := 1
  const MAX_UINT32: nat := 0xFFFF_FFFF
  const MAX_INT64: nat := 0x7FFF_FFFF_FFFF_FFFF
  const MAGIC: seq<Byte> := [0x47, 0x56, 0x43, 0x4F, 0x42, 0x4A, 0x30, 0x31]  // GVCOBJ01

  datatype Chunk = Chunk(codec: Byte, offset: nat, stored: nat, raw: nat, crc: nat)
  datatype Layout = Layout(chunks: seq<Chunk>, length: nat, chunkSize: nat)

  /** Compression yields an error, or bytes; no bytes mean that the block is incompressible. */
  datatype Compressed = CompressError | Bytes(data: seq<Byte>)

  /** The block codec and the checksum, as the format uses them. */
  datatype Codec = Codec(compress: seq<Byte> -> Compressed,
                         uncompress: (seq<Byte>, nat) -> Option<seq<Byte>>,
                         crc: seq<Byte> -> Uint32)

  /** Uncompressing what was compressed gives the block back. */
  ghost predicate Lawful(codec: Codec)
  {
    forall raw :: codec.compress(raw).Bytes? && codec.compress(raw).data != [] ==>
                    codec.uncompress(codec.compress(raw).data, |raw|) == Some(raw)
  }

  function CompressBlockBound(n: nat): nat { n + n / 255 + 16 }

  function CountOf(length: nat, chunkSize: nat): nat
    requires chunkSize > 0
  {
    if length == 0 then 0 else (length - 1) / chunkSize + 1
  }

  /** Chunk i of a value. */
  function Slice(value: seq<Byte>, chunkSize: nat, i: nat): seq<Byte>
    requires i * chunkSize <= |value|
  {
    value[i * chunkSize..Min(i * chunkSize + chunkSize, |value|)]
  }

  // ----- what an accepted file looks like ---------------------------------------------------

  /** Entry i of the chunk table. */
  function EntryAt(file: seq<Byte>, i: nat): Chunk
    requires HEADER + ENTRY * i + ENTRY <= |file|
  {
    var e := file[HEADER + ENTRY * i..HEADER + ENTRY * i + ENTRY];
    Chunk(e[0], Get(e[4..12]), Get(e[12..16]), Get(e[16..20]), Get(e[20..24]))
  }

  /** Where chunk i starts when the chunks are stored back to back. */
  function StoredBefore(chunks: seq<Chunk>, i: nat): nat
    requires i <= |chunks|
  {
    if i == 0 then 0 else StoredBefore(chunks, i - 1) + chunks[i - 1].stored
  }

  ghost predicate ValidChunk(c: Chunk, chunkSize: nat)
  {
    && (c.codec == 0 || c.codec == 1)
    && (c.codec == 0 ==> c.stored == c.raw)
    && (c.codec == 1 ==> 0 < c.stored <= chunkSize + chunkSize / 255 + 16)
  }

  /** Chunk i holds the logical bytes from i * chunkSize on, and its stored bytes start here. */
  ghost predicate Placed(c: Chunk, i: nat, length: nat, chunkSize: nat, offset: nat)
  {
    && ValidChunk(c, chunkSize) && c.offset == offset
    && i * chunkSize < length && c.raw == Min(chunkSize, length - i * chunkSize)
  }

  /** The chunks tile the file behind the table and the logical range: chunk i covers the logical
      bytes from i * chunkSize on, and its stored bytes follow those of chunk i - 1. */
  ghost predicate Tiles(l: Layout, encodedSize: nat)
  {
    && (l.chunkSize == 65536 || l.chunkSize == 262144) && l.length <= MAX_INT64
    && |l.chunks| == CountOf(l.length, l.chunkSize) <= MAX_UINT32
    && HEADER + ENTRY * |l.chunks| + StoredBefore(l.chunks, |l.chunks|) == encodedSize
    && forall i :: 0 <= i < |l.chunks| ==>
         Placed(l.chunks[i], i, l.length, l.chunkSize, HEADER + ENTRY * |l.chunks| + StoredBefore(l.chunks, i))
  }

  /** The bytes of a file that claims to be an object with this layout. */
  ghost predicate Describes(file: seq<Byte>, l: Layout)
  {
    && |file| >= HEADER + ENTRY * |l.chunks|
    && file[..8] == MAGIC && Get(file[8..10]) == 1
    && Get(file[12..16]) == l.chunkSize && Get(file[16..24]) == l.length && Get(file[24..28]) == |l.chunks|
    && forall i :: 0 <= i < |l.chunks| ==> l.chunks[i] == EntryAt(file, i)
  }

  lemma CountBound(length: nat, chunkSize: nat, i: nat)
    requires chunkSize > 0 && i < CountOf(length, chunkSize)
    ensures i * chunkSize < length
  {
    var q := (length - 1) / chunkSize;
    assert i <= q;
    assert i * chunkSize <= q * chunkSize by { MulMono(i, q, chunkSize); }
    assert q * chunkSize <= length - 1;
  }

  lemma MulMono(a: nat, b: nat, c: nat)
    requires a <= b
    ensures a * c <= b * c
  {
  }

  lemma {:induction false} StoredMono(chunks: seq<Chunk>, i: nat, j: nat)
    requires i <= j <= |chunks|
    ensures StoredBefore(chunks, i) <= StoredBefore(chunks, j)
    decreases j
  {
    if i < j {
      StoredMono(chunks, i, j - 1);
    }
  }

  lemma {:induction false} StoredPrefix(a: seq<Chunk>, b: seq<Chunk>, i: nat)
    requires i <= |a| <= |b| && forall k :: 0 <= k < i ==> a[k] == b[k]
    ensures StoredBefore(a, i) == StoredBefore(b, i)
  {
    if i > 0 {
      StoredPrefix(a, b, i - 1);
    }
  }

  // ----- the writer -------------------------------------------------------------------------

  /** Chunks are compressed only in objects of more than one chunk, and kept compressed only when
      that saves at least an eighth. */
  function Store(raw: seq<Byte>, compressing: bool, codec: Codec): (Byte, seq<Byte>)
  {
    var compressed := codec.compress(raw);
    if compressing && compressed.Bytes? && |compressed.data| > 0 && |compressed.data| * 8 <= |raw| * 7
    then (LZ4, compressed.data) else (RAW, raw)
  }

  function StoreAt(value: seq<Byte>, codec: Codec, i: nat): (Byte, seq<Byte>)
    requires i * CHUNK <= |value|
  {
    Store(Slice(value, CHUNK, i), |value| > CHUNK, codec)
  }

  /** The stored bytes of the first i chunks. */
  function DataOf(value: seq<Byte>, codec: Codec, i: nat): seq<Byte>
    requires i <= CountOf(|value|, CHUNK)
  {
    if i == 0 then [] else
      CountBound(|value|, CHUNK, i - 1);
      DataOf(value, codec, i - 1) + StoreAt(value, codec, i - 1).1
  }

  function ChunkOf(value: seq<Byte>, codec: Codec, i: nat): Chunk
    requires i < CountOf(|value|, CHUNK)
  {
    CountBound(|value|, CHUNK, i);
    var raw, stored := Slice(value, CHUNK, i), StoreAt(value, codec, i);
    Chunk(stored.0, HEADER + ENTRY * CountOf(|value|, CHUNK) + |DataOf(value, codec, i)|,
          |stored.1|, |raw|, codec.crc(raw))
  }

  function ChunksOf(value: seq<Byte>, codec: Codec, i: nat): (cs: seq<Chunk>)
    requires i <= CountOf(|value|, CHUNK)
    ensures |cs| == i && forall k :: 0 <= k < i ==> cs[k] == ChunkOf(value, codec, k)
  {
    if i == 0 then [] else ChunksOf(value, codec, i - 1) + [ChunkOf(value, codec, i - 1)]
  }

  function EntryBytes(c: Chunk): (s: seq<Byte>)
    ensures |s| == ENTRY
  {
    [c.codec, 0, 0, 0] + Put(c.offset, 8) + Put(c.stored, 4) + Put(c.raw, 4) + Put(c.crc, 4)
  }

  function TableBytes(cs: seq<Chunk>): (s: seq<Byte>)
    ensures |s| == ENTRY * |cs|
  {
    if cs == [] then [] else TableBytes(cs[..|cs| - 1]) + EntryBytes(cs[|cs| - 1])
  }

  function HeaderBytes(length: nat, count: nat): (s: seq<Byte>)
    ensures |s| == HEADER
  {
    MAGIC + Put(1, 2) + [0, 0] + Put(CHUNK, 4) + Put(length, 8) + Put(count % 0x1_0000_0000, 4)
  }

  /** The file the writer leaves for a value. */
  function ObjectBytes(value: seq<Byte>, codec: Codec): seq<Byte>
  {
    var count := CountOf(|value|, CHUNK);
    HeaderBytes(|value|, count) + TableBytes(ChunksOf(value, codec, count)) + DataOf(value, codec, count)
  }

  /** The first 28 bytes of every object: the name of the format, version 1, chunks of 64 KiB, the
      length, and the number of chunks. */
  lemma HeaderLayout(value: seq<Byte>, codec: Codec)
    ensures var file, count := ObjectBytes(value, codec), (|value| + 65535) / 65536;
            && |file| >= 28 + 24 * count
            && file[..16] == [0x47, 0x56, 0x43, 0x4F, 0x42, 0x4A, 0x30, 0x31, 0, 1, 0, 0, 0, 1, 0, 0]
            && file[16..24] == Put(|value|, 8) && file[24..28] == Put(count % 0x1_0000_0000, 4)
  {
    hide Put, TableBytes, DataOf, HeaderBytes, CountOf;
    var file, count := ObjectBytes(value, codec), CountOf(|value|, CHUNK);
    CountRoundsUp(|value|);
    HeaderFields(|value|, count);
    var header := HeaderBytes(|value|, count);
    assert file[..28] == header;
    assert file[..16] == header[..16] && file[16..24] == header[16..24] && file[24..28] == header[24..28];
  }

  lemma CountRoundsUp(length: nat)
    ensures CountOf(length, CHUNK) == (length + 65535) / 65536
  {
  }

  lemma HeaderFields(length: nat, count: nat)
    ensures var header := HeaderBytes(length, count);
            && header[..16] == [0x47, 0x56, 0x43, 0x4F, 0x42, 0x4A, 0x30, 0x31, 0, 1, 0, 0, 0, 1, 0, 0]
            && header[16..24] == Put(length, 8) && header[24..28] == Put(count % 0x1_0000_0000, 4)
  {
    FixedFields();
    hide Put;
  }

  lemma FixedFields()
    ensures Put(1, 2) == [0, 1] && Put(CHUNK, 4) == [0, 1, 0, 0]
  {
    assert Put(0, 1) == [0];
    assert Put(1, 2) == [0, 1];
    assert Put(256, 3) == [0, 1, 0];
  }

  function LayoutOf(value: seq<Byte>, codec: Codec): Layout
  {
    Layout(ChunksOf(value, codec, CountOf(|value|, CHUNK)), |value|, CHUNK)
  }

  ghost predicate Compresses(value: seq<Byte>, codec: Codec, n: nat)
  {
    |value| > CHUNK ==>
      forall i: nat :: i < n && i * CHUNK <= |value| ==> codec.compress(Slice(value, CHUNK, i)).Bytes?
  }

  /** The first n chunks of a value, packed. */
  ghost predicate Packed(value: seq<Byte>, codec: Codec, n: nat, chunks: seq<Chunk>, data: seq<Byte>)
  {
    && n <= CountOf(|value|, CHUNK) && Compresses(value, codec, n)
    && chunks == ChunksOf(value, codec, n) && data == DataOf(value, codec, n)
  }

  lemma PackedStep(value: seq<Byte>, codec: Codec, n: nat, chunks: seq<Chunk>, data: seq<Byte>)
    requires Packed(value, codec, n, chunks, data) && n < CountOf(|value|, CHUNK)
    ensures n * CHUNK < |value|
    ensures |value| > CHUNK && codec.compress(Slice(value, CHUNK, n)).CompressError? ==>
              !Compresses(value, codec, CountOf(|value|, CHUNK))
    ensures (|value| > CHUNK ==> codec.compress(Slice(value, CHUNK, n)).Bytes?) ==>
              Packed(value, codec, n + 1, chunks + [ChunkOf(value, codec, n)], data + StoreAt(value, codec, n).1)
  {
    CountBound(|value|, CHUNK, n);
  }

  /** Packs one chunk. What is stored never grows, saves an eighth when it is compressed, and gives
      the bytes back: as they are, or through a lawful codec. */
  method Pack(raw: seq<Byte>, compressing: bool, codec: Codec) returns (ok: bool, id: Byte, stored: seq<Byte>)
    ensures ok <==> (compressing ==> codec.compress(raw).Bytes?)
    ensures ok ==> |stored| <= |raw| && (id == RAW || id == LZ4)
    ensures ok && id == RAW ==> stored == raw
    ensures ok ==> (id == LZ4 <==> && compressing && codec.compress(raw).data != []
                                   && 8 * |codec.compress(raw).data| <= 7 * |raw|)
    ensures ok && id == LZ4 ==> stored == codec.compress(raw).data
    ensures ok && id == LZ4 && Lawful(codec) ==> codec.uncompress(stored, |raw|) == Some(raw)
    ensures ok ==> (id, stored) == Store(raw, compressing, codec)
  {
    ok, id, stored := true, RAW, raw;
    if compressing {
      var compressed := codec.compress(raw);
      if compressed.CompressError? {
        return false, RAW, [];
      }
      if |compressed.data| > 0 && |compressed.data| * 8 <= |raw| * 7 {
        id, stored := LZ4, compressed.data;
      }
    }
  }

  /** Writes the object read from a source that yields these bytes and then ends, cleanly or with
      an error. Nothing is written unless the source has exactly the declared length. */
  method WriteObject(source: seq<Byte>, clean: bool, logicalSize: nat, codec: Codec)
    returns (r: Option<seq<Byte>>)
    ensures r.Some? <==> && logicalSize <= MAX_INT64 && |source| == logicalSize && clean
                         && Compresses(source, codec, CountOf(|source|, CHUNK))
    ensures r.Some? ==> r.value == ObjectBytes(source, codec)
  {
    hide ChunksOf, DataOf, Compresses, Store, Lawful, TableBytes, HeaderBytes;
    if logicalSize > MAX_INT64 {
      return None;
    }
    var count := (logicalSize + CHUNK - 1) / CHUNK;
    assert count == CountOf(logicalSize, CHUNK);
    var chunks: seq<Chunk> := [];
    var offset := HEADER + count * ENTRY;
    var data: seq<Byte> := [];
    var remaining := logicalSize;
    var read, index := 0, 0;
    PackedNothing(source, codec);
    while index < count
      invariant index <= count
      invariant read == Min(index * CHUNK, logicalSize) <= |source| && remaining == logicalSize - read
      invariant |source| == logicalSize ==> Packed(source, codec, index, chunks, data)
      invariant offset == HEADER + ENTRY * count + |data|
    {
      CountBound(logicalSize, CHUNK, index);
      var rawSize := Min(remaining, CHUNK);
      if |source| - read < rawSize {
        return None;
      }
      var raw := source[read..read + rawSize];
      if |source| == logicalSize {
        PackedStep(source, codec, index, chunks, data);
        assert raw == Slice(source, CHUNK, index);
      }
      var ok, id, stored := Pack(raw, logicalSize > CHUNK, codec);
      if !ok {
        return None;
      }
      chunks := chunks + [Chunk(id, offset, |stored|, |raw|, codec.crc(raw))];
      data := data + stored;
      offset := offset + |stored|;
      read, remaining, index := read + rawSize, remaining - rawSize, index + 1;
    }
    if read < |source| || !clean {
      return None;
    }
    return Some(HeaderBytes(logicalSize, count) + TableBytes(chunks) + data);
  }

  lemma PackedNothing(value: seq<Byte>, codec: Codec)
    ensures Packed(value, codec, 0, [], [])
  {
  }
}
