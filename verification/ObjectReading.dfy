/** The layout parser and the random-access reader of stored objects. */
module ObjectReading {
  import opened Common
  import opened ObjectFormat
  import opened ObjectLayout

  // ----- the parser -------------------------------------------------------------------------

  /** The checks on chunk i, given where it has to start. */
  predicate EntryOk(c: Chunk, chunkSize: nat, left: nat, expectedOffset: nat, encodedSize: nat)
  {
    && (c.codec == RAW || c.codec == LZ4) && c.offset == expectedOffset && c.raw == Min(chunkSize, left)
    && expectedOffset + c.stored <= encodedSize
    && (c.codec == RAW ==> c.stored == c.raw)
    && (c.codec == LZ4 ==> c.stored != 0 && c.stored <= CompressBlockBound(chunkSize))
  }

  /** In a tiling layout every chunk passes its checks. */
  lemma TilesEntry(l: Layout, encodedSize: nat, i: nat)
    requires Tiles(l, encodedSize) && i < |l.chunks|
    ensures i * l.chunkSize < l.length
    ensures EntryOk(l.chunks[i], l.chunkSize, l.length - i * l.chunkSize,
                    HEADER + ENTRY * |l.chunks| + StoredBefore(l.chunks, i), encodedSize)
  {
    StoredMono(l.chunks, i + 1, |l.chunks|);
  }

  lemma TilesCount(l: Layout, encodedSize: nat)
    requires Tiles(l, encodedSize)
    ensures l.chunkSize > 0 && |l.chunks| == CountOf(l.length, l.chunkSize)
  {
  }

  /** The first n entries have passed their checks. */
  ghost predicate Checked(file: seq<Byte>, chunks: seq<Chunk>, length: nat, chunkSize: nat, table: nat)
  {
    && HEADER + ENTRY * |chunks| <= |file|
    && forall i :: 0 <= i < |chunks| ==>
         chunks[i] == EntryAt(file, i) && Placed(chunks[i], i, length, chunkSize, table + StoredBefore(chunks, i))
  }

  lemma OkPlaced(c: Chunk, i: nat, length: nat, chunkSize: nat, offset: nat, encodedSize: nat)
    requires i * chunkSize < length && EntryOk(c, chunkSize, length - i * chunkSize, offset, encodedSize)
    ensures Placed(c, i, length, chunkSize, offset)
  {
  }

  lemma StoredLast(chunks: seq<Chunk>, c: Chunk)
    ensures StoredBefore(chunks + [c], |chunks| + 1) == StoredBefore(chunks, |chunks|) + c.stored
  {
    StoredPrefix(chunks, chunks + [c], |chunks|);
  }

  lemma CheckedStep(file: seq<Byte>, chunks: seq<Chunk>, length: nat, chunkSize: nat, table: nat, encodedSize: nat)
    requires Checked(file, chunks, length, chunkSize, table)
    requires HEADER + ENTRY * |chunks| + ENTRY <= |file| && |chunks| * chunkSize < length
    requires EntryOk(EntryAt(file, |chunks|), chunkSize, length - |chunks| * chunkSize,
                     table + StoredBefore(chunks, |chunks|), encodedSize)
    ensures Checked(file, chunks + [EntryAt(file, |chunks|)], length, chunkSize, table)
    ensures var next := chunks + [EntryAt(file, |chunks|)];
            StoredBefore(next, |next|) == StoredBefore(chunks, |chunks|) + next[|chunks|].stored
  {
    hide EntryAt, Placed, EntryOk, StoredBefore;
    OkPlaced(EntryAt(file, |chunks|), |chunks|, length, chunkSize, table + StoredBefore(chunks, |chunks|), encodedSize);
    var next := chunks + [EntryAt(file, |chunks|)];
    StoredLast(chunks, EntryAt(file, |chunks|));
    forall i | 0 <= i <= |chunks|
      ensures StoredBefore(next, i) == StoredBefore(chunks, i)
    {
      StoredPrefix(chunks, next, i);
    }
    forall i | 0 <= i < |next|
      ensures next[i] == EntryAt(file, i) && Placed(next[i], i, length, chunkSize, table + StoredBefore(next, i))
    {
      if i < |chunks| {
        assert next[i] == chunks[i];
      }
    }
  }

  /** A layout that describes the file agrees with what has been checked so far. */
  lemma CheckedAgrees(file: seq<Byte>, chunks: seq<Chunk>, length: nat, chunkSize: nat, table: nat, l: Layout,
                      encodedSize: nat)
    requires Checked(file, chunks, length, chunkSize, table) && Describes(file, l) && Tiles(l, encodedSize)
    requires |chunks| <= |l.chunks| && l.length == length && l.chunkSize == chunkSize
    ensures chunks == l.chunks[..|chunks|]
    ensures StoredBefore(chunks, |chunks|) == StoredBefore(l.chunks, |chunks|)
  {
    hide EntryAt, Placed;
    StoredPrefix(chunks, l.chunks, |chunks|);
  }

  /** Rows of the table up to the first bad one. */
  method ReadTable(file: seq<Byte>, encodedSize: nat, length: nat, chunkSize: nat, count: nat)
    returns (ok: bool, chunks: seq<Chunk>)
    requires chunkSize == CHUNK || chunkSize == LEGACY_CHUNK
    requires count == CountOf(length, chunkSize)
    requires HEADER + ENTRY * count <= encodedSize && HEADER + ENTRY * count <= |file|
    ensures ok ==> |chunks| == count && Checked(file, chunks, length, chunkSize, HEADER + ENTRY * count)
    ensures ok ==> HEADER + ENTRY * count + StoredBefore(chunks, count) == encodedSize
    ensures forall l :: Describes(file, l) && Tiles(l, encodedSize) && l.length == length && l.chunkSize == chunkSize
                        ==> ok && l.chunks == chunks
  {
    hide EntryAt, Tiles, Describes, Checked, ValidChunk, EntryOk, StoredBefore, CompressBlockBound;
    ghost var table := HEADER + ENTRY * count;
    chunks := [];
    var expectedOffset := HEADER + count * ENTRY;
    var rawTotal := 0;
    CheckedNothing(file, length, chunkSize, table);
    while |chunks| < count
      invariant |chunks| <= count && Checked(file, chunks, length, chunkSize, table)
      invariant expectedOffset == table + StoredBefore(chunks, |chunks|) <= encodedSize
      invariant rawTotal == Min(|chunks| * chunkSize, length)
      decreases count - |chunks|
    {
      CountBound(length, chunkSize, |chunks|);
      var chunk := EntryAt(file, |chunks|);
      ghost var i := |chunks|;
      forall l | Describes(file, l) && Tiles(l, encodedSize) && l.length == length && l.chunkSize == chunkSize
        ensures EntryOk(chunk, chunkSize, length - rawTotal, expectedOffset, encodedSize)
      {
        TilesCount(l, encodedSize);
        Expected(file, chunks, table, l, encodedSize);
      }
      if !EntryOk(chunk, chunkSize, length - rawTotal, expectedOffset, encodedSize) {
        return false, [];
      }
      CheckedStep(file, chunks, length, chunkSize, table, encodedSize);
      EntryOkBounds(chunk, chunkSize, length - rawTotal, expectedOffset, encodedSize);
      chunks := chunks + [chunk];
      expectedOffset := expectedOffset + chunk.stored;
      rawTotal := rawTotal + chunk.raw;
    }
    CountCovers(length, chunkSize);
    forall l | Describes(file, l) && Tiles(l, encodedSize) && l.length == length && l.chunkSize == chunkSize
      ensures expectedOffset == encodedSize && l.chunks == chunks
    {
      TilesCount(l, encodedSize);
      Complete(file, chunks, table, l, encodedSize);
    }
    if expectedOffset != encodedSize || rawTotal != length {
      return false, [];
    }
    return true, chunks;
  }

  lemma CheckedNothing(file: seq<Byte>, length: nat, chunkSize: nat, table: nat)
    requires |file| >= HEADER
    ensures Checked(file, [], length, chunkSize, table) && StoredBefore([], 0) == 0
  {
  }

  lemma EntryOkBounds(c: Chunk, chunkSize: nat, left: nat, expectedOffset: nat, encodedSize: nat)
    requires EntryOk(c, chunkSize, left, expectedOffset, encodedSize)
    ensures c.raw == Min(chunkSize, left) && expectedOffset + c.stored <= encodedSize
  {
  }

  lemma CountCovers(length: nat, chunkSize: nat)
    requires chunkSize == CHUNK || chunkSize == LEGACY_CHUNK
    ensures length <= CountOf(length, chunkSize) * chunkSize
  {
  }

  lemma Expected(file: seq<Byte>, chunks: seq<Chunk>, table: nat, l: Layout, encodedSize: nat)
    requires Describes(file, l) && Tiles(l, encodedSize) && |chunks| < |l.chunks|
    requires Checked(file, chunks, l.length, l.chunkSize, table) && table == HEADER + ENTRY * |l.chunks|
    ensures |chunks| * l.chunkSize < l.length
    ensures EntryOk(EntryAt(file, |chunks|), l.chunkSize, l.length - |chunks| * l.chunkSize,
                    table + StoredBefore(chunks, |chunks|), encodedSize)
  {
    hide EntryAt, EntryOk, Placed, Checked;
    TilesEntry(l, encodedSize, |chunks|);
    CheckedAgrees(file, chunks, l.length, l.chunkSize, table, l, encodedSize);
  }

  lemma Complete(file: seq<Byte>, chunks: seq<Chunk>, table: nat, l: Layout, encodedSize: nat)
    requires Describes(file, l) && Tiles(l, encodedSize) && |chunks| == |l.chunks|
    requires Checked(file, chunks, l.length, l.chunkSize, table) && table == HEADER + ENTRY * |l.chunks|
    ensures l.chunks == chunks && table + StoredBefore(chunks, |chunks|) == encodedSize
  {
    hide EntryAt, Placed, Checked;
    CheckedAgrees(file, chunks, l.length, l.chunkSize, table, l, encodedSize);
    assert l.chunks[..|chunks|] == l.chunks;
  }

  /** Parses the layout of a file recorded with this size. The result is the one layout that
      describes the file and tiles both the file and its logical range, if there is one. */
  method ReadLayout(file: seq<Byte>, encodedSize: nat) returns (r: Option<Layout>)
    ensures r.Some? ==> Describes(file, r.value) && Tiles(r.value, encodedSize)
    ensures forall l :: Describes(file, l) && Tiles(l, encodedSize) ==> r == Some(l)
  {
    hide EntryAt, Placed, StoredBefore, Get;
    if |file| < HEADER {
      return None;
    }
    var chunkSize := Get(file[12..16]);
    if file[..8] != MAGIC || Get(file[8..10]) != 1 || (chunkSize != CHUNK && chunkSize != LEGACY_CHUNK) {
      return None;
    }
    var length, count := Get(file[16..24]), Get(file[24..28]);
    var expectedCount := if length > 0 then (length - 1) / chunkSize + 1 else 0;
    if expectedCount > MAX_UINT32 || count != expectedCount || length > MAX_INT64 {
      return None;
    }
    var tableBytes := count * ENTRY;
    if HEADER + tableBytes > encodedSize || HEADER + tableBytes > |file| {
      return None;
    }
    var ok, chunks := ReadTable(file, encodedSize, length, chunkSize, count);
    return if ok then Some(Layout(chunks, length, chunkSize)) else None;
  }

  // ----- what tiling means byte by byte -----------------------------------------------------

  /** Chunk i stores file byte x. */
  ghost predicate StoresByte(l: Layout, i: nat, x: nat)
  {
    i < |l.chunks| && l.chunks[i].offset <= x < l.chunks[i].offset + l.chunks[i].stored
  }

  lemma {:induction false} FindStored(chunks: seq<Chunk>, n: nat, x: nat) returns (i: nat)
    requires n <= |chunks| && x < StoredBefore(chunks, n)
    ensures i < n && StoredBefore(chunks, i) <= x < StoredBefore(chunks, i) + chunks[i].stored
  {
    if x < StoredBefore(chunks, n - 1) {
      i := FindStored(chunks, n - 1, x);
    } else {
      i := n - 1;
    }
  }

  /** Every byte behind the table is stored by exactly one chunk, and no chunk stores any other. */
  lemma FileTiled(l: Layout, encodedSize: nat, x: nat)
    requires Tiles(l, encodedSize)
    ensures HEADER + ENTRY * |l.chunks| <= x < encodedSize <==> exists i :: StoresByte(l, i, x)
    ensures forall i, j :: StoresByte(l, i, x) && StoresByte(l, j, x) ==> i == j
  {
    hide StoredBefore, ValidChunk, CompressBlockBound;
    var table := HEADER + ENTRY * |l.chunks|;
    if table <= x < encodedSize {
      var i := FindStored(l.chunks, |l.chunks|, x - table);
      assert StoresByte(l, i, x);
    }
    forall i: nat, j: nat | StoresByte(l, i, x) && StoresByte(l, j, x)
      ensures i == j && x < encodedSize
    {
      StoredNext(l.chunks, i);
      StoredNext(l.chunks, j);
      StoredMono(l.chunks, i + 1, |l.chunks|);
      if i < j {
        StoredMono(l.chunks, i + 1, j);
      } else if j < i {
        StoredMono(l.chunks, j + 1, i);
      }
    }
  }

  lemma StoredNext(chunks: seq<Chunk>, i: nat)
    requires i < |chunks|
    ensures StoredBefore(chunks, i + 1) == StoredBefore(chunks, i) + chunks[i].stored
  {
  }

  // ----- the reader -------------------------------------------------------------------------

  /** The chunk that holds a logical position, and where in it. */
  function ChunkAt(p: nat, chunkSize: nat): nat
    requires chunkSize > 0
  {
    p / chunkSize
  }

  function InsideAt(p: nat, chunkSize: nat): nat
    requires chunkSize > 0
  {
    p % chunkSize
  }

  /** How a read ends. Stuck and Panicked are the two ways in which it does not return: the copying
      loop makes no more progress, or slices the buffer beyond its end. */
  datatype Status = More | Eof | Failed | Stuck | Panicked
  datatype Whence = Start | Current | End | Unknown

  class ObjectReader {
    const source: seq<Byte>
    const layout: Layout
    const codec: Codec
    var pos: nat
    var index: int
    var data: seq<Byte>

    constructor (source: seq<Byte>, layout: Layout, codec: Codec)
      ensures this.source == source && this.layout == layout && this.codec == codec
      ensures pos == 0 && index == -1 && data == []
    {
      this.source, this.layout, this.codec := source, layout, codec;
      pos, index, data := 0, -1, [];
    }

    function Contents(i: nat): Option<seq<Byte>>
      requires i < |layout.chunks|
    {
      Decode(source, layout.chunks[i], codec)
    }

    /** The buffer holds the chunk the reader believes it holds. */
    ghost predicate Buffered()
      reads this`index, this`data
    {
      index == -1 || (0 <= index < |layout.chunks| && Contents(index) == Some(data))
    }

    /** The position is in the chunk the reader believes it holds, and it does not hold it: a failed
        load has overwritten the buffer since. */
    ghost predicate Stale()
      reads this`pos, this`index, this`data
    {
      !Buffered() && layout.chunkSize > 0 && index == ChunkAt(pos, layout.chunkSize)
    }

    /** The value agrees with every chunk that can be decoded. */
    ghost predicate Holds(value: seq<Byte>)
    {
      && (exists encodedSize :: Tiles(layout, encodedSize)) && |value| == layout.length
      && forall i: nat :: i < |layout.chunks| && i * layout.chunkSize <= |value| && Contents(i).Some? ==>
                            Contents(i).value == Slice(value, layout.chunkSize, i)
    }

    ghost predicate Intact()
    {
      forall i: nat :: i < |layout.chunks| ==> Contents(i).Some?
    }

    /** The buffer is no larger than a chunk. */
    ghost predicate Ready(value: seq<Byte>)
      reads this`data
    {
      Holds(value) && |data| <= layout.chunkSize
    }

    /** What a failed load of chunk i leaves in the buffer: as many bytes as the chunk has, and its
        own bytes when they were read and only their checksum is wrong. */
    ghost predicate LeftBy(i: nat, left: seq<Byte>)
      requires i < |layout.chunks|
    {
      var c := layout.chunks[i];
      && |left| == c.raw
      && (c.codec == RAW && c.stored == c.raw && c.offset + c.stored <= |source| ==>
            left == source[c.offset..c.offset + c.stored])
    }

    /** The chunk at this position cannot be decoded. */
    ghost predicate Undecodable(p: nat)
    {
      && layout.chunkSize > 0 && ChunkAt(p, layout.chunkSize) < |layout.chunks|
      && Contents(ChunkAt(p, layout.chunkSize)).None?
    }

    ghost predicate Readable(from: nat, end: nat)
    {
      forall p: nat :: from <= p < end ==> !Undecodable(p)
    }

    /** A read from here answers as it should: with the part of the value it moves over, as much as
        is asked for and there is, and less exactly before the first chunk that cannot be decoded. */
    ghost predicate Right(value: seq<Byte>, at: nat, n: nat, bytes: seq<Byte>, status: Status)
    {
      var end := at + |bytes|;
      match status
      case Eof => |value| <= at && bytes == []
      case More => at < |value| && end == Min(at + n, |value|) && bytes == value[at..end] && Readable(at, end)
      case Failed => end < Min(at + n, |value|) && bytes == value[at..end] && Readable(at, end) && Undecodable(end)
      case Stuck => false
      case Panicked => false
    }

    /** A failed load keeps the index and has already overwritten the buffer. */
    method Load(i: nat) returns (ok: bool)
      requires i < |layout.chunks|
      modifies this`index, this`data
      ensures ok <==> Contents(i).Some?
      ensures ok ==> index == i && Contents(i) == Some(data) && Buffered()
      ensures !ok ==> index == old(index) && LeftBy(i, data)
      ensures !ok && old(Buffered()) ==> (Buffered() <==> index == -1 || data == old(data))
    {
      var chunk := layout.chunks[i];
      assert |seq(chunk.raw, _ => 0 as Byte)| == chunk.raw;
      var left: seq<Byte> :| |left| == chunk.raw;
      if chunk.offset + chunk.stored > |source| {
        data := left;
        return false;
      }
      var stored := source[chunk.offset..chunk.offset + chunk.stored];
      var decoded := if chunk.codec == RAW then Some(stored) else codec.uncompress(stored, chunk.raw);
      if decoded.None? || |decoded.value| != chunk.raw {
        data := left;
        return false;
      }
      data := decoded.value;
      if codec.crc(data) != chunk.crc {
        return false;
      }
      index := i;
      return true;
    }

    /** A read answers as it should unless the buffer does not fit its position. Then it hands out
        the bytes it finds there, never ends when there are none left, and panics when the buffer
        ends before that position. */
    method Read(n: nat, ghost value: seq<Byte>) returns (bytes: seq<Byte>, status: Status)
      requires Ready(value)
      modifies this
      ensures Ready(value) && pos == old(pos) + |bytes|
      ensures old(!Stale() || pos >= |value|) ==> Right(value, old(pos), n, bytes, status)
      ensures old(Stale() && pos < |value|) && n > 0 ==>
                Astray(old(data), InsideAt(old(pos), layout.chunkSize), n, bytes, status)
      ensures if bytes == [] then index == old(index) else index == ChunkAt(pos - 1, layout.chunkSize)
      ensures status == Failed ==> Undecodable(pos) && LeftBy(ChunkAt(pos, layout.chunkSize), data)
      ensures status != Failed && bytes == [] ==> data == old(data)
      ensures status != Failed && bytes != [] && (old(!Stale()) || index != old(index)) ==> Buffered()
    {
      hide Holds, Buffered, Stale, Contents, LeftBy, ChunkAt, InsideAt, Undecodable;
      SameLength(value);
      if pos >= layout.length {
        return [], Eof;
      }
      bytes := [];
      while |bytes| < n && pos < layout.length
        invariant Ready(value) && pos == old(pos) + |bytes| && |bytes| <= n
        invariant if bytes == [] then index == old(index) && data == old(data)
                  else index == ChunkAt(pos - 1, layout.chunkSize)
        invariant old(!Stale()) ==> pos <= |value| && bytes == value[old(pos)..pos] && !Stale()
        invariant old(!Stale()) ==> Readable(old(pos), pos)
        invariant bytes != [] && (old(!Stale()) || index != old(index)) ==> Buffered()
        invariant old(Stale()) && bytes != [] ==>
                    Astray(old(data), InsideAt(old(pos), layout.chunkSize), n, bytes, More)
      {
        BufferedIsFresh();
        var outcome, piece := Copy(n - |bytes|, value);
        if outcome != More {
          return bytes, outcome;
        }
        BufferedIsFresh();
        bytes := bytes + piece;
      }
      status := More;
    }

    /** One round of a read: from the chunk at the position, loaded unless it is the last one. */
    method Copy(n: nat, ghost value: seq<Byte>) returns (outcome: Status, piece: seq<Byte>)
      requires Ready(value) && pos < |value| && n > 0
      modifies this
      ensures Ready(value) && pos == old(pos) + |piece| && |piece| <= n && layout.chunkSize > 0
      ensures outcome == More ==> piece != [] && index == ChunkAt(old(pos), layout.chunkSize)
      ensures outcome == More ==> ChunkAt(pos - 1, layout.chunkSize) == index
      ensures outcome == More && !old(Stale()) ==>
                Buffered() && pos <= |value| && piece == value[old(pos)..pos] && Readable(old(pos), pos)
      ensures outcome != More ==> piece == [] && index == old(index) && outcome != Eof
      ensures outcome == Failed ==> Undecodable(pos) && LeftBy(ChunkAt(pos, layout.chunkSize), data)
      ensures outcome == Stuck || outcome == Panicked ==> old(Stale()) && data == old(data)
      ensures old(Stale()) ==> index == old(index) && outcome != Failed
      ensures old(Stale()) ==> Astray(old(data), InsideAt(old(pos), layout.chunkSize), n, piece, outcome)
    {
      hide Holds, Buffered, Contents, Slice, ChunkAt, InsideAt, LeftBy;
      HasChunk(value, pos);
      var chunkIndex := ChunkAt(pos, layout.chunkSize);
      if index != chunkIndex {
        var loaded := Load(chunkIndex);
        FitsChunk(value, chunkIndex);
        if !loaded {
          return Failed, [];
        }
      }
      var inside := InsideAt(pos, layout.chunkSize);
      if Buffered() {
        AtHand(value);
      }
      if inside > |data| {
        return Panicked, [];
      }
      var count := Min(n, |data| - inside);
      if count == 0 {
        return Stuck, [];
      }
      piece := data[inside..][..count];
      if Buffered() {
        Prefixes(data[inside..], value, pos, count);
        PieceReadable(pos, count);
      }
      SameChunk(pos, count, layout.chunkSize);
      pos := pos + count;
      outcome := More;
    }

    lemma SameLength(value: seq<Byte>)
      requires Holds(value)
      ensures layout.length == |value| && layout.chunkSize > 0
    {
    }

    lemma FitsChunk(value: seq<Byte>, i: nat)
      requires Holds(value) && i < |layout.chunks|
      ensures layout.chunks[i].raw <= layout.chunkSize
      ensures Contents(i).Some? ==> |Contents(i).value| == layout.chunks[i].raw
    {
      hide StoredBefore, Slice;
    }

    lemma PieceReadable(p: nat, count: nat)
      requires layout.chunkSize > 0 && Buffered() && index == ChunkAt(p, layout.chunkSize)
      requires count <= layout.chunkSize - InsideAt(p, layout.chunkSize)
      ensures Readable(p, p + count)
    {
      hide ChunkAt, InsideAt;
      forall q: nat | p <= q < p + count ensures !Undecodable(q) {
        SameChunk(p, q - p + 1, layout.chunkSize);
      }
    }

    lemma BufferedIsFresh()
      ensures Buffered() ==> !Stale()
    {
    }

    /** The rest of the buffered chunk is the value from the position on. */
    lemma AtHand(value: seq<Byte>)
      requires Holds(value) && Buffered() && pos < |value|
      requires layout.chunkSize > 0 && index == ChunkAt(pos, layout.chunkSize)
      ensures var inside := InsideAt(pos, layout.chunkSize);
              && inside < |data| && pos + |data| - inside <= |value|
              && data[inside..] == value[pos..pos + |data| - inside]
    {
      hide Holds, ChunkAt, InsideAt;
      HasChunk(value, pos);
      Inside(value, layout.chunkSize, pos);
    }

    lemma HasChunk(value: seq<Byte>, p: nat)
      requires Holds(value) && p < |value|
      ensures layout.chunkSize > 0
      ensures var i := ChunkAt(p, layout.chunkSize);
              && i < |layout.chunks| && i * layout.chunkSize <= p
              && (Contents(i).Some? ==> Contents(i).value == Slice(value, layout.chunkSize, i))
    {
      hide Decode, Placed, StoredBefore, Slice;
    }

    /** Positions outside the object and unknown origins are refused and move nothing. */
    method Seek(offset: int, whence: Whence) returns (at: Option<nat>)
      modifies this`pos
      ensures at == SeekTarget(layout.length, old(pos), offset, whence)
      ensures pos == if at.Some? then at.value else old(pos)
    {
      var target: int;
      match whence {
        case Start => target := offset;
        case Current => target := pos + offset;
        case End => target := layout.length + offset;
        case Unknown => return None;
      }
      if target < 0 || target > layout.length {
        return None;
      }
      pos := target;
      return Some(target);
    }
  }

  function SeekTarget(length: nat, pos: nat, offset: int, whence: Whence): Option<nat>
  {
    var origin := match whence { case Start => 0 case Current => pos case End => length case Unknown => -offset - 1 };
    if 0 <= origin + offset <= length then Some(origin + offset) else None
  }

  /** What a read delivers from a buffer that does not belong to its position: the bytes it finds
      there; it never ends when there are none left, and panics when the buffer ends before. */
  ghost predicate Astray(was: seq<Byte>, inside: nat, n: nat, bytes: seq<Byte>, status: Status)
  {
    if inside > |was| then bytes == [] && status == Panicked
    else if inside == |was| then bytes == [] && status == Stuck
    else
      var first := Min(n, |was| - inside);
      && first <= |bytes| <= n && bytes[..first] == was[inside..inside + first]
      && (|bytes| == n ==> status == More)
  }

  lemma SameChunk(p: nat, count: nat, chunkSize: nat)
    requires chunkSize > 0 && 0 < count <= chunkSize - InsideAt(p, chunkSize)
    ensures ChunkAt(p + count - 1, chunkSize) == ChunkAt(p, chunkSize)
  {
    var last := InsideAt(p, chunkSize) + count - 1;
    assert p + count - 1 == chunkSize * (p / chunkSize) + last;
    Quotient(p / chunkSize, last, chunkSize);
  }

  lemma Quotient(q: nat, r: nat, d: nat)
    requires d > 0 && r < d
    ensures (d * q + r) / d == q
  {
    var x := (d * q + r) / d;
    assert d * q + r == d * x + (d * q + r) % d;
    assert d * (x - q) == r - (d * q + r) % d;
    assert x - q >= 1 ==> d * (x - q) >= d;
    assert q - x >= 1 ==> d * (q - x) >= d;
  }

  /** The bytes from a position on, inside the chunk that holds it. */
  lemma Inside(value: seq<Byte>, chunkSize: nat, p: nat)
    requires chunkSize > 0 && p < |value| && ChunkAt(p, chunkSize) * chunkSize <= p
    ensures var part, inside := Slice(value, chunkSize, ChunkAt(p, chunkSize)), InsideAt(p, chunkSize);
            inside < |part| && p + |part| - inside <= |value| && part[inside..] == value[p..p + |part| - inside]
  {
    var base, inside := (p / chunkSize) * chunkSize, p % chunkSize;
    assert p == base + inside;
    DropSlice(value, base, Min(base + chunkSize, |value|), inside);
  }

  lemma DropSlice(value: seq<Byte>, base: nat, end: nat, inside: nat)
    requires base + inside <= end <= |value|
    ensures value[base..end][inside..] == value[base + inside..end]
  {
  }

  lemma Prefixes(part: seq<Byte>, value: seq<Byte>, p: nat, count: nat)
    requires p + |part| <= |value| && part == value[p..p + |part|] && count <= |part|
    ensures part[..count] == value[p..p + count]
  {
  }

  // ----- any sequence of reads and seeks ----------------------------------------------------

  datatype Op = ReadBytes(n: nat) | SeekTo(offset: int, whence: Whence)
  datatype Answer = Got(bytes: seq<Byte>, status: Status) | At(position: Option<nat>)

  /** How the value itself would answer, and where that leaves the position. */
  function Answered(value: seq<Byte>, pos: nat, op: Op): (Answer, nat)
    requires pos <= |value|
  {
    match op
    case ReadBytes(n) =>
      var next := Min(pos + n, |value|);
      (Got(value[pos..next], if pos == |value| then Eof else More), next)
    case SeekTo(offset, whence) =>
      var target := SeekTarget(|value|, pos, offset, whence);
      (At(target), if target.Some? then target.value else pos)
  }

  /** A file of these bytes, read and sought in memory. */
  function Answers(value: seq<Byte>, pos: nat, ops: seq<Op>): seq<Answer>
    requires pos <= |value|
    decreases |ops|
  {
    if ops == [] then []
    else
      var (answer, next) := Answered(value, pos, ops[0]);
      [answer] + Answers(value, next, ops[1..])
  }

  /** What a caller knows of a reader from what was asked and answered: the position, the chunk of
      the last byte delivered (none: -1), and whether a read has failed since that byte. */
  datatype Cursor = Cursor(pos: nat, held: int, lost: bool)

  /** A read from here is right, whatever was asked before: it is not in the chunk of the last byte
      delivered, or no read has failed since that byte. */
  predicate Trusted(c: Cursor, length: nat, chunkSize: nat)
    requires chunkSize > 0
  {
    !c.lost || c.held != ChunkAt(c.pos, chunkSize) || c.pos >= length
  }

  /** What the caller knows after one more answer. */
  function Moved(c: Cursor, length: nat, chunkSize: nat, answer: Answer): Cursor
    requires chunkSize > 0
  {
    match answer
    case Got(bytes, status) =>
      var next := c.pos + |bytes|;
      var held := if bytes == [] then c.held else ChunkAt(next - 1, chunkSize);
      var renewed := bytes != [] && (Trusted(c, length, chunkSize) || held != c.held);
      Cursor(next, held, status == Failed || (c.lost && !renewed))
    case At(position) =>
      c.(pos := if position.Some? then position.value else c.pos)
  }

  predicate Halted(answer: Answer)
  {
    answer.Got? && (answer.status == Stuck || answer.status == Panicked)
  }

  /** The answers to a run of operations: every seek is right, and every read from a position the
      caller can trust is. The run ends early only in a read that does not return. */
  ghost predicate Served(reader: ObjectReader, value: seq<Byte>, c: Cursor, ops: seq<Op>, answers: seq<Answer>)
    requires reader.layout.chunkSize > 0
    decreases |ops|
  {
    if ops == [] then answers == []
    else
      && answers != [] && AnswersOne(reader, value, c, ops[0], answers[0])
      && if Halted(answers[0]) then |answers| == 1
         else Served(reader, value, Moved(c, |value|, reader.layout.chunkSize, answers[0]), ops[1..], answers[1..])
  }

  ghost predicate AnswersOne(reader: ObjectReader, value: seq<Byte>, c: Cursor, op: Op, answer: Answer)
    requires reader.layout.chunkSize > 0
  {
    match op
    case ReadBytes(n) =>
      && answer.Got?
      && (Trusted(c, |value|, reader.layout.chunkSize) ==> reader.Right(value, c.pos, n, answer.bytes, answer.status))
    case SeekTo(offset, whence) =>
      answer == At(SeekTarget(|value|, c.pos, offset, whence))
  }

  /** The reader is where the caller thinks, and holds the chunk it should unless a read has failed. */
  ghost predicate Follows(reader: ObjectReader, c: Cursor)
    reads reader
  {
    reader.pos == c.pos && reader.index == c.held && (!c.lost ==> reader.Buffered())
  }

  /** A read from a buffer that does not fit its position is right only by chance: where the bytes
      it finds there are those of the value. */
  lemma RightByChance(reader: ObjectReader, value: seq<Byte>, was: seq<Byte>, at: nat, inside: nat, n: nat,
                      bytes: seq<Byte>, status: Status)
    requires n > 0 && Astray(was, inside, n, bytes, status) && reader.Right(value, at, n, bytes, status)
    ensures inside < |was|
    ensures var first := Min(n, |was| - inside);
            at + first <= |value| && was[inside..inside + first] == value[at..at + first]
  {
    var first := Min(n, |was| - inside);
    assert bytes[..first] == value[at..at + |bytes|][..first];
  }

  method Serve(reader: ObjectReader, ghost value: seq<Byte>, ghost c: Cursor, ops: seq<Op>)
      returns (answers: seq<Answer>)
    requires reader.Ready(value) && Follows(reader, c) && reader.layout.chunkSize > 0
    modifies reader
    ensures Served(reader, value, c, ops, answers)
    decreases |ops|
  {
    if ops == [] {
      return [];
    }
    var answer := ServeOne(reader, value, c, ops[0]);
    if Halted(answer) {
      return [answer];
    }
    var rest := Serve(reader, value, Moved(c, |value|, reader.layout.chunkSize, answer), ops[1..]);
    answers := [answer] + rest;
    assert answers[1..] == rest;
  }

  method ServeOne(reader: ObjectReader, ghost value: seq<Byte>, ghost c: Cursor, op: Op) returns (answer: Answer)
    requires reader.Ready(value) && Follows(reader, c) && reader.layout.chunkSize > 0
    modifies reader
    ensures reader.Ready(value) && AnswersOne(reader, value, c, op, answer)
    ensures !Halted(answer) ==> Follows(reader, Moved(c, |value|, reader.layout.chunkSize, answer))
  {
    hide ObjectReader.Buffered, ObjectReader.Holds, ObjectReader.LeftBy, ObjectReader.Undecodable, ChunkAt, Astray;
    reader.SameLength(value);
    reader.BufferedIsFresh();
    match op {
      case ReadBytes(n) =>
        var bytes, status := reader.Read(n, value);
        answer := Got(bytes, status);
      case SeekTo(offset, whence) =>
        var at := reader.Seek(offset, whence);
        answer := At(at);
    }
  }

  /** With every chunk intact no read fails, so the answer is the one of the value itself. */
  lemma IntactOne(reader: ObjectReader, value: seq<Byte>, c: Cursor, op: Op, answer: Answer)
    requires reader.layout.chunkSize > 0 && reader.Intact() && !c.lost && c.pos <= |value|
    requires AnswersOne(reader, value, c, op, answer)
    ensures answer == Answered(value, c.pos, op).0 && !Halted(answer)
    ensures var next := Moved(c, |value|, reader.layout.chunkSize, answer);
            !next.lost && next.pos == Answered(value, c.pos, op).1 <= |value|
  {
    hide ChunkAt, ObjectReader.Contents, ObjectReader.Readable;
  }

  lemma {:induction false} IntactAnswers(reader: ObjectReader, value: seq<Byte>, c: Cursor, ops: seq<Op>,
                                         answers: seq<Answer>)
    requires reader.layout.chunkSize > 0 && reader.Intact() && !c.lost && c.pos <= |value|
    requires Served(reader, value, c, ops, answers)
    ensures answers == Answers(value, c.pos, ops)
    decreases |ops|
  {
    hide AnswersOne, Moved, Halted, Answered, ObjectReader.Intact;
    if ops != [] {
      IntactOne(reader, value, c, ops[0], answers[0]);
      var next := Moved(c, |value|, reader.layout.chunkSize, answers[0]);
      IntactAnswers(reader, value, next, ops[1..], answers[1..]);
      assert answers == [answers[0]] + answers[1..];
    }
  }

  /** A written object, stored and parsed, answers every sequence of reads and seeks as the
      original bytes would. */
  method ReadBack(value: seq<Byte>, codec: Codec, ops: seq<Op>) returns (answers: seq<Answer>)
    requires Lawful(codec) && Compresses(value, codec, CountOf(|value|, CHUNK))
    requires |value| <= MAX_INT64 && CountOf(|value|, CHUNK) <= MAX_UINT32
    ensures answers == Answers(value, 0, ops)
  {
    hide Lawful, Compresses, ObjectBytes, LayoutOf, Describes, Tiles, Answers, Decode, Served;
    var file := WriteObject(value, true, |value|, codec);
    WrittenDescribes(value, codec);
    WrittenTiles(value, codec);
    var layout := ReadLayout(file.value, |file.value|);
    var reader := new ObjectReader(file.value, layout.value, codec);
    WrittenHolds(value, codec, reader);
    reader.SameLength(value);
    answers := Serve(reader, value, Cursor(0, -1, false), ops);
    IntactAnswers(reader, value, Cursor(0, -1, false), ops, answers);
  }

  lemma WrittenHolds(value: seq<Byte>, codec: Codec, reader: ObjectReader)
    requires Lawful(codec) && |value| <= MAX_INT64 && CountOf(|value|, CHUNK) <= MAX_UINT32
    requires reader.source == ObjectBytes(value, codec) && reader.layout == LayoutOf(value, codec)
    requires reader.codec == codec
    ensures reader.Holds(value) && reader.Intact()
  {
    hide ObjectBytes, Lawful, Decode, Slice, ChunkOf, Tiles;
    WrittenTiles(value, codec);
    forall i: nat | i < |reader.layout.chunks|
      ensures i * CHUNK < |value| && reader.Contents(i) == Some(Slice(value, CHUNK, i))
    {
      WrittenDecodes(value, codec, i);
    }
  }

  // ----- a read that goes astray ------------------------------------------------------------

  /** Never compresses; the checksum tells [1] from everything else. */
  const PLAIN := Codec(_ => Bytes([]), (_, _) => None, d => if d == [1] then 1 else 0)

  function Zeroes(n: nat): (s: seq<Byte>)
    ensures |s| == n
  {
    seq(n, _ => 0)
  }

  /** One full chunk and one byte, all zero, written to a file whose last byte was changed since. */
  function DamagedFile(): seq<Byte>
  {
    var file := ObjectBytes(Zeroes(CHUNK + 1), PLAIN);
    if file == [] then [] else file[|file| - 1 := 1]
  }

  lemma ExampleLayout()
    ensures var l := LayoutOf(Zeroes(CHUNK + 1), PLAIN);
            && |l.chunks| == 2 && l.length == CHUNK + 1 && l.chunkSize == CHUNK
            && l.chunks[0] == Chunk(RAW, HEADER + 2 * ENTRY, CHUNK, CHUNK, 0)
            && l.chunks[1] == Chunk(RAW, HEADER + 2 * ENTRY + CHUNK, 1, 1, 0)
            && |DamagedFile()| == HEADER + 2 * ENTRY + CHUNK + 1
            && DamagedFile()[HEADER + 2 * ENTRY..HEADER + 2 * ENTRY + CHUNK] == Zeroes(CHUNK)
            && DamagedFile()[HEADER + 2 * ENTRY + CHUNK..] == [1]
  {
    hide HeaderBytes, TableBytes;
    var value := Zeroes(CHUNK + 1);
    assert CountOf(|value|, CHUNK) == 2;
    assert value[CHUNK..CHUNK + 1] == [value[CHUNK]];
    assert Slice(value, CHUNK, 0) == Zeroes(CHUNK) && Slice(value, CHUNK, 1) == [0];
    assert DataOf(value, PLAIN, 1) == Zeroes(CHUNK);
    assert DataOf(value, PLAIN, 2) == Zeroes(CHUNK) + [0];
  }

  lemma ExampleContents(reader: ObjectReader)
    requires reader.source == DamagedFile() && reader.codec == PLAIN
    requires reader.layout == LayoutOf(Zeroes(CHUNK + 1), PLAIN)
    ensures |reader.layout.chunks| == 2
    ensures reader.Contents(0) == Some(Zeroes(CHUNK)) && reader.Contents(1) == None
    ensures forall left :: reader.LeftBy(1, left) ==> left == [1]
  {
    hide DamagedFile, LayoutOf;
    ExampleLayout();
  }

  lemma ExampleHolds(reader: ObjectReader)
    requires reader.source == DamagedFile() && reader.codec == PLAIN
    requires reader.layout == LayoutOf(Zeroes(CHUNK + 1), PLAIN)
    ensures reader.Holds(Zeroes(CHUNK + 1))
    ensures !reader.Undecodable(0) && reader.Undecodable(CHUNK)
  {
    hide DamagedFile, LayoutOf, Tiles, ObjectReader.Contents, ObjectReader.LeftBy, ObjectBytes;
    ExampleLayout();
    ExampleContents(reader);
    var value := Zeroes(CHUNK + 1);
    WrittenTiles(value, PLAIN);
    assert Slice(value, CHUNK, 0) == Zeroes(CHUNK);
  }

  /** A byte of chunk 0 is read, a read in chunk 1 fails, and chunk 0 is read again: its first byte
      comes back as 1 instead of 0, its second never, and any other panics. */
  method ReadAfterFailure(at: nat) returns (answers: seq<Answer>)
    requires at < CHUNK
    ensures |answers| == 5 && answers[0] == Got([0], More) && answers[2] == Got([], Failed)
    ensures answers[4] == if at == 0 then Got([1], More) else Got([], if at == 1 then Stuck else Panicked)
  {
    hide DamagedFile, LayoutOf, ObjectReader.Holds, ObjectReader.Undecodable, ObjectReader.LeftBy,
         ObjectReader.Contents, ObjectReader.Readable;
    ghost var value := Zeroes(CHUNK + 1);
    ExampleLayout();
    var reader := new ObjectReader(DamagedFile(), LayoutOf(Zeroes(CHUNK + 1), PLAIN), PLAIN);
    ExampleHolds(reader);
    ExampleContents(reader);
    var bytes0, status0 := reader.Read(1, value);
    var at1 := reader.Seek(CHUNK, Start);
    var bytes2, status2 := reader.Read(1, value);
    var at3 := reader.Seek(at, Start);
    assert reader.data == [1] && |reader.data| != |Zeroes(CHUNK)|;
    var bytes4, status4 := reader.Read(1, value);
    answers := [Got(bytes0, status0), At(at1), Got(bytes2, status2), At(at3), Got(bytes4, status4)];
  }
}
