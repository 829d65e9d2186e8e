/** Serving a range from a stored response: the body readers and the rewriting of the response. */
module RangeServing {
  import opened Common
  import opened RangeRequest
  import opened ObjectFormat
  import opened ObjectLayout
  import opened ObjectReading

  function Between(data: Bytes, from: nat, to: nat): (part: Bytes)
    requires from <= to <= |data|
    ensures |part| == to - from
  {
    data[from..to]
  }

  lemma BetweenSplit(data: Bytes, a: nat, b: nat, c: nat)
    requires a <= b <= c <= |data|
    ensures Between(data, a, b) + Between(data, b, c) == Between(data, a, c)
  {
  }

  /** A part of a part. */
  lemma BetweenBetween(data: Bytes, a: nat, b: nat, from: nat, to: nat)
    requires a <= b <= |data| && from <= to <= b - a
    ensures Between(Between(data, a, b), from, to) == Between(data, a + from, a + to)
  {
    forall i | 0 <= i < to - from
      ensures data[a..b][from..to][i] == data[a + from..a + to][i]
    {
    }
  }

  /** How a read of a body ends: with what there is, at the end, or at a damaged chunk. */
  datatype Delivery = Delivered | Ended | Broken

  /** The body of a stored response: the bytes of the object from where the header ends. */
  class PooledBody {
    const reader: ObjectReader
    const seekable: bool
    const bodyStart: nat
    const length: nat
    ghost const value: Bytes  // what the object holds
    var remaining: nat

    ghost predicate Valid()
      reads this, reader
    {
      && reader.Ready(value) && reader.Buffered() && bodyStart + length <= |value| && remaining <= length
      && reader.pos == bodyStart + Pos()
    }

    ghost function Pos(): int
      reads this`remaining
    {
      length - remaining
    }

    ghost function Data(): (data: Bytes)
      requires bodyStart + length <= |value|
      ensures |data| == length
    {
      Between(value, bodyStart, bodyStart + length)
    }

    constructor (reader: ObjectReader, seekable: bool, bodyStart: nat, length: nat, ghost value: Bytes)
      requires reader.Ready(value) && reader.Buffered() && bodyStart + length <= |value| && reader.pos == bodyStart
      ensures Valid() && Pos() == 0 && this.reader == reader && this.seekable == seekable
      ensures this.bodyStart == bodyStart && this.length == length && this.value == value
    {
      this.reader, this.seekable, this.bodyStart, this.length := reader, seekable, bodyStart, length;
      this.value, remaining := value, length;
    }

    /** Delivers the next bytes: as many as asked for and there are, and fewer exactly before a chunk
        that cannot be decoded. After that the body is not read again. */
    method Read(n: nat) returns (bytes: Bytes, status: Delivery)
      requires Valid()
      modifies this`remaining, reader
      ensures status != Broken ==> Valid()
      ensures 0 <= old(Pos()) <= Pos() <= length && bytes == Between(Data(), old(Pos()), Pos())
      ensures status == Ended <==> old(remaining) == 0
      ensures status == Delivered ==> |bytes| == Min(n, old(remaining))
      ensures status == Broken ==> |bytes| < Min(n, old(remaining)) && reader.Undecodable(bodyStart + Pos())
    {
      hide ObjectReader.Holds, ObjectReader.Buffered, ObjectReader.Readable, ObjectReader.Undecodable;
      hide ObjectReader.LeftBy, ObjectReader.Contents;
      if remaining == 0 {
        return [], Ended;
      }
      reader.BufferedIsFresh();
      ghost var at := reader.pos;
      var outcome;
      bytes, outcome := reader.Read(Min(n, remaining), value);
      PartOfBody(value, bodyStart, bodyStart + length, at, at + |bytes|);
      remaining := remaining - |bytes|;
      status := if outcome == More then Delivered else Broken;
    }

    /** Goes to a place in the body, where the object can be positioned. The place is counted from the
        beginning, the rest from where the body is: they fit if and only if nothing was read before. */
    method SeekBody(offset: nat) returns (ok: bool)
      requires Valid()
      modifies this`remaining, reader`pos
      ensures ok == (seekable && offset <= old(remaining))
      ensures reader.pos == (if ok then bodyStart + offset else old(reader.pos))
      ensures remaining == old(remaining) - (if ok then offset else 0)
      ensures Valid() <==> !ok || old(Pos()) == 0
    {
      reader.SameLength(value);
      if !seekable || offset > remaining {
        return false;
      }
      var _ := reader.Seek(bodyStart + offset, Start);
      remaining := remaining - offset;
      return true;
    }
  }

  lemma PartOfBody(value: Bytes, start: nat, end: nat, from: nat, to: nat)
    requires start <= from <= to <= end <= |value|
    ensures value[from..to] == Between(Between(value, start, end), from - start, to - start)
  {
    BetweenBetween(value, start, end, from - start, to - start);
  }

  /** A part of a body: some bytes are skipped before the first read, and then so many are left. */
  class RangedBody {
    const body: PooledBody
    var skip: nat
    var remaining: nat
    var closed: bool

    ghost predicate Valid()
      reads this, body, body.reader
    {
      closed || (body.Valid() && body.Pos() + skip + remaining <= body.length && (skip > 0 ==> remaining > 0))
    }

    /** What this body has yet to deliver. */
    ghost function Rest(): Bytes
      requires Valid()
      reads this, body, body.reader
    {
      if closed then [] else Between(body.Data(), body.Pos() + skip, body.Pos() + skip + remaining)
    }

    constructor (body: PooledBody, skip: nat, remaining: nat)
      requires body.Valid() && body.Pos() + skip + remaining <= body.length && remaining > 0
      ensures Valid() && this.body == body && !closed
      ensures Rest() == Between(body.Data(), body.Pos() + skip, body.Pos() + skip + remaining)
    {
      hide PooledBody.Valid, Between;
      this.body, this.skip, this.remaining := body, skip, remaining;
      closed := false;
    }

    /** Reads and drops the bytes before the part, in pieces of any size. */
    method SkipAhead(piece: nat) returns (ok: bool)
      requires Valid() && !closed && piece > 0
      modifies this`skip, body`remaining, body.reader
      ensures ok ==> Valid() && skip == 0 && body.Pos() == old(body.Pos()) + old(skip)
      ensures !ok ==> !body.reader.Intact()
    {
      hide PooledBody.Data, PooledBody.Valid, Between, ObjectReader.Intact, ObjectReader.Undecodable;
      InBody(body);
      while skip > 0
        invariant Valid() && body.Pos() + skip == old(body.Pos()) + old(skip)
      {
        var bytes, status := body.Read(Min(skip, piece));
        if status == Broken {
          Damaged(body.reader, body.bodyStart + body.Pos());
          return false;
        }
        skip := skip - |bytes|;
      }
      ok := true;
    }

    /** Delivers the next bytes of the part: some if any are left and asked for, never more. A damaged
        chunk ends it; what was delivered before is right. */
    method Read(n: nat, piece: nat) returns (bytes: Bytes, status: Delivery)
      requires Valid() && piece > 0
      modifies this, body`remaining, body.reader
      ensures Valid() && |bytes| <= n
      ensures status != Broken ==> bytes + Rest() == old(Rest())
      ensures status == Ended <==> old(Rest()) == []
      ensures n > 0 && status == Delivered ==> bytes != []
      ensures status == Broken ==> closed && bytes < old(Rest()) && !body.reader.Intact()
    {
      hide Between, PooledBody.Data, PooledBody.Valid, ObjectReader.Intact, ObjectReader.Undecodable;
      if closed {
        return [], Ended;
      }
      InBody(body);
      if skip > 0 {
        var ok := SkipAhead(piece);
        if !ok {
          closed := true;
          return [], Broken;
        }
      }
      if remaining == 0 {
        closed := true;
        return [], Ended;
      }
      bytes, status := Take(Min(n, remaining));
    }

    method Take(count: nat) returns (bytes: Bytes, status: Delivery)
      requires Valid() && !closed && skip == 0 && count <= remaining && remaining > 0
      modifies this`remaining, this`closed, body`remaining, body.reader
      ensures Valid() && |bytes| <= count && status != Ended
      ensures status == Delivered ==> bytes + Rest() == old(Rest()) && |bytes| == count
      ensures status == Broken ==> closed && bytes < old(Rest()) && !body.reader.Intact()
    {
      hide Between, PooledBody.Data, PooledBody.Valid, ObjectReader.Intact, ObjectReader.Undecodable;
      ghost var at, end := body.Pos(), body.Pos() + remaining;
      InBody(body);
      bytes, status := body.Read(count);
      BetweenSplit(body.Data(), at, body.Pos(), end);
      remaining := remaining - |bytes|;
      if status == Broken {
        Damaged(body.reader, body.bodyStart + body.Pos());
      }
      if status != Delivered || remaining == 0 {
        closed := true;
      }
    }
  }

  lemma InBody(body: PooledBody)
    requires body.Valid()
    ensures 0 <= body.Pos() <= body.length && body.bodyStart + body.length <= |body.value|
  {
  }

  lemma Damaged(reader: ObjectReader, p: nat)
    requires reader.Undecodable(p)
    ensures !reader.Intact()
  {
  }

  // ----- rewriting the response -------------------------------------------------------------

  /** The length headers of a stored response: a complete one by its content length, or one that is
      itself a part of a representation. */
  datatype Stored = Complete(length: nat) | Part(first: nat, last: nat, total: nat) | NoLength

  datatype Extent = Extent(first: nat, last: nat, total: nat)

  /** Which bytes of the representation the stored body has. */
  function ExtentOf(stored: Stored): Option<Extent>
  {
    match stored {
      case Complete(length) => if length == 0 then None else Some(Extent(0, length - 1, length))
      case Part(first, last, total) =>
        if total > 0 && first <= last && last < total then Some(Extent(first, last, total)) else None
      case NoLength => None
    }
  }

  /** The stored body is that part of the representation. */
  ghost predicate IsPartOf(body: Bytes, e: Extent, representation: Bytes)
  {
    |representation| == e.total && e.first <= e.last < e.total && body == Between(representation, e.first, e.last + 1)
  }

  /** A stored response has an extent exactly when its headers can be true of a body: the whole of a
      representation that is not empty, or the part they name. */
  lemma ExtentMeaning(stored: Stored, e: Extent)
    ensures ExtentOf(stored) == Some(e) <==>
              exists body, representation ::
                IsPartOf(body, e, representation) && Describes(stored, e, body, representation)
  {
    if ExtentOf(stored) == Some(e) {
      var representation: Bytes := seq(e.total, _ => 0);
      var body := Between(representation, e.first, e.last + 1);
      assert Describes(stored, e, body, representation);
    }
  }

  /** The headers are true of this body of a representation. */
  ghost predicate Describes(stored: Stored, e: Extent, body: Bytes, representation: Bytes)
  {
    match stored
    case Complete(length) => body == representation && length == |body|
    case Part(first, last, total) => e == Extent(first, last, total)
    case NoLength => false
  }

  datatype Answer =
    | Unchanged                                                                  // the stored response as it is
    | Partial(start: nat, end: nat, total: nat, contentLength: nat, body: RangedBody)  // 206
    | NotSatisfiable(total: nat)                                                 // 416, empty body

  /** The range of the representation, if it has to be cut out of this stored body. */
  ghost function Wanted(stored: Stored, s: Spec): Option<(nat, nat)>
    requires ValidSpec(s)
  {
    var e := ExtentOf(stored);
    if e.None? then None else Resolve(s, e.value.total)
  }

  /** Answers a range from a stored body: with exactly the selected bytes and their number as the
      length, with 416 when the range starts past the end, and with the stored response when it
      has no usable length or the selected bytes are not all in it. */
  method ApplyRange(stored: Stored, body: PooledBody, s: Spec, ghost representation: Bytes) returns (answer: Answer)
    requires ValidSpec(s) && body.Valid() && body.Pos() == 0
    requires ExtentOf(stored).Some? ==> IsPartOf(body.Data(), ExtentOf(stored).value, representation)
    modifies body`remaining, body.reader`pos
    ensures answer == Unchanged <==>
              || ExtentOf(stored).None?
              || (Wanted(stored, s).Some? && !Inside(ExtentOf(stored).value, Wanted(stored, s).value))
    ensures answer.NotSatisfiable? <==> ExtentOf(stored).Some? && Wanted(stored, s).None?
    ensures answer.NotSatisfiable? ==> answer.total == |representation|
    ensures answer.Partial? ==>
              && fresh(answer.body) && answer.body.body == body && answer.body.Valid()
              && Wanted(stored, s) == Some((answer.start, answer.end)) && answer.total == |representation|
              && answer.start <= answer.end < |representation|
              && answer.body.Rest() == Between(representation, answer.start, answer.end + 1)
              && answer.contentLength == |answer.body.Rest()|
  {
    hide Between, PooledBody.Valid, PooledBody.Data, RangedBody.Valid, RangedBody.Rest;
    InBody(body);
    var e := ExtentOf(stored);
    if e.None? {
      return Unchanged;
    }
    var total := e.value.total;
    var start, end := s.start, s.end;
    if s.suffix > 0 {
      start := if s.suffix >= total then 0 else total - s.suffix;
      end := total - 1;
    }
    if start >= total {
      return NotSatisfiable(total);
    }
    end := Min(end, total - 1);
    assert Wanted(stored, s) == Some((start, end));
    if start < e.value.first || start > e.value.last || end > e.value.last {
      return Unchanged;
    }
    var part := CutOut(body, e.value, start, end, representation);
    return Partial(start, end, total, end - start + 1, part);
  }

  /** The part of a stored body that holds these bytes of the representation. */
  method CutOut(body: PooledBody, e: Extent, start: nat, end: nat, ghost representation: Bytes)
      returns (part: RangedBody)
    requires body.Valid() && body.Pos() == 0 && IsPartOf(body.Data(), e, representation)
    requires e.first <= start <= end <= e.last
    modifies body`remaining, body.reader`pos
    ensures fresh(part) && part.body == body && part.Valid()
    ensures part.Rest() == Between(representation, start, end + 1)
  {
    hide Between, PooledBody.Valid, PooledBody.Data;
    InBody(body);
    var length, skip := end - start + 1, start - e.first;
    BetweenBetween(representation, e.first, e.last + 1, skip, skip + length);
    if body.seekable {
      var _ := body.SeekBody(skip);
      skip := 0;
    }
    part := new RangedBody(body, skip, length);
  }

  predicate Inside(e: Extent, range: (nat, nat))
  {
    e.first <= range.0 && range.1 <= e.last
  }

  /** Reading with any sizes gives the selected bytes in order; all of them when it gets to the end,
      and less only before a damaged chunk. */
  method Drain(part: RangedBody, sizes: seq<(nat, nat)>) returns (all: Bytes, done: bool)
    requires part.Valid() && forall i :: 0 <= i < |sizes| ==> sizes[i].0 > 0 && sizes[i].1 > 0
    modifies part, part.body`remaining, part.body.reader
    ensures all <= old(part.Rest()) && (done ==> all == old(part.Rest()))
    ensures |sizes| > old(|part.Rest()|) && part.body.reader.Intact() ==> done
  {
    hide RangedBody.Rest, RangedBody.Valid, ObjectReader.Intact;
    all, done := [], false;
    var i := 0;
    while i < |sizes| && !done
      invariant 0 <= i <= |sizes| && part.Valid() && all + part.Rest() == old(part.Rest())
      invariant done ==> part.Rest() == []
      invariant !done ==> i <= |all|
    {
      var bytes, status := part.Read(sizes[i].0, sizes[i].1);
      if status == Broken {
        PrefixOf(all, bytes, old(part.Rest()));
        return all + bytes, false;
      }
      assert all + bytes + part.Rest() == all + (bytes + part.Rest());
      all := all + bytes;
      done := status == Ended;
      i := i + 1;
    }
  }

  /** What a Range header selects from a representation of this length. */
  ghost function Selected(header: string, total: nat): (range: Option<(nat, nat)>)
    requires Parse(header).Some? && total > 0
    ensures range.Some? ==> range.value.0 <= range.value.1 < total
  {
    ParsedIsValid(header);
    Resolve(Parse(header).value, total)
  }

  /** A request with a parsed Range header, answered from an open object with a response header and a
      complete body: 206 with the selected bytes and their number, or an empty 416 when the range
      starts past the end. Damage to the object can cut the body short, not change it. */
  method Serve(header: string, reader: ObjectReader, ghost head: Bytes, ghost representation: Bytes, bodyStart: nat,
               length: nat, seekable: bool, sizes: seq<(nat, nat)>)
    returns (status: nat, contentLength: nat, body: Bytes, done: bool)
    requires representation != [] && Parse(header).Some? && bodyStart == |head| && length == |representation|
    requires reader.Ready(head + representation) && reader.Buffered()
    requires forall i :: 0 <= i < |sizes| ==> sizes[i].0 > 0 && sizes[i].1 > 0
    modifies reader
    ensures status == 416 <==> Parse(header).value.suffix == 0 && Parse(header).value.start >= |representation|
    ensures status == 416 ==> contentLength == 0 && body == [] && done
    ensures status != 416 ==> status == 206 && Selected(header, |representation|).Some?
    ensures status == 206 ==>
              var (start, end) := Selected(header, |representation|).value;
              var selected := Between(representation, start, end + 1);
              && contentLength == |selected| && body <= selected && (done ==> body == selected)
              && (reader.Intact() && |sizes| > contentLength ==> done)
  {
    ParsedIsValid(header);
    hide Between, Parse, ObjectReader.Holds, ObjectReader.Buffered, ObjectReader.Intact;
    ghost var value := head + representation;
    reader.SameLength(value);
    var _ := reader.Seek(bodyStart, Start);
    var stored := new PooledBody(reader, seekable, bodyStart, length, value);
    BehindHead(head, representation);
    BetweenAll(representation);
    var answer := ApplyRange(Complete(length), stored, Parse(header).value, representation);
    if answer.NotSatisfiable? {
      return 416, 0, [], true;
    }
    status, contentLength := 206, answer.contentLength;
    body, done := Drain(answer.body, sizes);
  }

  lemma BetweenAll(data: Bytes)
    ensures Between(data, 0, |data|) == data
  {
  }

  lemma BehindHead(head: Bytes, rest: Bytes)
    ensures Between(head + rest, |head|, |head| + |rest|) == rest
  {
  }

  lemma PrefixOf(all: Bytes, bytes: Bytes, whole: Bytes)
    requires all <= whole && bytes <= whole[|all|..]
    ensures all + bytes <= whole
  {
  }

  /** From the header of a request to the bytes of the file: a response that was written as an object,
      parsed and opened again gives every range exactly the selected bytes of its body. */
  method ServeStored(head: Bytes, representation: Bytes, codec: Codec, header: string, seekable: bool,
                     sizes: seq<(nat, nat)>)
    returns (status: nat, contentLength: nat, body: Bytes)
    requires representation != [] && Parse(header).Some?
    requires var value := head + representation;
             && Lawful(codec) && |value| <= MAX_INT64 && CountOf(|value|, CHUNK) <= MAX_UINT32
             && Compresses(value, codec, CountOf(|value|, CHUNK))
    requires forall i :: 0 <= i < |sizes| ==> sizes[i].0 > 0 && sizes[i].1 > 0
    ensures var range := Selected(header, |representation|);
            if range.None? then status == 416 && contentLength == 0 && body == []
            else
              var selected := Between(representation, range.value.0, range.value.1 + 1);
              && status == 206 && contentLength == |selected| && body <= selected
              && (|sizes| > |selected| ==> body == selected)
  {
    hide Parse, Lawful, Compresses, Between, ObjectBytes, LayoutOf, Describes, Tiles, Decode, Resolve;
    var value := head + representation;
    var file := WriteObject(value, true, |value|, codec);
    WrittenDescribes(value, codec);
    WrittenTiles(value, codec);
    var layout := ReadLayout(file.value, |file.value|);
    var reader := new ObjectReader(file.value, layout.value, codec);
    WrittenHolds(value, codec, reader);
    ParsedIsValid(header);
    var done;
    status, contentLength, body, done :=
      Serve(header, reader, head, representation, |head|, |representation|, seekable, sizes);
  }
}
