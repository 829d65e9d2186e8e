/** The response writer between an origin and a client: it spools, streams or encodes what the
    origin writes, within limits, and the client must not notice. */
module Capture {
  import opened Common
  import opened CacheModel
  import opened Reservations

  /** What the client has received: final headers, by their status, and body bytes. */
  class Client {
    var finals: seq<nat>
    var interims: seq<nat>
    var body: Bytes

    constructor ()
      ensures finals == [] && interims == [] && body == []
    {
      finals, interims, body := [], [], [];
    }
  }

  /** What the streaming hook decides from the response's headers. */
  datatype Plan = NotCacheable | Spool | Encode(headerBytes: nat)

  /** What a call finds: the declared length, the hook's decision, and the disk usage. */
  datatype Context = Context(declared: nat, plan: Plan, usage: Usage)

  predicate Informational(status: nat)
  {
    100 <= status < 200 && status != 101
  }

  class Response {
    const ledger: Ledger
    const client: Client?           // none for a background refresh
    const path: Key
    const limit: nat                // zero for no limit
    const streaming: bool           // whether the streaming hook is installed
    const conditional: nat -> nat   // the status that answers the client's preconditions, or zero
    var wroteHeader: bool
    var status: nat
    var streamed: bool
    var suppressed: bool
    var discarded: bool
    var encoding: bool
    var declared: nat
    var size: nat
    var spool: Bytes
    var reserved: nat
    ghost var written: Bytes        // everything the origin wrote
    ghost var logical: nat          // the size of the object handed to the encoder

    /** The ledger has what the capture holds. */
    ghost predicate Booked()
      reads this`reserved, ledger
    {
      ledger.Valid() && path in ledger.captures && ledger.captures[path] == reserved && reserved % BLOCK == 0
    }

    /** What the capture holds covers the spool, or the object being encoded, and its encoded copy. */
    ghost predicate Holding()
      reads this, ledger
    {
      && Booked() && (!discarded && !encoding && spool != [] ==> 2 * |spool| + BLOCK <= reserved)
      && (!discarded && encoding ==> 2 * logical + BLOCK <= reserved)
    }

    function Status(): nat
      reads this`status
    {
      if status == 0 then 200 else status
    }

    /** The status the client is to get. */
    function Final(): nat
      reads this`status
    {
      if conditional(Status()) != 0 then conditional(Status()) else Status()
    }

    /** Before streaming the client has nothing and the spool has everything; from then on the
        client has one final header and everything, unless its preconditions rule out a body. */
    ghost predicate Transparent()
      reads this`size, this`written, this`wroteHeader, this`status, this`streamed, this`spool, this`discarded
      reads this`encoding, this`suppressed, client
    {
      && size == |written|
      && (!wroteHeader ==> written == [] && status == 0 && !streamed)
      && (!streamed ==> spool == written && !discarded && !encoding && !suppressed)
      && (!discarded && !encoding ==> spool == written)
      && (streamed ==> client != null && suppressed == (conditional(Status()) != 0))
      && (client != null ==>
            if streamed then client.finals == [Final()] && client.body == (if suppressed then [] else written)
            else client.finals == [] && client.body == [])
    }

    ghost predicate Valid()
      reads this, ledger, client
    {
      Holding() && Transparent()
    }

    constructor (ledger: Ledger, client: Client?, path: Key, limit: nat, streaming: bool, conditional: nat -> nat)
      requires ledger.Valid() && path !in ledger.captures
      requires client != null ==> client.finals == [] && client.body == []
      modifies ledger`captures
      ensures Valid() && written == [] && !wroteHeader && ledger.captures == old(ledger.captures)[path := 0]
      ensures this.ledger == ledger && this.client == client && this.path == path && this.limit == limit
      ensures this.streaming == streaming && this.conditional == conditional
    {
      this.ledger, this.client, this.path, this.limit := ledger, client, path, limit;
      this.streaming, this.conditional := streaming, conditional;
      wroteHeader, status, streamed, suppressed, discarded, encoding := false, 0, false, false, false, false;
      declared, size, spool, reserved, written, logical := 0, 0, [], 0, [], 0;
      new;
      ledger.Open(path);
    }

    /** Makes sure that a capture of this size is covered. */
    method ReserveCapture(total: nat, usage: Usage) returns (ok: bool)
      requires Holding()
      modifies this`reserved, ledger`captureBytes, ledger`captures, ledger`log
      ensures Holding() && old(reserved) <= reserved
      ensures ledger.captures == old(ledger.captures)[path := reserved] && old(ledger.log) <= ledger.log
      ensures ok <==> total <= LARGEST && (|| Needed(total) <= old(reserved)
                                           || Fits(usage, old(ledger.captureBytes) + Needed(total) - old(reserved)))
      ensures reserved == if ok && Needed(total) > old(reserved) then Needed(total) else old(reserved)
      ensures ledger.captureBytes - reserved == old(ledger.captureBytes) - old(reserved)
      ensures ok ==> 2 * total + BLOCK <= reserved
    {
      hide Ledger.Valid;
      if total > LARGEST {
        return false;
      }
      NeededBlocks(total);
      var needed := Needed(total);
      if needed <= reserved {
        return true;
      }
      var delta := needed - reserved;
      var granted := ledger.Reserve(path, delta, usage);
      if !granted {
        return false;
      }
      reserved := reserved + delta;
      return true;
    }

    /** Gives up the spool and the reservation. */
    method Discard()
      requires Booked()
      modifies this`discarded, this`spool, this`reserved, ledger`captureBytes, ledger`captures, ledger`log
      ensures Holding() && discarded && reserved == 0 && spool == []
      ensures ledger.captures == old(ledger.captures)[path := 0]
      ensures ledger.log == old(ledger.log) + [Return(path, old(reserved))]
      ensures ledger.captureBytes + old(reserved) == old(ledger.captureBytes)
    {
      hide Ledger.Valid;
      discarded, spool := true, [];
      ledger.Release(path, reserved);
      reserved := 0;
    }

    /** The streaming hook: it may leave the response to the spool, hand it to an encoder, or give
        up capturing. The encoder gets a response only with room for the whole object and its encoded
        copy. */
    method Prepare(context: Context)
      requires Holding() && spool == [] && !discarded && !encoding && !suppressed
      modifies this`suppressed, this`discarded, this`encoding, this`logical, this`spool, this`reserved
      modifies ledger`captureBytes
      modifies ledger`captures, ledger`log
      ensures ledger.captures == old(ledger.captures)[path := reserved] && old(ledger.log) <= ledger.log
      ensures Holding() && spool == [] && suppressed == (conditional(Status()) != 0)
      ensures encoding ==> && context.plan.Encode? && !discarded && (limit == 0 || declared <= limit)
                           && 2 * (context.plan.headerBytes + declared) + BLOCK <= reserved
      ensures discarded ==> reserved == 0
      ensures !discarded && !encoding <==> conditional(Status()) == 0 && context.plan.Spool?
      ensures encoding <==> && conditional(Status()) == 0 && context.plan.Encode? && (limit == 0 || declared <= limit)
                            && var total := context.plan.headerBytes + declared;
                            && total <= LARGEST
                            && (|| Needed(total) <= old(reserved)
                                || Fits(context.usage, old(ledger.captureBytes) + Needed(total) - old(reserved)))
      ensures !discarded && !encoding ==> reserved == old(reserved) && ledger.captureBytes == old(ledger.captureBytes)
    {
      hide Ledger.Valid;
      if conditional(Status()) != 0 {
        suppressed := true;
        Discard();
        return;
      }
      match context.plan {
        case Encode(headerBytes) =>
          var ok := false;
          if limit == 0 || declared <= limit {
            ok := ReserveCapture(headerBytes + declared, context.usage);
          }
          if ok {
            encoding, logical := true, headerBytes + declared;
          } else {
            Discard();
          }
        case NotCacheable => Discard();
        case Spool =>
      }
    }

    /** The first final status counts; interim ones go to the client as they are. */
    method WriteHeader(code: nat, context: Context)
      requires Valid() && code != 0
      modifies this, ledger`captureBytes, ledger`captures, ledger`log, client
      ensures Valid() && written == old(written)
      ensures ledger.captures == old(ledger.captures)[path := reserved] && old(ledger.log) <= ledger.log
      ensures wroteHeader == (old(wroteHeader) || code < 100 || code >= 200 || code == 101)
      ensures Status() == if old(wroteHeader) || Informational(code) then old(Status()) else code
      ensures !discarded && !encoding <==>
                && !old(discarded) && !old(encoding)
                && (old(wroteHeader) || Informational(code) || !streaming || client == null ||
                    (conditional(code) == 0 && context.plan.Spool?))
      ensures !discarded && !encoding ==> reserved == old(reserved) && ledger.captureBytes == old(ledger.captureBytes)
      ensures declared == if old(wroteHeader) || Informational(code) then old(declared) else context.declared
    {
      hide Ledger.Valid;
      if wroteHeader {
        return;
      }
      if Informational(code) {
        if client != null {
          client.interims := client.interims + [code];
        }
        return;
      }
      wroteHeader := true;
      status := code;
      declared := context.declared;
      if streaming && client != null {
        Prepare(context);
        client.finals := client.finals + [Final()];
        streamed := true;
      }
    }

    /** Capturing ends, and the client gets what was spooled so far. A background refresh has no
        client: it fails and keeps its spool. */
    method StopCapture() returns (ok: bool)
      requires Valid() && wroteHeader && !discarded && !encoding
      modifies this, ledger`captureBytes, ledger`captures, ledger`log, client
      ensures Valid() && written == old(written) && wroteHeader && status == old(status)
      ensures ledger.captures == old(ledger.captures)[path := reserved] && old(ledger.log) <= ledger.log
      ensures ok <==> client != null
      ensures !encoding && (ok ==> discarded && streamed)
      ensures !ok ==> reserved == old(reserved) && discarded == old(discarded) && spool == old(spool)
    {
      hide Ledger.Valid;
      if !streamed {
        if client == null {
          return false;
        }
        if conditional(Status()) != 0 {
          suppressed := true;
        }
        client.finals := client.finals + [Final()];
        streamed := true;
        if !suppressed {
          client.body := client.body + spool;
        }
      }
      Discard();
      return true;
    }

    /** The limit, the arithmetic and the budgets leave room for a capture of this size. */
    ghost predicate Roomy(total: nat, declared: nat, usage: Usage)
      reads this`reserved, ledger
    {
      && (limit == 0 || (total <= limit && declared <= limit)) && total <= LARGEST
      && (Needed(total) <= reserved || Fits(usage, ledger.captureBytes + Needed(total) - reserved))
    }

    /** Room for a write in the spool, or the end of capturing. */
    method MakeRoom(length: nat, context: Context) returns (ok: bool)
      requires Valid() && wroteHeader && !discarded && !encoding
      modifies this, ledger`captureBytes, ledger`captures, ledger`log, client
      ensures Valid() && written == old(written) && wroteHeader && status == old(status) && !encoding
      ensures ledger.captures == old(ledger.captures)[path := reserved] && old(ledger.log) <= ledger.log
      ensures !ok ==> client == null
      ensures ok && !discarded ==> 2 * (|spool| + length) + BLOCK <= reserved
      ensures ok && !discarded <==> old(Roomy(size + length, declared, context.usage))
      ensures ok && !discarded ==>
                ledger.captureBytes - reserved == old(ledger.captureBytes) - old(reserved) && declared == old(declared)
    {
      hide Transparent, Holding;
      SpoolIsAll();
      var total := size + length;
      var fits := limit == 0 || (total <= limit && declared <= limit);
      if fits {
        fits := ReserveCapture(total, context.usage);
      }
      ok := true;
      if !fits {
        ok := StopCapture();
      }
    }

    lemma NotStarted()
      requires Transparent() && !wroteHeader
      ensures Status() == 200 && !discarded && !encoding
    {
    }

    lemma SpoolIsAll()
      requires Transparent() && !discarded && !encoding
      ensures size == |spool| && spool == written
    {
    }

    /** One write of the origin. It fails only in a background refresh that may not go on. */
    method Write(value: Bytes, context: Context) returns (ok: bool)
      requires Valid()
      modifies this, ledger`captureBytes, ledger`captures, ledger`log, client
      ensures Valid() && wroteHeader
      ensures ledger.captures == old(ledger.captures)[path := reserved] && old(ledger.log) <= ledger.log
      ensures Status() == if old(wroteHeader) then old(Status()) else 200
      ensures ok ==> written == old(written) + value
      ensures !ok ==> client == null && written == old(written)
      ensures ok && !discarded && !encoding <==>
                && !old(discarded) && !old(encoding)
                && (old(wroteHeader) || !streaming || client == null || (conditional(200) == 0 && context.plan.Spool?))
                && old(Roomy(size + |value|, if wroteHeader then declared else context.declared, context.usage))
      ensures ok && !discarded && !encoding ==>
                && ledger.captureBytes - reserved == old(ledger.captureBytes) - old(reserved)
                && declared == if old(wroteHeader) then old(declared) else context.declared
    {
      hide Ledger.Valid;
      if !wroteHeader {
        WriteHeader(200, context);
      }
      if !encoding && !discarded {
        var roomy := MakeRoom(|value|, context);
        if !roomy {
          return false;
        }
      }
      Pass(value);
      ok := true;
    }

    /** Appends a write to the spool, if there is one, and to what the client has. */
    method Pass(value: Bytes)
      requires Valid() && wroteHeader
      requires !discarded && !encoding ==> 2 * (|spool| + |value|) + BLOCK <= reserved
      modifies this`spool, this`size, this`written, client
      ensures Valid() && written == old(written) + value
    {
      if !encoding && !discarded {
        spool := spool + value;
      }
      size := size + |value|;
      written := written + value;
      if streamed && !suppressed && client != null {
        client.body := client.body + value;
      }
    }

    /** After the last write: a response that was not streamed is sent from the spool. */
    method WriteResponse()
      requires Valid() && client != null
      modifies client
      ensures client.finals == [Final()]
      ensures client.body == if conditional(Status()) != 0 then [] else written
    {
      if streamed {
        return;
      }
      if conditional(Status()) != 0 {
        client.finals := client.finals + [conditional(Status())];
        return;
      }
      client.finals := client.finals + [Status()];
      client.body := client.body + spool;
    }

    /** The end of a capture: what it holds is given back now, or left to an encoder that is not
        done yet. */
    method Close(encoderBusy: bool)
      requires Holding()
      modifies this`discarded, this`spool, this`reserved, ledger
      ensures Holding() && reserved == 0 && ledger.captures == old(ledger.captures)[path := 0]
      ensures ledger.encoders == if encoding && encoderBusy
                                 then old(ledger.encoders)[path := HeldBy(old(ledger.encoders), path) + old(reserved)]
                                 else old(ledger.encoders)
      ensures ledger.log == old(ledger.log) + [Return(path, if encoding && encoderBusy then 0 else old(reserved))]
      ensures ledger.captureBytes == old(ledger.captureBytes) - (if encoding && encoderBusy then 0 else old(reserved))
    {
      hide Ledger.Valid;
      if encoding && encoderBusy {
        ledger.HandOver(path, reserved);
        reserved := 0;
      }
      Discard();
    }
  }

  // ----- every sequence of calls ------------------------------------------------------------

  /** What an origin does with its response writer. */
  datatype Call = Head(code: nat) | Chunk(value: Bytes)

  /** The status a sequence of calls sets: the first final one, or 200 with the first write. */
  function StatusOf(calls: seq<Call>): nat
  {
    if calls == [] then 0
    else
      var before := StatusOf(calls[..|calls| - 1]);
      match calls[|calls| - 1] {
        case Head(code) => if before == 0 && !Informational(code) then code else before
        case Chunk(_) => if before == 0 then 200 else before
      }
  }

  function BodyOf(calls: seq<Call>): Bytes
  {
    if calls == [] then []
    else BodyOf(calls[..|calls| - 1]) + (if calls[|calls| - 1].Chunk? then calls[|calls| - 1].value else [])
  }

  /** Nothing ends the capture: the hook, if there is one, leaves the response to the spool, no
      precondition answers it, no limit is in the way, and at every call there is room for all of it
      next to what is used and what others have reserved. */
  ghost predicate Undisturbed(limit: nat, streaming: bool, conditional: nat -> nat, calls: seq<Call>,
                              contexts: seq<Context>, others: int)
  {
    var total := |BodyOf(calls)|;
    && (streaming ==> conditional(StatusOf(calls)) == 0 && forall c :: c in contexts ==> c.plan.Spool?)
    && (limit == 0 || (total <= limit && forall c :: c in contexts ==> c.declared <= limit)) && total <= LARGEST
    && forall c :: c in contexts ==> Fits(c.usage, others + Needed(total))
  }

  /** The first final status stays, and bodies only grow. */
  lemma {:induction false} Later(calls: seq<Call>, i: nat)
    requires i <= |calls|
    ensures StatusOf(calls[..i]) != 0 ==> StatusOf(calls) == StatusOf(calls[..i])
    ensures |BodyOf(calls[..i])| <= |BodyOf(calls)|
    decreases |calls|
  {
    if i == |calls| {
      assert calls[..i] == calls;
    } else {
      assert calls[..|calls| - 1][..i] == calls[..i];
      Later(calls[..|calls| - 1], i);
    }
  }

  /** A capture still open has its whole spool and no more of the counter than before. */
  ghost predicate Spooling(response: Response, others: int)
    reads response, response.ledger
  {
    && !response.discarded && !response.encoding && response.ledger.captureBytes - response.reserved == others
    && (response.wroteHeader && response.limit != 0 ==> response.declared <= response.limit)
  }

  /** What an undisturbed capture finds at its next call: no precondition answers its status, and a
      write has room. */
  lemma NextCall(response: Response, calls: seq<Call>, contexts: seq<Context>, others: int, i: nat)
    requires i < |calls| == |contexts| && Spooling(response, others) && response.size == |BodyOf(calls[..i])|
    requires Undisturbed(response.limit, response.streaming, response.conditional, calls, contexts, others)
    ensures contexts[i] in contexts
    ensures response.streaming && StatusOf(calls[..i + 1]) != 0 ==>
              response.conditional(StatusOf(calls[..i + 1])) == 0 && contexts[i].plan.Spool?
    ensures response.limit != 0 ==> contexts[i].declared <= response.limit
    ensures calls[i].Chunk? ==>
              response.Roomy(response.size + |calls[i].value|,
                             if response.wroteHeader then response.declared else contexts[i].declared,
                             contexts[i].usage)
  {
    hide Needed;
    Later(calls, i + 1);
    assert calls[..i + 1][..i] == calls[..i];
    NeededGrows(|BodyOf(calls[..i + 1])|, |BodyOf(calls)|);
  }

  /** For every sequence of calls of the origin, however the hook decides and whichever reservations
      are refused, the client gets one final header and exactly the concatenation of the writes, or
      no body when its preconditions say so. */
  method Relay(response: Response, calls: seq<Call>, contexts: seq<Context>)
    requires response.Valid() && response.written == [] && !response.wroteHeader && response.client != null
    requires |contexts| == |calls| && forall i :: 0 <= i < |calls| && calls[i].Head? ==> calls[i].code != 0
    modifies response, response.ledger`captureBytes, response.ledger`captures, response.ledger`log, response.client
    ensures var status := if StatusOf(calls) == 0 then 200 else StatusOf(calls);
            var instead := response.conditional(status);
            && response.client.finals == [if instead != 0 then instead else status]
            && response.client.body == if instead != 0 then [] else BodyOf(calls)
    ensures Undisturbed(response.limit, response.streaming, response.conditional, calls, contexts,
                        old(response.ledger.captureBytes) - old(response.reserved)) ==>
              !response.discarded && !response.encoding && response.spool == BodyOf(calls)
  {
    hide Response.Holding, Response.Transparent, Undisturbed, Response.Roomy;
    response.NotStarted();
    ghost var others := response.ledger.captureBytes - response.reserved;
    ghost var open := Undisturbed(response.limit, response.streaming, response.conditional, calls, contexts, others);
    var i := 0;
    while i < |calls|
      invariant i <= |calls| && response.Valid()
      invariant response.written == BodyOf(calls[..i])
      invariant response.wroteHeader <==> StatusOf(calls[..i]) != 0
      invariant response.Status() == if StatusOf(calls[..i]) == 0 then 200 else StatusOf(calls[..i])
      invariant open ==> Spooling(response, others)
    {
      if open {
        response.SpoolIsAll();
        NextCall(response, calls, contexts, others, i);
      }
      assert calls[..i + 1][..i] == calls[..i];
      match calls[i] {
        case Head(code) => response.WriteHeader(code, contexts[i]);
        case Chunk(value) => var ok := response.Write(value, contexts[i]);
      }
      i := i + 1;
    }
    assert calls[..|calls|] == calls;
    if open {
      response.SpoolIsAll();
    }
    response.WriteResponse();
  }
}
