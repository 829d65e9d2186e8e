/** Any number of captures that share one ledger, in every interleaving of their steps. */
module CaptureRuns {
  import opened Common
  import opened CacheModel
  import opened Reservations
  import opened Capture

  /** A request opens a capture; an origin calls it; it is closed, perhaps more than once and perhaps
      before its encoder is done; and an encoder gets done. */
  datatype Event =
    | Opening(foreground: bool, limit: nat, streaming: bool, conditional: nat -> nat)
    | Calling(capture: nat, call: Call, context: Context)
    | Closing(capture: nat, encoderBusy: bool)
    | Encoded(capture: nat)

  /** Spool files have different names. */
  function Spool(i: nat): Key { seq(i, _ => 's') }

  /** The captures share the ledger and nothing else. */
  ghost predicate Apart(ledger: Ledger, all: seq<Response>)
  {
    && (forall i :: 0 <= i < |all| ==> all[i].ledger == ledger && all[i].path == Spool(i))
    && (forall i, j :: 0 <= i < j < |all| ==>
          all[i] != all[j] && (all[i].client != null ==> all[i].client != all[j].client))
  }

  ghost function Clients(all: seq<Response>): set<object>
  {
    set i | 0 <= i < |all| && all[i].client != null :: all[i].client
  }

  /** Every capture holds what the ledger says, the open ones are as they should be, and the closed
      ones hold nothing. */
  ghost predicate Held(ledger: Ledger, all: seq<Response>, closed: seq<bool>)
    reads ledger, all, set i | 0 <= i < |all| :: all[i].ledger, Clients(all)
  {
    && ledger.Valid() && |closed| == |all| && Apart(ledger, all)
    && (forall path :: path in ledger.captures ==> exists i :: 0 <= i < |all| && path == Spool(i))
    && forall i :: 0 <= i < |all| ==>
         && all[i].Holding() && (!closed[i] ==> all[i].Transparent())
         && (closed[i] ==> all[i].reserved == 0)
  }

  /** What the origin of each foreground capture has written to it. */
  ghost predicate Wrote(all: seq<Response>, bodies: seq<Bytes>)
    reads all
  {
    |bodies| == |all| && forall i :: 0 <= i < |all| && all[i].client != null ==> all[i].written == bodies[i]
  }

  lemma SpoolsDiffer(i: nat, j: nat)
    requires i != j
    ensures Spool(i) != Spool(j)
  {
    assert |Spool(i)| != |Spool(j)|;
  }

  // ----- one step ---------------------------------------------------------------------------

  /** A request opens its capture, with a client unless it is a background refresh. */
  method Open(ledger: Ledger, all: seq<Response>, closed: seq<bool>, event: Event) returns (next: Response)
    requires Held(ledger, all, closed) && event.Opening?
    modifies ledger`captures
    ensures fresh(next) && (next.client != null ==> fresh(next.client))
    ensures Held(ledger, all + [next], closed + [false]) && next.written == []
  {
    hide Ledger.Valid, Response.Transparent;
    forall i | 0 <= i < |all| ensures Spool(i) != Spool(|all|) {
      SpoolsDiffer(i, |all|);
    }
    var client: Client? := null;
    if event.foreground {
      client := new Client();
    }
    next := new Response(ledger, client, Spool(|all|), event.limit, event.streaming, event.conditional);
  }

  /** One call of the origin. */
  method Perform(capture: Response, call: Call, context: Context)
    requires capture.Valid() && (call.Head? ==> call.code != 0)
    modifies capture, capture.ledger`captureBytes, capture.ledger`captures, capture.ledger`log, capture.client
    ensures capture.Valid() && old(capture.ledger.log) <= capture.ledger.log
    ensures capture.ledger.captures == old(capture.ledger.captures)[capture.path := capture.reserved]
    ensures capture.client != null ==>
              capture.written == old(capture.written) + (if call.Chunk? then call.value else [])
  {
    hide Response.Transparent, Response.Holding;
    match call {
      case Head(code) => capture.WriteHeader(code, context);
      case Chunk(value) => var ok := capture.Write(value, context);
    }
  }

  /** The origin calls one capture; the others do not notice. */
  method Serve(ledger: Ledger, all: seq<Response>, ghost closed: seq<bool>, k: nat, call: Call, context: Context)
    requires Held(ledger, all, closed) && k < |all| && !closed[k] && (call.Head? ==> call.code != 0)
    modifies all[k], ledger`captureBytes, ledger`captures, ledger`log, all[k].client
    ensures Held(ledger, all, closed) && old(ledger.log) <= ledger.log
    ensures all[k].client != null ==> all[k].written == old(all[k].written) + (if call.Chunk? then call.value else [])
  {
    hide Ledger.Valid, Response.Transparent;
    Perform(all[k], call, context);
    forall i | 0 <= i < |all| && i != k ensures Spool(i) != Spool(k) && all[i] != all[k] && all[i].Holding() {
      SpoolsDiffer(i, k);
    }
  }

  /** A capture is closed; the others do not notice. */
  method Close(ledger: Ledger, all: seq<Response>, ghost closed: seq<bool>, k: nat, encoderBusy: bool)
    requires Held(ledger, all, closed) && k < |all|
    modifies all[k], ledger
    ensures Held(ledger, all, closed[k := true]) && old(ledger.log) <= ledger.log
    ensures all[k].written == old(all[k].written)
    ensures ledger.encoders.Keys <= old(ledger.encoders.Keys) + (if encoderBusy then {Spool(k)} else {})
  {
    hide Ledger.Valid, Response.Transparent;
    all[k].Close(encoderBusy);
    forall i | 0 <= i < |all| && i != k ensures Spool(i) != Spool(k) && all[i] != all[k] && all[i].Holding() {
      SpoolsDiffer(i, k);
    }
  }

  /** An encoder that outlived its capture is done. */
  method Finish(ledger: Ledger, all: seq<Response>, ghost closed: seq<bool>, k: nat)
    requires Held(ledger, all, closed)
    modifies ledger`captureBytes, ledger`encoders, ledger`log
    ensures Held(ledger, all, closed) && old(ledger.log) <= ledger.log
    ensures ledger.encoders.Keys == old(ledger.encoders.Keys) - {Spool(k)}
  {
    hide Ledger.Valid, Response.Transparent;
    if Spool(k) in ledger.encoders {
      ledger.EncoderDone(Spool(k));
    }
  }

  // ----- every run --------------------------------------------------------------------------

  /** Which of the captures opened so far have been closed, after one more event. */
  function Mark(closed: seq<bool>, event: Event): seq<bool>
  {
    match event
    case Opening(_, _, _, _) => closed + [false]
    case Closing(k, _) => if k < |closed| then closed[k := true] else closed
    case _ => closed
  }

  function Marks(events: seq<Event>): seq<bool>
  {
    if events == [] then [] else Mark(Marks(events[..|events| - 1]), events[|events| - 1])
  }

  /** What was written to the captures while they were open. */
  function Deliver(bodies: seq<Bytes>, closed: seq<bool>, event: Event): seq<Bytes>
  {
    match event
    case Opening(_, _, _, _) => bodies + [[]]
    case Calling(k, Chunk(value), _) =>
      if k < |bodies| && k < |closed| && !closed[k] then bodies[k := bodies[k] + value] else bodies
    case _ => bodies
  }

  function Bodies(events: seq<Event>): seq<Bytes>
  {
    if events == [] then []
    else
      var before := events[..|events| - 1];
      Deliver(Bodies(before), Marks(before), events[|events| - 1])
  }

  /** The captures closed before their encoder, until it is done. */
  function Await(awaited: set<nat>, event: Event): set<nat>
  {
    match event
    case Closing(k, busy) => if busy then awaited + {k} else awaited
    case Encoded(k) => awaited - {k}
    case _ => awaited
  }

  function Awaited(events: seq<Event>): set<nat>
  {
    if events == [] then {} else Await(Awaited(events[..|events| - 1]), events[|events| - 1])
  }

  ghost predicate Awaits(paths: set<Key>, awaited: set<nat>)
  {
    forall path :: path in paths ==> exists k :: k in awaited && path == Spool(k)
  }

  lemma AwaitsAfter(paths: set<Key>, paths': set<Key>, awaited: set<nat>, event: Event)
    requires Awaits(paths, awaited)
    requires match event
             case Closing(k, busy) => paths' <= paths + (if busy then {Spool(k)} else {})
             case Encoded(k) => paths' == paths - {Spool(k)}
             case _ => paths' == paths
    ensures Awaits(paths', Await(awaited, event))
  {
    forall path | path in paths' ensures exists k :: k in Await(awaited, event) && path == Spool(k) {
      if path in paths {
        var k :| k in awaited && path == Spool(k);
        assert k in Await(awaited, event);
      }
    }
  }

  ghost function Objects(all: seq<Response>): set<object>
  {
    (set r | r in all :: r as object) + Clients(all)
  }

  lemma Owned(all: seq<Response>, k: nat)
    requires k < |all|
    ensures all[k] in Objects(all) && (all[k].client != null ==> all[k].client in Objects(all))
  {
    assert all[k] in all;
  }

  /** One event, of any capture. Nothing is asked of a capture that is not open. */
  method Step(ledger: Ledger, all: seq<Response>, closed: seq<bool>, event: Event, ghost awaited: set<nat>,
              ghost bodies: seq<Bytes>)
      returns (all': seq<Response>)
    requires Held(ledger, all, closed) && Awaits(ledger.encoders.Keys, awaited) && Wrote(all, bodies)
    requires event.Calling? && event.call.Head? ==> event.call.code != 0
    modifies ledger, Objects(all)
    ensures Held(ledger, all', Mark(closed, event)) && Awaits(ledger.encoders.Keys, Await(awaited, event))
    ensures fresh(Objects(all') - Objects(all)) && old(ledger.log) <= ledger.log
    ensures Wrote(all', Deliver(bodies, closed, event))
  {
    hide Ledger.Valid, Response.Transparent, Response.Holding, Awaits, Spool;
    ghost var before := ledger.encoders.Keys;
    all' := all;
    match event {
      case Opening(_, _, _, _) =>
        var next := Open(ledger, all, closed, event);
        all' := all + [next];
      case Calling(k, call, context) =>
        if k < |all| && !closed[k] {
          Owned(all, k);
          Serve(ledger, all, closed, k, call, context);
        }
      case Closing(k, busy) =>
        if k < |all| {
          Owned(all, k);
          Close(ledger, all, closed, k, busy);
        }
      case Encoded(k) =>
        Finish(ledger, all, closed, k);
    }
    AwaitsAfter(before, ledger.encoders.Keys, awaited, event);
  }

  lemma Settled(ledger: Ledger, all: seq<Response>, closed: seq<bool>)
    requires Held(ledger, all, closed)
    ensures ledger.captureBytes == Sum(ledger.captures) + Sum(ledger.encoders)
    ensures ledger.captureBytes == Granted(ledger.log) - Returned(ledger.log)
    ensures Balanced(ledger.log, ledger.captures, ledger.encoders)
    ensures (forall i :: 0 <= i < |closed| ==> closed[i]) && Awaits(ledger.encoders.Keys, {}) ==>
              && ledger.captureBytes == 0
              && forall path :: GrantedTo(ledger.log, path) == ReturnedBy(ledger.log, path)
  {
    hide Balanced, Sum, Granted, Returned, GrantedTo, ReturnedBy, Response.Transparent;
    if (forall i :: 0 <= i < |closed| ==> closed[i]) && Awaits(ledger.encoders.Keys, {}) {
      assert ledger.encoders.Keys == {};
      assert ledger.encoders == map[];
      AllReturned(ledger.log, ledger.captures);
    }
  }

  /** Whatever captures come and go, whatever they are granted or refused, the counter is always
      what was granted less what was given back, in total and holder by holder. When all captures
      are closed and no encoder is awaited, everything is given back, and it is zero. Each of them
      has what its own origin wrote. */
  method Run(events: seq<Event>) returns (ledger: Ledger, all: seq<Response>)
    requires forall e :: e in events && e.Calling? && e.call.Head? ==> e.call.code != 0
    ensures Held(ledger, all, Marks(events)) && Wrote(all, Bodies(events))
    ensures ledger.captureBytes == Sum(ledger.captures) + Sum(ledger.encoders)
    ensures ledger.captureBytes == Granted(ledger.log) - Returned(ledger.log)
    ensures Balanced(ledger.log, ledger.captures, ledger.encoders)
    ensures (forall i :: 0 <= i < |Marks(events)| ==> Marks(events)[i]) && Awaited(events) == {} ==>
              && ledger.captureBytes == 0
              && forall path :: GrantedTo(ledger.log, path) == ReturnedBy(ledger.log, path)
  {
    hide Ledger.Valid, Held, Balanced, Sum, Granted, Returned, GrantedTo, ReturnedBy;
    ledger := new Ledger();
    all := [];
    NothingHeld(ledger);
    var closed: seq<bool> := [];
    for n := 0 to |events|
      invariant fresh(ledger) && fresh(Objects(all))
      invariant Held(ledger, all, closed) && closed == Marks(events[..n])
      invariant Awaits(ledger.encoders.Keys, Awaited(events[..n])) && Wrote(all, Bodies(events[..n]))
    {
      assert events[..n + 1][..n] == events[..n];
      all := Step(ledger, all, closed, events[n], Awaited(events[..n]), Bodies(events[..n]));
      closed := Mark(closed, events[n]);
    }
    assert events[..|events|] == events;
    Settled(ledger, all, closed);
  }

  lemma NothingHeld(ledger: Ledger)
    requires ledger.Valid() && ledger.captures == map[]
    ensures Held(ledger, [], [])
  {
  }
}
