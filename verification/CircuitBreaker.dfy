/** The circuit breaker in front of the shared rate-limit store. Requests ask it, talk to the store
    without the lock, and report back; a run is any interleaving of asks and reports. */
module CircuitBreaker {
  import opened Common

  type Time = int  // nanoseconds

  const SECOND: nat := 1_000_000_000
  const INITIAL_BACKOFF: nat := SECOND
  const MAX_BACKOFF: nat := 30 * SECOND

  function Pow2(n: nat): nat
  {
    if n == 0 then 1 else 2 * Pow2(n - 1)
  }

  lemma {:induction false} Pow2Monotone(m: nat, n: nat)
    requires m <= n
    ensures Pow2(m) <= Pow2(n)
    decreases n
  {
    if m < n {
      Pow2Monotone(m, n - 1);
    }
  }

  /** The delay after this many failures in a row: it doubles from one second up to thirty. */
  method Backoff(failures: nat) returns (delay: nat)
    requires failures >= 1
    ensures delay == Min(Pow2(failures - 1) * 1_000_000_000, 30_000_000_000)
  {
    delay := INITIAL_BACKOFF;
    var attempt := 1;
    while attempt < failures && delay < MAX_BACKOFF
      invariant 1 <= attempt <= failures && delay == Pow2(attempt - 1) * SECOND
    {
      delay := delay * 2;
      attempt := attempt + 1;
    }
    Pow2Monotone(attempt - 1, failures - 1);
    delay := Min(delay, MAX_BACKOFF);
  }

  /** A request that may talk to the store: whether it is the probe, the generation it saw, when it
      arrived, and whether it has yet to report. */
  datatype Request = Request(probe: bool, generation: nat, at: Time, live: bool)

  datatype Outcome = Succeeded | Failed

  predicate LiveProbe(r: Request)
  {
    r.live && r.probe
  }

  predicate Timely(r: Request, generation: nat, open: bool)
  {
    && r.generation <= generation && (r.probe ==> r.generation == generation)
    && (open && r.generation == generation ==> r.probe)
  }

  /** Live requests are of this generation or older, a live probe is of this one, and while the
      circuit is open nobody else is; there is at most one live probe, and there is one exactly
      while the flag is set. */
  ghost predicate OneProbe(requests: seq<Request>, generation: nat, open: bool, probing: bool)
  {
    && (forall i :: 0 <= i < |requests| && requests[i].live ==> Timely(requests[i], generation, open))
    && (forall i, j :: 0 <= i < j < |requests| ==> !LiveProbe(requests[i]) || !LiveProbe(requests[j]))
    && (probing <==> exists i :: 0 <= i < |requests| && LiveProbe(requests[i]))
  }

  lemma Admit(requests: seq<Request>, generation: nat, open: bool, probing: bool, at: Time)
    requires OneProbe(requests, generation, open, probing) && !(open && probing)
    ensures OneProbe(requests + [Request(open, generation, at, true)], generation, open, probing || open)
  {
    var next := requests + [Request(open, generation, at, true)];
    forall i | 0 <= i < |requests|
      ensures next[i] == requests[i]
    {
    }
    if probing {
      var p :| 0 <= p < |requests| && LiveProbe(requests[p]);
      assert LiveProbe(next[p]);
    } else if open {
      assert LiveProbe(next[|requests|]);
    }
  }

  function Settled(requests: seq<Request>, k: nat): seq<Request>
    requires k < |requests|
  {
    requests[k := requests[k].(live := false)]
  }

  lemma Ignored(requests: seq<Request>, generation: nat, open: bool, probing: bool, k: nat)
    requires OneProbe(requests, generation, open, probing) && k < |requests| && !LiveProbe(requests[k])
    ensures OneProbe(Settled(requests, k), generation, open, probing)
  {
    var next := Settled(requests, k);
    forall i | 0 <= i < |next|
      ensures LiveProbe(next[i]) == LiveProbe(requests[i]) && (next[i].live ==> next[i] == requests[i])
    {
    }
    if probing {
      var p :| 0 <= p < |requests| && LiveProbe(requests[p]);
      assert LiveProbe(next[p]);
    }
  }

  lemma Advanced(requests: seq<Request>, generation: nat, open: bool, probing: bool, k: nat, open': bool)
    requires OneProbe(requests, generation, open, probing) && k < |requests|
    requires probing ==> LiveProbe(requests[k])
    ensures OneProbe(Settled(requests, k), generation + 1, open', false)
  {
    var next := Settled(requests, k);
    forall i | 0 <= i < |next|
      ensures !LiveProbe(next[i]) && (next[i].live ==> Timely(next[i], generation + 1, open'))
    {
      assert i != k ==> next[i] == requests[i] && !LiveProbe(requests[i]);
    }
  }

  class Breaker {
    var open: bool        // an error is recorded
    var failures: nat
    var retryAt: Time
    var probing: bool
    var generation: nat
    var requests: seq<Request>  // every request admitted so far
    ghost var raised: seq<nat>  // the generations in which the failure count rose

    /** Each generation raised the failure count at most once. */
    ghost predicate RaisedOnce()
      reads this`raised, this`generation
    {
      && (forall i, j :: 0 <= i < j < |raised| ==> raised[i] < raised[j])
      && (forall i :: 0 <= i < |raised| ==> raised[i] < generation)
    }

    ghost predicate Valid()
      reads this
    {
      && (open <==> failures >= 1) && (probing ==> open)
      && OneProbe(requests, generation, open, probing) && RaisedOnce()
    }

    /** A breaker starts closed, or open with one failure when the store could not be set up. */
    constructor (configured: bool, now: Time)
      ensures Valid() && open == !configured && failures == (if configured then 0 else 1)
      ensures !configured ==> retryAt == now + INITIAL_BACKOFF
      ensures requests == [] && raised == [] && generation == 0
    {
      open, probing, generation, requests, raised := !configured, false, 0, [], [];
      failures := if configured then 0 else 1;
      retryAt := if configured then 0 else now + INITIAL_BACKOFF;
    }

    /** A request may use the store when the circuit is closed, or as the only probe once the delay
        is over. */
    method Acquire(now: Time) returns (admitted: bool, probe: bool)
      requires Valid()
      modifies this`probing, this`requests
      ensures Valid()
      ensures admitted <==> !open || probe
      ensures probe <==> open && !old(probing) && now >= retryAt
      ensures probing == (old(probing) || probe)
      ensures requests == if admitted then old(requests) + [Request(probe, generation, now, true)] else old(requests)
    {
      hide OneProbe, RaisedOnce;
      if !open {
        Admit(requests, generation, open, probing, now);
        requests := requests + [Request(false, generation, now, true)];
        return true, false;
      }
      if probing || now < retryAt {
        return false, false;
      }
      Admit(requests, generation, open, probing, now);
      probing := true;
      requests := requests + [Request(true, generation, now, true)];
      return true, true;
    }

    /** A failed request counts exactly when its generation is the current one: then the circuit
        opens for the delay of its failure count and the generation ends. */
    method Fail(k: nat)
      requires Valid() && k < |requests| && requests[k].live
      modifies this
      ensures Valid() && requests == Settled(old(requests), k)
      ensures old(requests[k].generation != generation) ==> Unmoved(old(Now())) && raised == old(raised)
      ensures old(requests[k].generation == generation) ==>
                && open && !probing && failures == old(failures) + 1 && generation == old(generation) + 1
                && retryAt == old(requests)[k].at + Min(Pow2(failures - 1) * 1_000_000_000, 30_000_000_000)
                && raised == old(raised) + [old(generation)]
    {
      hide OneProbe, Pow2;
      var r := requests[k];
      Current(k);
      if generation != r.generation || (!r.probe && open) {
        Ignored(requests, generation, open, probing, k);
        requests := Settled(requests, k);
        return;
      }
      Advanced(requests, generation, open, probing, k, true);
      failures := failures + 1;
      open := true;
      var delay := Backoff(failures);
      retryAt := r.at + delay;
      probing := false;
      raised := raised + [generation];
      generation := generation + 1;
      requests := Settled(requests, k);
    }

    /** A probe that succeeds always closes the circuit; any other success changes nothing. */
    method Succeed(k: nat)
      requires Valid() && k < |requests| && requests[k].live
      modifies this
      ensures Valid() && requests == Settled(old(requests), k) && raised == old(raised)
      ensures !old(requests[k].probe) ==> Unmoved(old(Now()))
      ensures old(requests[k].probe) ==> !open && !probing && failures == 0 && generation == old(generation) + 1
    {
      hide OneProbe;
      var r := requests[k];
      Current(k);
      if !r.probe || generation != r.generation || !probing {
        Ignored(requests, generation, open, probing, k);
        requests := Settled(requests, k);
        return;
      }
      Advanced(requests, generation, open, probing, k, false);
      open, failures, probing, retryAt := false, 0, false, 0;
      generation := generation + 1;
      requests := Settled(requests, k);
    }

    /** A live probe carries the current generation and is the one the flag stands for, and a live
        request of the current generation that is not a probe finds the circuit closed. */
    lemma Current(k: nat)
      requires OneProbe(requests, generation, open, probing) && k < |requests| && requests[k].live
      ensures requests[k].probe ==> requests[k].generation == generation && probing
      ensures !requests[k].probe && requests[k].generation == generation ==> !open
      ensures probing && requests[k].generation == generation && open ==> LiveProbe(requests[k])
    {
    }

    /** The state the requests see. */
    ghost function Now(): (bool, nat, Time, bool, nat)
      reads this
    {
      (open, failures, retryAt, probing, generation)
    }

    ghost predicate Unmoved(before: (bool, nat, Time, bool, nat))
      reads this
    {
      Now() == before
    }
  }

  // ----- runs -------------------------------------------------------------------------------

  /** A request arrives, or an admitted one reports. */
  datatype Event = Arrives(now: Time) | Reports(k: nat, outcome: Outcome)

  /** Over every interleaving at most one probe is out, the flag says exactly that, and no two
      failures are counted in one generation. */
  method Run(b: Breaker, events: seq<Event>)
    requires b.Valid()
    modifies b
    ensures b.Valid() && old(b.raised) <= b.raised && old(b.generation) <= b.generation
    ensures old(|b.requests|) <= |b.requests|
  {
    hide Breaker.Valid;
    var i := 0;
    while i < |events|
      invariant b.Valid() && old(b.raised) <= b.raised && old(b.generation) <= b.generation
      invariant old(|b.requests|) <= |b.requests|
    {
      match events[i] {
        case Arrives(now) =>
          var _, _ := b.Acquire(now);
        case Reports(k, outcome) =>
          if k < |b.requests| && b.requests[k].live {
            if outcome == Failed {
              b.Fail(k);
            } else {
              b.Succeed(k);
            }
          }
      }
      i := i + 1;
    }
  }
}
