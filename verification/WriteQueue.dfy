/** The queue in front of the batch writer: callers enqueue, and one flusher goroutine at a time
    takes batches from the front, commits them and answers their callers. Every critical section
    of the queue lock is one method, and a run is any interleaving of them. */
module WriteQueue {
  datatype Write = Write(id: nat, size: nat)

  const BATCH_OBJECTS: nat := 64
  const BATCH_BYTES: nat := 0x400_0000   // 64 MiB
  const QUEUE_OBJECTS: nat := 256
  const QUEUE_BYTES: nat := 0x1000_0000  // 256 MiB

  /** Where a flusher goroutine is. One that found the queue empty after its commit has retired,
      but may still have callers to answer. */
  datatype Flusher =
    | Looping
    | Committing(batch: seq<Write>)
    | Answering(rest: seq<Write>, retired: bool)
    | Gone

  predicate Active(f: Flusher)
  {
    f.Looping? || f.Committing? || (f.Answering? && !f.retired)
  }

  function Bytes(writes: seq<Write>): nat
  {
    if writes == [] then 0 else Bytes(writes[..|writes| - 1]) + writes[|writes| - 1].size
  }

  function Concat(batches: seq<seq<Write>>): seq<Write>
  {
    if batches == [] then [] else Concat(batches[..|batches| - 1]) + batches[|batches| - 1]
  }

  /** The writes a flusher still has to answer. */
  function Owed(f: Flusher): seq<Write>
  {
    match f {
      case Committing(batch) => batch
      case Answering(rest, _) => rest
      case _ => []
    }
  }

  /** How often a write occurs. */
  function Occurs(writes: seq<Write>, w: Write): nat
  {
    if writes == [] then 0
    else Occurs(writes[..|writes| - 1], w) + (if writes[|writes| - 1] == w then 1 else 0)
  }

  function OwedCount(flushers: seq<Flusher>, w: Write): nat
  {
    if flushers == [] then 0
    else OwedCount(flushers[..|flushers| - 1], w) + Occurs(Owed(flushers[|flushers| - 1]), w)
  }

  lemma BytesPrefix(writes: seq<Write>, i: nat)
    requires i < |writes|
    ensures Bytes(writes[..i + 1]) == Bytes(writes[..i]) + writes[i].size
  {
    assert writes[..i + 1][..i] == writes[..i];
  }

  lemma BytesPush(writes: seq<Write>, w: Write)
    ensures Bytes(writes + [w]) == Bytes(writes) + w.size
  {
    assert (writes + [w])[..|writes|] == writes;
  }

  lemma {:induction false} BytesSplit(writes: seq<Write>, i: nat)
    requires i <= |writes|
    ensures Bytes(writes) == Bytes(writes[..i]) + Bytes(writes[i..])
  {
    if i == |writes| {
      assert writes[..i] == writes;
    } else {
      var last := |writes| - 1;
      BytesSplit(writes[..last], i);
      assert writes[..last][..i] == writes[..i] && writes[..last][i..] == writes[i..][..last - i];
    }
  }

  lemma {:induction false} OccursSplit(a: seq<Write>, b: seq<Write>, w: Write)
    ensures Occurs(a + b, w) == Occurs(a, w) + Occurs(b, w)
  {
    if b == [] {
      assert a + b == a;
    } else {
      OccursSplit(a, b[..|b| - 1], w);
      assert (a + b)[..|a + b| - 1] == a + b[..|b| - 1];
    }
  }

  lemma {:induction false} OwedUpdate(flushers: seq<Flusher>, k: nat, f: Flusher, w: Write)
    requires k < |flushers|
    ensures OwedCount(flushers[k := f], w) + Occurs(Owed(flushers[k]), w)
         == OwedCount(flushers, w) + Occurs(Owed(f), w)
  {
    hide Occurs, Owed;
    var last := |flushers| - 1;
    if k == last {
      assert flushers[k := f][..last] == flushers[..last];
    } else {
      OwedUpdate(flushers[..last], k, f, w);
      assert flushers[k := f][..last] == flushers[..last][k := f];
    }
  }

  // ----- one flusher ------------------------------------------------------------------------

  /** The flag is set exactly while some flusher is active, and never are two. */
  ghost predicate OneFlusher(flushers: seq<Flusher>, flushing: bool)
  {
    && (flushing <==> exists k :: 0 <= k < |flushers| && Active(flushers[k]))
    && forall i, j :: 0 <= i < |flushers| && 0 <= j < |flushers| && Active(flushers[i]) && Active(flushers[j])
                      ==> i == j
  }

  lemma FlusherStarts(flushers: seq<Flusher>)
    requires OneFlusher(flushers, false)
    ensures OneFlusher(flushers + [Looping], true)
  {
    var next := flushers + [Looping];
    forall i | 0 <= i < |flushers|
      ensures !Active(next[i])
    {
      assert next[i] == flushers[i];
    }
    assert Active(next[|flushers|]);
  }

  lemma FlusherMoves(flushers: seq<Flusher>, k: nat, f: Flusher)
    requires OneFlusher(flushers, true) && k < |flushers| && Active(flushers[k])
    ensures OneFlusher(flushers[k := f], Active(f))
  {
    var next := flushers[k := f];
    forall i | 0 <= i < |next| && i != k
      ensures !Active(next[i])
    {
      assert next[i] == flushers[i];
    }
    assert next[k] == f;
  }

  lemma RetiredMoves(flushers: seq<Flusher>, flushing: bool, k: nat, f: Flusher)
    requires OneFlusher(flushers, flushing) && k < |flushers| && !Active(flushers[k]) && !Active(f)
    ensures OneFlusher(flushers[k := f], flushing)
  {
    var next := flushers[k := f];
    forall i | 0 <= i < |next|
      ensures Active(next[i]) == Active(flushers[i])
    {
    }
    if flushing {
      var a :| 0 <= a < |flushers| && Active(flushers[a]);
      assert Active(next[a]);
    }
  }

  // ----- nothing is lost --------------------------------------------------------------------

  /** Every write taken from the queue is answered or owed by a flusher, exactly as often as it was
      taken. */
  ghost predicate Accounted(taken: seq<Write>, flushers: seq<Flusher>, answered: seq<Write>)
  {
    forall w :: Occurs(taken, w) == Occurs(answered, w) + OwedCount(flushers, w)
  }

  lemma AccountedTake(taken: seq<Write>, flushers: seq<Flusher>, answered: seq<Write>, k: nat, batch: seq<Write>)
    requires Accounted(taken, flushers, answered) && k < |flushers| && flushers[k].Looping?
    ensures Accounted(taken + batch, flushers[k := Committing(batch)], answered)
  {
    hide OwedCount;
    forall w
      ensures Occurs(taken + batch, w) == Occurs(answered, w) + OwedCount(flushers[k := Committing(batch)], w)
    {
      OccursSplit(taken, batch, w);
      OwedUpdate(flushers, k, Committing(batch), w);
    }
  }

  /** A flusher that owes the same writes as before. */
  lemma AccountedSame(taken: seq<Write>, flushers: seq<Flusher>, answered: seq<Write>, k: nat, f: Flusher)
    requires Accounted(taken, flushers, answered) && k < |flushers| && Owed(flushers[k]) == Owed(f)
    ensures Accounted(taken, flushers[k := f], answered)
  {
    hide OwedCount, Occurs;
    forall w
      ensures Occurs(taken, w) == Occurs(answered, w) + OwedCount(flushers[k := f], w)
    {
      OwedUpdate(flushers, k, f, w);
    }
  }

  lemma AccountedStart(taken: seq<Write>, flushers: seq<Flusher>, answered: seq<Write>)
    requires Accounted(taken, flushers, answered)
    ensures Accounted(taken, flushers + [Looping], answered)
  {
    assert (flushers + [Looping])[..|flushers|] == flushers;
  }

  lemma AccountedAnswer(taken: seq<Write>, flushers: seq<Flusher>, answered: seq<Write>, k: nat)
    requires Accounted(taken, flushers, answered) && k < |flushers|
    requires flushers[k].Answering? && flushers[k].rest != []
    ensures var f := flushers[k];
            Accounted(taken, flushers[k := Answering(f.rest[1..], f.retired)], answered + [f.rest[0]])
  {
    hide OwedCount, Occurs;
    var f := flushers[k];
    var next := Answering(f.rest[1..], f.retired);
    assert f.rest == [f.rest[0]] + f.rest[1..];
    forall w
      ensures Occurs(taken, w) == Occurs(answered + [f.rest[0]], w) + OwedCount(flushers[k := next], w)
    {
      OccursSplit([f.rest[0]], f.rest[1..], w);
      OccursSplit(answered, [f.rest[0]], w);
      OwedUpdate(flushers, k, next, w);
    }
  }

  /** The longest prefix within both limits, or one object when even that is too large. */
  ghost predicate IsBatch(pending: seq<Write>, count: nat)
  {
    && count <= |pending| && (pending != [] ==> count > 0) && GoodBatch(pending[..count])
    && (count < |pending| ==> !GoodBatch(pending[..count + 1]))
  }

  ghost predicate GoodBatch(batch: seq<Write>)
  {
    |batch| <= 64 && (|batch| <= 1 || Bytes(batch) <= 64 * 1024 * 1024)
  }

  /** How much of the queue the next batch takes. */
  method BatchCount(pending: seq<Write>) returns (count: nat, bytes: nat)
    ensures IsBatch(pending, count) && bytes == Bytes(pending[..count])
  {
    count, bytes := 0, 0;
    while count < |pending| && count < BATCH_OBJECTS
      invariant count <= |pending| && count <= BATCH_OBJECTS && bytes == Bytes(pending[..count])
      invariant count <= 1 || bytes <= BATCH_BYTES
    {
      BytesPrefix(pending, count);
      var next := pending[count].size;
      if count > 0 && bytes + next > BATCH_BYTES {
        break;
      }
      bytes := bytes + next;
      count := count + 1;
    }
  }

  lemma ConcatPush(batches: seq<seq<Write>>, batch: seq<Write>)
    ensures Concat(batches + [batch]) == Concat(batches) + batch
  {
    assert (batches + [batch])[..|batches|] == batches;
  }

  class Queue {
    var pending: seq<Write>
    var pendingBytes: nat
    var flushing: bool
    var flushers: seq<Flusher>       // every flusher started so far
    ghost var accepted: seq<Write>   // the writes let in, in order
    ghost var batches: seq<seq<Write>>
    ghost var answered: seq<Write>

    ghost predicate Bounded()
      reads this`pending, this`pendingBytes
    {
      pendingBytes == Bytes(pending) && |pending| <= 256 && pendingBytes <= 256 * 1024 * 1024
    }

    /** A flusher that will take a batch finds one. */
    ghost predicate Fed()
      reads this`pending, this`flushers
    {
      forall k :: 0 <= k < |flushers| && (flushers[k].Looping? || (flushers[k].Answering? && !flushers[k].retired))
                  ==> pending != []
    }

    /** The batches, one after the other, and then the pending writes are what was let in, in
        order, and every write taken is answered or still owed. */
    ghost predicate Conserved()
      reads this`flushers, this`pending, this`accepted, this`batches, this`answered
    {
      && accepted == Concat(batches) + pending && Accounted(Concat(batches), flushers, answered)
      && forall i :: 0 <= i < |batches| ==> batches[i] != [] && GoodBatch(batches[i])
    }

    ghost predicate Valid()
      reads this
    {
      && Bounded() && OneFlusher(flushers, flushing) && Conserved() && Fed() && (pending != [] ==> flushing)
    }

    constructor ()
      ensures Valid() && accepted == [] && answered == []
    {
      pending, pendingBytes, flushing, flushers := [], 0, false, [];
      accepted, batches, answered := [], [], [];
    }

    /** A write is let in exactly when both limits hold with it; a new flusher starts only when
        none is active. */
    method Enqueue(write: Write) returns (ok: bool)
      requires Valid()
      modifies this
      ensures Valid() && batches == old(batches) && answered == old(answered)
      ensures ok <==> old(|pending| < 256 && Bytes(pending) + write.size <= 256 * 1024 * 1024)
      ensures accepted == if ok then old(accepted) + [write] else old(accepted)
      ensures flushers == if ok && !old(flushing) then old(flushers) + [Looping] else old(flushers)
    {
      hide OneFlusher, Accounted, Concat, GoodBatch, Bytes;
      if |pending| >= QUEUE_OBJECTS || pendingBytes + write.size > QUEUE_BYTES {
        return false;
      }
      BytesPush(pending, write);
      assert Concat(batches) + (pending + [write]) == accepted + [write];
      pending := pending + [write];
      pendingBytes := pendingBytes + write.size;
      accepted := accepted + [write];
      if !flushing {
        flushing := true;
        FlusherStarts(flushers);
        AccountedStart(Concat(batches), flushers, answered);
        flushers := flushers + [Looping];
      }
      ok := true;
    }

    /** The next batch of a flusher; it would retire on an empty queue, but never meets one. */
    method TakeBatch(k: nat)
      requires Bounded() && OneFlusher(flushers, flushing) && flushing && Conserved()
      requires k < |flushers| && flushers[k].Looping?
      modifies this
      ensures Bounded() && OneFlusher(flushers, flushing) && Conserved()
      ensures accepted == old(accepted) && answered == old(answered)
      ensures old(pending) == [] ==> !flushing && flushers == old(flushers)[k := Gone] && batches == old(batches)
      ensures old(pending) != [] ==>
                && flushing && |batches| == old(|batches|) + 1 && batches[..old(|batches|)] == old(batches)
                && var batch := batches[old(|batches|)];
                   && flushers == old(flushers)[k := Committing(batch)] && batch + pending == old(pending)
                   && IsBatch(old(pending), |batch|) && batch != []
      ensures old(Valid()) ==> old(pending) != [] && Valid()
    {
      hide OneFlusher, Accounted, Concat, GoodBatch, Bytes;
      if pending == [] {
        FlusherMoves(flushers, k, Gone);
        AccountedSame(Concat(batches), flushers, answered, k, Gone);
        flushing := false;
        flushers := flushers[k := Gone];
        return;
      }
      var count, bytes := BatchCount(pending);
      var batch := pending[..count];
      BytesSplit(pending, count);
      FlusherMoves(flushers, k, Committing(batch));
      AccountedTake(Concat(batches), flushers, answered, k, batch);
      ConcatPush(batches, batch);
      assert batch + pending[count..] == pending;
      OnlyActive(k);
      flushers := flushers[k := Committing(batch)];
      pending := pending[count..];
      pendingBytes := pendingBytes - bytes;
      batches := batches + [batch];
    }

    lemma OnlyActive(k: nat)
      requires OneFlusher(flushers, flushing) && k < |flushers| && Active(flushers[k])
      ensures forall i :: 0 <= i < |flushers| && i != k ==> !Active(flushers[i])
      ensures flushing
    {
    }

    /** After the commit the flusher retires if nothing is pending, under the same lock. */
    method Committed(k: nat)
      requires Valid() && k < |flushers| && flushers[k].Committing?
      modifies this`flushing, this`flushers
      ensures Valid()
      ensures flushers == old(flushers)[k := Answering(old(flushers)[k].batch, pending == [])]
    {
      hide OneFlusher, Accounted, Concat, GoodBatch;
      var f := Answering(flushers[k].batch, pending == []);
      OnlyActive(k);
      FlusherMoves(flushers, k, f);
      AccountedSame(Concat(batches), flushers, answered, k, f);
      if pending == [] {
        flushing := false;
      }
      flushers := flushers[k := f];
    }

    /** One caller gets the result of its write. */
    method Answer(k: nat)
      requires Valid() && k < |flushers| && flushers[k].Answering? && flushers[k].rest != []
      modifies this`flushers, this`answered
      ensures Valid() && answered == old(answered) + [old(flushers)[k].rest[0]]
      ensures var f := old(flushers)[k]; flushers == old(flushers)[k := Answering(f.rest[1..], f.retired)]
    {
      hide OneFlusher, Accounted, Concat, GoodBatch;
      var f := flushers[k];
      var next := Answering(f.rest[1..], f.retired);
      AccountedAnswer(Concat(batches), flushers, answered, k);
      if Active(f) {
        OnlyActive(k);
        FlusherMoves(flushers, k, next);
      } else {
        RetiredMoves(flushers, flushing, k, next);
      }
      answered := answered + [f.rest[0]];
      flushers := flushers[k := next];
    }

    /** A flusher that has answered its batch goes on, or returns if it has retired. */
    method Proceed(k: nat)
      requires Valid() && k < |flushers| && flushers[k].Answering? && flushers[k].rest == []
      modifies this`flushers
      ensures Valid() && flushers == old(flushers)[k := if old(flushers)[k].retired then Gone else Looping]
    {
      hide OneFlusher, Accounted, Concat, GoodBatch;
      var f := flushers[k];
      var next := if f.retired then Gone else Looping;
      AccountedSame(Concat(batches), flushers, answered, k, next);
      if f.retired {
        RetiredMoves(flushers, flushing, k, next);
      } else {
        OnlyActive(k);
        FlusherMoves(flushers, k, next);
      }
      flushers := flushers[k := next];
    }

    /** A drain returns only when the flag is down: then nothing is pending and no flusher has a
        batch it has not committed. */
    method MayReturnFromDrain() returns (ready: bool)
      requires Valid()
      ensures ready <==> !exists k :: 0 <= k < |flushers| && Active(flushers[k])
      ensures ready ==> pending == [] && Concat(batches) == accepted
      ensures ready ==> forall k :: 0 <= k < |flushers| ==> !flushers[k].Committing? && !flushers[k].Looping?
    {
      assert Concat(batches) + [] == Concat(batches);
      return !flushing;
    }
  }

  // ----- runs -------------------------------------------------------------------------------

  /** A caller arrives, or flusher k does its next critical section or sends one answer. */
  datatype Event = Arrives(write: Write) | Steps(k: nat)

  /** Every interleaving keeps the protocol: at most one active flusher, exactly one while writes
      are pending, both limits, batches that are prefixes of the queue, and nothing lost. */
  method Run(q: Queue, events: seq<Event>)
    requires q.Valid()
    modifies q
    ensures q.Valid() && Grows(old(q.accepted), q.accepted, old(q.answered), q.answered)
    ensures old(q.batches) <= q.batches
  {
    hide Queue.Valid, OneFlusher, IsBatch;
    var i := 0;
    while i < |events|
      invariant q.Valid() && Grows(old(q.accepted), q.accepted, old(q.answered), q.answered)
      invariant old(q.batches) <= q.batches
    {
      match events[i] {
        case Arrives(write) =>
          var _ := q.Enqueue(write);
        case Steps(k) =>
          Step(q, k);
      }
      i := i + 1;
    }
  }

  /** What was let in and what was answered are never taken back. */
  ghost predicate Grows(accepted: seq<Write>, accepted': seq<Write>, answered: seq<Write>, answered': seq<Write>)
  {
    accepted <= accepted' && answered <= answered'
  }

  method Step(q: Queue, k: nat)
    requires q.Valid()
    modifies q
    ensures q.Valid() && q.accepted == old(q.accepted) && old(q.answered) <= q.answered
    ensures old(q.batches) <= q.batches
    ensures k < old(|q.flushers|) && !old(q.flushers)[k].Gone? ==>
              Work(q.flushers, |q.pending|) < old(Work(q.flushers, |q.pending|))
  {
    hide OneFlusher, IsBatch, Queue.Conserved, Queue.Bounded, Queue.Fed, Work;
    ghost var flushers, pending := q.flushers, |q.pending|;
    if k < |q.flushers| {
      match q.flushers[k] {
        case Looping =>
          q.OnlyActive(k);
          q.TakeBatch(k);
        case Committing(_) =>
          q.Committed(k);
        case Answering(rest, _) =>
          if rest == [] {
            q.Proceed(k);
          } else {
            q.Answer(k);
          }
        case Gone =>
      }
      if !flushers[k].Gone? {
        WorkUpdate(flushers, k, q.flushers[k], pending, |q.pending|);
      }
    }
  }

  // ----- and everything is answered ---------------------------------------------------------

  /** What is left to do when no more writes arrive: steps of the flushers, and of those to come. */
  function StepsLeft(f: Flusher): nat
  {
    match f {
      case Looping => 1
      case Committing(batch) => 3 + |batch|
      case Answering(rest, _) => 2 + |rest|
      case Gone => 0
    }
  }

  function Work(flushers: seq<Flusher>, pending: nat): nat
  {
    if flushers == [] then 4 * pending
    else Work(flushers[..|flushers| - 1], pending) + StepsLeft(flushers[|flushers| - 1])
  }

  lemma {:induction false} WorkUpdate(flushers: seq<Flusher>, k: nat, f: Flusher, pending: nat, pending': nat)
    requires k < |flushers|
    ensures Work(flushers[k := f], pending') + StepsLeft(flushers[k]) + 4 * pending
         == Work(flushers, pending) + StepsLeft(f) + 4 * pending'
  {
    var last := |flushers| - 1;
    if k == last {
      assert flushers[k := f][..last] == flushers[..last];
      WorkShifts(flushers[..last], pending, pending');
    } else {
      WorkUpdate(flushers[..last], k, f, pending, pending');
      assert flushers[k := f][..last] == flushers[..last][k := f];
    }
  }

  lemma {:induction false} WorkShifts(flushers: seq<Flusher>, pending: nat, pending': nat)
    ensures Work(flushers, pending') + 4 * pending == Work(flushers, pending) + 4 * pending'
  {
    if flushers != [] {
      WorkShifts(flushers[..|flushers| - 1], pending, pending');
    }
  }

  /** Once no more writes arrive, the flushers come to an end in whatever order they go on, and then
      every write let in has been answered, exactly as often as it was let in. */
  method Settle(q: Queue)
    requires q.Valid()
    modifies q
    ensures q.Valid() && q.pending == [] && q.accepted == old(q.accepted)
    ensures forall k :: 0 <= k < |q.flushers| ==> q.flushers[k].Gone?
    ensures multiset(q.answered) == multiset(q.accepted)
  {
    hide Queue.Valid;
    while exists k :: 0 <= k < |q.flushers| && !q.flushers[k].Gone?
      invariant q.Valid() && q.accepted == old(q.accepted)
      decreases Work(q.flushers, |q.pending|)
    {
      var k :| 0 <= k < |q.flushers| && !q.flushers[k].Gone?;
      Step(q, k);
    }
    AllAnswered(q);
  }

  lemma {:induction false} OccursIsMultiplicity(writes: seq<Write>, w: Write)
    ensures Occurs(writes, w) == multiset(writes)[w]
  {
    if writes != [] {
      var last := |writes| - 1;
      OccursIsMultiplicity(writes[..last], w);
      assert writes == writes[..last] + [writes[last]];
    }
  }

  /** When every flusher has returned, each write let in has been answered exactly as often as it
      was let in, and nothing else was answered. */
  lemma AllAnswered(q: Queue)
    requires q.Valid() && forall k :: 0 <= k < |q.flushers| ==> q.flushers[k].Gone?
    ensures q.pending == [] && multiset(q.answered) == multiset(q.accepted)
  {
    assert forall k :: 0 <= k < |q.flushers| ==> !Active(q.flushers[k]);
    assert q.accepted == Concat(q.batches);
    forall w
      ensures multiset(q.answered)[w] == multiset(q.accepted)[w]
    {
      NothingOwed(q.flushers, w);
      OccursIsMultiplicity(q.answered, w);
      OccursIsMultiplicity(q.accepted, w);
    }
  }

  lemma {:induction false} NothingOwed(flushers: seq<Flusher>, w: Write)
    requires forall k :: 0 <= k < |flushers| ==> flushers[k].Gone?
    ensures OwedCount(flushers, w) == 0
  {
    if flushers != [] {
      NothingOwed(flushers[..|flushers| - 1], w);
    }
  }
}
