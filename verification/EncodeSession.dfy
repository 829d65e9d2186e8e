/** The streaming encoder: writers offer chunks to a bounded queue, a drainer passes them through a
    pipe, and the storage reads header and pipe to the end. Every atomic action of the goroutines
    involved is a step, and a run is any interleaving of steps. */
module EncodeSession {
  import opened Common

  /** The holder of the send lock: a writer that saw the session open, or one that found the queue
      full and waits for the drop to be over. */
  datatype Holder = Free | Checked(chunk: Bytes) | DropsFull

  /** The three steps of a drop, in order: the flag is set, the pipe is closed with an error, and
      the stop channel is closed. */
  datatype Drop = NotDropped | Flagged | PipeBroken | Stopped

  datatype Drainer = Selecting | Sending(rest: Bytes) | Leaving | Left

  /** How the writing side of the pipe was closed first. */
  datatype PipeEnd = Open | CleanEnd | BrokenEnd

  /** What the storage did with its source. */
  datatype Storage = Starting | Streaming | SawEnd | Returned(committed: bool) | Done(committed: bool)

  datatype Finish = NotCalled | Waiting | Answered(ok: bool)

  datatype Config = Config(slots: nat, header: Bytes, logical: nat)

  datatype State = State(
    holder: Holder, drop: Drop, closed: bool, queue: seq<Bytes>, drainer: Drainer, pipe: PipeEnd,
    storage: Storage, got: Bytes, finish: Finish,
    offered: seq<Bytes>)  // the chunks offered before the queue was closed

  datatype Action =
    | Offer(chunk: Bytes)            // a write: take the send lock and look at the flags
    | Enqueue | SeeStop | FindFull   // the three outcomes of the select in a write
    | Unlock                         // a write whose drop is over
    | SetFlag | BreakPipe | CloseStop
    | TakeChunk | SeeClosed | StopDraining | WriteFails | ClosePipe
    | ReadHeader | ReadPipe(n: nat) | ReadEnd | Commit | Fail | Publish
    | CallFinish | FinishReturns

  function Start(): State
  {
    State(Free, NotDropped, false, [], Selecting, Open, Starting, [], NotCalled, [])
  }

  /** The first close of the pipe decides how it ends. */
  function Close(pipe: PipeEnd, how: PipeEnd): PipeEnd
  {
    if pipe == Open then how else pipe
  }

  predicate ReaderGone(s: State)
  {
    s.storage.Returned? || s.storage.Done?
  }

  function Write(c: Config, s: State, a: Action): Option<State>
  {
    match a {
      case Offer(chunk) =>
        if s.holder != Free || chunk == [] then None
        else
          var offered := if s.closed then s.offered else s.offered + [chunk];
          var next := s.(offered := offered);
          Some(if s.drop != NotDropped || s.closed then next else next.(holder := Checked(chunk)))
      case Enqueue =>
        if s.holder.Checked? && |s.queue| < c.slots
        then Some(s.(queue := s.queue + [s.holder.chunk], holder := Free)) else None
      case SeeStop =>
        if s.holder.Checked? && c.slots > 0 && s.drop == Stopped then Some(s.(holder := Free)) else None
      case FindFull =>
        if s.holder.Checked? && |s.queue| >= c.slots
        then Some(s.(holder := DropsFull, drop := if s.drop == NotDropped then Flagged else s.drop)) else None
      case Unlock =>
        if s.holder == DropsFull && s.drop == Stopped then Some(s.(holder := Free)) else None
      case _ => None
    }
  }

  function Abort(s: State, a: Action): Option<State>
  {
    match a {
      case SetFlag => if s.drop == NotDropped then Some(s.(drop := Flagged)) else None
      case BreakPipe =>
        if s.drop == Flagged then Some(s.(drop := PipeBroken, pipe := Close(s.pipe, BrokenEnd))) else None
      case CloseStop => if s.drop == PipeBroken then Some(s.(drop := Stopped)) else None
      case _ => None
    }
  }

  function Drain(s: State, a: Action): Option<State>
  {
    match a {
      case TakeChunk =>
        if s.drainer == Selecting && s.queue != []
        then Some(s.(drainer := Sending(s.queue[0]), queue := s.queue[1..])) else None
      case SeeClosed =>
        if s.drainer == Selecting && s.queue == [] && s.closed then Some(s.(drainer := Leaving)) else None
      case StopDraining =>
        if s.drainer == Selecting && s.drop == Stopped then Some(s.(drainer := Leaving)) else None
      case WriteFails =>
        if s.drainer.Sending? && (s.pipe != Open || ReaderGone(s)) then Some(s.(drainer := Leaving)) else None
      case ClosePipe =>
        if s.drainer == Leaving then Some(s.(drainer := Left, pipe := Close(s.pipe, CleanEnd))) else None
      case _ => None
    }
  }

  /** The storage commits only a source of exactly the declared length that ended cleanly; it may
      fail at any time. */
  function Read(c: Config, s: State, a: Action): Option<State>
  {
    match a {
      case ReadHeader => if s.storage == Starting then Some(s.(storage := Streaming, got := c.header)) else None
      case ReadPipe(n) =>
        if s.storage == Streaming && s.drainer.Sending? && 0 < n <= |s.drainer.rest| then
          var rest := s.drainer.rest[n..];
          Some(s.(got := s.got + s.drainer.rest[..n], drainer := if rest == [] then Selecting else Sending(rest)))
        else None
      case ReadEnd => if s.storage == Streaming && s.pipe == CleanEnd then Some(s.(storage := SawEnd)) else None
      case Commit => if s.storage == SawEnd && |s.got| == c.logical then Some(s.(storage := Returned(true))) else None
      case Fail => if ReaderGone(s) then None else Some(s.(storage := Returned(false)))
      case Publish => if s.storage.Returned? then Some(s.(storage := Done(s.storage.committed))) else None
      case _ => None
    }
  }

  function End(s: State, a: Action): Option<State>
  {
    match a {
      case CallFinish =>
        if s.finish != NotCalled || s.holder != Free then None
        else if s.drop != NotDropped then Some(s.(finish := Answered(false)))
        else Some(s.(finish := Waiting, closed := true))
      case FinishReturns =>
        if s.finish == Waiting && s.storage.Done?
        then Some(s.(finish := Answered(s.drop == NotDropped && s.storage.committed))) else None
      case _ => None
    }
  }

  /** One step, or nothing when the action is not enabled. */
  function Next(c: Config, s: State, a: Action): Option<State>
  {
    var write, abort, drain, read := Write(c, s, a), Abort(s, a), Drain(s, a), Read(c, s, a);
    if write.Some? then write else if abort.Some? then abort
    else if drain.Some? then drain else if read.Some? then read else End(s, a)
  }

  function Run(c: Config, s: State, actions: seq<Action>): Option<State>
    decreases |actions|
  {
    if actions == [] then Some(s)
    else
      var next := Next(c, s, actions[0]);
      if next.None? then None else Run(c, next.value, actions[1..])
  }

  // ----- what every run keeps ---------------------------------------------------------------

  function Concat(chunks: seq<Bytes>): Bytes
  {
    if chunks == [] then [] else Concat(chunks[..|chunks| - 1]) + chunks[|chunks| - 1]
  }

  /** The stream a complete object consists of. */
  function Whole(c: Config, s: State): Bytes
  {
    c.header + Concat(s.offered)
  }

  function InFlight(drainer: Drainer, queue: seq<Bytes>, holder: Holder): Bytes
  {
    (if drainer.Sending? then drainer.rest else []) + (Concat(queue) + (if holder.Checked? then holder.chunk else []))
  }

  /** Nothing is lost: what storage read, followed by what is on its way, is the whole stream. */
  ghost predicate Conserved(c: Config, s: State)
  {
    (if s.storage == Starting then c.header else s.got) + InFlight(s.drainer, s.queue, s.holder) == Whole(c, s)
  }

  /** The drainer has not given up on anything. */
  ghost predicate Draining(s: State)
  {
    s.drainer.Selecting? || s.drainer.Sending? || (s.closed && s.queue == [])
  }

  ghost predicate Inv(c: Config, s: State)
  {
    && |s.queue| <= c.slots && (s.holder == DropsFull ==> s.drop != NotDropped)
    && (s.closed ==> !s.holder.Checked?)
    && (s.drop == PipeBroken || s.drop == Stopped ==> s.pipe != Open)
    && (s.pipe == BrokenEnd ==> s.drop == PipeBroken || s.drop == Stopped)
    && (s.drainer == Left ==> s.pipe != Open)
    && (s.pipe == CleanEnd ==> s.drainer == Left)
    && (s.finish == Waiting ==> s.closed)
    && (s.storage == SawEnd ==> s.pipe == CleanEnd)
    && (ReaderGone(s) || s.pipe == BrokenEnd || Draining(s))
    // As long as no drop hit an open session, nothing is lost.
    && (s.drop == NotDropped || s.closed ==> ReaderGone(s) || s.pipe == BrokenEnd || Conserved(c, s))
    && (s.pipe == CleanEnd && !ReaderGone(s) ==> s.closed)
    && (ReaderGone(s) && s.storage.committed ==>
          && s.closed && s.got == Whole(c, s) && |s.got| == c.logical)
    && (s.finish == Answered(true) ==> s.closed && s.got == Whole(c, s) && |s.got| == c.logical
                                       && s.storage == Done(true))
  }

  lemma ConcatPush(chunks: seq<Bytes>, chunk: Bytes)
    ensures Concat(chunks + [chunk]) == Concat(chunks) + chunk
  {
    assert (chunks + [chunk])[..|chunks|] == chunks;
  }

  lemma {:induction false} ConcatPop(chunks: seq<Bytes>)
    requires chunks != []
    ensures Concat(chunks) == chunks[0] + Concat(chunks[1..])
  {
    var last := |chunks| - 1;
    if last > 0 {
      ConcatPop(chunks[..last]);
      assert chunks[..last][1..] == chunks[1..][..last - 1];
    }
  }

  /** A chunk in the hands of a writer comes after everything that is queued. */
  lemma InFlightHeld(drainer: Drainer, queue: seq<Bytes>, holder: Holder, chunk: Bytes)
    requires !holder.Checked?
    ensures InFlight(drainer, queue, Checked(chunk)) == InFlight(drainer, queue, holder) + chunk
    ensures InFlight(drainer, queue, Free) == InFlight(drainer, queue, holder)
  {
  }

  lemma InFlightQueued(drainer: Drainer, queue: seq<Bytes>, chunk: Bytes)
    ensures InFlight(drainer, queue + [chunk], Free) == InFlight(drainer, queue, Checked(chunk))
  {
    ConcatPush(queue, chunk);
  }

  lemma WriteKeeps(c: Config, s: State, a: Action)
    requires Inv(c, s) && Write(c, s, a).Some?
    ensures Inv(c, Write(c, s, a).value)
  {
    hide Concat, InFlight;
    match a {
      case Offer(chunk) =>
        ConcatPush(s.offered, chunk);
        InFlightHeld(s.drainer, s.queue, s.holder, chunk);
        var base := if s.storage == Starting then c.header else s.got;
        var now := InFlight(s.drainer, s.queue, s.holder);
        assert base + (now + chunk) == base + now + chunk;
        assert Whole(c, s) + chunk == c.header + (Concat(s.offered) + chunk);
      case Enqueue =>
        InFlightQueued(s.drainer, s.queue, s.holder.chunk);
      case SeeStop =>
      case FindFull =>
      case Unlock =>
        InFlightHeld(s.drainer, s.queue, s.holder, []);
    }
  }

  lemma AbortKeeps(c: Config, s: State, a: Action)
    requires Inv(c, s) && Abort(s, a).Some?
    ensures Inv(c, Abort(s, a).value)
  {
    hide Concat;
  }

  lemma DrainKeeps(c: Config, s: State, a: Action)
    requires Inv(c, s) && Drain(s, a).Some?
    ensures Inv(c, Drain(s, a).value)
  {
    hide Concat;
    if a == TakeChunk {
      ConcatPop(s.queue);
    }
  }

  lemma ReadKeeps(c: Config, s: State, a: Action)
    requires Inv(c, s) && Read(c, s, a).Some?
    ensures Inv(c, Read(c, s, a).value)
  {
    hide Concat, InFlight;
    NothingInFlight(s);
    match a {
      case ReadPipe(n) => ReadPipeConserves(c, s, n);
      case _ =>
    }
  }

  lemma ReadPipeConserves(c: Config, s: State, n: nat)
    requires Read(c, s, ReadPipe(n)).Some?
    ensures var next := Read(c, s, ReadPipe(n)).value;
            next.got + InFlight(next.drainer, next.queue, next.holder) == s.got + InFlight(s.drainer, s.queue, s.holder)
  {
    hide Concat;
    var rest := s.drainer.rest;
    Reassociate(s.got, rest[..n], rest[n..], Concat(s.queue) + (if s.holder.Checked? then s.holder.chunk else []));
    assert rest[..n] + rest[n..] == rest;
  }

  lemma Reassociate(a: Bytes, b: Bytes, c: Bytes, d: Bytes)
    ensures (a + b) + (c + d) == a + ((b + c) + d)
  {
  }

  lemma NothingInFlight(s: State)
    ensures !s.drainer.Sending? && s.queue == [] && !s.holder.Checked? ==> InFlight(s.drainer, s.queue, s.holder) == []
  {
  }

  lemma EndKeeps(c: Config, s: State, a: Action)
    requires Inv(c, s) && End(s, a).Some?
    ensures Inv(c, End(s, a).value)
  {
    hide Concat;
  }

  lemma NextKeeps(c: Config, s: State, a: Action)
    requires Inv(c, s) && Next(c, s, a).Some?
    ensures Inv(c, Next(c, s, a).value)
  {
    hide Inv, Write, Abort, Drain, Read, End;
    if Write(c, s, a).Some? {
      WriteKeeps(c, s, a);
    } else if Abort(s, a).Some? {
      AbortKeeps(c, s, a);
    } else if Drain(s, a).Some? {
      DrainKeeps(c, s, a);
    } else if Read(c, s, a).Some? {
      ReadKeeps(c, s, a);
    } else {
      EndKeeps(c, s, a);
    }
  }

  lemma {:induction false} RunKeeps(c: Config, s: State, actions: seq<Action>)
    requires Inv(c, s) && Run(c, s, actions).Some?
    ensures Inv(c, Run(c, s, actions).value)
    decreases |actions|
  {
    hide Inv, Next;
    if actions != [] {
      NextKeeps(c, s, actions[0]);
      RunKeeps(c, Next(c, s, actions[0]).value, actions[1..]);
    }
  }

  // ----- what a run can end in --------------------------------------------------------------

  /** The chunks of the writes that come before the call of finish. */
  function OffersBeforeFinish(actions: seq<Action>): seq<Bytes>
    decreases |actions|
  {
    if actions == [] || actions[0] == CallFinish then []
    else (if actions[0].Offer? then [actions[0].chunk] else []) + OffersBeforeFinish(actions[1..])
  }

  /** After finish was called nothing changes what counts as offered to a closed queue. */
  lemma {:induction false} FinishedRun(c: Config, s: State, actions: seq<Action>)
    requires s.finish != NotCalled && Run(c, s, actions).Some?
    ensures var last := Run(c, s, actions).value;
            last.closed == s.closed && last.finish != NotCalled && (s.closed ==> last.offered == s.offered)
    decreases |actions|
  {
    if actions != [] {
      var next := Next(c, s, actions[0]).value;
      assert next.closed == s.closed && next.finish != NotCalled && (s.closed ==> next.offered == s.offered);
      FinishedRun(c, next, actions[1..]);
    }
  }

  lemma NextOffered(c: Config, s: State, a: Action)
    requires s.finish == NotCalled && !s.closed && Next(c, s, a).Some?
    ensures var next := Next(c, s, a).value;
            && next.offered == s.offered + (if a.Offer? then [a.chunk] else [])
            && (if a == CallFinish then next.finish != NotCalled else next.finish == NotCalled && !next.closed)
  {
  }

  lemma {:induction false} OfferedInRun(c: Config, s: State, actions: seq<Action>)
    requires s.finish == NotCalled && !s.closed && Run(c, s, actions).Some?
    ensures var last := Run(c, s, actions).value;
            last.closed ==> last.offered == s.offered + OffersBeforeFinish(actions)
    decreases |actions|
  {
    hide Next;
    if actions != [] {
      var next := Next(c, s, actions[0]).value;
      NextOffered(c, s, actions[0]);
      if actions[0] == CallFinish {
        FinishedRun(c, next, actions[1..]);
      } else {
        OfferedInRun(c, next, actions[1..]);
      }
    }
  }

  /** Under every interleaving: a clean end of the stream, a commit, and a finish without an error
      each mean that storage has read the header and every chunk written before finish, in order,
      and that a committed object has its declared length. */
  lemma CleanEndIsWhole(c: Config, actions: seq<Action>)
    requires Run(c, Start(), actions).Some?
    ensures var s := Run(c, Start(), actions).value;
            var whole := c.header + Concat(OffersBeforeFinish(actions));
            && (s.storage == SawEnd ==> s.got == whole)
            && (ReaderGone(s) && s.storage.committed ==> s.got == whole && |whole| == c.logical)
            && (s.finish == Answered(true) ==> s.storage == Done(true))
  {
    hide Inv, Run, Concat, OffersBeforeFinish, Next;
    var s := Run(c, Start(), actions).value;
    StartInv(c);
    RunKeeps(c, Start(), actions);
    OfferedInRun(c, Start(), actions);
    assert Start().offered + OffersBeforeFinish(actions) == OffersBeforeFinish(actions);
    AtEnd(c, s);
  }

  lemma AtEnd(c: Config, s: State)
    requires Inv(c, s)
    ensures s.storage == SawEnd ==> s.closed && s.got == Whole(c, s)
    ensures ReaderGone(s) && s.storage.committed ==> s.closed && s.got == Whole(c, s) && |s.got| == c.logical
    ensures s.finish == Answered(true) ==> s.storage == Done(true)
  {
    NothingInFlight(s);
  }

  lemma StartInv(c: Config)
    ensures Inv(c, Start())
  {
  }

  /** A session that is dropped before finish closes it never commits, whatever else happens. */
  lemma DroppedNeverCommits(c: Config, before: seq<Action>, after: seq<Action>)
    requires Run(c, Start(), before).Some? && Run(c, Run(c, Start(), before).value, after).Some?
    requires var s := Run(c, Start(), before).value; s.drop != NotDropped && !s.closed
    ensures var last := Run(c, Run(c, Start(), before).value, after).value;
            !(ReaderGone(last) && last.storage.committed) && last.finish != Answered(true)
  {
    hide Inv;
    StartInv(c);
    RunKeeps(c, Start(), before);
    var s := Run(c, Start(), before).value;
    RunKeeps(c, s, after);
    StaysDropped(c, s, after);
    AtEnd(c, Run(c, s, after).value);
  }

  lemma {:induction false} StaysDropped(c: Config, s: State, actions: seq<Action>)
    requires s.drop != NotDropped && !s.closed && Run(c, s, actions).Some?
    ensures !Run(c, s, actions).value.closed
    decreases |actions|
  {
    if actions != [] {
      StaysDropped(c, Next(c, s, actions[0]).value, actions[1..]);
    }
  }

  // ----- no step of the protocol waits for nothing ------------------------------------------

  ghost predicate NoEmptyChunks(s: State)
  {
    && (forall i :: 0 <= i < |s.queue| ==> s.queue[i] != [])
    && (s.drainer.Sending? ==> s.drainer.rest != []) && (s.holder.Checked? ==> s.holder.chunk != [])
  }

  lemma NextKeepsChunks(c: Config, s: State, a: Action)
    requires NoEmptyChunks(s) && Next(c, s, a).Some?
    ensures NoEmptyChunks(Next(c, s, a).value)
  {
  }

  lemma {:induction false} RunKeepsChunks(c: Config, s: State, actions: seq<Action>)
    requires NoEmptyChunks(s) && Run(c, s, actions).Some?
    ensures NoEmptyChunks(Run(c, s, actions).value)
    decreases |actions|
  {
    hide Next, NoEmptyChunks;
    if actions != [] {
      NextKeepsChunks(c, s, actions[0]);
      RunKeepsChunks(c, Next(c, s, actions[0]).value, actions[1..]);
    }
  }

  /** Once finish has closed the queue, or a drop is over, a storage that still waits for the pipe
      always has a next step of the drainer, or its own, to wait for, or the pipe is closed. */
  lemma NoStall(c: Config, actions: seq<Action>)
    requires Run(c, Start(), actions).Some?
    requires var s := Run(c, Start(), actions).value;
             s.storage == Streaming && (s.closed || s.drop == Stopped)
    ensures var s := Run(c, Start(), actions).value;
            || s.pipe != Open
            || exists a :: a in {TakeChunk, SeeClosed, ClosePipe, ReadPipe(1)} && Next(c, s, a).Some?
  {
    var s := Run(c, Start(), actions).value;
    StartInv(c);
    RunKeeps(c, Start(), actions);
    RunKeepsChunks(c, Start(), actions);
    var a := match s.drainer {
      case Selecting => if s.queue != [] then TakeChunk else SeeClosed
      case Sending(_) => ReadPipe(1)
      case _ => ClosePipe
    };
    assert s.pipe == Open ==> Next(c, s, a).Some?;
  }

  // ----- and success is always in reach -----------------------------------------------------

  /** A write to an open session that is not dropped goes on. With a free slot it can only end with its
      chunk in the queue, and without one only by dropping the session. */
  lemma FreeSlotQueues(c: Config, s: State, chunk: Bytes)
    requires s.drop == NotDropped
    ensures s.holder == Free && !s.closed && chunk != [] ==>
              Next(c, s, Offer(chunk)) == Some(s.(offered := s.offered + [chunk], holder := Checked(chunk)))
    ensures s.holder == Checked(chunk) && |s.queue| < c.slots ==>
              && Next(c, s, Enqueue) == Some(s.(queue := s.queue + [chunk], holder := Free))
              && Next(c, s, SeeStop) == Next(c, s, FindFull) == Next(c, s, Unlock) == None
    ensures s.holder == Checked(chunk) && |s.queue| >= c.slots ==>
              && Next(c, s, FindFull) == Some(s.(holder := DropsFull, drop := Flagged))
              && Next(c, s, SeeStop) == Next(c, s, Enqueue) == Next(c, s, Unlock) == None
  {
  }

  /** Finish waits, nothing was dropped and the storage has not failed. */
  ghost predicate Promising(c: Config, s: State)
  {
    && Inv(c, s) && NoEmptyChunks(s) && s.finish == Waiting && s.drop == NotDropped
    && (ReaderGone(s) ==> s.storage.committed) && |Whole(c, s)| == c.logical
  }

  function StorageRank(storage: Storage): nat
  {
    match storage case Starting => 4 case Streaming => 3 case SawEnd => 2 case Returned(_) => 1 case Done(_) => 0
  }

  function DrainerRank(drainer: Drainer): nat
  {
    match drainer case Sending(_) => 3 case Selecting => 2 case Leaving => 1 case Left => 0
  }

  /** The step that takes a promising session on. */
  function Onward(s: State): Action
  {
    match s.storage
    case Starting => ReadHeader
    case Streaming =>
      (match s.drainer
       case Sending(rest) => ReadPipe(|rest|)
       case Selecting => if s.queue != [] then TakeChunk else SeeClosed
       case Leaving => ClosePipe
       case Left => ReadEnd)
    case SawEnd => Commit
    case Returned(_) => Publish
    case Done(_) => FinishReturns
  }

  lemma OnwardStep(c: Config, s: State)
    requires Promising(c, s)
    ensures Next(c, s, Onward(s)).Some?
    ensures var next := Next(c, s, Onward(s)).value;
            if s.storage.Done? then next.finish == Answered(true)
            else
              && Promising(c, next)
              && (|| StorageRank(next.storage) < StorageRank(s.storage)
                  || (&& next.storage == s.storage
                      && (|| |next.queue| < |s.queue|
                          || (next.queue == s.queue && DrainerRank(next.drainer) < DrainerRank(s.drainer)))))
  {
    hide Concat, Inv;
    AtEnd(c, s);
    OnwardEnabled(c, s);
    NextKeeps(c, s, Onward(s));
    NextKeepsChunks(c, s, Onward(s));
  }

  lemma OnwardEnabled(c: Config, s: State)
    requires Promising(c, s)
    ensures s.closed && (s.drainer == Left ==> s.pipe == CleanEnd)
    ensures s.drainer.Sending? ==> s.drainer.rest != []
  {
    hide Concat;
  }

  lemma {:induction false} Completes(c: Config, s: State) returns (more: seq<Action>)
    requires Promising(c, s)
    ensures Run(c, s, more).Some? && Run(c, s, more).value.finish == Answered(true)
    decreases StorageRank(s.storage), |s.queue|, DrainerRank(s.drainer)
  {
    hide Promising, Next;
    OnwardStep(c, s);
    var next := Next(c, s, Onward(s)).value;
    if s.storage.Done? {
      more := [Onward(s)];
      assert Run(c, next, more[1..]) == Some(next);
    } else {
      var rest := Completes(c, next);
      more := [Onward(s)] + rest;
      assert more[1..] == rest;
    }
  }

  /** Every run that was not dropped and whose storage has not failed can still be committed and
      answered with success, if what was written has the declared length: all it takes is that no
      write is under way when finish is called. */
  lemma SuccessInReach(c: Config, actions: seq<Action>) returns (more: seq<Action>)
    requires Run(c, Start(), actions).Some?
    requires var s := Run(c, Start(), actions).value;
             && s.drop == NotDropped && (ReaderGone(s) ==> s.storage.committed)
             && (s.finish == Waiting || (s.finish == NotCalled && s.holder == Free))
             && |c.header + Concat(s.offered)| == c.logical
    ensures var s := Run(c, Start(), actions).value;
            && Run(c, s, more).Some? && Run(c, s, more).value.finish == Answered(true)
            && Run(c, s, more).value.storage == Done(true)
  {
    hide Concat, Inv, NoEmptyChunks;
    var s := Run(c, Start(), actions).value;
    StartInv(c);
    StartChunks();
    RunKeeps(c, Start(), actions);
    RunKeepsChunks(c, Start(), actions);
    if s.finish == Waiting {
      more := Completes(c, s);
    } else {
      NextKeeps(c, s, CallFinish);
      NextKeepsChunks(c, s, CallFinish);
      var next := Next(c, s, CallFinish).value;
      var rest := Completes(c, next);
      more := [CallFinish] + rest;
      assert more[1..] == rest;
    }
    RunKeeps(c, s, more);
    AtEnd(c, Run(c, s, more).value);
  }

  lemma StartChunks()
    ensures NoEmptyChunks(Start())
  {
  }

  /** Whatever a dropped session has to do yet: the drop itself, the write that waits for it, and the
      drainer. */
  function WindingDown(s: State): Option<Action>
  {
    match s.drop
    case NotDropped => None
    case Flagged => Some(BreakPipe)
    case PipeBroken => Some(CloseStop)
    case Stopped =>
      if s.holder == DropsFull then Some(Unlock)
      else match s.drainer
           case Sending(_) => Some(WriteFails)
           case Selecting => Some(StopDraining)
           case Leaving => Some(ClosePipe)
           case Left => None
  }

  function DropRank(drop: Drop): nat
  {
    match drop case NotDropped => 3 case Flagged => 2 case PipeBroken => 1 case Stopped => 0
  }

  lemma WindingDownStep(c: Config, s: State)
    requires Inv(c, s) && WindingDown(s).Some?
    ensures Next(c, s, WindingDown(s).value).Some?
    ensures var next := Next(c, s, WindingDown(s).value).value;
            && Inv(c, next) && next.drop != NotDropped
            && (|| DropRank(next.drop) < DropRank(s.drop)
                || (next.drop == s.drop && s.holder == DropsFull && next.holder == Free)
                || (next.drop == s.drop && next.holder == s.holder != DropsFull &&
                    DrainerRank(next.drainer) < DrainerRank(s.drainer)))
  {
    hide Concat, Inv;
    PipeClosed(c, s);
    NextKeeps(c, s, WindingDown(s).value);
  }

  lemma PipeClosed(c: Config, s: State)
    requires Inv(c, s)
    ensures s.drop == PipeBroken || s.drop == Stopped ==> s.pipe != Open
  {
    hide Concat;
  }

  /** A session that is dropped comes to an end by itself: the write that found the queue full returns,
      and the drainer leaves with the pipe closed, whether or not anybody reads from it. */
  lemma {:induction false} DropEnds(c: Config, s: State) returns (more: seq<Action>)
    requires Inv(c, s) && s.drop != NotDropped
    ensures Run(c, s, more).Some?
    ensures var last := Run(c, s, more).value;
            last.drop == Stopped && last.holder != DropsFull && last.drainer == Left && last.pipe != Open
    decreases DropRank(s.drop), if s.holder == DropsFull then 1 else 0, DrainerRank(s.drainer)
  {
    hide Inv, Next;
    var action := WindingDown(s);
    if action.None? {
      PipeClosed(c, s);
      more := [];
    } else {
      WindingDownStep(c, s);
      var next := Next(c, s, action.value).value;
      var rest := DropEnds(c, next);
      more := [action.value] + rest;
      assert more[1..] == rest;
    }
  }
}
