/** The byte reservations that open captures and their encoders hold against the cache's budgets. */
module Reservations {
  import opened Common
  import opened CacheModel
  import opened Admission

  const BLOCK: nat := 4096

  /** What a capture of this many bytes reserves: room for the spool and its encoded copy. */
  function Needed(total: nat): nat
  {
    ((2 * total + 8191) / BLOCK) * BLOCK
  }

  const LARGEST: nat := (MAX_UINT64 - 8192) / 2

  /** The reservation is the least number of whole blocks with at least 2 * total + 4096 bytes. For
      every total that is not refused it is computed within 64 bits, and so it would be for one more. */
  lemma NeededBlocks(total: nat)
    ensures Needed(total) % 4096 == 0 && 2 * total + 4096 <= Needed(total) < 2 * total + 8192
    ensures 2 * total + 8191 <= MAX_UINT64 <==> total <= LARGEST + 1
  {
  }

  lemma NeededGrows(total: nat, more: nat)
    requires total <= more
    ensures Needed(total) <= Needed(more)
  {
  }

  function Amount(holder: Key, bytes: nat): nat { bytes }

  /** What the provider measured when it was asked; nothing if the disk could not be read. */
  datatype Usage = Unknown | Usage(budget: Budget, accountedUsed: nat, physicalUsed: nat)

  /** Next to what is used, this many bytes fit under both budgets. */
  predicate Fits(usage: Usage, bytes: int)
  {
    && usage.Usage? && usage.accountedUsed + bytes <= usage.budget.accountedAvailable
    && usage.physicalUsed + bytes <= usage.budget.physicalAvailable
  }

  // ----- what was granted and given back ----------------------------------------------------

  datatype Move = Grant(path: Key, bytes: nat) | Return(path: Key, bytes: nat)

  function GrantedTo(log: seq<Move>, path: Key): nat
  {
    if log == [] then 0
    else
      var last := log[|log| - 1];
      GrantedTo(log[..|log| - 1], path) + (if last.Grant? && last.path == path then last.bytes else 0)
  }

  function ReturnedBy(log: seq<Move>, path: Key): nat
  {
    if log == [] then 0
    else
      var last := log[|log| - 1];
      ReturnedBy(log[..|log| - 1], path) + (if last.Return? && last.path == path then last.bytes else 0)
  }

  function Granted(log: seq<Move>): nat
  {
    if log == [] then 0
    else Granted(log[..|log| - 1]) + (if log[|log| - 1].Grant? then log[|log| - 1].bytes else 0)
  }

  function Returned(log: seq<Move>): nat
  {
    if log == [] then 0
    else Returned(log[..|log| - 1]) + (if log[|log| - 1].Return? then log[|log| - 1].bytes else 0)
  }

  ghost function Sum(m: map<Key, nat>): nat { Total(m, Amount) }

  function HeldBy(m: map<Key, nat>, path: Key): nat { if path in m then m[path] else 0 }

  lemma SumPut(m: map<Key, nat>, path: Key, bytes: nat)
    ensures Sum(m[path := bytes]) + HeldBy(m, path) == Sum(m) + bytes
  {
    TotalUpdate(m, path, bytes, Amount);
    SumDrop(m, path);
  }

  lemma SumDrop(m: map<Key, nat>, path: Key)
    ensures Sum(m - {path}) + HeldBy(m, path) == Sum(m)
  {
    if path in m {
      TotalSplit(m, path, Amount);
    } else {
      assert m - {path} == m;
    }
  }

  lemma SumOfNothing()
    ensures Sum(map[]) == 0
  {
  }

  /** Every holder has what it was granted less what it gave back. */
  ghost predicate Balanced(log: seq<Move>, captures: map<Key, nat>, encoders: map<Key, nat>)
  {
    forall path :: GrantedTo(log, path) == ReturnedBy(log, path) + HeldBy(captures, path) + HeldBy(encoders, path)
  }

  lemma LogPush(log: seq<Move>, move: Move)
    ensures var next := log + [move];
            && Granted(next) == Granted(log) + (if move.Grant? then move.bytes else 0)
            && Returned(next) == Returned(log) + (if move.Return? then move.bytes else 0)
            && forall path ::
                 && GrantedTo(next, path) ==
                      GrantedTo(log, path) + (if move.Grant? && move.path == path then move.bytes else 0)
                 && ReturnedBy(next, path) ==
                      ReturnedBy(log, path) + (if move.Return? && move.path == path then move.bytes else 0)
  {
    assert (log + [move])[..|log|] == log;
  }

  lemma NothingMoved()
    ensures Granted([]) == 0 && Returned([]) == 0 && Balanced([], map[], map[])
  {
  }

  lemma BalancedPush(log: seq<Move>, captures: map<Key, nat>, encoders: map<Key, nat>, move: Move,
                     captures': map<Key, nat>, encoders': map<Key, nat>)
    requires Balanced(log, captures, encoders)
    requires forall path :: path != move.path ==>
               HeldBy(captures, path) == HeldBy(captures', path) && HeldBy(encoders, path) == HeldBy(encoders', path)
    requires var before := HeldBy(captures, move.path) + HeldBy(encoders, move.path);
             var after := HeldBy(captures', move.path) + HeldBy(encoders', move.path);
             if move.Grant? then after == before + move.bytes else before == after + move.bytes
    ensures Balanced(log + [move], captures', encoders')
  {
    LogPush(log, move);
  }

  lemma BalancedDone(log: seq<Move>, captures: map<Key, nat>, encoders: map<Key, nat>, path: Key)
    requires Balanced(log, captures, encoders) && path in encoders
    ensures Balanced(log + [Return(path, encoders[path])], captures, encoders - {path})
  {
    hide Balanced;
    BalancedPush(log, captures, encoders, Return(path, encoders[path]), captures, encoders - {path});
  }

  lemma BalancedMove(log: seq<Move>, captures: map<Key, nat>, encoders: map<Key, nat>, captures': map<Key, nat>,
                     encoders': map<Key, nat>)
    requires Balanced(log, captures, encoders)
    requires forall path :: HeldBy(captures, path) + HeldBy(encoders, path) ==
                              HeldBy(captures', path) + HeldBy(encoders', path)
    ensures Balanced(log, captures', encoders')
  {
  }

  /** Once nobody holds anything, all is given back, and the counter is at zero. */
  lemma AllReturned(log: seq<Move>, captures: map<Key, nat>)
    requires Balanced(log, captures, map[]) && forall path :: path in captures ==> captures[path] == 0
    ensures forall path :: GrantedTo(log, path) == ReturnedBy(log, path)
    ensures Sum(captures) + Sum(map[]) == 0
  {
    SumOfNothing();
    TotalSkipsFree(map[], captures, Amount);
  }

  /** The counter shared by all captures of a provider. Captures are named by their spool file. */
  class Ledger {
    var captureBytes: nat
    ghost var captures: map<Key, nat>  // what each capture holds
    var encoders: map<Key, nat>        // what each encoder that outlived its capture holds
    ghost var log: seq<Move>           // every grant and every release

    /** The counter is the sum of what all captures and encoders hold, and what was granted less
        what was given back, in total and holder by holder. */
    ghost predicate Valid()
      reads this
    {
      && captureBytes == Sum(captures) + Sum(encoders)
      && Granted(log) == Returned(log) + captureBytes && Balanced(log, captures, encoders)
    }

    constructor ()
      ensures Valid() && captureBytes == 0 && captures == map[] && encoders == map[] && log == []
    {
      captureBytes, captures, encoders, log := 0, map[], map[], [];
      NothingMoved();
      SumOfNothing();
    }

    /** A new capture holds nothing. */
    ghost method Open(path: Key)
      requires Valid() && path !in captures
      modifies this`captures
      ensures Valid() && captures == old(captures)[path := 0]
    {
      SumPut(captures, path, 0);
      BalancedMove(log, captures, encoders, captures[path := 0], encoders);
      captures := captures[path := 0];
    }

    /** Grants exactly what fits into both budgets next to everything used and reserved. */
    method Reserve(path: Key, bytes: nat, usage: Usage) returns (granted: bool)
      requires Valid() && path in captures
      modifies this`captureBytes, this`captures, this`log
      ensures Valid()
      ensures granted <==> usage.Usage? && (bytes == 0 || Fits(usage, old(captureBytes) + bytes))
      ensures captures == if granted then old(captures)[path := old(captures)[path] + bytes] else old(captures)
      ensures captureBytes == old(captureBytes) + (if granted then bytes else 0)
      ensures log == if granted then old(log) + [Grant(path, bytes)] else old(log)
      ensures granted && bytes > 0 ==>
                && usage.accountedUsed + captureBytes <= usage.budget.accountedAvailable
                && usage.physicalUsed + captureBytes <= usage.budget.physicalAvailable
    {
      hide Balanced, Granted, Returned, Sum;
      if usage.Unknown? {
        return false;
      }
      var accountedFree := Less(usage.budget.accountedAvailable, usage.accountedUsed);
      var physicalFree := Less(usage.budget.physicalAvailable, usage.physicalUsed);
      accountedFree := Less(accountedFree, captureBytes);
      physicalFree := Less(physicalFree, captureBytes);
      if bytes > accountedFree || bytes > physicalFree {
        return false;
      }
      ghost var held: nat := captures[path] + bytes;
      SumPut(captures, path, held);
      BalancedPush(log, captures, encoders, Grant(path, bytes), captures[path := held], encoders);
      LogPush(log, Grant(path, bytes));
      captureBytes := captureBytes + bytes;
      captures := captures[path := held];
      log := log + [Grant(path, bytes)];
      return true;
    }

    /** Gives back what a capture holds; the counter never has to stop at zero. */
    method Release(path: Key, bytes: nat)
      requires Valid() && path in captures && captures[path] == bytes
      modifies this`captureBytes, this`captures, this`log
      ensures Valid() && captures == old(captures)[path := 0] && captureBytes + bytes == old(captureBytes)
      ensures log == old(log) + [Return(path, bytes)]
    {
      hide Balanced, Granted, Returned, Sum;
      SumPut(captures, path, 0);
      BalancedPush(log, captures, encoders, Return(path, bytes), captures[path := 0], encoders);
      LogPush(log, Return(path, bytes));
      captureBytes := Less(captureBytes, bytes);
      captures := captures[path := 0];
      log := log + [Return(path, bytes)];
    }

    /** A capture that closes before its encoder is done leaves its reservation to the encoder. */
    method HandOver(path: Key, bytes: nat)
      requires Valid() && path in captures && captures[path] == bytes
      modifies this`captures, this`encoders
      ensures Valid() && captures == old(captures)[path := 0]
      ensures encoders == old(encoders)[path := HeldBy(old(encoders), path) + bytes]
    {
      hide Balanced, Granted, Returned, Sum;
      var waiting: nat := HeldBy(encoders, path) + bytes;
      SumPut(captures, path, 0);
      SumPut(encoders, path, waiting);
      BalancedMove(log, captures, encoders, captures[path := 0], encoders[path := waiting]);
      captures := captures[path := 0];
      encoders := encoders[path := waiting];
    }

    /** The encoder is done: its reservation is given back, once. */
    method EncoderDone(path: Key)
      requires Valid() && path in encoders
      modifies this`captureBytes, this`encoders, this`log
      ensures Valid() && encoders == old(encoders) - {path}
      ensures captureBytes + old(encoders)[path] == old(captureBytes)
      ensures log == old(log) + [Return(path, old(encoders)[path])]
    {
      hide Balanced, Granted, Returned, Sum;
      SumDrop(encoders, path);
      BalancedDone(log, captures, encoders, path);
      LogPush(log, Return(path, encoders[path]));
      captureBytes := Less(captureBytes, encoders[path]);
      log := log + [Return(path, encoders[path])];
      encoders := encoders - {path};
    }
  }
}
