/** Whole runs: any sequence of operations, each succeeding or failing, keeps every structure of
    the provider in agreement. */
module Runs {
  import opened Common
  import opened CacheModel
  import opened ExpirationHeap
  import opened Index
  import opened Admission
  import opened Install
  import opened Batch
  import Deletions
  import Flush
  import Maintenance

  datatype Op =
    | Write(batch: seq<PendingWrite>, now: int, limits: Limits, usage: Option<DiskUsage>, faults: seq<Fault>,
            syncFails: bool)
    | Prune(now: int)
    | RemoveExpired(key: Key, generation: nat, now: int)
    | RemoveCorrupt(key: Key, generation: nat)
    | Delete(key: Key)
    | DeleteEntry(baseKey: string)
    | PurgeKeys(keys: seq<Key>)
    | PurgeTags(groups: seq<Group>)
    | Evict(accounted: nat, physical: nat)
    | Refresh(baseKey: string, matches: KeyIndex -> bool, json: string, duration: int, now: int)
    | Touch(key: Key, generation: nat, now: int, modified: bool, contended: bool)
    | Reset

  /** What the callers guarantee: body keys and file lengths are as the writer computed them. */
  ghost predicate Callable(op: Op)
  {
    op.Write? ==> AllWellFormed(op.batch) && |op.batch| <= |op.faults|
  }

  ghost function CacheOf(i: Snapshot): Cache { Abstract(i.items, i.itemGroups) }

  /** What an operation chose where the program leaves a choice open: the order in which keys were
      deleted, the variant it renewed, how the writes of a batch were processed, and the bodies that
      went to the end of the recency list, in their order. */
  datatype Note = Note(order: seq<Key>, chosen: Option<Key>, results: seq<WriteResult>, staged: seq<WriteResult>,
                       trace: seq<Stage>, evictions: seq<seq<Key>>, moved: seq<Key>)

  /** The fixed parameters of a provider. */
  datatype Setup = Setup(stale: nat, pathLength: nat)

  /** The keys an operation deletes, in order. */
  ghost predicate Deletes(before: Snapshot, op: Op, order: seq<Key>)
  {
    var c := CacheOf(before);
    match op {
      case Write(_, now, _, _, _, _) => SweepOrder(c, now, order)
      case Prune(now) => SweepOrder(c, now, order)
      case RemoveExpired(key, generation, now) =>
        order == if Maintenance.Current(before.items, key, generation) && key in Due(c, now) then [key] else []
      case RemoveCorrupt(key, generation) =>
        order == if Maintenance.Current(before.items, key, generation) then [key] else []
      case Delete(key) => order == [key]
      case DeleteEntry(baseKey) => Deletions.EntryOrder(before.items, MappingKey(baseKey), order)
      case PurgeKeys(keys) => order == keys
      case PurgeTags(groups) => Distinct(order) && KeySet(order) == Deletions.TaggedWith(c, set g | g in groups)
      case Evict(accounted, physical) => Deletions.EvictionOrder(c, before.lru, accounted, physical, order)
      case _ => order == []
    }
  }

  predicate IsDue(item: Item, now: int)
  {
    item.record.expiresAt.Some? && item.record.expiresAt.value <= now
  }

  /** How far the accounted use is below the sum it stands for. */
  ghost function ShortageAt(i: Snapshot): int { AccountedTotal(CacheOf(i)) - i.cacheUsed }

  /** The counters stand for the cache: physical use is exact, accounted use not too high. */
  ghost predicate CountersHold(i: Snapshot)
  {
    WellFormed(CacheOf(i)) && i.physicalUsed == PhysicalTotal(CacheOf(i)) && ShortageAt(i) >= 0
  }

  /** What an operation does to the cache and to the recency list. One whose transaction fails does
      nothing. */
  ghost predicate Effect(setup: Setup, before: Snapshot, op: Op, fails: bool, after: Snapshot, note: Note)
  {
    var c, d := CacheOf(before), CacheOf(after);
    && Deletes(before, op, note.order) && after.lru == Recent(before.lru, Bodies(d), note.moved)
    && match op {
      case Write(_, _, _, _, _, _) => WriteEffect(setup, before, op, fails, after, note)
      case Refresh(baseKey, matches, json, duration, now) =>
        var m, index := MappingKey(baseKey), Maintenance.NewIndex(now, duration, setup.stale, json);
        && Maintenance.Chosen(c, m, matches, note.chosen)
        && if Maintenance.RenewsChosen(c, m, note.chosen, index) && !fails
           then && note.moved == [note.chosen.value]
                && d == Maintenance.Renewed(c, m, note.chosen.value, index, now + duration + setup.stale, now)
           else after == before && note.moved == []
      case Touch(key, generation, now, _, contended) =>
        if && Maintenance.Current(before.items, key, generation) && Maintenance.Elapsed(before.items[key], now)
           && !contended
        then && key in c && d == Maintenance.Stamped(c, key, now)
             && note.moved == if key in Bodies(c) then [key] else []
        else d == c && note.moved == []
      case Reset => note.moved == [] && if fails then after == before else d == map[]
      case _ => note.moved == [] && if fails then after == before else d == Purged(c, KeySet(note.order))
    }
  }

  /** A batch: the sweep, then its writes one after the other, each admitted or not under the budget
      of this batch and from the counters the sweep has left; and all of it takes effect, within the
      physical budget, and within the accounted one but for what the account is behind, exactly when
      a write was accepted, the files got into place and the transaction succeeded. */
  ghost predicate WriteEffect(setup: Setup, before: Snapshot, op: Op, fails: bool, after: Snapshot, note: Note)
    requires op.Write?
  {
    var budget := Flush.BudgetFor(op.limits, op.batch, op.usage, before.physicalUsed);
    var behind := ShortageAt(before) + Lost(CacheOf(before), note.order);
    if op.usage.None?
    then !Flush.SomeStored(note.results) && Flush.Indexes(after) == Flush.Indexes(before) && note.moved == []
    else
      && Flush.Processed(note.trace, note.evictions, op.batch, note.staged, before.lru, setup.stale, setup.pathLength,
                         budget)
      && |note.staged| == |op.batch| <= |op.faults|
      && note.trace[0].cache == Purged(CacheOf(before), Due(CacheOf(before), op.now))
      && Flush.Opens(note.trace[0], behind)
      && if Flush.Commits(before.files, op.batch, note.staged, op.faults, op.syncFails, fails)
         then && note.results == note.staged && Flush.Ends(after, note.trace[|op.batch|], budget, behind)
              && KeySet(note.moved) == note.trace[|op.batch|].accepted
         else && note.results == Flush.Failed(note.staged) && Flush.Indexes(after) == Flush.Indexes(before)
              && note.moved == []
  }

  /** The operation took effect. */
  predicate Happened(op: Op, fails: bool, note: Note)
  {
    if op.Write? then Flush.SomeStored(note.results) else !fails
  }

  /** What the account may fall behind: the sizes of the mapping records met by their own keys. */
  ghost function Loss(before: Snapshot, op: Op, fails: bool, note: Note): nat
  {
    if Happened(op, fails, note) then Lost(CacheOf(before), note.order) else 0
  }

  /** An operation whose transaction fails, or a batch without a stored write, loses nothing. */
  lemma NothingLost(before: Snapshot, op: Op, fails: bool, note: Note)
    requires if op.Write? then forall i :: 0 <= i < |note.results| ==> note.results[i] != Stored else fails
    ensures Loss(before, op, fails, note) == 0
  {
  }

  /** The operation took effect and met a mapping record by its own key. */
  ghost predicate Strikes(before: Snapshot, op: Op, fails: bool, note: Note)
  {
    ByOwnKey(CacheOf(before), note.order) && Happened(op, fails, note)
  }

  /** A batch leaves a file behind: a stat failed right after its rename. */
  ghost predicate Leaks(before: Snapshot, op: Op, note: Note)
  {
    op.Write? && |note.staged| <= |op.batch| <= |op.faults|
    && StatFailed(before.files, Flush.AcceptedOf(op.batch, note.staged), op.faults)
  }

  lemma SameCache(p: Provider, i: Snapshot)
    requires i == p.Image() && p.Valid()
    ensures p.Cached() == CacheOf(i) && CacheOf(i).Keys == i.items.Keys && CountersHold(i)
    ensures p.Shortage() == ShortageAt(i) && Recent(i.lru, Bodies(CacheOf(i)), []) == i.lru
  {
    RecentSame(p.items, p.itemGroups, p.lru);
  }

  lemma OneKey(c: Cache, k: Key)
    requires WellFormed(c)
    ensures KeySet([k]) == {k} && KeySet([]) == {} && Purged(c, {}) == c && Lost(c, []) == 0
  {
    PurgedNothing(c);
  }

  predicate RemovesOne(op: Op) { op.RemoveExpired? || op.RemoveCorrupt? || op.Delete? }

  predicate RemovesMany(op: Op) { op.Prune? || op.DeleteEntry? || op.PurgeKeys? || op.PurgeTags? }

  ghost function Ordered(order: seq<Key>): Note { Note(order, None, [], [], [], [], []) }

  lemma Removed(setup: Setup, before: Snapshot, op: Op, fails: bool, after: Snapshot, order: seq<Key>)
    requires (RemovesOne(op) || RemovesMany(op)) && Deletes(before, op, order)
    requires fails ==> after == before
    requires !fails ==> CacheOf(after) == Purged(CacheOf(before), KeySet(order))
    requires after.lru == Recent(before.lru, Bodies(CacheOf(after)), [])
    ensures Effect(setup, before, op, fails, after, Ordered(order))
  {
    hide Deletes, Purged, KeySet, CacheOf, Recent, Bodies;
  }

  lemma DueItem(i: Snapshot, key: Key, now: int)
    ensures key in i.items ==> (key in Due(CacheOf(i), now) <==> IsDue(i.items[key], now))
  {
  }

  /** One operation that removes a single key. */
  method RemoveOne(p: Provider, op: Op, persistFails: bool) returns (ghost note: Note)
    requires RemovesOne(op) && p.Valid()
    modifies p, p.expirations, p.expirations.Elements()
    ensures p.Valid() && p.orphans <= old(p.orphans)
    ensures fresh(p.expirations.Elements() - old(p.expirations.Elements()))
    ensures Effect(Setup(p.stale, p.bodyPathLength), old(p.Image()), op, persistFails, p.Image(), note)
    ensures p.Shortage() <= old(p.Shortage()) + Loss(old(p.Image()), op, persistFails, note)
  {
    hide Provider.Valid, Provider.Shortage, Provider.Cached, Purged, AllWellFormed, Total, Lost, Recent, SweepOrder,
         WellFormed;
    hide Due, KeySet, Abstract, Deletions.EntryOrder, Deletions.TaggedWith, IsMappingKey, Flush.Processed;
    ghost var before := p.Image();
    SameCache(p, before);
    match op {
      case RemoveExpired(key, generation, now) =>
        DueItem(before, key, now);
        note := RemoveIf(p, key, (i: Item) => i.generation == generation && IsDue(i, now), persistFails);
      case RemoveCorrupt(key, generation) =>
        note := RemoveIf(p, key, (i: Item) => i.generation == generation, persistFails);
      case Delete(key) =>
        OneKey(CacheOf(before), key);
        var _ := Deletions.Delete(p, key, persistFails);
        note := Ordered([key]);
    }
    SameCache(p, p.Image());
  }

  /** One operation that removes what is expired, or a list of keys. */
  method RemoveMany(p: Provider, op: Op, persistFails: bool) returns (ghost note: Note)
    requires RemovesMany(op) && p.Valid()
    modifies p, p.expirations, p.expirations.Elements()
    ensures p.Valid() && p.orphans <= old(p.orphans)
    ensures fresh(p.expirations.Elements() - old(p.expirations.Elements()))
    ensures Effect(Setup(p.stale, p.bodyPathLength), old(p.Image()), op, persistFails, p.Image(), note)
    ensures p.Shortage() <= old(p.Shortage()) + Loss(old(p.Image()), op, persistFails, note)
  {
    hide Provider.Valid, Provider.Shortage, Provider.Cached, Purged, AllWellFormed, Total, Lost, Recent, SweepOrder,
         WellFormed;
    hide Effect, Due, KeySet, Abstract, Deletions.EntryOrder, Deletions.TaggedWith, IsMappingKey, Flush.Processed;
    ghost var before := p.Image();
    SameCache(p, before);
    ghost var order;
    match op {
      case Prune(now) =>
        var committed;
        committed, order := Deletions.PruneExpired(p, now, persistFails);
        SweptKeys(CacheOf(before), now, order);
      case DeleteEntry(baseKey) =>
        var committed;
        committed, order := Deletions.DeleteEntry(p, baseKey, persistFails);
      case PurgeKeys(keys) =>
        var _, _ := Deletions.DeleteKeys(p, keys, persistFails);
        order := keys;
      case PurgeTags(groups) =>
        var count, committed;
        count, committed, order := Deletions.PurgeTags(p, groups, persistFails);
    }
    note := Ordered(order);
    SameCache(p, p.Image());
    Removed(Setup(p.stale, p.bodyPathLength), before, op, persistFails, p.Image(), order);
  }

  lemma SweptKeys(c: Cache, now: int, order: seq<Key>)
    requires SweepOrder(c, now, order)
    ensures KeySet(order) == Due(c, now)
  {
  }

  /** Removes an item that is still the one the caller saw. */
  method RemoveIf(p: Provider, key: Key, matches: Item -> bool, persistFails: bool) returns (ghost note: Note)
    requires p.Valid()
    modifies p, p.expirations, p.expirations.Elements()
    ensures p.Valid() && p.orphans <= old(p.orphans)
    ensures fresh(p.expirations.Elements() - old(p.expirations.Elements()))
    ensures note == Ordered(if key in old(p.items) && matches(old(p.items)[key]) then [key] else [])
    ensures persistFails ==> p.Image() == old(p.Image())
    ensures !persistFails ==> p.Cached() == Purged(old(p.Cached()), KeySet(note.order))
    ensures p.lru == Recent(old(p.lru), Bodies(p.Cached()), [])
    ensures p.Shortage() <= old(p.Shortage()) + (if persistFails then 0 else Lost(old(p.Cached()), note.order))
  {
    hide Provider.Valid, Provider.Shortage, Provider.Cached, Purged, Total, Lost, Recent, KeySet, IsMappingKey;
    hide WellFormed;
    ghost var before := p.Image();
    SameCache(p, before);
    OneKey(p.Cached(), key);
    note := Ordered(if key in p.items && matches(p.items[key]) then [key] else []);
    var _ := Deletions.DeleteItemIf(p, key, matches, persistFails);
    SameCache(p, p.Image());
  }

  /** One operation; `persistFails` says whether the database transaction fails. */
  method Step(p: Provider, op: Op, persistFails: bool) returns (ghost note: Note)
    requires p.Valid() && Callable(op)
    modifies p, p.expirations, p.expirations.Elements()
    ensures p.Valid()
    ensures fresh(p.expirations.Elements() - old(p.expirations.Elements()))
    ensures Effect(Setup(p.stale, p.bodyPathLength), old(p.Image()), op, persistFails, p.Image(), note)
    ensures p.Shortage() <= old(p.Shortage()) + Loss(old(p.Image()), op, persistFails, note)
    ensures !Leaks(old(p.Image()), op, note) ==> p.orphans <= old(p.orphans)
  {
    hide Provider.Valid, Provider.Shortage, Provider.Cached, Flush.Processed, Purged, AllWellFormed, Total, Effect,
         Loss;
    hide Due, KeySet, Abstract, SweepOrder, Lost, Recent, Bodies;
    hide Maintenance.Renewed, Maintenance.Stamped, Maintenance.Chosen, Index.Without, Frees, SumOf, IsMappingKey;
    if RemovesOne(op) {
      note := RemoveOne(p, op, persistFails);
    } else if RemovesMany(op) {
      note := RemoveMany(p, op, persistFails);
    } else if op.Write? {
      note := Flushed(p, op, persistFails);
    } else {
      note := Maintain(p, op, persistFails);
    }
  }

  method Flushed(p: Provider, op: Op, persistFails: bool) returns (ghost note: Note)
    requires p.Valid() && Callable(op) && op.Write?
    modifies p, p.expirations, p.expirations.Elements()
    ensures p.Valid()
    ensures fresh(p.expirations.Elements() - old(p.expirations.Elements()))
    ensures Effect(Setup(p.stale, p.bodyPathLength), old(p.Image()), op, persistFails, p.Image(), note)
    ensures p.Shortage() <= old(p.Shortage()) + Loss(old(p.Image()), op, persistFails, note)
    ensures !Leaks(old(p.Image()), op, note) ==> p.orphans <= old(p.orphans)
  {
    hide Provider.Valid, Provider.Shortage, Provider.Cached, Flush.Processed, Purged, AllWellFormed, Total;
    hide Due, Abstract, SweepOrder, Lost, Recent, Flush.BudgetFor, WellFormed;
    SameCache(p, p.Image());
    ghost var order, staged, trace, evictions, moved;
    var results;
    results, order, staged, trace, evictions, moved :=
      Flush.FlushBatch(p, op.batch, op.now, op.limits, op.usage, op.faults, op.syncFails, persistFails);
    note := Note(order, None, results, staged, trace, evictions, moved);
    SameCache(p, p.Image());
    CommitsStores(staged, results);
  }

  lemma CommitsStores(staged: seq<WriteResult>, results: seq<WriteResult>)
    ensures (forall i :: 0 <= i < |results| ==> results[i] == IoError) ==> !Flush.SomeStored(results)
    ensures results == Flush.Failed(staged) ==> !Flush.SomeStored(results)
  {
  }

  lemma AllForgotten(lru: seq<Key>)
    ensures Recent(lru, Bodies(map[]), []) == []
  {
    DropEvery(lru, set k | k in lru && (k !in Bodies(map[]) || k in []));
  }

  method Maintain(p: Provider, op: Op, persistFails: bool) returns (ghost note: Note)
    requires p.Valid() && !RemovesOne(op) && !RemovesMany(op) && !op.Write?
    modifies p, p.expirations, p.expirations.Elements()
    ensures p.Valid() && p.orphans <= old(p.orphans)
    ensures fresh(p.expirations.Elements() - old(p.expirations.Elements()))
    ensures Effect(Setup(p.stale, p.bodyPathLength), old(p.Image()), op, persistFails, p.Image(), note)
    ensures p.Shortage() <= old(p.Shortage()) + Loss(old(p.Image()), op, persistFails, note)
  {
    hide Provider.Valid, Provider.Shortage, Provider.Cached, Purged, Total, KeySet, Abstract, Lost, Recent, Bodies;
    hide Maintenance.Renewed, Maintenance.Stamped, Maintenance.Chosen, Index.Without, Deletions.EvictionOrder;
    hide Maintenance.RenewsChosen, WellFormed;
    SameCache(p, p.Image());
    note := Ordered([]);
    match op {
      case Evict(accounted, physical) =>
        ghost var evicted;
        var freedAccounted, freedPhysical, committed;
        freedAccounted, freedPhysical, committed, evicted :=
          Deletions.EvictForBudget(p, accounted, physical, persistFails);
        note := Ordered(evicted);
      case Refresh(baseKey, matches, json, duration, now) =>
        ghost var chosen;
        var renewed;
        renewed, chosen := Maintenance.Refresh(p, baseKey, matches, json, duration, now, persistFails);
        note := note.(chosen := chosen, moved := if renewed then [chosen.value] else []);
      case Touch(key, generation, now, modified, contended) =>
        ghost var hit := Maintenance.Current(p.items, key, generation) && !contended
                         && Maintenance.Elapsed(p.items[key], now);
        note := note.(moved := if hit && key in Bodies(p.Cached()) then [key] else []);
        Maintenance.Touch(p, key, generation, now, modified, contended);
      case Reset =>
        AllForgotten(p.lru);
        var _ := Maintenance.Reset(p, persistFails);
    }
    SameCache(p, p.Image());
  }

  // ----- every run --------------------------------------------------------------------------

  /** What the account may have fallen behind in the first n operations. */
  ghost function Losses(images: seq<Snapshot>, ops: seq<Op>, persistFails: seq<bool>, notes: seq<Note>, n: nat): nat
    requires n <= |ops| && n <= |images| && n <= |persistFails| && n <= |notes|
  {
    if n == 0 then 0
    else Losses(images, ops, persistFails, notes, n - 1)
         + Loss(images[n - 1], ops[n - 1], persistFails[n - 1], notes[n - 1])
  }

  /** None of the first n operations takes effect and meets a mapping record by its own key. */
  ghost predicate Calm(images: seq<Snapshot>, ops: seq<Op>, persistFails: seq<bool>, notes: seq<Note>, n: nat)
    requires n <= |ops| && n <= |images| && n <= |persistFails| && n <= |notes|
  {
    forall i :: 0 <= i < n ==> !Strikes(images[i], ops[i], persistFails[i], notes[i])
  }

  /** A run loses nothing of its account if and only if it is calm. */
  lemma {:induction false} CalmLosesNothing(images: seq<Snapshot>, ops: seq<Op>, persistFails: seq<bool>,
                                            notes: seq<Note>, n: nat)
    requires n <= |ops| && n <= |images| && n <= |persistFails| && n <= |notes|
    requires forall i :: 0 <= i < n ==> CountersHold(images[i])
    ensures Losses(images, ops, persistFails, notes, n) == 0 <==> Calm(images, ops, persistFails, notes, n)
  {
    hide ByOwnKey, Lost, CacheOf, Happened;
    if n > 0 {
      CalmLosesNothing(images, ops, persistFails, notes, n - 1);
      LostByOwnKey(CacheOf(images[n - 1]), notes[n - 1].order);
    }
  }

  lemma {:induction false} SameLosses(images: seq<Snapshot>, ops: seq<Op>, persistFails: seq<bool>, notes: seq<Note>,
                                      more: Snapshot, note: Note, n: nat)
    requires n <= |ops| && n <= |images| && n <= |persistFails| && n <= |notes|
    ensures Losses(images + [more], ops, persistFails, notes + [note], n) == Losses(images, ops, persistFails, notes, n)
  {
    hide Loss;
    if n > 0 {
      SameLosses(images, ops, persistFails, notes, more, note, n - 1);
    }
  }

  /** The last of the first n operations that wrote, renewed or hit the body, counted from one. */
  function LastMove(notes: seq<Note>, n: nat, k: Key): nat
    requires n <= |notes|
  {
    if n == 0 then 0 else if k in notes[n - 1].moved then n else LastMove(notes, n - 1, k)
  }

  ghost predicate Before(lru: seq<Key>, k: Key, l: Key)
  {
    exists i, j :: 0 <= i < j < |lru| && lru[i] == k && lru[j] == l
  }

  /** The recency list is ordered by the last operation that wrote, renewed or hit a body; bodies
      that none did are in front, in the order they had before. */
  ghost predicate Ranked(start: seq<Key>, lru: seq<Key>, notes: seq<Note>, n: nat)
    requires n <= |notes|
  {
    forall i, j :: 0 <= i < j < |lru| ==> InOrder(start, lru[i], lru[j], notes, n)
  }

  ghost predicate InOrder(start: seq<Key>, k: Key, l: Key, notes: seq<Note>, n: nat)
    requires n <= |notes|
  {
    && LastMove(notes, n, k) <= LastMove(notes, n, l)
    && (LastMove(notes, n, l) == 0 ==> Before(start, k, l))
  }

  lemma {:induction false} DropMembers(s: seq<Key>, ks: set<Key>)
    ensures forall k :: k in DropKeys(s, ks) ==> k in s && k !in ks
  {
    if s != [] {
      DropMembers(s[1..], ks);
    }
  }

  /** Dropping keys keeps the order of the others. */
  lemma {:induction false} DropOrder(s: seq<Key>, ks: set<Key>, i: nat, j: nat) returns (a: nat, b: nat)
    requires i < j < |DropKeys(s, ks)|
    ensures a < b < |s| && s[a] == DropKeys(s, ks)[i] && s[b] == DropKeys(s, ks)[j]
  {
    if s[0] in ks {
      a, b := DropOrder(s[1..], ks, i, j);
      a, b := a + 1, b + 1;
    } else if i > 0 {
      a, b := DropOrder(s[1..], ks, i - 1, j - 1);
      a, b := a + 1, b + 1;
    } else {
      b := DropFind(s[1..], ks, j - 1);
      a, b := 0, b + 1;
    }
  }

  lemma {:induction false} DropFind(s: seq<Key>, ks: set<Key>, j: nat) returns (b: nat)
    requires j < |DropKeys(s, ks)|
    ensures b < |s| && s[b] == DropKeys(s, ks)[j]
  {
    if s[0] in ks {
      b := DropFind(s[1..], ks, j);
      b := b + 1;
    } else if j > 0 {
      b := DropFind(s[1..], ks, j - 1);
      b := b + 1;
    } else {
      b := 0;
    }
  }

  lemma RankedStep(start: seq<Key>, lru: seq<Key>, live: set<Key>, notes: seq<Note>, note: Note)
    requires Ranked(start, lru, notes, |notes|)
    ensures Ranked(start, Recent(lru, live, note.moved), notes + [note], |notes| + 1)
  {
    var more, n := notes + [note], |notes|;
    var ks := set k | k in lru && (k !in live || k in note.moved);
    var kept, after := DropKeys(lru, ks), Recent(lru, live, note.moved);
    DropMembers(lru, ks);
    forall k ensures LastMove(more, n, k) == LastMove(notes, n, k) <= n {
      SameMoves(notes, note, n, k);
    }
    forall i, j | 0 <= i < j < |after| ensures InOrder(start, after[i], after[j], more, n + 1) {
      if j < |kept| {
        var a, b := DropOrder(lru, ks, i, j);
        assert InOrder(start, lru[a], lru[b], notes, n);
        assert after[i] in kept && after[j] in kept;
      } else {
        assert after[j] == note.moved[j - |kept|];
      }
    }
  }

  lemma {:induction false} SameMoves(notes: seq<Note>, note: Note, n: nat, k: Key)
    requires n <= |notes|
    ensures LastMove(notes + [note], n, k) == LastMove(notes, n, k) <= n
  {
    if n > 0 {
      SameMoves(notes, note, n - 1, k);
    }
  }

  lemma RankedStart(lru: seq<Key>)
    ensures Ranked(lru, lru, [], 0)
  {
    forall i, j | 0 <= i < j < |lru| ensures InOrder(lru, lru[i], lru[j], [], 0) {
      assert Before(lru, lru[i], lru[j]);
    }
  }

  lemma EffectMoves(setup: Setup, before: Snapshot, op: Op, fails: bool, after: Snapshot, note: Note)
    requires Effect(setup, before, op, fails, after, note)
    ensures after.lru == Recent(before.lru, Bodies(CacheOf(after)), note.moved)
  {
  }

  /** A run from an arbitrary valid state, for instance a new provider: whatever the operations and
      whichever of their transactions fail, the provider stays valid and every operation has exactly
      its effect; physical use is always exact, and accounted use never too high and never further
      behind than the mapping records met by their own keys account for; the recency list is in
      the order of the operations; and no body file is left behind unless a stat failed after a
      rename. The images are the states before each operation and at the end. */
  method Run(p: Provider, ops: seq<Op>, persistFails: seq<bool>)
    returns (ghost images: seq<Snapshot>, ghost notes: seq<Note>)
    requires p.Valid() && |persistFails| == |ops| && forall op :: op in ops ==> Callable(op)
    modifies p, p.expirations, p.expirations.Elements()
    ensures p.Valid() && |images| == |ops| + 1 && |notes| == |ops| && images[0] == old(p.Image())
    ensures images[|ops|] == p.Image()
    ensures forall i :: 0 <= i < |ops| ==>
              Effect(Setup(p.stale, p.bodyPathLength), images[i], ops[i], persistFails[i], images[i + 1], notes[i])
    ensures forall i :: 0 <= i <= |ops| ==> Behind(images, ops, persistFails, notes, i)
    ensures ShortageAt(images[0]) == 0 && Calm(images, ops, persistFails, notes, |ops|) ==> p.Exact()
    ensures Ranked(images[0].lru, images[|ops|].lru, notes, |ops|)
    ensures (forall i :: 0 <= i < |ops| ==> !Leaks(images[i], ops[i], notes[i])) ==> p.orphans <= old(p.orphans)
  {
    hide Provider.Valid, Provider.Image, Provider.Shortage, Provider.Exact, Callable, Leaks, Effect, Loss, Ranked;
    hide Behind, Recent, Bodies, CacheOf, Provider.Cached;
    images, notes := [p.Image()], [];
    SameCache(p, p.Image());
    RankedStart(p.Image().lru);
    NoLosses(images, ops, persistFails);
    for i := 0 to |ops|
      invariant p.Valid() && |images| == i + 1 && |notes| == i && images[0] == old(p.Image()) && images[i] == p.Image()
      invariant fresh(p.expirations.Elements() - old(p.expirations.Elements()))
      invariant forall j :: 0 <= j < i ==>
                  Effect(Setup(p.stale, p.bodyPathLength), images[j], ops[j], persistFails[j], images[j + 1], notes[j])
      invariant forall j :: 0 <= j <= i ==> Behind(images, ops, persistFails, notes, j)
      invariant Ranked(images[0].lru, images[i].lru, notes, i)
      invariant (forall j :: 0 <= j < i ==> !Leaks(images[j], ops[j], notes[j])) ==> p.orphans <= old(p.orphans)
    {
      assert ops[i] in ops;
      ghost var before := p.Image();
      SameCache(p, before);
      ghost var note := Step(p, ops[i], persistFails[i]);
      SameCache(p, p.Image());
      EffectMoves(Setup(p.stale, p.bodyPathLength), before, ops[i], persistFails[i], p.Image(), note);
      RankedStep(images[0].lru, before.lru, Bodies(CacheOf(p.Image())), notes, note);
      BehindStep(images, ops, persistFails, notes, p.Image(), note);
      images, notes := images + [p.Image()], notes + [note];
    }
    CalmIsExact(p, images, ops, persistFails, notes);
  }

  /** Without a loss an exact account stays exact. */
  lemma CalmIsExact(p: Provider, images: seq<Snapshot>, ops: seq<Op>, persistFails: seq<bool>, notes: seq<Note>)
    requires |images| == |ops| + 1 == |notes| + 1 == |persistFails| + 1 && images[|ops|] == p.Image()
    requires forall i :: 0 <= i <= |ops| ==> Behind(images, ops, persistFails, notes, i)
    ensures ShortageAt(images[0]) == 0 && Calm(images, ops, persistFails, notes, |ops|) ==> p.Exact()
  {
    hide Losses, Calm;
    assert Behind(images, ops, persistFails, notes, |ops|);
    forall i | 0 <= i <= |ops| ensures CountersHold(images[i]) {
      assert Behind(images, ops, persistFails, notes, i);
    }
    CalmLosesNothing(images, ops, persistFails, notes, |ops|);
  }

  /** After n operations the counters stand for the cache, and the account is behind by no more than
      at the beginning and what the operations lost. */
  ghost predicate Behind(images: seq<Snapshot>, ops: seq<Op>, persistFails: seq<bool>, notes: seq<Note>, n: nat)
    requires n <= |ops| && n < |images| && n <= |persistFails| && n <= |notes|
  {
    && CountersHold(images[n])
    && ShortageAt(images[n]) <= ShortageAt(images[0]) + Losses(images, ops, persistFails, notes, n)
  }

  lemma NoLosses(images: seq<Snapshot>, ops: seq<Op>, persistFails: seq<bool>)
    requires |images| > 0 && CountersHold(images[0])
    ensures Behind(images, ops, persistFails, [], 0)
  {
  }

  lemma BehindStep(images: seq<Snapshot>, ops: seq<Op>, persistFails: seq<bool>, notes: seq<Note>, more: Snapshot,
                   note: Note)
    requires |images| == |notes| + 1 && |notes| < |ops| == |persistFails| && CountersHold(more)
    requires forall j :: 0 <= j <= |notes| ==> Behind(images, ops, persistFails, notes, j)
    requires ShortageAt(more) <= ShortageAt(images[|notes|])
                                 + Loss(images[|notes|], ops[|notes|], persistFails[|notes|], note)
    ensures forall j :: 0 <= j <= |notes| + 1 ==> Behind(images + [more], ops, persistFails, notes + [note], j)
  {
    hide CountersHold, Loss, ShortageAt;
    forall j | 0 <= j <= |notes| ensures Behind(images + [more], ops, persistFails, notes + [note], j) {
      assert Behind(images, ops, persistFails, notes, j);
      SameLosses(images, ops, persistFails, notes, more, note, j);
    }
    var n := |notes|;
    assert Behind(images, ops, persistFails, notes, n);
    SameLosses(images, ops, persistFails, notes, more, note, n);
    assert (images + [more])[n] == images[n] && (notes + [note])[n] == note;
  }
}
