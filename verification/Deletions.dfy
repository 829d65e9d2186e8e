/** The operations that delete: each stages the deletions in an overlay and commits it. The
    invariant of the provider is kept whether the commit succeeds or not, and every operation
    leaves exactly what is left when its keys are purged. */
module Deletions {
  import opened Common
  import opened CacheModel
  import opened ExpirationHeap
  import opened Index
  import opened Batch
  import opened Committing

  /** A batch that only deletes stages no body. */
  lemma NoStagedBody(s: BatchState)
    requires s.Linked() && OnlyDeletes(map[], s.items)
    ensures forall k :: k in s.items && s.items[k].Some? ==> !s.items[k].value.record.value.Body?
  {
    forall k | k in s.items && s.items[k].Some? ensures !s.items[k].value.record.value.Body? {
      assert k in s.Staged() && WellFormedRecord(k, s.Staged()[k].record);
    }
  }

  lemma NothingMoved(staged: map<Key, Option<Item>>, moved: seq<Key>)
    requires StagedBodies(staged, staged.Keys, moved)
    requires forall k :: k in staged && staged[k].Some? ==> !staged[k].value.record.value.Body?
    ensures moved == []
  {
    HasMember(moved);
  }

  /** Commits a batch that only deletes. */
  method CommitDeletion(s: BatchState, ghost d: set<Key>, persistFails: bool) returns (committed: bool)
    requires s.p.Indexed() && FilesMatch(s.p.Cached(), s.p.files, s.p.orphans) && s.HasPurged(d)
    requires s.QueueSplit() && KeysOf(s.poppedExpiry) <= s.items.Keys
    modifies s.p, s.p.expirations, s.p.expirations.Elements()
    ensures committed <==> !persistFails
    ensures s.p.orphans <= old(s.p.orphans)
    ensures fresh(s.p.expirations.Elements() - old(s.p.expirations.Elements()))
    ensures committed ==>
              && s.p.Valid() && s.p.Cached() == Purged(old(s.p.Cached()), d)
              && s.p.cacheUsed == s.used && s.p.Shortage() == old(s.Shortage())
              && s.p.lru == Recent(old(s.p.lru), Bodies(s.p.Cached()), [])
    ensures !committed ==> s.p.Image() == old(s.p.Image()) && s.p.Indexed() && s.QueueSplit()
    ensures !committed ==> s.p.expirations.Elements() == old(s.p.expirations.Elements())
  {
    hide Provider.InMemory, BatchState.Linked, BatchState.Balanced, BatchState.Staged, Provider.Cached;
    hide DiskAgrees, FilesMatch, HeapOrdered, Purged, Total, PathsOf, WellFormed, StagedBodies, Recent, OnlyDeletes;
    NoStagedBody(s);
    FilesAfterPurge(s.p.Cached(), d, s.p.files, s.p.orphans);
    ghost var moved;
    committed, moved := Commit(s, persistFails);
    if committed {
      NothingMoved(s.items, moved);
      s.p.files := s.p.files - s.obsoleteFiles;
      s.p.orphans := s.p.orphans - s.obsoleteFiles;
    }
  }

  /** Opens an empty batch. */
  method Begin(p: Provider) returns (s: BatchState)
    requires p.Valid()
    ensures fresh(s) && s.p == p && s.items == map[] && s.poppedExpiry == [] && s.lost == 0 && s.evicted == 0
    ensures s.HasPurged({}) && s.QueueSplit() && s.groups == map[]
    ensures s.used == p.cacheUsed && s.physical == p.physicalUsed && s.Shortage() == p.Shortage()
  {
    s := new BatchState(p);
    PurgedNothing(p.Cached());
    assert p.expirations.Elements() + Members([]) == p.expirations.Elements();
  }

  /** With nothing popped from the queue, the provider is valid as it stands. */
  lemma ValidAgain(s: BatchState)
    requires s.p.Indexed() && FilesMatch(s.p.Cached(), s.p.files, s.p.orphans) && s.QueueSplit() && s.poppedExpiry == []
    ensures s.p.Valid()
  {
    assert s.p.expirations.Elements() + Members([]) == s.p.expirations.Elements();
  }

  /** Deletes the item under `key` if it is still the one the caller saw. */
  method DeleteItemIf(p: Provider, key: Key, matches: Item -> bool, persistFails: bool) returns (committed: bool)
    requires p.Valid()
    modifies p, p.expirations, p.expirations.Elements()
    ensures fresh(p.expirations.Elements() - old(p.expirations.Elements()))
    ensures p.Valid() && p.orphans <= old(p.orphans)
    ensures committed <==> key in old(p.items) && matches(old(p.items)[key]) && !persistFails
    ensures committed ==> p.Cached() == Purged(old(p.Cached()), {key})
    ensures committed ==> p.lru == Recent(old(p.lru), Bodies(p.Cached()), [])
    ensures p.Shortage() <= old(p.Shortage()) + (if committed then Lost(old(p.Cached()), [key]) else 0)
    ensures !committed || persistFails ==> p.Image() == old(p.Image())
  {
    hide Provider.InMemory, Provider.Cached, Provider.Shortage, BatchState.Linked, BatchState.HasPurged,
         BatchState.Balanced;
    hide BatchState.Shortage, Recent, Bodies, Lost, BatchState.Staged, DiskAgrees, FilesMatch, Tracks, Purged, Total;
    hide HeapOrdered;
    hide PathsOf, OnlyDeletes;
    hide Provider.Indexed, RecencyList, ReverseIndex, IsMappingKey, Provider.Queue;
    if key !in p.items || !matches(p.items[key]) {
      return false;
    }
    var s := Begin(p);
    OneLost(p.Cached(), key);
    s.Purge(key, {});
    assert {} + {key} == {key};
    committed := CommitDeletion(s, {key}, persistFails);
    if !committed {
      ValidAgain(s);
    }
  }

  lemma OneLost(c: Cache, key: Key)
    ensures Lost(c, [key]) ==
              if IsMappingKey(key) && key in Purged(c, {}) then Accounted(key, Purged(c, {})[key]) else 0
  {
    hide Purged;
    NoKeys(c);
    LostStep(c, [], key);
    assert [] + [key] == [key];
  }

  /** Deletes the item under one key. */
  method Delete(p: Provider, key: Key, persistFails: bool) returns (committed: bool)
    requires p.Valid()
    modifies p, p.expirations, p.expirations.Elements()
    ensures fresh(p.expirations.Elements() - old(p.expirations.Elements()))
    ensures p.Valid() && p.orphans <= old(p.orphans)
    ensures committed <==> key !in old(p.items) || !persistFails
    ensures committed ==> p.Cached() == Purged(old(p.Cached()), {key})
    ensures committed ==> p.lru == Recent(old(p.lru), Bodies(p.Cached()), [])
    ensures p.Shortage() <= old(p.Shortage()) + (if committed then Lost(old(p.Cached()), [key]) else 0)
    ensures !committed || persistFails ==> p.Image() == old(p.Image())
  {
    hide Provider.Shortage, BatchState.Linked, BatchState.HasPurged, BatchState.Balanced, Recent, Bodies, Lost;
    hide BatchState.Shortage, BatchState.Staged, DiskAgrees, FilesMatch, Tracks, Purged, Total, HeapOrdered;
    if key !in p.items {
      PurgeAbsent(p, key);
      RecentSame(p.items, p.itemGroups, p.lru);
      return true;
    }
    committed := DeleteItemIf(p, key, _ => true, persistFails);
  }

  lemma PurgeAbsent(p: Provider, key: Key)
    requires p.InMemory() && key !in p.items
    ensures Purged(p.Cached(), {key}) == p.Cached()
  {
    PurgeOther(p.Cached(), key);
    assert p.Cached() - {key} == p.Cached();
  }

  /** A sweep that staged nothing popped nothing. */
  lemma NothingStaged(s: BatchState, d: set<Key>)
    requires s.p.Indexed() && FilesMatch(s.p.Cached(), s.p.files, s.p.orphans) && s.HasPurged(d) && s.QueueSplit()
    requires s.items == map[] && d <= s.p.items.Keys && KeysOf(s.poppedExpiry) == d
    ensures s.p.Valid() && Purged(s.p.Cached(), d) == s.p.Cached()
  {
    assert forall e :: e in s.poppedExpiry ==> e.key in KeysOf(s.poppedExpiry);
    HasMember(s.poppedExpiry);
    assert d == {};
    PurgedNothing(s.p.Cached());
    ValidAgain(s);
  }

  /** Sweeps the expired items, in the order of their expiry. A failed sweep leaves everything, the
      queue included, as it was. */
  method PruneExpired(p: Provider, now: int, persistFails: bool) returns (committed: bool, ghost order: seq<Key>)
    requires p.Valid()
    modifies p, p.expirations, p.expirations.Elements()
    ensures fresh(p.expirations.Elements() - old(p.expirations.Elements()))
    ensures p.Valid() && p.orphans <= old(p.orphans)
    ensures !persistFails ==> committed
    ensures SweepOrder(old(p.Cached()), now, order)
    ensures committed ==> p.Cached() == Purged(old(p.Cached()), Due(old(p.Cached()), now)) && Due(p.Cached(), now) == {}
    ensures committed ==> p.lru == Recent(old(p.lru), Bodies(p.Cached()), [])
    ensures p.Shortage() <= old(p.Shortage()) + (if committed then Lost(old(p.Cached()), order) else 0)
    ensures !committed || persistFails ==> p.Image() == old(p.Image())
    ensures !committed ==> p.expirations.Elements() == old(p.expirations.Elements())
  {
    hide Provider.InMemory, Provider.Shortage, BatchState.Linked, BatchState.Balanced, Provider.Indexed;
    hide Provider.Queue, PathsOf, Lost, SweepOrder, PopOrder, Recent, Bodies;
    hide BatchState.Shortage, BatchState.Staged, DiskAgrees, FilesMatch, Tracks, Purged, Total, HeapOrdered;
    hide KeysOf, OnlyDeletes;
    hide WellFormed, Provider.Cached, RecencyList, BatchState.HasPurged, BatchState.QueueSplit, Due;
    ghost var c := p.Cached();
    var s := Begin(p);
    s.StageExpired(now);
    order := PopOrder(s.poppedExpiry);
    DueAreItems(p, now);
    committed := CommitSweep(s, Due(p.Cached(), now), persistFails);
    NothingDue(c, now);
  }

  lemma DueAreItems(p: Provider, now: int)
    ensures Due(p.Cached(), now) <= p.items.Keys
  {
  }

  lemma NothingDue(c: Cache, now: int)
    ensures Due(Purged(c, Due(c, now)), now) == {}
  {
  }

  /** Commits a staged sweep, or puts the popped entries back. */
  method CommitSweep(s: BatchState, ghost d: set<Key>, persistFails: bool) returns (committed: bool)
    requires s.p.Indexed() && FilesMatch(s.p.Cached(), s.p.files, s.p.orphans) && s.HasPurged(d) && s.QueueSplit()
    requires d <= s.p.items.Keys && KeysOf(s.poppedExpiry) == d
    modifies s.p, s.p.expirations, s.p.expirations.Elements(), s.poppedExpiry
    ensures fresh(s.p.expirations.Elements() - old(s.p.expirations.Elements()) - old(Members(s.poppedExpiry)))
    ensures s.p.Valid() && s.p.orphans <= old(s.p.orphans)
    ensures !persistFails ==> committed
    ensures committed ==> s.p.Cached() == Purged(old(s.p.Cached()), d)
    ensures committed ==> s.p.lru == Recent(old(s.p.lru), Bodies(s.p.Cached()), [])
    ensures s.p.Shortage() == old(s.p.Shortage()) || (committed && s.p.Shortage() == old(s.Shortage()))
    ensures !committed || persistFails ==> s.p.Image() == old(s.p.Image())
    ensures !committed ==> s.p.expirations.Elements() == old(s.p.expirations.Elements()) + old(Members(s.poppedExpiry))
  {
    hide Provider.InMemory, BatchState.Linked, BatchState.Balanced, BatchState.Staged, DiskAgrees, FilesMatch, Tracks;
    hide Purged, Total, HeapOrdered, KeysOf, OnlyDeletes, WellFormed, Provider.Cached, RecencyList, PathsOf, Recent;
    hide Bodies;
    if s.items == map[] {
      NothingStaged(s, d);
      RecentStays(s.p);
      committed := true;
    } else {
      committed := CommitDeletion(s, d, persistFails);
      if !committed {
        s.RestoreExpiry();
      }
    }
  }

  lemma RecentStays(p: Provider)
    requires p.Indexed()
    ensures Recent(p.lru, Bodies(p.Cached()), []) == p.lru
  {
    RecentSame(p.items, p.itemGroups, p.lru);
  }

  lemma KeySetStep(keys: seq<Key>, i: nat)
    requires i < |keys|
    ensures KeySet(keys[..i + 1]) == KeySet(keys[..i]) + {keys[i]}
  {
    assert keys[..i + 1] == keys[..i] + [keys[i]];
  }

  /** Purging one more key removes one more body exactly when it held one that was still there. */
  lemma FoundBody(s: BatchState, d: set<Key>, k: Key)
    requires s.HasPurged(d)
    ensures k in Bodies(Purged(s.p.Cached(), d)) <==> s.GetItem(k).Some? && s.GetItem(k).value.record.value.Body?
  {
    hide BatchState.Linked, BatchState.Balanced, BatchState.Staged, Purged, PathsOf, Provider.Cached;
    hide OnlyDeletes, WellFormed;
  }

  lemma CountStep(c: Cache, d: set<Key>, k: Key)
    requires WellFormed(c)
    ensures |Bodies(c) * (d + {k})| == |Bodies(c) * d| + (if k in Bodies(Purged(c, d)) then 1 else 0)
  {
    PurgedWellFormed(c, d);
    if k in Bodies(c) && k !in d {
      assert Bodies(c) * (d + {k}) == Bodies(c) * d + {k};
    } else {
      assert Bodies(c) * (d + {k}) == Bodies(c) * d;
    }
  }

  /** Stages the deletion of a list of keys and counts the bodies among them. */
  method StageDeletions(s: BatchState, keys: seq<Key>) returns (count: nat)
    requires s.HasPurged({}) && s.lost == 0
    modifies s`items, s`groups, s`itemGroups, s`variantMappings, s`used, s`physical
    modifies s`obsoleteFiles, s`lost, s.p`nextVersion
    ensures s.HasPurged(KeySet(keys))
    ensures count == |Bodies(s.p.Cached()) * KeySet(keys)|
    ensures s.lost == Lost(s.p.Cached(), keys) && s.Shortage() <= old(s.Shortage()) + s.lost
  {
    hide BatchState.Linked, BatchState.Balanced, BatchState.Shortage, Purged, Total, PathsOf, Provider.Cached;
    hide KeySet, OnlyDeletes, Bodies, Lost;
    count := 0;
    NoKeys(s.p.Cached());
    assert keys[..0] == [];
    for i := 0 to |keys|
      invariant s.HasPurged(KeySet(keys[..i]))
      invariant count == |Bodies(s.p.Cached()) * KeySet(keys[..i])|
      invariant s.lost == Lost(s.p.Cached(), keys[..i]) && s.Shortage() <= old(s.Shortage()) + s.lost
    {
      KeySetStep(keys, i);
      LostStep(s.p.Cached(), keys[..i], keys[i]);
      assert keys[..i + 1] == keys[..i] + [keys[i]];
      CountStep(s.p.Cached(), KeySet(keys[..i]), keys[i]);
      FoundBody(s, KeySet(keys[..i]), keys[i]);
      var found := s.GetItem(keys[i]);
      if found.Some? && found.value.record.value.Body? {
        count := count + 1;
      }
      s.Purge(keys[i], KeySet(keys[..i]));
    }
    assert keys[..|keys|] == keys;
  }

  /** Deletes a list of keys in one transaction. */
  method DeleteKeys(p: Provider, keys: seq<Key>, persistFails: bool)
    returns (count: nat, committed: bool)
    requires p.Valid()
    modifies p, p.expirations, p.expirations.Elements()
    ensures fresh(p.expirations.Elements() - old(p.expirations.Elements()))
    ensures p.Valid() && p.orphans <= old(p.orphans)
    ensures !persistFails ==> committed
    ensures committed ==>
              && p.Cached() == Purged(old(p.Cached()), KeySet(keys))
              && count == |Bodies(old(p.Cached())) * KeySet(keys)|
    ensures committed ==> p.lru == Recent(old(p.lru), Bodies(p.Cached()), [])
    ensures p.Shortage() <= old(p.Shortage()) + (if committed then Lost(old(p.Cached()), keys) else 0)
    ensures !committed ==> count == 0
    ensures !committed || persistFails ==> p.Image() == old(p.Image())
  {
    hide Provider.InMemory, Provider.Shortage, BatchState.Linked, BatchState.Balanced, Recent;
    hide BatchState.Shortage, BatchState.Staged, DiskAgrees, FilesMatch, Tracks, Purged, Total, HeapOrdered;
    hide Bodies, KeySet, WellFormed, BatchState.HasPurged, Provider.Cached, Lost;
    var s := Begin(p);
    count := StageDeletions(s, keys);
    committed := Finish(s, KeySet(keys), persistFails);
    if !committed {
      count := 0;
    }
  }

  /** Ends a batch that only deletes: an empty one needs no transaction. */
  method Finish(s: BatchState, ghost d: set<Key>, persistFails: bool) returns (committed: bool)
    requires s.p.Valid() && s.HasPurged(d) && s.QueueSplit() && s.poppedExpiry == []
    modifies s.p, s.p.expirations, s.p.expirations.Elements()
    ensures fresh(s.p.expirations.Elements() - old(s.p.expirations.Elements()))
    ensures s.p.Valid() && s.p.orphans <= old(s.p.orphans)
    ensures !persistFails ==> committed
    ensures committed ==> s.p.Cached() == Purged(old(s.p.Cached()), d)
    ensures committed ==> s.p.lru == Recent(old(s.p.lru), Bodies(s.p.Cached()), [])
    ensures s.p.Shortage() == old(s.p.Shortage()) || (committed && s.p.Shortage() == old(s.Shortage()))
    ensures !committed || persistFails ==> s.p.Image() == old(s.p.Image())
  {
    hide Provider.InMemory, Provider.Shortage, BatchState.Linked, BatchState.Balanced, Provider.Cached;
    hide BatchState.Shortage, BatchState.Staged, BatchState.HasPurged, DiskAgrees, FilesMatch, Tracks, Purged;
    hide Total, HeapOrdered, Recent, Bodies;
    if s.items == map[] {
      NothingDeleted(s, d);
      RecentStays(s.p);
      return true;
    }
    committed := CommitDeletion(s, d, persistFails);
    if !committed {
      ValidAgain(s);
    }
  }

  lemma NothingDeleted(s: BatchState, d: set<Key>)
    requires s.p.Indexed() && FilesMatch(s.p.Cached(), s.p.files, s.p.orphans) && s.HasPurged(d) && s.QueueSplit()
    requires s.items == map[] && s.poppedExpiry == []
    ensures s.p.Valid() && Purged(s.p.Cached(), d) == s.p.Cached()
  {
    hide BatchState.Linked, BatchState.Balanced, Provider.InMemory, DiskAgrees, FilesMatch, Purged, Tracks, HeapOrdered;
    ValidAgain(s);
    assert s.p.items.Keys * d == {};
    PurgedMissing(s.p.Cached(), d);
  }

  /** The keys whose entry carries one of the tags. */
  ghost function TaggedWith(c: Cache, tags: set<Group>): set<Key>
  {
    set k | k in c && c[k].tags * tags != {}
  }

  /** Collects the members of a list of groups, each once. */
  method CollectTagged(p: Provider, groups: seq<Group>) returns (keys: seq<Key>)
    requires p.InMemory()
    ensures KeySet(keys) == TaggedWith(p.Cached(), set g | g in groups) && Distinct(keys)
  {
    keys := [];
    var seen: set<Key> := {};
    for i := 0 to |groups|
      invariant KeySet(keys) == seen && Distinct(keys)
      invariant forall k :: k in seen <==> exists j :: 0 <= j < i && k in At(p.groups, groups[j])
    {
      var todo := At(p.groups, groups[i]) - seen;
      ghost var before := seen;
      while todo != {}
        invariant KeySet(keys) == seen && Distinct(keys) && todo !! seen
        invariant todo + seen == before + At(p.groups, groups[i])
      {
        var k :| k in todo;
        keys, seen, todo := keys + [k], seen + {k}, todo - {k};
      }
    }
    CollectedAreTagged(p, groups, seen);
  }

  lemma CollectedAreTagged(p: Provider, groups: seq<Group>, seen: set<Key>)
    requires p.InMemory()
    requires forall k :: k in seen <==> exists j :: 0 <= j < |groups| && k in At(p.groups, groups[j])
    ensures seen == TaggedWith(p.Cached(), set g | g in groups)
  {
    var tags := set g | g in groups;
    forall k ensures k in seen <==> k in TaggedWith(p.Cached(), tags) {
      if k in seen {
        var j :| 0 <= j < |groups| && k in At(p.groups, groups[j]);
        assert groups[j] in At(p.itemGroups, k) * tags;
      }
      if k in TaggedWith(p.Cached(), tags) {
        var g :| g in At(p.itemGroups, k) * tags;
        var j :| 0 <= j < |groups| && groups[j] == g;
        assert k in At(p.groups, groups[j]);
      }
    }
  }

  /** Purges by surrogate tag: afterwards no live entry carries any of the tags. */
  method PurgeTags(p: Provider, groups: seq<Group>, persistFails: bool)
    returns (count: nat, committed: bool, ghost order: seq<Key>)
    requires p.Valid()
    modifies p, p.expirations, p.expirations.Elements()
    ensures fresh(p.expirations.Elements() - old(p.expirations.Elements()))
    ensures p.Valid() && p.orphans <= old(p.orphans)
    ensures !persistFails ==> committed
    ensures committed ==>
              var tags := set g | g in groups;
              var tagged := TaggedWith(old(p.Cached()), tags);
              && p.Cached() == Purged(old(p.Cached()), tagged)
              && TaggedWith(p.Cached(), tags) == {}
              && count == |Bodies(old(p.Cached())) * tagged|
    ensures Distinct(order) && KeySet(order) == TaggedWith(old(p.Cached()), set g | g in groups)
    ensures committed ==> p.lru == Recent(old(p.lru), Bodies(p.Cached()), [])
    ensures p.Shortage() <= old(p.Shortage()) + (if committed then Lost(old(p.Cached()), order) else 0)
    ensures !committed ==> count == 0
    ensures !committed || persistFails ==> p.Image() == old(p.Image())
  {
    hide Provider.InMemory, DiskAgrees, FilesMatch, Tracks, Purged, Total, HeapOrdered, Provider.Cached, Recent, Lost;
    hide Provider.Shortage;
    var keys := CollectTagged(p, groups);
    NoneTagged(p.Cached(), set g | g in groups);
    order := keys;
    count, committed := DeleteKeys(p, keys, persistFails);
  }

  lemma NoneTagged(c: Cache, tags: set<Group>)
    ensures TaggedWith(Purged(c, TaggedWith(c, tags)), tags) == {}
  {
  }

  /** Deletes a whole entry: every variant that the mapping record of the base key lists, in some
      order, and then the record itself. */
  method DeleteEntry(p: Provider, baseKey: string, persistFails: bool) returns (committed: bool, ghost order: seq<Key>)
    requires p.Valid()
    modifies p, p.expirations, p.expirations.Elements()
    ensures fresh(p.expirations.Elements() - old(p.expirations.Elements()))
    ensures p.Valid() && p.orphans <= old(p.orphans)
    ensures !persistFails ==> committed
    ensures EntryOrder(old(p.items), MappingKey(baseKey), order)
    ensures committed ==> p.Cached() == Purged(old(p.Cached()), KeySet(order))
    ensures committed ==> p.lru == Recent(old(p.lru), Bodies(p.Cached()), [])
    ensures p.Shortage() <= old(p.Shortage()) + (if committed then Lost(old(p.Cached()), order) else 0)
    ensures !committed || persistFails ==> p.Image() == old(p.Image())
  {
    hide Provider.InMemory, Provider.Shortage, BatchState.Linked, BatchState.Balanced, Provider.Cached, Lost, Recent;
    hide BatchState.Shortage, Bodies, BatchState.Staged, BatchState.HasPurged, DiskAgrees, FilesMatch, Tracks, Purged;
    hide Total, HeapOrdered, EntryOrder, KeySet;
    hide Provider.Indexed, RecencyList, ReverseIndex, Provider.Queue, IsMappingKey, WellFormed;
    var s := Begin(p);
    order := StageEntry(s, MappingKey(baseKey));
    committed := Finish(s, KeySet(order), persistFails);
  }

  /** The variants of a mapping, each once, and then the mapping. */
  ghost predicate EntryOrder(items: map<Key, Item>, m: Key, order: seq<Key>)
  {
    && order != [] && order[|order| - 1] == m && Distinct(order)
    && KeySet(order[..|order| - 1]) == (if m in items then Variants(items[m]) else {})
  }

  method StageEntry(s: BatchState, m: Key) returns (ghost order: seq<Key>)
    requires s.HasPurged({}) && IsMappingKey(m) && s.lost == 0
    modifies s`items, s`groups, s`itemGroups, s`variantMappings, s`used, s`physical
    modifies s`obsoleteFiles, s`lost, s.p`nextVersion
    ensures EntryOrder(s.p.items, m, order) && s.HasPurged(KeySet(order))
    ensures s.lost == Lost(s.p.Cached(), order) && s.Shortage() <= old(s.Shortage()) + s.lost
  {
    hide BatchState.HasPurged, BatchState.Shortage, Purged, Provider.Cached, Lost, IsMappingKey;
    NotItsVariant(s, m);
    var variants: set<Key> := if m in s.p.items then Variants(s.p.items[m]) else {};
    order := StageAll(s, variants);
    s.Purge(m, KeySet(order));
    KeySetPush(order, m);
    LostStep(s.p.Cached(), order, m);
    assert (order + [m])[..|order|] == order;
    order := order + [m];
  }

  lemma NotItsVariant(s: BatchState, m: Key)
    requires s.HasPurged({}) && IsMappingKey(m)
    ensures m in s.p.items ==> m !in Variants(s.p.items[m])
  {
    EntryVariants(s.p.Cached(), m);
  }

  /** Stages the deletion of a set of keys in some order. */
  method StageAll(s: BatchState, keys: set<Key>) returns (ghost order: seq<Key>)
    requires s.HasPurged({}) && s.lost == 0
    modifies s`items, s`groups, s`itemGroups, s`variantMappings, s`used, s`physical
    modifies s`obsoleteFiles, s`lost, s.p`nextVersion
    ensures KeySet(order) == keys && Distinct(order) && s.HasPurged(keys)
    ensures s.lost == Lost(s.p.Cached(), order) && s.Shortage() <= old(s.Shortage()) + s.lost
  {
    hide BatchState.HasPurged, BatchState.Shortage, Purged, Provider.Cached, Lost, IsMappingKey;
    var todo := keys;
    order := [];
    NoKeys(s.p.Cached());
    while todo != {}
      invariant KeySet(order) + todo == keys && KeySet(order) !! todo && Distinct(order)
      invariant s.HasPurged(KeySet(order)) && s.lost == Lost(s.p.Cached(), order)
      invariant s.Shortage() <= old(s.Shortage()) + s.lost
    {
      var k :| k in todo;
      s.Purge(k, KeySet(order));
      KeySetPush(order, k);
      LostStep(s.p.Cached(), order, k);
      todo, order := todo - {k}, order + [k];
    }
  }

  /** Deleting an entry meets its mapping record by its own key exactly when the record lists a
      variant that is not a live body. */
  lemma EntryByOwnKey(c: Cache, items: map<Key, Item>, m: Key, order: seq<Key>)
    requires WellFormed(c) && IsMappingKey(m) && EntryOrder(items, m, order)
    requires c.Keys == items.Keys && (m in c ==> c[m].record == items[m].record)
    ensures ByOwnKey(c, order) <==> m in c && !(c[m].record.value.entries.Keys <= Bodies(c))
  {
    var variants := order[..|order| - 1];
    assert order == variants + [m];
    EntryVariants(c, m);
    ByOwnKeyStep(c, variants, m);
    forall i | 0 <= i < |variants|
      ensures !MeetsMapping(c, variants[..i], variants[i])
    {
      assert variants[i] in KeySet(variants);
    }
    if m in c {
      EntryGone(c, m, KeySet(variants));
    }
  }

  lemma EntryVariants(c: Cache, m: Key)
    requires WellFormed(c) && IsMappingKey(m)
    ensures m in c ==> c[m].record.value.Mapping? && forall v :: v in c[m].record.value.entries ==> !IsMappingKey(v)
  {
    assert m in c ==> WellFormedRecord(m, c[m].record);
  }

  /** When all variants of a mapping are live, purging them purges the mapping. */
  lemma EntryGone(c: Cache, m: Key, variants: set<Key>)
    requires WellFormed(c) && IsMappingKey(m)
    requires m in c ==> c[m].record.value.Mapping?
    requires variants == if m in c then c[m].record.value.entries.Keys else {}
    ensures m in Purged(c, variants) <==> m in c && !(variants <= Bodies(c))
  {
    assert m in c && variants <= Bodies(c) ==> Bodies(c) * variants == variants;
  }

  /** A body that is not purged keeps its record. */
  lemma BodyKept(c: Cache, d: set<Key>, k: Key)
    requires WellFormed(c) && k in Bodies(c) && k !in d
    ensures k in Purged(c, d) && Purged(c, d)[k] == c[k]
  {
  }

  lemma NotFreed(c: Cache, ks: seq<Key>, accounted: nat, physical: nat)
    ensures Frees(c, ks, accounted, physical) <==>
            SumOf(c, ks, Accounted) >= accounted && SumOf(c, ks, Physical) >= physical
  {
  }

  /** The next body on the recency list is untouched by the evictions before it. */
  lemma StillLive(s: BatchState, evicted: seq<Key>, i: nat)
    requires i < |s.p.lru| && evicted == s.p.lru[..i]
    requires s.HasPurged(KeySet(evicted)) && RecencyList(s.p.items, s.p.lru)
    ensures var key := s.p.lru[i];
            && key in s.p.items && !IsMappingKey(key)
            && s.GetItem(key).Some? && s.GetItem(key).value.record == s.p.Cached()[key].record
            && s.p.Cached()[key].record.value.Body?
  {
    var key := s.p.lru[i];
    assert key in s.p.lru;
    KindOf(s.p.Cached(), key);
    BodyKept(s.p.Cached(), KeySet(evicted), key);
  }

  /** Evicts along the recency list until both amounts are freed or nothing is left. */
  method StageEviction(s: BatchState, requiredAccounted: nat, requiredPhysical: nat)
    returns (evicted: seq<Key>, freedAccounted: nat, freedPhysical: nat)
    requires s.HasPurged({}) && RecencyList(s.p.items, s.p.lru)
    modifies s`items, s`groups, s`itemGroups, s`variantMappings, s`used, s`physical
    modifies s`obsoleteFiles, s`lost, s.p`nextVersion, s`evicted
    ensures s.HasPurged(KeySet(evicted)) && s.Shortage() <= old(s.Shortage())
    ensures var c := s.p.Cached();
            && evicted <= s.p.lru
            && (evicted == s.p.lru || Frees(c, evicted, requiredAccounted, requiredPhysical))
            && (forall n :: 0 <= n < |evicted| ==> !Frees(c, evicted[..n], requiredAccounted, requiredPhysical))
            && freedAccounted == SumOf(c, evicted, Accounted) && freedPhysical == SumOf(c, evicted, Physical)
  {
    hide BatchState.Linked, BatchState.Balanced, BatchState.Shortage, BatchState.HasPurged, BatchState.Staged;
    hide Purged, Total, SumOf, Frees, KeySet, RecencyList;
    ghost var c := s.p.Cached();
    evicted, freedAccounted, freedPhysical := [], 0, 0;
    NoKeys(s.p.Cached());
    NothingToFree(c, [], {});
    var i := 0;
    while i < |s.p.lru| && (freedAccounted < requiredAccounted || freedPhysical < requiredPhysical)
      invariant 0 <= i <= |s.p.lru| && evicted == s.p.lru[..i]
      invariant s.HasPurged(KeySet(evicted)) && s.Shortage() <= old(s.Shortage())
      invariant freedAccounted == SumOf(c, evicted, Accounted) && freedPhysical == SumOf(c, evicted, Physical)
      invariant forall n :: 0 <= n < |evicted| ==> !Frees(c, evicted[..n], requiredAccounted, requiredPhysical)
    {
      var key := s.p.lru[i];
      NotFreed(c, evicted, requiredAccounted, requiredPhysical);
      KeySetStep(s.p.lru, i);
      StillLive(s, evicted, i);
      assert evicted[..|evicted|] == evicted;
      FreesStep(c, evicted, key, requiredAccounted, requiredPhysical);
      var found := s.GetItem(key);
      if found.Some? && found.value.record.value.Body? {
        freedAccounted := freedAccounted + found.value.record.accountedSize;
        freedPhysical := freedPhysical + found.value.record.physicalSize;
        s.Purge(key, KeySet(evicted));
        s.evicted := s.evicted + 1;
      }
      evicted := evicted + [key];
      i := i + 1;
    }
    NotFreed(c, evicted, requiredAccounted, requiredPhysical);
  }

  /** The shortest run from the front of the recency list that frees both amounts, or all of it. */
  ghost predicate EvictionOrder(c: Cache, lru: seq<Key>, accounted: nat, physical: nat, evicted: seq<Key>)
  {
    && evicted <= lru && (evicted == lru || Frees(c, evicted, accounted, physical))
    && forall n :: 0 <= n < |evicted| ==> !Frees(c, evicted[..n], accounted, physical)
  }

  /** Evicts the shortest run of least recently used bodies that frees both amounts. */
  method EvictForBudget(p: Provider, requiredAccounted: nat, requiredPhysical: nat, persistFails: bool)
    returns (freedAccounted: nat, freedPhysical: nat, committed: bool, ghost evicted: seq<Key>)
    requires p.Valid()
    modifies p, p.expirations, p.expirations.Elements()
    ensures fresh(p.expirations.Elements() - old(p.expirations.Elements()))
    ensures p.Valid() && p.orphans <= old(p.orphans) && p.Shortage() <= old(p.Shortage())
    ensures committed ==> p.lru == Recent(old(p.lru), Bodies(p.Cached()), [])
    ensures !persistFails ==> committed
    ensures var c := old(p.Cached());
            && EvictionOrder(c, old(p.lru), requiredAccounted, requiredPhysical, evicted)
            && (committed ==>
                  && p.Cached() == Purged(c, KeySet(evicted))
                  && freedAccounted == SumOf(c, evicted, Accounted) && freedPhysical == SumOf(c, evicted, Physical))
    ensures !committed ==> freedAccounted == 0 && freedPhysical == 0
    ensures !committed || persistFails ==> p.Image() == old(p.Image())
  {
    hide Provider.Shortage, BatchState.Linked, BatchState.Balanced, Provider.Cached, Frees, ReverseIndex, Inverse;
    hide NoEmptySets, WellFormed, Recent, Bodies;
    hide BatchState.Shortage, BatchState.Staged, BatchState.HasPurged, DiskAgrees, FilesMatch, Tracks, Purged;
    hide Total, HeapOrdered, RecencyList;
    var s := Begin(p);
    evicted, freedAccounted, freedPhysical := StageEviction(s, requiredAccounted, requiredPhysical);
    committed := Finish(s, KeySet(evicted), persistFails);
    if !committed {
      freedAccounted, freedPhysical := 0, 0;
    }
  }
}
