/** The operations that change live items without deleting or storing bodies: refresh after a
    revalidation, the recency touch of a hit, and the reset of the whole provider. */
module Maintenance {
  import opened Common
  import opened CacheModel
  import opened ExpirationHeap
  import opened Index
  import opened Batch
  import opened Committing
  import opened Admission
  import opened Deletions
  import opened Writes

  /** The entry for one variant renewed: mapping and body live on until `expiresAt`. */
  ghost function Renewed(c: Cache, m: Key, v: Key, index: KeyIndex, expiresAt: int, now: int): Cache
    requires m in c && v in c && c[m].record.value.Mapping?
  {
    var entries := c[m].record.value.entries[v := index];
    c[m := c[m].(record := c[m].record.(value := Mapping(entries), expiresAt := Some(expiresAt), lastAccess := now,
                                        accountedSize := MappingSize(m, entries)))]
     [v := c[v].(record := c[v].record.(expiresAt := Some(expiresAt), lastAccess := now))]
  }

  /** Stages the renewed mapping and body. */
  method StageBoth(s: BatchState, ghost c: Cache, m: Key, v: Key, index: KeyIndex, expiresAt: int, now: int)
    requires s.Linked() && WellFormed(c) && s.Staged() == c && IsMappingKey(m) && !IsMappingKey(v)
    requires m in c && v in c && c[m].record.value.Mapping? && IsBody(c[v])
    modifies s`items, s`variantMappings, s`used, s.p`nextVersion
    ensures s.Linked() && s.Staged() == Renewed(c, m, v, index, expiresAt, now)
    ensures s.items.Keys == old(s.items.Keys) + {m, v}
    ensures s.used == Less(old(s.used), Accounted(m, c[m])) + Accounted(m, Renewed(c, m, v, index, expiresAt, now)[m])
  {
    hide BatchState.Linked, BatchState.Staged, WellFormed, MappingSize, EncodedSize;
    var mapping, body := s.GetItem(m), s.GetItem(v);
    var entries := mapping.value.record.value.entries[v := index];
    EntryVariants(c, m);
    NoBlocksHere(c, m);
    RenewedBody(c, v, expiresAt, now);
    ghost var r := Renewed(c, m, v, index, expiresAt, now);
    assert v in entries.Keys;
    s.p.nextVersion := s.p.nextVersion + 1;
    s.StageMapping(m, Some(Item(mapping.value.record.(value := Mapping(entries), expiresAt := Some(expiresAt),
                                                      lastAccess := now),
                                s.p.nextVersion, mapping.value.expiration)));
    assert s.Staged() == c[m := r[m]];
    s.p.nextVersion := s.p.nextVersion + 1;
    s.StageBody(v, Some(Item(body.value.record.(expiresAt := Some(expiresAt), lastAccess := now), s.p.nextVersion,
                             body.value.expiration)));
    assert s.Staged() == r;
  }

  /** Stages the renewal; the totals follow. */
  method StageRenewal(s: BatchState, m: Key, v: Key, index: KeyIndex, expiresAt: int, now: int)
    requires s.HasPurged({}) && m in s.p.items && v in s.p.items && IsMappingKey(m) && !IsMappingKey(v)
    requires s.items == map[]
    modifies s`items, s`variantMappings, s`used, s.p`nextVersion
    ensures s.Linked() && s.Balanced() && s.p.Cached()[m].record.value.Mapping?
    ensures s.Staged() == Renewed(s.p.Cached(), m, v, index, expiresAt, now)
    ensures s.Shortage() <= old(s.Shortage()) && s.NewBodies() == {v}
  {
    hide BatchState.Linked, BatchState.Staged, WellFormed, Total, Renewed, Purged, OnlyDeletes, PathsOf;
    ghost var c := s.p.Cached();
    PurgedNothing(c);
    StagedWellFormed(s);
    KindOf(c, m);
    KindOf(c, v);
    RenewTotals(c, m, v, index, expiresAt, now, s.used, s.physical);
    StageBoth(s, c, m, v, index, expiresAt, now);
    RenewedBodies(c, m, v, index, expiresAt, now, s);
  }

  lemma RenewedBodies(c: Cache, m: Key, v: Key, index: KeyIndex, expiresAt: int, now: int, s: BatchState)
    requires m in c && v in c && c[m].record.value.Mapping? && IsBody(c[v]) && m != v
    requires s.Staged() == Renewed(c, m, v, index, expiresAt, now) && s.items.Keys == {m, v}
    ensures s.NewBodies() == {v}
  {
  }

  lemma RenewedBody(c: Cache, v: Key, expiresAt: int, now: int)
    requires WellFormed(c) && v in c && IsBody(c[v])
    ensures WellFormedRecord(v, c[v].record.(expiresAt := Some(expiresAt), lastAccess := now))
  {
    assert WellFormedRecord(v, c[v].record);
  }

  lemma RenewTotals(c: Cache, m: Key, v: Key, index: KeyIndex, expiresAt: int, now: int, used: nat, physical: nat)
    requires WellFormed(c) && m in c && v in c && c[m].record.value.Mapping? && m != v
    requires physical == PhysicalTotal(c) && used <= AccountedTotal(c)
    ensures var r := Renewed(c, m, v, index, expiresAt, now);
            var used' := Less(used, Accounted(m, c[m])) + Accounted(m, r[m]);
            && physical == PhysicalTotal(r) && used' <= AccountedTotal(r)
            && AccountedTotal(r) - used' <= AccountedTotal(c) - used
  {
    var r := Renewed(c, m, v, index, expiresAt, now);
    var half := c[m := r[m]];
    NoBlocksHere(c, m);
    ReplaceTotals(c, m, r[m], used, physical);
    TotalSkipsFree(half, r, Physical);
    TotalSkipsFree(half, r, Accounted);
  }

  lemma NoBlocksHere(c: Cache, m: Key)
    requires WellFormed(c) && m in c && c[m].record.value.Mapping?
    ensures c[m].record.physicalSize == 0 && c[m].record.compressedSize == 0 && c[m].record.checksum == ""
  {
    assert WellFormedRecord(m, c[m].record);
  }

  /** A variant that can be renewed: its body is live and its new entry can be encoded. */
  ghost predicate Renewable(c: Cache, m: Key, v: Key, index: KeyIndex)
  {
    v != "" && v in Bodies(c) && Encodable(ListedIn(c, m)[v := index])
  }

  /** The first matching variant the mapping lists, in whatever order it is gone through. */
  method Choose(p: Provider, m: Key, matches: KeyIndex -> bool) returns (variant: Option<Key>)
    requires p.InMemory() && IsMappingKey(m)
    ensures Chosen(p.Cached(), m, matches, variant)
    ensures variant.Some? ==> m in p.items && p.items[m].record.value.Mapping?
  {
    if m !in p.items || p.items[m].record.value.Body? {
      return None;
    }
    var entries := p.items[m].record.value.entries;
    if !exists k :: k in entries && matches(entries[k]) {
      return None;
    }
    var v :| v in entries && matches(entries[v]);
    variant := Some(v);
  }

  ghost predicate Chosen(c: Cache, m: Key, matches: KeyIndex -> bool, variant: Option<Key>)
  {
    var listed := ListedIn(c, m);
    match variant
    case None => forall v :: v in listed ==> !matches(listed[v])
    case Some(v) => v in listed && matches(listed[v])
  }

  /** Renews the chosen variant and its mapping after a revalidation. */
  method Refresh(p: Provider, baseKey: string, matches: KeyIndex -> bool, json: string, duration: int, now: int,
                 persistFails: bool)
    returns (renewed: bool, ghost chosen: Option<Key>)
    requires p.Valid()
    modifies p, p.expirations, p.expirations.Elements()
    ensures fresh(p.expirations.Elements() - old(p.expirations.Elements()))
    ensures p.Valid() && p.files == old(p.files) && p.orphans == old(p.orphans)
    ensures p.Shortage() <= old(p.Shortage())
    ensures Chosen(old(p.Cached()), MappingKey(baseKey), matches, chosen)
    ensures renewed <==> RenewsChosen(old(p.Cached()), MappingKey(baseKey), chosen,
                                      NewIndex(now, duration, p.stale, json)) && !persistFails
    ensures renewed ==>
              p.Cached() == Renewed(old(p.Cached()), MappingKey(baseKey), chosen.value,
                                    NewIndex(now, duration, p.stale, json),
                                    now + duration + p.stale, now)
    ensures renewed ==> chosen.Some? && p.lru == Recent(old(p.lru), Bodies(p.Cached()), [chosen.value])
    ensures renewed ==>
              forall k, t :: k in {chosen.value, MappingKey(baseKey)} ==>
                             (k in Due(p.Cached(), t) <==> t >= now + duration + p.stale)
    ensures !renewed ==> p.Image() == old(p.Image())
  {
    hide Renewable, Chosen, ListedIn, IsMappingKey;
    hide Provider.Shortage, BatchState.Linked, BatchState.Balanced, DiskAgrees, FilesMatch, Recent;
    hide Tracks, Purged, Total, HeapOrdered;
    hide BatchState.HasPurged, BatchState.Staged, WellFormed, Renewed;
    var m := MappingKey(baseKey);
    var index := NewIndex(now, duration, p.stale, json);
    var found := Choose(p, m, matches);
    chosen := found;
    ChosenIsListed(p.Cached(), m, matches, found);
    if found.None? {
      return false, chosen;
    }
    var v := found.value;
    NotRenewable(p, m, v, index);
    if v == "" || v !in p.items || p.items[v].record.value.Mapping? {
      return false, chosen;
    }
    if !Encodable(p.items[m].record.value.entries[v := index]) {
      return false, chosen;
    }
    RenewalMeaning(p.Cached(), m, v, now, duration, p.stale, json);
    renewed := Renew(p, m, v, index, now + duration + p.stale, now, persistFails);
  }

  function NewIndex(now: int, duration: int, stale: nat, json: string): KeyIndex
  {
    KeyIndex(now, now + duration, now + duration + stale, json)
  }

  /** A renewed entry is fresh for the new duration, stale for the stale window after it, and then
      due, mapping and body together; both were used just now, and nothing else has changed. */
  lemma RenewalMeaning(c: Cache, m: Key, v: Key, now: int, duration: int, stale: nat, json: string)
    requires m in c && v in c && c[m].record.value.Mapping? && m != v
    ensures var d := Renewed(c, m, v, NewIndex(now, duration, stale, json), now + duration + stale, now);
            && d.Keys == c.Keys && (forall k :: k in c && k != m && k != v ==> d[k] == c[k])
            && (forall k, t :: k in {m, v} ==> (k in Due(d, t) <==> t >= now + duration + stale))
            && d[v].record == c[v].record.(expiresAt := d[v].record.expiresAt, lastAccess := now)
            && d[v].tags == c[v].tags && d[m].tags == c[m].tags && d[m].record.lastAccess == now
            && d[m].record.value.Mapping?
            && var listed, entries := c[m].record.value.entries, d[m].record.value.entries;
            && entries.Keys == listed.Keys + {v} && entries[v].json == json && entries[v].storedAt == now
            && entries[v].freshUntil == now + duration && entries[v].staleUntil == now + duration + stale
            && forall k :: k in listed && k != v ==> entries[k] == listed[k]
  {
    hide MappingSize;
  }

  /** A variant was chosen and can be renewed. */
  ghost predicate RenewsChosen(c: Cache, m: Key, chosen: Option<Key>, index: KeyIndex)
  {
    chosen.Some? && m in c && c[m].record.value.Mapping? && Renewable(c, m, chosen.value, index) && chosen.value in c
  }

  lemma ChosenIsListed(c: Cache, m: Key, matches: KeyIndex -> bool, variant: Option<Key>)
    requires Chosen(c, m, matches, variant)
    ensures variant.Some? ==> variant.value in ListedIn(c, m)
  {
  }

  lemma NotRenewable(p: Provider, m: Key, v: Key, index: KeyIndex)
    requires p.InMemory() && m in p.items && p.items[m].record.value.Mapping?
    ensures Renewable(p.Cached(), m, v, index) <==>
              && v != "" && v in p.items && !p.items[v].record.value.Mapping?
              && Encodable(p.items[m].record.value.entries[v := index])
    ensures v in p.items && !p.items[v].record.value.Mapping? ==> !IsMappingKey(v)
  {
    if v in p.items {
      KindOf(p.Cached(), v);
    }
  }

  /** Renews one variant in one transaction. */
  method Renew(p: Provider, m: Key, v: Key, index: KeyIndex, expiresAt: int, now: int, persistFails: bool)
      returns (renewed: bool)
    requires p.Valid() && m in p.items && v in p.items && IsMappingKey(m) && !IsMappingKey(v)
    requires p.items[m].record.value.Mapping?
    modifies p, p.expirations, p.expirations.Elements()
    ensures fresh(p.expirations.Elements() - old(p.expirations.Elements()))
    ensures p.Valid() && p.files == old(p.files) && p.orphans == old(p.orphans)
    ensures p.Shortage() <= old(p.Shortage())
    ensures renewed <==> !persistFails
    ensures renewed ==> p.lru == Recent(old(p.lru), Bodies(p.Cached()), [v])
    ensures renewed ==> p.Cached() == Renewed(old(p.Cached()), m, v, index, expiresAt, now)
    ensures !renewed ==> p.Image() == old(p.Image())
  {
    hide Provider.InMemory, BatchState.Linked, BatchState.Balanced, DiskAgrees, FilesMatch, Tracks, Purged;
    hide Total, HeapOrdered;
    hide BatchState.HasPurged, BatchState.Staged, StagedBodies, Recent, WellFormed, Renewed, Provider.Cached;
    hide RecencyList, BatchState.NewBodies, Bodies;
    var s := Begin(p);
    StageRenewal(s, m, v, index, expiresAt, now);
    RenewedFiles(p, m, v, index, expiresAt, now);
    ghost var moved;
    s.StagedSome();
    renewed, moved := Commit(s, persistFails);
    if renewed {
      MovedOne(p, s.items, moved, old(p.lru), v);
      QueueDone(p);
    } else {
      ValidAgain(s);
    }
  }

  /** The recency list has every body once, so the renewed one is all that moved. */
  lemma MovedOne(p: Provider, staged: map<Key, Option<Item>>, moved: seq<Key>, lru: seq<Key>, v: Key)
    requires p.Indexed() && StagedBodies(staged, staged.Keys, moved)
    requires forall k :: k == v <==> k in staged && staged[k].Some? && staged[k].value.record.value.Body?
    requires p.lru == Recent(lru, Bodies(p.Cached()), moved)
    ensures moved == [v]
  {
    assert v in moved;
    var start := |p.lru| - |moved|;
    forall i, j | 0 <= i < j < |moved| ensures moved[i] != moved[j] {
      assert p.lru[start + i] == moved[i] && p.lru[start + j] == moved[j];
    }
    forall i | 0 <= i < |moved| ensures moved[i] == v {
      assert moved[i] in moved;
    }
    assert moved[0] == moved[|moved| - 1];
  }

  lemma RenewedFiles(p: Provider, m: Key, v: Key, index: KeyIndex, expiresAt: int, now: int)
    requires FilesMatch(p.Cached(), p.files, p.orphans) && m in p.items && v in p.items && m != v
    requires p.items[m].record.value.Mapping?
    ensures FilesMatch(Renewed(p.Cached(), m, v, index, expiresAt, now), p.files, p.orphans)
  {
    var c, r := p.Cached(), Renewed(p.Cached(), m, v, index, expiresAt, now);
    forall f ensures Names(r, f) <==> Names(c, f) {
    }
  }

  const SECOND: int := 1_000_000_000

  /** Records a hit: at most once a second the item is stamped and its body moves to the back of
      the recency list; a file with a new modification time also has its record written again. The
      write to the database is left to the next commit. */
  method Touch(p: Provider, key: Key, generation: nat, now: int, modified: bool, contended: bool)
    requires p.Valid()
    modifies p`items, p`lru, p`dirtyItems
    ensures p.Valid() && p.Shortage() == old(p.Shortage()) && p.files == old(p.files) && p.orphans == old(p.orphans)
    ensures var current := key in old(p.items) && old(p.items)[key].generation == generation && !contended;
            var hit := current && now - old(p.items)[key].record.lastAccess >= 1_000_000_000;
            && p.Cached() == (if hit then Stamped(old(p.Cached()), key, now) else old(p.Cached()))
            && (hit ==> key in p.Cached() && p.Cached()[key].record.lastAccess == now)
            && p.lru == Recent(old(p.lru), Bodies(p.Cached()),
                               if hit && key in Bodies(old(p.Cached())) then [key] else [])
            && p.dirtyItems == old(p.dirtyItems) + (if hit || (current && modified) then {key} else {})
  {
    hide Provider.Valid, Provider.Shortage, Recent;
    StaysRecent(p);
    if !Current(p.items, key, generation) || !(Elapsed(p.items[key], now) || modified) || contended {
      return;
    }
    if Elapsed(p.items[key], now) {
      Stamp(p, key, now);
    } else {
      MarkDirty(p, key);
    }
  }

  /** The item is still the one the caller read. */
  predicate Current(items: map<Key, Item>, key: Key, generation: nat)
  {
    key in items && items[key].generation == generation
  }

  /** A second has passed since the item was last stamped. */
  predicate Elapsed(item: Item, now: int)
  {
    now - item.record.lastAccess >= SECOND
  }

  /** Only the modification time of the file is new: the item has to be written again. */
  method MarkDirty(p: Provider, key: Key)
    requires p.Valid() && key in p.items
    modifies p`dirtyItems
    ensures p.Valid() && p.dirtyItems == old(p.dirtyItems) + {key}
  {
    hide WellFormed, ReverseIndex, RecencyList, Tracks, FilesMatch, Total, Inverse, NoEmptySets;
    hide Unscheduled, HeapOrdered;
    StampDisk(p.items, key, p.items[key], p.groups, p.disk, p.dirtyItems, p.dirtyGroups);
    assert p.items[key := p.items[key]] == p.items;
    p.dirtyItems := p.dirtyItems + {key};
  }

  method Stamp(p: Provider, key: Key, now: int)
    requires p.Valid() && key in p.items
    modifies p`items, p`lru, p`dirtyItems
    ensures p.Valid() && p.Shortage() == old(p.Shortage())
    ensures p.Cached() == Stamped(old(p.Cached()), key, now)
    ensures p.lru == Recent(old(p.lru), Bodies(p.Cached()), if key in Bodies(old(p.Cached())) then [key] else [])
    ensures p.dirtyItems == old(p.dirtyItems) + {key}
  {
    hide WellFormed, ReverseIndex, RecencyList, Tracks, FilesMatch, DiskAgrees, Total, Inverse, NoEmptySets;
    hide Unscheduled, HeapOrdered;
    var item := p.items[key];
    var stamped := item.(record := item.record.(lastAccess := now));
    StampKeeps(p.items, key, stamped, p.itemGroups, p.variantMappings, p.expirations.Elements(), p.files, p.orphans);
    StampDisk(p.items, key, stamped, p.groups, p.disk, p.dirtyItems, p.dirtyGroups);
    StampRecency(p.items, key, stamped, p.lru);
    StampRecent(p.items, p.itemGroups, key, stamped, p.lru);
    assert Abstract(p.items[key := stamped], p.itemGroups) == Stamped(p.Cached(), key, now);
    if item.record.value.Body? {
      p.lru := Without(p.lru, key) + [key];
    }
    p.items := p.items[key := stamped];
    p.dirtyItems := p.dirtyItems + {key};
  }

  lemma StaysRecent(p: Provider)
    requires p.Valid()
    ensures Recent(p.lru, Bodies(p.Cached()), []) == p.lru
  {
    RecentSame(p.items, p.itemGroups, p.lru);
  }

  lemma {:induction false} WithoutIsDrop(s: seq<Key>, key: Key)
    ensures Without(s, key) == DropKeys(s, {key})
  {
    if s != [] {
      WithoutIsDrop(s[1..], key);
    }
  }

  lemma StampRecent(items: map<Key, Item>, itemGroups: map<Key, set<Group>>, key: Key, stamped: Item, lru: seq<Key>)
    requires RecencyList(items, lru) && StampOf(items, key, stamped)
    ensures var live := Bodies(Abstract(items[key := stamped], itemGroups));
            Recent(lru, live, if items[key].record.value.Body? then [key] else [])
            == if items[key].record.value.Body? then Without(lru, key) + [key] else lru
  {
    var live := Bodies(Abstract(items[key := stamped], itemGroups));
    if items[key].record.value.Body? {
      WithoutIsDrop(lru, key);
      DropSame(lru, {key}, set k | k in lru && (k !in live || k in [key]));
    } else {
      DropSame(lru, {}, set k | k in lru && (k !in live || k in []));
      DropNone(lru);
    }
  }

  /** Stamping an item disturbs none of the indexes. */
  ghost predicate StampOf(items: map<Key, Item>, key: Key, stamped: Item)
  {
    key in items && stamped == items[key].(record := items[key].record.(lastAccess := stamped.record.lastAccess))
  }

  lemma StampIndex(items: map<Key, Item>, key: Key, stamped: Item, vm: map<Key, set<Key>>, queued: set<ExpirationEntry>)
    requires StampOf(items, key, stamped) && ReverseIndex(items, vm) && Unscheduled(items) && Tracks(items, queued)
    ensures var items' := items[key := stamped];
            ReverseIndex(items', vm) && Unscheduled(items') && Tracks(items', queued)
  {
    var items' := items[key := stamped];
    forall v, m ensures m in At(vm, v) <==> m in items' && ListsVariant(items'[m], v) {
      assert m in At(vm, v) <==> m in items && ListsVariant(items[m], v);
    }
    forall k | k in items' ensures Queued(k, items'[k], queued) {
      assert Queued(k, items[k], queued);
    }
  }

  lemma StampCache(items: map<Key, Item>, key: Key, stamped: Item, itemGroups: map<Key, set<Group>>)
    requires StampOf(items, key, stamped) && WellFormed(Abstract(items, itemGroups))
    ensures var c, c' := Abstract(items, itemGroups), Abstract(items[key := stamped], itemGroups);
            WellFormed(c') && PhysicalTotal(c') == PhysicalTotal(c) && AccountedTotal(c') == AccountedTotal(c)
  {
    var c, c' := Abstract(items, itemGroups), Abstract(items[key := stamped], itemGroups);
    forall k | k in c' ensures WellFormedRecord(k, c'[k].record) {
      assert WellFormedRecord(k, c[k].record);
    }
    TotalSkipsFree(c', c, Physical);
    TotalSkipsFree(c', c, Accounted);
  }

  lemma StampFiles(items: map<Key, Item>, key: Key, stamped: Item, itemGroups: map<Key, set<Group>>,
                   files: map<Path, Blob>, orphans: set<Path>)
    requires StampOf(items, key, stamped) && FilesMatch(Abstract(items, itemGroups), files, orphans)
    ensures FilesMatch(Abstract(items[key := stamped], itemGroups), files, orphans)
  {
    var c, c' := Abstract(items, itemGroups), Abstract(items[key := stamped], itemGroups);
    forall f ensures Names(c', f) <==> Names(c, f) {
    }
  }

  lemma StampKeeps(items: map<Key, Item>, key: Key, stamped: Item, itemGroups: map<Key, set<Group>>,
                   vm: map<Key, set<Key>>, queued: set<ExpirationEntry>, files: map<Path, Blob>, orphans: set<Path>)
    requires StampOf(items, key, stamped)
    requires WellFormed(Abstract(items, itemGroups)) && ReverseIndex(items, vm) && Unscheduled(items)
    requires Tracks(items, queued)
    requires FilesMatch(Abstract(items, itemGroups), files, orphans)
    ensures var items' := items[key := stamped];
            var c, c' := Abstract(items, itemGroups), Abstract(items', itemGroups);
            && WellFormed(c') && ReverseIndex(items', vm) && Unscheduled(items') && Tracks(items', queued)
            && FilesMatch(c', files, orphans)
            && PhysicalTotal(c') == PhysicalTotal(c) && AccountedTotal(c') == AccountedTotal(c)
  {
    hide WellFormed, ReverseIndex, Unscheduled, Tracks, FilesMatch, Abstract, Total;
    StampIndex(items, key, stamped, vm, queued);
    StampCache(items, key, stamped, itemGroups);
    StampFiles(items, key, stamped, itemGroups, files, orphans);
  }

  lemma StampDisk(items: map<Key, Item>, key: Key, stamped: Item, groups: map<Group, set<Key>>, disk: DiskIndex,
                  dirtyItems: set<Key>, dirtyGroups: set<Group>)
    requires DiskAgrees(items, groups, disk, dirtyItems, dirtyGroups)
    ensures DiskAgrees(items[key := stamped], groups, disk, dirtyItems + {key}, dirtyGroups)
  {
    forall k | k !in dirtyItems + {key} ensures OnDisk(k, items[key := stamped], disk.items) {
      assert OnDisk(k, items, disk.items);
    }
  }

  lemma StampRecency(items: map<Key, Item>, key: Key, stamped: Item, lru: seq<Key>)
    requires RecencyList(items, lru) && key in items && stamped.record.value == items[key].record.value
    ensures RecencyList(items[key := stamped], if stamped.record.value.Body? then Without(lru, key) + [key] else lru)
  {
    WithoutMembers(lru, key);
  }

  ghost function Stamped(c: Cache, key: Key, now: int): Cache
    requires key in c
  {
    c[key := c[key].(record := c[key].record.(lastAccess := now))]
  }

  /** Drops everything, or with a failing database nothing. Orphaned files stay. */
  method Reset(p: Provider, persistFails: bool) returns (ok: bool)
    requires p.Valid()
    modifies p, p.expirations
    ensures p.Valid() && ok == !persistFails && p.expirations.Elements() <= old(p.expirations.Elements())
    ensures ok ==> p.Cached() == map[] && p.Exact() && p.lru == [] && p.files.Keys <= old(p.orphans)
    ensures ok ==> p.disk == DiskIndex(map[], map[], 0)
    ensures p.orphans <= old(p.orphans)
    ensures !ok ==> p.Image() == old(p.Image())
  {
    hide Provider.InMemory, Provider.Exact, Provider.Cached, FilesMatch, DiskAgrees, Tracks, HeapOrdered, Total;
    if persistFails {
      return false;
    }
    var obsolete := set k | k in p.items && p.items[k].record.value.Body? :: p.items[k].record.value.path;
    DropAll(p, obsolete);
    Clear(p, obsolete);
    EmptyProvider(p);
    ok := true;
  }

  method Clear(p: Provider, obsolete: set<Path>)
    modifies p, p.expirations
    ensures p.items == map[] && p.groups == map[] && p.variantMappings == map[] && p.itemGroups == map[] && p.lru == []
    ensures p.dirtyItems == {} && p.dirtyGroups == {} && p.cacheUsed == 0 && p.physicalUsed == 0
    ensures p.disk == DiskIndex(map[], map[], 0) && p.expirations.entries == []
    ensures p.files == old(p.files) - obsolete && p.orphans == old(p.orphans) - obsolete
  {
    p.disk := DiskIndex(map[], map[], 0);
    p.items, p.groups, p.variantMappings, p.itemGroups := map[], map[], map[], map[];
    p.expirations.entries := [];
    p.lru, p.dirtyItems, p.dirtyGroups := [], {}, {};
    p.cacheUsed, p.physicalUsed := 0, 0;
    p.files, p.orphans := p.files - obsolete, p.orphans - obsolete;
  }

  lemma EmptyProvider(p: Provider)
    requires p.items == map[] && p.groups == map[] && p.variantMappings == map[] && p.itemGroups == map[] && p.lru == []
    requires p.dirtyItems == {} && p.dirtyGroups == {} && p.cacheUsed == 0 && p.physicalUsed == 0
    requires p.disk == DiskIndex(map[], map[], 0) && p.expirations.entries == []
    requires FilesMatch(map[], p.files, p.orphans)
    ensures p.Valid() && p.Exact() && p.Cached() == map[] && p.files.Keys <= p.orphans
  {
    assert p.Cached() == map[];
  }

  lemma DropAll(p: Provider, obsolete: set<Path>)
    requires p.InMemory() && FilesMatch(p.Cached(), p.files, p.orphans)
    requires obsolete == set k | k in p.items && p.items[k].record.value.Body? :: p.items[k].record.value.path
    ensures FilesMatch(map[], p.files - obsolete, p.orphans - obsolete)
  {
    var c := p.Cached();
    forall f ensures Names(c, f) ==> f in obsolete {
    }
  }
}
