/** Committing a batch: the overlay is written to the index database in one transaction and
    then installed in memory. */
module Committing {
  import opened Common
  import opened CacheModel
  import opened ExpirationHeap
  import opened Index
  import opened Batch

  /** The database holds what the overlay shows, under every key and for every group. */
  ghost predicate OverlayOnDisk(s: BatchState)
    reads s`items, s`groups, s.p`items, s.p`groups, s.p`disk
  {
    && (forall k :: OnDisk(k, s.Current(), s.p.disk.items))
    && (forall g :: At(s.p.disk.groups, g) == Through(s.p.groups, s.groups, g))
    && NoEmptySets(s.p.disk.groups)
  }

  method PersistItems(s: BatchState, keys: set<Key>, items: map<Key, DiskRecord>)
    returns (written: map<Key, DiskRecord>)
    ensures forall k :: k in keys ==> OnDisk(k, s.Current(), written)
    ensures forall k :: k !in keys ==> (k in written <==> k in items) && (k in items ==> written[k] == items[k])
  {
    hide View;
    written := items;
    var todo := keys;
    while todo != {}
      invariant todo <= keys
      invariant forall k :: k in keys - todo ==> OnDisk(k, s.Current(), written)
      invariant forall k :: k !in keys - todo ==>
                              (k in written <==> k in items) && (k in items ==> written[k] == items[k])
    {
      var key :| key in todo;
      ghost var before := written;
      var found := s.GetItem(key);
      if found.None? {
        written := written - {key};
      } else {
        written := written[key := ToDisk(found.value.record)];
      }
      todo := todo - {key};
      forall k | k in keys - todo ensures OnDisk(k, s.Current(), written) {
        assert k != key ==> OnDisk(k, s.Current(), before);
      }
    }
  }

  method PersistGroups(s: BatchState, names: set<Group>, groups: map<Group, set<Key>>)
    returns (written: map<Group, set<Key>>)
    requires NoEmptySets(groups)
    ensures NoEmptySets(written)
    ensures forall g :: At(written, g) == if g in names then Through(s.p.groups, s.groups, g) else At(groups, g)
  {
    written := groups;
    var todo := names;
    while todo != {}
      invariant todo <= names && NoEmptySets(written)
      invariant forall g :: At(written, g) ==
                              if g in names - todo then Through(s.p.groups, s.groups, g) else At(groups, g)
    {
      var g :| g in todo;
      var keys := s.KeysForGroup(g);
      if keys == {} {
        written := written - {g};
      } else {
        written := written[g := keys];
      }
      todo := todo - {g};
    }
  }

  /** Writes every dirty or staged item and group, or nothing at all. */
  method PersistBatch(s: BatchState, fails: bool) returns (ok: bool)
    requires DiskAgrees(s.p.items, s.p.groups, s.p.disk, s.p.dirtyItems, s.p.dirtyGroups)
    modifies s.p`disk
    ensures ok <==> !fails
    ensures ok ==> OverlayOnDisk(s) && s.p.disk.used == s.used
    ensures !ok ==> s.p.disk == old(s.p.disk)
  {
    if fails {
      return false;
    }
    var p := s.p;
    var items := PersistItems(s, p.dirtyItems + s.items.Keys, p.disk.items);
    var groups := PersistGroups(s, p.dirtyGroups + s.groups.Keys, p.disk.groups);
    ghost var before := p.disk;
    p.disk := DiskIndex(items, groups, s.used);
    forall k ensures OnDisk(k, s.Current(), p.disk.items) {
      if k in p.dirtyItems + s.items.Keys {
        assert OnDisk(k, s.Current(), items);
      } else {
        assert OnDisk(k, p.items, before.items);
      }
    }
    ok := true;
  }

  /** The staged items in `done` have replaced the base items; the others are as before. */
  ghost predicate Installed(base: map<Key, Item>, staged: map<Key, Option<Item>>, done: set<Key>, items: map<Key, Item>)
    requires done <= staged.Keys
  {
    && (forall k :: k in done ==> SameItem(staged[k], if k in items then Some(items[k]) else None))
    && (forall k :: k !in done ==> (k in items <==> k in base) && (k in items ==> items[k] == base[k]))
  }

  ghost function EntriesIn(popped: set<ExpirationEntry>, keys: set<Key>): set<ExpirationEntry>
  {
    set e | e in popped && e.key in keys
  }

  ghost predicate StagedBodies(staged: map<Key, Option<Item>>, done: set<Key>, moved: seq<Key>)
  {
    forall k :: k in moved <==> k in done && k in staged && staged[k].Some? && staged[k].value.record.value.Body?
  }

  ghost function MovedLast(staged: Option<Item>, key: Key): seq<Key>
  {
    if staged.Some? && staged.value.record.value.Body? then [key] else []
  }

  lemma MovedStep(staged: map<Key, Option<Item>>, done: set<Key>, moved: seq<Key>, key: Key)
    requires StagedBodies(staged, done, moved) && key in staged
    ensures StagedBodies(staged, done + {key}, moved + MovedLast(staged[key], key))
    ensures key !in done ==> key !in moved
  {
  }

  lemma NothingMoved(staged: map<Key, Option<Item>>)
    ensures StagedBodies(staged, {}, [])
  {
  }

  lemma EntriesBegin(popped: seq<ExpirationEntry>, keys: set<Key>)
    requires KeysOf(popped) <= keys
    ensures EntriesIn(Members(popped), keys) == Members(popped)
  {
  }

  lemma EntriesStep(popped: set<ExpirationEntry>, keys: set<Key>, key: Key)
    ensures EntriesIn(popped, keys) - KeyEntries(EntriesIn(popped, keys), key) == EntriesIn(popped, keys - {key})
  {
  }

  lemma NoEntries(popped: set<ExpirationEntry>)
    ensures EntriesIn(popped, {}) == {}
  {
  }

  lemma NothingInstalled(base: map<Key, Item>, staged: map<Key, Option<Item>>)
    ensures Installed(base, staged, {}, base)
  {
  }

  lemma StagedUnscheduled(s: BatchState)
    requires Unscheduled(s.Current())
    ensures forall k :: k in s.items && s.items[k].Some? && s.items[k].value.record.expiresAt.None? ==>
                        s.items[k].value.expiration == null
  {
    assert forall k :: k in s.items && s.items[k].Some? ==> k in s.Current() && s.Current()[k] == s.items[k].value;
  }

  lemma InstallStep(base: map<Key, Item>, staged: map<Key, Option<Item>>, done: set<Key>, items: map<Key, Item>,
                    items': map<Key, Item>, key: Key)
    requires done + {key} <= staged.Keys && Installed(base, staged, done, items)
    requires SameElsewhere(items, items', key)
    requires SameItem(staged[key], if key in items' then Some(items'[key]) else None)
    ensures Installed(base, staged, done + {key}, items')
  {
    forall k | k in done + {key} ensures SameItem(staged[k], if k in items' then Some(items'[k]) else None) {
      if k != key {
        assert SameItem(staged[k], if k in items then Some(items[k]) else None);
      }
    }
  }

  /** Installs the staged items in memory. The staged bodies end up, in some order, behind all
      others in the recency list. */
  method ApplyItems(s: BatchState) returns (ghost moved: seq<Key>)
    requires s.p.Queue(Members(s.poppedExpiry)) && KeysOf(s.poppedExpiry) <= s.items.Keys
    requires RecencyList(s.p.items, s.p.lru) && Unscheduled(s.Current())
    requires ReverseIndex(s.p.items, s.p.variantMappings) && NoEmptySets(s.p.variantMappings)
    modifies s.p`items, s.p`lru, s.p`variantMappings, s.p.expirations, s.p.expirations.Elements()
    ensures s.p.Queue({}) && RecencyList(s.p.items, s.p.lru)
    ensures ReverseIndex(s.p.items, s.p.variantMappings) && NoEmptySets(s.p.variantMappings)
    ensures Installed(old(s.p.items), s.items, s.items.Keys, s.p.items)
    ensures s.p.lru == DropKeys(old(s.p.lru), s.items.Keys) + moved && StagedBodies(s.items, s.items.Keys, moved)
    ensures fresh(s.p.expirations.Elements() - old(s.p.expirations.Elements()))
  {
    hide ReverseIndex, RecencyList, Tracks, Installed, View, EntriesIn, StagedBodies, DropKeys, KeyEntries;
    var p := s.p;
    NothingInstalled(p.items, s.items);
    StagedUnscheduled(s);
    ghost var popped, base := Members(s.poppedExpiry), p.items;
    var todo := s.items.Keys;
    ghost var done := {};
    moved := [];
    DropNone(p.lru);
    EntriesBegin(s.poppedExpiry, todo);
    NothingMoved(s.items);
    while todo != {}
      invariant done + todo == s.items.Keys && done !! todo
      invariant p.Queue(EntriesIn(popped, todo)) && RecencyList(p.items, p.lru)
      invariant ReverseIndex(p.items, p.variantMappings) && NoEmptySets(p.variantMappings)
      invariant fresh(p.expirations.Elements() - old(p.expirations.Elements()))
      invariant Installed(base, s.items, done, p.items)
      invariant p.lru == DropKeys(old(p.lru), done) + moved && StagedBodies(s.items, done, moved)
    {
      var key :| key in todo;
      ghost var rest := EntriesIn(popped, todo);
      MovedStep(s.items, done, moved, key);
      WithoutDropped(old(p.lru), done, moved, key);
      ghost var items := p.items;
      p.ApplyItem(key, s.items[key], rest);
      InstallStep(base, s.items, done, items, p.items, key);
      EntriesStep(popped, todo, key);
      todo, done := todo - {key}, done + {key};
      moved := moved + MovedLast(s.items[key], key);
    }
    NoEntries(popped);
    assert done == s.items.Keys;
  }

  method ApplyGroups(s: BatchState)
    requires Inverse(s.p.groups, s.p.itemGroups) && NoEmptySets(s.p.groups) && NoEmptySets(s.p.itemGroups)
    modifies s.p`groups, s.p`itemGroups
    ensures Inverse(s.p.groups, s.p.itemGroups) && NoEmptySets(s.p.groups) && NoEmptySets(s.p.itemGroups)
    ensures forall g :: At(s.p.groups, g) == Through(old(s.p.groups), s.groups, g)
  {
    hide Inverse, NoEmptySets;
    var p := s.p;
    var todo := s.groups.Keys;
    while todo != {}
      invariant todo <= s.groups.Keys
      invariant Inverse(p.groups, p.itemGroups) && NoEmptySets(p.groups) && NoEmptySets(p.itemGroups)
      invariant forall g :: At(p.groups, g) ==
                              if g in todo then At(old(p.groups), g) else Through(old(p.groups), s.groups, g)
    {
      var g :| g in todo;
      p.ApplyGroup(g, s.groups[g]);
      todo := todo - {g};
    }
  }

  /** The installed items and groups show what the overlay showed. */
  lemma InstalledIsStaged(base: map<Key, Item>, staged: map<Key, Option<Item>>, items: map<Key, Item>,
                          bg: map<Group, set<Key>>, sg: map<Group, set<Key>>, groups: map<Group, set<Key>>,
                          bi: map<Key, set<Group>>, si: map<Key, set<Group>>, itemGroups: map<Key, set<Group>>)
    requires Installed(base, staged, staged.Keys, items)
    requires GroupLinks(bg, sg, bi, si) && Inverse(groups, itemGroups)
    requires forall g :: At(groups, g) == Through(bg, sg, g)
    ensures Abstract(items, itemGroups) == Entries(View(base, staged), bi, si)
    ensures forall k :: At(itemGroups, k) == Through(bi, si, k)
    ensures Mirrors(items, View(base, staged))
  {
    forall k ensures At(itemGroups, k) == Through(bi, si, k) {
      forall g ensures g in At(itemGroups, k) <==> g in Through(bi, si, k) {
        assert k in At(groups, g) <==> g in At(itemGroups, k);
        assert k in Through(bg, sg, g) <==> g in Through(bi, si, k);
      }
    }
    forall k ensures SameItem(if k in View(base, staged) then Some(View(base, staged)[k]) else None,
                              if k in items then Some(items[k]) else None)
    {
      if k in staged {
        assert SameItem(staged[k], if k in items then Some(items[k]) else None);
      }
    }
    var l, r := Abstract(items, itemGroups), Entries(View(base, staged), bi, si);
    forall k ensures (k in l <==> k in r) && (k in l ==> l[k] == r[k]) {
      assert SameItem(if k in View(base, staged) then Some(View(base, staged)[k]) else None,
                      if k in items then Some(items[k]) else None);
    }
  }

  /** Memory shows, key by key, the records and generations of a view. */
  ghost predicate Mirrors(items: map<Key, Item>, view: map<Key, Item>)
  {
    forall k :: SameItem(if k in view then Some(view[k]) else None, if k in items then Some(items[k]) else None)
  }

  lemma DiskAfterApply(view: map<Key, Item>, items: map<Key, Item>, groups: map<Group, set<Key>>, disk: DiskIndex)
    requires Mirrors(items, view)
    requires forall k :: OnDisk(k, view, disk.items)
    requires forall g :: At(disk.groups, g) == At(groups, g)
    requires NoEmptySets(disk.groups)
    ensures DiskAgrees(items, groups, disk, {}, {})
  {
    forall k ensures OnDisk(k, items, disk.items) {
      assert OnDisk(k, view, disk.items);
      assert SameItem(if k in view then Some(view[k]) else None, if k in items then Some(items[k]) else None);
    }
  }

  /** Installs the staged items and groups in memory. */
  method ApplyMembers(s: BatchState) returns (ghost moved: seq<Key>)
    requires s.Linked() && s.p.InMemory()
    requires s.QueueSplit() && KeysOf(s.poppedExpiry) <= s.items.Keys
    modifies s.p`items, s.p`groups, s.p`itemGroups, s.p`variantMappings, s.p`lru
    modifies s.p.expirations, s.p.expirations.Elements()
    ensures s.p.Queue({}) && RecencyList(s.p.items, s.p.lru)
    ensures ReverseIndex(s.p.items, s.p.variantMappings) && NoEmptySets(s.p.variantMappings)
    ensures Inverse(s.p.groups, s.p.itemGroups) && NoEmptySets(s.p.groups) && NoEmptySets(s.p.itemGroups)
    ensures forall g :: At(s.p.groups, g) == Through(old(s.p.groups), s.groups, g)
    ensures s.p.itemGroups.Keys <= s.p.items.Keys && Unscheduled(s.p.items)
    ensures s.p.Cached() == old(s.Staged()) && Mirrors(s.p.items, old(s.Current()))
    ensures s.p.lru == DropKeys(old(s.p.lru), s.items.Keys) + moved && StagedBodies(s.items, s.items.Keys, moved)
    ensures fresh(s.p.expirations.Elements() - old(s.p.expirations.Elements()))
  {
    hide View, Entries, Through, WellFormed, GroupLinks, TaggedAreLive, MappingLinks, Installed, ReverseIndex;
    hide RecencyList;
    hide Total, DropKeys, StagedBodies, NoEmptySets, Inverse, Mirrors;
    var p := s.p;
    ghost var view := s.Current();
    moved := ApplyItems(s);
    ApplyGroups(s);
    InstalledIsStaged(old(p.items), s.items, p.items, old(p.groups), s.groups, p.groups,
                      old(p.itemGroups), s.itemGroups, p.itemGroups);
    TaggedAfterApply(view, old(p.itemGroups), s.itemGroups, p.items, p.itemGroups);
    forall k | k in p.items ensures p.items[k].record.expiresAt.None? ==> p.items[k].expiration == null {
      assert Queued(k, p.items[k], p.expirations.Elements());
    }
  }

  /** Installs a persisted overlay in memory. */
  method ApplyBatch(s: BatchState) returns (ghost moved: seq<Key>)
    requires s.Linked() && s.Balanced() && s.p.InMemory() && OverlayOnDisk(s)
    requires s.QueueSplit() && KeysOf(s.poppedExpiry) <= s.items.Keys
    modifies s.p`items, s.p`groups, s.p`itemGroups, s.p`variantMappings, s.p`lru, s.p`cacheUsed, s.p`physicalUsed
    modifies s.p`dirtyItems, s.p`dirtyGroups, s.p.expirations, s.p.expirations.Elements()
    ensures s.p.Indexed() && s.p.Queue({})
    ensures s.p.Cached() == old(s.Staged()) && Mirrors(s.p.items, old(s.Current()))
    ensures s.p.cacheUsed == s.used && s.p.physicalUsed == s.physical && s.p.dirtyItems == {} && s.p.dirtyGroups == {}
    ensures s.p.lru == DropKeys(old(s.p.lru), s.items.Keys) + moved && StagedBodies(s.items, s.items.Keys, moved)
    ensures fresh(s.p.expirations.Elements() - old(s.p.expirations.Elements()))
  {
    hide View, Entries, Through, WellFormed, GroupLinks, TaggedAreLive, MappingLinks, Installed, ReverseIndex;
    hide RecencyList;
    hide Total, DropKeys, StagedBodies, NoEmptySets, Inverse, Mirrors, Tracks, Unscheduled;
    var p := s.p;
    ghost var view := s.Current();
    moved := ApplyMembers(s);
    p.cacheUsed, p.physicalUsed := s.used, s.physical;
    p.dirtyItems, p.dirtyGroups := {}, {};
    DiskAfterApply(view, p.items, p.groups, p.disk);
  }

  lemma TaggedAfterApply(view: map<Key, Item>, bi: map<Key, set<Group>>, si: map<Key, set<Group>>,
                         items: map<Key, Item>, itemGroups: map<Key, set<Group>>)
    requires TaggedAreLive(view, bi, si) && Mirrors(items, view) && NoEmptySets(itemGroups)
    requires forall k :: At(itemGroups, k) == Through(bi, si, k)
    ensures itemGroups.Keys <= items.Keys
  {
    forall k | k in itemGroups ensures k in items {
      assert Through(bi, si, k) != {};
      assert SameItem(if k in view then Some(view[k]) else None, if k in items then Some(items[k]) else None);
    }
  }

  /** Which bodies on the recency list stay live. */
  lemma ListedBodies(s: BatchState)
    requires s.p.Indexed()
    ensures forall k :: k in s.p.lru ==>
              (k in Bodies(s.Staged()) <==>
                 (k in s.items ==> s.items[k].Some? && s.items[k].value.record.value.Body?))
  {
  }

  lemma RecentCommitted(lru: seq<Key>, staged: map<Key, Option<Item>>, live: set<Key>, moved: seq<Key>)
    requires StagedBodies(staged, staged.Keys, moved)
    requires forall k :: k in lru ==>
               (k in live <==> (k in staged ==> staged[k].Some? && staged[k].value.record.value.Body?))
    ensures DropKeys(lru, staged.Keys) + moved == Recent(lru, live, moved)
  {
    DropSame(lru, staged.Keys, set k | k in lru && (k !in live || k in moved));
  }

  /** Persists the overlay and, if that succeeds, installs it. */
  method Commit(s: BatchState, persistFails: bool) returns (ok: bool, ghost moved: seq<Key>)
    requires s.Linked() && s.Balanced() && s.p.Indexed()
    requires s.QueueSplit() && KeysOf(s.poppedExpiry) <= s.items.Keys
    modifies s.p`items, s.p`groups, s.p`itemGroups, s.p`variantMappings, s.p`lru, s.p`cacheUsed, s.p`physicalUsed
    modifies s.p`disk, s.p`dirtyItems, s.p`dirtyGroups, s.p.expirations, s.p.expirations.Elements()
    ensures ok <==> !persistFails
    ensures s.p.Indexed()
    ensures fresh(s.p.expirations.Elements() - old(s.p.expirations.Elements()))
    ensures ok ==>
              && s.p.Queue({}) && s.p.Cached() == old(s.Staged())
              && s.p.cacheUsed == s.used && s.p.physicalUsed == s.physical
              && s.p.dirtyItems == {} && s.p.dirtyGroups == {} && s.p.disk.used == s.used
              && s.p.lru == Recent(old(s.p.lru), Bodies(s.p.Cached()), moved)
              && StagedBodies(s.items, s.items.Keys, moved)
    ensures !ok ==>
              && s.p.Image() == old(s.p.Image()) && s.QueueSplit()
              && s.p.expirations.Elements() == old(s.p.expirations.Elements())
  {
    hide Provider.InMemory, BatchState.Linked, BatchState.Balanced, Provider.Cached, BatchState.Staged;
    hide HeapOrdered, Tracks, Mirrors, DiskAgrees, OverlayOnDisk, DropKeys, StagedBodies, Recent, Bodies;
    ghost var lru, c := s.p.lru, s.Staged();
    ListedBodies(s);
    ok := PersistBatch(s, persistFails);
    moved := [];
    if ok {
      moved := ApplyBatch(s);
      RecentCommitted(lru, s.items, Bodies(c), moved);
    }
  }
}
