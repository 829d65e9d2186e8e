/** The provider of one cache directory: the live items, their redundant indexes, the index
    database and the body files. */
module Index {
  import opened Common
  import opened CacheModel
  import opened ExpirationHeap

  /** A live item carries its record, a generation number and its place in the expiry queue. */
  datatype Item = Item(record: Record, generation: nat, expiration: ExpirationEntry?)

  /** The part of a record that the index database stores. */
  datatype DiskRecord = DiskRecord(value: Value, expiresAt: Option<int>, lastAccess: int,
                                   compressedSize: nat, checksum: Digest)

  datatype DiskIndex = DiskIndex(items: map<Key, DiskRecord>, groups: map<Group, set<Key>>, used: nat)

  /** A body file, identified by its length and the checksum of its bytes. */
  datatype Blob = Blob(size: nat, checksum: Digest)

  function ToDisk(r: Record): DiskRecord
  {
    DiskRecord(r.value, r.expiresAt, r.lastAccess, r.compressedSize, r.checksum)
  }

  /** A missing key of a set-valued Go map reads as the empty set. */
  function At(m: map<string, set<string>>, k: string): set<string>
  {
    if k in m then m[k] else {}
  }

  predicate ListsVariant(item: Item, v: Key)
  {
    item.record.value.Mapping? && v in item.record.value.entries
  }

  /** Groups and item groups are the same relation read from either side. */
  ghost predicate Inverse(groups: map<Group, set<Key>>, itemGroups: map<Key, set<Group>>)
  {
    forall g, k :: k in At(groups, g) <==> g in At(itemGroups, k)
  }

  ghost predicate NoEmptySets(m: map<string, set<string>>)
  {
    forall k :: k in m ==> m[k] != {}
  }

  /** variantMappings is the exact inverse of the contents of the mapping records. */
  ghost predicate ReverseIndex(items: map<Key, Item>, variantMappings: map<Key, set<Key>>)
  {
    forall v, m :: m in At(variantMappings, v) <==> m in items && ListsVariant(items[m], v)
  }

  /** The recency list holds every live body once and nothing else. */
  ghost predicate RecencyList(items: map<Key, Item>, lru: seq<Key>)
  {
    Distinct(lru) && forall k :: k in lru <==> k in items && items[k].record.value.Body?
  }

  lemma RecencyWith(items: map<Key, Item>, lru: seq<Key>, key: Key, item: Item)
    requires RecencyList(items, lru) && key !in items
    ensures RecencyList(items[key := item], lru + (if item.record.value.Body? then [key] else []))
  {
  }

  /** The queued entries are exactly those of the expiring items, each with the expiry time and
      the generation of its item. */
  ghost predicate Tracks(items: map<Key, Item>, queued: set<ExpirationEntry>)
  {
    && (forall e :: e in queued ==> e.key in items && items[e.key].expiration == e)
    && (forall k :: k in items ==> Queued(k, items[k], queued))
  }

  ghost predicate Queued(key: Key, item: Item, queued: set<ExpirationEntry>)
  {
    match item.record.expiresAt
    case None => item.expiration == null
    case Some(t) =>
      var e := item.expiration;
      e != null && e in queued && e.key == key && e.at == t && e.generation == item.generation
  }

  /** An item without an expiry time has no queue entry. */
  ghost predicate Unscheduled(items: map<Key, Item>)
  {
    forall k :: k in items && items[k].record.expiresAt.None? ==> items[k].expiration == null
  }

  ghost function Scheduled(item: Item): set<ExpirationEntry>
  {
    if item.expiration == null then {} else {item.expiration}
  }

  ghost function KeyEntries(queued: set<ExpirationEntry>, key: Key): set<ExpirationEntry>
  {
    set e | e in queued && e.key == key
  }

  /** Without the entries of its key, the queue tracks the items without that key. */
  lemma TracksWithout(items: map<Key, Item>, queued: set<ExpirationEntry>, key: Key)
    requires Tracks(items, queued)
    ensures Tracks(items - {key}, queued - KeyEntries(queued, key))
    ensures key in items ==> KeyEntries(queued, key) == Scheduled(items[key])
    ensures key !in items ==> KeyEntries(queued, key) == {}
  {
    var rest := queued - KeyEntries(queued, key);
    forall k | k in items ensures k != key ==> Queued(k, items[k], rest) {
      assert Queued(k, items[k], queued);
    }
  }

  lemma TracksWith(items: map<Key, Item>, queued: set<ExpirationEntry>, key: Key, item: Item)
    requires Tracks(items, queued) && key !in items
    requires Queued(key, item, Scheduled(item))
    ensures Tracks(items[key := item], queued + Scheduled(item))
  {
    forall k | k in items ensures Queued(k, items[k], queued + Scheduled(item)) {
      assert Queued(k, items[k], queued);
    }
  }

  /** Outside the dirty sets the database says what memory says. */
  ghost predicate DiskAgrees(items: map<Key, Item>, groups: map<Group, set<Key>>, disk: DiskIndex, dirtyItems: set<Key>,
                             dirtyGroups: set<Group>)
  {
    && (forall k :: k !in dirtyItems ==> OnDisk(k, items, disk.items))
    && (forall g :: g !in dirtyGroups ==> At(disk.groups, g) == At(groups, g))
    && NoEmptySets(disk.groups)
  }

  /** The database has what a restart needs to rebuild the record of a live item, and no other key. */
  ghost predicate OnDisk(k: Key, items: map<Key, Item>, stored: map<Key, DiskRecord>)
  {
    if k !in items then k !in stored
    else
      var r := items[k].record;
      && k in stored && stored[k].value == r.value && stored[k].expiresAt == r.expiresAt
      && stored[k].lastAccess == r.lastAccess
      && (r.value.Body? ==> stored[k].compressedSize == r.compressedSize && stored[k].checksum == r.checksum)
  }

  /** The body files are exactly those the live bodies name, apart from the orphans, and every
      file has the contents that its name records. */
  ghost predicate FilesMatch(c: Cache, files: map<Path, Blob>, orphans: set<Path>)
  {
    forall f :: (f in files <==> Names(c, f) || f in orphans) && (f in files ==> files[f] == Contents(f))
  }

  predicate Names(c: Cache, f: Path)
  {
    f.key in c && c[f.key].record.value == Body(f)
  }

  function Contents(f: Path): Blob
  {
    Blob(LengthOf(f.checksum), f.checksum)
  }

  /** Deleting the files of the purged bodies leaves exactly the files of the others. */
  lemma FilesAfterPurge(c: Cache, d: set<Key>, files: map<Path, Blob>, orphans: set<Path>)
    requires WellFormed(c) && FilesMatch(c, files, orphans)
    ensures FilesMatch(Purged(c, d), files - PathsOf(c, d), orphans - PathsOf(c, d))
  {
    forall f ensures Names(Purged(c, d), f) <==> Names(c, f) && f !in PathsOf(c, d) {
      NamesAfterPurge(c, d, f);
    }
  }

  lemma NamesAfterPurge(c: Cache, d: set<Key>, f: Path)
    requires WellFormed(c)
    ensures Names(Purged(c, d), f) <==> Names(c, f) && f !in PathsOf(c, d)
    ensures f in PathsOf(c, d) <==> Names(c, f) && f.key in d
  {
    if f in PathsOf(c, d) {
      var k :| k in c && k in d && IsBody(c[k]) && c[k].record.value.path == f;
      assert WellFormedRecord(k, c[k].record);
    }
  }

  /** Items and tags together, without generations and queue entries. */
  ghost function Abstract(items: map<Key, Item>, itemGroups: map<Key, set<Group>>): Cache
  {
    map k | k in items :: Entry(items[k].record, At(itemGroups, k))
  }

  /** The recency list without one key. */
  function Without(s: seq<Key>, key: Key): seq<Key>
  {
    if s == [] then []
    else if s[0] == key then Without(s[1..], key)
    else [s[0]] + Without(s[1..], key)
  }

  lemma {:induction false} WithoutMembers(s: seq<Key>, key: Key)
    ensures forall k :: k in Without(s, key) <==> k in s && k != key
    ensures Distinct(s) ==> Distinct(Without(s, key))
  {
    if s != [] {
      WithoutMembers(s[1..], key);
      assert s == [s[0]] + s[1..];
      assert Distinct(s) ==> Distinct(s[1..]) && s[0] !in s[1..];
    }
  }

  /** The recency list without a set of keys. */
  ghost function DropKeys(s: seq<Key>, ks: set<Key>): seq<Key>
  {
    if s == [] then []
    else if s[0] in ks then DropKeys(s[1..], ks)
    else [s[0]] + DropKeys(s[1..], ks)
  }

  /** The recency list after a change: what is still live keeps its order, and what was written,
      renewed or hit is behind it. */
  ghost function Recent(lru: seq<Key>, live: set<Key>, moved: seq<Key>): seq<Key>
  {
    DropKeys(lru, set k | k in lru && (k !in live || k in moved)) + moved
  }

  lemma {:induction false} DropSame(s: seq<Key>, ks: set<Key>, ls: set<Key>)
    requires forall k :: k in s ==> (k in ks <==> k in ls)
    ensures DropKeys(s, ks) == DropKeys(s, ls)
  {
    if s != [] {
      assert s[0] in s && forall k :: k in s[1..] ==> k in s;
      DropSame(s[1..], ks, ls);
    }
  }

  lemma {:induction false} DropEvery(s: seq<Key>, ks: set<Key>)
    requires forall k :: k in s ==> k in ks
    ensures DropKeys(s, ks) == []
  {
    if s != [] {
      assert forall k :: k in s[1..] ==> k in s;
      DropEvery(s[1..], ks);
    }
  }

  lemma RecentSame(items: map<Key, Item>, itemGroups: map<Key, set<Group>>, lru: seq<Key>)
    requires RecencyList(items, lru)
    ensures Recent(lru, Bodies(Abstract(items, itemGroups)), []) == lru
  {
    DropSame(lru, set k | k in lru && (k !in Bodies(Abstract(items, itemGroups)) || k in []), {});
    DropNone(lru);
  }

  lemma {:induction false} DropNone(s: seq<Key>)
    ensures DropKeys(s, {}) == s
  {
    if s != [] {
      DropNone(s[1..]);
    }
  }

  lemma {:induction false} WithoutDropped(s: seq<Key>, ks: set<Key>, t: seq<Key>, key: Key)
    requires key !in t
    ensures Without(DropKeys(s, ks) + t, key) == DropKeys(s, ks + {key}) + t
  {
    if s == [] {
      WithoutAbsent(t, key);
      assert DropKeys(s, ks) + t == t && DropKeys(s, ks + {key}) + t == t;
    } else {
      WithoutDropped(s[1..], ks, t, key);
      var d := DropKeys(s, ks) + t;
      if s[0] in ks {
      } else {
        assert d[1..] == DropKeys(s[1..], ks) + t;
      }
    }
  }

  lemma {:induction false} WithoutAbsent(s: seq<Key>, key: Key)
    ensures key !in s ==> Without(s, key) == s
  {
    if s != [] {
      WithoutAbsent(s[1..], key);
      assert s == [s[0]] + s[1..];
    }
  }

  /** A set-valued map with one member taken out of the set of k; empty sets are not kept. */
  function Minus(m: map<string, set<string>>, k: string, member: string): (r: map<string, set<string>>)
    ensures At(r, k) == At(m, k) - {member}
    ensures forall x :: x != k ==> At(r, x) == At(m, x)
    ensures NoEmptySets(m) ==> NoEmptySets(r)
  {
    if At(m, k) <= {member} then m - {k} else m[k := m[k] - {member}]
  }

  function Assign(m: map<string, set<string>>, k: string, members: set<string>): (r: map<string, set<string>>)
    ensures At(r, k) == members
    ensures forall x :: x != k ==> At(r, x) == At(m, x)
    ensures NoEmptySets(m) ==> NoEmptySets(r)
  {
    if members == {} then m - {k} else m[k := members]
  }

  function Plus(m: map<string, set<string>>, k: string, member: string): (r: map<string, set<string>>)
    ensures At(r, k) == At(m, k) + {member}
    ensures forall x :: x != k ==> At(r, x) == At(m, x)
    ensures NoEmptySets(m) ==> NoEmptySets(r)
  {
    m[k := At(m, k) + {member}]
  }

  function Variants(item: Item): set<Key>
  {
    if item.record.value.Mapping? then item.record.value.entries.Keys else {}
  }

  /** Taking the old variants of a record out of the reverse index and the new ones in keeps it exact. */
  lemma ReverseIndexStage(items: map<Key, Item>, items': map<Key, Item>, vm: map<Key, set<Key>>,
                          vm': map<Key, set<Key>>, key: Key)
    requires ReverseIndex(items, vm)
    requires SameElsewhere(items, items', key)
    requires forall v :: At(vm', v) == At(vm, v) - (if key in items && v in Variants(items[key]) then {key} else {})
                                       + (if key in items' && v in Variants(items'[key]) then {key} else {})
    ensures ReverseIndex(items', vm')
  {
    forall v, m ensures m in At(vm', v) <==> m in items' && ListsVariant(items'[m], v) {
      assert m in At(vm, v) <==> m in items && ListsVariant(items[m], v);
      if m == key {} else {}
    }
  }

  ghost predicate SameElsewhere(items: map<Key, Item>, items': map<Key, Item>, key: Key)
  {
    forall k :: k != key ==> (k in items <==> k in items') && (k in items ==> items'[k] == items[k])
  }

  /** The same record and generation; the queue entry may differ. */
  ghost predicate SameItem(a: Option<Item>, b: Option<Item>)
  {
    (a.Some? <==> b.Some?) && (a.Some? ==> a.value.record == b.value.record && a.value.generation == b.value.generation)
  }

  /** Everything a provider holds except the expiry queue and the version counter. */
  datatype Snapshot = Snapshot(items: map<Key, Item>, groups: map<Group, set<Key>>, variantMappings: map<Key, set<Key>>,
                         itemGroups: map<Key, set<Group>>, lru: seq<Key>, dirtyItems: set<Key>, dirtyGroups: set<Group>,
                         cacheUsed: nat, physicalUsed: nat, disk: DiskIndex, files: map<Path, Blob>, orphans: set<Path>)

  class Provider {
    const expirations: Heap
    const bodyPathLength: nat
    const stale: nat
    var items: map<Key, Item>
    var groups: map<Group, set<Key>>
    var variantMappings: map<Key, set<Key>>
    var itemGroups: map<Key, set<Group>>
    var lru: seq<Key>
    var dirtyItems: set<Key>
    var dirtyGroups: set<Group>
    var cacheUsed: nat
    var physicalUsed: nat
    var nextVersion: nat
    var disk: DiskIndex
    var files: map<Path, Blob>
    /** Files that no item names: left behind when an install fails between rename and stat. */
    ghost var orphans: set<Path>

    ghost function Image(): Snapshot
      reads this
    {
      Snapshot(items, groups, variantMappings, itemGroups, lru, dirtyItems, dirtyGroups,
                  cacheUsed, physicalUsed, disk, files, orphans)
    }

    ghost function Cached(): Cache
      reads this`items, this`itemGroups
    {
      Abstract(items, itemGroups)
    }

    /** The structures in memory, apart from the expiry queue. */
    ghost predicate InMemory()
      reads this`items, this`itemGroups, this`groups, this`variantMappings, this`lru, this`physicalUsed, this`cacheUsed
    {
      && WellFormed(Cached())
      && Inverse(groups, itemGroups) && NoEmptySets(groups) && NoEmptySets(itemGroups)
      && itemGroups.Keys <= items.Keys
      && ReverseIndex(items, variantMappings) && NoEmptySets(variantMappings)
      && RecencyList(items, lru) && Unscheduled(items)
      && physicalUsed == PhysicalTotal(Cached())
      && cacheUsed <= AccountedTotal(Cached())
    }

    ghost predicate Indexed()
      reads this`items, this`itemGroups, this`groups, this`variantMappings, this`lru, this`physicalUsed
      reads this`cacheUsed, this`disk, this`dirtyItems, this`dirtyGroups
    {
      InMemory() && DiskAgrees(items, groups, disk, dirtyItems, dirtyGroups)
    }

    ghost predicate Valid()
      reads this`items, this`itemGroups, this`groups, this`variantMappings, this`lru, this`physicalUsed
      reads this`cacheUsed, this`disk, this`dirtyItems, this`dirtyGroups, this`files, this`orphans, expirations
      reads expirations.entries
    {
      && Indexed()
      && FilesMatch(Cached(), files, orphans)
      && expirations.Valid()
      && Tracks(items, expirations.Elements())
    }

    /** How far the accounted use is below the sum it stands for. */
    ghost function Shortage(): int
      reads this`items, this`itemGroups, this`cacheUsed
    {
      AccountedTotal(Cached()) - cacheUsed
    }

    /** Accounting is exact until a mapping record is deleted by its own key. */
    ghost predicate Exact()
      reads this`items, this`itemGroups, this`cacheUsed
    {
      cacheUsed == AccountedTotal(Cached())
    }

    constructor (bodyPathLength: nat, stale: nat)
      ensures Valid() && Exact() && items == map[] && files == map[] && orphans == {}
      ensures this.bodyPathLength == bodyPathLength && this.stale == stale
    {
      expirations := new Heap();
      this.bodyPathLength, this.stale := bodyPathLength, stale;
      items, groups, variantMappings, itemGroups, lru := map[], map[], map[], map[], [];
      dirtyItems, dirtyGroups, cacheUsed, physicalUsed, nextVersion := {}, {}, 0, 0, 0;
      disk, files, orphans := DiskIndex(map[], map[], 0), map[], {};
    }

    method RemoveReverseMapping(key: Key, item: Item)
      modifies this`variantMappings
      ensures forall v :: At(variantMappings, v) ==
                          At(old(variantMappings), v) - (if v in Variants(item) then {key} else {})
      ensures NoEmptySets(old(variantMappings)) ==> NoEmptySets(variantMappings)
    {
      var todo := Variants(item);
      while todo != {}
        invariant todo <= Variants(item)
        invariant forall v :: At(variantMappings, v) ==
                              At(old(variantMappings), v) - (if v in Variants(item) - todo then {key} else {})
        invariant NoEmptySets(old(variantMappings)) ==> NoEmptySets(variantMappings)
      {
        var v :| v in todo;
        variantMappings := Minus(variantMappings, v, key);
        todo := todo - {v};
      }
    }

    method AddReverseMapping(key: Key, item: Item)
      modifies this`variantMappings
      ensures forall v :: At(variantMappings, v) ==
                          At(old(variantMappings), v) + (if v in Variants(item) then {key} else {})
      ensures NoEmptySets(old(variantMappings)) ==> NoEmptySets(variantMappings)
    {
      var todo := Variants(item);
      while todo != {}
        invariant todo <= Variants(item)
        invariant forall v :: At(variantMappings, v) ==
                              At(old(variantMappings), v) + (if v in Variants(item) - todo then {key} else {})
        invariant NoEmptySets(old(variantMappings)) ==> NoEmptySets(variantMappings)
      {
        var v :| v in todo;
        variantMappings := Plus(variantMappings, v, key);
        todo := todo - {v};
      }
    }

    /** The queue entries, with those in `popped` taken out for a sweep. */
    ghost predicate Queue(popped: set<ExpirationEntry>)
      reads this`items, expirations, expirations.entries, popped
    {
      && expirations.Valid() && expirations.Elements() !! popped
      && Tracks(items, expirations.Elements() + popped)
      && (forall e :: e in popped ==> e.index == -1)
    }

    /** Takes the item under `key` out of the recency list and the expiry queue. */
    method RemoveItemAccounting(key: Key, ghost popped: set<ExpirationEntry>)
      requires key in items && Queue(popped)
      modifies this`lru, expirations, expirations.Elements()
      ensures lru == Without(old(lru), key) || (lru == old(lru) && items[key].record.value.Mapping?)
      ensures expirations.Valid()
      ensures expirations.Elements() == old(expirations.Elements()) - Scheduled(items[key])
    {
      var item := items[key];
      if item.record.value.Body? {
        lru := Without(lru, key);
      }
      assert Queued(key, item, expirations.Elements() + popped);
      if item.expiration != null && item.expiration.index >= 0 {
        var _ := expirations.Remove(item.expiration.index);
      }
    }

    /** Forgets the item under `key`, if there is one, in memory. */
    method DropItem(key: Key, ghost popped: set<ExpirationEntry>)
      requires Queue(popped) && RecencyList(items, lru)
      requires ReverseIndex(items, variantMappings) && NoEmptySets(variantMappings)
      modifies this`items, this`lru, this`variantMappings, expirations, expirations.Elements()
      ensures Queue(popped - KeyEntries(popped, key)) && RecencyList(items, lru)
      ensures ReverseIndex(items, variantMappings) && NoEmptySets(variantMappings)
      ensures expirations.Elements() <= old(expirations.Elements())
      ensures items == old(items) - {key} && lru == Without(old(lru), key)
    {
      hide ReverseIndex;
      ghost var items0, vm0 := items, variantMappings;
      TracksWithout(items, expirations.Elements() + popped, key);
      WithoutAbsent(lru, key);
      WithoutMembers(lru, key);
      if key in items {
        RemoveReverseMapping(key, items[key]);
        RemoveItemAccounting(key, popped);
      }
      items := items - {key};
      ReverseIndexStage(items0, items, vm0, variantMappings, key);
      assert expirations.Elements() + (popped - KeyEntries(popped, key)) ==
             old(expirations.Elements()) + popped - KeyEntries(old(expirations.Elements()) + popped, key);
    }

    /** Queues a new entry for an item that expires. */
    method Schedule(key: Key, item: Item) returns (scheduled: Item)
      requires expirations.Valid() && (item.record.expiresAt.None? ==> item.expiration == null)
      modifies expirations, expirations.Elements()
      ensures expirations.Valid() && expirations.Elements() == old(expirations.Elements()) + Scheduled(scheduled)
      ensures fresh(Scheduled(scheduled)) && Queued(key, scheduled, Scheduled(scheduled))
      ensures scheduled.record == item.record && scheduled.generation == item.generation
    {
      scheduled := item;
      if item.record.expiresAt.Some? {
        var entry := new ExpirationEntry(item.record.expiresAt.value, key, item.generation);
        scheduled := item.(expiration := entry);
        expirations.Push(entry);
      }
    }

    /** Adds an item under a free key in memory. */
    method AddItem(key: Key, staged: Item, ghost popped: set<ExpirationEntry>)
      requires Queue(popped) && RecencyList(items, lru) && key !in items
      requires ReverseIndex(items, variantMappings) && NoEmptySets(variantMappings)
      requires staged.record.expiresAt.None? ==> staged.expiration == null
      modifies this`items, this`lru, this`variantMappings, expirations, expirations.Elements()
      ensures Queue(popped) && RecencyList(items, lru)
      ensures ReverseIndex(items, variantMappings) && NoEmptySets(variantMappings)
      ensures fresh(expirations.Elements() - old(expirations.Elements()))
      ensures key in items && items == old(items)[key := items[key]]
      ensures items[key].record == staged.record && items[key].generation == staged.generation
      ensures lru == old(lru) + (if staged.record.value.Body? then [key] else [])
    {
      hide ReverseIndex, RecencyList, Tracks;
      ghost var items0, vm0, queued := items, variantMappings, expirations.Elements() + popped;
      if staged.record.value.Body? {
        lru := lru + [key];
      }
      var item := Schedule(key, staged);
      assert lru == old(lru) + (if staged.record.value.Body? then [key] else []);
      RecencyWith(items, old(lru), key, item);
      TracksWith(items, queued, key, item);
      assert expirations.Elements() + popped == queued + Scheduled(item);
      items := items[key := item];
      AddReverseMapping(key, item);
      ReverseIndexStage(items0, items, vm0, variantMappings, key);
    }

    /** Installs one staged item, or with None its absence, in memory. */
    method ApplyItem(key: Key, staged: Option<Item>, ghost popped: set<ExpirationEntry>)
      requires Queue(popped) && RecencyList(items, lru)
      requires ReverseIndex(items, variantMappings) && NoEmptySets(variantMappings)
      requires staged.Some? && staged.value.record.expiresAt.None? ==> staged.value.expiration == null
      modifies this`items, this`lru, this`variantMappings, expirations, expirations.Elements()
      ensures Queue(popped - KeyEntries(popped, key)) && RecencyList(items, lru)
      ensures ReverseIndex(items, variantMappings) && NoEmptySets(variantMappings)
      ensures fresh(expirations.Elements() - old(expirations.Elements()))
      ensures SameElsewhere(old(items), items, key)
      ensures SameItem(staged, if key in items then Some(items[key]) else None)
      ensures lru == Without(old(lru), key) + (if staged.Some? && staged.value.record.value.Body? then [key] else [])
    {
      hide ReverseIndex, RecencyList, Tracks;
      DropItem(key, popped);
      if staged.Some? {
        AddItem(key, staged.value, popped - KeyEntries(popped, key));
      }
    }

    /** Takes the group out of the tags of each of its keys. */
    method UntagAll(group: Group, keys: set<Key>)
      requires NoEmptySets(itemGroups)
      modifies this`itemGroups
      ensures NoEmptySets(itemGroups)
      ensures forall k :: At(itemGroups, k) == At(old(itemGroups), k) - (if k in keys then {group} else {})
    {
      var todo := keys;
      while todo != {}
        invariant todo <= keys && NoEmptySets(itemGroups)
        invariant forall k :: At(itemGroups, k) == At(old(itemGroups), k) - (if k in keys - todo then {group} else {})
      {
        var k :| k in todo;
        itemGroups := Minus(itemGroups, k, group);
        todo := todo - {k};
      }
    }

    method TagAll(group: Group, keys: set<Key>)
      requires NoEmptySets(itemGroups)
      modifies this`itemGroups
      ensures NoEmptySets(itemGroups)
      ensures forall k :: At(itemGroups, k) == At(old(itemGroups), k) + (if k in keys then {group} else {})
    {
      var todo := keys;
      while todo != {}
        invariant todo <= keys && NoEmptySets(itemGroups)
        invariant forall k :: At(itemGroups, k) == At(old(itemGroups), k) + (if k in keys - todo then {group} else {})
      {
        var k :| k in todo;
        itemGroups := Plus(itemGroups, k, group);
        todo := todo - {k};
      }
    }

    /** Installs the staged members of one group in memory. */
    method ApplyGroup(group: Group, keys: set<Key>)
      requires Inverse(groups, itemGroups) && NoEmptySets(groups) && NoEmptySets(itemGroups)
      modifies this`groups, this`itemGroups
      ensures Inverse(groups, itemGroups) && NoEmptySets(groups) && NoEmptySets(itemGroups)
      ensures At(groups, group) == keys
      ensures forall g :: g != group ==> At(groups, g) == At(old(groups), g)
    {
      hide NoEmptySets;
      ghost var groups0, itemGroups0 := groups, itemGroups;
      UntagAll(group, At(groups, group));
      groups := Assign(groups, group, keys);
      TagAll(group, keys);
      forall g, k ensures k in At(groups, g) <==> g in At(itemGroups, k) {
        assert k in At(groups0, g) <==> g in At(itemGroups0, k);
        if g == group {} else {}
      }
    }
  }

  /** With no entry taken out for a sweep, the provider is valid as a whole. */
  lemma QueueDone(p: Provider)
    requires p.Indexed() && p.Queue({}) && FilesMatch(p.Cached(), p.files, p.orphans)
    ensures p.Valid()
  {
    assert p.expirations.Elements() + {} == p.expirations.Elements();
  }
}
