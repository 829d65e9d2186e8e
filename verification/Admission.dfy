/** Admitting one write: what it needs, what it evicts, and what the cache looks like after. */
module Admission {
  import opened Common
  import opened CacheModel

  datatype PendingWrite = PendingWrite(
    baseKey: string, variedKey: Key, compressedSize: nat, physicalSize: nat, checksum: Digest,
    groups: seq<Group>, duration: int, json: string, now: int)

  datatype WriteResult = Stored | MapError | NoCapacity | IoError

  datatype Limits = Limits(auto: bool, maxBytes: nat, maxDiskUsagePercent: int)
  datatype DiskUsage = DiskUsage(total: nat, used: nat)
  datatype Budget = Budget(accountedAvailable: nat, physicalAvailable: nat)

  // JSON can carry the years 0 to 9999; bounds in nanoseconds since 1970.
  const FIRST_JSON_TIME: int := -62167219200_000_000_000
  const LAST_JSON_TIME: int := 253402300800_000_000_000

  function NormalizePercent(value: int): nat
  {
    if value < 1 then 80 else if value > 90 then 90 else value
  }

  function PercentOf(total: nat, percent: nat): nat { total * percent / 100 }

  /** What the configured limits and the measured disk usage leave for the cache. */
  function CapacityAvailable(limits: Limits, transient: nat, usage: DiskUsage, physicalUsed: nat): Budget
  {
    var target := PercentOf(usage.total, NormalizePercent(limits.maxDiskUsagePercent));
    var nonCacheUsed := Less(usage.used, physicalUsed + transient);
    Budget(if !limits.auto && limits.maxBytes > 0 then limits.maxBytes else MAX_UINT64, Less(target, nonCacheUsed))
  }

  /** A byte limit counts only when it is set and sizing is not automatic. */
  lemma ByteLimit(limits: Limits, transient: nat, usage: DiskUsage, physicalUsed: nat)
    ensures var available := CapacityAvailable(limits, transient, usage, physicalUsed).accountedAvailable;
            && (!limits.auto && limits.maxBytes > 0 ==> available == limits.maxBytes)
            && (limits.auto || limits.maxBytes == 0 ==> available == 0xFFFF_FFFF_FFFF_FFFF)
  {
    hide PercentOf;
  }

  /** On the disk the cache may use what keeps all use, its own and that of others, within the permitted
      percentage: 80 when none is given and never more than 90. What the cache and the new files hold
      already is not use of others. */
  lemma DiskShare(limits: Limits, transient: nat, usage: DiskUsage, physicalUsed: nat, need: nat)
    ensures var available := CapacityAvailable(limits, transient, usage, physicalUsed).physicalAvailable;
            var percent := if limits.maxDiskUsagePercent < 1 then 80
                           else if limits.maxDiskUsagePercent > 90 then 90 else limits.maxDiskUsagePercent;
            need <= available <==>
              || need == 0
              || (&& 100 * need <= usage.total * percent
                  && 100 * (need + usage.used - physicalUsed - transient) <= usage.total * percent)
  {
    var all := usage.total * NormalizePercent(limits.maxDiskUsagePercent);
    assert 100 * (all / 100) <= all < 100 * (all / 100) + 100;
  }

  /** When others use the permitted percentage or more, nothing fits but what has no blocks: that, and
      only that, is stored on a disk that is too full. */
  lemma FullDisk(limits: Limits, transient: nat, usage: DiskUsage, physicalUsed: nat, need: nat)
    requires var percent := if limits.maxDiskUsagePercent < 1 then 80
                            else if limits.maxDiskUsagePercent > 90 then 90 else limits.maxDiskUsagePercent;
             100 * (usage.used - physicalUsed - transient) >= usage.total * percent
    ensures need <= CapacityAvailable(limits, transient, usage, physicalUsed).physicalAvailable <==> need == 0
  {
    hide CapacityAvailable;
    DiskShare(limits, transient, usage, physicalUsed, need);
  }

  predicate WellFormedWrite(w: PendingWrite)
  {
    !IsMappingKey(w.variedKey) && w.compressedSize == LengthOf(w.checksum)
  }

  function FinalPath(w: PendingWrite): Path { BodyFile(w.variedKey, w.checksum) }

  function IndexEntry(w: PendingWrite, stale: nat): KeyIndex
  {
    KeyIndex(w.now, w.now + w.duration, w.now + w.duration + stale, w.json)
  }

  predicate JsonTime(t: int) { FIRST_JSON_TIME <= t < LAST_JSON_TIME }

  predicate InJsonRange(i: KeyIndex)
  {
    JsonTime(i.storedAt) && JsonTime(i.freshUntil) && JsonTime(i.staleUntil)
  }

  /** The days from the first day of the year 0 to the first day of a year. */
  function DaysBefore(year: nat): nat { 365 * year + (year + 3) / 4 - (year + 99) / 100 + (year + 399) / 400 }

  /** The times that can be encoded are those of the years 0 to 9999. */
  lemma JsonYears(t: int)
    ensures var day := 86_400_000_000_000;
            JsonTime(t) <==> 0 <= t + DaysBefore(1970) * day < DaysBefore(10000) * day
  {
  }

  predicate Encodable(entries: map<Key, KeyIndex>)
  {
    forall v | v in entries :: InJsonRange(entries[v])
  }

  function ListedIn(c: Cache, mappingKey: Key): map<Key, KeyIndex>
  {
    if mappingKey in c && c[mappingKey].record.value.Mapping? then c[mappingKey].record.value.entries else map[]
  }

  /** The updated variant list. It is computed before the evictions, so it still lists a sibling
      variant that the same write evicts. */
  function Updated(c: Cache, w: PendingWrite, stale: nat): map<Key, KeyIndex>
  {
    ListedIn(c, MappingKey(w.baseKey))[w.variedKey := IndexEntry(w, stale)]
  }

  function BodyRecord(w: PendingWrite, stale: nat, pathLength: nat): Record
  {
    Record(Body(FinalPath(w)), Some(w.now + w.duration + stale), w.now, w.compressedSize, w.physicalSize,
           BodySize(w.variedKey, pathLength, w.physicalSize), w.checksum)
  }

  ghost function MappingRecord(c: Cache, w: PendingWrite, stale: nat): Record
  {
    var entries := Updated(c, w, stale);
    Record(Mapping(entries), Some(w.now + w.duration + stale), w.now, 0, 0,
           MappingSize(MappingKey(w.baseKey), entries), "")
  }

  function TagsOf(w: PendingWrite): set<Group> { set g | g in w.groups }

  /** A point in the processing of a batch. */
  datatype Stage = Stage(cache: Cache, used: nat, physical: nat, accepted: set<Key>)

  ghost function AccountedNeed(a: Stage, w: PendingWrite, stale: nat, pathLength: nat): nat
  {
    Less(Less(a.used, AccountedIn(a.cache, w.variedKey)), AccountedIn(a.cache, MappingKey(w.baseKey))) +
    BodyRecord(w, stale, pathLength).accountedSize + MappingRecord(a.cache, w, stale).accountedSize
  }

  ghost function PhysicalIn(c: Cache, k: Key): nat { if k in c then Physical(k, c[k]) else 0 }

  ghost function PhysicalNeed(a: Stage, w: PendingWrite): nat
  {
    Less(a.physical, PhysicalIn(a.cache, w.variedKey)) + w.physicalSize
  }

  /** The cache after the write: the evicted bodies are purged, then body and mapping are stored. */
  ghost function AfterWrite(c: Cache, w: PendingWrite, stale: nat, pathLength: nat, evicted: set<Key>): Cache
  {
    var q := Purged(c, evicted);
    var m := MappingKey(w.baseKey);
    var tags := if m in q then q[m].tags else {};
    q[w.variedKey := Entry(BodyRecord(w, stale, pathLength), TagsOf(w))]
     [m := Entry(MappingRecord(c, w, stale), tags + TagsOf(w))]
  }

  /** The write fits under the budget at all. */
  ghost predicate FitsAlone(a: Stage, w: PendingWrite, stale: nat, pathLength: nat, budget: Budget)
  {
    && BodyRecord(w, stale, pathLength).accountedSize + MappingRecord(a.cache, w, stale).accountedSize
       <= budget.accountedAvailable
    && w.physicalSize <= budget.physicalAvailable
  }

  /** The counters of a stage stand for its cache: physical use is exact, accounted use not too high. */
  ghost predicate Counted(a: Stage)
  {
    a.physical == PhysicalTotal(a.cache) && a.used <= AccountedTotal(a.cache)
  }

  /** How far the accounted use of a stage is below the sum it stands for. */
  ghost function ShortageOf(a: Stage): int { AccountedTotal(a.cache) - a.used }

  /** Counters that stand for their cache still do, and the account does not fall further behind. */
  ghost predicate Carries(a: Stage, b: Stage)
  {
    Counted(a) ==> Counted(b) && ShortageOf(b) <= ShortageOf(a)
  }

  /** What processing one write does: a rejected write changes nothing; an accepted one evicts
      the shortest run of least recently used bodies, none of them accepted earlier in the
      batch, that makes room under both budgets. */
  ghost predicate Admits(a: Stage, b: Stage, w: PendingWrite, r: WriteResult, evicted: seq<Key>, lru: seq<Key>,
                         stale: nat, pathLength: nat, budget: Budget)
  {
    var all := Evictable(lru, a.cache, a.accepted + {w.variedKey});
    var accounted := Less(AccountedNeed(a, w, stale, pathLength), budget.accountedAvailable);
    var physical := Less(PhysicalNeed(a, w), budget.physicalAvailable);
    match r
    case Stored =>
      && Encodable(Updated(a.cache, w, stale)) && FitsAlone(a, w, stale, pathLength, budget)
      && ShortestFreeing(a.cache, all, evicted, accounted, physical)
      && b.cache == AfterWrite(a.cache, w, stale, pathLength, KeySet(evicted))
      && b.accepted == a.accepted + {w.variedKey} && Carries(a, b)
    case MapError =>
      !Encodable(Updated(a.cache, w, stale)) && b == a && evicted == []
    case NoCapacity =>
      && Encodable(Updated(a.cache, w, stale)) && b == a && evicted == []
      && (FitsAlone(a, w, stale, pathLength, budget) ==> NeverFrees(a.cache, all, accounted, physical))
    case IoError => false
  }

  /** What a write would evict, computed before it is processed. */
  ghost function VictimsOf(a: Stage, w: PendingWrite, lru: seq<Key>, stale: nat, pathLength: nat,
                           budget: Budget): seq<Key>
  {
    Victims(a.cache, Evictable(lru, a.cache, a.accepted + {w.variedKey}),
            Less(AccountedNeed(a, w, stale, pathLength), budget.accountedAvailable),
            Less(PhysicalNeed(a, w), budget.physicalAvailable), 0)
  }

  /** Whether a write is accepted, what it evicts and what it leaves are determined by the state
      before it, the counters included while they are exact; a write that is not accepted evicts
      nothing. */
  lemma AdmitsUnique(a: Stage, b: Stage, w: PendingWrite, r: WriteResult, evicted: seq<Key>, b': Stage, r': WriteResult,
                     evicted': seq<Key>, lru: seq<Key>, stale: nat, pathLength: nat, budget: Budget)
    requires Admits(a, b, w, r, evicted, lru, stale, pathLength, budget)
    requires Admits(a, b', w, r', evicted', lru, stale, pathLength, budget)
    ensures r == r' && evicted == evicted' && b.cache == b'.cache && b.accepted == b'.accepted
    ensures Counted(a) ==> b.physical == b'.physical && (ShortageOf(a) == 0 ==> b == b' && ShortageOf(b) == 0)
    ensures evicted == if r.Stored? then VictimsOf(a, w, lru, stale, pathLength, budget) else []
  {
    hide AccountedNeed, PhysicalNeed, FitsAlone, Encodable, Updated, AfterWrite, Evictable, Frees, Total;
    var all := Evictable(lru, a.cache, a.accepted + {w.variedKey});
    var accounted := Less(AccountedNeed(a, w, stale, pathLength), budget.accountedAvailable);
    var physical := Less(PhysicalNeed(a, w), budget.physicalAvailable);
    if r.Stored? {
      VictimsAreShortest(a.cache, all, evicted, accounted, physical, 0);
      assert all[..|evicted|] == evicted;
    }
    if r'.Stored? {
      VictimsAreShortest(a.cache, all, evicted', accounted, physical, 0);
      assert all[..|evicted'|] == evicted';
    }
  }

  /** A write that needs no more than there is is stored, and evicts nothing. */
  lemma AmpleRoom(a: Stage, b: Stage, w: PendingWrite, r: WriteResult, evicted: seq<Key>, lru: seq<Key>, stale: nat,
                  pathLength: nat, budget: Budget)
    requires Admits(a, b, w, r, evicted, lru, stale, pathLength, budget) && Encodable(Updated(a.cache, w, stale))
    requires AccountedNeed(a, w, stale, pathLength) <= budget.accountedAvailable
    requires PhysicalNeed(a, w) <= budget.physicalAvailable
    ensures r == Stored && evicted == []
  {
    hide Encodable, Updated, AfterWrite, Evictable, Carries;
    var all := Evictable(lru, a.cache, a.accepted + {w.variedKey});
    assert all[..0] == [] && evicted[..0] == [];
    assert Frees(a.cache, [], 0, 0);
  }

  // ----- what a stored write leaves ---------------------------------------------------------

  /** The body of a stored write is that of the write, used just now, and is due exactly when its
      stale window has passed; it counts for its blocks, its key and path, and a fixed overhead. */
  lemma StoredBody(a: Stage, b: Stage, w: PendingWrite, evicted: seq<Key>, lru: seq<Key>, stale: nat, pathLength: nat,
                   budget: Budget)
    requires Admits(a, b, w, Stored, evicted, lru, stale, pathLength, budget) && WellFormedWrite(w)
    ensures w.variedKey in b.cache
    ensures var e := b.cache[w.variedKey];
            && e.record.value == Body(BodyFile(w.variedKey, w.checksum)) && e.record.checksum == w.checksum
            && e.record.compressedSize == w.compressedSize && e.record.physicalSize == w.physicalSize
            && e.record.accountedSize == 512 + |w.variedKey| + pathLength + w.physicalSize
            && e.record.lastAccess == w.now && forall g :: g in e.tags <==> g in w.groups
    ensures forall t :: w.variedKey in Due(b.cache, t) <==> t >= w.now + w.duration + stale
  {
    hide ShortestFreeing, Purged, Encodable, MappingRecord, Carries, FitsAlone;
  }

  /** The mapping of a stored write is due together with the body, and also has the tags it had. It
      lists the variant as fresh for its duration and as stale until the body is due; every other
      variant is listed as before. */
  lemma StoredMapping(a: Stage, b: Stage, w: PendingWrite, evicted: seq<Key>, lru: seq<Key>, stale: nat,
                      pathLength: nat, budget: Budget)
    requires Admits(a, b, w, Stored, evicted, lru, stale, pathLength, budget) && WellFormedWrite(w)
    requires WellFormed(a.cache)
    ensures var m := MAPPING_PREFIX + w.baseKey;
            && m in b.cache && b.cache[m].record.value.Mapping? && b.cache[m].record.lastAccess == w.now
            && var entries := b.cache[m].record.value.entries;
            && w.variedKey in entries && entries[w.variedKey].json == w.json
            && entries[w.variedKey].storedAt == w.now && entries[w.variedKey].freshUntil == w.now + w.duration
            && entries[w.variedKey].staleUntil == w.now + w.duration + stale
            && (forall v :: v != w.variedKey ==> (v in entries <==> m in a.cache && Lists(a.cache[m], v)))
            && (forall v :: v != w.variedKey && v in entries ==> entries[v] == a.cache[m].record.value.entries[v])
    ensures forall t :: MAPPING_PREFIX + w.baseKey in Due(b.cache, t) <==> t >= w.now + w.duration + stale
    ensures var m := MAPPING_PREFIX + w.baseKey;
            forall g :: g in b.cache[m].tags <==> g in w.groups || (m in Purged(a.cache, KeySet(evicted)) &&
                                                                   g in a.cache[m].tags)
  {
    hide ShortestFreeing, Encodable, Carries, FitsAlone, BodyRecord, WellFormed, MappingSize;
    KindOf(a.cache, MappingKey(w.baseKey));
  }

  /** Nothing else changes but what the evictions take with them. */
  lemma StoredRest(a: Stage, b: Stage, w: PendingWrite, evicted: seq<Key>, lru: seq<Key>, stale: nat, pathLength: nat,
                   budget: Budget, k: Key)
    requires Admits(a, b, w, Stored, evicted, lru, stale, pathLength, budget)
    requires k != w.variedKey && k != MAPPING_PREFIX + w.baseKey
    ensures k in b.cache <==> k in Purged(a.cache, KeySet(evicted))
    ensures k in b.cache ==> b.cache[k] == Purged(a.cache, KeySet(evicted))[k]
  {
    hide ShortestFreeing, Encodable, Carries, FitsAlone, BodyRecord, MappingRecord, Purged;
  }

  /** A write is refused for its mapping exactly when one of its three times or a listed entry falls
      outside the years 0 to 9999. */
  lemma RefusedForTimes(a: Stage, b: Stage, w: PendingWrite, r: WriteResult, evicted: seq<Key>, lru: seq<Key>,
                        stale: nat, pathLength: nat, budget: Budget)
    requires Admits(a, b, w, r, evicted, lru, stale, pathLength, budget)
    ensures var m := MAPPING_PREFIX + w.baseKey;
            r != MapError <==>
              && JsonTime(w.now) && JsonTime(w.now + w.duration) && JsonTime(w.now + w.duration + stale)
              && (m in a.cache && a.cache[m].record.value.Mapping? ==>
                    forall v :: v in a.cache[m].record.value.entries && v != w.variedKey ==>
                                InJsonRange(a.cache[m].record.value.entries[v]))
  {
    hide ShortestFreeing, Carries, FitsAlone, AfterWrite, NeverFrees;
    var listed, entries := ListedIn(a.cache, MappingKey(w.baseKey)), Updated(a.cache, w, stale);
    assert w.variedKey in entries && entries[w.variedKey] == IndexEntry(w, stale);
    assert forall v :: v in listed && v != w.variedKey ==> v in entries && entries[v] == listed[v];
  }

  // ----- the two budgets --------------------------------------------------------------------

  /** The candidates are distinct live bodies, none of them accepted before or being written. */
  lemma CandidateFacts(lru: seq<Key>, c: Cache, protected: set<Key>, ks: seq<Key>)
    requires Distinct(lru) && ks <= Evictable(lru, c, protected)
    ensures Distinct(ks) && KeySet(ks) <= Bodies(c) && KeySet(ks) !! protected
  {
    EvictableMembers(lru, c, protected);
    var all := Evictable(lru, c, protected);
    forall k | k in ks ensures k in all {
      var i :| 0 <= i < |ks| && ks[i] == k;
      assert all[i] == k;
    }
    forall i, j | 0 <= i < j < |ks| ensures ks[i] != ks[j] {
      assert all[i] == ks[i] && all[j] == ks[j];
    }
  }

  /** A total without some further keys, one of them possibly absent. */
  lemma TotalTake(c: Cache, k: Key, size: (Key, Entry) -> nat)
    ensures Total(c, size) == (if k in c then size(k, c[k]) else 0) + Total(c - {k}, size)
  {
    if k in c {
      TotalSplit(c, k, size);
    } else {
      assert c - {k} == c;
    }
  }

  lemma WriteTotal(q: Cache, v: Key, e: Entry, m: Key, f: Entry, size: (Key, Entry) -> nat)
    requires v != m
    ensures Total(q[v := e][m := f], size) == Total(q - {v, m}, size) + size(v, e) + size(m, f)
  {
    TotalUpdate(q[v := e], m, f, size);
    assert q[v := e] - {m} == (q - {m})[v := e];
    TotalUpdate(q - {m}, v, e, size);
    assert q - {m} - {v} == q - {v, m};
  }

  /** What is left of a total when distinct bodies and two further keys are taken out. */
  lemma TotalTakeAll(c: Cache, ks: seq<Key>, v: Key, m: Key, size: (Key, Entry) -> nat)
    requires Distinct(ks) && KeySet(ks) <= c.Keys && v !in ks && m !in ks && v != m
    ensures Total(c, size) == SumOf(c, ks, size) + (if v in c then size(v, c[v]) else 0) +
                              (if m in c then size(m, c[m]) else 0) + Total(c - KeySet(ks) - {v, m}, size)
  {
    forall k | k in ks ensures k in c {
      assert k in KeySet(ks);
    }
    SumIsTotal(c, ks, size);
    var d := KeySet(ks);
    TotalTake(c - d, v, size);
    TotalTake(c - d - {v}, m, size);
    assert c - d - {v} - {m} == c - d - {v, m};
  }

  /** An accepted write exceeds the accounted budget by no more than the account was behind: not at
      all when it was exact. */
  lemma AccountedBound(a: Stage, w: PendingWrite, ks: seq<Key>, stale: nat, pathLength: nat, budget: Budget)
    requires WellFormed(a.cache) && WellFormedWrite(w) && a.used <= AccountedTotal(a.cache)
    requires Distinct(ks) && KeySet(ks) <= Bodies(a.cache) && w.variedKey !in ks
    requires SumOf(a.cache, ks, Accounted) >= Less(AccountedNeed(a, w, stale, pathLength), budget.accountedAvailable)
    ensures AccountedTotal(AfterWrite(a.cache, w, stale, pathLength, KeySet(ks)))
         <= budget.accountedAvailable + ShortageOf(a)
  {
    hide Total, SumOf, Purged;
    var c, v, m, d := a.cache, w.variedKey, MappingKey(w.baseKey), KeySet(ks);
    KindOf(c, m);
    assert m !in d;
    TotalTakeAll(c, ks, v, m, Accounted);
    PurgedAccounted(c, d, {v, m});
    var q := Purged(c, d);
    WriteTotal(q, v, Entry(BodyRecord(w, stale, pathLength), TagsOf(w)),
               m, AfterWrite(c, w, stale, pathLength, d)[m], Accounted);
  }

  /** An accepted write ends within the physical budget. */
  lemma PhysicalBound(a: Stage, w: PendingWrite, ks: seq<Key>, stale: nat, pathLength: nat, budget: Budget)
    requires WellFormed(a.cache) && WellFormedWrite(w) && a.physical == PhysicalTotal(a.cache)
    requires Distinct(ks) && KeySet(ks) <= Bodies(a.cache) && w.variedKey !in ks
    requires SumOf(a.cache, ks, Physical) >= Less(PhysicalNeed(a, w), budget.physicalAvailable)
    ensures PhysicalTotal(AfterWrite(a.cache, w, stale, pathLength, KeySet(ks))) <= budget.physicalAvailable
  {
    hide Total, SumOf, Purged;
    var c, v, m, d := a.cache, w.variedKey, MappingKey(w.baseKey), KeySet(ks);
    KindOf(c, m);
    assert m !in d;
    TotalTakeAll(c, ks, v, m, Physical);
    PurgedPhysicalWithout(c, d, {v, m});
    var q := Purged(c, d);
    WriteTotal(q, v, Entry(BodyRecord(w, stale, pathLength), TagsOf(w)),
               m, AfterWrite(c, w, stale, pathLength, d)[m], Physical);
  }

  lemma PurgedPhysicalWithout(c: Cache, d: set<Key>, kept: set<Key>)
    requires WellFormed(c)
    ensures PhysicalTotal(Purged(c, d) - kept) == PhysicalTotal(c - d - kept)
  {
    TotalSkipsFree(Purged(c, d) - kept, c - d - kept, Physical);
  }

  /** What a total comes to when a write replaces two entries and nothing is evicted. */
  lemma UnevictedTotal(c: Cache, w: PendingWrite, stale: nat, pathLength: nat, size: (Key, Entry) -> nat)
    requires WellFormed(c) && WellFormedWrite(w)
    ensures var v, m, after := w.variedKey, MappingKey(w.baseKey), AfterWrite(c, w, stale, pathLength, {});
            && v in after && m in after
            && (if v in c then size(v, c[v]) else 0) + (if m in c then size(m, c[m]) else 0) <= Total(c, size)
            && Total(after, size) + (if v in c then size(v, c[v]) else 0) + (if m in c then size(m, c[m]) else 0)
               == Total(c, size) + size(v, after[v]) + size(m, after[m])
  {
    hide Total, Purged, MappingRecord, BodyRecord, WellFormed;
    var v, m := w.variedKey, MappingKey(w.baseKey);
    PurgedNothing(c);
    TotalTake(c, v, size);
    TotalTake(c - {v}, m, size);
    assert c - {v} - {m} == c - {v, m};
    WriteTotal(c, v, Entry(BodyRecord(w, stale, pathLength), TagsOf(w)), m, AfterWrite(c, w, stale, pathLength, {})[m],
               size);
  }

  /** The totals of the cache that a write leaves when nothing is evicted are what the write needs, the
      accounted one at least. */
  lemma UnevictedTotals(a: Stage, w: PendingWrite, stale: nat, pathLength: nat)
    requires WellFormed(a.cache) && WellFormedWrite(w) && Counted(a)
    ensures var c := AfterWrite(a.cache, w, stale, pathLength, {});
            AccountedNeed(a, w, stale, pathLength) <= AccountedTotal(c) && PhysicalNeed(a, w) == PhysicalTotal(c)
  {
    hide Total, Purged, MappingSize, Updated, WellFormed, TagsOf, AfterWrite;
    UnevictedTotal(a.cache, w, stale, pathLength, Accounted);
    UnevictedTotal(a.cache, w, stale, pathLength, Physical);
    WrittenRecords(a.cache, w, stale, pathLength);
    NoBlocksIn(a.cache, MappingKey(w.baseKey));
  }

  lemma WrittenRecords(c: Cache, w: PendingWrite, stale: nat, pathLength: nat)
    requires WellFormedWrite(w)
    ensures var after := AfterWrite(c, w, stale, pathLength, {});
            && w.variedKey in after && after[w.variedKey].record == BodyRecord(w, stale, pathLength)
            && MappingKey(w.baseKey) in after && after[MappingKey(w.baseKey)].record == MappingRecord(c, w, stale)
  {
    hide Purged, BodyRecord, MappingRecord;
  }

  lemma NoBlocksIn(c: Cache, m: Key)
    requires WellFormed(c) && IsMappingKey(m)
    ensures PhysicalIn(c, m) == 0
  {
    assert m in c ==> WellFormedRecord(m, c[m].record);
  }

  /** A write is stored and evicts nothing when its mapping can be encoded and the cache with it stays
      within the byte limit, if there is one, and the disk with it within the permitted percentage. */
  lemma RoomForAll(a: Stage, b: Stage, w: PendingWrite, r: WriteResult, evicted: seq<Key>, lru: seq<Key>, stale: nat,
                   pathLength: nat, limits: Limits, transient: nat, usage: DiskUsage, physicalUsed: nat)
    requires Admits(a, b, w, r, evicted, lru, stale, pathLength,
                    CapacityAvailable(limits, transient, usage, physicalUsed))
    requires WellFormed(a.cache) && WellFormedWrite(w) && Counted(a) && r != MapError
    requires var c := AfterWrite(a.cache, w, stale, pathLength, {});
             var percent := if limits.maxDiskUsagePercent < 1 then 80
                            else if limits.maxDiskUsagePercent > 90 then 90 else limits.maxDiskUsagePercent;
             && AccountedTotal(c) <= 0xFFFF_FFFF_FFFF_FFFF
             && (!limits.auto && limits.maxBytes > 0 ==> AccountedTotal(c) <= limits.maxBytes)
             && 100 * PhysicalTotal(c) <= usage.total * percent
             && 100 * (PhysicalTotal(c) + usage.used - physicalUsed - transient) <= usage.total * percent
    ensures r == Stored && evicted == [] && b.cache == AfterWrite(a.cache, w, stale, pathLength, {})
  {
    hide CapacityAvailable, AccountedNeed, PhysicalNeed, AfterWrite, Total, Carries, Evictable, WellFormed, Counted;
    hide MappingRecord, BodyRecord, Updated, NeverFrees, ShortestFreeing, Encodable;
    UnevictedTotals(a, w, stale, pathLength);
    ByteLimit(limits, transient, usage, physicalUsed);
    DiskShare(limits, transient, usage, physicalUsed, PhysicalNeed(a, w));
    AmpleRoom(a, b, w, r, evicted, lru, stale, pathLength, CapacityAvailable(limits, transient, usage, physicalUsed));
    assert KeySet([]) == {};
  }
}
