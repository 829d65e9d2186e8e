/** Staging one write of a batch: its admission, its evictions, and the body and mapping it stores. */
module Writes {
  import opened Common
  import opened CacheModel
  import opened ExpirationHeap
  import opened Index
  import opened Batch
  import opened Committing
  import opened Admission

  // ----- files: what a batch adds and what it makes obsolete --------------------------------

  /** Every file of a live or written body is still named or listed as obsolete; nothing else
      is named; and an obsolete file belongs to a staged key. */
  ghost predicate Planned(base: Cache, c: Cache, obsolete: set<Path>, staged: set<Key>, written: set<Path>)
  {
    && (forall f :: Names(base, f) || f in written ==> Names(c, f) || f in obsolete)
    && (forall f :: Names(c, f) ==> Names(base, f) || f in written)
    && (forall f :: f in obsolete ==> f.key in staged)
  }

  lemma PlannedPurge(base: Cache, c: Cache, obsolete: set<Path>, staged: set<Key>, written: set<Path>, d: set<Key>,
                     staged': set<Key>)
    requires WellFormed(c) && Planned(base, c, obsolete, staged, written)
    requires staged <= staged' && Bodies(c) * d <= staged'
    ensures Planned(base, Purged(c, d), obsolete + PathsOf(c, d), staged', written)
  {
    forall f ensures Names(Purged(c, d), f) <==> Names(c, f) && f !in PathsOf(c, d)
             ensures f in PathsOf(c, d) ==> f.key in staged'
    {
      NamesAfterPurge(c, d, f);
    }
  }

  /** Storing a body under v: a different old file becomes obsolete. */
  lemma PlannedWrite(base: Cache, c: Cache, c': Cache, obsolete: set<Path>, obsolete': set<Path>, staged: set<Key>,
                     staged': set<Key>, written: set<Path>, final: Path)
    requires Planned(base, c, obsolete, staged, written)
    requires final.key in c' && c'[final.key].record.value == Body(final)
    requires forall f: Path :: f.key != final.key ==> (Names(c', f) <==> Names(c, f))
    requires forall f :: Names(c, f) && f.key == final.key && f != final ==> f in obsolete'
    requires obsolete <= obsolete' && staged + {final.key} <= staged'
    requires forall f :: f in obsolete' ==> f in obsolete || f.key == final.key
    ensures Planned(base, c', obsolete', staged', written + {final})
  {
  }

  /** After a commit: removing the obsolete files that no staged body uses leaves exactly the
      named files and the old orphans. */
  lemma FilesAfterCommit(base: Cache, c: Cache, obsolete: set<Path>, staged: set<Key>, written: set<Path>,
                         files: map<Path, Blob>, installed: map<Path, Blob>, orphans: set<Path>, removed: set<Path>)
    requires FilesMatch(base, files, orphans) && Planned(base, c, obsolete, staged, written)
    requires installed.Keys == files.Keys + written && forall f :: f in installed ==> installed[f] == Contents(f)
    requires forall f :: f in removed <==> f in obsolete && !(f.key in staged && Names(c, f))
    ensures FilesMatch(c, installed - removed, orphans - removed)
  {
    forall f ensures f in installed - removed <==> Names(c, f) || f in orphans - removed {
      assert f in files <==> Names(base, f) || f in orphans;
    }
  }

  // ----- staging one write ------------------------------------------------------------------

  /** Evicts the candidates one after the other. */
  method StageEvictions(s: BatchState, ks: seq<Key>)
    requires s.Linked() && s.Balanced() && Distinct(ks) && KeySet(ks) <= Bodies(s.Staged())
    modifies s`items, s`groups, s`itemGroups, s`variantMappings, s`used, s`physical, s`evicted
    modifies s`obsoleteFiles, s`lost, s.p`nextVersion
    ensures s.Linked() && s.Balanced() && s.Shortage() <= old(s.Shortage())
    ensures s.Staged() == Purged(old(s.Staged()), KeySet(ks))
    ensures s.obsoleteFiles == old(s.obsoleteFiles) + PathsOf(old(s.Staged()), KeySet(ks))
    ensures s.items.Keys >= old(s.items.Keys) + KeySet(ks) && s.NewBodies() == old(s.NewBodies()) - KeySet(ks)
    ensures s.evicted == old(s.evicted) + |ks|
  {
    hide BatchState.Linked, Purged, Total, PathsOf, WellFormed, BatchState.Staged, OnlyDeletes;
    ghost var c := s.Staged();
    StagedWellFormed(s);
    NothingEvicted(c);
    for i := 0 to |ks|
      invariant s.Linked() && s.Balanced() && s.Shortage() <= old(s.Shortage())
      invariant s.Staged() == Purged(c, KeySet(ks[..i]))
      invariant s.obsoleteFiles == old(s.obsoleteFiles) + PathsOf(c, KeySet(ks[..i]))
      invariant s.items.Keys >= old(s.items.Keys) + KeySet(ks[..i])
      invariant s.NewBodies() == old(s.NewBodies()) - KeySet(ks[..i])
      invariant s.evicted == old(s.evicted) + i
    {
      StillThere(c, ks, i);
      PurgeStep(c, KeySet(ks[..i]), ks[i]);
      ghost var before, staged := s.Staged(), s.items;
      StagedWellFormed(s);
      s.DeleteItem(ks[i]);
      s.StagedSome();
      OnlyDeletesBodies(staged, s.items, before, ks[i]);
      s.evicted := s.evicted + 1;
    }
    assert ks[..|ks|] == ks;
  }

  lemma StagedWellFormed(s: BatchState)
    requires s.Linked()
    ensures WellFormed(s.Staged())
  {
  }

  lemma NothingEvicted(c: Cache)
    requires WellFormed(c)
    ensures KeySet([]) == {} && Purged(c, {}) == c && PathsOf(c, {}) == {}
  {
    PurgedNothing(c);
  }

  lemma StillThere(c: Cache, ks: seq<Key>, i: nat)
    requires WellFormed(c) && i < |ks| && Distinct(ks) && KeySet(ks) <= Bodies(c)
    ensures ks[i] in Bodies(Purged(c, KeySet(ks[..i])))
    ensures KeySet(ks[..i + 1]) == KeySet(ks[..i]) + {ks[i]}
  {
    PurgedWellFormed(c, KeySet(ks[..i]));
    assert ks[i] in KeySet(ks);
    assert ks[..i + 1] == ks[..i] + [ks[i]];
  }

  /** Replacing one entry moves both totals by the change in its size. */
  lemma ReplaceTotals(c: Cache, v: Key, e: Entry, used: nat, physical: nat)
    requires physical == PhysicalTotal(c) && used <= AccountedTotal(c)
    ensures Less(physical, PhysicalIn(c, v)) + Physical(v, e) == PhysicalTotal(c[v := e])
    ensures Less(used, AccountedIn(c, v)) + Accounted(v, e) <= AccountedTotal(c[v := e])
    ensures AccountedTotal(c[v := e]) - (Less(used, AccountedIn(c, v)) + Accounted(v, e)) <= AccountedTotal(c) - used
  {
    TotalTake(c, v, Physical);
    TotalTake(c, v, Accounted);
    TotalUpdate(c, v, e, Physical);
    TotalUpdate(c, v, e, Accounted);
  }

  /** Takes the body under the key of `final`, if there is one, out of the tags and the accounts;
      its file becomes obsolete unless the new body uses the same one. */
  method ReleaseBody(s: BatchState, final: Path)
    requires s.Linked() && !IsMappingKey(final.key)
    modifies s`groups, s`itemGroups, s`used, s`physical, s`obsoleteFiles
    ensures s.Linked() && s.GroupsForItem(final.key) == {}
    ensures s.Staged() == Untagged(old(s.Staged()), final.key)
    ensures s.used == Less(old(s.used), AccountedIn(old(s.Staged()), final.key))
    ensures s.physical == Less(old(s.physical), PhysicalIn(old(s.Staged()), final.key))
    ensures old(s.obsoleteFiles) <= s.obsoleteFiles
    ensures forall f :: Names(old(s.Staged()), f) && f.key == final.key && f != final ==> f in s.obsoleteFiles
    ensures forall f :: f in s.obsoleteFiles ==> f in old(s.obsoleteFiles) || f.key == final.key
  {
    hide BatchState.Linked, BatchState.Staged, WellFormed;
    var v := final.key;
    StagedWellFormed(s);
    KindOf(s.Staged(), v);
    PathOfBody(s.Staged(), v);
    var found := s.GetItem(v);
    if found.None? {
      NoTags(s, v);
      return;
    }
    s.RemoveItemGroups(v);
    s.used := Less(s.used, found.value.record.accountedSize);
    s.physical := Less(s.physical, found.value.record.physicalSize);
    if found.value.record.value != Body(final) {
      s.obsoleteFiles := s.obsoleteFiles + {found.value.record.value.path};
    }
  }

  ghost function Untagged(c: Cache, v: Key): Cache
  {
    if v in c then c[v := c[v].(tags := {})] else c
  }

  /** Stores a body in place of the one under its key, if there is one. */
  method ReplaceBody(s: BatchState, final: Path, body: Item)
    requires s.Linked() && s.Balanced() && body.record.expiresAt.Some?
    requires body.record.value == Body(final) && WellFormedRecord(final.key, body.record)
    modifies s`items, s`groups, s`itemGroups, s`used, s`physical, s`obsoleteFiles
    ensures s.Linked() && s.Balanced() && s.Shortage() <= old(s.Shortage())
    ensures s.Staged() == old(s.Staged())[final.key := Entry(body.record, {})]
    ensures s.items.Keys == old(s.items.Keys) + {final.key}
    ensures old(s.obsoleteFiles) <= s.obsoleteFiles
    ensures forall f :: Names(old(s.Staged()), f) && f.key == final.key && f != final ==> f in s.obsoleteFiles
    ensures forall f :: f in s.obsoleteFiles ==> f in old(s.obsoleteFiles) || f.key == final.key
  {
    hide BatchState.Linked, BatchState.Staged, WellFormed, Total;
    ghost var c := s.Staged();
    ReplaceTotals(c, final.key, Entry(body.record, {}), s.used, s.physical);
    ReleaseBody(s, final);
    s.used := s.used + body.record.accountedSize;
    s.physical := s.physical + body.record.physicalSize;
    s.StageBody(final.key, Some(body));
    assert s.Staged() == c[final.key := Entry(body.record, {})];
  }

  lemma PathOfBody(c: Cache, v: Key)
    requires WellFormed(c)
    ensures v in c && IsBody(c[v]) ==> c[v].record.value.path.key == v
  {
    assert v in c ==> WellFormedRecord(v, c[v].record);
  }

  lemma NoTags(s: BatchState, v: Key)
    requires s.Linked()
    ensures v !in s.Staged() ==> s.GroupsForItem(v) == {}
  {
  }

  ghost function GroupSet(groups: seq<Group>): set<Group> { set g | g in groups }

  ghost function Tagged(c: Cache, v: Key, m: Key, tags: set<Group>): Cache
    requires v in c && m in c
  {
    c[v := c[v].(tags := c[v].tags + tags)][m := c[m].(tags := c[m].tags + tags)]
  }

  lemma TaggedStep(c: Cache, v: Key, m: Key, groups: seq<Group>, i: nat)
    requires v in c && m in c && v != m && i < |groups|
    ensures var t := Tagged(c, v, m, GroupSet(groups[..i]));
            var u := t[v := t[v].(tags := t[v].tags + {groups[i]})];
            Tagged(c, v, m, GroupSet(groups[..i + 1])) == u[m := u[m].(tags := u[m].tags + {groups[i]})]
  {
    assert groups[..i + 1] == groups[..i] + [groups[i]];
    assert GroupSet(groups[..i + 1]) == GroupSet(groups[..i]) + {groups[i]};
    assert c[v].tags + (GroupSet(groups[..i]) + {groups[i]}) == c[v].tags + GroupSet(groups[..i]) + {groups[i]};
    assert c[m].tags + (GroupSet(groups[..i]) + {groups[i]}) == c[m].tags + GroupSet(groups[..i]) + {groups[i]};
  }

  /** Tags body and mapping with the surrogate groups of the write. */
  method TagWrite(s: BatchState, v: Key, m: Key, groups: seq<Group>)
    requires s.Linked() && v in s.Staged() && m in s.Staged() && v != m
    modifies s`groups, s`itemGroups
    ensures s.Linked() && s.Staged() == Tagged(old(s.Staged()), v, m, GroupSet(groups))
  {
    hide BatchState.Linked, BatchState.Staged, GroupSet;
    ghost var c := s.Staged();
    TaggedNothing(c, v, m);
    assert groups[..0] == [];
    for i := 0 to |groups|
      invariant s.Linked() && s.Staged() == Tagged(c, v, m, GroupSet(groups[..i]))
    {
      TaggedStep(c, v, m, groups, i);
      var _ := s.GetItem(v);
      s.AddItemGroup(v, groups[i]);
      var _ := s.GetItem(m);
      s.AddItemGroup(m, groups[i]);
    }
    assert groups[..|groups|] == groups;
  }

  lemma TaggedNothing(c: Cache, v: Key, m: Key)
    requires v in c && m in c
    ensures Tagged(c, v, m, GroupSet([])) == c
  {
    assert c[v].tags + GroupSet([]) == c[v].tags && c[m].tags + GroupSet([]) == c[m].tags;
    assert c[v].(tags := c[v].tags) == c[v] && c[m].(tags := c[m].tags) == c[m];
  }

  // ----- one write --------------------------------------------------------------------------

  ghost function StageOf(s: BatchState, accepted: set<Key>): Stage
    reads s`items, s.p`items, s`itemGroups, s.p`itemGroups, s`used, s`physical
  {
    Stage(s.Staged(), s.used, s.physical, accepted)
  }

  /** Stores body and mapping of an accepted write after its evictions. */
  method StageAccepted(s: BatchState, w: PendingWrite, body: Item, mapping: Item, ghost c: Cache, ghost ks: seq<Key>)
    requires s.Linked() && s.Balanced() && WellFormedWrite(w) && WellFormed(c)
    requires s.Staged() == Purged(c, KeySet(ks))
    requires body.record == BodyRecord(w, s.p.stale, s.p.bodyPathLength)
    requires mapping.record == MappingRecord(c, w, s.p.stale)
    modifies s`items, s`groups, s`itemGroups, s`variantMappings, s`used, s`physical, s`obsoleteFiles
    ensures s.Linked() && s.Balanced() && s.Shortage() <= old(s.Shortage())
    ensures s.Staged() == AfterWrite(c, w, s.p.stale, s.p.bodyPathLength, KeySet(ks))
    ensures s.items.Keys == old(s.items.Keys) + {w.variedKey, MappingKey(w.baseKey)}
    ensures old(s.obsoleteFiles) <= s.obsoleteFiles
    ensures forall f :: Names(old(s.Staged()), f) && f.key == w.variedKey && f != FinalPath(w) ==> f in s.obsoleteFiles
    ensures forall f :: f in s.obsoleteFiles ==> f in old(s.obsoleteFiles) || f.key == w.variedKey
  {
    hide BatchState.Linked, BatchState.Staged, Purged, Total, WellFormed, MappingSize, TagsOf, Bodies, ListedIn;
    var v, m := w.variedKey, MappingKey(w.baseKey);
    UpdatedVariants(c, w, s.p.stale);
    ReplaceBody(s, FinalPath(w), body);
    ghost var stored := s.Staged();
    ReplaceTotals(stored, m, Entry(mapping.record, {}), s.used, s.physical);
    StagedWellFormed(s);
    NoBlocks(stored, m);
    var _ := s.GetItem(m);
    NoTags(s, m);
    ghost var tags := s.GroupsForItem(m);
    s.StageMapping(m, Some(mapping));
    SameTotals(stored, m, mapping.record, tags);
    TagWrite(s, v, m, w.groups);
    WrittenTags(c, w, s.p.stale, s.p.bodyPathLength, KeySet(ks), tags);
    TaggedTotals(stored[m := Entry(mapping.record, tags)], v, m, GroupSet(w.groups));
  }

  lemma UpdatedVariants(c: Cache, w: PendingWrite, stale: nat)
    requires WellFormed(c) && WellFormedWrite(w)
    ensures w.variedKey in Updated(c, w, stale)
    ensures forall x :: x in Updated(c, w, stale) ==> !IsMappingKey(x)
  {
    var m := MappingKey(w.baseKey);
    assert m in c ==> WellFormedRecord(m, c[m].record);
  }

  lemma NoBlocks(c: Cache, m: Key)
    requires WellFormed(c) && IsMappingKey(m)
    ensures PhysicalIn(c, m) == 0
  {
    assert m in c ==> WellFormedRecord(m, c[m].record);
  }

  lemma SameTotals(c: Cache, m: Key, r: Record, tags: set<Group>)
    ensures PhysicalTotal(c[m := Entry(r, tags)]) == PhysicalTotal(c[m := Entry(r, {})])
    ensures AccountedTotal(c[m := Entry(r, tags)]) == AccountedTotal(c[m := Entry(r, {})])
  {
    TotalUpdate(c, m, Entry(r, tags), Physical);
    TotalUpdate(c, m, Entry(r, {}), Physical);
    TotalUpdate(c, m, Entry(r, tags), Accounted);
    TotalUpdate(c, m, Entry(r, {}), Accounted);
  }

  lemma TaggedTotals(c: Cache, v: Key, m: Key, tags: set<Group>)
    requires v in c && m in c
    ensures PhysicalTotal(Tagged(c, v, m, tags)) == PhysicalTotal(c)
    ensures AccountedTotal(Tagged(c, v, m, tags)) == AccountedTotal(c)
  {
    TotalSkipsFree(Tagged(c, v, m, tags), c, Physical);
    TotalSkipsFree(Tagged(c, v, m, tags), c, Accounted);
  }

  lemma WrittenTags(c: Cache, w: PendingWrite, stale: nat, pathLength: nat, evicted: set<Key>, tags: set<Group>)
    requires WellFormedWrite(w)
    requires var q, m := Purged(c, evicted), MappingKey(w.baseKey); tags == if m in q then q[m].tags else {}
    ensures var q, v, m := Purged(c, evicted), w.variedKey, MappingKey(w.baseKey);
            var body, mapping := Entry(BodyRecord(w, stale, pathLength), {}), Entry(MappingRecord(c, w, stale), tags);
            var stored := q[v := body][m := mapping];
            Tagged(stored, v, m, GroupSet(w.groups)) == AfterWrite(c, w, stale, pathLength, evicted)
  {
    assert {} + GroupSet(w.groups) == TagsOf(w);
    assert tags + GroupSet(w.groups) == tags + TagsOf(w);
  }

  /** Computes the new mapping and what the write needs under both budgets. */
  method Prepare(s: BatchState, w: PendingWrite, ghost accepted: set<Key>)
    returns (encodable: bool, mapping: Record, neededAccounted: nat, neededPhysical: nat)
    requires s.Linked() && WellFormedWrite(w)
    ensures var a := StageOf(s, accepted);
            && (encodable <==> Encodable(Updated(a.cache, w, s.p.stale)))
            && mapping == MappingRecord(a.cache, w, s.p.stale)
            && neededAccounted == AccountedNeed(a, w, s.p.stale, s.p.bodyPathLength)
            && neededPhysical == PhysicalNeed(a, w)
  {
    hide BatchState.Linked, BatchState.Staged, WellFormed, Total;
    var p, v, m := s.p, w.variedKey, MappingKey(w.baseKey);
    ghost var c := s.Staged();
    StagedWellFormed(s);
    KindOf(c, m);
    var previous := s.GetItem(m);
    var listed := if previous.Some? then previous.value.record.value.entries else map[];
    var entries := listed[v := IndexEntry(w, p.stale)];
    assert entries == Updated(c, w, p.stale);
    encodable := Encodable(entries);
    var replaced := s.GetItem(v);
    var oldAccounted, oldPhysical := 0, 0;
    if replaced.Some? {
      oldAccounted, oldPhysical := replaced.value.record.accountedSize, replaced.value.record.physicalSize;
    }
    var length := EncodedLength(entries);
    mapping := Record(Mapping(entries), Some(w.now + w.duration + p.stale), w.now, 0, 0,
                      ITEM_INDEX_OVERHEAD + |m| + length, "");
    var oldMapping := if previous.Some? then previous.value.record.accountedSize else 0;
    neededAccounted := Less(Less(s.used, oldAccounted), oldMapping) +
                       BodyRecord(w, p.stale, p.bodyPathLength).accountedSize + mapping.accountedSize;
    neededPhysical := Less(s.physical, oldPhysical) + w.physicalSize;
  }

  /** Evicts the candidates and stores the write. */
  method Accept(s: BatchState, w: PendingWrite, mapping: Record, candidates: seq<Key>, ghost written: set<Path>)
    requires s.Linked() && s.Balanced() && WellFormedWrite(w)
    requires mapping == MappingRecord(s.Staged(), w, s.p.stale)
    requires Distinct(candidates) && KeySet(candidates) <= Bodies(s.Staged())
    requires Planned(s.p.Cached(), s.Staged(), s.obsoleteFiles, s.items.Keys, written)
    modifies s`items, s`groups, s`itemGroups, s`variantMappings, s`used, s`physical, s`evicted
    modifies s`obsoleteFiles, s`lost, s.p`nextVersion
    ensures s.Linked() && s.Balanced() && s.Shortage() <= old(s.Shortage())
    ensures s.Staged() == AfterWrite(old(s.Staged()), w, s.p.stale, s.p.bodyPathLength, KeySet(candidates))
    ensures Planned(s.p.Cached(), s.Staged(), s.obsoleteFiles, s.items.Keys, written + {FinalPath(w)})
    ensures s.items.Keys >= old(s.items.Keys) + {w.variedKey}
    ensures s.NewBodies() == old(s.NewBodies()) - KeySet(candidates) + {w.variedKey}
  {
    hide BatchState.Linked, BatchState.Staged, BatchState.Balanced, BatchState.Shortage, Provider.Cached, Purged;
    hide Total, WellFormed, Planned;
    hide MappingRecord, BodyRecord, AfterWrite, PathsOf, Distinct, Bodies, KeySet;
    ghost var c := s.Staged();
    StagedWellFormed(s);
    var p := s.p;
    p.nextVersion := p.nextVersion + 1;
    var body := Item(BodyRecord(w, p.stale, p.bodyPathLength), p.nextVersion, null);
    StageEvictions(s, candidates);
    ghost var q, obsolete, staged := s.Staged(), s.obsoleteFiles, s.items.Keys;
    PlannedPurge(p.Cached(), c, old(s.obsoleteFiles), old(s.items.Keys), written, KeySet(candidates), staged);
    p.nextVersion := p.nextVersion + 1;
    ghost var bodies := s.NewBodies();
    StageAccepted(s, w, body, Item(mapping, p.nextVersion, null), c, candidates);
    WrittenBodies(c, w, p.stale, p.bodyPathLength, KeySet(candidates), staged, bodies, s);
    WriteNames(c, w, p.stale, p.bodyPathLength, KeySet(candidates));
    PlannedWrite(p.Cached(), q, s.Staged(), obsolete, s.obsoleteFiles, staged, s.items.Keys, written, FinalPath(w));
  }

  lemma WrittenBodies(c: Cache, w: PendingWrite, stale: nat, pathLength: nat, d: set<Key>, staged: set<Key>,
                      bodies: set<Key>, s: BatchState)
    requires WellFormed(c) && WellFormedWrite(w) && bodies == staged * Bodies(Purged(c, d))
    requires s.Staged() == AfterWrite(c, w, stale, pathLength, d)
    requires s.items.Keys == staged + {w.variedKey, MappingKey(w.baseKey)}
    ensures s.NewBodies() == bodies + {w.variedKey}
  {
    var m := MappingKey(w.baseKey);
    PurgedWellFormed(c, d);
    KindOf(Purged(c, d), m);
  }

  /** Processes one write of a batch. */
  method StageWrite(s: BatchState, w: PendingWrite, budget: Budget, accepted: set<Key>, ghost written: set<Path>)
    returns (r: WriteResult, ghost evicted: seq<Key>)
    requires s.Linked() && s.Balanced() && RecencyList(s.p.items, s.p.lru) && WellFormedWrite(w)
    requires Planned(s.p.Cached(), s.Staged(), s.obsoleteFiles, s.items.Keys, written)
    modifies s`items, s`groups, s`itemGroups, s`variantMappings, s`used, s`physical, s`evicted
    modifies s`obsoleteFiles, s`lost, s.p`nextVersion
    ensures s.Linked() && s.Balanced() && s.items.Keys >= old(s.items.Keys)
    ensures Admits(old(StageOf(s, accepted)), StageOf(s, if r.Stored? then accepted + {w.variedKey} else accepted),
                   w, r, evicted, s.p.lru, s.p.stale, s.p.bodyPathLength, budget)
    ensures r.Stored? ==> s.physical <= budget.physicalAvailable && w.variedKey in s.items
    ensures r.Stored? ==>
              && w.variedKey in s.Staged() && s.Staged()[w.variedKey].record.checksum == w.checksum
              && forall t :: w.variedKey in Due(s.Staged(), t) <==> t >= w.now + w.duration + s.p.stale
    ensures s.Shortage() <= old(s.Shortage())
    ensures r.Stored? ==> AccountedTotal(s.Staged()) <= budget.accountedAvailable + old(s.Shortage())
    ensures old(s.NewBodies()) == accepted ==>
              s.NewBodies() == if r.Stored? then accepted + {w.variedKey} else accepted
    ensures Planned(s.p.Cached(), s.Staged(), s.obsoleteFiles, s.items.Keys,
                    if r.Stored? then written + {FinalPath(w)} else written)
  {
    hide BatchState.Linked, BatchState.Staged, Provider.Cached, Purged, Total, WellFormed, Planned, RecencyList;
    hide Evictable, SumOf, Frees, NeverFrees;
    hide AfterWrite, AccountedNeed, PhysicalNeed, MappingRecord, Encodable, Updated, Distinct, IsMappingKey, Bodies;
    hide BatchState.NewBodies, KeySet;
    ghost var a := StageOf(s, accepted);
    StagedWellFormed(s);
    evicted := [];
    var encodable, mapping, neededAccounted, neededPhysical := Prepare(s, w, accepted);
    if !encodable {
      return MapError, [];
    }
    var body := BodyRecord(w, s.p.stale, s.p.bodyPathLength);
    if || body.accountedSize + mapping.accountedSize > budget.accountedAvailable
       || body.physicalSize > budget.physicalAvailable {
      return NoCapacity, [];
    }
    var candidates, enough := s.EvictionCandidates(accepted + {w.variedKey}, neededAccounted, budget.accountedAvailable,
                                                   neededPhysical, budget.physicalAvailable);
    if !enough {
      return NoCapacity, [];
    }
    evicted := candidates;
    LruDistinct(s.p.items, s.p.lru);
    CandidateFacts(s.p.lru, a.cache, accepted + {w.variedKey}, candidates);
    Bounds(a, w, candidates, s.p.stale, s.p.bodyPathLength, budget);
    Accept(s, w, mapping, candidates, written);
    r := Stored;
    StoredBody(a, StageOf(s, accepted + {w.variedKey}), w, candidates, s.p.lru, s.p.stale, s.p.bodyPathLength, budget);
  }

  lemma LruDistinct(items: map<Key, Item>, lru: seq<Key>)
    requires RecencyList(items, lru)
    ensures Distinct(lru)
  {
  }

  lemma Bounds(a: Stage, w: PendingWrite, ks: seq<Key>, stale: nat, pathLength: nat, budget: Budget)
    requires WellFormed(a.cache) && WellFormedWrite(w) && Counted(a)
    requires Distinct(ks) && KeySet(ks) <= Bodies(a.cache) && w.variedKey !in KeySet(ks)
    requires Frees(a.cache, ks, Less(AccountedNeed(a, w, stale, pathLength), budget.accountedAvailable),
                   Less(PhysicalNeed(a, w), budget.physicalAvailable))
    ensures var after := AfterWrite(a.cache, w, stale, pathLength, KeySet(ks));
            && PhysicalTotal(after) <= budget.physicalAvailable
            && AccountedTotal(after) <= budget.accountedAvailable + ShortageOf(a)
  {
    assert w.variedKey !in ks;
    PhysicalBound(a, w, ks, stale, pathLength, budget);
    AccountedBound(a, w, ks, stale, pathLength, budget);
  }

  lemma WriteNames(c: Cache, w: PendingWrite, stale: nat, pathLength: nat, d: set<Key>)
    requires WellFormed(c) && WellFormedWrite(w)
    ensures var q, after := Purged(c, d), AfterWrite(c, w, stale, pathLength, d);
            && w.variedKey in after && after[w.variedKey].record.value == Body(FinalPath(w))
            && forall f: Path :: f.key != w.variedKey ==> (Names(after, f) <==> Names(q, f))
  {
    var m := MappingKey(w.baseKey);
    assert m in c ==> WellFormedRecord(m, c[m].record);
  }
}
