/** A write batch: a copy-on-write overlay over a provider. Nothing in the provider's index
    changes until the overlay is persisted and applied. */
module Batch {
  import opened Common
  import opened CacheModel
  import opened ExpirationHeap
  import opened Index

  /** The items seen through the overlay. */
  function View(base: map<Key, Item>, staged: map<Key, Option<Item>>): map<Key, Item>
  {
    map k | k in base.Keys + staged.Keys && (k in staged ==> staged[k].Some?)
      :: if k in staged then staged[k].value else base[k]
  }

  /** A set-valued index seen through the overlay. */
  function Through(base: map<string, set<string>>, staged: map<string, set<string>>, k: string): set<string>
  {
    if k in staged then staged[k] else At(base, k)
  }

  ghost predicate GroupLinks(bg: map<Group, set<Key>>, sg: map<Group, set<Key>>, bi: map<Key, set<Group>>,
                             si: map<Key, set<Group>>)
  {
    forall g, k :: k in Through(bg, sg, g) <==> g in Through(bi, si, k)
  }

  ghost predicate MappingLinks(view: map<Key, Item>, bm: map<Key, set<Key>>, sm: map<Key, set<Key>>)
  {
    forall v, m :: m in Through(bm, sm, v) <==> m in view && ListsVariant(view[m], v)
  }

  ghost predicate TaggedAreLive(view: map<Key, Item>, bi: map<Key, set<Group>>, si: map<Key, set<Group>>)
  {
    forall k :: Through(bi, si, k) != {} ==> k in view
  }

  ghost function Entries(view: map<Key, Item>, bi: map<Key, set<Group>>, si: map<Key, set<Group>>): Cache
  {
    map k | k in view :: Entry(view[k].record, Through(bi, si, k))
  }

  lemma ThroughUpdate(base: map<string, set<string>>, staged: map<string, set<string>>, k: string, v: set<string>)
    ensures Through(base, staged[k := v], k) == v
    ensures forall x :: x != k ==> Through(base, staged[k := v], x) == Through(base, staged, x)
  {
  }

  lemma GroupLinksWithout(bg: map<Group, set<Key>>, sg: map<Group, set<Key>>, sg': map<Group, set<Key>>,
                          bi: map<Key, set<Group>>, si: map<Key, set<Group>>, key: Key)
    requires GroupLinks(bg, sg, bi, si)
    requires forall g :: Through(bg, sg', g) == Through(bg, sg, g) - {key}
    ensures GroupLinks(bg, sg', bi, si[key := {}])
  {
    ThroughUpdate(bi, si, key, {});
    forall g, k ensures k in Through(bg, sg', g) <==> g in Through(bi, si[key := {}], k) {
      if k != key {
        assert k in Through(bg, sg, g) <==> g in Through(bi, si, k);
      }
    }
  }

  lemma GroupLinksWith(bg: map<Group, set<Key>>, sg: map<Group, set<Key>>, bi: map<Key, set<Group>>,
                       si: map<Key, set<Group>>, key: Key, group: Group)
    requires GroupLinks(bg, sg, bi, si)
    ensures GroupLinks(bg, sg[group := Through(bg, sg, group) + {key}],
                       bi, si[key := Through(bi, si, key) + {group}])
  {
    var sg', si' := sg[group := Through(bg, sg, group) + {key}], si[key := Through(bi, si, key) + {group}];
    ThroughUpdate(bg, sg, group, Through(bg, sg, group) + {key});
    ThroughUpdate(bi, si, key, Through(bi, si, key) + {group});
    forall g, k ensures k in Through(bg, sg', g) <==> g in Through(bi, si', k) {
      assert k in Through(bg, sg, g) <==> g in Through(bi, si, k);
      if g == group {} else {}
      if k == key {} else {}
    }
  }

  lemma ViewStage(base: map<Key, Item>, staged: map<Key, Option<Item>>, key: Key, item: Option<Item>)
    ensures item.Some? ==> View(base, staged[key := item]) == View(base, staged)[key := item.value]
    ensures item.None? ==> View(base, staged[key := item]) == View(base, staged) - {key}
  {
  }

  /** Staging one well-formed item, or the absence of an untagged one, keeps the overlay consistent. */
  lemma StageKeeps(view: map<Key, Item>, view': map<Key, Item>, bi: map<Key, set<Group>>, si: map<Key, set<Group>>,
                   key: Key)
    requires WellFormed(Entries(view, bi, si)) && TaggedAreLive(view, bi, si) && Unscheduled(view)
    requires SameElsewhere(view, view', key)
    requires key in view' ==> WellFormedRecord(key, view'[key].record)
    requires key in view' && view'[key].record.expiresAt.None? ==> view'[key].expiration == null
    requires key !in view' ==> Through(bi, si, key) == {}
    ensures WellFormed(Entries(view', bi, si)) && TaggedAreLive(view', bi, si) && Unscheduled(view')
  {
    forall k | k in view' ensures WellFormedRecord(k, view'[k].record) {
      if k != key {
        assert Entries(view, bi, si)[k].record == view'[k].record;
      }
    }
    forall k | Through(bi, si, k) != {} ensures k in view' {
      assert k in view;
    }
  }

  /** Changing the tags of one key changes only that entry. */
  lemma Retag(view: map<Key, Item>, bi: map<Key, set<Group>>, si: map<Key, set<Group>>, key: Key, tags: set<Group>)
    requires WellFormed(Entries(view, bi, si)) && TaggedAreLive(view, bi, si)
    requires tags != {} ==> key in view
    ensures var c, c' := Entries(view, bi, si), Entries(view, bi, si[key := tags]);
            && WellFormed(c') && TaggedAreLive(view, bi, si[key := tags])
            && c' == (if key in c then c[key := c[key].(tags := tags)] else c)
  {
    ThroughUpdate(bi, si, key, tags);
    var c, c' := Entries(view, bi, si), Entries(view, bi, si[key := tags]);
    forall k | k in view ensures WellFormedRecord(k, view[k].record) {
      assert c[k].record == view[k].record;
    }
  }

  /** Unlinking the old variants and linking the new ones keeps the reverse index exact. */
  lemma MappingLinksStage(view: map<Key, Item>, view': map<Key, Item>, bm: map<Key, set<Key>>, sm: map<Key, set<Key>>,
                          sm': map<Key, set<Key>>, key: Key)
    requires MappingLinks(view, bm, sm)
    requires SameElsewhere(view, view', key)
    requires forall v :: Through(bm, sm', v) ==
                         Through(bm, sm, v) - (if key in view && v in Variants(view[key]) then {key} else {})
                         + (if key in view' && v in Variants(view'[key]) then {key} else {})
    ensures MappingLinks(view', bm, sm')
  {
    forall v, m ensures m in Through(bm, sm', v) <==> m in view' && ListsVariant(view'[m], v) {
      assert m in Through(bm, sm, v) <==> m in view && ListsVariant(view[m], v);
      if m == key {} else {}
    }
  }

  method EncodedLength(entries: map<Key, KeyIndex>) returns (n: nat)
    ensures n == EncodedSize(entries)
  {
    var todo, total := entries, 0;
    while todo.Keys != {}
      invariant total + Total(todo, MemberSize) == Total(entries, MemberSize)
      decreases |todo|
    {
      var k :| k in todo.Keys;
      TotalSplit(todo, k, MemberSize);
      total := total + MemberSize(k, todo[k]);
      todo := todo - {k};
    }
    n := Less(14 + total, if entries.Keys == {} then 0 else 1);
  }

  ghost predicate MappingItem(item: Item)
  {
    && item.record.value.Mapping? && item.record.physicalSize == 0
    && item.record.compressedSize == 0 && item.record.checksum == ""
    && item.record.value.entries.Keys != {} && (item.record.expiresAt.None? ==> item.expiration == null)
    && forall v :: v in item.record.value.entries ==> !IsMappingKey(v)
  }

  /** A mapping item with its accounted size filled in. */
  ghost function Sized(key: Key, item: Item): Item
    requires item.record.value.Mapping?
  {
    item.(record := item.record.(accountedSize := MappingSize(key, item.record.value.entries)))
  }

  ghost function KeysOf(entries: seq<ExpirationEntry>): set<Key>
  {
    set e | e in entries :: e.key
  }

  /** The keys of popped entries, in the order they were popped. */
  ghost function PopOrder(entries: seq<ExpirationEntry>): seq<Key>
  {
    seq(|entries|, i requires 0 <= i < |entries| => entries[i].key)
  }

  lemma PopOrderPush(entries: seq<ExpirationEntry>, e: ExpirationEntry)
    ensures PopOrder(entries + [e]) == PopOrder(entries) + [e.key]
  {
  }

  lemma NothingPopped(c: Cache)
    ensures PopOrder([]) == [] && Lost(c, []) == 0
  {
  }

  /** The popped entries are in order of time, and none of them is later than one still queued. */
  ghost predicate Earliest(popped: seq<ExpirationEntry>, queued: set<ExpirationEntry>)
  {
    && (forall i, j :: 0 <= i < j < |popped| ==> popped[i].at <= popped[j].at)
    && (forall i, e :: 0 <= i < |popped| && e in queued ==> popped[i].at <= e.at)
  }

  lemma PopOrderKeys(entries: seq<ExpirationEntry>)
    ensures KeySet(PopOrder(entries)) == KeysOf(entries)
  {
    var order := PopOrder(entries);
    forall i | 0 <= i < |entries|
      ensures order[i] in KeysOf(entries) && entries[i].key in KeySet(order)
    {
      assert entries[i] in entries && order[i] in order;
    }
  }

  ghost function Members(entries: seq<ExpirationEntry>): set<ExpirationEntry>
  {
    set e | e in entries
  }

  /** No body is staged beyond those that already were; keys stay staged. */
  ghost predicate OnlyDeletes(staged: map<Key, Option<Item>>, staged': map<Key, Option<Item>>)
  {
    && staged.Keys <= staged'.Keys
    && forall k :: k in staged' && staged'[k].Some? && !IsMappingKey(k) ==> k in staged && staged[k] == staged'[k]
  }

  lemma OnlyDeletesBodies(staged: map<Key, Option<Item>>, staged': map<Key, Option<Item>>, c: Cache, key: Key)
    requires OnlyDeletes(staged, staged') && WellFormed(c)
    requires forall k :: k in staged' && k in Purged(c, {key}) ==> staged'[k].Some?
    ensures staged'.Keys * Bodies(Purged(c, {key})) == staged.Keys * Bodies(c) - {key} && staged.Keys <= staged'.Keys
  {
    PurgedWellFormed(c, {key});
    forall k | k in Bodies(c) ensures !IsMappingKey(k) {
      KindOf(c, k);
    }
  }

  lemma OnlyDeletesSame(staged: map<Key, Option<Item>>)
    ensures OnlyDeletes(staged, staged)
  {
  }

  lemma OnlyDeletesThen(a: map<Key, Option<Item>>, b: map<Key, Option<Item>>, key: Key, item: Option<Item>)
    requires OnlyDeletes(a, b) && (item.None? || IsMappingKey(key))
    ensures OnlyDeletes(a, b[key := item])
  {
  }

  class BatchState {
    const p: Provider
    var items: map<Key, Option<Item>>
    var groups: map<Group, set<Key>>
    var variantMappings: map<Key, set<Key>>
    var itemGroups: map<Key, set<Group>>
    var used: nat
    var physical: nat
    var obsoleteFiles: set<Path>
    var evicted: nat
    var poppedExpiry: seq<ExpirationEntry>
    /** The sizes of the mapping records deleted by their own keys. */
    ghost var lost: nat

    ghost function Current(): map<Key, Item>
      reads this`items, p`items
    {
      View(p.items, items)
    }

    ghost function Staged(): Cache
      reads this`items, p`items, this`itemGroups, p`itemGroups
    {
      Entries(Current(), p.itemGroups, itemGroups)
    }

    ghost predicate Linked()
      reads this`items, p`items, this`itemGroups, p`itemGroups, this`groups, p`groups, this`variantMappings
      reads p`variantMappings
    {
      && WellFormed(Staged())
      && GroupLinks(p.groups, groups, p.itemGroups, itemGroups)
      && TaggedAreLive(Current(), p.itemGroups, itemGroups)
      && MappingLinks(Current(), p.variantMappings, variantMappings)
      && Unscheduled(Current())
    }

    constructor (p: Provider)
      requires p.Indexed()
      ensures this.p == p && Linked() && Staged() == p.Cached() && Current() == p.items
      ensures used == p.cacheUsed && physical == p.physicalUsed
      ensures items == map[] && groups == map[] && obsoleteFiles == {} && poppedExpiry == []
      ensures evicted == 0 && lost == 0
    {
      this.p := p;
      items, groups, variantMappings, itemGroups := map[], map[], map[], map[];
      used, physical, obsoleteFiles, evicted, poppedExpiry := p.cacheUsed, p.physicalUsed, {}, 0, [];
      lost := 0;
      new;
      assert View(p.items, map[]) == p.items;
    }

    function GetItem(key: Key): (r: Option<Item>)
      reads this`items, p`items, this`itemGroups, p`itemGroups
      ensures r.Some? <==> key in Current()
      ensures r.Some? ==> r.value == Current()[key]
      ensures r.Some? <==> key in Staged()
      ensures r.Some? ==> Staged()[key] == Entry(r.value.record, GroupsForItem(key))
    {
      if key in items then items[key] else if key in p.items then Some(p.items[key]) else None
    }

    function GroupsForItem(key: Key): set<Group>
      reads this`itemGroups, p`itemGroups
    {
      Through(p.itemGroups, itemGroups, key)
    }

    function KeysForGroup(group: Group): set<Key>
      reads this`groups, p`groups
    {
      Through(p.groups, groups, group)
    }

    function MappingsForVariant(key: Key): set<Key>
      reads this`variantMappings, p`variantMappings
    {
      Through(p.variantMappings, variantMappings, key)
    }

    method RemoveItemGroups(key: Key)
      requires Linked()
      modifies this`groups, this`itemGroups
      ensures Linked()
      ensures Staged() == if key in old(Staged()) then old(Staged())[key := old(Staged())[key].(tags := {})]
                          else old(Staged())
      ensures GroupsForItem(key) == {}
    {
      hide View, Entries, WellFormed, MappingLinks, TaggedAreLive;
      ghost var groups0, itemGroups0 := groups, itemGroups;
      var tags := GroupsForItem(key);
      var todo := tags;
      while todo != {}
        invariant todo <= tags && itemGroups == itemGroups0
        invariant forall g :: Through(p.groups, groups, g) ==
                              Through(p.groups, groups0, g) - (if g in tags - todo then {key} else {})
      {
        var g :| g in todo;
        ThroughUpdate(p.groups, groups, g, KeysForGroup(g) - {key});
        groups := groups[g := KeysForGroup(g) - {key}];
        todo := todo - {g};
      }
      GroupLinksWithout(p.groups, groups0, groups, p.itemGroups, itemGroups, key);
      Retag(Current(), p.itemGroups, itemGroups, key, {});
      itemGroups := itemGroups[key := {}];
    }

    method AddItemGroup(key: Key, group: Group)
      requires Linked() && key in Current()
      modifies this`groups, this`itemGroups
      ensures Linked()
      ensures Staged() == old(Staged())[key := old(Staged())[key].(tags := old(Staged())[key].tags + {group})]
    {
      hide View, Through, WellFormed, MappingLinks, GroupLinks, TaggedAreLive;
      GroupLinksWith(p.groups, groups, p.itemGroups, itemGroups, key, group);
      Retag(Current(), p.itemGroups, itemGroups, key, GroupsForItem(key) + {group});
      groups := groups[group := KeysForGroup(group) + {key}];
      itemGroups := itemGroups[key := GroupsForItem(key) + {group}];
    }

    method Unlink(mappingKey: Key, variants: set<Key>)
      modifies this`variantMappings
      ensures forall v :: MappingsForVariant(v) ==
                            old(MappingsForVariant(v)) - (if v in variants then {mappingKey} else {})
    {
      var todo := variants;
      while todo != {}
        invariant todo <= variants
        invariant forall v :: MappingsForVariant(v) ==
                                old(MappingsForVariant(v)) - (if v in variants - todo then {mappingKey} else {})
      {
        var v :| v in todo;
        ThroughUpdate(p.variantMappings, variantMappings, v, MappingsForVariant(v) - {mappingKey});
        variantMappings := variantMappings[v := MappingsForVariant(v) - {mappingKey}];
        todo := todo - {v};
      }
    }

    method Link(mappingKey: Key, variants: set<Key>)
      modifies this`variantMappings
      ensures forall v :: MappingsForVariant(v) ==
                            old(MappingsForVariant(v)) + (if v in variants then {mappingKey} else {})
    {
      var todo := variants;
      while todo != {}
        invariant todo <= variants
        invariant forall v :: MappingsForVariant(v) ==
                                old(MappingsForVariant(v)) + (if v in variants - todo then {mappingKey} else {})
      {
        var v :| v in todo;
        ThroughUpdate(p.variantMappings, variantMappings, v, MappingsForVariant(v) + {mappingKey});
        variantMappings := variantMappings[v := MappingsForVariant(v) + {mappingKey}];
        todo := todo - {v};
      }
    }

    /** Takes the mapping record under `key`, if any, out of the accounts and the reverse index. */
    method ReleaseMapping(key: Key)
      modifies this`variantMappings, this`used
      ensures used == Less(old(used), AccountedIn(Staged(), key))
      ensures forall v :: Through(p.variantMappings, variantMappings, v) ==
                          Through(p.variantMappings, old(variantMappings), v) -
                          (if key in Current() && v in Variants(Current()[key]) then {key} else {})
    {
      var previous := GetItem(key);
      if previous.Some? {
        used := Less(used, previous.value.record.accountedSize);
        Unlink(key, Variants(previous.value));
      }
    }

    /** Stages an item, or with None its absence, under `key`. */
    method Put(key: Key, item: Option<Item>)
      modifies this`items
      ensures items == old(items)[key := item]
      ensures item.None? ==> Current() == old(Current()) - {key} && Staged() == old(Staged()) - {key}
      ensures item.Some? ==>
                && Current() == old(Current())[key := item.value]
                && Staged() == old(Staged())[key := Entry(item.value.record, GroupsForItem(key))]
    {
      ViewStage(p.items, items, key, item);
      items := items[key := item];
    }

    /** Replaces or (with None) drops the mapping record under `key`. */
    method StageMapping(key: Key, item: Option<Item>)
      requires Linked() && IsMappingKey(key)
      requires item.Some? ==> MappingItem(item.value)
      requires item.None? ==> GroupsForItem(key) == {}
      modifies this`items, this`variantMappings, this`used
      ensures Linked()
      ensures item.None? ==>
                && items == old(items)[key := None]
                && Staged() == old(Staged()) - {key}
                && used == Less(old(used), AccountedIn(old(Staged()), key))
      ensures item.Some? ==>
                && items == old(items)[key := Some(Sized(key, item.value))]
                && Staged() == old(Staged())[key := Entry(Sized(key, item.value).record, GroupsForItem(key))]
                && used == Less(old(used), AccountedIn(old(Staged()), key))
                             + Sized(key, item.value).record.accountedSize
    {
      hide View, Entries, WellFormed, MappingLinks, GroupLinks, TaggedAreLive, Unscheduled;
      ghost var view, sm := Current(), variantMappings;
      ReleaseMapping(key);
      if item.None? {
        Put(key, None);
      } else {
        Link(key, Variants(item.value));
        var length := EncodedLength(item.value.record.value.entries);
        var size := ITEM_INDEX_OVERHEAD + |key| + length;
        used := used + size;
        Put(key, Some(item.value.(record := item.value.record.(accountedSize := size))));
      }
      MappingLinksStage(view, Current(), p.variantMappings, sm, variantMappings, key);
      StageKeeps(view, Current(), p.itemGroups, itemGroups, key);
    }

    /** Stages a body, or with None its absence, under a key that holds no mapping record. */
    method StageBody(key: Key, item: Option<Item>)
      requires Linked() && !IsMappingKey(key)
      requires item.Some? ==> item.value.record.value.Body? && WellFormedRecord(key, item.value.record)
      requires item.Some? && item.value.record.expiresAt.None? ==> item.value.expiration == null
      requires item.None? ==> GroupsForItem(key) == {}
      modifies this`items
      ensures Linked() && items == old(items)[key := item]
      ensures item.None? ==> Staged() == old(Staged()) - {key}
      ensures item.Some? ==> Staged() == old(Staged())[key := Entry(item.value.record, GroupsForItem(key))]
    {
      hide View, Entries, MappingLinks, GroupLinks, TaggedAreLive, Unscheduled;
      ghost var view := Current();
      assert key in view ==> WellFormedRecord(key, view[key].record) by {
        var _ := GetItem(key);
      }
      Put(key, item);
      MappingLinksStage(view, Current(), p.variantMappings, variantMappings, variantMappings, key);
      StageKeeps(view, Current(), p.itemGroups, itemGroups, key);
    }

    /** Takes one variant out of a mapping record; the record goes with its last variant. */
    method RemoveVariantFromMapping(mappingKey: Key, variedKey: Key)
      requires Linked() && IsMappingKey(mappingKey)
      modifies this`items, this`groups, this`itemGroups, this`variantMappings, this`used, p`nextVersion
      ensures Linked() && OnlyDeletes(old(items), items)
      ensures Staged() == Forget(old(Staged()), variedKey, {mappingKey})
      ensures used == if mappingKey in Mentions(old(Staged()), variedKey)
                      then Less(old(used), AccountedIn(old(Staged()), mappingKey)) + AccountedIn(Staged(), mappingKey)
                      else old(used)
    {
      hide GroupLinks, MappingLinks, TaggedAreLive, View, Entries, Through, Forget, MappingSize, EncodedSize, Total;
      ForgetOne(Staged(), variedKey, mappingKey);
      var found := GetItem(mappingKey);
      if found.None? {
        return;
      }
      var item := found.value;
      assert WellFormedRecord(mappingKey, Staged()[mappingKey].record);
      if variedKey !in item.record.value.entries {
        return;
      }
      var entries := item.record.value.entries - {variedKey};
      if entries.Keys == {} {
        RemoveItemGroups(mappingKey);
        StageMapping(mappingKey, None);
        return;
      }
      p.nextVersion := p.nextVersion + 1;
      item := Item(item.record.(value := Mapping(entries)), p.nextVersion, item.expiration);
      StageMapping(mappingKey, Some(item));
    }

    lemma MappingsAreMentions(key: Key)
      requires Linked()
      ensures MappingsForVariant(key) == Mentions(Staged(), key)
    {
      assert forall m :: m in MappingsForVariant(key) <==> m in Current() && ListsVariant(Current()[m], key);
    }

    /** Takes a body out of every mapping that lists it. */
    method ForgetVariant(key: Key)
      requires Linked() && !IsMappingKey(key)
      modifies this`items, this`groups, this`itemGroups, this`variantMappings, this`used, p`nextVersion
      ensures Linked() && OnlyDeletes(old(items), items)
      ensures Staged() == Forget(old(Staged()), key, Mentions(old(Staged()), key))
      ensures old(used) <= AccountedTotal(old(Staged()) - {key}) ==> used <= AccountedTotal(Staged() - {key})
      ensures AccountedTotal(Staged() - {key}) - used <= old(AccountedTotal(Staged() - {key}) - used)
    {
      hide GroupLinks, MappingLinks, TaggedAreLive, View, Entries, Through, Forget, Total;
      ghost var c := Staged();
      ghost var all := Mentions(c, key);
      var todo := MappingsForVariant(key);
      MappingsAreMentions(key);
      ForgetNone(c, key);
      ghost var done := {};
      while todo != {}
        invariant done + todo == all && done !! todo && Linked() && OnlyDeletes(old(items), items)
        invariant Staged() == Forget(c, key, done)
        invariant old(used) <= AccountedTotal(c - {key}) ==> used <= AccountedTotal(Staged() - {key})
        invariant AccountedTotal(Staged() - {key}) - used <= AccountedTotal(c - {key}) - old(used)
      {
        var m :| m in todo;
        ForgetStep(c, key, done, m);
        ForgetAccounts(Staged(), key, m, used);
        RemoveVariantFromMapping(m, key);
        todo, done := todo - {m}, done + {m};
      }
      assert done == all;
    }

    /** Deletes the item under `key`: a body also leaves every mapping that lists it. */
    method DeleteItem(key: Key)
      requires Linked()
      modifies this`items, this`groups, this`itemGroups, this`variantMappings, this`used, this`physical
      modifies this`obsoleteFiles, this`lost, p`nextVersion
      ensures Linked() && OnlyDeletes(old(items), items)
      ensures Staged() == Purged(old(Staged()), {key})
      ensures key !in old(Staged()) ==>
                && items == old(items) && used == old(used) && physical == old(physical)
                && obsoleteFiles == old(obsoleteFiles)
      ensures key in old(Staged()) ==>
                key in items && physical == Less(old(physical), Physical(key, old(Staged())[key]))
      ensures key in Bodies(old(Staged())) ==>
                obsoleteFiles == old(obsoleteFiles) + {old(Staged())[key].record.value.path}
      ensures key in old(Staged()) && key !in Bodies(old(Staged())) ==>
                && obsoleteFiles == old(obsoleteFiles)
                && used == Less(Less(old(used), Accounted(key, old(Staged())[key])), Accounted(key, old(Staged())[key]))
      ensures lost == old(lost) + (if key in old(Staged()) && key !in Bodies(old(Staged()))
                                   then Accounted(key, old(Staged())[key]) else 0)
      ensures old(used) <= AccountedTotal(old(Staged())) ==> used <= AccountedTotal(Staged())
      ensures Shortage() - lost <= old(Shortage() - lost)
    {
      hide GroupLinks, MappingLinks, TaggedAreLive, View, Entries, Through, Forget, Purged, Total, OnlyDeletes;
      hide Unscheduled;
      hide WellFormed, WellFormedRecord, Mentions, IsMappingKey;
      ghost var c := Staged();
      KindOf(c, key);
      OnlyDeletesSame(items);
      var found := GetItem(key);
      if found.None? {
        PurgeOther(c, key);
        assert c - {key} == c;
        return;
      }
      var item := found.value;
      TotalSplit(c, key, Accounted);
      RemoveItemGroups(key);
      ghost var u := Staged();
      assert u - {key} == c - {key};
      used := Less(used, item.record.accountedSize);
      physical := Less(physical, item.record.physicalSize);
      if item.record.value.Body? {
        obsoleteFiles := obsoleteFiles + {item.record.value.path};
        ForgetAll(c, key);
        ForgetVariant(key);
        ghost var still := GetItem(key);
        OnlyDeletesThen(old(items), items, key, None);
        StageBody(key, None);
      } else {
        PurgeOther(c, key);
        OnlyDeletesThen(old(items), items, key, None);
        StageMapping(key, None);
        lost := lost + item.record.accountedSize;
      }
    }

    /** The bodies this batch has staged. */
    ghost function NewBodies(): set<Key>
      reads this`items, p`items, this`itemGroups, p`itemGroups
    {
      items.Keys * Bodies(Staged())
    }

    lemma StagedSome()
      ensures forall k :: k in items && k in Staged() ==> items[k].Some?
      ensures forall k :: k in NewBodies() <==> k in items && items[k].Some? && items[k].value.record.value.Body?
    {
    }

    /** How far the accounted use is below the sum it stands for. */
    ghost function Shortage(): int
      reads this`items, p`items, this`itemGroups, p`itemGroups, this`used
    {
      AccountedTotal(Staged()) - used
    }

    /** The counters: physical use is exact, accounted use is never too high. */
    ghost predicate Balanced()
      reads this`items, p`items, this`itemGroups, p`itemGroups, this`used, this`physical
    {
      physical == PhysicalTotal(Staged()) && used <= AccountedTotal(Staged())
    }

    /** The overlay consists of the deletion of the keys in d and nothing else. */
    ghost predicate HasPurged(d: set<Key>)
      reads this`items, p`items, this`itemGroups, p`itemGroups, this`groups, p`groups, this`variantMappings
      reads p`variantMappings, this`used, this`physical, this`obsoleteFiles
    {
      && WellFormed(p.Cached()) && Linked() && Balanced()
      && Staged() == Purged(p.Cached(), d)
      && obsoleteFiles == PathsOf(p.Cached(), d)
      && p.items.Keys * d <= items.Keys && OnlyDeletes(map[], items)
    }

    lemma NotSeen(key: Key)
      requires key in p.items && key !in Staged()
      ensures key in items
    {
    }

    /** Deletes one more key of a batch that only deletes. */
    method Purge(key: Key, ghost d: set<Key>)
      requires HasPurged(d)
      modifies this`items, this`groups, this`itemGroups, this`variantMappings, this`used, this`physical
      modifies this`obsoleteFiles, this`lost, p`nextVersion
      ensures HasPurged(d + {key}) && OnlyDeletes(old(items), items)
      ensures key !in old(Staged()) ==> items == old(items)
      ensures lost == old(lost) + (if IsMappingKey(key) && key in Purged(p.Cached(), d)
                                   then Accounted(key, Purged(p.Cached(), d)[key]) else 0)
      ensures Shortage() - lost <= old(Shortage() - lost)
    {
      hide GroupLinks, MappingLinks, TaggedAreLive, View, Entries, Through, Purged, Total, PathsOf, WellFormed;
      hide IsMappingKey;
      KindOf(Staged(), key);
      PurgeStep(p.Cached(), d, key);
      if key in p.items && key !in Staged() {
        NotSeen(key);
      }
      DeleteItem(key);
      assert obsoleteFiles == PathsOf(p.Cached(), d + {key});
      assert Balanced();
      assert p.items.Keys * (d + {key}) <= items.Keys;
    }

    /** The entries popped from the expiry queue, together with those still in it, track the
        provider's items. */
    ghost predicate QueueSplit()
      reads this`poppedExpiry, p`items, p.expirations, p.expirations.entries, poppedExpiry
    {
      && p.expirations.Valid()
      && p.expirations.Elements() !! Members(poppedExpiry)
      && Tracks(p.items, p.expirations.Elements() + Members(poppedExpiry))
      && Distinct(poppedExpiry) && (forall e :: e in poppedExpiry ==> e.index == -1)
    }

    /** Moves the root of the expiry queue to the popped entries. */
    method PopEntry() returns (entry: ExpirationEntry)
      requires QueueSplit() && |p.expirations.entries| > 0
      modifies this`poppedExpiry, p.expirations, p.expirations.Elements()
      ensures QueueSplit() && |p.expirations.entries| < old(|p.expirations.entries|)
      ensures p.expirations.Elements() + Members(poppedExpiry) == old(p.expirations.Elements() + Members(poppedExpiry))
      ensures poppedExpiry == old(poppedExpiry) + [entry] && entry == old(p.expirations.entries[0])
      ensures KeysOf(poppedExpiry) == old(KeysOf(poppedExpiry)) + {entry.key}
      ensures entry.key in p.items && Queued(entry.key, p.items[entry.key], {entry})
      ensures forall e :: e in old(p.expirations.Elements()) ==> entry.at <= e.at
    {
      ghost var queued := p.expirations.Elements() + Members(poppedExpiry);
      entry := p.expirations.Pop();
      poppedExpiry := poppedExpiry + [entry];
      assert p.expirations.Elements() + Members(poppedExpiry) == queued;
      assert Queued(entry.key, p.items[entry.key], queued);
    }

    /** Pops the first entry, which is due, and deletes its item. */
    method SweepOne(now: int)
      requires HasPurged(KeysOf(poppedExpiry)) && QueueSplit()
      requires |p.expirations.entries| > 0 && p.expirations.entries[0].at <= now
      modifies this`items, this`groups, this`itemGroups, this`variantMappings, this`used, this`physical
      modifies this`obsoleteFiles, this`lost, this`poppedExpiry, p`nextVersion
      modifies p.expirations, p.expirations.Elements()
      ensures HasPurged(KeysOf(poppedExpiry)) && QueueSplit()
      ensures p.expirations.Elements() + Members(poppedExpiry) == old(p.expirations.Elements() + Members(poppedExpiry))
      ensures |p.expirations.entries| < old(|p.expirations.entries|)
      ensures |poppedExpiry| == old(|poppedExpiry|) + 1 && poppedExpiry[..old(|poppedExpiry|)] == old(poppedExpiry)
      ensures var e := poppedExpiry[old(|poppedExpiry|)];
              && e.at <= now && (forall f :: f in old(p.expirations.Elements()) ==> e.at <= f.at)
              && e in old(p.expirations.Elements())
              && lost == old(lost) + LostAt(p.Cached(), old(PopOrder(poppedExpiry)), e.key)
              && Shortage() - lost <= old(Shortage() - lost)
    {
      hide GroupLinks, MappingLinks, TaggedAreLive, View, Entries, Through, Purged, Total, PathsOf, WellFormed, Bodies;
      hide PopOrder, KeySet, IsMappingKey, OnlyDeletes;
      ghost var d := KeysOf(poppedExpiry);
      PopOrderKeys(poppedExpiry);
      var entry := PopEntry();
      if entry.key in p.items {
        var item := p.items[entry.key];
        if item.generation == entry.generation && !(item.record.expiresAt.Some? && item.record.expiresAt.value > now) {
          Purge(entry.key, d);
        }
      }
    }

    /** Pops every entry that is due and deletes its item. */
    method StageExpired(now: int)
      requires HasPurged({}) && QueueSplit() && poppedExpiry == [] && lost == 0
      modifies this`items, this`groups, this`itemGroups, this`variantMappings, this`used, this`physical
      modifies this`obsoleteFiles, this`lost, this`poppedExpiry, p`nextVersion
      modifies p.expirations, p.expirations.Elements()
      ensures HasPurged(Due(p.Cached(), now)) && QueueSplit()
      ensures p.expirations.Elements() + Members(poppedExpiry) == old(p.expirations.Elements())
      ensures KeysOf(poppedExpiry) == Due(p.Cached(), now)
      ensures lost == Lost(p.Cached(), PopOrder(poppedExpiry)) && Shortage() <= old(Shortage()) + lost
      ensures SweepOrder(p.Cached(), now, PopOrder(poppedExpiry))
    {
      hide HasPurged, Total, Lost, LostAt, PopOrder, Tracks, SweepOrder, Provider.Cached, HeapOrdered;
      assert KeysOf(poppedExpiry) == {};
      NothingPopped(p.Cached());
      while |p.expirations.entries| > 0 && p.expirations.entries[0].at <= now
        invariant HasPurged(KeysOf(poppedExpiry)) && QueueSplit()
        invariant p.expirations.Elements() + Members(poppedExpiry) == old(p.expirations.Elements())
        invariant forall e :: e in poppedExpiry ==> e.at <= now
        invariant lost == Lost(p.Cached(), PopOrder(poppedExpiry)) && Shortage() <= old(Shortage()) + lost
        invariant Earliest(poppedExpiry, p.expirations.Elements())
        decreases |p.expirations.entries|
      {
        ghost var popped := poppedExpiry;
        SweepOne(now);
        ghost var e := poppedExpiry[|popped|];
        assert poppedExpiry == popped + [e];
        PopOrderPush(popped, e);
        LostStep(p.Cached(), PopOrder(popped), e.key);
      }
      AllDuePopped(now);
      PoppedInOrder(now);
    }

    /** The keys come in the order of their expiry times. */
    lemma PoppedInOrder(now: int)
      requires QueueSplit() && KeysOf(poppedExpiry) == Due(p.Cached(), now)
      requires Earliest(poppedExpiry, p.expirations.Elements())
      ensures SweepOrder(p.Cached(), now, PopOrder(poppedExpiry))
    {
      var queued := p.expirations.Elements() + Members(poppedExpiry);
      PopOrderKeys(poppedExpiry);
      forall i | 0 <= i < |poppedExpiry|
        ensures var e := poppedExpiry[i];
                e.key in p.items && p.items[e.key].expiration == e && p.items[e.key].record.expiresAt == Some(e.at)
      {
        assert poppedExpiry[i] in queued;
        assert Queued(poppedExpiry[i].key, p.items[poppedExpiry[i].key], queued);
      }
    }

    /** Heap order: when the root is not due, nothing in the queue is. */
    lemma AllDuePopped(now: int)
      requires QueueSplit()
      requires |p.expirations.entries| > 0 ==> p.expirations.entries[0].at > now
      requires forall e :: e in poppedExpiry ==> e.at <= now
      ensures KeysOf(poppedExpiry) == Due(p.Cached(), now)
    {
      var entries := p.expirations.entries;
      var queued := p.expirations.Elements() + Members(poppedExpiry);
      forall e | e in entries ensures e.at > now {
        var i :| 0 <= i < |entries| && entries[i] == e;
        RootIsEarliest(entries, |entries|, i);
      }
      forall k | k in p.items ensures k in KeysOf(poppedExpiry) <==> k in Due(p.Cached(), now) {
        assert Queued(k, p.items[k], queued);
      }
      forall e | e in poppedExpiry ensures e.key in p.items {
        assert e in queued;
      }
    }

    /** Undoes StageExpired: the popped entries go back into the queue. */
    method RestoreExpiry()
      requires QueueSplit()
      modifies p.expirations, p.expirations.Elements(), poppedExpiry
      ensures p.expirations.Valid() && Tracks(p.items, p.expirations.Elements())
      ensures p.expirations.Elements() == old(p.expirations.Elements()) + Members(poppedExpiry)
    {
      ghost var queued := p.expirations.Elements() + Members(poppedExpiry);
      for i := 0 to |poppedExpiry|
        invariant p.expirations.Valid()
        invariant p.expirations.Elements() == old(p.expirations.Elements()) + Members(poppedExpiry[..i])
      {
        var entry := poppedExpiry[i];
        assert entry in queued && Queued(entry.key, p.items[entry.key], queued);
        assert poppedExpiry[..i + 1] == poppedExpiry[..i] + [entry];
        if entry.key in p.items && p.items[entry.key].generation == entry.generation {
          p.expirations.Push(entry);
        }
      }
      assert poppedExpiry[..|poppedExpiry|] == poppedExpiry;
    }

    /** Chooses what to evict: the shortest run of unprotected live bodies, least recently used
        first, that brings both needs under what is available. */
    method EvictionCandidates(protected: set<Key>, neededAccounted: nat, accountedAvailable: nat, neededPhysical: nat,
                              physicalAvailable: nat)
      returns (candidates: seq<Key>, enough: bool)
      ensures var all := Evictable(p.lru, Staged(), protected);
              var accounted := Less(neededAccounted, accountedAvailable);
              var physical := Less(neededPhysical, physicalAvailable);
              && (enough ==> ShortestFreeing(Staged(), all, candidates, accounted, physical))
              && (!enough ==> candidates == [] && NeverFrees(Staged(), all, accounted, physical))
    {
      hide View, Entries, Through, Evictable, SumOf;
      ghost var c := Staged();
      ghost var all := Evictable(p.lru, c, protected);
      NothingToFree(c, all, protected);
      assert p.lru[..0] == [];
      if neededAccounted <= accountedAvailable && neededPhysical <= physicalAvailable {
        return [], true;
      }
      var requiredAccounted := Less(neededAccounted, accountedAvailable);
      var requiredPhysical := Less(neededPhysical, physicalAvailable);
      var freedAccounted, freedPhysical := 0, 0;
      candidates := [];
      for i := 0 to |p.lru|
        invariant candidates == Evictable(p.lru[..i], c, protected)
        invariant freedAccounted == SumOf(c, candidates, Accounted) && freedPhysical == SumOf(c, candidates, Physical)
        invariant forall n :: 0 <= n <= |candidates| ==> !Frees(c, candidates[..n], requiredAccounted, requiredPhysical)
      {
        var key := p.lru[i];
        EvictableStep(p.lru, c, protected, i);
        if key in protected {
          continue;
        }
        var found := GetItem(key);
        if found.None? || found.value.record.value.Mapping? {
          continue;
        }
        FreesStep(c, candidates, key, requiredAccounted, requiredPhysical);
        candidates := candidates + [key];
        freedAccounted := freedAccounted + found.value.record.accountedSize;
        freedPhysical := freedPhysical + found.value.record.physicalSize;
        if freedAccounted >= requiredAccounted && freedPhysical >= requiredPhysical {
          assert forall n :: 0 <= n < |candidates| ==> all[..n] == candidates[..n];
          return candidates, true;
        }
      }
      assert p.lru[..|p.lru|] == p.lru;
      return [], false;
    }
  }
}
