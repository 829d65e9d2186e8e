/** The cache index as a mathematical object: which records are live under which key, with
    which surrogate tags, what they cost, and what is left after a set of keys is purged. */
module CacheModel {
  import opened Common


  type Key = string
  type Group = string
  type Digest = string

  /** A checksum stands for the bytes it was computed from, so it fixes their number. */
  function LengthOf(checksum: Digest): nat { |checksum| }

  /** Body files are named after the key and the checksum of their bytes; the hash of the key
      in the real name stands for the key itself. */
  datatype Path = BodyFile(key: Key, checksum: Digest)

  /** One variant inside a mapping record: its freshness window and its encoded text. */
  datatype KeyIndex = KeyIndex(storedAt: int, freshUntil: int, staleUntil: int, json: string)

  datatype Value = Body(path: Path) | Mapping(entries: map<Key, KeyIndex>)

  datatype Record = Record(
    value: Value,
    expiresAt: Option<int>,
    lastAccess: int,
    compressedSize: nat,
    physicalSize: nat,
    accountedSize: nat,
    checksum: Digest)

  datatype Entry = Entry(record: Record, tags: set<Group>)

  type Cache = map<Key, Entry>

  const MAPPING_PREFIX: string := "IDX_"
  const ITEM_INDEX_OVERHEAD: nat := 512

  predicate IsMappingKey(key: Key)
  {
    MAPPING_PREFIX <= key
  }

  function MappingKey(baseKey: string): (key: Key)
    ensures IsMappingKey(key)
  {
    MAPPING_PREFIX + baseKey
  }

  // ----- sums over maps ---------------------------------------------------------------------

  ghost function Total<V>(m: map<Key, V>, size: (Key, V) -> nat): nat
  {
    if m.Keys == {} then 0
    else
      var k :| k in m;
      size(k, m[k]) + Total(m - {k}, size)
  }

  lemma {:induction false} TotalSplit<V>(m: map<Key, V>, k: Key, size: (Key, V) -> nat)
    requires k in m
    ensures Total(m, size) == size(k, m[k]) + Total(m - {k}, size)
    decreases |m|
  {
    var c :| c in m && Total(m, size) == size(c, m[c]) + Total(m - {c}, size);
    if c != k {
      TotalSplit(m - {c}, k, size);
      TotalSplit(m - {k}, c, size);
      assert m - {c} - {k} == m - {k} - {c};
    }
  }

  lemma TotalUpdate<V>(m: map<Key, V>, k: Key, v: V, size: (Key, V) -> nat)
    ensures Total(m[k := v], size) == Total(m - {k}, size) + size(k, v)
  {
    TotalSplit(m[k := v], k, size);
    assert m[k := v] - {k} == m - {k};
  }

  /** A map with fewer keys and pointwise smaller values has a smaller total. */
  lemma {:induction false} TotalMonotone<V>(m: map<Key, V>, n: map<Key, V>, size: (Key, V) -> nat)
    requires m.Keys <= n.Keys
    requires forall k :: k in m ==> size(k, m[k]) <= size(k, n[k])
    ensures Total(m, size) <= Total(n, size)
    decreases |m|
  {
    if m.Keys != {} {
      var k :| k in m;
      TotalSplit(m, k, size);
      TotalSplit(n, k, size);
      TotalMonotone(m - {k}, n - {k}, size);
    }
  }

  /** Values of size zero can be left out of a total. */
  lemma {:induction false} TotalSkipsFree<V>(m: map<Key, V>, n: map<Key, V>, size: (Key, V) -> nat)
    requires m.Keys <= n.Keys
    requires forall k :: k in m ==> size(k, m[k]) == size(k, n[k])
    requires forall k :: k in n && k !in m ==> size(k, n[k]) == 0
    ensures Total(m, size) == Total(n, size)
    decreases |n|
  {
    if m.Keys == n.Keys {
      TotalMonotone(m, n, size);
      TotalMonotone(n, m, size);
    } else {
      var k :| k in n && k !in m;
      TotalSplit(n, k, size);
      TotalSkipsFree(m, n - {k}, size);
    }
  }

  // ----- what a record costs ----------------------------------------------------------------

  /** Length of one `"key":{...},` member of the encoded mapping object. */
  function MemberSize(key: Key, index: KeyIndex): nat
  {
    |key| + |index.json| + 4
  }

  /** Length of the encoded mapping `{"mapping":{...}}`. */
  ghost function EncodedSize(entries: map<Key, KeyIndex>): nat
  {
    Less(14 + Total(entries, MemberSize), if entries.Keys == {} then 0 else 1)
  }

  lemma EncodedSizeShrinks(entries: map<Key, KeyIndex>, gone: set<Key>)
    ensures EncodedSize(entries - gone) <= EncodedSize(entries)
  {
    TotalMonotone(entries - gone, entries, MemberSize);
    if (entries - gone).Keys == {} && entries.Keys != {} {
      var k :| k in entries;
      TotalSplit(entries, k, MemberSize);
    }
  }

  /** The members of the encoded mapping object in the order of `keys`, each followed by a comma. */
  function EncodedMembers(keys: seq<Key>, entries: map<Key, KeyIndex>): string
    requires forall k :: k in keys ==> k in entries
  {
    if keys == [] then ""
    else
      assert keys[0] in keys;
      "\"" + keys[0] + "\":" + entries[keys[0]].json + "," + EncodedMembers(keys[1..], entries)
  }

  lemma {:induction false} EncodedMembersLength(keys: seq<Key>, entries: map<Key, KeyIndex>)
    requires Distinct(keys) && forall k :: k in keys <==> k in entries
    ensures |EncodedMembers(keys, entries)| == Total(entries, MemberSize)
  {
    if keys != [] {
      var k := keys[0];
      assert k in keys;
      TotalSplit(entries, k, MemberSize);
      forall x ensures x in keys[1..] <==> x in entries - {k} {
        assert x in keys <==> x == k || x in keys[1..];
      }
      EncodedMembersLength(keys[1..], entries - {k});
      SameMembers(keys[1..], entries - {k}, entries);
    }
  }

  lemma {:induction false} SameMembers(keys: seq<Key>, a: map<Key, KeyIndex>, b: map<Key, KeyIndex>)
    requires forall k :: k in keys ==> k in a && k in b && a[k] == b[k]
    ensures EncodedMembers(keys, a) == EncodedMembers(keys, b)
  {
    if keys != [] {
      assert keys[0] in keys;
      SameMembers(keys[1..], a, b);
    }
  }

  /** What a mapping record counts for is the fixed overhead, the key, and the length of its text, in
      whatever order the variants are written. */
  lemma MappingSizeMeaning(key: Key, keys: seq<Key>, entries: map<Key, KeyIndex>)
    requires Distinct(keys) && entries.Keys != {} && forall k :: k in keys <==> k in entries
    ensures var members := EncodedMembers(keys, entries);
            |members| > 0 && MappingSize(key, entries) ==
              512 + |key| + |"{\"mapping\":{" + members[..|members| - 1] + "}}"|
  {
    EncodedMembersLength(keys, entries);
    var k :| k in entries;
    TotalSplit(entries, k, MemberSize);
    assert keys != [];
  }

  ghost function MappingSize(key: Key, entries: map<Key, KeyIndex>): nat
  {
    ITEM_INDEX_OVERHEAD + |key| + EncodedSize(entries)
  }

  function BodySize(key: Key, pathLength: nat, physicalSize: nat): nat
  {
    ITEM_INDEX_OVERHEAD + |key| + pathLength + physicalSize
  }

  function Physical(key: Key, entry: Entry): nat { entry.record.physicalSize }
  function Accounted(key: Key, entry: Entry): nat { entry.record.accountedSize }

  ghost function PhysicalTotal(c: Cache): nat { Total(c, Physical) }
  ghost function AccountedTotal(c: Cache): nat { Total(c, Accounted) }

  ghost function AccountedIn(c: Cache, key: Key): nat
  {
    if key in c then Accounted(key, c[key]) else 0
  }

  // ----- well-formed caches -----------------------------------------------------------------

  predicate IsBody(e: Entry) { e.record.value.Body? }

  ghost predicate WellFormedRecord(key: Key, r: Record)
  {
    match r.value
    case Body(path) =>
      !IsMappingKey(key) && path == BodyFile(key, r.checksum) && r.compressedSize == LengthOf(r.checksum)
    case Mapping(entries) =>
      && IsMappingKey(key) && entries.Keys != {}
      && (forall v :: v in entries ==> !IsMappingKey(v))
      && r.compressedSize == 0 && r.checksum == ""
      && r.physicalSize == 0 && r.accountedSize == MappingSize(key, entries)
  }

  ghost predicate WellFormed(c: Cache)
  {
    forall k :: k in c ==> WellFormedRecord(k, c[k].record)
  }

  lemma KindOf(c: Cache, k: Key)
    requires WellFormed(c)
    ensures k in c ==> (IsBody(c[k]) <==> !IsMappingKey(k))
  {
    assert k in c ==> WellFormedRecord(k, c[k].record);
  }

  ghost function Bodies(c: Cache): set<Key> { set k | k in c && IsBody(c[k]) }

  /** The mapping records that list variant v. */
  ghost function Mentions(c: Cache, v: Key): set<Key>
  {
    set m | m in c && Lists(c[m], v)
  }

  predicate Lists(e: Entry, v: Key)
  {
    e.record.value.Mapping? && v in e.record.value.entries
  }

  // ----- purging ----------------------------------------------------------------------------

  /** A mapping record without the variants in `gone`. */
  ghost function Trim(key: Key, e: Entry, gone: set<Key>): Entry
  {
    if IsBody(e) || e.record.value.entries.Keys !! gone then e
    else
      var entries := e.record.value.entries - gone;
      e.(record := e.record.(value := Mapping(entries), accountedSize := MappingSize(key, entries)))
  }

  ghost predicate Emptied(e: Entry, gone: set<Key>)
  {
    !IsBody(e) && e.record.value.entries.Keys <= gone
  }

  /** What remains of a cache when the keys in d are deleted, in any order: the bodies among
      them also vanish from every mapping, and a mapping goes with its last variant. */
  ghost function Purged(c: Cache, d: set<Key>): Cache
  {
    var gone := Bodies(c) * d;
    map k | k in c && k !in d && !Emptied(c[k], gone) :: Trim(k, c[k], gone)
  }

  lemma PurgedNothing(c: Cache)
    requires WellFormed(c)
    ensures Purged(c, {}) == c
  {
  }

  lemma PurgedMissing(c: Cache, d: set<Key>)
    requires WellFormed(c) && c.Keys !! d
    ensures Purged(c, d) == c
  {
    PurgedNothing(c);
    assert Bodies(c) * d == Bodies(c) * {};
  }

  lemma TrimTwice(key: Key, e: Entry, g: set<Key>, h: set<Key>)
    ensures Trim(key, Trim(key, e, g), h) == Trim(key, e, g + h)
  {
    if !IsBody(e) {
      assert e.record.value.entries - g - h == e.record.value.entries - (g + h);
      if e.record.value.entries.Keys !! g {
        assert e.record.value.entries - (g + h) == e.record.value.entries - h;
      }
      if (e.record.value.entries - g).Keys !! h {
        assert e.record.value.entries - (g + h) == e.record.value.entries - g;
      }
    }
  }

  /** Purging is additive, so the order of deletions does not matter. */
  lemma PurgedTwice(c: Cache, d: set<Key>, e: set<Key>)
    requires WellFormed(c)
    ensures Purged(Purged(c, d), e) == Purged(c, d + e)
  {
    var g, h := Bodies(c) * d, Bodies(Purged(c, d)) * e;
    assert g + h == Bodies(c) * (d + e);
    forall k | k in c ensures Trim(k, Trim(k, c[k], g), h) == Trim(k, c[k], g + h) {
      TrimTwice(k, c[k], g, h);
    }
  }

  lemma PurgedWellFormed(c: Cache, d: set<Key>)
    requires WellFormed(c)
    ensures WellFormed(Purged(c, d))
    ensures Bodies(Purged(c, d)) == Bodies(c) - d
  {
    var gone := Bodies(c) * d;
    forall k | k in Purged(c, d) ensures WellFormedRecord(k, Purged(c, d)[k].record) {
      if !IsBody(c[k]) {
        var v :| v in c[k].record.value.entries && v !in gone;
        assert v in (c[k].record.value.entries - gone).Keys;
      }
    }
  }

  /** A purge frees at least the accounted size of each body it deletes. */
  lemma PurgedAccounted(c: Cache, d: set<Key>, kept: set<Key>)
    requires WellFormed(c)
    ensures AccountedTotal(Purged(c, d) - kept) <= AccountedTotal(c - d - kept)
  {
    var gone := Bodies(c) * d;
    forall k | k in Purged(c, d) ensures Accounted(k, Purged(c, d)[k]) <= Accounted(k, c[k]) {
      if !IsBody(c[k]) {
        EncodedSizeShrinks(c[k].record.value.entries, gone);
      }
    }
    TotalMonotone(Purged(c, d) - kept, c - d - kept, Accounted);
  }

  lemma PurgedPhysical(c: Cache, d: set<Key>)
    requires WellFormed(c)
    ensures PhysicalTotal(Purged(c, d)) == PhysicalTotal(c - d)
  {
    TotalSkipsFree(Purged(c, d), c - d, Physical);
  }

  /** Variant v removed from the mapping records in ms only. */
  ghost function Forget(c: Cache, v: Key, ms: set<Key>): Cache
  {
    map k | k in c && !(k in ms && Emptied(c[k], {v})) :: if k in ms then Trim(k, c[k], {v}) else c[k]
  }

  lemma ForgetOne(c: Cache, v: Key, m: Key)
    requires WellFormed(c)
    ensures m !in Mentions(c, v) ==> Forget(c, v, {m}) == c
    ensures m in Mentions(c, v) ==>
              var entries := c[m].record.value.entries - {v};
              Forget(c, v, {m}) ==
              if entries.Keys == {} then c - {m} else
              c[m := c[m].(record := c[m].record.(value := Mapping(entries), accountedSize := MappingSize(m, entries)))]
  {
    if m in Mentions(c, v) {
      var listed := c[m].record.value.entries;
      assert (listed - {v}).Keys == listed.Keys - {v};
    }
  }

  lemma ForgetNone(c: Cache, v: Key)
    ensures Forget(c, v, {}) == c
  {
  }

  lemma ForgetStep(c: Cache, v: Key, ms: set<Key>, m: Key)
    requires WellFormed(c) && m in Mentions(c, v) && m !in ms
    ensures Forget(Forget(c, v, ms), v, {m}) == Forget(c, v, ms + {m})
    ensures m in Mentions(Forget(c, v, ms), v) && IsMappingKey(m)
  {
    assert WellFormedRecord(m, c[m].record);
  }

  /** Untagging a body, forgetting it in every mapping that lists it and dropping it purges it. */
  lemma ForgetAll(c: Cache, v: Key)
    requires WellFormed(c) && v in c && IsBody(c[v])
    ensures var u := c[v := c[v].(tags := {})];
            var f := Forget(u, v, Mentions(u, v));
            WellFormed(u) && v in f && f[v].tags == {} && f - {v} == Purged(c, {v}) && u - {v} == c - {v}
  {
    assert Bodies(c) * {v} == {v};
    var u := c[v := c[v].(tags := {})];
    forall k | k in u ensures WellFormedRecord(k, u[k].record) {
      assert u[k].record == c[k].record;
    }
  }

  lemma PurgeOther(c: Cache, k: Key)
    requires WellFormed(c) && k !in Bodies(c)
    ensures Purged(c, {k}) == c - {k}
  {
    assert Bodies(c) * {k} == {};
    forall m | m in c && m != k ensures m in Purged(c, {k}) && Purged(c, {k})[m] == c[m] {
      assert WellFormedRecord(m, c[m].record);
    }
  }

  /** Shrinking or dropping one mapping record moves the accounts by the change in its size. */
  lemma ForgetAccounts(c: Cache, v: Key, m: Key, used: nat)
    requires m in c && m != v
    ensures var c' := Forget(c, v, {m});
            var used' := Less(used, AccountedIn(c, m)) + AccountedIn(c', m);
            && (used <= AccountedTotal(c - {v}) ==> used' <= AccountedTotal(c' - {v}))
            && AccountedTotal(c' - {v}) - used' <= AccountedTotal(c - {v}) - used
  {
    var c' := Forget(c, v, {m});
    TotalSplit(c - {v}, m, Accounted);
    assert c - {v} - {m} == c' - {v} - {m};
    if m in c' {
      TotalSplit(c' - {v}, m, Accounted);
    } else {
      assert c' - {v} == c' - {v} - {m};
    }
  }

  /** The files of those keys in ks that hold a body. */
  ghost function PathsOf(c: Cache, ks: set<Key>): set<Path>
  {
    set k | k in c && k in ks && IsBody(c[k]) :: c[k].record.value.path
  }

  /** One more key purged: the cache, the files that become obsolete and the physical total. */
  lemma PurgeStep(c: Cache, d: set<Key>, k: Key)
    requires WellFormed(c)
    ensures var q := Purged(c, d);
            && WellFormed(q)
            && Purged(q, {k}) == Purged(c, d + {k})
            && PathsOf(c, d + {k}) == PathsOf(c, d) + (if k in Bodies(q) then {q[k].record.value.path} else {})
            && PhysicalTotal(Purged(q, {k})) == Less(PhysicalTotal(q), if k in q then Physical(k, q[k]) else 0)
  {
    var q := Purged(c, d);
    PurgedTwice(c, d, {k});
    PurgedWellFormed(c, d);
    PurgedPhysical(q, {k});
    if k in q {
      TotalSplit(q, k, Physical);
    } else {
      assert q - {k} == q;
    }
    PathsStep(c, d, k);
    assert PathsOf(q, {k}) == if k in Bodies(q) then {q[k].record.value.path} else {};
  }

  lemma PathsStep(c: Cache, d: set<Key>, k: Key)
    requires WellFormed(c)
    ensures PathsOf(c, d + {k}) == PathsOf(c, d) + PathsOf(Purged(c, d), {k})
  {
    var l, r := PathsOf(c, d + {k}), PathsOf(c, d) + PathsOf(Purged(c, d), {k});
    forall f | f in l ensures f in r {
      var x :| x in c && x in d + {k} && IsBody(c[x]) && c[x].record.value.path == f;
      if x !in d {
        assert x in Purged(c, d) && Purged(c, d)[x] == c[x];
      }
    }
    forall f | f in r ensures f in l {
      if f !in PathsOf(c, d) {
        var x :| x in Purged(c, d) && x == k && IsBody(Purged(c, d)[x]) && Purged(c, d)[x].record.value.path == f;
        assert Purged(c, d)[x] == c[x];
      }
    }
  }

  ghost function KeySet(keys: seq<Key>): set<Key> { set k | k in keys }

  lemma KeySetPush(keys: seq<Key>, k: Key)
    ensures KeySet(keys + [k]) == KeySet(keys) + {k}
  {
  }

  /** The keys whose entry expires at or before `now`. */
  ghost function Due(c: Cache, now: int): set<Key>
  {
    set k | k in c && c[k].record.expiresAt.Some? && c[k].record.expiresAt.value <= now
  }

  /** A sweep in order: what is due, each key once, the earliest expiry first. */
  ghost predicate SweepOrder(c: Cache, now: int, order: seq<Key>)
  {
    && Distinct(order) && KeySet(order) == Due(c, now)
    && forall i, j :: 0 <= i < j < |order| && order[i] in Due(c, now) && order[j] in Due(c, now) ==>
                      c[order[i]].record.expiresAt.value <= c[order[j]].record.expiresAt.value
  }

  /** Deleting the keys one after the other meets a mapping record that is still there when its
      own turn comes. */
  ghost predicate ByOwnKey(c: Cache, order: seq<Key>)
  {
    exists i :: 0 <= i < |order| && MeetsMapping(c, order[..i], order[i])
  }

  ghost predicate MeetsMapping(c: Cache, before: seq<Key>, k: Key)
  {
    IsMappingKey(k) && k in Purged(c, KeySet(before))
  }

  lemma ByOwnKeyStep(c: Cache, order: seq<Key>, k: Key)
    ensures ByOwnKey(c, order + [k]) <==> ByOwnKey(c, order) || MeetsMapping(c, order, k)
  {
    hide MeetsMapping;
    var longer := order + [k];
    assert longer[..|order|] == order && longer[|order|] == k;
    forall i | 0 <= i < |order|
      ensures longer[..i] == order[..i] && longer[i] == order[i]
    {
    }
    if ByOwnKey(c, order) {
      var i :| 0 <= i < |order| && MeetsMapping(c, order[..i], order[i]);
      assert MeetsMapping(c, longer[..i], longer[i]);
    }
  }

  /** What the account loses to the mapping records met by their own keys: their sizes. */
  ghost function Lost(c: Cache, order: seq<Key>): nat
  {
    if order == [] then 0
    else
      var n := |order| - 1;
      Lost(c, order[..n]) + LostAt(c, order[..n], order[n])
  }

  ghost function LostAt(c: Cache, before: seq<Key>, k: Key): nat
  {
    if MeetsMapping(c, before, k) then Accounted(k, Purged(c, KeySet(before))[k]) else 0
  }

  lemma LostStep(c: Cache, order: seq<Key>, k: Key)
    ensures Lost(c, order + [k]) == Lost(c, order) + LostAt(c, order, k)
  {
    assert (order + [k])[..|order|] == order;
  }

  /** Something is lost if and only if a mapping record is met by its own key. */
  lemma {:induction false} LostByOwnKey(c: Cache, order: seq<Key>)
    requires WellFormed(c)
    ensures Lost(c, order) > 0 <==> ByOwnKey(c, order)
  {
    hide ByOwnKey;
    if order == [] {
      NoKeys(c);
    } else {
      var n := |order| - 1;
      LostByOwnKey(c, order[..n]);
      ByOwnKeyStep(c, order[..n], order[n]);
      assert order[..n] + [order[n]] == order;
      if MeetsMapping(c, order[..n], order[n]) {
        var q := Purged(c, KeySet(order[..n]));
        PurgedWellFormed(c, KeySet(order[..n]));
        assert WellFormedRecord(order[n], q[order[n]].record);
      }
    }
  }

  lemma NoKeys(c: Cache)
    ensures KeySet([]) == {} && !ByOwnKey(c, []) && Lost(c, []) == 0
  {
  }

  // ----- eviction ---------------------------------------------------------------------------

  ghost function SumOf(c: Cache, ks: seq<Key>, size: (Key, Entry) -> nat): nat
  {
    if ks == [] then 0
    else
      var k := ks[|ks| - 1];
      SumOf(c, ks[..|ks| - 1], size) + if k in c then size(k, c[k]) else 0
  }

  /** The unprotected live bodies, least recently used first. */
  ghost function Evictable(lru: seq<Key>, c: Cache, protected: set<Key>): seq<Key>
  {
    if lru == [] then []
    else
      var k := lru[|lru| - 1];
      Evictable(lru[..|lru| - 1], c, protected) + if k !in protected && k in Bodies(c) then [k] else []
  }

  /** Deleting the bodies ks frees the required amount under both budgets. */
  ghost predicate Frees(c: Cache, ks: seq<Key>, accounted: nat, physical: nat)
  {
    SumOf(c, ks, Accounted) >= accounted && SumOf(c, ks, Physical) >= physical
  }

  /** ks is the shortest prefix of `all` that frees the required amount. */
  ghost predicate ShortestFreeing(c: Cache, all: seq<Key>, ks: seq<Key>, accounted: nat, physical: nat)
  {
    && ks <= all && Frees(c, ks, accounted, physical)
    && forall n :: 0 <= n < |ks| ==> !Frees(c, all[..n], accounted, physical)
  }

  /** No run of these bodies, from the front, frees the required amount. */
  ghost predicate NeverFrees(c: Cache, all: seq<Key>, accounted: nat, physical: nat)
  {
    forall n :: 0 <= n <= |all| ==> !Frees(c, all[..n], accounted, physical)
  }

  /** The shortest prefix of `all` with at least n keys that frees the required amount, or all of it. */
  ghost function Victims(c: Cache, all: seq<Key>, accounted: nat, physical: nat, n: nat): seq<Key>
    requires n <= |all|
    decreases |all| - n
  {
    if n == |all| || Frees(c, all[..n], accounted, physical) then all[..n]
    else Victims(c, all, accounted, physical, n + 1)
  }

  /** There is only one shortest prefix, and it can be found from the front. */
  lemma {:induction false} VictimsAreShortest(c: Cache, all: seq<Key>, ks: seq<Key>, accounted: nat, physical: nat,
                                              n: nat)
    requires ShortestFreeing(c, all, ks, accounted, physical) && n <= |ks|
    ensures ks == Victims(c, all, accounted, physical, n)
    decreases |all| - n
  {
    if n < |ks| {
      VictimsAreShortest(c, all, ks, accounted, physical, n + 1);
    } else {
      assert ks == all[..n];
    }
  }

  lemma {:induction false} EvictablePrefix(lru: seq<Key>, c: Cache, protected: set<Key>, n: nat)
    requires n <= |lru|
    ensures Evictable(lru[..n], c, protected) <= Evictable(lru, c, protected)
    decreases |lru|
  {
    if n < |lru| {
      EvictablePrefix(lru[..|lru| - 1], c, protected, n);
      assert lru[..|lru| - 1][..n] == lru[..n];
    } else {
      assert lru[..n] == lru;
    }
  }

  /** One more step along the recency list. */
  lemma EvictableStep(lru: seq<Key>, c: Cache, protected: set<Key>, i: nat)
    requires i < |lru|
    ensures Evictable(lru[..i + 1], c, protected) ==
            Evictable(lru[..i], c, protected) + if lru[i] !in protected && lru[i] in Bodies(c) then [lru[i]] else []
    ensures Evictable(lru[..i + 1], c, protected) <= Evictable(lru, c, protected)
  {
    assert lru[..i + 1][..i] == lru[..i];
    EvictablePrefix(lru, c, protected, i + 1);
  }

  lemma NothingToFree(c: Cache, all: seq<Key>, protected: set<Key>)
    ensures SumOf(c, [], Accounted) == 0 && SumOf(c, [], Physical) == 0
    ensures ShortestFreeing(c, all, [], 0, 0)
    ensures Evictable([], c, protected) == []
  {
  }

  /** A longer candidate list frees what one more body occupies. */
  lemma FreesStep(c: Cache, ks: seq<Key>, k: Key, accounted: nat, physical: nat)
    requires k in c
    requires forall n :: 0 <= n <= |ks| ==> !Frees(c, ks[..n], accounted, physical)
    ensures SumOf(c, ks + [k], Accounted) == SumOf(c, ks, Accounted) + c[k].record.accountedSize
    ensures SumOf(c, ks + [k], Physical) == SumOf(c, ks, Physical) + c[k].record.physicalSize
    ensures forall n :: 0 <= n <= |ks| ==> !Frees(c, (ks + [k])[..n], accounted, physical)
    ensures (ks + [k])[..|ks| + 1] == ks + [k]
  {
    assert (ks + [k])[..|ks|] == ks;
    forall n | 0 <= n <= |ks| ensures (ks + [k])[..n] == ks[..n] {
    }
  }

  lemma {:induction false} EvictableMembers(lru: seq<Key>, c: Cache, protected: set<Key>)
    ensures forall k :: k in Evictable(lru, c, protected) ==> k in lru && k in Bodies(c) && k !in protected
    ensures forall i, j :: 0 <= i < j < |Evictable(lru, c, protected)| && Distinct(lru) ==>
                           Evictable(lru, c, protected)[i] != Evictable(lru, c, protected)[j]
  {
    if lru != [] {
      EvictableMembers(lru[..|lru| - 1], c, protected);
    }
  }

  /** Deleting distinct bodies removes the sum of their sizes from the total. */
  lemma {:induction false} SumIsTotal(c: Cache, ks: seq<Key>, size: (Key, Entry) -> nat)
    requires Distinct(ks) && forall k :: k in ks ==> k in c
    ensures Total(c, size) == SumOf(c, ks, size) + Total(c - (set k | k in ks), size)
  {
    if ks == [] {
      assert c - (set k | k in ks) == c;
    } else {
      var n := |ks| - 1;
      var front := ks[..n];
      SumIsTotal(c, front, size);
      var rest := c - (set k | k in front);
      TotalSplit(rest, ks[n], size);
      assert rest - {ks[n]} == c - (set k | k in ks);
    }
  }
}
