/** What the closed forms of the operations mean for the cache. */
module Consequences {
  import opened Common
  import opened CacheModel
  import opened Admission

  /** A sweep is exact: nothing that is due survives, every other body is untouched, and another
      mapping goes exactly when all of its variants are due bodies. */
  lemma SweepIsExact(c: Cache, now: int)
    requires WellFormed(c)
    ensures var q := Purged(c, Due(c, now));
            && Due(q, now) == {}
            && (forall k :: k in Bodies(c) && k !in Due(c, now) ==> k in q && q[k] == c[k])
            && (forall m :: m in c && !IsBody(c[m]) && m !in Due(c, now) ==>
                  (m !in q <==> c[m].record.value.entries.Keys <= Bodies(c) * Due(c, now)))
            && (forall m :: m in q && !IsBody(q[m]) ==> q[m].record.value.entries.Keys !! Bodies(c) * Due(c, now))
  {
    var gone := Bodies(c) * Due(c, now);
    forall m | m in c && !IsBody(c[m]) ensures (c[m].record.value.entries - gone).Keys !! gone {
    }
  }

  ghost predicate ExpiresBefore(c: Cache, k: Key, l: Key)
  {
    && k in c && l in c && c[k].record.expiresAt.Some?
    && (c[l].record.expiresAt.None? || c[k].record.expiresAt.value < c[l].record.expiresAt.value)
  }

  /** A sweep meets a due mapping record under its own key unless all of its variants are bodies
      swept before it: never when they all expire before it, always when one of them is no live
      body or expires after it. For equal expiries the order of the queue decides. */
  lemma SweepMeetsMapping(c: Cache, now: int, order: seq<Key>, i: nat)
    requires WellFormed(c) && SweepOrder(c, now, order) && i < |order| && IsMappingKey(order[i])
    ensures var m := order[i];
            var met := MeetsMapping(c, order[..i], m);
            && (met <==> exists v :: v in ListedIn(c, m) && v !in Bodies(c) * KeySet(order[..i]))
            && ((forall v | v in ListedIn(c, m) :: v in Bodies(c) && ExpiresBefore(c, v, m)) ==> !met)
            && ((exists v :: v in ListedIn(c, m) && (v !in Bodies(c) || ExpiresBefore(c, m, v))) ==> met)
  {
    var m := order[i];
    assert m in KeySet(order);
    KindOf(c, m);
    forall v | v in Bodies(c) && ExpiresBefore(c, v, m) ensures v in KeySet(order[..i]) {
      assert v in KeySet(order);
      var j :| 0 <= j < |order| && order[j] == v;
      assert order[..i][j] == v;
    }
    forall v | v in Bodies(c) && ExpiresBefore(c, m, v) ensures v !in KeySet(order[..i]) {
      forall j | 0 <= j < i ensures order[j] != v {
        assert order[j] in KeySet(order);
      }
    }
  }

  /** Deleting a mapping record by its own key takes its size off twice. The account is then never
      too high, and it is still exact if and only if nothing else is accounted for. */
  lemma MappingDeletedByKey(c: Cache, m: Key, used: nat)
    requires WellFormed(c) && m in c && IsMappingKey(m) && used <= AccountedTotal(c)
    ensures var size := Accounted(m, c[m]);
            var left := Less(Less(used, size), size);
            && left <= AccountedTotal(Purged(c, {m}))
            && (used == AccountedTotal(c) ==>
                  (left == AccountedTotal(Purged(c, {m})) <==> AccountedTotal(Purged(c, {m})) == 0))
  {
    KindOf(c, m);
    PurgeOther(c, m);
    TotalSplit(c, m, Accounted);
    assert WellFormedRecord(m, c[m].record);
  }

  /** Every variant that the mapping lists is a live body. */
  ghost predicate NoDangling(c: Cache, m: Key)
  {
    m in c && !IsBody(c[m]) ==> c[m].record.value.entries.Keys <= Bodies(c)
  }

  /** The new variant list is computed before the evictions of the same write: after an accepted
      write the mapping lists only live bodies if and only if every sibling listed before it was a
      live body and none of them is among the victims, which the state before the write determines. */
  lemma DanglingSiblings(a: Stage, b: Stage, w: PendingWrite, evicted: seq<Key>, lru: seq<Key>, stale: nat,
                         pathLength: nat, budget: Budget)
    requires Admits(a, b, w, Stored, evicted, lru, stale, pathLength, budget)
    requires WellFormed(a.cache) && WellFormedWrite(w)
    ensures var m := MappingKey(w.baseKey);
            NoDangling(b.cache, m) <==>
              ListedIn(a.cache, m).Keys - {w.variedKey}
              <= Bodies(a.cache) - KeySet(VictimsOf(a, w, lru, stale, pathLength, budget))
  {
    hide AccountedNeed, PhysicalNeed, FitsAlone, Encodable, Evictable, Frees, Victims;
    AdmitsUnique(a, b, w, Stored, evicted, b, Stored, evicted, lru, stale, pathLength, budget);
    VictimsUnprotected(a, w, lru, evicted);
    AfterEvicting(a.cache, w, stale, pathLength, KeySet(evicted));
  }

  lemma VictimsUnprotected(a: Stage, w: PendingWrite, lru: seq<Key>, evicted: seq<Key>)
    requires evicted <= Evictable(lru, a.cache, a.accepted + {w.variedKey})
    ensures KeySet(evicted) <= Bodies(a.cache) && w.variedKey !in KeySet(evicted)
  {
    var all := Evictable(lru, a.cache, a.accepted + {w.variedKey});
    EvictableMembers(lru, a.cache, a.accepted + {w.variedKey});
    assert forall i :: 0 <= i < |evicted| ==> evicted[i] == all[i];
  }

  lemma AfterEvicting(c: Cache, w: PendingWrite, stale: nat, pathLength: nat, evicted: set<Key>)
    requires WellFormed(c) && WellFormedWrite(w) && evicted <= Bodies(c) && w.variedKey !in evicted
    ensures var m := MappingKey(w.baseKey);
            NoDangling(AfterWrite(c, w, stale, pathLength, evicted), m) <==>
              ListedIn(c, m).Keys - {w.variedKey} <= Bodies(c) - evicted
  {
    var m, v := MappingKey(w.baseKey), w.variedKey;
    var after := AfterWrite(c, w, stale, pathLength, evicted);
    KindOf(c, m);
    PurgedWellFormed(c, evicted);
    assert Bodies(after) == Bodies(c) - evicted + {v} by {
      forall k ensures k in Bodies(after) <==> k in Bodies(Purged(c, evicted)) + {v} {
        assert k == m ==> k !in Bodies(Purged(c, evicted));
      }
    }
    assert after[m].record.value.entries.Keys == ListedIn(c, m).Keys + {v};
  }

  // ----- inputs -----------------------------------------------------------------------------

  const EXAMPLE_BODY := Record(Body(BodyFile("v1", "x")), Some(10), 0, 1, 4096, 5000, "x")
  const EXAMPLE_LIST: map<Key, KeyIndex> := map["v1" := KeyIndex(0, 10, 10, "{}")]

  /** A cache with one body of one block and the mapping that lists it. */
  ghost function ExampleCache(): (c: Cache)
    ensures WellFormed(c) && Bodies(c) == {"v1"} && MappingKey("b") in c
    ensures ListedIn(c, MappingKey("b")).Keys == {"v1"}
  {
    var m := MappingKey("b");
    assert "v1"[0] == 'v';
    assert "v1" in EXAMPLE_LIST;
    var mapping := Record(Mapping(EXAMPLE_LIST), Some(10), 0, 0, 0, MappingSize(m, EXAMPLE_LIST), "");
    var c: Cache := map["v1" := Entry(EXAMPLE_BODY, {}), m := Entry(mapping, {})];
    assert WellFormedRecord("v1", c["v1"].record) && WellFormedRecord(m, c[m].record);
    c
  }

  lemma ExampleTotals()
    ensures PhysicalTotal(ExampleCache()) == 4096 && AccountedTotal(Purged(ExampleCache(), {MappingKey("b")})) == 5000
  {
    var c, m := ExampleCache(), MappingKey("b");
    assert c.Keys == {"v1", m} && "v1" != m;
    TotalSplit(c, "v1", Physical);
    TotalSplit(c - {"v1"}, m, Physical);
    assert (c - {"v1"} - {m}).Keys == {};
    KindOf(c, m);
    PurgeOther(c, m);
    TotalSplit(c - {m}, "v1", Accounted);
    assert (c - {m} - {"v1"}).Keys == {};
  }

  /** Deleting the only mapping of a cache by its own key leaves an account below the sum. */
  lemma TooSmallExample()
    ensures var c, m := ExampleCache(), MappingKey("b");
            var size := Accounted(m, c[m]);
            Less(Less(AccountedTotal(c), size), size) < AccountedTotal(Purged(c, {m}))
  {
    ExampleTotals();
    assert IsMappingKey(MappingKey("b"));
    MappingDeletedByKey(ExampleCache(), MappingKey("b"), AccountedTotal(ExampleCache()));
  }

  /** One more variant for the resource, as large as the budget. */
  const EXAMPLE_WRITE := PendingWrite("b", "v2", 1, 4096, "y", [], 10, "{}", 0)

  ghost function ExampleStage(): Stage
  {
    Stage(ExampleCache(), AccountedTotal(ExampleCache()), PhysicalTotal(ExampleCache()), {})
  }

  /** The accounted budget is ample; there is room for one block. */
  ghost function ExampleBudget(): Budget
  {
    Budget(AccountedNeed(ExampleStage(), EXAMPLE_WRITE, 0, 0), 4096)
  }

  /** The write is accepted, evicts its only sibling, and its mapping still lists it. */
  lemma DanglingExample()
    ensures var a, w, budget := ExampleStage(), EXAMPLE_WRITE, ExampleBudget();
            var after := AfterWrite(a.cache, w, 0, 0, {"v1"});
            var b := Stage(after, AccountedTotal(after), PhysicalTotal(after), {"v2"});
            && Admits(a, b, w, Stored, ["v1"], ["v1"], 0, 0, budget)
            && NoDangling(a.cache, MappingKey("b")) && !NoDangling(after, MappingKey("b"))
  {
    hide AccountedNeed, PhysicalNeed, FitsAlone, Encodable, Updated, Evictable, ShortestFreeing, AfterWrite,
         ExampleCache, ExampleBudget, Purged, Total;
    var a, w, budget := ExampleStage(), EXAMPLE_WRITE, ExampleBudget();
    ExampleNeeds();
    ExampleEncodable();
    ExampleVictims(Less(PhysicalNeed(a, w), budget.physicalAvailable));
    assert KeySet(["v1"]) == {"v1"};
    assert "v2"[0] == 'v' && WellFormedWrite(w);
    assert a.accepted + {w.variedKey} == {"v2"};
    AfterEvicting(a.cache, w, 0, 0, {"v1"});
    assert "v1" in ListedIn(a.cache, MappingKey("b")).Keys - {"v2"};
  }

  lemma ExampleVictims(physical: nat)
    requires physical == 4096
    ensures ShortestFreeing(ExampleCache(), Evictable(["v1"], ExampleCache(), {"v2"}), ["v1"], 0, physical)
  {
    var c := ExampleCache();
    assert ["v1"][..0] == [];
    assert Evictable([], c, {"v2"}) == [];
    assert Evictable(["v1"], c, {"v2"}) == ["v1"];
    assert SumOf(c, [], Physical) == 0;
    assert SumOf(c, ["v1"], Physical) == 4096;
  }

  lemma ExampleEncodable()
    ensures Encodable(Updated(ExampleCache(), EXAMPLE_WRITE, 0))
  {
    hide MappingSize, Total;
  }

  lemma ExampleNeeds()
    ensures var a, w, budget := ExampleStage(), EXAMPLE_WRITE, ExampleBudget();
            && FitsAlone(a, w, 0, 0, budget) && AccountedNeed(a, w, 0, 0) == budget.accountedAvailable
            && PhysicalNeed(a, w) == budget.physicalAvailable + 4096
  {
    hide Purged, Total, MappingRecord, BodyRecord, ExampleCache, AccountedIn;
    ExampleTotals();
    NoSecondVariant();
  }

  lemma NoSecondVariant()
    ensures "v2" !in ExampleCache()
  {
    hide MappingSize, Total;
    assert "v2"[0] == 'v' && MappingKey("b")[0] == 'I';
  }
}
