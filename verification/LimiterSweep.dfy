/** The limiter next to the same one without its periodic sweep: when the sweep cannot be noticed. */
module LimiterSweep {
  import opened Common
  import opened RateLimiter

  /** A swept table next to one that is not: what it lacks is long over and older than all it has. */
  ghost predicate Lags(entries: map<Key, Counter>, plain: map<Key, Counter>, last: Time, rule: Rule)
  {
    && |plain| <= MAX_KEYS && entries.Keys <= plain.Keys
    && (forall k :: k in entries ==> entries[k] == plain[k])
    && (forall k :: k in plain ==> plain[k].windowStart <= plain[k].lastSeen <= last)
    && (forall k :: k in plain && k !in entries ==> Stale(plain[k], last, rule))
    && (forall k, l :: k in plain && k !in entries && l in entries ==> plain[k].lastSeen < entries[l].lastSeen)
  }

  /** The table without sweep finds the same counter, or one that a request replaces. */
  lemma SameAnswer(entries: map<Key, Counter>, plain: map<Key, Counter>, last: Time, rule: Rule, k: Key, now: Time)
    requires Lags(entries, plain, last, rule) && last <= now && rule.window > 0
    ensures Admits(Lookup(entries, k), now, rule) == Admits(Lookup(plain, k), now, rule)
    ensures After(Lookup(entries, k), now, rule) == After(Lookup(plain, k), now, rule)
  {
  }

  lemma MissingOne(a: set<Key>, b: set<Key>)
    requires |a| < |b|
    ensures exists x :: x in b && x !in a
  {
    if b <= a {
      Fewer(b, a);
    }
  }

  // ----- which key the table without sweep drops --------------------------------------------

  /** After the empty key the search starts anew. */
  lemma {:induction false} PickAnew(table: map<Key, Counter>, front: seq<Key>, rest: seq<Key>)
    requires (forall k :: k in front + rest ==> k in table) && Pick(table, front) == ""
    ensures Pick(table, front + rest) == Pick(table, rest)
  {
    if rest == [] {
      assert front + rest == front;
    } else {
      var n := |rest| - 1;
      assert (front + rest)[..|front| + n] == front + rest[..n];
      assert forall k :: k in front + rest[..n] ==> k in front + rest;
      PickAnew(table, front, rest[..n]);
    }
  }

  /** Behind the empty key there is nothing, or a key that was swept. */
  ghost predicate SweptBehind(entries: map<Key, Counter>, order: seq<Key>)
  {
    forall i :: 0 <= i < |order| && order[i] == "" ==>
                  i == |order| - 1 || exists j :: i < j < |order| && order[j] !in entries
  }

  /** Where only the table without sweep is full, it drops a key that was swept if and only if the
      empty key is not strictly the oldest, or comes last, or has a swept key behind it. */
  lemma DropsSwept(entries: map<Key, Counter>, plain: map<Key, Counter>, last: Time, rule: Rule, order: seq<Key>)
    requires Lags(entries, plain, last, rule) && |entries| < |plain| && Enumerates(order, plain.Keys)
    ensures Pick(plain, order) in plain
    ensures Pick(plain, order) !in entries <==> (EmptyFirst(plain, plain.Keys) ==> SweptBehind(entries, order))
  {
    hide Pick;
    MissingOne(entries.Keys, plain.Keys);
    var swept :| swept in plain && swept !in entries;
    assert Members(order) == plain.Keys && swept in Members(order);
    PickSeenFirst(plain, order);
    if EmptyFirst(plain, plain.Keys) {
      assert "" in Members(order);
      var i :| 0 <= i < |order| && order[i] == "";
      EmptyPassed(entries, plain, last, rule, order, i);
    }
  }

  lemma EmptyPassed(entries: map<Key, Counter>, plain: map<Key, Counter>, last: Time, rule: Rule, order: seq<Key>,
                    i: nat)
    requires Lags(entries, plain, last, rule) && |entries| < |plain| && Enumerates(order, plain.Keys)
    requires EmptyFirst(plain, plain.Keys) && i < |order| && order[i] == ""
    ensures "" !in entries
    ensures Pick(plain, order) !in entries <==> SweptBehind(entries, order)
  {
    hide Pick;
    MissingOne(entries.Keys, plain.Keys);
    var front, rest := order[..i + 1], order[i + 1..];
    assert order == front + rest && front[i] == "";
    EmptyEnds(plain, order, i);
    PickAnew(plain, front, rest);
    if rest == [] {
      assert Pick(plain, rest) == "" by { PickNothing(plain); }
    } else {
      RestPicked(entries, plain, last, rule, order, i);
    }
    forall j | 0 <= j < |order| && order[j] == "" ensures j == i {
    }
  }

  lemma PickNothing(table: map<Key, Counter>)
    ensures Pick(table, []) == ""
  {
  }

  lemma EmptyEnds(plain: map<Key, Counter>, order: seq<Key>, i: nat)
    requires Enumerates(order, plain.Keys) && EmptyFirst(plain, plain.Keys) && i < |order| && order[i] == ""
    ensures Pick(plain, order[..i + 1]) == ""
  {
    hide Pick;
    var front := order[..i + 1];
    assert forall k :: k in front ==> k in order;
    assert front[i] in Members(front);
    PickSeenFirst(plain, front);
  }

  /** Of the keys behind the empty one the oldest is picked, and swept ones are older than others. */
  lemma RestPicked(entries: map<Key, Counter>, plain: map<Key, Counter>, last: Time, rule: Rule, order: seq<Key>,
                   i: nat)
    requires Lags(entries, plain, last, rule) && Enumerates(order, plain.Keys)
    requires i < |order| - 1 && order[i] == ""
    ensures var rest := order[i + 1..];
            && (forall k :: k in rest ==> k in plain)
            && (Pick(plain, rest) !in entries <==> exists j :: i < j < |order| && order[j] !in entries)
  {
    hide Pick;
    var rest := order[i + 1..];
    forall j | 0 <= j < |rest| ensures rest[j] == order[i + 1 + j] && rest[j] in order {
    }
    assert "" !in Members(rest);
    PickSeenFirst(plain, rest);
    var k := Pick(plain, rest);
    var a :| 0 <= a < |rest| && rest[a] == k;
    if exists j :: i < j < |order| && order[j] !in entries {
      var j :| i < j < |order| && order[j] !in entries;
      assert rest[j - i - 1] == order[j] && order[j] in Members(rest) && order[j] in order;
    }
  }

  /** In every order: exactly when the empty key is not strictly the oldest, or nothing is left. */
  lemma DropsSweptInEveryOrder(entries: map<Key, Counter>, plain: map<Key, Counter>, last: Time, rule: Rule)
    requires Lags(entries, plain, last, rule) && |entries| < |plain|
    ensures (forall order :: Enumerates(order, plain.Keys) ==> Pick(plain, order) !in entries)
       <==> (EmptyFirst(plain, plain.Keys) ==> entries.Keys == {})
  {
    hide Pick, EmptyFirst;
    forall order | Enumerates(order, plain.Keys)
      ensures Pick(plain, order) in plain
      ensures Pick(plain, order) !in entries <==> (EmptyFirst(plain, plain.Keys) ==> SweptBehind(entries, order))
    {
      DropsSwept(entries, plain, last, rule, order);
    }
    if EmptyFirst(plain, plain.Keys) && entries.Keys != {} {
      var order := KeptAtTheEnd(entries, plain, last, rule);
      assert Pick(plain, order) in entries;
    }
  }

  /** An order that ends in the empty key and then a key that was not swept. */
  lemma KeptAtTheEnd(entries: map<Key, Counter>, plain: map<Key, Counter>, last: Time, rule: Rule)
    returns (order: seq<Key>)
    requires Lags(entries, plain, last, rule) && |entries| < |plain|
    requires EmptyFirst(plain, plain.Keys) && entries.Keys != {}
    ensures Enumerates(order, plain.Keys) && !SweptBehind(entries, order)
  {
    MissingOne(entries.Keys, plain.Keys);
    var k :| k in entries;
    assert k != "";
    order := EmptyThen(plain.Keys, k);
    assert order[|order| - 2] == "";
  }

  lemma EmptyThen(keys: set<Key>, k: Key) returns (order: seq<Key>)
    requires "" in keys && k in keys && k != ""
    ensures Enumerates(order, keys) && |order| >= 2 && order[|order| - 2] == "" && order[|order| - 1] == k
  {
    hide Enumerates;
    var others := keys - {"", k};
    order := AnOrder(others);
    EnumeratesPush(order, others, "");
    EnumeratesPush(order + [""], others + {""}, k);
    assert others + {""} + {k} == keys;
    order := order + [""] + [k];
  }

  // ----- a run of both ----------------------------------------------------------------------

  /** The request does not make the table without sweep drop a key that the swept one keeps. */
  ghost predicate Harmless(entries: map<Key, Counter>, plain: map<Key, Counter>, key: Key, order: seq<Key>)
  {
    key !in plain && |entries| < MAX_KEYS <= |plain| && EmptyFirst(plain, plain.Keys) ==> SweptBehind(entries, order)
  }

  lemma LagsSize(entries: map<Key, Counter>, plain: map<Key, Counter>, last: Time, rule: Rule)
    requires Lags(entries, plain, last, rule)
    ensures |entries| <= |plain| <= MAX_KEYS && (|entries| == |plain| ==> entries == plain)
  {
    Fewer(entries.Keys, plain.Keys);
  }

  lemma LagsDropBoth(table: map<Key, Counter>, last: Time, rule: Rule, k: Key)
    requires Lags(table, table, last, rule)
    ensures Lags(table - {k}, table - {k}, last, rule)
  {
    Fewer((table - {k}).Keys, table.Keys);
  }

  lemma LagsDrop(entries: map<Key, Counter>, plain: map<Key, Counter>, last: Time, rule: Rule, k: Key)
    requires Lags(entries, plain, last, rule) && k !in entries
    ensures Lags(entries, plain - {k}, last, rule)
  {
    Fewer((plain - {k}).Keys, plain.Keys);
  }

  lemma LagsPut(entries: map<Key, Counter>, plain: map<Key, Counter>, last: Time, rule: Rule, k: Key, c: Counter,
                now: Time)
    requires Lags(entries, plain, last, rule) && last <= now && rule.window > 0
    requires c.windowStart <= c.lastSeen == now && (k !in plain ==> |plain| < MAX_KEYS)
    ensures Lags(entries[k := c], plain[k := c], now, rule)
  {
    SizePut(plain, k, c);
  }

  lemma LagsSwept(entries: map<Key, Counter>, plain: map<Key, Counter>, now: Time, rule: Rule)
    requires Lags(entries, plain, now, rule)
    ensures Lags(Swept(entries, now, rule), plain, now, rule)
  {
  }

  /** Making room in both tables. */
  lemma LagsRoom(entries: map<Key, Counter>, plain: map<Key, Counter>, last: Time, rule: Rule, key: Key,
                 order: seq<Key>, plainOrder: seq<Key>)
    requires Lags(entries, plain, last, rule) && Enumerates(order, entries.Keys) && Enumerates(plainOrder, plain.Keys)
    requires Harmless(entries, plain, key, plainOrder) && (entries.Keys == plain.Keys ==> order == plainOrder)
    ensures var left := Dropped(plain, Victim(plain, key, plainOrder));
            && Lags(Dropped(entries, Victim(entries, key, order)), left, last, rule)
            && (key !in left ==> |left| < MAX_KEYS)
  {
    hide Pick, Lags, Enumerates, EmptyFirst, SweptBehind;
    LagsSize(entries, plain, last, rule);
    VictimLeaves(plain, key, plainOrder);
    if |entries| >= MAX_KEYS {
      if key !in entries {
        LagsDropBoth(plain, last, rule, Pick(plain, order));
      }
    } else if key !in plain && |plain| >= MAX_KEYS {
      DropsSwept(entries, plain, last, rule, plainOrder);
      LagsDrop(entries, plain, last, rule, Pick(plain, plainOrder));
    }
  }

  /** A harmless request to both: the answers are the same, and the tables stay as they were to each
      other. */
  lemma LagsStep(t: Limiter, u: Limiter, last: Time, rule: Rule, r: Request, order: seq<Key>, plainOrder: seq<Key>)
    requires Lags(t.entries, u.entries, last, rule) && last <= r.at && rule.window > 0
    requires Enumerates(order, t.entries.Keys) && Enumerates(plainOrder, u.entries.Keys)
    requires Harmless(t.entries, u.entries, r.key, plainOrder)
    requires t.entries.Keys == u.entries.Keys ==> order == plainOrder
    ensures Admits(Lookup(t.entries, r.key), r.at, rule) == Admits(Lookup(u.entries, r.key), r.at, rule)
    ensures Lags(Stepped(t, r.key, r.at, rule, order, true).entries,
                 Stepped(u, r.key, r.at, rule, plainOrder, false).entries, r.at, rule)
  {
    hide Lags, Enumerates, Admits, After, Lookup, Swept, Victim, Dropped, Harmless;
    var c := After(Lookup(t.entries, r.key), r.at, rule);
    SameAnswer(t.entries, u.entries, last, rule, r.key, r.at);
    SeenNow(t.entries, u.entries, last, rule, r.key, r.at);
    LagsRoom(t.entries, u.entries, last, rule, r.key, order, plainOrder);
    var left := Dropped(t.entries, Victim(t.entries, r.key, order));
    var plain := Dropped(u.entries, Victim(u.entries, r.key, plainOrder));
    LagsPut(left, plain, last, rule, r.key, c, r.at);
    LagsSwept(left[r.key := c], plain[r.key := c], r.at, rule);
  }

  lemma SeenNow(entries: map<Key, Counter>, plain: map<Key, Counter>, last: Time, rule: Rule, key: Key, now: Time)
    requires Lags(entries, plain, last, rule) && last <= now
    ensures var c := After(Lookup(entries, key), now, rule); c.windowStart <= c.lastSeen == now
  {
  }

  /** The time of the latest of n requests. */
  function LastAt(last: Time, requests: seq<Request>, n: nat): Time
    requires n <= |requests|
  {
    if n == 0 then last else requests[n - 1].at
  }

  ghost predicate InTime(last: Time, requests: seq<Request>)
  {
    forall i :: 0 <= i < |requests| ==> LastAt(last, requests, i) <= requests[i].at
  }

  ghost predicate HarmlessAt(start: Limiter, requests: seq<Request>, rule: Rule, choose: Choice, n: nat)
    requires Chooses(choose) && n < |requests|
  {
    var plain := StateAt(start, requests, rule, choose, false, n).entries;
    Harmless(StateAt(start, requests, rule, choose, true, n).entries, plain, requests[n].key, choose(n, plain.Keys))
  }

  /** As long as every request is harmless, the sweep cannot be noticed: all answers are those of the
      same limiter without it. Both go through tables with the same keys in the same order. */
  lemma {:induction false} SweepUnnoticed(start: Limiter, requests: seq<Request>, rule: Rule, choose: Choice,
                                          last: Time, n: nat)
    requires Chooses(choose) && rule.window > 0 && InTime(last, requests) && n <= |requests|
    requires Lags(start.entries, start.entries, last, rule)
    requires forall i :: 0 <= i < n ==> HarmlessAt(start, requests, rule, choose, i)
    ensures Lags(StateAt(start, requests, rule, choose, true, n).entries,
                 StateAt(start, requests, rule, choose, false, n).entries, LastAt(last, requests, n), rule)
    ensures forall i :: 0 <= i <= n && i < |requests| ==>
              AnswerAt(start, requests, rule, choose, true, i) == AnswerAt(start, requests, rule, choose, false, i)
  {
    hide Lags, Admits, Lookup, Stepped, Harmless, Chooses;
    var t, u := StateAt(start, requests, rule, choose, true, n), StateAt(start, requests, rule, choose, false, n);
    if n > 0 {
      SweepUnnoticed(start, requests, rule, choose, last, n - 1);
      var before := StateAt(start, requests, rule, choose, true, n - 1);
      var plain := StateAt(start, requests, rule, choose, false, n - 1);
      InOrder(choose, n - 1, before.entries.Keys);
      InOrder(choose, n - 1, plain.entries.Keys);
      assert HarmlessAt(start, requests, rule, choose, n - 1);
      LagsStep(before, plain, LastAt(last, requests, n - 1), rule, requests[n - 1],
               choose(n - 1, before.entries.Keys), choose(n - 1, plain.entries.Keys));
    }
    if n < |requests| {
      SameAnswer(t.entries, u.entries, LastAt(last, requests, n), rule, requests[n].key, requests[n].at);
    }
  }

  lemma {:induction false} NeverEmpty(start: Limiter, requests: seq<Request>, rule: Rule, choose: Choice, n: nat)
    requires Chooses(choose) && n <= |requests| && "" !in start.entries
    requires forall r :: r in requests ==> r.key != ""
    ensures "" !in StateAt(start, requests, rule, choose, false, n).entries
  {
    hide Stepped, Chooses;
    if n > 0 {
      NeverEmpty(start, requests, rule, choose, n - 1);
      var before, r := StateAt(start, requests, rule, choose, false, n - 1), requests[n - 1];
      assert r in requests;
      InOrder(choose, n - 1, before.entries.Keys);
      NotAdded(before, r.key, r.at, rule, choose(n - 1, before.entries.Keys), false, "");
    }
  }

  lemma NotAdded(t: Limiter, key: Key, now: Time, rule: Rule, order: seq<Key>, sweeping: bool, k: Key)
    requires Enumerates(order, t.entries.Keys) && k !in t.entries && k != key
    ensures k !in Stepped(t, key, now, rule, order, sweeping).entries
  {
  }

  /** Without an empty key among the requests the sweep is never noticed. */
  lemma NoEmptyKey(start: Limiter, requests: seq<Request>, rule: Rule, choose: Choice, last: Time)
    requires Chooses(choose) && rule.window > 0 && InTime(last, requests)
    requires Lags(start.entries, start.entries, last, rule) && "" !in start.entries
    requires forall r :: r in requests ==> r.key != ""
    ensures forall i :: 0 <= i < |requests| ==>
              AnswerAt(start, requests, rule, choose, true, i) == AnswerAt(start, requests, rule, choose, false, i)
  {
    hide AnswerAt, Lags, Chooses, StateAt;
    forall i | 0 <= i < |requests| ensures HarmlessAt(start, requests, rule, choose, i) {
      NeverEmpty(start, requests, rule, choose, i);
    }
    SweepUnnoticed(start, requests, rule, choose, last, |requests|);
  }

  /** A key that only the swept table has kept is answered differently exactly while its window is
      open and used up. */
  lemma DroppedShows(entries: map<Key, Counter>, plain: map<Key, Counter>, k: Key, now: Time, rule: Rule)
    requires k in entries && k !in plain
    ensures Admits(Lookup(entries, k), now, rule) != Admits(Lookup(plain, k), now, rule) <==>
              rule.limit > 0 && now - entries[k].windowStart < rule.window && entries[k].count >= rule.limit
  {
  }

  // ----- a run in which the sweep is noticed ------------------------------------------------

  const STRICT := Rule(1, 1)

  /** The empty key, then 4095 others after more than two windows, one more, and the last again. */
  function Visits(): seq<Request>
  {
    seq(MAX_KEYS, i requires 0 <= i < MAX_KEYS => Request(Name(i), if i == 0 then 0 else 3))
    + [Request("b", 3), Request(Name(MAX_KEYS - 1), 3)]
  }

  lemma OrderExists(keys: set<Key>)
    ensures exists order :: Enumerates(order, keys)
  {
    var order := AnOrder(keys);
  }

  lemma EndExists(keys: set<Key>, k: Key)
    requires "" in keys && k in keys && k != ""
    ensures exists order :: Enumerates(order, keys) && EndsWith(order, k)
  {
    var order := EmptyThen(keys, k);
  }

  ghost predicate EndsWith(order: seq<Key>, k: Key)
  {
    |order| >= 2 && order[|order| - 2] == "" && order[|order| - 1] == k
  }

  /** Tables with the empty key and the longest name are gone through with these two at the end. */
  ghost function Unlucky(i: nat, keys: set<Key>): (order: seq<Key>)
    ensures Enumerates(order, keys)
  {
    var k := Name(MAX_KEYS - 1);
    if "" in keys && k in keys && k != "" then
      EndExists(keys, k);
      var order :| Enumerates(order, keys) && EndsWith(order, k);
      order
    else
      OrderExists(keys);
      var order :| Enumerates(order, keys);
      order
  }

  /** The table after the first n visits. */
  function Seen(n: nat): map<Key, Counter>
  {
    map k | k in Names(n) :: if k == "" then Counter(0, 1, 0) else Counter(3, 1, 3)
  }

  lemma NamesStep(n: nat)
    ensures Name(n) !in Names(n) && |Seen(n)| == n && (n > 0 ==> "" in Names(n) && Name(0) == "")
    ensures forall k :: k in Names(n + 1) <==> k in Names(n) || k == Name(n)
  {
    var names := Names(n);
    forall i | 0 <= i < n ensures |names[i]| == i {
    }
    assert n > 0 ==> names[0] == "";
    assert Seen(n).Keys == Members(names);
    SizeOf(names);
    assert Names(n + 1) == names + [Name(n)];
  }

  /** A first request is admitted and opens a window. */
  lemma FreshKey(t: Limiter, key: Key, now: Time, order: seq<Key>, sweeping: bool)
    requires key !in t.entries && Enumerates(order, t.entries.Keys)
    ensures var left := if |t.entries| >= MAX_KEYS then t.entries - {Pick(t.entries, order)} else t.entries;
            var next, n := left[key := Counter(now, 1, now)], t.operations + 1;
            Stepped(t, key, now, STRICT, order, sweeping)
            == Limiter(if sweeping && n % SWEEP_EVERY == 0 then Swept(next, now, STRICT) else next, n)
  {
    hide Pick, Swept;
  }

  lemma SeenStep(n: nat)
    requires n > 0
    ensures Name(n) !in Seen(n) && |Seen(n)| == n && |Seen(n) - {""}| <= n
    ensures Seen(n)[Name(n) := Counter(3, 1, 3)] == Seen(n + 1)
    ensures (Seen(n) - {""})[Name(n) := Counter(3, 1, 3)] == Seen(n + 1) - {""}
  {
    hide Names, Name;
    NamesStep(n);
    NamesStep(n + 1);
    Fewer((Seen(n) - {""}).Keys, Seen(n).Keys);
    assert Name(n) != "";
  }

  lemma SeenSwept(n: nat)
    ensures Swept(Seen(n), 3, STRICT) == Seen(n) - {""} == Swept(Seen(n) - {""}, 3, STRICT)
  {
  }

  lemma Visited(n: nat, t: Limiter, order: seq<Key>, sweeping: bool)
    requires 0 < n < MAX_KEYS && Enumerates(order, t.entries.Keys)
    requires t == Limiter(Seen(n), n) || t == Limiter(Seen(n) - {""}, n)
    ensures var next := Stepped(t, Name(n), 3, STRICT, order, sweeping);
            && next.operations == n + 1
            && next.entries == (if t.entries == Seen(n) && !(sweeping && (n + 1) % SWEEP_EVERY == 0) then Seen(n + 1)
                                else Seen(n + 1) - {""})
  {
    hide Stepped, Seen, Name, Swept, Pick;
    SeenStep(n);
    FreshKey(t, Name(n), 3, order, sweeping);
    SeenSwept(n + 1);
  }

  ghost function Visit(sweeping: bool, n: nat): Limiter
    requires n <= |Visits()|
  {
    UnluckyChooses();
    StateAt(Limiter(map[], 0), Visits(), STRICT, Unlucky, sweeping, n)
  }

  lemma UnluckyChooses()
    ensures Chooses(Unlucky)
  {
  }

  lemma FirstVisit(sweeping: bool, order: seq<Key>)
    requires Enumerates(order, {})
    ensures Stepped(Limiter(map[], 0), Name(0), 0, STRICT, order, sweeping) == Limiter(Seen(1), 1)
  {
    hide Stepped, Pick, Swept;
    var none: map<Key, Counter> := map[];
    assert none.Keys == {};
    FreshKey(Limiter(none, 0), Name(0), 0, order, sweeping);
    NamesStep(0);
    NamesStep(1);
    assert Seen(1) == map["" := Counter(0, 1, 0)];
  }

  lemma HasEmpty(n: nat)
    requires n > 0
    ensures "" in Seen(n) && Seen(n) - {""} != Seen(n)
  {
    NamesStep(n);
    assert "" !in Seen(n) - {""};
  }

  lemma {:induction false} VisitedAll(sweeping: bool, n: nat)
    requires 0 < n <= MAX_KEYS
    ensures Visit(sweeping, n) == Limiter(if sweeping && n >= SWEEP_EVERY then Seen(n) - {""} else Seen(n), n)
  {
    hide Unlucky, Stepped, Seen, Names, Name;
    UnluckyChooses();
    var visits := Visits();
    if n == 1 {
      var none: map<Key, Counter> := map[];
      assert none.Keys == {};
      assert StateAt(Limiter(none, 0), visits, STRICT, Unlucky, sweeping, 0) == Limiter(none, 0);
      FirstVisit(sweeping, Unlucky(0, none.Keys));
      assert visits[0] == Request(Name(0), 0);
    } else {
      VisitedAll(sweeping, n - 1);
      var t := Visit(sweeping, n - 1);
      assert visits[n - 1] == Request(Name(n - 1), 3);
      Visited(n - 1, t, Unlucky(n - 1, t.entries.Keys), sweeping);
      HasEmpty(n - 1);
      assert n - 1 < SWEEP_EVERY <= n ==> n % SWEEP_EVERY == 0;
    }
  }

  /** The full table without sweep drops the longest name for the new key. */
  lemma LongestDropped(order: seq<Key>)
    requires Enumerates(order, Seen(MAX_KEYS).Keys) && EndsWith(order, Name(MAX_KEYS - 1))
    ensures Pick(Seen(MAX_KEYS), order) == Name(MAX_KEYS - 1)
  {
    hide Pick, Names;
    var full, k, i := Seen(MAX_KEYS), Name(MAX_KEYS - 1), |order| - 2;
    HasEmpty(MAX_KEYS);
    assert EmptyFirst(full, full.Keys);
    EmptyEnds(full, order, i);
    assert order == order[..i + 1] + [k];
    PickAnew(full, order[..i + 1], [k]);
    PickOne(full, k);
  }

  lemma PickOne(table: map<Key, Counter>, k: Key)
    requires k in table
    ensures Pick(table, [k]) == k
  {
    assert [k][..0] == [];
  }

  /** Both limiters after the visit of the new key. */
  lemma NewVisit(order: seq<Key>, plainOrder: seq<Key>)
    requires Enumerates(order, (Seen(MAX_KEYS) - {""}).Keys)
    requires Enumerates(plainOrder, Seen(MAX_KEYS).Keys) && EndsWith(plainOrder, Name(MAX_KEYS - 1))
    ensures var k := Name(MAX_KEYS - 1);
            var t := Stepped(Limiter(Seen(MAX_KEYS) - {""}, MAX_KEYS), "b", 3, STRICT, order, true).entries;
            var u := Stepped(Limiter(Seen(MAX_KEYS), MAX_KEYS), "b", 3, STRICT, plainOrder, false).entries;
            k in t && t[k] == Counter(3, 1, 3) && k !in u
  {
    hide Stepped, Pick, Enumerates, Swept, Seen, Name;
    LongestSeen();
    LongestDropped(plainOrder);
    FreshKey(Limiter(Seen(MAX_KEYS) - {""}, MAX_KEYS), "b", 3, order, true);
    FreshKey(Limiter(Seen(MAX_KEYS), MAX_KEYS), "b", 3, plainOrder, false);
  }

  lemma LongestSeen()
    ensures var k, full := Name(MAX_KEYS - 1), Seen(MAX_KEYS);
            && k in full && full[k] == Counter(3, 1, 3) && k != "" && k != "b" && "b" !in full
            && |full| == MAX_KEYS && |full - {""}| == MAX_KEYS - 1
  {
    hide Names;
    NamesStep(MAX_KEYS);
    NamesStep(MAX_KEYS - 1);
    HasEmpty(MAX_KEYS);
    SizeDrop(Seen(MAX_KEYS), "");
    assert |Name(MAX_KEYS - 1)| == MAX_KEYS - 1 && |"b"| == 1;
    NotAName(MAX_KEYS);
  }

  lemma NotAName(n: nat)
    ensures "b" !in Names(n)
  {
    forall i | 0 <= i < n ensures Names(n)[i] != "b" {
      assert |Name(i)| == 1 ==> Name(i)[0] == 'a';
    }
  }

  /** The last visit is refused with the sweep and admitted without it. */
  lemma SweepNoticed()
    ensures Chooses(Unlucky) && InTime(0, Visits())
    ensures var n := |Visits()| - 1;
            && !AnswerAt(Limiter(map[], 0), Visits(), STRICT, Unlucky, true, n)
            && AnswerAt(Limiter(map[], 0), Visits(), STRICT, Unlucky, false, n)
  {
    hide Stepped, Seen, Name;
    UnluckyChooses();
    var visits, n := Visits(), MAX_KEYS;
    VisitedAll(true, n);
    VisitedAll(false, n);
    HasEmpty(n);
    var t, u := Visit(true, n), Visit(false, n);
    LongestLast();
    NewVisit(Unlucky(n, t.entries.Keys), Unlucky(n, u.entries.Keys));
    assert visits[n] == Request("b", 3) && visits[n + 1] == Request(Name(n - 1), 3);
    DroppedShows(Visit(true, n + 1).entries, Visit(false, n + 1).entries, Name(n - 1), 3, STRICT);
  }

  lemma LongestLast()
    ensures EndsWith(Unlucky(MAX_KEYS, Seen(MAX_KEYS).Keys), Name(MAX_KEYS - 1))
  {
    hide Seen, Name;
    LongestSeen();
    HasEmpty(MAX_KEYS);
  }
}
