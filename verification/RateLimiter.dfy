/** The local fixed-window limiter: a table of counters with a size cap and a periodic sweep. */
module RateLimiter {
  import opened Common

  type Key = string
  type Time = int

  const MAX_KEYS: nat := 4096
  const SWEEP_EVERY: nat := 1024

  datatype Counter = Counter(windowStart: Time, count: nat, lastSeen: Time)

  /** At most `limit` requests (the rule's requests and burst) in a window of `window` time. */
  datatype Rule = Rule(limit: nat, window: int)

  function Lookup(m: map<Key, Counter>, k: Key): Option<Counter>
  {
    if k in m then Some(m[k]) else None
  }

  // ----- one key, never forgotten -----------------------------------------------------------

  /** The counter a request finds: the one stored, unless there is none or its window is over. */
  function Opened(c: Option<Counter>, now: Time, rule: Rule): Counter
  {
    if c.None? || now - c.value.windowStart >= rule.window then Counter(now, 0, now)
    else c.value.(lastSeen := now)
  }

  function Admits(c: Option<Counter>, now: Time, rule: Rule): bool
  {
    Opened(c, now, rule).count < rule.limit
  }

  function After(c: Option<Counter>, now: Time, rule: Rule): Counter
  {
    var current := Opened(c, now, rule);
    if current.count < rule.limit then current.(count := current.count + 1) else current
  }

  /** A refused request that comes again after the delay it was given is admitted. */
  lemma RetryAdmitted(c: Option<Counter>, now: Time, rule: Rule)
    requires rule.limit >= 1 && !Admits(c, now, rule)
    ensures var retry := rule.window - (now - After(c, now, rule).windowStart);
            Admits(Some(After(c, now, rule)), now + retry, rule)
  {
  }

  // ----- admissions in an interval ----------------------------------------------------------

  /** A request admitted at some time in the window with this number. */
  datatype Admission = Admission(at: Time, window: nat)

  /** The windows of a key, by their starts, and its admissions. */
  datatype History = History(starts: seq<Time>, admitted: seq<Admission>)

  function InWindow(admitted: seq<Admission>, j: nat): nat
  {
    if admitted == [] then 0
    else InWindow(admitted[..|admitted| - 1], j) + (if admitted[|admitted| - 1].window == j then 1 else 0)
  }

  predicate Within(x: Admission, from: Time, window: int)
  {
    from <= x.at <= from + window
  }

  function InInterval(admitted: seq<Admission>, from: Time, window: int): nat
  {
    if admitted == [] then 0
    else InInterval(admitted[..|admitted| - 1], from, window)
         + (if Within(admitted[|admitted| - 1], from, window) then 1 else 0)
  }

  /** Windows do not overlap, admissions lie in theirs, and no window has more than the limit. */
  ghost predicate Windowed(h: History, rule: Rule)
  {
    && (forall j :: 0 < j < |h.starts| ==> h.starts[j] >= h.starts[j - 1] + rule.window)
    && (forall i :: 0 <= i < |h.admitted| ==>
          && h.admitted[i].window < |h.starts|
          && h.starts[h.admitted[i].window] <= h.admitted[i].at < h.starts[h.admitted[i].window] + rule.window)
    && (forall j: nat :: InWindow(h.admitted, j) <= rule.limit)
  }

  lemma {:induction false} TwoWindows(admitted: seq<Admission>, from: Time, window: int, j: nat)
    requires forall i :: 0 <= i < |admitted| && Within(admitted[i], from, window) ==> j <= admitted[i].window <= j + 1
    ensures InInterval(admitted, from, window) <= InWindow(admitted, j) + InWindow(admitted, j + 1)
  {
    if admitted != [] {
      TwoWindows(admitted[..|admitted| - 1], from, window, j);
    }
  }

  /** The first window with an admission in the interval. */
  lemma {:induction false} FirstWindow(admitted: seq<Admission>, from: Time, window: int) returns (j: nat)
    ensures InInterval(admitted, from, window) > 0 ==>
              exists i :: 0 <= i < |admitted| && Within(admitted[i], from, window) && admitted[i].window == j
    ensures forall i :: 0 <= i < |admitted| && Within(admitted[i], from, window) ==> j <= admitted[i].window
  {
    j := 0;
    if admitted != [] {
      var front, x := admitted[..|admitted| - 1], admitted[|admitted| - 1];
      j := FirstWindow(front, from, window);
      if Within(x, from, window) && (InInterval(front, from, window) == 0 || x.window < j) {
        NoneWithin(front, from, window);
        j := x.window;
      } else if InInterval(front, from, window) > 0 {
        var i :| 0 <= i < |front| && Within(front[i], from, window) && front[i].window == j;
        assert admitted[i] == front[i];
      }
    }
  }

  lemma {:induction false} NoneWithin(admitted: seq<Admission>, from: Time, window: int)
    ensures InInterval(admitted, from, window) == 0 ==>
              forall i :: 0 <= i < |admitted| ==> !Within(admitted[i], from, window)
  {
    if admitted != [] {
      NoneWithin(admitted[..|admitted| - 1], from, window);
    }
  }

  lemma {:induction false} StartsApart(h: History, rule: Rule, i: nat, j: nat)
    requires Windowed(h, rule) && i < j < |h.starts| && rule.window > 0
    ensures h.starts[j] >= h.starts[i] + rule.window
  {
    if i + 1 < j {
      StartsApart(h, rule, i, j - 1);
    }
  }

  /** No interval of one window's length, ends included, sees more than twice the limit. */
  lemma TwiceTheLimit(h: History, rule: Rule, from: Time)
    requires Windowed(h, rule) && rule.window > 0
    ensures InInterval(h.admitted, from, rule.window) <= 2 * rule.limit
  {
    var j := FirstWindow(h.admitted, from, rule.window);
    if InInterval(h.admitted, from, rule.window) > 0 {
      var first :| 0 <= first < |h.admitted| && Within(h.admitted[first], from, rule.window)
                   && h.admitted[first].window == j;
      forall i | 0 <= i < |h.admitted| && Within(h.admitted[i], from, rule.window)
        ensures j <= h.admitted[i].window <= j + 1
      {
        var w := h.admitted[i].window;
        if w > j + 1 {
          StartsApart(h, rule, j, j + 1);
          StartsApart(h, rule, j + 1, w);
        }
      }
      TwoWindows(h.admitted, from, rule.window, j);
    }
  }

  // ----- the history of a counter -----------------------------------------------------------

  /** The history of a key whose counter is in the table. */
  ghost predicate Records(h: History, c: Counter, rule: Rule)
  {
    && Windowed(h, rule) && h.starts != [] && h.starts[|h.starts| - 1] == c.windowStart
    && InWindow(h.admitted, |h.starts| - 1) == c.count && c.windowStart <= c.lastSeen
  }

  /** The history of a key whose counter was swept: its next request opens a window. */
  ghost predicate Closed(h: History, last: Time, rule: Rule)
  {
    Windowed(h, rule) && h.starts != [] && last - h.starts[|h.starts| - 1] >= rule.window
  }

  function Recorded(h: Option<History>, c: Option<Counter>, now: Time, rule: Rule): History
  {
    var past := if h.Some? then h.value else History([], []);
    var starts := if c.None? || now - c.value.windowStart >= rule.window then past.starts + [now] else past.starts;
    var window := if |starts| > 0 then |starts| - 1 else 0;
    History(starts, if Admits(c, now, rule) then past.admitted + [Admission(now, window)] else past.admitted)
  }

  lemma InWindowPush(admitted: seq<Admission>, x: Admission, j: nat)
    ensures InWindow(admitted + [x], j) == InWindow(admitted, j) + (if x.window == j then 1 else 0)
  {
    assert (admitted + [x])[..|admitted|] == admitted;
  }

  lemma {:induction false} LaterWindow(admitted: seq<Admission>, n: nat)
    requires forall i :: 0 <= i < |admitted| ==> admitted[i].window < n
    ensures InWindow(admitted, n) == 0
  {
    if admitted != [] {
      LaterWindow(admitted[..|admitted| - 1], n);
    }
  }

  lemma RecordsNext(h: Option<History>, c: Option<Counter>, now: Time, rule: Rule)
    requires rule.window > 0
    requires c.Some? ==> h.Some? && Records(h.value, c.value, rule) && c.value.lastSeen <= now
    requires c.None? && h.Some? ==> Closed(h.value, now, rule)
    ensures Records(Recorded(h, c, now, rule), After(c, now, rule), rule)
  {
    hide InWindow;
    var before := if h.Some? then h.value else History([], []);
    var next := Recorded(h, c, now, rule);
    NothingYet();
    LaterWindow(before.admitted, |before.starts|);
    forall j: nat
      ensures InWindow(next.admitted, j) == InWindow(before.admitted, j)
                + (if Admits(c, now, rule) && j == |next.starts| - 1 then 1 else 0)
    {
      if Admits(c, now, rule) {
        InWindowPush(before.admitted, Admission(now, |next.starts| - 1), j);
      }
    }
  }

  lemma NothingYet()
    ensures forall j :: InWindow([], j) == 0
  {
  }

  // ----- the key dropped for space ----------------------------------------------------------

  ghost function Members(order: seq<Key>): set<Key> { set k | k in order }

  /** The order has each of these keys once. */
  ghost predicate Enumerates(order: seq<Key>, keys: set<Key>)
    ensures Enumerates(order, keys) ==> forall k :: k in order ==> k in keys
  {
    assert forall k :: k in order ==> k in Members(order);
    Distinct(order) && Members(order) == keys
  }

  lemma MembersJoin(a: seq<Key>, b: seq<Key>)
    ensures Members(a + b) == Members(a) + Members(b)
  {
  }

  /** The key that the loop over the table settles on when it goes over it in this order. The empty
      key counts as "none yet". */
  function Pick(entries: map<Key, Counter>, order: seq<Key>): (victim: Key)
    requires forall k :: k in order ==> k in entries
    ensures victim == "" || victim in order
  {
    if order == [] then ""
    else
      var candidate, before := order[|order| - 1], Pick(entries, order[..|order| - 1]);
      if before == "" || entries[candidate].lastSeen < entries[before].lastSeen then candidate else before
  }

  /** None of these keys was seen before this one. */
  ghost predicate SeenFirst(entries: map<Key, Counter>, keys: set<Key>, k: Key)
  {
    k in keys && k in entries && forall l :: l in keys && l in entries ==> entries[k].lastSeen <= entries[l].lastSeen
  }

  /** The empty key is among these and was seen strictly before all the others. */
  ghost predicate EmptyFirst(entries: map<Key, Counter>, keys: set<Key>)
  {
    && "" in keys && "" in entries
    && forall k :: k in keys && k in entries && k != "" ==> entries[""].lastSeen < entries[k].lastSeen
  }

  /** The victim was seen first unless the empty key was, strictly, and is not the last in the order. */
  lemma {:induction false} PickSeenFirst(entries: map<Key, Counter>, order: seq<Key>)
    requires Distinct(order) && order != [] && forall k :: k in order ==> k in entries
    ensures Pick(entries, order) in order
    ensures Pick(entries, order) == "" <==> EmptyFirst(entries, Members(order)) && order[|order| - 1] == ""
    ensures SeenFirst(entries, Members(order), Pick(entries, order)) <==>
              (EmptyFirst(entries, Members(order)) ==> order[|order| - 1] == "")
  {
    var front, candidate := order[..|order| - 1], order[|order| - 1];
    assert Members(order) == Members(front) + {candidate};
    if front == [] {
      assert order == [candidate];
    } else {
      PickSeenFirst(entries, front);
      assert front[|front| - 1] in Members(order);
    }
  }

  /** The key dropped for space, found by going over the table in some order. */
  method Oldest(entries: map<Key, Counter>, order: seq<Key>) returns (victim: Key)
    requires entries != map[] && Enumerates(order, entries.Keys)
    ensures victim == Pick(entries, order) && victim in entries
    ensures SeenFirst(entries, entries.Keys, victim) <==>
              (EmptyFirst(entries, entries.Keys) ==> order[|order| - 1] == "")
  {
    assert Members(order) == entries.Keys;
    HasKey(entries);
    assert order != [];
    var oldestTime := 0;
    victim := "";
    for i := 0 to |order|
      invariant victim == Pick(entries, order[..i])
      invariant victim != "" ==> victim in entries && oldestTime == entries[victim].lastSeen
    {
      var candidate := order[i];
      assert order[..i + 1][..i] == order[..i];
      if victim == "" || entries[candidate].lastSeen < oldestTime {
        victim, oldestTime := candidate, entries[candidate].lastSeen;
      }
    }
    assert order[..|order|] == order;
    PickSeenFirst(entries, order);
  }

  lemma HasKey(entries: map<Key, Counter>)
    requires entries != map[]
    ensures entries.Keys != {}
  {
    assert entries.Keys == {} ==> entries == map[];
  }

  lemma EnumeratesPush(order: seq<Key>, keys: set<Key>, k: Key)
    requires Enumerates(order, keys) && k !in keys
    ensures Enumerates(order + [k], keys + {k}) && Enumerates([k] + order, keys + {k})
  {
    MembersJoin(order, [k]);
    MembersJoin([k], order);
    assert k !in Members(order);
  }

  lemma {:induction false} AnOrder(keys: set<Key>) returns (order: seq<Key>)
    ensures Enumerates(order, keys)
  {
    order := [];
    if keys != {} {
      var k :| k in keys;
      order := AnOrder(keys - {k});
      EnumeratesPush(order, keys - {k}, k);
      assert keys - {k} + {k} == keys;
      order := order + [k];
    }
  }

  /** An order with the empty key, if it is there, in front. */
  lemma EmptyInFront(keys: set<Key>) returns (order: seq<Key>)
    ensures Enumerates(order, keys)
    ensures "" in keys ==> order != [] && order[0] == ""
  {
    hide Enumerates;
    order := AnOrder(keys - {""});
    if "" in keys {
      EnumeratesPush(order, keys - {""}, "");
      assert keys - {""} + {""} == keys;
      order := [""] + order;
    } else {
      assert keys - {""} == keys;
    }
  }

  /** Whatever the order, the key dropped was seen first: exactly when the empty key is not strictly
      the oldest of several. */
  lemma SeenFirstInEveryOrder(entries: map<Key, Counter>)
    requires entries != map[]
    ensures (forall order :: Enumerates(order, entries.Keys) ==> SeenFirst(entries, entries.Keys, Pick(entries, order)))
       <==> (EmptyFirst(entries, entries.Keys) ==> |entries| == 1)
  {
    hide Pick, SeenFirst;
    HasKey(entries);
    forall order | Enumerates(order, entries.Keys)
      ensures order != []
      ensures SeenFirst(entries, entries.Keys, Pick(entries, order)) <==>
                (EmptyFirst(entries, entries.Keys) ==> order[|order| - 1] == "")
      ensures |entries| == 1 ==> |order| == 1
    {
      assert Members(order) == entries.Keys;
      assert order != [];
      PickSeenFirst(entries, order);
      SizeOf(order);
    }
    var order := EmptyInFront(entries.Keys);
    if EmptyFirst(entries, entries.Keys) {
      OnlyEmpty(entries, order);
    }
  }

  lemma OnlyEmpty(entries: map<Key, Counter>, order: seq<Key>)
    requires EmptyFirst(entries, entries.Keys) && Enumerates(order, entries.Keys) && order != [] && order[0] == ""
    ensures |entries| == 1 <==> order[|order| - 1] == ""
    ensures |entries| == 1 ==>
              forall other :: Enumerates(other, entries.Keys) && other != [] ==> other[|other| - 1] == ""
  {
    SizeOf(order);
    assert Members(order) == entries.Keys;
    if |entries| == 1 {
      assert order == [""];
      forall other | Enumerates(other, entries.Keys) && other != [] ensures other[|other| - 1] == "" {
        assert other[|other| - 1] in Members(other);
      }
    }
  }

  lemma {:induction false} SizeOf(order: seq<Key>)
    requires Distinct(order)
    ensures |Members(order)| == |order|
  {
    if order != [] {
      var front, k := order[..|order| - 1], order[|order| - 1];
      SizeOf(front);
      assert Members(order) == Members(front) + {k} && k !in Members(front);
    }
  }

  // A table of n keys of growing length, each seen after the shorter ones.

  function Name(i: nat): Key { seq(i, _ => 'a') }

  function Names(n: nat): seq<Key>
  {
    seq(n, i requires 0 <= i < n => Name(i))
  }

  function Table(n: nat): map<Key, Counter>
  {
    map k | k in Names(n) :: Counter(|k|, 1, |k|)
  }

  /** A full table in which the oldest key is the empty one, and an order that drops another key. */
  lemma WrongVictim()
    ensures var full := Table(MAX_KEYS);
            && |full| == MAX_KEYS && Enumerates(Names(MAX_KEYS), full.Keys)
            && SeenFirst(full, full.Keys, "") && !SeenFirst(full, full.Keys, Pick(full, Names(MAX_KEYS)))
  {
    var names, full := Names(MAX_KEYS), Table(MAX_KEYS);
    forall i, j | 0 <= i < j < MAX_KEYS ensures names[i] != names[j] {
      assert |names[i]| == i && |names[j]| == j;
    }
    assert full.Keys == Members(names);
    SizeOf(names);
    assert names[0] == "" && names[0] in names;
    assert |names[MAX_KEYS - 1]| == MAX_KEYS - 1;
    PickSeenFirst(full, names);
  }

  // ----- the sweep --------------------------------------------------------------------------

  predicate Stale(c: Counter, now: Time, rule: Rule)
  {
    now - c.lastSeen > 2 * rule.window
  }

  function Swept(entries: map<Key, Counter>, now: Time, rule: Rule): map<Key, Counter>
  {
    map k | k in entries && !Stale(entries[k], now, rule) :: entries[k]
  }

  /** Removes the counters not seen for two windows. */
  method Sweep(entries: map<Key, Counter>, now: Time, rule: Rule) returns (kept: map<Key, Counter>)
    ensures kept == Swept(entries, now, rule)
    ensures forall k :: k in kept <==> k in entries && now - entries[k].lastSeen <= 2 * rule.window
  {
    kept := entries;
    var todo := entries.Keys;
    while todo != {}
      invariant todo <= entries.Keys && kept.Keys <= entries.Keys
      invariant forall k :: k in kept ==> kept[k] == entries[k]
      invariant forall k :: k in entries ==> (k in kept <==> k in todo || !Stale(entries[k], now, rule))
      decreases |todo|
    {
      var candidate :| candidate in todo;
      if Stale(entries[candidate], now, rule) {
        kept := kept - {candidate};
      }
      todo := todo - {candidate};
    }
  }

  // ----- one request ------------------------------------------------------------------------

  /** The table, and how many requests it has admitted. */
  datatype Limiter = Limiter(entries: map<Key, Counter>, operations: nat)

  /** A key is dropped exactly when the table is full and the request is for a new key: the one found
      by going over the table in this order. */
  function Victim(table: map<Key, Counter>, key: Key, order: seq<Key>): Option<Key>
    requires forall k :: k in order ==> k in table
  {
    if key !in table && |table| >= 4096 then Some(Pick(table, order)) else None
  }

  function Dropped<T>(m: map<Key, T>, victim: Option<Key>): map<Key, T>
  {
    if victim.Some? then m - {victim.value} else m
  }

  /** The limiter after a request; with or without its sweep after every 1024 admissions. */
  function Stepped(t: Limiter, key: Key, now: Time, rule: Rule, order: seq<Key>, sweeping: bool): Limiter
    requires forall k :: k in order ==> k in t.entries
  {
    var entry := Lookup(t.entries, key);
    var next := Dropped(t.entries, Victim(t.entries, key, order))[key := After(entry, now, rule)];
    if !Admits(entry, now, rule) then Limiter(next, t.operations)
    else
      var operations := t.operations + 1;
      Limiter(if sweeping && operations % 1024 == 0 then Swept(next, now, rule) else next, operations)
  }

  lemma {:induction false} Fewer(a: set<Key>, b: set<Key>)
    requires a <= b
    ensures |a| <= |b| && (|a| == |b| ==> a == b)
  {
    if a != {} {
      var x :| x in a;
      Fewer(a - {x}, b - {x});
    } else if |b| == 0 {
      assert b == {};
    }
  }

  lemma SizeDrop(entries: map<Key, Counter>, k: Key)
    requires k in entries
    ensures |entries - {k}| == |entries| - 1
  {
    assert (entries - {k}).Keys == entries.Keys - {k};
  }

  lemma SizePut(entries: map<Key, Counter>, k: Key, c: Counter)
    ensures |entries[k := c]| == |entries| + (if k in entries then 0 else 1)
  {
    assert entries[k := c].Keys == entries.Keys + {k};
  }

  /** There is room for the key of the request. */
  lemma VictimLeaves(table: map<Key, Counter>, key: Key, order: seq<Key>)
    requires |table| <= MAX_KEYS && Enumerates(order, table.Keys)
    ensures var left := Dropped(table, Victim(table, key, order));
            |left| <= MAX_KEYS && (key !in left ==> |left| < MAX_KEYS) && Lookup(left, key) == Lookup(table, key)
    ensures Victim(table, key, order).Some? ==> Victim(table, key, order).value in table
  {
    if key !in table && |table| >= MAX_KEYS {
      HasKey(table);
      assert Members(order) == table.Keys;
      PickSeenFirst(table, order);
      SizeDrop(table, Pick(table, order));
    }
  }

  // ----- the histories of all keys ----------------------------------------------------------

  ghost predicate Recording(entries: map<Key, Counter>, histories: map<Key, History>, last: Time, rule: Rule)
  {
    && (forall k :: k in entries ==>
          k in histories && Records(histories[k], entries[k], rule) && entries[k].lastSeen <= last)
    && (forall k :: k in histories && k !in entries ==> Closed(histories[k], last, rule))
  }

  ghost function HistoryOf(histories: map<Key, History>, k: Key): Option<History>
  {
    if k in histories then Some(histories[k]) else None
  }

  lemma RecordingPut(entries: map<Key, Counter>, histories: map<Key, History>, last: Time, rule: Rule, k: Key,
                     now: Time)
    requires Recording(entries, histories, last, rule) && rule.window > 0 && last <= now
    ensures Recording(entries[k := After(Lookup(entries, k), now, rule)],
                      histories[k := Recorded(HistoryOf(histories, k), Lookup(entries, k), now, rule)], now, rule)
  {
    hide Records, Recorded, Windowed;
    RecordsNext(HistoryOf(histories, k), Lookup(entries, k), now, rule);
  }

  lemma RecordingDrop(entries: map<Key, Counter>, histories: map<Key, History>, last: Time, rule: Rule, k: Key)
    requires Recording(entries, histories, last, rule)
    ensures Recording(entries - {k}, histories - {k}, last, rule)
  {
    hide Records, Closed;
  }

  lemma RecordingSwept(entries: map<Key, Counter>, histories: map<Key, History>, now: Time, rule: Rule)
    requires Recording(entries, histories, now, rule) && rule.window > 0
    ensures Recording(Swept(entries, now, rule), histories, now, rule)
  {
    hide Windowed, InWindow;
  }

  /** What one request keeps, before the sweep. */
  lemma Requested(entries: map<Key, Counter>, histories: map<Key, History>, last: Time, rule: Rule, key: Key, now: Time,
                  order: seq<Key>)
    requires Recording(entries, histories, last, rule) && Enumerates(order, entries.Keys)
    requires rule.window > 0 && last <= now && |entries| <= MAX_KEYS
    ensures var victim := Victim(entries, key, order);
            var next := Dropped(entries, victim)[key := After(Lookup(entries, key), now, rule)];
            && |next| <= MAX_KEYS && victim != Some(key)
            && Recording(next, Dropped(histories, victim)
                               [key := Recorded(HistoryOf(histories, key), Lookup(entries, key), now, rule)], now, rule)
  {
    hide Recording, Admits, After, Recorded, Pick, Enumerates;
    var victim := Victim(entries, key, order);
    VictimLeaves(entries, key, order);
    SizePut(Dropped(entries, victim), key, After(Lookup(entries, key), now, rule));
    if victim.Some? {
      RecordingDrop(entries, histories, last, rule, victim.value);
    }
    RecordingPut(Dropped(entries, victim), Dropped(histories, victim), last, rule, key, now);
  }

  /** How many requests of a key were admitted in the window that is open now; none if there is none. */
  ghost function SinceOpened(h: Option<History>, now: Time, rule: Rule): nat
  {
    if h.None? || h.value.starts == [] || now - h.value.starts[|h.value.starts| - 1] >= rule.window then 0
    else InWindow(h.value.admitted, |h.value.starts| - 1)
  }

  /** A request is admitted exactly when fewer than the limit have been in the window it falls into,
      whether the counter is there or was swept. */
  lemma AdmitsByHistory(entries: map<Key, Counter>, histories: map<Key, History>, last: Time, rule: Rule, key: Key,
                        now: Time)
    requires Recording(entries, histories, last, rule) && last <= now
    ensures Admits(Lookup(entries, key), now, rule) <==>
              SinceOpened(HistoryOf(histories, key), now, rule) < rule.limit
  {
    assert key in entries ==> Records(histories[key], entries[key], rule);
    assert key in histories && key !in entries ==> Closed(histories[key], last, rule);
  }

  class CounterStore {
    const rule: Rule
    var entries: map<Key, Counter>
    var operations: nat
    ghost var histories: map<Key, History>   // of each key since it was last dropped for space
    ghost var last: Time                     // of the latest request

    ghost predicate Valid()
      reads this
    {
      rule.window > 0 && |entries| <= MAX_KEYS && Recording(entries, histories, last, rule)
    }

    ghost function Now(): Limiter
      reads this`entries, this`operations
    {
      Limiter(entries, operations)
    }

    constructor (rule: Rule, now: Time)
      requires rule.window > 0
      ensures Valid() && this.rule == rule && Now() == Limiter(map[], 0) && histories == map[] && last == now
    {
      this.rule, entries, operations := rule, map[], 0;
      histories, last := map[], now;
    }

    /** Drops one key for a new one when the table is full. */
    method MakeRoom(key: Key, order: seq<Key>)
      requires |entries| <= MAX_KEYS && Enumerates(order, entries.Keys)
      modifies this`entries
      ensures entries == Dropped(old(entries), Victim(old(entries), key, order))
    {
      hide Pick, SeenFirst, EmptyFirst;
      if key !in entries && |entries| >= MAX_KEYS {
        var oldest := Oldest(entries, order);
        entries := entries - {oldest};
      }
    }

    /** One request; `order` is the order in which the table is gone through for a key to drop. A key
        loses its history only when it is dropped. */
    method Allow(key: Key, now: Time, order: seq<Key>) returns (allowed: bool, retry: int)
      requires Valid() && last <= now && Enumerates(order, entries.Keys)
      modifies this
      ensures Valid() && last == now && Now() == Stepped(old(Now()), key, now, rule, order, true)
      ensures allowed == Admits(Lookup(old(entries), key), now, rule)
      ensures !allowed ==> retry == rule.window - (now - After(Lookup(old(entries), key), now, rule).windowStart)
      ensures allowed <==> SinceOpened(HistoryOf(old(histories), key), now, rule) < rule.limit
      ensures histories == Dropped(old(histories), Victim(old(entries), key, order))
                           [key := Recorded(HistoryOf(old(histories), key), Lookup(old(entries), key), now, rule)]
    {
      hide Recording, Admits, After, Recorded, Pick, Swept, Enumerates, Lookup;
      var entry := Lookup(entries, key);
      var next := After(entry, now, rule);
      ghost var victim := Victim(entries, key, order);
      Requested(entries, histories, last, rule, key, now, order);
      AdmitsByHistory(entries, histories, last, rule, key, now);
      histories := Dropped(histories, victim)[key := Recorded(HistoryOf(histories, key), entry, now, rule)];
      last := now;
      MakeRoom(key, order);
      entries := entries[key := next];
      if !Admits(entry, now, rule) {
        return false, rule.window - (now - next.windowStart);
      }
      allowed, retry := true, 0;
      operations := operations + 1;
      if operations % SWEEP_EVERY == 0 {
        RecordingSwept(entries, histories, now, rule);
        SweptSize(entries, now, rule);
        entries := Sweep(entries, now, rule);
      }
    }
  }

  lemma SweptSize(entries: map<Key, Counter>, now: Time, rule: Rule)
    ensures |Swept(entries, now, rule)| <= |entries|
  {
    Fewer(Swept(entries, now, rule).Keys, entries.Keys);
  }

  // ----- runs -------------------------------------------------------------------------------

  datatype Request = Request(key: Key, at: Time)

  /** The requests of a key that were admitted in an interval, ends included. */
  function Admitted(requests: seq<Request>, answers: seq<bool>, k: Key, from: Time, window: int): nat
    requires |answers| <= |requests|
  {
    if answers == [] then 0
    else
      var i := |answers| - 1;
      Admitted(requests, answers[..i], k, from, window)
      + (if answers[i] && requests[i].key == k && from <= requests[i].at <= from + window then 1 else 0)
  }

  ghost function InHistory(histories: map<Key, History>, k: Key, from: Time, window: int): nat
  {
    if k in histories then InInterval(histories[k].admitted, from, window) else 0
  }

  lemma AdmittedStep(requests: seq<Request>, answers: seq<bool>, allowed: bool, k: Key, from: Time, window: int)
    requires |answers| < |requests|
    ensures var r := requests[|answers|];
            Admitted(requests, answers + [allowed], k, from, window) == Admitted(requests, answers, k, from, window)
              + (if allowed && r.key == k && from <= r.at <= from + window then 1 else 0)
  {
    assert (answers + [allowed])[..|answers|] == answers;
  }

  lemma HistoryStep(h: Option<History>, c: Option<Counter>, now: Time, rule: Rule, from: Time)
    ensures InInterval(Recorded(h, c, now, rule).admitted, from, rule.window)
         == (if h.Some? then InInterval(h.value.admitted, from, rule.window) else 0)
              + (if Admits(c, now, rule) && from <= now <= from + rule.window then 1 else 0)
  {
    var past, next := if h.Some? then h.value else History([], []), Recorded(h, c, now, rule);
    if Admits(c, now, rule) {
      assert next.admitted[..|past.admitted|] == past.admitted;
    }
  }

  type Choice = (nat, set<Key>) -> seq<Key>

  /** In which order a table with these keys is gone through at each request: any order. */
  ghost predicate Chooses(choose: Choice)
  {
    forall i, keys :: Enumerates(choose(i, keys), keys)
  }

  /** The limiter after n of the requests. */
  ghost function StateAt(start: Limiter, requests: seq<Request>, rule: Rule, choose: Choice, sweeping: bool,
                         n: nat): Limiter
    requires Chooses(choose) && n <= |requests|
  {
    if n == 0 then start
    else
      var before, r := StateAt(start, requests, rule, choose, sweeping, n - 1), requests[n - 1];
      Stepped(before, r.key, r.at, rule, choose(n - 1, before.entries.Keys), sweeping)
  }

  /** The answer to request n. */
  ghost predicate AnswerAt(start: Limiter, requests: seq<Request>, rule: Rule, choose: Choice, sweeping: bool, n: nat)
    requires Chooses(choose) && n < |requests|
  {
    Admits(Lookup(StateAt(start, requests, rule, choose, sweeping, n).entries, requests[n].key), requests[n].at, rule)
  }

  /** The key dropped at request n. */
  ghost function DroppedAt(start: Limiter, requests: seq<Request>, rule: Rule, choose: Choice, n: nat): Option<Key>
    requires Chooses(choose) && n < |requests|
  {
    var before := StateAt(start, requests, rule, choose, true, n);
    Victim(before.entries, requests[n].key, choose(n, before.entries.Keys))
  }

  /** The history of every key that was not dropped has all of its admissions. */
  ghost predicate Counted(requests: seq<Request>, answers: seq<bool>, histories: map<Key, History>,
                          dropped: seq<Option<Key>>, window: int)
    requires |answers| <= |requests|
  {
    forall k, from :: Some(k) !in dropped ==>
                        Admitted(requests, answers, k, from, window) <= InHistory(histories, k, from, window)
  }

  lemma CountedStep(requests: seq<Request>, answers: seq<bool>, histories: map<Key, History>, dropped: seq<Option<Key>>,
                    c: Option<Counter>, victim: Option<Key>, rule: Rule)
    requires |answers| < |requests| && Counted(requests, answers, histories, dropped, rule.window)
    requires victim != Some(requests[|answers|].key)
    ensures var r := requests[|answers|];
            Counted(requests, answers + [Admits(c, r.at, rule)],
                    Dropped(histories, victim)[r.key := Recorded(HistoryOf(histories, r.key), c, r.at, rule)],
                    dropped + [victim], rule.window)
  {
    hide Admitted, InInterval, Recorded, Admits;
    var r := requests[|answers|];
    var allowed := Admits(c, r.at, rule);
    forall k, from ensures
        && Admitted(requests, answers + [allowed], k, from, rule.window)
            == Admitted(requests, answers, k, from, rule.window)
            + (if allowed && r.key == k && from <= r.at <= from + rule.window then 1 else 0)
        && InInterval(Recorded(HistoryOf(histories, r.key), c, r.at, rule).admitted, from, rule.window)
            == InHistory(histories, r.key, from, rule.window)
                 + (if allowed && from <= r.at <= from + rule.window then 1 else 0)
    {
      AdmittedStep(requests, answers, allowed, k, from, rule.window);
      HistoryStep(HistoryOf(histories, r.key), c, r.at, rule, from);
    }
  }

  lemma NothingAdmitted(requests: seq<Request>, histories: map<Key, History>, window: int)
    ensures Counted(requests, [], histories, [], window)
  {
  }

  /** Whatever requests come, and in whatever order the table is gone through, it stays within its
      size, and no key that was not dropped for space has more than twice the limit of its requests
      admitted in any interval of one window. */
  method Serve(store: CounterStore, requests: seq<Request>, choose: Choice) returns (answers: seq<bool>)
    requires store.Valid() && Chooses(choose) && (requests != [] ==> store.last <= requests[0].at)
    requires forall i :: 0 < i < |requests| ==> requests[i - 1].at <= requests[i].at
    modifies store
    ensures store.Valid() && |store.entries| <= 4096 && |answers| == |requests|
    ensures store.Now() == StateAt(old(store.Now()), requests, store.rule, choose, true, |requests|)
    ensures forall i :: 0 <= i < |requests| ==>
              answers[i] == AnswerAt(old(store.Now()), requests, store.rule, choose, true, i)
    ensures forall k, from ::
              (forall i :: 0 <= i < |requests| ==>
                 DroppedAt(old(store.Now()), requests, store.rule, choose, i) != Some(k))
              ==> Admitted(requests, answers, k, from, store.rule.window) <= 2 * store.rule.limit
  {
    hide Recording, Recorded, Admits, After, Admitted, Counted, Stepped, Victim, Dropped, HistoryOf, Lookup, Chooses;
    ghost var start := store.Now();
    answers := [];
    ghost var dropped := [];
    NothingAdmitted(requests, store.histories, store.rule.window);
    while |answers| < |requests|
      invariant |answers| <= |requests| && store.Valid() && |dropped| == |answers|
      invariant |answers| < |requests| ==> store.last <= requests[|answers|].at
      invariant store.Now() == StateAt(start, requests, store.rule, choose, true, |answers|)
      invariant forall i :: 0 <= i < |answers| ==>
                  && answers[i] == AnswerAt(start, requests, store.rule, choose, true, i)
                  && dropped[i] == DroppedAt(start, requests, store.rule, choose, i)
      invariant Counted(requests, answers, store.histories, dropped, store.rule.window)
    {
      var n := |answers|;
      var request := requests[n];
      ghost var entry, histories := Lookup(store.entries, request.key), store.histories;
      var order := choose(n, store.entries.Keys);
      InOrder(choose, n, store.entries.Keys);
      ghost var victim := Victim(store.entries, request.key, order);
      NotItself(store.entries, request.key, order);
      var allowed, _ := store.Allow(request.key, request.at, order);
      CountedStep(requests, answers, histories, dropped, entry, victim, store.rule);
      dropped, answers := dropped + [victim], answers + [allowed];
    }
    forall k, from | forall i :: 0 <= i < |requests| ==> DroppedAt(start, requests, store.rule, choose, i) != Some(k)
      ensures Admitted(requests, answers, k, from, store.rule.window) <= 2 * store.rule.limit
    {
      AtMostTwice(store.entries, store.histories, store.last, store.rule, k, from);
      UseCounted(requests, answers, store.histories, dropped, store.rule.window, k, from);
    }
  }

  lemma InOrder(choose: Choice, n: nat, keys: set<Key>)
    requires Chooses(choose)
    ensures Enumerates(choose(n, keys), keys)
  {
  }

  lemma NotItself(table: map<Key, Counter>, key: Key, order: seq<Key>)
    requires |table| <= MAX_KEYS && Enumerates(order, table.Keys)
    ensures Victim(table, key, order) != Some(key)
  {
    VictimLeaves(table, key, order);
  }

  lemma UseCounted(requests: seq<Request>, answers: seq<bool>, histories: map<Key, History>, dropped: seq<Option<Key>>,
                   window: int, k: Key, from: Time)
    requires |answers| <= |requests| && Counted(requests, answers, histories, dropped, window) && Some(k) !in dropped
    ensures Admitted(requests, answers, k, from, window) <= InHistory(histories, k, from, window)
  {
  }

  lemma AtMostTwice(entries: map<Key, Counter>, histories: map<Key, History>, last: Time, rule: Rule, k: Key,
                    from: Time)
    requires Recording(entries, histories, last, rule) && rule.window > 0
    ensures InHistory(histories, k, from, rule.window) <= 2 * rule.limit
  {
    hide Windowed, InInterval;
    if k in histories {
      TwiceTheLimit(histories[k], rule, from);
    }
  }
}
