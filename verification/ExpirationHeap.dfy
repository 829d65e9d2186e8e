/** The expiration queue of the cache provider: a binary heap of entries ordered by expiry
    time, in which every entry also records its own position. The sift loops are those of
    Go's container/heap, which the provider drives through Less, Swap, Push and Pop. */
module ExpirationHeap {

  class ExpirationEntry {
    const at: int
    const key: string
    const generation: nat
    var index: int

    constructor (at: int, key: string, generation: nat)
      ensures this.at == at && this.key == key && this.generation == generation && index == -1
    {
      this.at, this.key, this.generation := at, key, generation;
      index := -1;
    }
  }

  /** Position p holds an expiry no later than that of its child c. */
  ghost predicate Ordered(s: seq<ExpirationEntry>, p: int, c: int)
    requires 0 <= p < |s| && 0 <= c < |s|
  {
    s[p].at <= s[c].at
  }

  function Parent(c: int): int
    requires 0 < c
  {
    (c - 1) / 2
  }

  /** Heap order on the first n entries, except for the links above and below `hole`;
      the entries below the hole are still ordered after the one above it. */
  ghost predicate OrderedExcept(s: seq<ExpirationEntry>, n: int, hole: int)
    requires 0 <= n <= |s|
  {
    && (forall c :: 0 < c < n && c != hole && Parent(c) != hole ==> Ordered(s, Parent(c), c))
    && (0 < hole < n ==>
          forall c :: 0 < c < n && Parent(c) == hole ==> Ordered(s, Parent(hole), c))
  }

  ghost predicate OrderedAbove(s: seq<ExpirationEntry>, n: int, hole: int)
    requires 0 <= n <= |s|
  {
    0 < hole < n ==> Ordered(s, Parent(hole), hole)
  }

  ghost predicate OrderedBelow(s: seq<ExpirationEntry>, n: int, hole: int)
    requires 0 <= n <= |s|
  {
    forall c :: 0 < c < n && Parent(c) == hole ==> Ordered(s, hole, c)
  }

  ghost predicate HeapOrdered(s: seq<ExpirationEntry>, n: int)
    requires 0 <= n <= |s|
  {
    forall c :: 0 < c < n ==> Ordered(s, Parent(c), c)
  }

  function Swapped(s: seq<ExpirationEntry>, i: int, j: int): (r: seq<ExpirationEntry>)
    requires 0 <= i < |s| && 0 <= j < |s|
    ensures |r| == |s|
    ensures forall k :: 0 <= k < |s| ==> r[k] == (if k == i then s[j] else if k == j then s[i] else s[k])
    ensures (set e | e in r) == (set e | e in s)
  {
    var r := s[i := s[j]][j := s[i]];
    assert forall e | e in s :: e in r by {
      forall e | e in s ensures e in r {
        var k :| 0 <= k < |s| && s[k] == e;
        assert r[if k == i then j else if k == j then i else k] == e;
      }
    }
    r
  }

  /** The root of a heap expires first. */
  lemma {:induction false} RootIsEarliest(s: seq<ExpirationEntry>, n: int, c: int)
    requires 0 <= c < n <= |s| && HeapOrdered(s, n)
    ensures s[0].at <= s[c].at
    decreases c
  {
    if c > 0 {
      assert Ordered(s, Parent(c), c);
      RootIsEarliest(s, n, Parent(c));
    }
  }

  /** Moving a too-early entry one level up keeps the order around the new hole. */
  lemma UpStep(s: seq<ExpirationEntry>, n: int, j: int)
    requires 0 < j < n <= |s| && s[j].at < s[Parent(j)].at
    requires OrderedExcept(s, n, j) && OrderedBelow(s, n, j)
    ensures var t := Swapped(s, Parent(j), j);
            OrderedExcept(t, n, Parent(j)) && OrderedBelow(t, n, Parent(j))
  {
    var i := Parent(j);
    var t := Swapped(s, i, j);
    assert i > 0 ==> Ordered(s, Parent(i), i);
    forall c | 0 < c < n && c != i
      ensures Parent(c) != i ==> Ordered(t, Parent(c), c)
      ensures Parent(c) == i ==> Ordered(t, i, c) && (i > 0 ==> Ordered(t, Parent(i), c))
    {
      if c != j && Parent(c) != j {
        assert Ordered(s, Parent(c), c);
      }
    }
  }

  /** Moving an entry below its earlier child keeps the order around the new hole. */
  lemma DownStep(s: seq<ExpirationEntry>, n: int, i: int, j: int)
    requires 0 <= i < j < n <= |s| && Parent(j) == i && s[j].at < s[i].at
    requires OrderedExcept(s, n, i)
    requires forall c :: 0 < c < n && Parent(c) == i ==> Ordered(s, j, c)
    ensures var t := Swapped(s, i, j); OrderedExcept(t, n, j) && OrderedAbove(t, n, j)
  {
    var t := Swapped(s, i, j);
    forall c | 0 < c < n && c != j
      ensures Parent(c) != j ==> Ordered(t, Parent(c), c)
      ensures Parent(c) == j ==> Ordered(t, i, c)
    {
      if c == i {
        assert Ordered(s, Parent(i), j);
      } else if Parent(c) == i {
        assert Ordered(s, j, c);
      } else {
        assert Ordered(s, Parent(c), c);
      }
    }
  }

  lemma NoHole(s: seq<ExpirationEntry>, n: int, hole: int)
    requires 0 <= n <= |s|
    requires OrderedExcept(s, n, hole) && OrderedAbove(s, n, hole) && OrderedBelow(s, n, hole)
    ensures HeapOrdered(s, n)
  {
  }

  class Heap {
    var entries: seq<ExpirationEntry>

    ghost function Elements(): set<ExpirationEntry>
      reads this
    {
      set e | e in entries
    }

    /** Every entry knows its own position, so no entry occurs twice. */
    ghost predicate Indexed()
      reads this, entries
    {
      forall i :: 0 <= i < |entries| ==> entries[i].index == i
    }

    ghost predicate Valid()
      reads this, entries
    {
      Indexed() && HeapOrdered(entries, |entries|)
    }

    constructor ()
      ensures Valid() && entries == []
    {
      entries := [];
    }

    method Swap(i: int, j: int)
      requires Indexed() && 0 <= i < |entries| && 0 <= j < |entries|
      modifies this, Elements()
      ensures Indexed() && entries == Swapped(old(entries), i, j)
    {
      entries := Swapped(entries, i, j);
      entries[i].index := i;
      entries[j].index := j;
    }

    /** Lifts the entry at `start`; only the first n entries form the heap. */
    method Up(start: int, ghost n: int)
      requires Indexed() && 0 <= start < n <= |entries|
      requires OrderedExcept(entries, n, start) && OrderedBelow(entries, n, start)
      modifies this, Elements()
      ensures Indexed() && Elements() == old(Elements()) && |entries| == old(|entries|)
      ensures entries[n..] == old(entries[n..]) && HeapOrdered(entries, n)
    {
      var j := start;
      while j > 0 && entries[j].at < entries[Parent(j)].at
        invariant 0 <= j < n <= |entries| == old(|entries|)
        invariant Indexed() && Elements() == old(Elements())
        invariant entries[n..] == old(entries[n..])
        invariant OrderedExcept(entries, n, j) && OrderedBelow(entries, n, j)
      {
        UpStep(entries, n, j);
        Swap(Parent(j), j);
        j := Parent(j);
      }
      NoHole(entries, n, j);
    }

    /** Sinks the entry at `start` within the first n entries; tells whether it moved. */
    method Down(start: int, n: int) returns (moved: bool)
      requires Indexed() && 0 <= start <= n <= |entries|
      requires OrderedExcept(entries, n, start)
      modifies this, Elements()
      ensures Indexed() && Elements() == old(Elements()) && |entries| == old(|entries|)
      ensures entries[n..] == old(entries[n..])
      ensures moved ==> HeapOrdered(entries, n)
      ensures !moved ==> OrderedExcept(entries, n, start) && OrderedBelow(entries, n, start)
    {
      var i := start;
      while 2 * i + 1 < n
        invariant start <= i <= n <= |entries| == old(|entries|)
        invariant Indexed() && Elements() == old(Elements())
        invariant entries[n..] == old(entries[n..])
        invariant OrderedExcept(entries, n, i)
        invariant i != start ==> OrderedAbove(entries, n, i)
      {
        var j := 2 * i + 1;
        if j + 1 < n && entries[j + 1].at < entries[j].at {
          j := j + 1;
        }
        if entries[i].at <= entries[j].at {
          break;
        }
        DownStep(entries, n, i, j);
        Swap(i, j);
        i := j;
      }
      moved := i > start;
      if moved {
        NoHole(entries, n, i);
      }
    }

    method Push(entry: ExpirationEntry)
      requires Valid() && entry !in Elements()
      modifies this, Elements(), entry
      ensures Valid() && Elements() == old(Elements()) + {entry} && |entries| == old(|entries|) + 1
    {
      entry.index := |entries|;
      entries := entries + [entry];
      Up(|entries| - 1, |entries|);
    }

    /** Drops the last slot, as the interface's own Pop does. */
    method DropLast() returns (last: ExpirationEntry)
      requires Indexed() && |entries| > 0 && HeapOrdered(entries, |entries| - 1)
      modifies this, Elements()
      ensures Valid() && last == old(entries[|entries| - 1]) && last.index == -1
      ensures Elements() == old(Elements()) - {last} && last in old(Elements()) && |entries| == old(|entries|) - 1
    {
      last := entries[|entries| - 1];
      entries := entries[..|entries| - 1];
      assert old(entries) == entries + [last];
      last.index := -1;
    }

    method Pop() returns (entry: ExpirationEntry)
      requires Valid() && |entries| > 0
      modifies this, Elements()
      ensures Valid() && entry == old(entries[0]) && entry.index == -1
      ensures Elements() == old(Elements()) - {entry} && entry in old(Elements()) && |entries| == old(|entries|) - 1
      ensures forall e :: e in old(Elements()) ==> entry.at <= e.at
    {
      forall c | 0 <= c < |entries|
        ensures entries[0].at <= entries[c].at
      {
        RootIsEarliest(entries, |entries|, c);
      }
      var n := |entries| - 1;
      Swap(0, n);
      assert entries[n] == old(entries[0]);
      var _ := Down(0, n);
      entry := DropLast();
    }

    /** Removes the entry at position i. */
    method Remove(i: int) returns (entry: ExpirationEntry)
      requires Valid() && 0 <= i < |entries|
      modifies this, Elements()
      ensures Valid() && entry == old(entries[i]) && entry.index == -1
      ensures Elements() == old(Elements()) - {entry} && entry in old(Elements()) && |entries| == old(|entries|) - 1
    {
      var n := |entries| - 1;
      if n != i {
        Swap(i, n);
        var moved := Down(i, n);
        if !moved {
          Up(i, n);
        }
      }
      entry := DropLast();
    }
  }
}
