/** Byte-wise order of strings, and sorting in place. */
module Sorting {
  import opened Common

  /** The order of Go strings. */
  predicate Below(a: string, b: string)
  {
    if b == "" then false
    else if a == "" then true
    else if a[0] != b[0] then a[0] < b[0]
    else Below(a[1..], b[1..])
  }

  lemma {:induction false} BelowTotal(a: string, b: string)
    ensures a != b ==> Below(a, b) || Below(b, a)
  {
    if a != "" && b != "" && a[0] == b[0] {
      BelowTotal(a[1..], b[1..]);
      assert a == [a[0]] + a[1..] && b == [b[0]] + b[1..];
    }
  }

  lemma {:induction false} BelowAsymmetric(a: string, b: string)
    ensures !Below(a, b) || !Below(b, a)
  {
    if a != "" && b != "" && a[0] == b[0] {
      BelowAsymmetric(a[1..], b[1..]);
    }
  }

  /** "Not below" is transitive. */
  lemma {:induction false} AtMostTransitive(a: string, b: string, c: string)
    requires !Below(b, a) && !Below(c, b)
    ensures !Below(c, a)
  {
    if a != "" && b != "" && c != "" && a[0] == b[0] == c[0] {
      AtMostTransitive(a[1..], b[1..], c[1..]);
    }
  }

  ghost predicate Sorted(s: seq<string>)
  {
    forall i, j :: 0 <= i < j < |s| ==> !Below(s[j], s[i])
  }

  /** The same strings, in any order. */
  ghost predicate Rearranged(s: seq<string>, t: seq<string>)
  {
    multiset(s) == multiset(t)
  }

  lemma RearrangedLength(s: seq<string>, t: seq<string>)
    requires Rearranged(s, t)
    ensures |s| == |t| && Rearranged(t, s)
  {
    assert |multiset(s)| == |s| && |multiset(t)| == |t|;
  }

  lemma RearrangedFront(s: seq<string>, t: seq<string>, x: string)
    requires Rearranged(s + [x], t + [x])
    ensures Rearranged(s, t)
  {
    assert multiset(s + [x]) == multiset(s) + multiset{x};
    assert multiset(t + [x]) == multiset(t) + multiset{x};
    assert multiset(s) == multiset(s) + multiset{x} - multiset{x};
    assert multiset(t) == multiset(t) + multiset{x} - multiset{x};
  }

  lemma RearrangedSwap(s: seq<string>, t: seq<string>, i: nat, j: nat)
    requires Rearranged(s, t) && i < |s| && j < |s|
    ensures Rearranged(s[i := s[j]][j := s[i]], t)
  {
  }

  lemma SortedFront(s: seq<string>)
    requires Sorted(s) && s != []
    ensures Sorted(s[..|s| - 1])
  {
  }

  /** A sequence has one sorted arrangement. */
  lemma {:induction false} SortedUnique(s: seq<string>, t: seq<string>)
    requires Sorted(s) && Sorted(t) && Rearranged(s, t)
    ensures s == t
  {
    hide Below, Rearranged, Sorted;
    RearrangedLength(s, t);
    if s != [] {
      var x, y := s[|s| - 1], t[|t| - 1];
      var front, back := s[..|s| - 1], t[..|t| - 1];
      assert s == front + [x] && t == back + [y];
      LastIsTop(s, t);
      LastIsTop(t, s);
      BelowTotal(x, y);
      RearrangedFront(front, back, x);
      SortedFront(s);
      SortedFront(t);
      SortedUnique(front, back);
    }
  }

  /** The last of a sorted sequence is not below any element of an arrangement of it. */
  lemma LastIsTop(s: seq<string>, t: seq<string>)
    requires Sorted(s) && Rearranged(s, t) && s != [] && t != []
    ensures !Below(s[|s| - 1], t[|t| - 1])
  {
    var y := t[|t| - 1];
    assert y in multiset(t);
    assert y in s;
    var i :| 0 <= i < |s| && s[i] == y;
    BelowAsymmetric(y, y);
  }

  /** Sorted up to and including `index`, were it not for the element at `current`. */
  ghost predicate SortedBut(s: seq<string>, index: nat, current: nat)
  {
    index < |s| && forall i, j :: 0 <= i < j <= index && j != current ==> !Below(s[j], s[i])
  }

  lemma SwapSorts(s: seq<string>, index: nat, current: nat)
    requires SortedBut(s, index, current) && 0 < current <= index && Below(s[current], s[current - 1])
    ensures SortedBut(s[current := s[current - 1]][current - 1 := s[current]], index, current - 1)
  {
    BelowAsymmetric(s[current], s[current - 1]);
  }

  lemma InPlace(s: seq<string>, index: nat, current: nat)
    requires SortedBut(s, index, current) && current <= index
    requires current == 0 || !Below(s[current], s[current - 1])
    ensures Sorted(s[..index + 1])
  {
    forall i | 0 <= i < current
      ensures !Below(s[current], s[i])
    {
      if i < current - 1 {
        AtMostTransitive(s[i], s[current - 1], s[current]);
      }
    }
  }

  /** Sorts by moving each string down past the larger ones before it. */
  method SortStrings(values: array<string>)
    modifies values
    ensures Sorted(values[..]) && Rearranged(values[..], old(values[..]))
  {
    hide Sorted, SortedBut, Below, Rearranged;
    RearrangedSelf(values[..]);
    var index := 1;
    SortedShort(values[..Min(1, values.Length)]);
    while index < values.Length
      invariant 1 <= index && (index <= values.Length || index == 1)
      invariant Sorted(values[..Min(index, values.Length)]) && Rearranged(values[..], old(values[..]))
    {
      var current := index;
      SortedStart(values[..], index);
      while current > 0 && Below(values[current], values[current - 1])
        invariant current <= index && SortedBut(values[..], index, current)
        invariant Rearranged(values[..], old(values[..]))
      {
        SwapSorts(values[..], index, current);
        RearrangedSwap(values[..], old(values[..]), current, current - 1);
        ghost var before := values[..];
        values[current], values[current - 1] := values[current - 1], values[current];
        assert values[..] == before[current := before[current - 1]][current - 1 := before[current]];
        current := current - 1;
      }
      InPlace(values[..], index, current);
      index := index + 1;
      assert values[..][..index] == values[..index];
    }
    assert values[..Min(index, values.Length)] == values[..];
  }

  lemma RearrangedSelf(s: seq<string>)
    ensures Rearranged(s, s)
  {
  }

  lemma SortedShort(s: seq<string>)
    requires |s| <= 1
    ensures Sorted(s)
  {
  }

  lemma SortedStart(s: seq<string>, index: nat)
    requires index < |s| && Sorted(s[..index])
    ensures SortedBut(s, index, index)
  {
    forall i, j | 0 <= i < j < index
      ensures !Below(s[j], s[i])
    {
      assert s[..index][i] == s[i] && s[..index][j] == s[j];
    }
  }

  // ----- the keys of a map ------------------------------------------------------------------

  ghost predicate SortedNames(names: seq<string>, keys: set<string>)
  {
    Sorted(names) && multiset(names) == multiset(keys)
  }

  /** Collects keys in whatever order they come and sorts them. */
  method SortedKeys(keys: set<string>) returns (names: seq<string>)
    ensures SortedNames(names, keys)
  {
    hide Sorted, Below;
    var collected: seq<string> := [];
    var todo := keys;
    while todo != {}
      invariant todo <= keys && multiset(collected) == multiset(keys - todo)
      decreases |todo|
    {
      var name :| name in todo;
      assert keys - (todo - {name}) == (keys - todo) + {name};
      collected := collected + [name];
      todo := todo - {name};
    }
    assert keys - {} == keys;
    var values := new string[|collected|](i requires 0 <= i < |collected| => collected[i]);
    assert values[..] == collected;
    SortStrings(values);
    names := values[..];
  }

  /** Whatever order the keys came in, their sorted sequence is the same. */
  lemma OneOrder(a: seq<string>, b: seq<string>, keys: set<string>)
    requires SortedNames(a, keys) && SortedNames(b, keys)
    ensures a == b
  {
    SortedUnique(a, b);
  }

  lemma NamesAreKeys(names: seq<string>, keys: set<string>, k: string)
    requires SortedNames(names, keys)
    ensures k in names <==> k in keys
  {
    assert k in names <==> k in multiset(names);
    assert k in keys <==> k in multiset(keys);
  }
}
