/** The query component of a cache key. */
module Query {
  import opened Common
  import opened Text
  import opened Sorting

  datatype Pair = Pair(key: string, value: string)

  /** Percent-encoding of query text, and lower case. Decoding fails on malformed escapes. */
  datatype Coding = Coding(escape: string -> string, unescape: string -> Option<string>, lower: string -> string)

  /** Decoding undoes encoding, and encoding leaves no separators in the text. */
  ghost predicate Lawful(c: Coding)
  {
    && (forall a :: c.unescape(c.escape(a)) == Some(a))
    && (forall a :: '&' !in c.escape(a) && '=' !in c.escape(a))
  }

  // ----- parsing ----------------------------------------------------------------------------

  function Decoded(c: Coding, s: string): string
  {
    var d := c.unescape(s);
    if d.Some? then d.value else s
  }

  function ParseElement(c: Coding, element: string): Pair
  {
    var parts := Cut(element, '=');
    if parts.None? then Pair(Decoded(c, element), Decoded(c, ""))
    else Pair(Decoded(c, parts.value.0), Decoded(c, parts.value.1))
  }

  /** An element is cut at its first equals sign; one without is a name with no value. */
  lemma ElementMeaning(c: Coding, name: string, value: string)
    requires '=' !in name
    ensures ParseElement(c, name + ['='] + value) == Pair(Decoded(c, name), Decoded(c, value))
    ensures ParseElement(c, name) == Pair(Decoded(c, name), Decoded(c, ""))
  {
    CutAt(name, '=', value);
  }

  function ParsePairs(c: Coding, raw: string): seq<Pair>
    decreases |raw|
  {
    if raw == "" then []
    else
      var parts := Cut(raw, '&');
      if parts.None? then ParseIf(c, raw) else ParseIf(c, parts.value.0) + ParsePairs(c, parts.value.1)
  }

  /** Empty elements count for nothing. */
  function ParseIf(c: Coding, element: string): seq<Pair>
  {
    if element == "" then [] else [ParseElement(c, element)]
  }

  lemma ParseStep(c: Coding, raw: string)
    requires raw != ""
    ensures var parts := Cut(raw, '&');
            ParsePairs(c, raw) == if parts.None? then ParseIf(c, raw) + ParsePairs(c, "")
                                  else ParseIf(c, parts.value.0) + ParsePairs(c, parts.value.1)
  {
  }

  // The elements of a query, without regard to how they are found.

  function Separated(elements: seq<string>): string
  {
    if elements == [] then ""
    else if |elements| == 1 then elements[0]
    else elements[0] + ['&'] + Separated(elements[1..])
  }

  ghost predicate IsSplit(elements: seq<string>, raw: string)
  {
    elements != [] && raw == Separated(elements) && forall e :: e in elements ==> '&' !in e
  }

  function PairsOf(c: Coding, elements: seq<string>): seq<Pair>
  {
    if elements == [] then [] else ParseIf(c, elements[0]) + PairsOf(c, elements[1..])
  }

  /** A query has its elements between the separators, and parsing decodes those that are not empty. */
  lemma {:induction false} ParseSeparated(c: Coding, elements: seq<string>, raw: string)
    requires IsSplit(elements, raw)
    ensures ParsePairs(c, raw) == PairsOf(c, elements)
  {
    hide Cut, ParseElement;
    assert elements[0] in elements;
    if |elements| == 1 {
      assert PairsOf(c, elements) == ParseIf(c, raw) + [];
      if raw != "" {
        ParseStep(c, raw);
        ParseNothing(c);
      }
    } else {
      var rest := Separated(elements[1..]);
      assert forall e :: e in elements[1..] ==> e in elements;
      ParseSeparated(c, elements[1..], rest);
      CutAt(elements[0], '&', rest);
      ParseStep(c, raw);
    }
  }

  method ParseQueryPairs(c: Coding, raw: string) returns (pairs: seq<Pair>)
    ensures pairs == ParsePairs(c, raw)
    ensures forall elements :: IsSplit(elements, raw) ==> pairs == PairsOf(c, elements)
  {
    hide Cut, ParseElement, ParsePairs;
    forall elements | IsSplit(elements, raw)
      ensures ParsePairs(c, raw) == PairsOf(c, elements)
    {
      ParseSeparated(c, elements, raw);
    }
    pairs := [];
    var rest := raw;
    while rest != ""
      invariant pairs + ParsePairs(c, rest) == ParsePairs(c, raw)
      decreases |rest|
    {
      ParseStep(c, rest);
      var element := rest;
      var parts := Cut(rest, '&');
      if parts.Some? {
        element, rest := parts.value.0, parts.value.1;
      } else {
        rest := "";
      }
      assert pairs + (ParseIf(c, element) + ParsePairs(c, rest)) == pairs + ParseIf(c, element) + ParsePairs(c, rest);
      if element == "" {
        continue;
      }
      pairs := pairs + [ParseElement(c, element)];
    }
    ParseNothing(c);
  }

  lemma ParseNothing(c: Coding)
    ensures ParsePairs(c, "") == []
  {
  }

  // ----- filtering --------------------------------------------------------------------------

  /** A pattern is a name, or a prefix followed by a star. */
  predicate Matches(name: string, pattern: string)
  {
    if pattern != "" && pattern[|pattern| - 1] == '*' then pattern[..|pattern| - 1] <= name else name == pattern
  }

  /** The name is the pattern, or the pattern is a prefix of it with a star. */
  ghost predicate Fits(name: string, pattern: string)
  {
    name == pattern || exists prefix: string, rest: string :: pattern == prefix + "*" && name == prefix + rest
  }

  lemma MatchesMeaning(name: string, pattern: string)
    ensures Matches(name, pattern) <==> Fits(name, pattern)
  {
    if pattern != "" && pattern[|pattern| - 1] == '*' {
      var prefix := pattern[..|pattern| - 1];
      assert pattern == prefix + "*";
      if prefix <= name {
        assert name == prefix + name[|prefix|..];
      }
    }
  }

  predicate MatchesAny(name: string, patterns: seq<string>)
  {
    exists i :: 0 <= i < |patterns| && Matches(name, patterns[i])
  }

  /** Which parameters count for the key: the included ones, or all but the excluded ones. */
  predicate Keeps(c: Coding, included: seq<string>, excluded: seq<string>, key: string)
  {
    var lowered := seq(|included|, i requires 0 <= i < |included| => c.lower(included[i]));
    if included != [] then MatchesAny(c.lower(key), lowered)
    else !MatchesAny(c.lower(key), seq(|excluded|, i requires 0 <= i < |excluded| => c.lower(excluded[i])))
  }

  /** A parameter counts when an included pattern fits its name, without regard to case, or, with none
      given, when no excluded one does. */
  lemma KeepsMeaning(c: Coding, included: seq<string>, excluded: seq<string>, key: string)
    ensures Keeps(c, included, excluded, key) <==>
              if included != [] then exists pattern :: pattern in included && Fits(c.lower(key), c.lower(pattern))
              else !exists pattern :: pattern in excluded && Fits(c.lower(key), c.lower(pattern))
  {
    hide Matches, Fits;
    AnyMeaning(c, included, c.lower(key));
    AnyMeaning(c, excluded, c.lower(key));
  }

  lemma AnyMeaning(c: Coding, patterns: seq<string>, name: string)
    ensures MatchesAny(name, seq(|patterns|, i requires 0 <= i < |patterns| => c.lower(patterns[i]))) <==>
              exists pattern :: pattern in patterns && Fits(name, c.lower(pattern))
  {
    hide Matches, Fits;
    var lowered := seq(|patterns|, i requires 0 <= i < |patterns| => c.lower(patterns[i]));
    if MatchesAny(name, lowered) {
      var i :| 0 <= i < |lowered| && Matches(name, lowered[i]);
      MatchesMeaning(name, lowered[i]);
      assert patterns[i] in patterns;
    }
    if pattern :| pattern in patterns && Fits(name, c.lower(pattern)) {
      var i :| 0 <= i < |patterns| && patterns[i] == pattern;
      MatchesMeaning(name, lowered[i]);
    }
  }

  function ValuesOf(pairs: seq<Pair>, key: string): seq<string>
  {
    if pairs == [] then []
    else ValuesOf(pairs[..|pairs| - 1], key)
         + (if pairs[|pairs| - 1].key == key then [pairs[|pairs| - 1].value] else [])
  }

  /** The pairs whose names count, in order. */
  function Kept(c: Coding, included: seq<string>, excluded: seq<string>, pairs: seq<Pair>): seq<Pair>
  {
    if pairs == [] then []
    else
      var last := pairs[|pairs| - 1];
      Kept(c, included, excluded, pairs[..|pairs| - 1])
      + (if Keeps(c, included, excluded, last.key) then [last] else [])
  }

  method Filter(c: Coding, included: seq<string>, excluded: seq<string>, pairs: seq<Pair>) returns (kept: seq<Pair>)
    ensures kept == Kept(c, included, excluded, pairs)
  {
    hide Keeps;
    kept := [];
    var i := 0;
    while i < |pairs|
      invariant i <= |pairs| && kept == Kept(c, included, excluded, pairs[..i])
    {
      assert pairs[..i + 1][..i] == pairs[..i];
      if Keeps(c, included, excluded, pairs[i].key) {
        kept := kept + [pairs[i]];
      }
      i := i + 1;
    }
    assert pairs[..|pairs|] == pairs;
  }

  lemma {:induction false} KeptValues(c: Coding, included: seq<string>, excluded: seq<string>, pairs: seq<Pair>,
                                      k: string)
    ensures ValuesOf(Kept(c, included, excluded, pairs), k)
         == if Keeps(c, included, excluded, k) then ValuesOf(pairs, k) else []
  {
    hide Keeps;
    if pairs != [] {
      var front := pairs[..|pairs| - 1];
      KeptValues(c, included, excluded, front, k);
      ValuesPush(Kept(c, included, excluded, front), pairs[|pairs| - 1], k);
      assert Kept(c, included, excluded, front) + [] == Kept(c, included, excluded, front);
    }
  }

  lemma ValuesPush(pairs: seq<Pair>, p: Pair, k: string)
    ensures ValuesOf(pairs + [p], k) == ValuesOf(pairs, k) + (if p.key == k then [p.value] else [])
  {
    assert (pairs + [p])[..|pairs|] == pairs;
  }

  lemma {:induction false} ValuesAppend(a: seq<Pair>, b: seq<Pair>, k: string)
    ensures ValuesOf(a + b, k) == ValuesOf(a, k) + ValuesOf(b, k)
  {
    if b == [] {
      assert a + b == a;
    } else {
      ValuesAppend(a, b[..|b| - 1], k);
      assert (a + b)[..|a + b| - 1] == a + b[..|b| - 1];
    }
  }

  // ----- sorting by name --------------------------------------------------------------------

  ghost predicate SortedByName(pairs: seq<Pair>)
  {
    forall i, j :: 0 <= i < j < |pairs| ==> !Below(pairs[j].key, pairs[i].key)
  }

  /** The same names with the same values in the same order. */
  ghost predicate SameValues(a: seq<Pair>, b: seq<Pair>)
  {
    forall k :: ValuesOf(a, k) == ValuesOf(b, k)
  }

  /** A pair put before larger names only, behind everything else. */
  ghost predicate Place(pairs: seq<Pair>, p: Pair, at: nat)
  {
    && at <= |pairs| && (at > 0 ==> !Below(p.key, pairs[at - 1].key))
    && forall i :: at <= i < |pairs| ==> Below(p.key, pairs[i].key)
  }

  function Insert(pairs: seq<Pair>, p: Pair, at: nat): seq<Pair>
    requires at <= |pairs|
  {
    pairs[..at] + [p] + pairs[at..]
  }

  lemma InsertSorted(pairs: seq<Pair>, p: Pair, at: nat)
    requires SortedByName(pairs) && Place(pairs, p, at)
    ensures SortedByName(Insert(pairs, p, at))
  {
    hide Below;
    var next := Insert(pairs, p, at);
    forall i | 0 <= i < at
      ensures !Below(p.key, pairs[i].key)
    {
      if i < at - 1 {
        AtMostTransitive(pairs[i].key, pairs[at - 1].key, p.key);
      }
    }
    forall i, j | 0 <= i < j < |next|
      ensures !Below(next[j].key, next[i].key)
    {
      if i == at {
        BelowAsymmetric(p.key, next[j].key);
      }
    }
  }

  lemma InsertValues(pairs: seq<Pair>, p: Pair, at: nat, k: string)
    requires Place(pairs, p, at)
    ensures ValuesOf(Insert(pairs, p, at), k) == ValuesOf(pairs + [p], k)
  {
    hide ValuesOf, Below;
    ValuesAppend(pairs[..at] + [p], pairs[at..], k);
    ValuesPush(pairs[..at], p, k);
    ValuesPush(pairs, p, k);
    assert pairs == pairs[..at] + pairs[at..];
    ValuesAppend(pairs[..at], pairs[at..], k);
    BelowAsymmetric(p.key, p.key);
    NoValues(pairs[at..], p.key);
  }

  lemma {:induction false} NoValues(pairs: seq<Pair>, k: string)
    requires forall i :: 0 <= i < |pairs| ==> pairs[i].key != k
    ensures ValuesOf(pairs, k) == []
  {
    if pairs != [] {
      NoValues(pairs[..|pairs| - 1], k);
    }
  }

  /** Sorts by name and keeps the order of values under each name. */
  method StableSort(pairs: seq<Pair>) returns (ordered: seq<Pair>)
    ensures SortedByName(ordered) && SameValues(pairs, ordered)
  {
    hide Below, ValuesOf;
    ordered := [];
    var n := 0;
    while n < |pairs|
      invariant n <= |pairs| && SortedByName(ordered) && SameValues(pairs[..n], ordered)
    {
      var p, at := pairs[n], |ordered|;
      while at > 0 && Below(p.key, ordered[at - 1].key)
        invariant 0 <= at <= |ordered| && forall i :: at <= i < |ordered| ==> Below(p.key, ordered[i].key)
      {
        at := at - 1;
      }
      InsertSorted(ordered, p, at);
      forall k
        ensures ValuesOf(pairs[..n + 1], k) == ValuesOf(Insert(ordered, p, at), k)
      {
        InsertValues(ordered, p, at, k);
        ValuesPush(ordered, p, k);
        ValuesPush(pairs[..n], p, k);
        assert pairs[..n + 1] == pairs[..n] + [p];
      }
      ordered := Insert(ordered, p, at);
      n := n + 1;
    }
    assert pairs[..|pairs|] == pairs;
  }

  // ----- grouping and encoding --------------------------------------------------------------

  type Values = map<string, seq<string>>

  /** The parameters by name, each with its values in order. */
  ghost predicate Groups(values: Values, pairs: seq<Pair>)
  {
    && (forall k :: k in values ==> values[k] == ValuesOf(pairs, k) && values[k] != [])
    && (forall k :: k !in values ==> ValuesOf(pairs, k) == [])
  }

  lemma GroupsPush(values: Values, pairs: seq<Pair>, p: Pair)
    requires Groups(values, pairs)
    ensures Groups(values[p.key := (if p.key in values then values[p.key] else []) + [p.value]], pairs + [p])
  {
    hide ValuesOf;
    forall k
      ensures ValuesOf(pairs + [p], k) == ValuesOf(pairs, k) + (if p.key == k then [p.value] else [])
    {
      ValuesPush(pairs, p, k);
    }
  }

  method Group(pairs: seq<Pair>) returns (values: Values)
    ensures Groups(values, pairs)
  {
    values := map[];
    var i := 0;
    while i < |pairs|
      invariant i <= |pairs| && Groups(values, pairs[..i])
    {
      hide Groups;
      var p := pairs[i];
      GroupsPush(values, pairs[..i], p);
      assert pairs[..i + 1] == pairs[..i] + [p];
      values := values[p.key := (if p.key in values then values[p.key] else []) + [p.value]];
      i := i + 1;
    }
    assert pairs[..|pairs|] == pairs;
  }

  function Item(c: Coding, p: Pair): string { c.escape(p.key) + ['='] + c.escape(p.value) }

  function Join(c: Coding, pairs: seq<Pair>): string
  {
    if pairs == [] then ""
    else if |pairs| == 1 then Item(c, pairs[0])
    else Item(c, pairs[0]) + ['&'] + Join(c, pairs[1..])
  }

  function OneName(name: string, values: seq<string>): seq<Pair>
  {
    seq(|values|, i requires 0 <= i < |values| => Pair(name, values[i]))
  }

  /** The pairs of a group, names in this order. */
  function Listing(values: Values, names: seq<string>): seq<Pair>
    requires forall i :: 0 <= i < |names| ==> names[i] in values
  {
    if names == [] then []
    else Listing(values, names[..|names| - 1]) + OneName(names[|names| - 1], values[names[|names| - 1]])
  }

  lemma {:induction false} JoinPush(c: Coding, pairs: seq<Pair>, p: Pair)
    ensures Join(c, pairs + [p]) == if pairs == [] then Item(c, p) else Join(c, pairs) + ['&'] + Item(c, p)
  {
    if |pairs| > 1 {
      JoinPush(c, pairs[1..], p);
      assert (pairs + [p])[1..] == pairs[1..] + [p];
    } else if |pairs| == 1 {
      assert (pairs + [p])[1..] == [p];
    }
  }

  /** Appends the values of one name. */
  method EncodeName(c: Coding, name: string, values: seq<string>, text: string, ghost done: seq<Pair>)
      returns (more: string)
    requires text == Join(c, done)
    ensures more == Join(c, done + OneName(name, values))
  {
    hide Join, Item;
    more := text;
    var i := 0;
    assert done + OneName(name, values)[..0] == done;
    while i < |values|
      invariant i <= |values| && more == Join(c, done + OneName(name, values)[..i])
    {
      ghost var sofar := done + OneName(name, values)[..i];
      JoinPush(c, sofar, Pair(name, values[i]));
      JoinEmpty(c, sofar);
      assert done + OneName(name, values)[..i + 1] == sofar + [Pair(name, values[i])];
      more := (if more != "" then more + ['&'] else more) + Item(c, Pair(name, values[i]));
      i := i + 1;
    }
    assert OneName(name, values)[..i] == OneName(name, values);
  }

  /** Writes a group with its names in sorted order. */
  method EncodeValues(c: Coding, values: Values) returns (text: string, names: seq<string>)
    ensures SortedNames(names, values.Keys) && forall i :: 0 <= i < |names| ==> names[i] in values
    ensures text == Join(c, Listing(values, names))
  {
    hide Join, SortedNames, OneName;
    names := SortedKeys(values.Keys);
    forall i | 0 <= i < |names|
      ensures names[i] in values
    {
      NamesAreKeys(names, values.Keys, names[i]);
    }
    text := "";
    JoinEmpty(c, []);
    var n := 0;
    while n < |names|
      invariant n <= |names| && text == Join(c, Listing(values, names[..n]))
    {
      assert names[..n + 1][..n] == names[..n];
      text := EncodeName(c, names[n], values[names[n]], text, Listing(values, names[..n]));
      n := n + 1;
    }
    assert names[..|names|] == names;
  }

  lemma JoinEmpty(c: Coding, pairs: seq<Pair>)
    ensures Join(c, pairs) == "" <==> pairs == []
  {
    if pairs != [] {
      assert '=' in Item(c, pairs[0]);
    }
  }

  // ----- the normal form --------------------------------------------------------------------

  /** The text is the normal form of these parameters: by name, names sorted, values in order. */
  ghost predicate IsNormal(c: Coding, pairs: seq<Pair>, text: string)
  {
    exists values: Values, names ::
      && Groups(values, pairs) && SortedNames(names, values.Keys)
      && (forall i :: 0 <= i < |names| ==> names[i] in values) && text == Join(c, Listing(values, names))
  }

  /** Parameters with the same values have one normal form. */
  lemma NormalUnique(c: Coding, a: seq<Pair>, b: seq<Pair>, s: string, t: string)
    requires IsNormal(c, a, s) && IsNormal(c, b, t) && SameValues(a, b)
    ensures s == t
  {
    hide Join, SortedNames;
    var v, m: seq<string> :| Groups(v, a) && SortedNames(m, v.Keys)
      && (forall i :: 0 <= i < |m| ==> m[i] in v) && s == Join(c, Listing(v, m));
    var w, n: seq<string> :| Groups(w, b) && SortedNames(n, w.Keys)
      && (forall i :: 0 <= i < |n| ==> n[i] in w) && t == Join(c, Listing(w, n));
    assert v == w;
    OneOrder(m, n, v.Keys);
  }

  /** What a listing has for a name is what the group has. */
  lemma {:induction false} ListingValues(values: Values, names: seq<string>, keys: set<string>, k: string)
    requires multiset(names) == multiset(keys) && keys <= values.Keys
    requires forall i :: 0 <= i < |names| ==> names[i] in values
    ensures ValuesOf(Listing(values, names), k) == if k in keys then values[k] else []
  {
    if names == [] {
      assert k in keys <==> k in multiset(keys);
    } else {
      var front, last := names[..|names| - 1], names[|names| - 1];
      assert names == front + [last];
      assert multiset(front) == multiset(names) - multiset{last};
      assert last in multiset(keys);
      assert multiset(keys) - multiset{last} == multiset(keys - {last});
      ListingValues(values, front, keys - {last}, k);
      ValuesAppend(Listing(values, front), OneName(last, values[last]), k);
      OneNameValues(last, values[last], k);
    }
  }

  lemma {:induction false} OneNameValues(name: string, values: seq<string>, k: string)
    ensures ValuesOf(OneName(name, values), k) == if k == name then values else []
  {
    hide ValuesOf;
    if values == [] {
      assert OneName(name, values) == [];
      NoValues([], k);
    } else {
      var front := values[..|values| - 1];
      OneNameValues(name, front, k);
      ValuesPush(OneName(name, front), Pair(name, values[|values| - 1]), k);
      assert OneName(name, values) == OneName(name, front) + [Pair(name, values[|values| - 1])];
      assert values == front + [values[|values| - 1]];
    }
  }

  lemma ParseItem(c: Coding, p: Pair)
    requires Lawful(c)
    ensures ParseElement(c, Item(c, p)) == p && Item(c, p) != "" && '&' !in Item(c, p)
  {
    CutAt(c.escape(p.key), '=', c.escape(p.value));
  }

  /** Parsing an encoded list gives the list back. */
  lemma {:induction false} ParseJoin(c: Coding, pairs: seq<Pair>)
    requires Lawful(c)
    ensures ParsePairs(c, Join(c, pairs)) == pairs
  {
    hide Lawful, Item, ParseElement, Cut;
    if pairs != [] {
      JoinCut(c, pairs);
      JoinEmpty(c, pairs);
      ParseItem(c, pairs[0]);
      ParseStep(c, Join(c, pairs));
      ParseNothing(c);
      assert pairs == [pairs[0]] + pairs[1..];
      if |pairs| > 1 {
        ParseJoin(c, pairs[1..]);
      }
    }
  }

  lemma JoinInjective(c: Coding, a: seq<Pair>, b: seq<Pair>)
    requires Lawful(c) && Join(c, a) == Join(c, b)
    ensures a == b
  {
    ParseJoin(c, a);
    ParseJoin(c, b);
  }

  lemma JoinCut(c: Coding, pairs: seq<Pair>)
    requires Lawful(c) && pairs != []
    ensures Cut(Join(c, pairs), '&') ==
              if |pairs| == 1 then None else Some((Item(c, pairs[0]), Join(c, pairs[1..])))
    ensures |pairs| == 1 ==> Join(c, pairs) == Item(c, pairs[0])
  {
    assert '&' !in Item(c, pairs[0]);
    if |pairs| > 1 {
      CutAt(Item(c, pairs[0]), '&', Join(c, pairs[1..]));
    }
  }

  /** The normal form tells the parameters apart. */
  lemma NormalDecodes(c: Coding, a: seq<Pair>, b: seq<Pair>, text: string)
    requires Lawful(c) && IsNormal(c, a, text) && IsNormal(c, b, text)
    ensures SameValues(a, b)
  {
    hide Join, Lawful;
    var v, m: seq<string> :| Groups(v, a) && SortedNames(m, v.Keys)
      && (forall i :: 0 <= i < |m| ==> m[i] in v) && text == Join(c, Listing(v, m));
    var w, n: seq<string> :| Groups(w, b) && SortedNames(n, w.Keys)
      && (forall i :: 0 <= i < |n| ==> n[i] in w) && text == Join(c, Listing(w, n));
    JoinInjective(c, Listing(v, m), Listing(w, n));
    forall k
      ensures ValuesOf(a, k) == ValuesOf(b, k)
    {
      ListingValues(v, m, v.Keys, k);
      ListingValues(w, n, w.Keys, k);
    }
  }

  // ----- normalising ------------------------------------------------------------------------

  datatype Options = Options(sorted: bool, included: seq<string>, excluded: seq<string>)

  predicate Counts(c: Coding, o: Options, key: string)
  {
    (o.included == [] && o.excluded == []) || Keeps(c, o.included, o.excluded, key)
  }

  /** The parameters of a query that count, in order. */
  function Counted(c: Coding, o: Options, raw: string): seq<Pair>
  {
    var pairs := ParsePairs(c, raw);
    if o.included == [] && o.excluded == [] then pairs else Kept(c, o.included, o.excluded, pairs)
  }

  lemma CountedValues(c: Coding, o: Options, raw: string, k: string)
    ensures ValuesOf(Counted(c, o, raw), k) == if Counts(c, o, k) then ValuesOf(ParsePairs(c, raw), k) else []
  {
    KeptValues(c, o.included, o.excluded, ParsePairs(c, raw), k);
  }

  /** The text of a query in a key: the normal form of the parameters that count; without sorting,
      those in their order; and with nothing to do, the query as it is. */
  ghost predicate IsText(c: Coding, o: Options, raw: string, text: string)
  {
    if o.sorted then IsNormal(c, Counted(c, o, raw), text)
    else if o.included == [] && o.excluded == [] then text == raw
    else text == Join(c, Counted(c, o, raw))
  }

  method Normalize(c: Coding, o: Options, raw: string) returns (text: string)
    ensures IsText(c, o, raw, text)
  {
    hide ValuesOf, Keeps, Join, Groups, SortedNames, ParsePairs, Kept;
    if !o.sorted && o.included == [] && o.excluded == [] {
      return raw;
    }
    var pairs := ParseQueryPairs(c, raw);
    if o.included != [] || o.excluded != [] {
      pairs := Filter(c, o.included, o.excluded, pairs);
    }
    if !o.sorted {
      text := JoinAll(c, pairs);
      return;
    }
    var ordered := StableSort(pairs);
    var values := Group(ordered);
    SameGroups(values, ordered, pairs);
    var names;
    text, names := EncodeValues(c, values);
  }

  lemma SameGroups(values: Values, a: seq<Pair>, b: seq<Pair>)
    requires Groups(values, a) && SameValues(b, a)
    ensures Groups(values, b)
  {
  }

  method JoinAll(c: Coding, pairs: seq<Pair>) returns (text: string)
    ensures text == Join(c, pairs)
  {
    hide Join, Item;
    text := "";
    JoinEmpty(c, []);
    var i := 0;
    while i < |pairs|
      invariant i <= |pairs| && text == Join(c, pairs[..i])
    {
      JoinPush(c, pairs[..i], pairs[i]);
      assert pairs[..i + 1] == pairs[..i] + [pairs[i]];
      JoinEmpty(c, pairs[..i]);
      text := (if i > 0 then text + ['&'] else text) + Item(c, pairs[i]);
      i := i + 1;
    }
    assert pairs[..|pairs|] == pairs;
  }

  /** With sorting on, two queries have the same normal form exactly when every parameter that
      counts has the same values in the same order in both, however the parameters are mixed. */
  lemma NormalisedEqual(c: Coding, o: Options, raw: string, raw': string, s: string, t: string)
    requires Lawful(c) && IsNormal(c, Counted(c, o, raw), s) && IsNormal(c, Counted(c, o, raw'), t)
    ensures s == t <==>
              forall k :: Counts(c, o, k) ==> ValuesOf(ParsePairs(c, raw), k) == ValuesOf(ParsePairs(c, raw'), k)
  {
    hide Join, Keeps, Counts, ParsePairs, ValuesOf, IsNormal, Lawful, Counted;
    var a, b := Counted(c, o, raw), Counted(c, o, raw');
    forall k
      ensures ValuesOf(a, k) == if Counts(c, o, k) then ValuesOf(ParsePairs(c, raw), k) else []
      ensures ValuesOf(b, k) == if Counts(c, o, k) then ValuesOf(ParsePairs(c, raw'), k) else []
    {
      CountedValues(c, o, raw, k);
      CountedValues(c, o, raw', k);
    }
    if s == t {
      NormalDecodes(c, a, b, s);
      forall k | Counts(c, o, k)
        ensures ValuesOf(ParsePairs(c, raw), k) == ValuesOf(ParsePairs(c, raw'), k)
      {
        assert ValuesOf(a, k) == ValuesOf(b, k);
      }
    } else if forall k :: Counts(c, o, k) ==> ValuesOf(ParsePairs(c, raw), k) == ValuesOf(ParsePairs(c, raw'), k) {
      NormalUnique(c, a, b, s, t);
    }
  }

  // ----- normalising twice ------------------------------------------------------------------

  lemma {:induction false} KeptTwice(c: Coding, included: seq<string>, excluded: seq<string>, pairs: seq<Pair>)
    ensures var kept := Kept(c, included, excluded, pairs); Kept(c, included, excluded, kept) == kept
  {
    hide Keeps;
    if pairs != [] {
      var front := Kept(c, included, excluded, pairs[..|pairs| - 1]);
      KeptTwice(c, included, excluded, pairs[..|pairs| - 1]);
      assert front + [] == front;
      assert (front + [pairs[|pairs| - 1]])[..|front|] == front;
    }
  }

  /** Normalising the text of a query again changes nothing. */
  lemma NormalTwice(c: Coding, o: Options, raw: string, s: string, t: string)
    requires Lawful(c) && IsText(c, o, raw, s) && IsText(c, o, s, t)
    ensures t == s
  {
    hide Join, Kept, Lawful, ParsePairs, ValuesOf, Keeps, Groups, SortedNames;
    if o.sorted {
      var v, m: seq<string> :| Groups(v, Counted(c, o, raw)) && SortedNames(m, v.Keys)
        && (forall i :: 0 <= i < |m| ==> m[i] in v) && s == Join(c, Listing(v, m));
      ParseJoin(c, Listing(v, m));
      forall k ensures ValuesOf(Counted(c, o, raw), k) == ValuesOf(Counted(c, o, s), k) {
        CountedValues(c, o, raw, k);
        CountedValues(c, o, s, k);
        ListedValues(c, o, raw, v, m, k);
      }
      NormalUnique(c, Counted(c, o, raw), Counted(c, o, s), s, t);
    } else {
      ParseJoin(c, Counted(c, o, raw));
      KeptTwice(c, o.included, o.excluded, ParsePairs(c, raw));
    }
  }

  lemma ListedValues(c: Coding, o: Options, raw: string, v: Values, m: seq<string>, k: string)
    requires Groups(v, Counted(c, o, raw)) && SortedNames(m, v.Keys) && forall i :: 0 <= i < |m| ==> m[i] in v
    ensures ValuesOf(Listing(v, m), k) == ValuesOf(Counted(c, o, raw), k)
  {
    hide ValuesOf, Counted;
    ListingValues(v, m, v.Keys, k);
  }
}
