/** Building cache keys, and what equal keys mean. */
module KeyDecoding {
  import opened Common
  import opened Text
  import opened Sorting
  import opened CacheKey
  import Query

  // ----- what equal keys mean ---------------------------------------------------------------

  lemma SplitEqual<T>(a: seq<T>, x: seq<T>, b: seq<T>, y: seq<T>)
    requires |x| == |y| || |a| == |b|
    ensures a + x == b + y <==> a == b && x == y
  {
    if a + x == b + y {
      assert |a + x| == |b + y|;
      assert a == (a + x)[..|a|] && b == (b + y)[..|b|] && x == (a + x)[|a|..] && y == (b + y)[|b|..];
    }
  }

  /** Two requests agree on a part of the key. */
  predicate Agree(c: Config, r: Request, query: string, r': Request, query': string, part: Part)
  {
    match part {
      case Method => r.verb == r'.verb
      case Scheme => SchemeOf(r) == SchemeOf(r')
      case Host => c.coding.lower(r.host) == c.coding.lower(r'.host)
      case Path => r.path == r'.path
      case QueryPart => query == query'
      case Other => true
    }
  }

  lemma {:induction false} PartsEqual(c: Config, r: Request, q: string, r': Request, q': string, parts: seq<Part>)
    ensures |PartFields(c, r, q, parts)| == |PartFields(c, r', q', parts)|
    ensures PartFields(c, r, q, parts) == PartFields(c, r', q', parts) <==>
              forall i :: 0 <= i < |parts| ==> Agree(c, r, q, r', q', parts[i])
  {
    if parts != [] {
      var front, last := parts[..|parts| - 1], parts[|parts| - 1];
      PartsEqual(c, r, q, r', q', front);
      SplitEqual(PartFields(c, r, q, front), PartField(c, r, q, last), PartFields(c, r', q', front),
                 PartField(c, r', q', last));
      assert forall i :: 0 <= i < |front| ==> parts[i] == front[i];
    }
  }

  predicate SameHeader(c: Config, r: Request, r': Request, name: string)
  {
    c.acceptEncoding(name) || Values(r.headers, c.canonical(name)) == Values(r'.headers, c.canonical(name))
  }

  lemma {:induction false} HeadersEqual(c: Config, r: Request, r': Request, names: seq<string>)
    ensures |HeaderGroups(c, r, names)| == |HeaderGroups(c, r', names)|
    ensures HeaderGroups(c, r, names) == HeaderGroups(c, r', names) <==>
              forall i :: 0 <= i < |names| ==> SameHeader(c, r, r', names[i])
  {
    if names != [] {
      var front, name := names[..|names| - 1], names[|names| - 1];
      HeadersEqual(c, r, r', front);
      var x := if c.acceptEncoding(name) then []
               else [Group("header", c.canonical(name), Values(r.headers, c.canonical(name)))];
      var y := if c.acceptEncoding(name) then []
               else [Group("header", c.canonical(name), Values(r'.headers, c.canonical(name)))];
      SplitEqual(HeaderGroups(c, r, front), x, HeaderGroups(c, r', front), y);
      assert forall i :: 0 <= i < |front| ==> names[i] == front[i];
      assert x == y <==> SameHeader(c, r, r', name) by {
        assert x == y ==> c.acceptEncoding(name) || x[0] == y[0];
      }
    }
  }

  predicate SameCookie(r: Request, r': Request, name: string)
  {
    CookieValues(r.cookies, name) == CookieValues(r'.cookies, name)
  }

  lemma {:induction false} CookiesEqual(r: Request, r': Request, names: seq<string>)
    ensures |CookieGroups(r, names)| == |CookieGroups(r', names)| == |names|
    ensures CookieGroups(r, names) == CookieGroups(r', names) <==>
              forall i :: 0 <= i < |names| ==> SameCookie(r, r', names[i])
  {
    if names != [] {
      var front, name := names[..|names| - 1], names[|names| - 1];
      CookiesEqual(r, r', front);
      var x := [Group("cookie", name, CookieValues(r.cookies, name))];
      var y := [Group("cookie", name, CookieValues(r'.cookies, name))];
      SplitEqual(CookieGroups(r, front), x, CookieGroups(r', front), y);
      assert forall i :: 0 <= i < |front| ==> names[i] == front[i];
      assert x == y <==> SameCookie(r, r', name) by {
        assert x == y ==> x[0] == y[0];
      }
    }
  }

  lemma {:induction false} VariedAt(varied: map<string, seq<string>>, names: seq<string>)
    ensures |VariedGroups(varied, names)| == |names|
    ensures forall i :: 0 <= i < |names| ==>
              VariedGroups(varied, names)[i] == Group("header", names[i], Values(varied, names[i]))
  {
    if names != [] {
      VariedAt(varied, names[..|names| - 1]);
    }
  }

  /** Varied headers are told apart by their sorted groups, whatever order their names came in. */
  lemma VariedEqual(v: map<string, seq<string>>, names: seq<string>, v': map<string, seq<string>>, names': seq<string>)
    requires SortedNames(names, v.Keys) && SortedNames(names', v'.Keys)
    ensures VariedGroups(v, names) == VariedGroups(v', names') <==> v == v'
  {
    hide SortedNames;
    VariedAt(v, names);
    VariedAt(v', names');
    if v == v' {
      OneOrder(names, names', v.Keys);
    }
    if VariedGroups(v, names) == VariedGroups(v', names') {
      assert |names| == |names'|;
      forall i | 0 <= i < |names|
        ensures names[i] == names'[i] && Values(v, names[i]) == Values(v', names'[i])
      {
        assert VariedGroups(v, names)[i] == VariedGroups(v', names')[i];
      }
      assert names == names';
      forall k
        ensures k in v <==> k in v'
        ensures k in v ==> Values(v, k) == Values(v', k)
      {
        NamesAreKeys(names, v.Keys, k);
        NamesAreKeys(names, v'.Keys, k);
      }
      forall k | k in v
        ensures k in v' && v[k] == v'[k]
      {
        assert Values(v, k) == Values(v', k);
      }
      assert v == v';
    }
  }

  /** The names go with the varied headers: sorted, and none for a base key. */
  ghost predicate NamesOf(varied: Varied, names: seq<string>)
  {
    if varied.None? then names == [] else SortedNames(names, varied.value.Keys)
  }

  /** The names under which a base key has its headers. */
  function KeyHeaders(c: Config, names: seq<string>): seq<string>
  {
    if names == [] then []
    else
      var name := names[|names| - 1];
      KeyHeaders(c, names[..|names| - 1]) + if c.acceptEncoding(name) then [] else [c.canonical(name)]
  }

  lemma {:induction false} HeadersAt(c: Config, r: Request, names: seq<string>)
    ensures |HeaderGroups(c, r, names)| == |KeyHeaders(c, names)|
    ensures forall i :: 0 <= i < |KeyHeaders(c, names)| ==>
              var name := KeyHeaders(c, names)[i];
              HeaderGroups(c, r, names)[i] == Group("header", name, Values(r.headers, name))
  {
    if names != [] {
      HeadersAt(c, r, names[..|names| - 1]);
    }
  }

  /** The headers of a base key read as varied ones: named once each and in order, with their values. */
  ghost predicate SameVaried(c: Config, r: Request, varied: map<string, seq<string>>)
  {
    && SortedNames(KeyHeaders(c, c.headers), varied.Keys)
    && forall k :: k in varied ==> Values(r.headers, k) == varied[k]
  }

  lemma BaseAndVaried(c: Config, r: Request, varied: map<string, seq<string>>, names: seq<string>)
    requires SortedNames(names, varied.Keys)
    ensures HeaderGroups(c, r, c.headers) == VariedGroups(varied, names) <==> SameVaried(c, r, varied)
  {
    hide SortedNames;
    var own := KeyHeaders(c, c.headers);
    HeadersAt(c, r, c.headers);
    VariedAt(varied, names);
    var a, b := HeaderGroups(c, r, c.headers), VariedGroups(varied, names);
    forall k ensures k in varied <==> k in names {
      NamesAreKeys(names, varied.Keys, k);
    }
    if a == b {
      forall i | 0 <= i < |names|
        ensures own[i] == names[i] && Values(r.headers, names[i]) == Values(varied, names[i])
      {
        assert a[i] == b[i];
      }
      assert own == names;
    }
    if SameVaried(c, r, varied) {
      OneOrder(own, names, varied.Keys);
      forall i | 0 <= i < |names| ensures a[i] == b[i] {
        assert names[i] in names;
      }
    }
  }

  /** Two keys agree on their headers: two base keys on the configured ones, two varied keys on the
      varied ones, and a base key with a varied one where it happens to have the same. */
  ghost predicate SameHeaders(c: Config, r: Request, v: Varied, r': Request, v': Varied)
  {
    match (v, v')
    case (None, None) => forall i :: 0 <= i < |c.headers| ==> SameHeader(c, r, r', c.headers[i])
    case (Some(a), Some(b)) => a == b
    case (None, Some(b)) => SameVaried(c, r, b)
    case (Some(a), None) => SameVaried(c, r', a)
  }

  ghost function HeadersOf(c: Config, r: Request, v: Varied, names: seq<string>): seq<Group>
  {
    if v.None? then HeaderGroups(c, r, c.headers) else VariedGroups(v.value, names)
  }

  lemma HeadersOfEqual(c: Config, r: Request, v: Varied, names: seq<string>, r': Request, v': Varied,
                       names': seq<string>)
    requires NamesOf(v, names) && NamesOf(v', names')
    ensures HeadersOf(c, r, v, names) == HeadersOf(c, r', v', names') <==> SameHeaders(c, r, v, r', v')
  {
    hide SameHeader, SortedNames, SameVaried;
    match (v, v') {
      case (None, None) => HeadersEqual(c, r, r', c.headers);
      case (Some(a), Some(b)) => VariedEqual(a, names, b, names');
      case (None, Some(b)) => BaseAndVaried(c, r, b, names');
      case (Some(a), None) => BaseAndVaried(c, r', a, names);
    }
  }

  lemma GroupsEqual(c: Config, r: Request, v: Varied, names: seq<string>, r': Request, v': Varied, names': seq<string>)
    requires NamesOf(v, names) && NamesOf(v', names')
    ensures KeyGroups(c, r, v, names) == KeyGroups(c, r', v', names') <==>
              && SameHeaders(c, r, v, r', v')
              && forall i :: 0 <= i < |c.cookies| ==> SameCookie(r, r', c.cookies[i])
  {
    hide SameHeaders, SameCookie, NamesOf;
    CookiesEqual(r, r', c.cookies);
    HeadersOfEqual(c, r, v, names, r', v', names');
    SplitEqual(HeadersOf(c, r, v, names), CookieGroups(r, c.cookies),
               HeadersOf(c, r', v', names'), CookieGroups(r', c.cookies));
  }

  /** Unique decodability: under one configuration two keys, base or varied, are equal exactly when
      the requests agree on every part the key has, on the ordered values of every header it has,
      and on the ordered values of every cookie it has. */
  lemma EqualKeys(c: Config, r: Request, q: string, v: Varied, names: seq<string>, r': Request, q': string, v': Varied,
                  names': seq<string>)
    requires NamesOf(v, names) && NamesOf(v', names')
    ensures FieldsText(KeyFields(c, r, q, v, names)) == FieldsText(KeyFields(c, r', q', v', names')) <==>
              && (forall i :: 0 <= i < |c.parts| ==> Agree(c, r, q, r', q', c.parts[i]))
              && SameHeaders(c, r, v, r', v')
              && (forall i :: 0 <= i < |c.cookies| ==> SameCookie(r, r', c.cookies[i]))
  {
    hide Agree, SameCookie, SameHeaders, NamesOf, KeyGroups, GroupsFields, PartFields, FieldsText;
    var a, b := KeyFields(c, r, q, v, names), KeyFields(c, r', q', v', names');
    if FieldsText(a) == FieldsText(b) {
      FieldsInjective(a, b);
    }
    var p, p' := PartFields(c, r, q, c.parts), PartFields(c, r', q', c.parts);
    var g, g' := KeyGroups(c, r, v, names), KeyGroups(c, r', v', names');
    PartsEqual(c, r, q, r', q', c.parts);
    SplitEqual(Prefix(c) + p, GroupsFields(g), Prefix(c) + p', GroupsFields(g'));
    SplitEqual(Prefix(c), p, Prefix(c), p');
    if GroupsFields(g) == GroupsFields(g') {
      GroupsInjective(g, g');
    }
    GroupsEqual(c, r, v, names, r', v', names');
  }

  // ----- building a key ---------------------------------------------------------------------

  /** Appends a header or a cookie with its values and their number. */
  method AppendGroup(text: string, g: Group, ghost before: seq<Field>) returns (more: string)
    requires text == FieldsText(before)
    ensures more == FieldsText(before + GroupFields(g))
  {
    hide FieldText, Decimal;
    more := text + FieldText(Field(g.kind, g.name));
    FieldsPush(before, Field(g.kind, g.name));
    ghost var done := before + [Field(g.kind, g.name)];
    var i := 0;
    assert done + ValueFields(g.values[..0]) == done;
    while i < |g.values|
      invariant i <= |g.values| && more == FieldsText(done + ValueFields(g.values[..i]))
    {
      FieldsPush(done + ValueFields(g.values[..i]), Field("value", g.values[i]));
      ValueFieldsPush(g.values[..i], g.values[i]);
      assert g.values[..i + 1] == g.values[..i] + [g.values[i]];
      assert done + ValueFields(g.values[..i]) + [Field("value", g.values[i])] == done + ValueFields(g.values[..i + 1]);
      more := more + FieldText(Field("value", g.values[i]));
      i := i + 1;
    }
    assert g.values[..i] == g.values;
    var count := Field("count", Decimal(|g.values|));
    FieldsPush(done + ValueFields(g.values), count);
    assert done + ValueFields(g.values) + [count] == before + GroupFields(g);
    more := more + FieldText(count);
  }

  lemma FieldsPush(fields: seq<Field>, f: Field)
    ensures FieldsText(fields + [f]) == FieldsText(fields) + FieldText(f)
  {
    hide FieldText;
    FieldsAppend(fields, [f]);
    assert [f][1..] == [];
  }

  lemma {:induction false} ValueFieldsPush(values: seq<string>, v: string)
    ensures ValueFields(values + [v]) == ValueFields(values) + [Field("value", v)]
  {
    if values == [] {
      assert (values + [v])[1..] == [];
    } else {
      ValueFieldsPush(values[1..], v);
      assert (values + [v])[1..] == values[1..] + [v];
    }
  }

  lemma {:induction false} GroupsPush(groups: seq<Group>, g: Group)
    ensures GroupsFields(groups + [g]) == GroupsFields(groups) + GroupFields(g)
  {
    hide GroupFields;
    if groups == [] {
      assert (groups + [g])[1..] == [];
    } else {
      GroupsPush(groups[1..], g);
      assert (groups + [g])[1..] == groups[1..] + [g];
      var x, y, z := GroupFields(groups[0]), GroupsFields(groups[1..]), GroupFields(g);
      assert x + (y + z) == x + y + z;
    }
  }

  method AppendToGroups(text: string, g: Group, ghost base: seq<Field>, ghost groups: seq<Group>) returns (more: string)
    requires text == FieldsText(base + GroupsFields(groups))
    ensures more == FieldsText(base + GroupsFields(groups + [g]))
  {
    hide FieldsText, GroupFields, GroupsFields;
    more := AppendGroup(text, g, base + GroupsFields(groups));
    GroupsPush(groups, g);
    assert base + GroupsFields(groups) + GroupFields(g) == base + (GroupsFields(groups) + GroupFields(g));
  }

  method FindCookies(cookies: seq<(string, string)>, name: string) returns (values: seq<string>)
    ensures values == CookieValues(cookies, name)
  {
    values := [];
    var i := 0;
    while i < |cookies|
      invariant i <= |cookies| && values == CookieValues(cookies[..i], name)
    {
      assert cookies[..i + 1][..i] == cookies[..i];
      if cookies[i].0 == name {
        values := values + [cookies[i].1];
      }
      i := i + 1;
    }
    assert cookies[..|cookies|] == cookies;
  }

  method AppendHeaders(text: string, c: Config, r: Request, ghost base: seq<Field>) returns (more: string)
    requires text == FieldsText(base)
    ensures more == FieldsText(base + GroupsFields(HeaderGroups(c, r, c.headers)))
  {
    hide FieldsText, GroupsFields;
    GroupsNothing();
    assert base + [] == base;
    more := text;
    var i := 0;
    while i < |c.headers|
      invariant i <= |c.headers| && more == FieldsText(base + GroupsFields(HeaderGroups(c, r, c.headers[..i])))
    {
      assert c.headers[..i + 1][..i] == c.headers[..i];
      var name := c.headers[i];
      if !c.acceptEncoding(name) {
        var g := Group("header", c.canonical(name), Values(r.headers, c.canonical(name)));
        more := AppendToGroups(more, g, base, HeaderGroups(c, r, c.headers[..i]));
      } else {
        assert HeaderGroups(c, r, c.headers[..i + 1]) == HeaderGroups(c, r, c.headers[..i]);
      }
      i := i + 1;
    }
    assert c.headers[..|c.headers|] == c.headers;
  }

  method AppendVaried(text: string, varied: map<string, seq<string>>, names: seq<string>, ghost base: seq<Field>)
    returns (more: string)
    requires text == FieldsText(base)
    ensures more == FieldsText(base + GroupsFields(VariedGroups(varied, names)))
  {
    hide FieldsText, GroupsFields;
    GroupsNothing();
    assert base + [] == base;
    more := text;
    var i := 0;
    while i < |names|
      invariant i <= |names| && more == FieldsText(base + GroupsFields(VariedGroups(varied, names[..i])))
    {
      assert names[..i + 1][..i] == names[..i];
      var g := Group("header", names[i], Values(varied, names[i]));
      more := AppendToGroups(more, g, base, VariedGroups(varied, names[..i]));
      i := i + 1;
    }
    assert names[..|names|] == names;
  }

  method AppendCookies(text: string, c: Config, r: Request, ghost base: seq<Field>, ghost groups: seq<Group>)
    returns (more: string)
    requires text == FieldsText(base + GroupsFields(groups))
    ensures more == FieldsText(base + GroupsFields(groups + CookieGroups(r, c.cookies)))
  {
    hide FieldsText, GroupsFields, CookieValues;
    assert groups + [] == groups;
    more := text;
    var i := 0;
    while i < |c.cookies|
      invariant i <= |c.cookies| && more == FieldsText(base + GroupsFields(groups + CookieGroups(r, c.cookies[..i])))
    {
      assert c.cookies[..i + 1][..i] == c.cookies[..i];
      var values := FindCookies(r.cookies, c.cookies[i]);
      var g := Group("cookie", c.cookies[i], values);
      ghost var sofar := groups + CookieGroups(r, c.cookies[..i]);
      more := AppendToGroups(more, g, base, sofar);
      assert sofar + [g] == groups + CookieGroups(r, c.cookies[..i + 1]);
      i := i + 1;
    }
    assert c.cookies[..|c.cookies|] == c.cookies;
  }

  lemma GroupsNothing()
    ensures GroupsFields([]) == []
  {
  }

  method AppendParts(text: string, c: Config, r: Request, query: string, ghost base: seq<Field>) returns (more: string)
    requires text == FieldsText(base)
    ensures more == FieldsText(base + PartFields(c, r, query, c.parts))
  {
    hide FieldsText, FieldText;
    more := text;
    assert base + [] == base;
    var i := 0;
    while i < |c.parts|
      invariant i <= |c.parts| && more == FieldsText(base + PartFields(c, r, query, c.parts[..i]))
    {
      assert c.parts[..i + 1][..i] == c.parts[..i];
      ghost var sofar := base + PartFields(c, r, query, c.parts[..i]);
      var fields := PartField(c, r, query, c.parts[i]);
      assert base + PartFields(c, r, query, c.parts[..i + 1]) == sofar + fields;
      assert sofar + [] == sofar;
      if fields != [] {
        assert fields == [fields[0]];
        FieldsPush(sofar, fields[0]);
        more := more + FieldText(fields[0]);
      }
      i := i + 1;
    }
    assert c.parts[..|c.parts|] == c.parts;
  }

  /** The key of a request: a base key from the configured headers, or a varied key from the varied
      ones, whose names are sorted first. */
  method BuildKey(c: Config, r: Request, varied: Varied) returns (key: string, query: string, names: seq<string>)
    ensures NamesOf(varied, names) && Query.IsText(c.coding, c.query, r.rawQuery, query)
    ensures key == FieldsText(KeyFields(c, r, query, varied, names))
  {
    hide FieldsText, GroupsFields, PartFields, SortedNames, CookieGroups, HeaderGroups, VariedGroups;
    query := Query.Normalize(c.coding, c.query, r.rawQuery);
    key := WritePrefix(c);
    key := AppendParts(key, c, r, query, Prefix(c));
    ghost var base := Prefix(c) + PartFields(c, r, query, c.parts);
    ghost var groups: seq<Group>;
    if varied.None? {
      names := [];
      key := AppendHeaders(key, c, r, base);
      groups := HeaderGroups(c, r, c.headers);
    } else {
      names := SortedKeys(varied.value.Keys);
      key := AppendVaried(key, varied.value, names, base);
      groups := VariedGroups(varied.value, names);
    }
    key := AppendCookies(key, c, r, base, groups);
  }

  method WritePrefix(c: Config) returns (text: string)
    ensures text == FieldsText(Prefix(c))
  {
    hide FieldText;
    var site := Field("site", c.site);
    text := FieldText(site);
    FieldsPush([], site);
    assert [] + [site] == [site];
    if c.namespace != "" {
      var route := Field("origin-route", c.namespace);
      FieldsPush([site], route);
      text := text + FieldText(route);
    }
  }

  // ----- reordered queries ------------------------------------------------------------------

  /** With sorting on, two requests that differ only in their queries have the same key exactly when
      the key has no query or every parameter that counts has the same values in the same order. */
  lemma ReorderedQuery(c: Config, r: Request, raw': string, q: string, q': string, v: Varied, names: seq<string>)
    requires c.query.sorted && Query.Lawful(c.coding) && NamesOf(v, names)
    requires Query.IsText(c.coding, c.query, r.rawQuery, q) && Query.IsText(c.coding, c.query, raw', q')
    ensures FieldsText(KeyFields(c, r, q, v, names)) == FieldsText(KeyFields(c, r.(rawQuery := raw'), q', v, names))
       <==>
              || QueryPart !in c.parts
              || forall k :: Query.Counts(c.coding, c.query, k) ==>
                   Query.ValuesOf(Query.ParsePairs(c.coding, r.rawQuery),
                                  k) == Query.ValuesOf(Query.ParsePairs(c.coding, raw'), k)
  {
    hide FieldsText, KeyFields, Query.Lawful, Query.IsNormal, Query.ValuesOf, Query.Counts, Query.ParsePairs, NamesOf;
    var r' := r.(rawQuery := raw');
    EqualKeys(c, r, q, v, names, r', q', v, names);
    Query.NormalisedEqual(c.coding, c.query, r.rawQuery, raw', q, q');
    assert SameHeaders(c, r, v, r', v);
    assert forall i :: 0 <= i < |c.cookies| ==> SameCookie(r, r', c.cookies[i]);
    assert (forall i :: 0 <= i < |c.parts| ==> Agree(c, r, q, r', q',
                                                     c.parts[i])) <==> QueryPart !in c.parts || q == q' by {
      if QueryPart in c.parts {
        var i :| 0 <= i < |c.parts| && c.parts[i] == QueryPart;
        assert Agree(c, r, q, r', q', c.parts[i]) <==> q == q';
      }
    }
  }
}
