/** Cache keys: fields written with their lengths, from a request and a handler's configuration. */
module CacheKey {
  import opened Common
  import opened Text
  import opened Sorting
  import Query

  // ----- fields -----------------------------------------------------------------------------

  datatype Field = Field(name: string, value: string)

  function Sized(s: string): string { Decimal(|s|) + [':'] + s }

  function FieldText(f: Field): string { Sized(f.name) + Sized(f.value) }

  function FieldsText(fields: seq<Field>): string
  {
    if fields == [] then "" else FieldText(fields[0]) + FieldsText(fields[1..])
  }

  lemma DecimalDigits(n: nat, m: nat)
    ensures ':' !in Decimal(n) && (Decimal(n) == Decimal(m) ==> n == m)
  {
    DigitsOfDecimal(n);
    DigitsOfDecimal(m);
  }

  /** A sized text can be told from what follows it. */
  lemma SizedPrefix(s: string, rest: string, t: string, rest': string)
    requires Sized(s) + rest == Sized(t) + rest'
    ensures s == t && rest == rest'
  {
    DecimalDigits(|s|, |t|);
    DecimalDigits(|t|, |s|);
    assert Sized(s) + rest == Decimal(|s|) + [':'] + (s + rest);
    assert Sized(t) + rest' == Decimal(|t|) + [':'] + (t + rest');
    CutAt(Decimal(|s|), ':', s + rest);
    CutAt(Decimal(|t|), ':', t + rest');
    assert (s + rest)[..|s|] == s && (t + rest')[..|t|] == t;
    assert (s + rest)[|s|..] == rest && (t + rest')[|t|..] == rest';
  }

  lemma FieldPrefix(f: Field, rest: string, g: Field, rest': string)
    requires FieldText(f) + rest == FieldText(g) + rest'
    ensures f == g && rest == rest'
  {
    hide Sized;
    assert FieldText(f) + rest == Sized(f.name) + (Sized(f.value) + rest);
    assert FieldText(g) + rest' == Sized(g.name) + (Sized(g.value) + rest');
    SizedPrefix(f.name, Sized(f.value) + rest, g.name, Sized(g.value) + rest');
    SizedPrefix(f.value, rest, g.value, rest');
  }

  lemma FieldNotEmpty(f: Field)
    ensures FieldText(f) != ""
  {
  }

  /** The text of a sequence of fields determines the fields. */
  lemma {:induction false} FieldsInjective(a: seq<Field>, b: seq<Field>)
    requires FieldsText(a) == FieldsText(b)
    ensures a == b
  {
    hide FieldText;
    if a == [] {
      if b != [] {
        FieldNotEmpty(b[0]);
      }
    } else if b == [] {
      FieldNotEmpty(a[0]);
    } else {
      FieldPrefix(a[0], FieldsText(a[1..]), b[0], FieldsText(b[1..]));
      FieldsInjective(a[1..], b[1..]);
      assert a == [a[0]] + a[1..] && b == [b[0]] + b[1..];
    }
  }

  lemma {:induction false} FieldsAppend(a: seq<Field>, b: seq<Field>)
    ensures FieldsText(a + b) == FieldsText(a) + FieldsText(b)
  {
    hide FieldText;
    if a == [] {
      assert a + b == b;
    } else {
      FieldsAppend(a[1..], b);
      assert (a + b)[1..] == a[1..] + b;
      var x, y, z := FieldText(a[0]), FieldsText(a[1..]), FieldsText(b);
      assert x + (y + z) == x + y + z;
    }
  }

  // ----- lists of values --------------------------------------------------------------------

  /** A header or a cookie with all its values, closed by their number. */
  datatype Group = Group(kind: string, name: string, values: seq<string>)

  function ValueFields(values: seq<string>): seq<Field>
  {
    if values == [] then [] else [Field("value", values[0])] + ValueFields(values[1..])
  }

  function Tail(values: seq<string>, count: nat): seq<Field>
  {
    ValueFields(values) + [Field("count", Decimal(count))]
  }

  function GroupFields(g: Group): seq<Field>
  {
    [Field(g.kind, g.name)] + Tail(g.values, |g.values|)
  }

  function GroupsFields(groups: seq<Group>): seq<Field>
  {
    if groups == [] then [] else GroupFields(groups[0]) + GroupsFields(groups[1..])
  }

  lemma {:induction false} TailPrefix(a: seq<string>, n: nat, rest: seq<Field>, b: seq<string>, m: nat,
                                      rest': seq<Field>)
    requires Tail(a, n) + rest == Tail(b, m) + rest'
    ensures a == b && rest == rest'
  {
    hide Decimal;
    var s, t := Tail(a, n) + rest, Tail(b, m) + rest';
    TailHead(a, n, rest);
    TailHead(b, m, rest');
    if a != [] && b != [] {
      TailPrefix(a[1..], n, rest, b[1..], m, rest');
      assert a == [a[0]] + a[1..] && b == [b[0]] + b[1..];
    }
  }

  lemma TailHead(a: seq<string>, n: nat, rest: seq<Field>)
    ensures var s := Tail(a, n) + rest;
            && s != [] && s[0].name == (if a == [] then "count" else "value") && (a == [] ==> s[1..] == rest)
            && (a != [] ==> s[0] == Field("value", a[0]) && s[1..] == Tail(a[1..], n) + rest)
  {
    hide Decimal;
    if a != [] {
      assert Tail(a, n) == [Field("value", a[0])] + Tail(a[1..], n);
    }
  }

  lemma GroupPrefix(g: Group, rest: seq<Field>, h: Group, rest': seq<Field>)
    requires GroupFields(g) + rest == GroupFields(h) + rest'
    ensures g == h && rest == rest'
  {
    hide Tail;
    var s, t := GroupFields(g) + rest, GroupFields(h) + rest';
    assert s[0] == Field(g.kind, g.name) && s[1..] == Tail(g.values, |g.values|) + rest;
    assert t[0] == Field(h.kind, h.name) && t[1..] == Tail(h.values, |h.values|) + rest';
    TailPrefix(g.values, |g.values|, rest, h.values, |h.values|, rest');
  }

  lemma {:induction false} GroupsInjective(a: seq<Group>, b: seq<Group>)
    requires GroupsFields(a) == GroupsFields(b)
    ensures a == b
  {
    hide Tail;
    if a != [] && b != [] {
      GroupPrefix(a[0], GroupsFields(a[1..]), b[0], GroupsFields(b[1..]));
      GroupsInjective(a[1..], b[1..]);
      assert a == [a[0]] + a[1..] && b == [b[0]] + b[1..];
    }
  }

  // ----- the key of a request ---------------------------------------------------------------

  datatype Part = Method | Scheme | Host | Path | QueryPart | Other

  datatype Config = Config(
    site: string, namespace: string, parts: seq<Part>, query: Query.Options, headers: seq<string>, cookies: seq<string>,
    coding: Query.Coding, canonical: string -> string, acceptEncoding: string -> bool)

  datatype Request = Request(
    verb: string, scheme: string, tls: bool, host: string, path: string, rawQuery: string,
    headers: map<string, seq<string>>,  // by canonical name
    cookies: seq<(string, string)>)

  type Varied = Option<map<string, seq<string>>>

  function SchemeOf(r: Request): string
  {
    if r.scheme != "" then r.scheme else if r.tls then "https" else "http"
  }

  /** A scheme that the request states counts; of requests without one, those over TLS have another
      than the others. */
  lemma SchemeMeaning(r: Request)
    ensures r.scheme != "" ==> SchemeOf(r) == r.scheme
    ensures r.scheme == "" && r.tls ==> SchemeOf(r) == "https"
    ensures r.scheme == "" && !r.tls ==> SchemeOf(r) == "http"
  {
  }

  function Values(headers: map<string, seq<string>>, name: string): seq<string>
  {
    if name in headers then headers[name] else []
  }

  function CookieValues(cookies: seq<(string, string)>, name: string): seq<string>
  {
    if cookies == [] then []
    else CookieValues(cookies[..|cookies| - 1], name)
         + (if cookies[|cookies| - 1].0 == name then [cookies[|cookies| - 1].1] else [])
  }

  /** The field of a part, given the text of the query; parts the key does not know add none. */
  function PartField(c: Config, r: Request, query: string, part: Part): seq<Field>
  {
    match part {
      case Method => [Field("method", r.verb)]
      case Scheme => [Field("scheme", SchemeOf(r))]
      case Host => [Field("host", c.coding.lower(r.host))]
      case Path => [Field("path", r.path)]
      case QueryPart => [Field("query", query)]
      case Other => []
    }
  }

  function PartFields(c: Config, r: Request, query: string, parts: seq<Part>): seq<Field>
  {
    if parts == [] then []
    else PartFields(c, r, query, parts[..|parts| - 1]) + PartField(c, r, query, parts[|parts| - 1])
  }

  /** The fields of the parts have their names from the configuration alone, so the keys of two
      requests are compared field by field. */
  lemma {:induction false} PartNames(c: Config, r: Request, query: string, r': Request, query': string,
                                     parts: seq<Part>)
    ensures var fields, fields' := PartFields(c, r, query, parts), PartFields(c, r', query', parts);
            |fields| == |fields'| && forall i :: 0 <= i < |fields| ==> fields[i].name == fields'[i].name
  {
    if parts != [] {
      PartNames(c, r, query, r', query', parts[..|parts| - 1]);
    }
  }

  function Prefix(c: Config): seq<Field>
  {
    [Field("site", c.site)] + (if c.namespace != "" then [Field("origin-route", c.namespace)] else [])
  }

  function HeaderGroups(c: Config, r: Request, names: seq<string>): seq<Group>
  {
    if names == [] then []
    else
      var name := names[|names| - 1];
      HeaderGroups(c, r, names[..|names| - 1])
      + (if c.acceptEncoding(name) then [] else [Group("header", c.canonical(name),
                                                       Values(r.headers, c.canonical(name)))])
  }

  function VariedGroups(varied: map<string, seq<string>>, names: seq<string>): seq<Group>
  {
    if names == [] then []
    else
      var name := names[|names| - 1];
      VariedGroups(varied, names[..|names| - 1]) + [Group("header", name, Values(varied, name))]
  }

  function CookieGroups(r: Request, names: seq<string>): seq<Group>
  {
    if names == [] then []
    else
      var name := names[|names| - 1];
      CookieGroups(r, names[..|names| - 1]) + [Group("cookie", name, CookieValues(r.cookies, name))]
  }

  function KeyGroups(c: Config, r: Request, varied: Varied, names: seq<string>): seq<Group>
  {
    (if varied.None? then HeaderGroups(c, r, c.headers) else VariedGroups(varied.value, names))
    + CookieGroups(r, c.cookies)
  }

  /** The fields of a key: fixed ones, the configured parts, and headers and cookies with values. */
  function KeyFields(c: Config, r: Request, query: string, varied: Varied, names: seq<string>): seq<Field>
  {
    Prefix(c) + PartFields(c, r, query, c.parts) + GroupsFields(KeyGroups(c, r, varied, names))
  }
}
