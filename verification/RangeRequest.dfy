/** Parsing a Range header and choosing the bytes it selects (sections 14.1.2 and 14.4 of RFC 9110). */
module RangeRequest {
  import opened Common
  import opened Text

  /** A single range: the last bytes of the representation when the suffix length is positive, and
      the bytes from start to end, both included, otherwise. */
  datatype Spec = Spec(start: nat, end: nat, suffix: nat)

  // ----- text -------------------------------------------------------------------------------

  predicate IsSpace(c: char)
  {
    '\t' <= c <= '\r' || c in {' ', '\U{0085}', '\U{00A0}', '\U{1680}', '\U{2028}', '\U{2029}', '\U{202F}',
                               '\U{205F}', '\U{3000}'} || '\U{2000}' <= c <= '\U{200A}'
  }

  /** White space is what has the Unicode property of that name. */
  lemma SpaceMeaning(c: char)
    ensures IsSpace(c) <==>
              c in {'\t', '\n', '\U{000B}', '\U{000C}', '\r', ' ', '\U{0085}', '\U{00A0}', '\U{1680}', '\U{2000}',
                    '\U{2001}', '\U{2002}', '\U{2003}', '\U{2004}', '\U{2005}', '\U{2006}', '\U{2007}', '\U{2008}',
                    '\U{2009}', '\U{200A}', '\U{2028}', '\U{2029}', '\U{202F}', '\U{205F}', '\U{3000}'}
  {
  }

  function TrimLeft(s: string): string
  {
    if s != "" && IsSpace(s[0]) then TrimLeft(s[1..]) else s
  }

  function TrimRight(s: string): string
  {
    if s != "" && IsSpace(s[|s| - 1]) then TrimRight(s[..|s| - 1]) else s
  }

  function Trim(s: string): string { TrimRight(TrimLeft(s)) }

  /** The letters of "bytes" in either case; the long s folds to s. */
  predicate FoldsToBytes(s: string)
  {
    && |s| == 5 && s[0] in {'b', 'B'} && s[1] in {'y', 'Y'} && s[2] in {'t', 'T'} && s[3] in {'e', 'E'}
    && s[4] in {'s', 'S', '\U{017F}'}
  }

  /** An unsigned 64-bit decimal number. */
  function ParseUint(s: string): Option<nat>
  {
    if s == "" || !(forall i :: 0 <= i < |s| ==> IsDigit(s[i])) || Digits(s) > MAX_UINT64 then None
    else Some(Digits(s))
  }

  // ----- the header -------------------------------------------------------------------------

  function ParseBounds(startText: string, endText: string): Option<Spec>
  {
    if startText == "" then
      var suffix := ParseUint(endText);
      if suffix.None? || suffix.value == 0 then None else Some(Spec(0, 0, suffix.value))
    else
      var start, end := ParseUint(startText), ParseUint(endText);
      if start.None? || end.None? || end.value < start.value then None
      else Some(Spec(start.value, end.value, 0))
  }

  /** A range that can be served from a stored representation. A range without an end cannot. */
  function Parse(value: string): Option<Spec>
  {
    var unit := Cut(Trim(value), '=');
    if unit.None? || !FoldsToBytes(Trim(unit.value.0)) || ',' in unit.value.1 then None
    else
      var bounds := Cut(Trim(unit.value.1), '-');
      if bounds.None? then None else ParseBounds(Trim(bounds.value.0), Trim(bounds.value.1))
  }

  predicate ValidSpec(s: Spec)
  {
    s.suffix > 0 || s.start <= s.end
  }

  lemma ParsedIsValid(value: string)
    ensures Parse(value).Some? ==> ValidSpec(Parse(value).value)
  {
  }

  // ----- reading back what was written ------------------------------------------------------

  lemma TrimTight(s: string)
    requires s != "" ==> !IsSpace(s[0]) && !IsSpace(s[|s| - 1])
    ensures Trim(s) == s
  {
  }

  /** Numbers written as text around a dash, each possibly missing. */
  function Interval(start: Option<nat>, end: Option<nat>): string
  {
    Written(start) + ['-'] + Written(end)
  }

  function Written(n: Option<nat>): (s: string)
    ensures forall i :: 0 <= i < |s| ==> IsDigit(s[i])
  {
    if n.Some? then Decimal(n.value) else ""
  }

  lemma ParseText(n: Option<nat>)
    ensures ParseUint(Written(n)) == if n.Some? && n.value <= MAX_UINT64 then n else None
    ensures Trim(Written(n)) == Written(n)
  {
    if n.Some? {
      DigitsOfDecimal(n.value);
    }
    TrimTight(Written(n));
  }

  /** What `Parse` makes of "bytes=" and an interval: exactly the closed ranges in order and the
      positive suffixes that fit 64 bits are accepted, and they are read back unchanged. */
  lemma ParseInterval(start: Option<nat>, end: Option<nat>)
    ensures Parse("bytes=" + Interval(start, end)) ==
              if end.None? || end.value > MAX_UINT64 then None
              else if start.None? then (if end.value == 0 then None else Some(Spec(0, 0, end.value)))
              else if start.value > MAX_UINT64 || end.value < start.value then None
              else Some(Spec(start.value, end.value, 0))
  {
    hide TrimLeft, TrimRight, Cut, ParseUint, Decimal, Trim;
    var interval := Interval(start, end);
    var value := "bytes=" + interval;
    ParseText(start);
    ParseText(end);
    IntervalTight(start, end);
    TrimTight(value);
    assert value == "bytes" + ['='] + interval;
    CutAt("bytes", '=', interval);
    TrimTight("bytes");
    CutAt(Written(start), '-', Written(end));
    assert ParseUint(Written(end)).None? || end.Some?;
    TextEmpty(start);
  }

  lemma TextEmpty(n: Option<nat>)
    ensures Written(n) == "" <==> n.None?
  {
  }

  lemma IntervalTight(start: Option<nat>, end: Option<nat>)
    ensures var s := Interval(start, end);
            s != "" && !IsSpace(s[0]) && !IsSpace(s[|s| - 1]) && ',' !in s && Trim(s) == s
  {
    hide Decimal, TrimLeft, TrimRight;
    var s := Interval(start, end);
    forall i | 0 <= i < |s|
      ensures IsDigit(s[i]) || s[i] == '-'
    {
    }
    TrimTight(s);
  }

  // ----- every header -----------------------------------------------------------------------

  ghost predicate Blank(s: string) { forall i :: 0 <= i < |s| ==> IsSpace(s[i]) }

  ghost predicate Numeric(s: string) { forall i :: 0 <= i < |s| ==> IsDigit(s[i]) }

  /** No space at either end. */
  ghost predicate Tight(s: string) { s != "" ==> !IsSpace(s[0]) && !IsSpace(s[|s| - 1]) }

  lemma {:induction false} TrimLeftParts(s: string) returns (left: string)
    ensures s == left + TrimLeft(s) && Blank(left)
    ensures TrimLeft(s) != "" ==> !IsSpace(TrimLeft(s)[0])
  {
    left := "";
    if s != "" && IsSpace(s[0]) {
      var rest := TrimLeftParts(s[1..]);
      left := [s[0]] + rest;
    }
  }

  lemma {:induction false} TrimRightParts(s: string) returns (right: string)
    ensures s == TrimRight(s) + right && Blank(right)
    ensures TrimRight(s) != "" ==> !IsSpace(TrimRight(s)[|TrimRight(s)| - 1])
  {
    right := "";
    if s != "" && IsSpace(s[|s| - 1]) {
      var rest := TrimRightParts(s[..|s| - 1]);
      right := rest + [s[|s| - 1]];
    }
  }

  lemma TrimParts(s: string) returns (left: string, right: string)
    ensures s == left + Trim(s) + right && Blank(left) && Blank(right) && Tight(Trim(s))
  {
    left := TrimLeftParts(s);
    right := TrimRightParts(TrimLeft(s));
    assert Trim(s) != "" ==> Trim(s)[0] == TrimLeft(s)[0];
  }

  lemma {:induction false} TrimLeftBlank(left: string, s: string)
    requires Blank(left)
    ensures TrimLeft(left + s) == TrimLeft(s)
  {
    if left == "" {
      assert left + s == s;
    } else {
      TrimLeftBlank(left[1..], s);
      assert (left + s)[1..] == left[1..] + s;
    }
  }

  lemma {:induction false} TrimRightBlank(s: string, right: string)
    requires Blank(right)
    ensures TrimRight(s + right) == TrimRight(s)
  {
    if right == "" {
      assert s + right == s;
    } else {
      TrimRightBlank(s, right[..|right| - 1]);
      assert (s + right)[..|s + right| - 1] == s + right[..|right| - 1];
    }
  }

  /** Trimming takes away exactly the blanks around a tight text. */
  lemma TrimOf(left: string, s: string, right: string)
    requires Blank(left) && Blank(right) && Tight(s)
    ensures Trim(left + s + right) == s
  {
    hide TrimRight;
    assert left + s + right == left + (s + right);
    TrimLeftBlank(left, s + right);
    if s == "" {
      assert s + right == right + "";
      TrimLeftBlank(right, "");
    } else {
      assert (s + right)[0] == s[0];
    }
    TrimRightBlank(s, right);
    TightRight(s);
  }

  lemma TightRight(s: string)
    requires Tight(s)
    ensures TrimRight(s) == s && TrimRight("") == ""
  {
  }

  /** A header in its parts: the unit, the two numbers, and the blanks between them. */
  datatype Spelling = Spelling(unit: string, start: string, end: string, blanks: seq<string>)

  ghost predicate Spells(p: Spelling, value: string)
  {
    && |p.blanks| == 6 && (forall i :: 0 <= i < 6 ==> Blank(p.blanks[i]))
    && FoldsToBytes(p.unit) && Numeric(p.start) && Numeric(p.end) && p.end != ""
    && value == p.blanks[0] + (p.unit + p.blanks[1] + ['='] + After(p)) + p.blanks[5]
  }

  /** What follows the equals sign, up to the last number. */
  function After(p: Spelling): string
    requires |p.blanks| == 6
  {
    p.blanks[2] + (Before(p) + ['-'] + (p.blanks[4] + p.end))
  }

  function Before(p: Spelling): string
    requires |p.blanks| == 6
  {
    p.start + p.blanks[3]
  }

  /** The range that two numbers denote. */
  ghost predicate Denotes(p: Spelling, s: Spec)
    requires Numeric(p.start) && Numeric(p.end)
  {
    && Digits(p.end) <= MAX_UINT64
    && if p.start == "" then Digits(p.end) > 0 && s == Spec(0, 0, Digits(p.end))
       else Digits(p.start) <= Digits(p.end) && s == Spec(Digits(p.start), Digits(p.end), 0)
  }

  lemma NoSeparators(s: string)
    requires Blank(s) || Numeric(s) || FoldsToBytes(s)
    ensures '=' !in s && '-' !in s && ',' !in s
  {
  }

  lemma SpelledParses(p: Spelling, value: string, s: Spec)
    requires Spells(p, value) && Denotes(p, s)
    ensures Parse(value) == Some(s)
  {
    hide Trim, Cut, Digits, FoldsToBytes, IsSpace;
    var head, rest := p.unit + p.blanks[1], After(p);
    SpelledTight(p, value);
    TrimOf(p.blanks[0], head + ['='] + rest, p.blanks[5]);
    CutAt(head, '=', rest);
    TrimOf("", p.unit, p.blanks[1]);
    assert "" + p.unit + p.blanks[1] == head;
    SpelledRest(p);
    var before := if p.start == "" then "" else Before(p);
    CutAt(before, '-', p.blanks[4] + p.end);
    TrimOf(p.blanks[4], p.end, "");
    assert p.blanks[4] + p.end + "" == p.blanks[4] + p.end;
    TrimOf("", p.start, if p.start == "" then "" else p.blanks[3]);
    assert "" + p.start + (if p.start == "" then "" else p.blanks[3]) == before;
  }

  lemma SpelledTight(p: Spelling, value: string)
    requires Spells(p, value)
    ensures Tight(p.unit) && Tight(p.start) && Tight(p.end) && Tight(p.unit + p.blanks[1] + ['='] + After(p))
    ensures '=' !in p.unit + p.blanks[1] && ',' !in After(p) && '-' !in Before(p)
  {
    NoSeparators(p.unit);
    NoSeparators(p.start);
    NoSeparators(p.end);
    forall i | 0 <= i < 6 ensures '=' !in p.blanks[i] && '-' !in p.blanks[i] && ',' !in p.blanks[i] {
      NoSeparators(p.blanks[i]);
    }
    var all := p.unit + p.blanks[1] + ['='] + After(p);
    assert all[0] == p.unit[0] && all[|all| - 1] == p.end[|p.end| - 1];
  }

  lemma SpelledRest(p: Spelling)
    requires |p.blanks| == 6 && (forall i :: 0 <= i < 6 ==> Blank(p.blanks[i])) && Numeric(p.start) && Numeric(p.end)
    requires p.end != ""
    ensures Trim(After(p)) == (if p.start == "" then "" else Before(p)) + ['-'] + (p.blanks[4] + p.end)
  {
    hide Trim;
    var tail := ['-'] + (p.blanks[4] + p.end);
    var before := if p.start == "" then "" else Before(p);
    var left := if p.start == "" then p.blanks[2] + p.blanks[3] else p.blanks[2];
    assert After(p) == left + (before + tail) + "";
    assert before + ['-'] + (p.blanks[4] + p.end) == before + tail;
    assert (before + tail)[|before + tail| - 1] == p.end[|p.end| - 1];
    assert (before + tail)[0] == if p.start == "" then '-' else p.start[0];
    TrimOf(left, before + tail, "");
  }

  lemma ParsedIsSpelled(value: string, s: Spec) returns (p: Spelling)
    requires Parse(value) == Some(s)
    ensures Spells(p, value) && Denotes(p, s)
  {
    hide Trim, Cut, Digits, FoldsToBytes, IsSpace, Blank, Tight, After;
    var b0, b5 := TrimParts(value);
    var unit := Cut(Trim(value), '=').value;
    var u0, b1 := TrimParts(unit.0);
    var b2, r0 := TrimParts(unit.1);
    var bounds := Cut(Trim(unit.1), '-').value;
    var s0, b3 := TrimParts(bounds.0);
    var b4, e0 := TrimParts(bounds.1);
    p := Spelling(Trim(unit.0), Trim(bounds.0), Trim(bounds.1), [b0 + u0, b1, b2 + s0, b3, b4, e0 + r0 + b5]);
    ParsedParts(value, p, b0, u0, b1, b2, s0, b3, b4, e0, r0, b5);
  }

  lemma ParsedParts(value: string, p: Spelling, b0: string, u0: string, b1: string, b2: string, s0: string, b3: string,
                    b4: string, e0: string, r0: string, b5: string)
    requires p.blanks == [b0 + u0, b1, b2 + s0, b3, b4, e0 + r0 + b5]
    requires value == b0 + (u0 + p.unit + b1 + ['='] + (b2 + (s0 + p.start + b3 + ['-'] + (b4 + p.end + e0)) + r0)) + b5
    requires Blank(b0) && Blank(u0) && Blank(b1) && Blank(b2) && Blank(s0) && Blank(b3) && Blank(b4) && Blank(e0)
    requires Blank(r0)
    requires Blank(b5)
    ensures value == p.blanks[0] + (p.unit + p.blanks[1] + ['='] + After(p)) + p.blanks[5]
    ensures forall i :: 0 <= i < 6 ==> Blank(p.blanks[i])
  {
  }

  /** For every header: it is read as a range if and only if it is the unit, an equals sign and two
      numbers around a dash, with blanks anywhere between, and the numbers denote that range. */
  lemma ParseExactly(value: string, s: Spec)
    ensures Parse(value) == Some(s) <==> exists p :: Spells(p, value) && Denotes(p, s)
  {
    hide Parse, Denotes;
    if Parse(value) == Some(s) {
      var p := ParsedIsSpelled(value, s);
    } else if exists p :: Spells(p, value) && Denotes(p, s) {
      var p :| Spells(p, value) && Denotes(p, s);
      SpelledParses(p, value, s);
    }
  }

  // ----- choosing the bytes -----------------------------------------------------------------

  /** The bytes a range selects from a representation, or nothing when it starts past the end. */
  function Resolve(s: Spec, total: nat): (r: Option<(nat, nat)>)
    requires total > 0 && ValidSpec(s)
    ensures r.Some? ==> r.value.0 <= r.value.1 < total
    ensures r.None? <==> s.suffix == 0 && s.start >= total
  {
    var start := if s.suffix > 0 then Less(total, s.suffix) else s.start;
    var end := if s.suffix > 0 then total - 1 else s.end;
    if start >= total then None else Some((start, Min(end, total - 1)))
  }

  /** A byte is selected exactly when the range covers it: as one of the last bytes, or as one
      between the bounds. */
  lemma Selects(s: Spec, total: nat, i: nat)
    requires total > 0 && ValidSpec(s) && i < total
    ensures (Resolve(s, total).Some? && Resolve(s, total).value.0 <= i <= Resolve(s, total).value.1) <==>
            (if s.suffix > 0 then i + s.suffix >= total else s.start <= i <= s.end)
  {
  }
}
