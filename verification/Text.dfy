/** Splitting text and reading and writing decimal numbers. */
module Text {
  import opened Common

  /** Splits at the first separator. */
  function Cut(s: string, separator: char): (r: Option<(string, string)>)
    ensures r.Some? ==> separator !in r.value.0 && s == r.value.0 + [separator] + r.value.1
    ensures r.None? ==> separator !in s
  {
    if s == "" then None
    else if s[0] == separator then Some(("", s[1..]))
    else
      var rest := Cut(s[1..], separator);
      if rest.None? then None else Some(([s[0]] + rest.value.0, rest.value.1))
  }

  predicate IsDigit(c: char) { '0' <= c <= '9' }

  function Digits(s: string): nat
    requires forall i :: 0 <= i < |s| ==> IsDigit(s[i])
  {
    if s == "" then 0
    else
      var last := s[|s| - 1];
      assert IsDigit(last);
      Digits(s[..|s| - 1]) * 10 + (last as int - '0' as int)
  }

  function Digit(d: nat): char
    requires d < 10
  {
    '0' + d as char
  }

  function Decimal(n: nat): (s: string)
    ensures s != "" && forall i :: 0 <= i < |s| ==> IsDigit(s[i])
  {
    if n < 10 then [Digit(n)] else Decimal(n / 10) + [Digit(n % 10)]
  }

  lemma {:induction false} DigitsOfDecimal(n: nat)
    ensures Digits(Decimal(n)) == n
  {
    var s := Decimal(n);
    if n < 10 {
      assert s[..|s| - 1] == "";
    } else {
      DigitsOfDecimal(n / 10);
      assert s[..|s| - 1] == Decimal(n / 10);
    }
  }

  lemma {:induction false} CutAt(a: string, separator: char, b: string)
    requires separator !in a
    ensures Cut(a + [separator] + b, separator) == Some((a, b))
  {
    var s := a + [separator] + b;
    if a != "" {
      CutAt(a[1..], separator, b);
      assert s[1..] == a[1..] + [separator] + b;
      assert [a[0]] + a[1..] == a;
    }
  }
}
