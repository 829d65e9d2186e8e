/** Types and functions that several parts of the model share. */
module Common {
  datatype Option<+T> = None | Some(value: T)

  type Byte = x: int | 0 <= x < 256
  type Bytes = seq<Byte>

  function Min(a: nat, b: nat): nat { if a < b then a else b }

  /** Subtraction that stops at zero, as every usage counter does. */
  function Less(a: nat, b: nat): nat { a - Min(a, b) }

  ghost predicate Distinct<T>(s: seq<T>)
  {
    forall i, j :: 0 <= i < j < |s| ==> s[i] != s[j]
  }

  lemma HasMember<T>(s: seq<T>)
    ensures s != [] ==> exists x :: x in s
  {
    assert s != [] ==> s[0] in s;
  }

  const MAX_UINT64: nat := 0xFFFF_FFFF_FFFF_FFFF
}
