/** ASCII-only lower-casing, standing in for PHP's `strtolower`: the letters
    `A`..`Z` become `a`..`z` and every other character is left as it is. */
module Ascii {

  /** The distance from an upper-case ASCII letter to its lower-case form. */
  const CaseOffset: int := 'a' as int - 'A' as int

  predicate IsUpper(c: char) {
    'A' <= c <= 'Z'
  }

  predicate IsLower(c: char) {
    'a' <= c <= 'z'
  }

  /** Lower-cases one character. */
  function Lower(c: char): (r: char)
    ensures !IsUpper(r)
    ensures IsUpper(c) ==> IsLower(r) && r as int - c as int == CaseOffset
    ensures r == c <==> !IsUpper(c)
  {
    if IsUpper(c) then (c as int + CaseOffset) as char else c
  }

  /** Lower-cases a string character by character, as `strtolower` does. */
  function LowerStr(s: string): (r: string)
    ensures |r| == |s|
    ensures forall i :: 0 <= i < |s| ==> r[i] == Lower(s[i])
  {
    if s == [] then [] else [Lower(s[0])] + LowerStr(s[1..])
  }

  /** A string is normalised when lower-casing leaves it alone. */
  predicate IsLowerStr(s: string) {
    forall i :: 0 <= i < |s| ==> !IsUpper(s[i])
  }

  /** Two names denote the same registry entry. */
  predicate SameName(a: string, b: string) {
    LowerStr(a) == LowerStr(b)
  }

  /** An independent statement of case-insensitive equality of two characters,
      without going through `Lower`. */
  predicate CharEqualsIgnoreCase(x: char, y: char) {
    || x == y
    || (IsUpper(x) && y as int == x as int + CaseOffset)
    || (IsUpper(y) && x as int == y as int + CaseOffset)
  }

  /** Case-insensitive string equality, compared position by position. */
  predicate EqualsIgnoreCase(a: string, b: string)
    decreases |a|
  {
    && |a| == |b|
    && (a == [] || (CharEqualsIgnoreCase(a[0], b[0]) && EqualsIgnoreCase(a[1..], b[1..])))
  }

  /** The result of lower-casing is normalised, and a normalised string is
      its own lower-case form. */
  lemma LowerStrIsLower(s: string)
    ensures IsLowerStr(LowerStr(s))
    ensures IsLowerStr(s) <==> LowerStr(s) == s
  {
  }

  /** Lower-casing is idempotent. */
  lemma LowerStrIdempotent(s: string)
    ensures LowerStr(LowerStr(s)) == LowerStr(s)
  {
  }

  /** Two characters lower-case to the same character exactly when they are
      equal up to ASCII case. */
  lemma LowerCharIff(x: char, y: char)
    ensures Lower(x) == Lower(y) <==> CharEqualsIgnoreCase(x, y)
  {
  }

  /** Comparing lower-cased forms is the same as comparing the strings
      ignoring ASCII case. */
  lemma {:induction false} SameNameIff(a: string, b: string)
    ensures SameName(a, b) <==> EqualsIgnoreCase(a, b)
    decreases |a|
  {
    if |a| != |b| {
    } else if a == [] {
    } else {
      SameNameIff(a[1..], b[1..]);
      LowerCharIff(a[0], b[0]);
      assert LowerStr(a) == [Lower(a[0])] + LowerStr(a[1..]);
      assert LowerStr(b) == [Lower(b[0])] + LowerStr(b[1..]);
      if SameName(a, b) {
        assert LowerStr(a)[1..] == LowerStr(b)[1..];
      }
    }
  }
}
