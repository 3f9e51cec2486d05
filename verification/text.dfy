/**
 * The handful of `java.lang.String` operations the explorer relies on:
 * case mapping, `indexOf`/`contains` and `equalsIgnoreCase`.
 * Case mapping is modelled on the ASCII letters only.
 */
module Text {

  predicate IsUpper(c: char) { 'A' <= c <= 'Z' }

  predicate IsLower(c: char) { 'a' <= c <= 'z' }

  predicate IsAscii(s: string) {
    forall i :: 0 <= i < |s| ==> s[i] < 128 as char
  }

  /** `Character.toLowerCase` on ASCII letters; every other character is unchanged. */
  function LowerChar(c: char): char {
    if IsUpper(c) then (c as int + 32) as char else c
  }

  /** `Character.toUpperCase` on ASCII letters; every other character is unchanged. */
  function UpperChar(c: char): char {
    if IsLower(c) then (c as int - 32) as char else c
  }

  /**
   * `String.toLowerCase`: the same text ignoring case, with no upper-case
   * letter left. The two facts together fix every character.
   */
  function Lower(s: string): (r: string)
    ensures |r| == |s|
    ensures forall i :: 0 <= i < |r| ==> !IsUpper(r[i])
    ensures forall i :: 0 <= i < |r| ==> UpperChar(r[i]) == UpperChar(s[i])
  {
    seq(|s|, i requires 0 <= i < |s| => LowerChar(s[i]))
  }

  /** The contract of `Lower` pins it down: any text meeting it is `Lower(s)`. */
  lemma LowerUnique(s: string, r: string)
    requires |r| == |s|
    requires forall i :: 0 <= i < |r| ==> !IsUpper(r[i])
    requires forall i :: 0 <= i < |r| ==> UpperChar(r[i]) == UpperChar(s[i])
    ensures r == Lower(s)
  {
    forall i | 0 <= i < |r|
      ensures r[i] == Lower(s)[i]
    {
      assert UpperChar(Lower(s)[i]) == UpperChar(s[i]);
    }
  }

  /** `String.toUpperCase`: the same text ignoring case, with no lower-case letter left. */
  function Upper(s: string): (r: string)
    ensures |r| == |s|
    ensures forall i :: 0 <= i < |r| ==> !IsLower(r[i])
    ensures forall i :: 0 <= i < |r| ==> LowerChar(r[i]) == LowerChar(s[i])
  {
    seq(|s|, i requires 0 <= i < |s| => UpperChar(s[i]))
  }

  /** `pattern` occurs in `text` starting at position `i`. */
  predicate Occurs(text: string, pattern: string, i: int) {
    0 <= i && i + |pattern| <= |text| && text[i..i + |pattern|] == pattern
  }

  /** `text.indexOf(pattern, from)`: the first occurrence at or after `from`, or -1. */
  function IndexOfFrom(text: string, pattern: string, from: nat): (r: int)
    requires from <= |text|
    ensures r == -1 || from <= r
    ensures r >= 0 ==> Occurs(text, pattern, r)
    ensures r >= 0 ==> forall j :: from <= j < r ==> !Occurs(text, pattern, j)
    ensures r == -1 ==> forall j :: from <= j ==> !Occurs(text, pattern, j)
    decreases |text| - from
  {
    if from + |pattern| > |text| then -1
    else if text[from..from + |pattern|] == pattern then from
    else IndexOfFrom(text, pattern, from + 1)
  }

  function IndexOf(text: string, pattern: string): int {
    IndexOfFrom(text, pattern, 0)
  }

  /** `text.contains(pattern)`, which Java defines as `indexOf(pattern) >= 0`. */
  predicate Contains(text: string, pattern: string) {
    IndexOf(text, pattern) >= 0
  }

  /** `contains` holds exactly when the pattern occurs somewhere. */
  lemma ContainsIff(text: string, pattern: string, i: int)
    ensures Occurs(text, pattern, i) ==> Contains(text, pattern)
    ensures Contains(text, pattern) ==> Occurs(text, pattern, IndexOf(text, pattern))
  {
  }

  /** Every string contains the empty string (Java: `"abc".contains("")` is true). */
  lemma ContainsEmpty(text: string)
    ensures Contains(text, "")
  {
    assert Occurs(text, "", 0);
  }

  /** Occurrence is transitive: an occurrence of an occurrence is an occurrence. */
  lemma OccursTransitive(a: string, b: string, c: string, i: int, j: int)
    requires Occurs(a, b, i) && Occurs(b, c, j)
    ensures Occurs(a, c, i + j)
  {
    forall k | 0 <= k < |c|
      ensures a[i + j + k] == c[k]
    {
      assert b[j + k] == a[i..i + |b|][j + k];
    }
    assert a[i + j..i + j + |c|] == c;
  }

  lemma ContainsTransitive(a: string, b: string, c: string)
    requires Contains(a, b) && Contains(b, c)
    ensures Contains(a, c)
  {
    OccursTransitive(a, b, c, IndexOf(a, b), IndexOf(b, c));
    ContainsIff(a, c, IndexOf(a, b) + IndexOf(b, c));
  }

  /** Lower-casing is character-wise, so it carries every occurrence along. */
  lemma LowerKeepsOccurrence(text: string, pattern: string, i: int)
    requires Occurs(text, pattern, i)
    ensures Occurs(Lower(text), Lower(pattern), i)
  {
    assert Lower(text)[i..i + |pattern|] == Lower(pattern);
  }

  lemma LowerKeepsContains(text: string, pattern: string)
    requires Contains(text, pattern)
    ensures Contains(Lower(text), Lower(pattern))
  {
    LowerKeepsOccurrence(text, pattern, IndexOf(text, pattern));
    ContainsIff(Lower(text), Lower(pattern), IndexOf(text, pattern));
  }

  /** Lower-casing is idempotent. */
  lemma LowerOfLower(s: string)
    ensures Lower(Lower(s)) == Lower(s)
  {
  }

  /** Lower-casing after upper-casing is the same as lower-casing directly. */
  lemma LowerOfUpper(s: string)
    ensures Lower(Upper(s)) == Lower(s)
  {
  }

  /**
   * One character step of `String.equalsIgnoreCase` (via `regionMatches`):
   * equal, equal after upper-casing, or equal after upper- then lower-casing.
   */
  predicate CharEqualsIgnoreCase(a: char, b: char) {
    a == b || UpperChar(a) == UpperChar(b) || LowerChar(UpperChar(a)) == LowerChar(UpperChar(b))
  }

  /** `String.equalsIgnoreCase`: equal lengths and every position matches ignoring case. */
  predicate EqualsIgnoreCase(a: string, b: string) {
    |a| == |b| && forall i :: 0 <= i < |a| ==> CharEqualsIgnoreCase(a[i], b[i])
  }

  lemma CharEqualsIgnoreCaseIff(a: char, b: char)
    ensures CharEqualsIgnoreCase(a, b) <==> LowerChar(a) == LowerChar(b)
  {
  }

  /** `equalsIgnoreCase` is equality of the lower-cased forms. */
  lemma EqualsIgnoreCaseIff(a: string, b: string)
    ensures EqualsIgnoreCase(a, b) <==> Lower(a) == Lower(b)
  {
    if EqualsIgnoreCase(a, b) {
      forall i | 0 <= i < |a|
        ensures Lower(a)[i] == Lower(b)[i]
      {
        CharEqualsIgnoreCaseIff(a[i], b[i]);
      }
    }
    if Lower(a) == Lower(b) {
      forall i | 0 <= i < |a|
        ensures CharEqualsIgnoreCase(a[i], b[i])
      {
        assert Lower(a)[i] == Lower(b)[i];
        CharEqualsIgnoreCaseIff(a[i], b[i]);
      }
    }
  }
}
