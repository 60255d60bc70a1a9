/**
 * The string operations the catalogue view relies on: lower-casing,
 * substring search (`String.prototype.includes`) and the comparison used to
 * order names (`String.prototype.localeCompare`).
 */
module Text {

  /** Lower-cases one ASCII letter; every other character is left alone. */
  function LowerChar(c: char): char
  {
    if 'A' <= c <= 'Z' then (c as int + 32) as char else c
  }

  /**
   * `toLowerCase`, restricted to the ASCII letters: no upper-case letter is
   * left, each upper-case letter becomes the lower-case letter at the same
   * place in the alphabet, and every other character stays as it was.
   */
  function Lower(s: string): (r: string)
    ensures |r| == |s|
    ensures forall i :: 0 <= i < |r| ==> !('A' <= r[i] <= 'Z')
    ensures forall i :: 0 <= i < |s| && 'A' <= s[i] <= 'Z' ==>
      'a' <= r[i] <= 'z' && r[i] as int - 'a' as int == s[i] as int - 'A' as int
    ensures forall i :: 0 <= i < |s| && !('A' <= s[i] <= 'Z') ==> r[i] == s[i]
  {
    seq(|s|, i requires 0 <= i < |s| => LowerChar(s[i]))
  }

  /** Lower-casing twice is lower-casing once. */
  lemma LowerIdempotent(s: string)
    ensures Lower(Lower(s)) == Lower(s)
  {
  }

  /** `p` is a prefix of `s`. */
  predicate IsPrefix(p: string, s: string)
  {
    |p| <= |s| && s[..|p|] == p
  }

  /** `s.includes(p)`: `p` starts at some position of `s`, scanning from the left. */
  predicate Contains(s: string, p: string)
    decreases |s|
  {
    IsPrefix(p, s) || (|s| > 0 && Contains(s[1..], p))
  }

  /** `p` occurs in `s` starting at index `i`. */
  ghost predicate OccursAt(s: string, p: string, i: int)
  {
    0 <= i && i + |p| <= |s| && s[i..i + |p|] == p
  }

  /** An occurrence at index `i` is found by `Contains`. */
  lemma {:induction false} OccursContains(s: string, p: string, i: int)
    requires OccursAt(s, p, i)
    ensures Contains(s, p)
    decreases i
  {
    if i == 0 {
      assert IsPrefix(p, s);
    } else {
      assert s[1..][i - 1..i - 1 + |p|] == s[i..i + |p|];
      OccursContains(s[1..], p, i - 1);
    }
  }

  /** `Contains` finds exactly the substrings of `s`: both directions. */
  lemma {:induction false} ContainsIffOccurs(s: string, p: string)
    ensures Contains(s, p) <==> exists i :: OccursAt(s, p, i)
    decreases |s|
  {
    if IsPrefix(p, s) {
      assert OccursAt(s, p, 0);
    } else if Contains(s, p) {
      ContainsIffOccurs(s[1..], p);
      var i :| OccursAt(s[1..], p, i);
      assert s[i + 1..i + 1 + |p|] == s[1..][i..i + |p|];
      assert OccursAt(s, p, i + 1);
    }
    forall i | OccursAt(s, p, i)
      ensures Contains(s, p)
    {
      OccursContains(s, p, i);
    }
  }

  /** Every string contains the empty string, so `includes('')` is always true. */
  lemma ContainsEmpty(s: string)
    ensures Contains(s, "")
  {
    assert s[..0] == "";
  }

  /**
   * Three-way comparison of two strings by their character codes, as
   * `a.localeCompare(b)` does in a locale without collation rules:
   * negative when `a` sorts first, zero when equal, positive otherwise.
   */
  function CompareStrings(a: string, b: string): (r: int)
    ensures -1 <= r <= 1
  {
    if a == [] && b == [] then 0
    else if a == [] then -1
    else if b == [] then 1
    else if a[0] < b[0] then -1
    else if a[0] > b[0] then 1
    else CompareStrings(a[1..], b[1..])
  }

  /** Swapping the arguments flips the sign of the comparison. */
  lemma {:induction false} CompareStringsAntisymmetric(a: string, b: string)
    ensures CompareStrings(a, b) == -CompareStrings(b, a)
  {
    if a != [] && b != [] && a[0] == b[0] {
      CompareStringsAntisymmetric(a[1..], b[1..]);
    }
  }

  /** The comparison is zero exactly on equal strings. */
  lemma {:induction false} CompareStringsZeroIffEqual(a: string, b: string)
    ensures CompareStrings(a, b) == 0 <==> a == b
  {
    if a != [] && b != [] && a[0] == b[0] {
      CompareStringsZeroIffEqual(a[1..], b[1..]);
      assert a == [a[0]] + a[1..] && b == [b[0]] + b[1..];
    }
  }

  /** "sorts no later than" is transitive. */
  lemma {:induction false} CompareStringsTransitive(a: string, b: string, c: string)
    requires CompareStrings(a, b) <= 0 && CompareStrings(b, c) <= 0
    ensures CompareStrings(a, c) <= 0
  {
    if a != [] && b != [] && c != [] && a[0] == b[0] == c[0] {
      CompareStringsTransitive(a[1..], b[1..], c[1..]);
    }
  }
}
