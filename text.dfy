/** ASCII lower-casing and substring search on strings, as the classifier uses them:
    Python's str.lower() restricted to the ASCII letters, and Python's `k in text`
    test for strings. */
module AsciiText {

  /** str.lower() on one character: 'A'..'Z' become 'a'..'z', every other character
      (digits, punctuation, CJK ideographs) is left as it is. */
  function LowerChar(c: char): char
  {
    if 'A' <= c <= 'Z' then (c as int + 32) as char else c
  }

  /** str.lower() on a whole string. */
  function Lower(s: string): (r: string)
    ensures |r| == |s|
    ensures forall i :: 0 <= i < |s| ==> r[i] == LowerChar(s[i])
  {
    if s == [] then [] else [LowerChar(s[0])] + Lower(s[1..])
  }

  /** Two strings that differ at most in the case of their ASCII letters. */
  predicate SameIgnoringCase(a: string, b: string)
  {
    |a| == |b| && forall i :: 0 <= i < |a| ==> LowerChar(a[i]) == LowerChar(b[i])
  }

  /** Lower-casing twice is lower-casing once. */
  lemma LowerIdempotent(s: string)
    ensures Lower(Lower(s)) == Lower(s)
  {
  }

  /** Strings equal up to ASCII case lower-case to the same string, and conversely. */
  lemma LowerDecidesCase(a: string, b: string)
    ensures SameIgnoringCase(a, b) <==> Lower(a) == Lower(b)
  {
    if Lower(a) == Lower(b) {
      forall i | 0 <= i < |a|
        ensures LowerChar(a[i]) == LowerChar(b[i])
      {
        assert Lower(a)[i] == Lower(b)[i];
      }
    }
  }

  /** Python's `k in text` for two strings: k occurs in text as a contiguous block.
      The empty string occurs in every string. */
  predicate Contains(text: string, k: string)
  {
    exists i | 0 <= i <= |text| - |k| :: OccursAt(text, k, i)
  }

  /** k occurs in text starting at position i. */
  predicate OccursAt(text: string, k: string, i: int)
  {
    0 <= i <= |text| - |k| && text[i..i + |k|] == k
  }

  /** A string with no occurrence of the separator occurs in a + [sep] + b exactly
      when it occurs in a or in b: no occurrence can straddle the separator. */
  lemma {:induction false} ContainsAcrossSeparator(a: string, sep: char, b: string, k: string)
    requires sep !in k
    ensures Contains(a + [sep] + b, k) <==> Contains(a, k) || Contains(b, k)
  {
    var t := a + [sep] + b;
    assert t[..|a|] == a && t[|a| + 1..] == b;
    if !Contains(a, k) && !Contains(b, k) {
      forall i | 0 <= i <= |t| - |k|
        ensures !OccursAt(t, k, i)
      {
        if i + |k| <= |a| {
          SliceOfSuffix(t[..|a|], 0, i, |k|);
          assert !OccursAt(a, k, i);
        } else if i > |a| {
          var j := i - |a| - 1;
          SliceOfSuffix(t, |a| + 1, j, |k|);
          assert !OccursAt(b, k, j);
        } else {
          // the window covers the separator, which k does not hold
          assert t[i..i + |k|][|a| - i] == sep;
        }
      }
    }
    if Contains(a, k) {
      var i :| 0 <= i <= |a| - |k| && OccursAt(a, k, i);
      SliceOfSuffix(t[..|a|], 0, i, |k|);
      assert OccursAt(t, k, i);
    }
    if Contains(b, k) {
      var j :| 0 <= j <= |b| - |k| && OccursAt(b, k, j);
      var i := j + |a| + 1;
      SliceOfSuffix(t, |a| + 1, j, |k|);
      assert OccursAt(t, k, i);
    }
  }

  /** A block of a suffix is the block of the whole string shifted by the suffix's start. */
  lemma SliceOfSuffix(t: string, off: nat, j: nat, n: nat)
    requires off + j + n <= |t|
    ensures t[off..][j..j + n] == t[off + j..off + j + n]
  {
  }

  /** A non-empty string made only of other characters does not occur in a string
      made only of the separator. */
  lemma NotContainedInSeparators(text: string, sep: char, k: string)
    requires forall i :: 0 <= i < |text| ==> text[i] == sep
    requires k != [] && sep !in k
    ensures !Contains(text, k)
  {
    forall i | 0 <= i <= |text| - |k|
      ensures !OccursAt(text, k, i)
    {
      assert text[i..i + |k|][0] == sep != k[0];
    }
  }

  /** k occurs in text with any mix of ASCII case: some block of text equals k up to case. */
  predicate ContainsIgnoringCase(text: string, k: string)
  {
    exists i | 0 <= i <= |text| - |k| :: OccursIgnoringCaseAt(text, k, i)
  }

  /** k occurs in text starting at position i, up to ASCII case. */
  predicate OccursIgnoringCaseAt(text: string, k: string, i: int)
  {
    0 <= i <= |text| - |k| && SameIgnoringCase(text[i..i + |k|], k)
  }
}
