/** Kotlin's `String.trim()`: strip leading and trailing whitespace. */
module Text {

  /**
   * Kotlin's `Char.isWhitespace()` on the JVM: Java's `isWhitespace` or
   * `isSpaceChar`, i.e. the control whitespace characters and the Unicode
   * space, line and paragraph separators.
   */
  predicate IsWhitespace(c: char) {
    ('\t' <= c <= '\r') || ('\U{001C}' <= c <= '\U{001F}') || c == ' '
    || c == '\U{00A0}' || c == '\U{1680}' || ('\U{2000}' <= c <= '\U{200A}')
    || c == '\U{2028}' || c == '\U{2029}' || c == '\U{202F}' || c == '\U{205F}'
    || c == '\U{3000}'
  }

  /**
   * Index of the first non-blank character at or after i (|s| if there is
   * none): the forward scan of `trim`.
   */
  function SkipLeading(s: string, i: nat): (j: nat)
    requires i <= |s|
    ensures i <= j <= |s|
    ensures forall k :: i <= k < j ==> IsWhitespace(s[k])
    ensures j < |s| ==> !IsWhitespace(s[j])
    decreases |s| - i
  {
    if i < |s| && IsWhitespace(s[i]) then SkipLeading(s, i + 1) else i
  }

  /**
   * One past the last non-blank character below j, never going under lo:
   * the backward scan of `trim`, which stops where the forward scan did.
   */
  function SkipTrailing(s: string, lo: nat, j: nat): (i: nat)
    requires lo <= j <= |s|
    ensures lo <= i <= j
    ensures forall k :: i <= k < j ==> IsWhitespace(s[k])
    ensures lo < i ==> !IsWhitespace(s[i - 1])
    decreases j
  {
    if lo < j && IsWhitespace(s[j - 1]) then SkipTrailing(s, lo, j - 1) else j
  }

  /** `s.trim()`: the part of s between its leading and its trailing whitespace. */
  function Trim(s: string): (r: string)
    ensures |r| <= |s|
    ensures r != [] ==> !IsWhitespace(r[0]) && !IsWhitespace(r[|r| - 1])
  {
    var i := SkipLeading(s, 0);
    s[i..SkipTrailing(s, i, |s|)]
  }

  /**
   * The trim is a stretch of s with only whitespace before and after it,
   * and it neither starts nor ends with whitespace.
   */
  lemma {:induction false} TrimShape(s: string)
    ensures var i := SkipLeading(s, 0);
            var j := i + |Trim(s)|;
            j <= |s| && Trim(s) == s[i..j]
            && (forall k :: 0 <= k < i ==> IsWhitespace(s[k]))
            && (forall k :: j <= k < |s| ==> IsWhitespace(s[k]))
    ensures Trim(s) != [] ==> !IsWhitespace(Trim(s)[0]) && !IsWhitespace(Trim(s)[|Trim(s)| - 1])
  {
    var i := SkipLeading(s, 0);
    var j := SkipTrailing(s, i, |s|);
    if i < j {
      assert Trim(s)[0] == s[i];
      assert Trim(s)[|Trim(s)| - 1] == s[j - 1];
    }
  }

  /**
   * Whichever way s splits into a blank prefix, a core with non-blank ends
   * and a blank suffix, that core is the trim of s.
   */
  lemma {:induction false} TrimCharacterised(s: string, i: nat, j: nat)
    requires i <= j <= |s|
    requires forall k :: 0 <= k < i ==> IsWhitespace(s[k])
    requires forall k :: j <= k < |s| ==> IsWhitespace(s[k])
    requires i < j ==> !IsWhitespace(s[i]) && !IsWhitespace(s[j - 1])
    ensures Trim(s) == s[i..j]
  {
    if i < j {
      assert SkipLeading(s, 0) == i;
      assert SkipTrailing(s, i, |s|) == j;
    } else {
      assert SkipLeading(s, 0) == |s|;
    }
  }

  /** A string that is empty or has non-blank ends is its own trim. */
  lemma {:induction false} TrimOfTrimmedEnds(s: string)
    requires s != [] ==> !IsWhitespace(s[0]) && !IsWhitespace(s[|s| - 1])
    ensures Trim(s) == s
  {
    TrimCharacterised(s, 0, |s|);
  }

  /** Trimming twice is trimming once. */
  lemma {:induction false} TrimIdempotent(s: string)
    ensures Trim(Trim(s)) == Trim(s)
  {
    TrimShape(s);
    TrimOfTrimmedEnds(Trim(s));
  }
}
