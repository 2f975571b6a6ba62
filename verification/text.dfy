/**
  The few Python string operations the relay and the scanner rely on, over
  ASCII: `str.strip()`, `str.lower()`, `str.startswith` and the `in`
  substring test. Non-ASCII whitespace and non-ASCII case mappings are not
  modelled.
 */
module Text {

  /** The ASCII characters for which Python's `str.isspace()` holds. */
  predicate IsSpace(c: char) {
    c == ' ' || c == '\t' || c == '\n' || c == '\r' || c == '\U{000B}' || c == '\U{000C}'
    || ('\U{001C}' <= c <= '\U{001F}')
  }

  predicate AllSpace(s: string) {
    forall k :: 0 <= k < |s| ==> IsSpace(s[k])
  }

  /** Number of whitespace characters at the start of `s`. */
  function LeadingSpace(s: string): (a: nat)
    ensures a <= |s|
    ensures AllSpace(s[..a])
    ensures a == |s| || !IsSpace(s[a])
  {
    if |s| > 0 && IsSpace(s[0]) then 1 + LeadingSpace(s[1..]) else 0
  }

  /** Number of whitespace characters at the end of `s`. */
  function TrailingSpace(s: string): (b: nat)
    ensures b <= |s|
    ensures AllSpace(s[|s| - b..])
    ensures b == |s| || !IsSpace(s[|s| - b - 1])
  {
    if |s| > 0 && IsSpace(s[|s| - 1]) then 1 + TrailingSpace(s[..|s| - 1]) else 0
  }

  /** Python's `s.strip()`: the slice of `s` left after removing whitespace at both ends. */
  function Strip(s: string): (r: string)
    ensures LeadingSpace(s) + |r| <= |s|
    ensures r == s[LeadingSpace(s)..LeadingSpace(s) + |r|]
    ensures AllSpace(s[..LeadingSpace(s)]) && AllSpace(s[LeadingSpace(s) + |r|..])
    ensures r == [] || (!IsSpace(r[0]) && !IsSpace(r[|r| - 1]))
  {
    var rest := s[LeadingSpace(s)..];
    rest[..|rest| - TrailingSpace(rest)]
  }

  /** Stripping is the only way to cut `s` into whitespace, a core without
      whitespace at its ends, and whitespace. */
  lemma StripUnique(s: string, pre: string, core: string, post: string)
    requires s == pre + core + post
    requires AllSpace(pre) && AllSpace(post)
    requires core == [] || (!IsSpace(core[0]) && !IsSpace(core[|core| - 1]))
    ensures Strip(s) == core
  {
    var a := LeadingSpace(s);
    var r := Strip(s);
    if core == [] {
      assert AllSpace(s) by {
        forall k | 0 <= k < |s| ensures IsSpace(s[k]) {
          if k < |pre| { assert s[k] == pre[k]; } else { assert s[k] == post[k - |pre|]; }
        }
      }
      assert a == |s|;
    } else {
      assert s[|pre|] == core[0];
      assert a == |pre|;
      assert s[|pre| + |core| - 1] == core[|core| - 1];
      assert |r| == |core|;
      assert r == s[|pre|..|pre| + |core|] == core;
    }
  }

  predicate IsUpper(c: char) {
    'A' <= c <= 'Z'
  }

  /** ASCII lower-casing of one character. */
  function LowerChar(c: char): char {
    if IsUpper(c) then (c as int + 32) as char else c
  }

  /** Python's `s.lower()` on ASCII text. */
  function Lower(s: string): (r: string)
    ensures |r| == |s|
    ensures forall k :: 0 <= k < |s| ==> r[k] == LowerChar(s[k])
    ensures forall k :: 0 <= k < |r| ==> !IsUpper(r[k])
  {
    seq(|s|, k requires 0 <= k < |s| => LowerChar(s[k]))
  }

  /** Two characters that are the same letter in either case, or the same character. */
  predicate SameIgnoringCase(a: char, b: char) {
    a == b || (IsUpper(a) && b as int == a as int + 32) || (IsUpper(b) && a as int == b as int + 32)
  }

  /** Two strings that differ at most in the case of ASCII letters. */
  predicate EqualIgnoringCase(s: string, t: string) {
    |s| == |t| && forall k :: 0 <= k < |s| ==> SameIgnoringCase(s[k], t[k])
  }

  /** Lower-casing is a no-op on lower-cased text. */
  lemma LowerIdempotent(s: string)
    ensures Lower(Lower(s)) == Lower(s)
  {
    var r := Lower(s);
    assert forall k :: 0 <= k < |r| ==> LowerChar(r[k]) == r[k];
  }

  /** Lower-cased strings agree exactly when the strings differ at most in the case of letters. */
  lemma LowerIgnoresCase(s: string, t: string)
    ensures Lower(s) == Lower(t) <==> EqualIgnoringCase(s, t)
  {
    if Lower(s) == Lower(t) {
      forall k | 0 <= k < |s| ensures SameIgnoringCase(s[k], t[k]) {
        assert LowerChar(s[k]) == Lower(s)[k] == Lower(t)[k] == LowerChar(t[k]);
      }
    }
    if EqualIgnoringCase(s, t) {
      forall k | 0 <= k < |s| ensures Lower(s)[k] == Lower(t)[k] {
        assert SameIgnoringCase(s[k], t[k]);
      }
    }
  }

  /** Python's `needle in hay` for two strings: some suffix of `hay` starts with `needle`. */
  predicate Contains(hay: string, needle: string)
    decreases |hay|
  {
    needle <= hay || (|hay| > 0 && Contains(hay[1..], needle))
  }

  /** `needle` occurring at position `i` of `hay` makes `needle in hay` true. */
  lemma {:induction false} ContainsAt(hay: string, i: nat, needle: string)
    requires i <= |hay| && needle <= hay[i..]
    ensures Contains(hay, needle)
    decreases i
  {
    if i > 0 {
      assert hay[1..][i - 1..] == hay[i..];
      ContainsAt(hay[1..], i - 1, needle);
    }
  }

  /** `needle in hay` holds only where `needle` occurs at some position of `hay`. */
  lemma {:induction false} ContainsWitness(hay: string, needle: string) returns (i: nat)
    requires Contains(hay, needle)
    ensures i + |needle| <= |hay| && hay[i..i + |needle|] == needle
    decreases |hay|
  {
    if needle <= hay {
      i := 0;
    } else {
      var i' := ContainsWitness(hay[1..], needle);
      assert hay[1..][i'..i' + |needle|] == hay[i' + 1..i' + 1 + |needle|];
      i := i' + 1;
    }
  }

  /** `needle` occurs at position `i` of `hay`, ignoring the case of letters. */
  predicate OccursIgnoringCase(hay: string, needle: string, i: nat) {
    i + |needle| <= |hay| && EqualIgnoringCase(hay[i..i + |needle|], needle)
  }

  lemma LowerSlice(s: string, i: nat, j: nat)
    requires i <= j <= |s|
    ensures Lower(s)[i..j] == Lower(s[i..j])
  {
  }

  /** `needle.lower() in hay.lower()` is a case-insensitive substring test:
      it holds exactly when `needle` occurs in `hay` ignoring case. */
  lemma ContainsLowerIgnoresCase(hay: string, needle: string)
    ensures Contains(Lower(hay), Lower(needle)) <==> exists i: nat :: OccursIgnoringCase(hay, needle, i)
  {
    var lh, ln := Lower(hay), Lower(needle);
    if Contains(lh, ln) {
      var i := ContainsWitness(lh, ln);
      LowerSlice(hay, i, i + |needle|);
      LowerIgnoresCase(hay[i..i + |needle|], needle);
      assert OccursIgnoringCase(hay, needle, i);
    }
    if exists i: nat :: OccursIgnoringCase(hay, needle, i) {
      var i: nat :| OccursIgnoringCase(hay, needle, i);
      LowerSlice(hay, i, i + |needle|);
      LowerIgnoresCase(hay[i..i + |needle|], needle);
      assert lh[i..][..|ln|] == ln;
      ContainsAt(lh, i, ln);
    }
  }

  /** Lower-casing never turns a whitespace character into a non-whitespace one or back. */
  lemma LowerKeepsSpace(c: char)
    ensures IsSpace(LowerChar(c)) == IsSpace(c)
  {
  }

  /** Two strings with whitespace at the same positions lose the same number of
      characters to `strip()`. */
  lemma {:induction false} StripLengthFollowsSpaces(s: string, t: string)
    requires |s| == |t|
    requires forall k :: 0 <= k < |s| ==> IsSpace(s[k]) == IsSpace(t[k])
    ensures |Strip(s)| == |Strip(t)|
  {
    LeadingSpaceFollowsSpaces(s, t);
    var a := LeadingSpace(s);
    TrailingSpaceFollowsSpaces(s[a..], t[a..]);
  }

  lemma {:induction false} LeadingSpaceFollowsSpaces(s: string, t: string)
    requires |s| == |t|
    requires forall k :: 0 <= k < |s| ==> IsSpace(s[k]) == IsSpace(t[k])
    ensures LeadingSpace(s) == LeadingSpace(t)
    decreases |s|
  {
    if |s| > 0 && IsSpace(s[0]) {
      LeadingSpaceFollowsSpaces(s[1..], t[1..]);
    }
  }

  lemma {:induction false} TrailingSpaceFollowsSpaces(s: string, t: string)
    requires |s| == |t|
    requires forall k :: 0 <= k < |s| ==> IsSpace(s[k]) == IsSpace(t[k])
    ensures TrailingSpace(s) == TrailingSpace(t)
    decreases |s|
  {
    if |s| > 0 && IsSpace(s[|s| - 1]) {
      TrailingSpaceFollowsSpaces(s[..|s| - 1], t[..|t| - 1]);
    }
  }
}
