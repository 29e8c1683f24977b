/** The JavaScript string operations the components use: `split("-")`,
    `toLowerCase()` and `includes(…)`. */
module Text {

  const Hyphen: char := '-'

  /** `s.split("-")`: the pieces of `s` between hyphens, left to right. There is
      always at least one piece; two adjacent hyphens give an empty piece. */
  function Split(s: string): (parts: seq<string>)
    ensures |parts| >= 1
    ensures forall i :: 0 <= i < |parts| ==> Hyphen !in parts[i]
  {
    if s == [] then [""]
    else if s[0] == Hyphen then [""] + Split(s[1..])
    else
      var rest := Split(s[1..]);
      [[s[0]] + rest[0]] + rest[1..]
  }

  /** `parts.join("-")`. */
  function Join(parts: seq<string>): string
    requires |parts| >= 1
  {
    if |parts| == 1 then parts[0] else parts[0] + [Hyphen] + Join(parts[1..])
  }

  /** Joining the pieces with hyphens gives back the string that was split. */
  lemma {:induction false} JoinSplit(s: string)
    ensures Join(Split(s)) == s
  {
    if s != [] {
      JoinSplit(s[1..]);
      var rest := Split(s[1..]);
      if s[0] == Hyphen {
        assert Split(s)[1..] == rest;
      } else {
        assert Split(s)[1..] == rest[1..];
        if |rest| > 1 {
          assert rest == [rest[0]] + rest[1..];
          assert Join(rest) == rest[0] + [Hyphen] + Join(rest[1..]);
        }
      }
    }
  }

  /** Splitting a string finds no hyphen exactly when the string holds none. */
  lemma {:induction false} SplitWithoutHyphen(s: string)
    ensures Split(s) == [s] <==> Hyphen !in s
  {
    if s != [] {
      SplitWithoutHyphen(s[1..]);
      var rest := Split(s[1..]);
      var parts := Split(s);
      if s[0] == Hyphen {
        assert |parts| == 1 + |rest|;
      } else {
        assert parts == [[s[0]] + rest[0]] + rest[1..];
        assert parts[0] == [s[0]] + rest[0] && |parts| == |rest|;
        assert s == [s[0]] + s[1..];
        assert Hyphen !in s <==> Hyphen !in s[1..];
        if parts == [s] {
          assert rest[0] == ([s[0]] + rest[0])[1..] == s[1..];
          assert rest == [s[1..]];
        }
      }
    }
  }

  /** A hyphen-free prefix stays the first piece when followed by a hyphen. */
  lemma {:induction false} SplitAfterPrefix(a: string, b: string)
    requires Hyphen !in a
    ensures Split(a + [Hyphen] + b) == [a] + Split(b)
  {
    if a == [] {
      assert a + [Hyphen] + b == [Hyphen] + b;
      assert ([Hyphen] + b)[1..] == b;
    } else {
      assert (a + [Hyphen] + b)[1..] == a[1..] + [Hyphen] + b;
      SplitAfterPrefix(a[1..], b);
      assert [a[0]] + a[1..] == a;
    }
  }

  /** The first piece is the part of `s` before its first hyphen: a prefix of `s`
      which is all of `s` only when `s` holds no hyphen. */
  lemma {:induction false} FirstPieceIsPrefix(s: string)
    ensures |Split(s)[0]| <= |s| && Split(s)[0] == s[..|Split(s)[0]|]
    ensures |Split(s)[0]| < |s| ==> s[|Split(s)[0]|] == Hyphen
    ensures Split(s)[0] == s <==> Hyphen !in s
  {
    if s != [] {
      FirstPieceIsPrefix(s[1..]);
    }
  }

  /** `toLowerCase()` on one character; only the ASCII letters A-Z are mapped. */
  function LowerChar(c: char): (r: char)
    ensures 'A' <= c <= 'Z' ==> 'a' <= r <= 'z'
    ensures !('A' <= c <= 'Z') ==> r == c
  {
    if 'A' <= c <= 'Z' then (c as int + 32) as char else c
  }

  /** `s.toLowerCase()`. */
  function Lower(s: string): (r: string)
    ensures |r| == |s|
    ensures forall i :: 0 <= i < |s| ==> r[i] == LowerChar(s[i])
  {
    seq(|s|, i requires 0 <= i < |s| => LowerChar(s[i]))
  }

  /** Lower-casing twice is lower-casing once. */
  lemma LowerIdempotent(s: string)
    ensures Lower(Lower(s)) == Lower(s)
  {
  }

  /** `haystack.startsWith(needle)`. */
  predicate StartsWith(haystack: string, needle: string) {
    |needle| <= |haystack| && haystack[..|needle|] == needle
  }

  /** `haystack.includes(needle)`, scanning the start positions left to right. */
  predicate Contains(haystack: string, needle: string)
    ensures Contains(haystack, needle) ==> |needle| <= |haystack|
    ensures needle == [] || needle == haystack ==> Contains(haystack, needle)
    decreases |haystack|
  {
    StartsWith(haystack, needle) || (haystack != [] && Contains(haystack[1..], needle))
  }

  /** `needle` occurs in `haystack` starting at position `k`. */
  predicate OccursAt(haystack: string, needle: string, k: int) {
    0 <= k <= |haystack| - |needle| && haystack[k..k + |needle|] == needle
  }

  /** `Contains` finds exactly the needles that occur at some position. */
  lemma {:induction false} ContainsIff(haystack: string, needle: string)
    ensures Contains(haystack, needle) <==> exists k :: OccursAt(haystack, needle, k)
    decreases |haystack|
  {
    if StartsWith(haystack, needle) {
      assert OccursAt(haystack, needle, 0);
    } else if haystack != [] {
      var t := haystack[1..];
      ContainsIff(t, needle);
      if exists k :: OccursAt(t, needle, k) {
        var k :| OccursAt(t, needle, k);
        assert haystack[k + 1..k + 1 + |needle|] == t[k..k + |needle|];
        assert OccursAt(haystack, needle, k + 1);
      }
      if exists k :: OccursAt(haystack, needle, k) {
        var k :| OccursAt(haystack, needle, k);
        assert k != 0;
        assert t[k - 1..k - 1 + |needle|] == haystack[k..k + |needle|];
        assert OccursAt(t, needle, k - 1);
      }
    }
  }

  /** A needle holding a character the haystack lacks is not contained in it. */
  lemma MissingCharAbsent(haystack: string, needle: string, j: int)
    requires 0 <= j < |needle| && needle[j] !in haystack
    ensures !Contains(haystack, needle)
  {
    ContainsIff(haystack, needle);
    forall k | 0 <= k <= |haystack| - |needle|
      ensures !OccursAt(haystack, needle, k)
    {
      assert haystack[k..k + |needle|][j] == haystack[k + j];
      assert haystack[k + j] in haystack;
    }
  }
}
