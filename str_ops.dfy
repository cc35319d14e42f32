/** The Python string operations the core relies on: `str.isspace`, `str.strip`,
    `str.replace(c, "")` and `sep.join`, over `seq<char>`. */
module StrOps {

  /** Python's `str.isspace` for one character; the regex class `\s` on a `str`
      pattern is the same set. */
  predicate IsSpace(c: char)
  {
    ('\t' <= c <= '\r') || ('\U{1C}' <= c <= ' ') || c == '\U{85}' || c == '\U{A0}' ||
    c == '\U{1680}' || ('\U{2000}' <= c <= '\U{200A}') || c == '\U{2028}' || c == '\U{2029}' ||
    c == '\U{202F}' || c == '\U{205F}' || c == '\U{3000}'
  }

  /** `t` can be obtained from `s` by deleting characters. */
  predicate IsSubsequence(t: string, s: string)
    decreases |s|
  {
    if |t| == 0 then true
    else if |s| == 0 then false
    else (t[0] == s[0] && IsSubsequence(t[1..], s[1..])) || IsSubsequence(t, s[1..])
  }

  /** `t` occurs as a contiguous piece of `s`. */
  predicate IsInfix(t: string, s: string)
    decreases |s|
  {
    t <= s || (|s| > 0 && IsInfix(t, s[1..]))
  }

  /** A piece of `b` is a piece of `a + b`. */
  lemma {:induction false} InfixExtendLeft(t: string, a: string, b: string)
    requires IsInfix(t, b)
    ensures IsInfix(t, a + b)
    decreases |a|
  {
    if a == [] {
      assert a + b == b;
    } else {
      assert (a + b)[1..] == a[1..] + b;
      InfixExtendLeft(t, a[1..], b);
    }
  }

  /** Number of occurrences of `c` in `s`. */
  function Count(s: string, c: char): (n: nat)
    ensures n <= |s|
    ensures n == 0 <==> c !in s
  {
    if s == [] then 0 else (if s[0] == c then 1 else 0) + Count(s[1..], c)
  }

  /** Python's `s.replace(c, "")`: every `c` removed, all other characters kept. */
  function RemoveChar(s: string, c: char): (r: string)
    ensures c !in r
    ensures |r| == |s| - Count(s, c)
  {
    if s == [] then []
    else if s[0] == c then RemoveChar(s[1..], c)
    else [s[0]] + RemoveChar(s[1..], c)
  }

  /** `RemoveChar` keeps the other characters in their order. */
  lemma {:induction false} RemoveCharSubsequence(s: string, c: char)
    ensures IsSubsequence(RemoveChar(s, c), s)
  {
    if s != [] {
      RemoveCharSubsequence(s[1..], c);
      var rest := RemoveChar(s[1..], c);
      if s[0] != c {
        assert ([s[0]] + rest)[1..] == rest;
      } else if |rest| > 0 {
        assert IsSubsequence(rest, s[1..]);
      }
    }
  }

  lemma {:induction false} RemoveCharAppend(a: string, b: string, c: char)
    ensures RemoveChar(a + b, c) == RemoveChar(a, c) + RemoveChar(b, c)
  {
    if a != [] {
      assert (a + b)[0] == a[0];
      assert (a + b)[1..] == a[1..] + b;
      RemoveCharAppend(a[1..], b, c);
      var x, y := RemoveChar(a[1..], c), RemoveChar(b, c);
      if a[0] == c {
        assert RemoveChar(a + b, c) == RemoveChar(a[1..] + b, c);
      } else {
        assert RemoveChar(a + b, c) == [a[0]] + (x + y);
        assert [a[0]] + (x + y) == ([a[0]] + x) + y;
      }
    } else {
      assert a + b == b;
    }
  }

  /** A subsequence of `s` without `c` is at most as long as `s` with its `c`s removed. */
  lemma {:induction false} SubsequenceWithoutCharBound(t: string, s: string, c: char)
    requires IsSubsequence(t, s) && c !in t
    ensures |t| <= |s| - Count(s, c)
    decreases |s|
  {
    if |t| > 0 {
      if t[0] == s[0] && IsSubsequence(t[1..], s[1..]) {
        assert t[0] in t;
        SubsequenceWithoutCharBound(t[1..], s[1..], c);
      } else {
        SubsequenceWithoutCharBound(t, s[1..], c);
      }
    }
  }

  /** The three facts `RemoveChar` ensures pin its result down: any subsequence of `s`
      that has no `c` and the right length is `RemoveChar(s, c)`. */
  lemma {:induction false} RemoveCharUnique(t: string, s: string, c: char)
    requires IsSubsequence(t, s) && c !in t && |t| == |s| - Count(s, c)
    ensures t == RemoveChar(s, c)
    decreases |s|
  {
    if |t| == 0 {
      assert Count(s, c) == |s|;
      RemoveCharAllRemoved(s, c);
    } else if t[0] == s[0] && IsSubsequence(t[1..], s[1..]) {
      assert t[0] in t;
      RemoveCharUnique(t[1..], s[1..], c);
    } else {
      SubsequenceWithoutCharBound(t, s[1..], c);
      if s[0] != c {
        assert false;
      }
      RemoveCharUnique(t, s[1..], c);
    }
  }

  lemma {:induction false} RemoveCharAllRemoved(s: string, c: char)
    requires Count(s, c) == |s|
    ensures RemoveChar(s, c) == []
  {
    if s != [] {
      RemoveCharAllRemoved(s[1..], c);
    }
  }

  lemma {:induction false} SubsequenceTransitive(t: string, u: string, s: string)
    requires IsSubsequence(t, u) && IsSubsequence(u, s)
    ensures IsSubsequence(t, s)
    decreases |s|
  {
    if |t| > 0 && |s| > 0 {
      if u[0] == s[0] && IsSubsequence(u[1..], s[1..]) {
        if t[0] == u[0] && IsSubsequence(t[1..], u[1..]) {
          SubsequenceTransitive(t[1..], u[1..], s[1..]);
        } else {
          SubsequenceTransitive(t, u[1..], s[1..]);
        }
      } else {
        SubsequenceTransitive(t, u, s[1..]);
      }
    }
  }

  /** Removing two characters gives the same result in either order. */
  lemma {:induction false} RemoveCharCommutes(s: string, c: char, d: char)
    ensures RemoveChar(RemoveChar(s, c), d) == RemoveChar(RemoveChar(s, d), c)
  {
    if s != [] {
      RemoveCharCommutes(s[1..], c, d);
      RemoveCharAppend([s[0]], RemoveChar(s[1..], c), d);
      RemoveCharAppend([s[0]], RemoveChar(s[1..], d), c);
    }
  }

  /** Number of whitespace characters `s` starts with: the first character after them
      is not whitespace. */
  function LeadingSpaces(s: string): (n: nat)
    ensures n <= |s|
    ensures n < |s| ==> !IsSpace(s[n])
  {
    if |s| > 0 && IsSpace(s[0]) then 1 + LeadingSpaces(s[1..]) else 0
  }

  /** The characters `LeadingSpaces` counts are whitespace. */
  lemma {:induction false} LeadingSpacesAreSpaces(s: string)
    ensures forall k | 0 <= k < LeadingSpaces(s) :: IsSpace(s[k])
    decreases |s|
  {
    if |s| > 0 && IsSpace(s[0]) {
      LeadingSpacesAreSpaces(s[1..]);
      assert forall k | 1 <= k < LeadingSpaces(s) :: s[k] == s[1..][k - 1];
    }
  }

  /** Number of whitespace characters `s` ends with: the last character before them is
      not whitespace. */
  function TrailingSpaces(s: string): (n: nat)
    ensures n <= |s|
    ensures n < |s| ==> !IsSpace(s[|s| - n - 1])
  {
    if |s| > 0 && IsSpace(s[|s| - 1]) then 1 + TrailingSpaces(s[..|s| - 1]) else 0
  }

  /** The characters `TrailingSpaces` counts are whitespace. */
  lemma {:induction false} TrailingSpacesAreSpaces(s: string)
    ensures forall k | |s| - TrailingSpaces(s) <= k < |s| :: IsSpace(s[k])
    decreases |s|
  {
    if |s| > 0 && IsSpace(s[|s| - 1]) {
      TrailingSpacesAreSpaces(s[..|s| - 1]);
      assert forall k | |s| - TrailingSpaces(s) <= k < |s| - 1 :: s[k] == s[..|s| - 1][k];
    }
  }

  /** Python's `s.strip()`: the piece of `s` left once the leading and the trailing
      whitespace are cut off; when it is not empty it starts and ends with a non-space. */
  function Strip(s: string): (r: string)
    ensures LeadingSpaces(s) + |r| <= |s|
    ensures r == s[LeadingSpaces(s)..LeadingSpaces(s) + |r|]
    ensures |r| > 0 ==> !IsSpace(r[0]) && !IsSpace(r[|r| - 1])
  {
    var t := s[LeadingSpaces(s)..];
    t[..|t| - TrailingSpaces(t)]
  }

  /** What `Strip` cuts off is whitespace, on both sides. */
  lemma StripCutsOnlySpaces(s: string)
    ensures forall k | 0 <= k < LeadingSpaces(s) :: IsSpace(s[k])
    ensures forall k | LeadingSpaces(s) + |Strip(s)| <= k < |s| :: IsSpace(s[k])
  {
    LeadingSpacesAreSpaces(s);
    var t := s[LeadingSpaces(s)..];
    TrailingSpacesAreSpaces(t);
    assert |Strip(s)| == |t| - TrailingSpaces(t);
    SpacesInSuffix(s, LeadingSpaces(s), t, |t| - TrailingSpaces(t));
  }

  /** Whitespace at the end of `s[l..]` is whitespace at the end of `s`. */
  lemma SpacesInSuffix(s: string, l: nat, t: string, m: nat)
    requires l <= |s| && t == s[l..] && m <= |t|
    requires forall k | m <= k < |t| :: IsSpace(t[k])
    ensures forall k | l + m <= k < |s| :: IsSpace(s[k])
  {
    assert forall k | l + m <= k < |s| :: s[k] == t[k - l];
  }

  /** The strip is empty exactly when `s` is all whitespace. */
  lemma StripEmptyIff(s: string)
    ensures |Strip(s)| == 0 <==> forall k | 0 <= k < |s| :: IsSpace(s[k])
  {
    StripCutsOnlySpaces(s);
  }

  /** A string that starts and ends with a non-space is its own strip. */
  lemma StripUnchanged(s: string)
    requires |s| > 0 && !IsSpace(s[0]) && !IsSpace(s[|s| - 1])
    ensures Strip(s) == s
  {
  }

  /** Python's `sep.join(parts)`: no parts give the empty string, a single part is
      returned as it is (`JoinLength` gives the rest). */
  function Join(parts: seq<string>, sep: string): (r: string)
    ensures |parts| == 0 ==> r == ""
    ensures |parts| == 1 ==> r == parts[0]
  {
    if |parts| == 0 then ""
    else if |parts| == 1 then parts[0]
    else parts[0] + sep + Join(parts[1..], sep)
  }

  /** A join starts with the first part, and its length is the parts' total length plus
      one separator between each two neighbours. */
  lemma {:induction false} JoinLength(parts: seq<string>, sep: string)
    ensures |parts| > 0 ==> parts[0] <= Join(parts, sep)
    ensures |Join(parts, sep)| == TotalLength(parts) + (if |parts| == 0 then 0 else (|parts| - 1) * |sep|)
    decreases |parts|
  {
    if |parts| > 1 {
      JoinLength(parts[1..], sep);
      assert |parts[1..]| - 1 == |parts| - 2;
      assert (|parts| - 1) * |sep| == |sep| + (|parts| - 2) * |sep|;
    }
  }

  /** The summed length of `parts`. */
  function TotalLength(parts: seq<string>): nat
  {
    if parts == [] then 0 else |parts[0]| + TotalLength(parts[1..])
  }
}
