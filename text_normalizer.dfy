/** `clean_text`: the normaliser applied to every infobox text before a field is
    searched for in it. */
module TextNormalizer {
  import opened StrOps

  /** Membership in Python's `string.printable`: the digits, the ASCII letters, the
      ASCII punctuation and the six characters of `string.whitespace` (tab, newline,
      vertical tab, form feed, carriage return, space), i.e. U+0009..U+000D and
      U+0020..U+007E. */
  predicate IsPrintable(c: char)
  {
    ('\t' <= c <= '\r') || (' ' <= c <= '~')
  }

  predicate AllPrintable(s: string)
  {
    forall i | 0 <= i < |s| :: IsPrintable(s[i])
  }

  /** No two neighbouring characters of `s` are both `c`. */
  predicate NoDouble(s: string, c: char)
  {
    forall i | 0 <= i < |s| - 1 :: !(s[i] == c && s[i + 1] == c)
  }

  /** First step of `clean_text`: every character outside `string.printable` becomes one
      space, position for position; nothing is dropped. */
  function ReplaceNonPrintable(s: string): (r: string)
    ensures |r| == |s|
    ensures forall i | 0 <= i < |s| :: r[i] == (if IsPrintable(s[i]) then s[i] else ' ')
  {
    if s == [] then []
    else [if IsPrintable(s[0]) then s[0] else ' '] + ReplaceNonPrintable(s[1..])
  }

  /** `re.sub(c + "+", c, s)` for a single character `c`: each maximal run of `c`s is
      replaced by one `c`. A `c` is dropped exactly when the next character is a `c` too. */
  function CollapseRuns(s: string, c: char): (r: string)
    ensures |r| <= |s|
    ensures |s| > 0 ==> |r| > 0 && r[0] == s[0]
    ensures NoDouble(r, c)
    ensures forall x :: x in r ==> x in s
  {
    if |s| == 0 then []
    else if |s| >= 2 && s[0] == c && s[1] == c then CollapseRuns(s[1..], c)
    else
      var rest := CollapseRuns(s[1..], c);
      assert forall i | 1 <= i < |[s[0]] + rest| :: ([s[0]] + rest)[i] == rest[i - 1];
      [s[0]] + rest
  }

  /** `clean_text` (a10.py): non-printables to spaces, then runs of spaces to one space,
      then runs of newlines to one newline. */
  function CleanText(s: string): (r: string)
    ensures AllPrintable(r)
    ensures NoDouble(r, ' ')
    ensures NoDouble(r, '\n')
    ensures |r| <= |s|
  {
    var a := ReplaceNonPrintable(s);
    var b := CollapseRuns(a, ' ');
    ReplaceNonPrintableIsPrintable(s);
    CollapseRunsKeepsPrintable(a, ' ');
    CollapseRunsKeepsPrintable(b, '\n');
    CollapseRunsKeepsNoDouble(b, '\n', ' ');
    CollapseRuns(b, '\n')
  }

  // ---------------------------------------------------------------------------------
  // Properties of the single steps

  /** Replacing non-printables leaves only printable characters. */
  lemma ReplaceNonPrintableIsPrintable(s: string)
    ensures AllPrintable(ReplaceNonPrintable(s))
  {
  }

  /** On printable text the first step changes nothing. */
  lemma {:induction false} ReplaceNonPrintableFixpoint(s: string)
    requires AllPrintable(s)
    ensures ReplaceNonPrintable(s) == s
  {
    var r := ReplaceNonPrintable(s);
    assert forall i | 0 <= i < |s| :: r[i] == s[i];
  }

  /** Collapsing only ever removes `c`s, and keeps every other character in order. */
  lemma {:induction false} CollapseRunsKeepsOthers(s: string, c: char)
    ensures IsSubsequence(CollapseRuns(s, c), s)
    ensures RemoveChar(CollapseRuns(s, c), c) == RemoveChar(s, c)
  {
    if |s| == 0 {
    } else if |s| >= 2 && s[0] == c && s[1] == c {
      CollapseRunsKeepsOthers(s[1..], c);
      var t := CollapseRuns(s, c);
      if |t| > 0 {
        assert IsSubsequence(t, s[1..]);
      }
    } else {
      CollapseRunsKeepsOthers(s[1..], c);
      var rest := CollapseRuns(s[1..], c);
      assert ([s[0]] + rest)[1..] == rest;
    }
  }

  /** A run is never removed entirely: `c` survives collapsing exactly when it occurs. */
  lemma {:induction false} CollapseRunsKeepsChar(s: string, c: char)
    ensures (c in CollapseRuns(s, c)) <==> (c in s)
  {
    if |s| > 0 {
      CollapseRunsKeepsChar(s[1..], c);
      if c in s[1..] {
        assert c in CollapseRuns(s[1..], c);
      } else if c == s[0] {
        assert CollapseRuns(s, c)[0] == c;
      }
    }
  }

  /** Only the presence of a run matters, not its length: lengthening a run of `c`s by
      one does not change the result. Together with `CollapseRunsFixpoint` this
      determines `CollapseRuns` completely. */
  lemma {:induction false} CollapseRunsRunLength(a: string, b: string, c: char)
    ensures CollapseRuns(a + [c, c] + b, c) == CollapseRuns(a + [c] + b, c)
  {
    if a == [] {
      assert a + [c, c] + b == [c] + ([c] + b);
      assert (a + [c, c] + b)[1..] == a + [c] + b;
    } else {
      assert (a + [c, c] + b)[1..] == a[1..] + [c, c] + b;
      assert (a + [c] + b)[1..] == a[1..] + [c] + b;
      CollapseRunsRunLength(a[1..], b, c);
    }
  }

  /** A string without doubled `c`s is left as it is. */
  lemma {:induction false} CollapseRunsFixpoint(s: string, c: char)
    requires NoDouble(s, c)
    ensures CollapseRuns(s, c) == s
  {
    if |s| > 0 {
      assert NoDouble(s[1..], c) by {
        forall i | 0 <= i < |s[1..]| - 1 ensures !(s[1..][i] == c && s[1..][i + 1] == c) {
          assert s[1..][i] == s[i + 1] && s[1..][i + 1] == s[i + 2];
        }
      }
      CollapseRunsFixpoint(s[1..], c);
      assert !(|s| >= 2 && s[0] == c && s[1] == c);
    }
  }

  /** Collapsing runs of `c` creates no doubled `d` for any other character `d`. */
  lemma {:induction false} CollapseRunsKeepsNoDouble(s: string, c: char, d: char)
    requires c != d && NoDouble(s, d)
    ensures NoDouble(CollapseRuns(s, c), d)
  {
    if |s| > 0 {
      assert NoDouble(s[1..], d) by {
        forall i | 0 <= i < |s[1..]| - 1 ensures !(s[1..][i] == d && s[1..][i + 1] == d) {
          assert s[1..][i] == s[i + 1] && s[1..][i + 1] == s[i + 2];
        }
      }
      CollapseRunsKeepsNoDouble(s[1..], c, d);
      if !(|s| >= 2 && s[0] == c && s[1] == c) {
        var rest := CollapseRuns(s[1..], c);
        var r := [s[0]] + rest;
        assert r == CollapseRuns(s, c);
        forall i | 0 <= i < |r| - 1 ensures !(r[i] == d && r[i + 1] == d) {
          if i == 0 {
            assert r[1] == rest[0] == s[1];
          } else {
            assert r[i] == rest[i - 1] && r[i + 1] == rest[i];
          }
        }
      }
    }
  }

  // ---------------------------------------------------------------------------------
  // Properties of clean_text

  /** Collapsing runs introduces no character, so printable text stays printable. */
  lemma CollapseRunsKeepsPrintable(a: string, c: char)
    requires AllPrintable(a)
    ensures AllPrintable(CollapseRuns(a, c))
  {
    var t := CollapseRuns(a, c);
    forall i | 0 <= i < |t| ensures IsPrintable(t[i]) {
      assert t[i] in t;
      assert t[i] in a;
    }
  }

  /** `clean_text` is idempotent. */
  lemma CleanTextIdempotent(s: string)
    ensures CleanText(CleanText(s)) == CleanText(s)
  {
    var t := CleanText(s);
    ReplaceNonPrintableFixpoint(t);
    CollapseRunsFixpoint(t, ' ');
    CollapseRunsFixpoint(t, '\n');
  }

  /** `clean_text` removes only spaces and newlines: every other character of the
      first step's output survives, in order. */
  lemma CleanTextKeepsOthers(s: string)
    ensures IsSubsequence(CleanText(s), ReplaceNonPrintable(s))
    ensures RemoveChar(RemoveChar(CleanText(s), '\n'), ' ')
         == RemoveChar(RemoveChar(ReplaceNonPrintable(s), ' '), '\n')
  {
    var a := ReplaceNonPrintable(s);
    var b := CollapseRuns(a, ' ');
    var t := CollapseRuns(b, '\n');
    CollapseRunsKeepsOthers(a, ' ');
    CollapseRunsKeepsOthers(b, '\n');
    SubsequenceTransitive(t, b, a);
    RemoveCharCommutes(b, '\n', ' ');
  }
}
