/** The language list of `get_country_languages`: `re.split(r",\s*|\s+and\s+", raw)`,
    then each piece stripped and the empty ones dropped. */
module LanguageList {
  import opened StrOps

  // ---------------------------------------------------------------------------------
  // The separator `,\s*|\s+and\s+`

  /** Length of the maximal run of whitespace starting at `i`: the character after it
      is not whitespace, and by `SpaceRunSpaces` everything in it is. */
  function SpaceRun(s: string, i: nat): (n: nat)
    requires i <= |s|
    ensures i + n <= |s|
    ensures i + n < |s| ==> !IsSpace(s[i + n])
    decreases |s| - i
  {
    if i < |s| && IsSpace(s[i]) then 1 + SpaceRun(s, i + 1) else 0
  }

  lemma {:induction false} SpaceRunSpaces(s: string, i: nat)
    requires i <= |s|
    ensures forall k | i <= k < i + SpaceRun(s, i) :: IsSpace(s[k])
    decreases |s| - i
  {
    if i < |s| && IsSpace(s[i]) {
      SpaceRunSpaces(s, i + 1);
    }
  }

  /** The literal `and` starts at `j`. */
  predicate AndAt(s: string, j: nat)
  {
    j + 3 <= |s| && s[j] == 'a' && s[j + 1] == 'n' && s[j + 2] == 'd'
  }

  /** Length of the separator match `,\s*|\s+and\s+` starting at `i`, 0 when none starts
      there. The first alternative needs a comma and takes all whitespace after it. The
      second needs whitespace; its `\s+` is greedy and cannot give anything back, since a
      whitespace character is never `a`, so it takes the whole run, then the literal
      lower-case `and` (no flags are passed to `re.split`), then at least one more
      whitespace character and the rest of that run. */
  function SeparatorAt(s: string, i: nat): (n: nat)
    requires i < |s|
    ensures i + n <= |s|
    ensures n > 0 ==> s[i] == ',' || IsSpace(s[i])
  {
    if s[i] == ',' then 1 + SpaceRun(s, i + 1)
    else
      var w := SpaceRun(s, i);
      if w > 0 && AndAt(s, i + w) then
        var w2 := SpaceRun(s, i + w + 3);
        if w2 > 0 then w + 3 + w2 else 0
      else 0
  }

  /** The extent of a match: a comma and the whole whitespace run after it; or, for the
      second alternative, the whole whitespace run at `i` (non-empty), `and`, and the
      whole whitespace run after it, which must be non-empty; nothing else matches. */
  lemma SeparatorAtExtent(s: string, i: nat)
    requires i < |s|
    ensures s[i] == ',' ==> SeparatorAt(s, i) == 1 + SpaceRun(s, i + 1)
    ensures s[i] != ',' ==>
      var n, w := SeparatorAt(s, i), SpaceRun(s, i);
      (n > 0 <==> w > 0 && AndAt(s, i + w) && SpaceRun(s, i + w + 3) > 0) &&
      (n > 0 ==> n == w + 3 + SpaceRun(s, i + w + 3))
  {
  }

  /** No separator starts at a character that is neither a comma nor whitespace. */
  lemma NoSeparatorAt(s: string, i: nat)
    requires i < |s| && s[i] != ',' && !IsSpace(s[i])
    ensures SeparatorAt(s, i) == 0
  {
    assert SpaceRun(s, i) == 0;
  }

  /** The separator table of `s`: the length of the match starting at each position. */
  function Separators(s: string): (m: seq<nat>)
    ensures |m| == |s|
    ensures forall k | 0 <= k < |s| :: m[k] == SeparatorAt(s, k)
  {
    SeparatorsFrom(s, 0)
  }

  function SeparatorsFrom(s: string, i: nat): (m: seq<nat>)
    requires i <= |s|
    ensures |m| == |s| - i
    ensures forall k | i <= k < |s| :: m[k - i] == SeparatorAt(s, k)
    decreases |s| - i
  {
    if i == |s| then [] else [SeparatorAt(s, i)] + SeparatorsFrom(s, i + 1)
  }

  /** A separator table for `s`: each entry is the length of the match starting there
      (0 for none), and no match runs past the end. */
  predicate IsTable(s: string, m: seq<nat>)
  {
    |m| == |s| && forall k | 0 <= k < |s| :: k + m[k] <= |s|
  }

  lemma SeparatorsIsTable(s: string)
    ensures IsTable(s, Separators(s))
    ensures forall k | 0 <= k < |s| && s[k] == ',' :: Separators(s)[k] > 0
  {
    var m := Separators(s);
    forall k | 0 <= k < |s|
      ensures k + m[k] <= |s| && (s[k] == ',' ==> m[k] > 0)
    {
      SeparatorAtExtent(s, k);
    }
  }

  /** No match of the table `m` starts at a position of `a..b`. */
  predicate NoMatchIn(m: seq<nat>, a: nat, b: nat)
    requires a <= b <= |m|
  {
    forall k | a <= k < b :: m[k] == 0
  }

  lemma NoMatchExtend(m: seq<nat>, a: nat, b: nat)
    requires a <= b <= |m|
    ensures b < |m| && NoMatchIn(m, a, b) && m[b] == 0 ==> NoMatchIn(m, a, b + 1)
  {
  }

  // ---------------------------------------------------------------------------------
  // What `re.split` returns

  /** `pieces` is how `re.split` cuts `s[start..]` at the matches of the table `m`
      (for the language list, `Separators(s)`): the first piece runs from `start` up to
      the leftmost position at which a match starts (no position inside the piece starts
      one), that match is skipped, and the remaining pieces cut the text after it the
      same way; the last piece runs to the end of the text. */
  predicate SplitsAs(s: string, m: seq<nat>, start: nat, pieces: seq<string>)
    requires IsTable(s, m)
    decreases |pieces|
  {
    start <= |s| && |pieces| > 0 &&
    var e := start + |pieces[0]|;
    e <= |s| && s[start..e] == pieces[0] &&
    NoMatchIn(m, start, e) &&
    if |pieces| == 1 then e == |s|
    else e < |s| && m[e] > 0 && SplitsAs(s, m, e + m[e], pieces[1..])
  }

  /** The separator texts that `SplitsAs` skips, in order. */
  function SeparatorTexts(s: string, m: seq<nat>, start: nat, pieces: seq<string>): (seps: seq<string>)
    requires IsTable(s, m) && SplitsAs(s, m, start, pieces)
    ensures |seps| + 1 == |pieces|
    decreases |pieces|
  {
    if |pieces| == 1 then []
    else
      var e := start + |pieces[0]|;
      [s[e..e + m[e]]] + SeparatorTexts(s, m, e + m[e], pieces[1..])
  }

  /** The pieces with the separators put back between them. */
  function Interleave(pieces: seq<string>, seps: seq<string>): string
    requires |pieces| == |seps| + 1
    decreases |seps|
  {
    if seps == [] then pieces[0] else pieces[0] + seps[0] + Interleave(pieces[1..], seps[1..])
  }

  /** Round trip: the pieces, with the skipped separators put back, are the text. */
  lemma {:induction false} SplitsRebuild(s: string, m: seq<nat>, start: nat, pieces: seq<string>)
    requires IsTable(s, m) && SplitsAs(s, m, start, pieces)
    ensures Interleave(pieces, SeparatorTexts(s, m, start, pieces)) == s[start..]
    decreases |pieces|
  {
    var e := start + |pieces[0]|;
    if |pieces| == 1 {
      assert s[start..e] == s[start..];
    } else {
      var n := m[e];
      var seps := SeparatorTexts(s, m, start, pieces);
      SplitsRebuild(s, m, e + n, pieces[1..]);
      assert seps[0] == s[e..e + n] && seps[1..] == SeparatorTexts(s, m, e + n, pieces[1..]);
      SliceThree(s, start, e, e + n);
    }
  }

  lemma SliceThree(s: string, a: nat, b: nat, c: nat)
    requires a <= b <= c <= |s|
    ensures s[a..] == s[a..b] + s[b..c] + s[c..]
  {
    assert s[a..] == s[a..b] + s[b..];
    assert s[b..] == s[b..c] + s[c..];
  }

  /** A text is cut in one way only. */
  lemma {:induction false} SplitsUnique(s: string, m: seq<nat>, start: nat, p: seq<string>, q: seq<string>)
    requires IsTable(s, m) && SplitsAs(s, m, start, p) && SplitsAs(s, m, start, q)
    ensures p == q
    decreases |p|
  {
    FirstPieceUnique(s, m, start, p, q);
    if |p| > 1 {
      var n := CutRestBoth(s, m, start, p, q);
      SplitsUnique(s, m, n, p[1..], q[1..]);
      assert p == [p[0]] + p[1..] && q == [q[0]] + q[1..];
    } else {
      assert p == [p[0]] && q == [q[0]];
    }
  }

  /** Two cuts start with the same piece, and both have more pieces or neither does. */
  lemma FirstPieceUnique(s: string, m: seq<nat>, start: nat, p: seq<string>, q: seq<string>)
    requires IsTable(s, m) && SplitsAs(s, m, start, p) && SplitsAs(s, m, start, q)
    ensures |p[0]| == |q[0]| && p[0] == q[0] && (|p| == 1 <==> |q| == 1)
  {
    var e1, e2 := start + |p[0]|, start + |q[0]|;
    CutEndsAtMatch(s, m, start, p);
    CutEndsAtMatch(s, m, start, q);
    if e1 < e2 {
      assert false;
    } else if e2 < e1 {
      assert false;
    }
    assert p[0] == s[start..e1] == q[0];
  }

  /** The first piece of a cut ends at the end of the text or where a match starts. */
  lemma CutEndsAtMatch(s: string, m: seq<nat>, start: nat, pieces: seq<string>)
    requires IsTable(s, m) && SplitsAs(s, m, start, pieces)
    ensures var e := start + |pieces[0]|;
      e <= |s| && s[start..e] == pieces[0] && NoMatchIn(m, start, e) &&
      (|pieces| == 1 <==> e == |s|) && (e < |s| ==> m[e] > 0)
  {
  }

  /** Two cuts whose first pieces have the same length go on at the same place. */
  lemma CutRestBoth(s: string, m: seq<nat>, start: nat, p: seq<string>, q: seq<string>) returns (next: nat)
    requires IsTable(s, m) && SplitsAs(s, m, start, p) && SplitsAs(s, m, start, q)
    requires |p| > 1 && |q| > 1 && |p[0]| == |q[0]|
    ensures SplitsAs(s, m, next, p[1..]) && SplitsAs(s, m, next, q[1..])
  {
    next := start + |p[0]| + m[start + |p[0]|];
  }

  /** Each comma starts a match, so no piece of a cut holds one. */
  lemma {:induction false} SplitsNoComma(s: string, m: seq<nat>, start: nat, pieces: seq<string>)
    requires IsTable(s, m) && SplitsAs(s, m, start, pieces)
    requires forall k | 0 <= k < |s| && s[k] == ',' :: m[k] > 0
    ensures NoCommaPieces(pieces)
    decreases |pieces|
  {
    var e := start + |pieces[0]|;
    assert forall k | start <= k < e :: s[k] != ',' by {
      forall k | start <= k < e ensures s[k] != ',' {
        assert m[k] == 0;
      }
    }
    NoCommaSlice(s, start, e);
    if |pieces| > 1 {
      SplitsNoComma(s, m, e + m[e], pieces[1..]);
    } else {
      assert pieces[1..] == [];
    }
  }

  // ---------------------------------------------------------------------------------
  // The scanner

  /** The left-to-right scan of `re.split` over the match table `m`: the current piece
      is `s[start..i]`; a match that starts at `i` ends the piece, and scanning resumes
      after it; otherwise the scan moves one character on. The pieces occur in `s` in
      order from `start`, and when no match starts inside the current piece so far, the
      result is the cut `SplitsAs` describes. */
  function SplitFrom(s: string, m: seq<nat>, start: nat, i: nat): (r: seq<string>)
    requires IsTable(s, m) && start <= i <= |s|
    ensures InOrderFrom(r, s, start)
    ensures NoMatchIn(m, start, i) ==> SplitsAs(s, m, start, r)
    decreases |s| - i
  {
    if i == |s| then
      LastPiece(s, m, start);
      [s[start..]]
    else if m[i] > 0 then
      var rest := SplitFrom(s, m, i + m[i], i + m[i]);
      PieceThenRest(s, start, i, i + m[i], rest);
      SplitsThenRest(s, m, start, i, rest);
      [s[start..i]] + rest
    else
      NoMatchExtend(m, start, i);
      SplitFrom(s, m, start, i + 1)
  }

  /** The piece the scan ends with. */
  lemma LastPiece(s: string, m: seq<nat>, start: nat)
    requires IsTable(s, m) && start <= |s|
    ensures InOrderFrom([s[start..]], s, start)
    ensures NoMatchIn(m, start, |s|) ==> SplitsAs(s, m, start, [s[start..]])
  {
    PieceThenRest(s, start, |s|, |s|, []);
    assert s[start..|s|] == s[start..];
    assert [s[start..]] + [] == [s[start..]];
  }

  /** Putting the piece `s[start..i]` in front of the cut that follows the match at
      `i`. */
  lemma SplitsThenRest(s: string, m: seq<nat>, start: nat, i: nat, rest: seq<string>)
    requires IsTable(s, m) && start <= i < |s| && m[i] > 0
    ensures NoMatchIn(m, start, i) && SplitsAs(s, m, i + m[i], rest) ==>
      SplitsAs(s, m, start, [s[start..i]] + rest)
  {
    var ps := [s[start..i]] + rest;
    assert ps[0] == s[start..i] && ps[1..] == rest;
  }

  /** Putting the piece `s[start..i]` in front of pieces found from `next` on. */
  lemma PieceThenRest(s: string, start: nat, i: nat, next: nat, rest: seq<string>)
    requires start <= i <= next <= |s|
    ensures InOrderFrom(rest, s, next) ==> InOrderFrom([s[start..i]] + rest, s, start)
  {
    if InOrderFrom(rest, s, next) {
      InOrderFromEarlier(rest, s, i, next);
      InOrderCons(s[start..i], rest, s, start, start, i);
    }
  }

  /** `re.split(r",\s*|\s+and\s+", s)`: the one cut of `s` at its separators that
      `SplitsAs` describes (by `SplitsUnique` there is no other), so the pieces with the
      separators put back are `s`; no piece holds a comma, and the pieces occur in `s`
      in order. */
  function SplitLanguages(s: string): (r: seq<string>)
    ensures IsTable(s, Separators(s)) && SplitsAs(s, Separators(s), 0, r)
    ensures Interleave(r, SeparatorTexts(s, Separators(s), 0, r)) == s
    ensures NoCommaPieces(r)
    ensures InOrderFrom(r, s, 0)
  {
    SeparatorsIsTable(s);
    var r := SplitFrom(s, Separators(s), 0, 0);
    SplitsRebuild(s, Separators(s), 0, r);
    SplitsNoComma(s, Separators(s), 0, r);
    assert s[0..] == s;
    r
  }

  // ---------------------------------------------------------------------------------
  // Strip and filter

  /** `[p.strip() for p in pieces if p.strip()]`. When no piece holds a comma, every
      result is a language. */
  function StripNonEmpty(pieces: seq<string>): (r: seq<string>)
    ensures |r| <= |pieces|
    ensures NoCommaPieces(pieces) ==> AllLanguages(r)
    decreases |pieces|
  {
    if pieces == [] then []
    else
      var p := Strip(pieces[0]);
      var rest := StripNonEmpty(pieces[1..]);
      StrippedPieceThenRest(pieces[0], rest);
      if p == [] then rest else [p] + rest
  }

  /** A comma-free piece that does not strip to nothing becomes a language. */
  lemma StrippedPieceThenRest(x: string, rest: seq<string>)
    ensures ',' !in x && Strip(x) != [] && AllLanguages(rest) ==> AllLanguages([Strip(x)] + rest)
  {
    var p := Strip(x);
    if ',' !in x && p != [] && AllLanguages(rest) {
      var a := LeadingSpaces(x);
      NoCommaInside(x, a, a + |p|);
      AllLanguagesCons(p, rest);
    }
  }

  /** Every piece whose strip is non-empty contributes that strip, and every item is
      the strip of some piece. */
  lemma {:induction false} StripNonEmptyContents(pieces: seq<string>)
    ensures forall p | p in pieces && Strip(p) != [] :: Strip(p) in StripNonEmpty(pieces)
    ensures forall q | q in StripNonEmpty(pieces) :: exists p | p in pieces :: q == Strip(p)
    decreases |pieces|
  {
    if pieces != [] {
      StripNonEmptyContents(pieces[1..]);
      var r := StripNonEmpty(pieces);
      var rest := StripNonEmpty(pieces[1..]);
      assert forall p | p in pieces :: p == pieces[0] || p in pieces[1..];
      if Strip(pieces[0]) == [] {
        assert r == rest;
      } else {
        assert r == [Strip(pieces[0])] + rest;
        assert forall q | q in r :: q == Strip(pieces[0]) || q in rest;
      }
    }
  }

  /** The filter works piece by piece: it distributes over concatenation. */
  lemma {:induction false} StripNonEmptyAppend(a: seq<string>, b: seq<string>)
    ensures StripNonEmpty(a + b) == StripNonEmpty(a) + StripNonEmpty(b)
    decreases |a|
  {
    if a == [] {
      assert a + b == b;
    } else {
      assert (a + b)[0] == a[0] && (a + b)[1..] == a[1..] + b;
      StripNonEmptyAppend(a[1..], b);
    }
  }

  /** What `get_country_languages` returns for a captured group: languages (by
      `LanguagesShape`, every item is non-empty, without whitespace at either end and
      without a comma), in the order of the text. */
  function Languages(raw: string): (r: seq<string>)
    ensures AllLanguages(r)
    ensures InOrderFrom(r, raw, 0)
  {
    var pieces := SplitLanguages(raw);
    StripNonEmptyInOrder(pieces, raw, 0);
    StripNonEmpty(pieces)
  }

  // ---------------------------------------------------------------------------------
  // Order in the text

  /** `items` occur in `s` one after another, without overlapping, at or after `from`. */
  predicate InOrderFrom(items: seq<string>, s: string, from: nat)
    decreases |items|
  {
    items == [] ||
    exists i: nat, j: nat | from <= i <= j <= |s| && s[i..j] == items[0] ::
      InOrderFrom(items[1..], s, j)
  }

  lemma {:induction false} InOrderFromEarlier(items: seq<string>, s: string, from: nat, later: nat)
    requires from <= later && InOrderFrom(items, s, later)
    ensures InOrderFrom(items, s, from)
  {
    if items != [] {
      var i, j := InOrderUncons(items, s, later);
      assert from <= i;
    }
  }

  lemma InOrderCons(x: string, rest: seq<string>, s: string, from: nat, i: nat, j: nat)
    requires from <= i <= j <= |s| && s[i..j] == x && InOrderFrom(rest, s, j)
    ensures InOrderFrom([x] + rest, s, from)
  {
    assert ([x] + rest)[0] == x && ([x] + rest)[1..] == rest;
  }

  /** A slice of the piece `s[i..j]` is the corresponding slice of `s`. */
  lemma SliceOfPiece(x: string, s: string, i: nat, j: nat, a: nat, b: nat)
    ensures i <= j <= |s| && s[i..j] == x && a <= b <= |x| ==> i + b <= |s| && x[a..b] == s[i + a..i + b]
  {
    if i <= j <= |s| && s[i..j] == x && a <= b <= |x| {
      assert forall k | 0 <= k < b - a :: x[a..b][k] == x[a + k] == s[i + a + k];
    }
  }

  lemma InOrderUncons(items: seq<string>, s: string, from: nat) returns (i: nat, j: nat)
    requires items != [] && InOrderFrom(items, s, from)
    ensures from <= i <= j <= |s| && s[i..j] == items[0] && InOrderFrom(items[1..], s, j)
  {
    i, j :| from <= i <= j <= |s| && s[i..j] == items[0] && InOrderFrom(items[1..], s, j);
  }

  lemma {:induction false} StripNonEmptyInOrder(pieces: seq<string>, s: string, from: nat)
    requires InOrderFrom(pieces, s, from)
    ensures InOrderFrom(StripNonEmpty(pieces), s, from)
    decreases |pieces|
  {
    if pieces != [] {
      var i, j := InOrderUncons(pieces, s, from);
      StripNonEmptyInOrder(pieces[1..], s, j);
      var rest := StripNonEmpty(pieces[1..]);
      var p := Strip(pieces[0]);
      if p == [] {
        assert StripNonEmpty(pieces) == rest;
        InOrderFromEarlier(rest, s, from, j);
      } else {
        assert StripNonEmpty(pieces) == [p] + rest;
        StripCons(pieces[0], rest, s, from, i, j);
      }
    }
  }

  /** A piece found at `i..j` may be replaced by its strip. */
  lemma StripCons(x: string, rest: seq<string>, s: string, from: nat, i: nat, j: nat)
    requires from <= i <= j <= |s| && s[i..j] == x && InOrderFrom(rest, s, j)
    ensures InOrderFrom([Strip(x)] + rest, s, from)
  {
    var a := LeadingSpaces(x);
    var p := Strip(x);
    SliceOfPiece(x, s, i, j, a, a + |p|);
    InOrderFromEarlier(rest, s, i + a + |p|, j);
    InOrderCons(p, rest, s, from, i + a, i + a + |p|);
  }

  // ---------------------------------------------------------------------------------
  // The shape of a language

  /** A language as `get_country_languages` returns it: non-empty, no whitespace at
      either end, no comma. */
  predicate IsLanguage(q: string)
  {
    |q| > 0 && !IsSpace(q[0]) && !IsSpace(q[|q| - 1]) && ',' !in q
  }

  /** No piece holds a comma. */
  predicate NoCommaPieces(ps: seq<string>)
    decreases |ps|
  {
    ps == [] || (',' !in ps[0] && NoCommaPieces(ps[1..]))
  }

  /** Every piece is a language. */
  predicate AllLanguages(ps: seq<string>)
    decreases |ps|
  {
    ps == [] || (IsLanguage(ps[0]) && AllLanguages(ps[1..]))
  }

  lemma NoCommaSlice(s: string, i: nat, j: nat)
    requires i <= j <= |s| && forall k | i <= k < j :: s[k] != ','
    ensures ',' !in s[i..j]
  {
  }

  lemma AllLanguagesCons(x: string, rest: seq<string>)
    requires IsLanguage(x) && AllLanguages(rest)
    ensures AllLanguages([x] + rest)
  {
    assert ([x] + rest)[0] == x && ([x] + rest)[1..] == rest;
  }

  /** A slice of a comma-free string is comma-free. */
  lemma NoCommaInside(x: string, a: nat, b: nat)
    requires a <= b <= |x| && ',' !in x
    ensures ',' !in x[a..b]
  {
    assert forall k | 0 <= k < b - a :: x[a..b][k] == x[a + k];
  }

  lemma {:induction false} AllLanguagesMembers(ps: seq<string>)
    requires AllLanguages(ps)
    ensures forall q | q in ps :: IsLanguage(q)
    decreases |ps|
  {
    if ps != [] {
      AllLanguagesMembers(ps[1..]);
      assert forall q | q in ps :: q == ps[0] || q in ps[1..];
    }
  }

  /** Every language is non-empty, starts and ends with a non-space and holds no comma,
      and the languages occur in the captured text in the order they are listed. */
  lemma LanguagesShape(raw: string)
    ensures forall q | q in Languages(raw) :: IsLanguage(q)
    ensures InOrderFrom(Languages(raw), raw, 0)
  {
    AllLanguagesMembers(Languages(raw));
  }

  /** The languages are exactly the non-empty strips of the pieces `re.split` cuts the
      group into: each such strip is listed, and nothing else is. */
  lemma LanguagesContents(raw: string)
    ensures forall p | p in SplitLanguages(raw) && Strip(p) != [] :: Strip(p) in Languages(raw)
    ensures forall q | q in Languages(raw) :: exists p | p in SplitLanguages(raw) :: q == Strip(p)
  {
    StripNonEmptyContents(SplitLanguages(raw));
  }

  // ---------------------------------------------------------------------------------
  // Lists of words

  /** A non-empty string with no comma and no whitespace. */
  predicate Word(w: string)
  {
    |w| > 0 && forall k | 0 <= k < |w| :: w[k] != ',' && !IsSpace(w[k])
  }

  /** No separator starts inside a word. */
  lemma WordNoSeparator(s: string, i: nat, w: string)
    requires i + |w| <= |s| && s[i..i + |w|] == w && Word(w)
    ensures NoMatchIn(Separators(s), i, i + |w|)
  {
    forall k | i <= k < i + |w| ensures Separators(s)[k] == 0 {
      assert s[k] == s[i..i + |w|][k - i] == w[k - i];
      NoSeparatorAt(s, k);
    }
  }

  /** Words are their own strips, and none is dropped. */
  lemma {:induction false} StripWords(ws: seq<string>)
    requires forall k | 0 <= k < |ws| :: Word(ws[k])
    ensures StripNonEmpty(ws) == ws
    decreases |ws|
  {
    if ws != [] {
      StripUnchanged(ws[0]);
      StripWords(ws[1..]);
      assert ws == [ws[0]] + ws[1..];
    }
  }

  /** A single word is one language. */
  lemma LanguagesOneWord(raw: string)
    requires Word(raw)
    ensures Languages(raw) == [raw]
  {
    assert raw[0..|raw|] == raw;
    WordNoSeparator(raw, 0, raw);
    SeparatorsIsTable(raw);
    assert SplitsAs(raw, Separators(raw), 0, [raw]);
    SplitsUnique(raw, Separators(raw), 0, SplitLanguages(raw), [raw]);
    StripWords([raw]);
  }

  lemma LanguagesExampleGerman()
    ensures Languages("German") == ["German"]
  {
    LanguagesOneWord("German");
  }

  /** Two words joined by ` and ` are two languages. */
  lemma LanguagesAnd(a: string, b: string)
    requires Word(a) && Word(b)
    ensures Languages(a + " and " + b) == [a, b]
  {
    var s := a + " and " + b;
    assert s[|a|..|a| + 5] == " and ";
    assert s[|a| + 5] == b[0];
    AndSeparator(s, |a|);
    SplitTwo(a, " and ", b);
    StripWords([a, b]);
  }

  /** Two words joined by `, ` are two languages. */
  lemma LanguagesComma(a: string, b: string)
    requires Word(a) && Word(b)
    ensures Languages(a + ", " + b) == [a, b]
  {
    var s := a + ", " + b;
    assert s[|a|..|a| + 2] == ", ";
    assert s[|a| + 2] == b[0];
    CommaSeparator(s, |a|);
    SplitTwo(a, ", ", b);
    StripWords([a, b]);
  }

  /** A word, a separator and a word split into the two words. */
  lemma SplitTwo(a: string, sep: string, b: string)
    requires Word(a) && Word(b) && 0 < |sep|
    requires SeparatorAt(a + sep + b, |a|) == |sep|
    ensures SplitLanguages(a + sep + b) == [a, b]
  {
    var s := a + sep + b;
    var j := |a| + |sep|;
    var m := Separators(s);
    SeparatorsIsTable(s);
    assert s[0..|a|] == a;
    assert s[j..j + |b|] == b && s[j..] == b;
    WordNoSeparator(s, 0, a);
    WordNoSeparator(s, j, b);
    assert m[|a|] == |sep|;
    TwoPieces(s, m, |a|, j);
    SplitsUnique(s, m, 0, SplitLanguages(s), [s[0..|a|], s[j..]]);
  }

  /** A text with one match, at `i` and ending at `j`, is cut into the two pieces around
      it. */
  lemma TwoPieces(s: string, m: seq<nat>, i: nat, j: nat)
    requires IsTable(s, m) && i < j <= |s| && m[i] == j - i
    requires NoMatchIn(m, 0, i) && NoMatchIn(m, j, |s|)
    ensures SplitsAs(s, m, 0, [s[0..i], s[j..]])
  {
    LastPiece(s, m, j);
    SplitsThenRest(s, m, 0, i, [s[j..]]);
    assert [s[0..i]] + [s[j..]] == [s[0..i], s[j..]];
  }

  /** `, ` followed by a non-space is a separator of length two. */
  lemma CommaSeparator(s: string, n: nat)
    requires n + 2 < |s| && s[n..n + 2] == ", " && !IsSpace(s[n + 2])
    ensures SeparatorAt(s, n) == 2
  {
    assert s[n] == s[n..n + 2][0] == ',';
    assert s[n + 1] == s[n..n + 2][1] == ' ';
    assert IsSpace(' ');
    assert SpaceRun(s, n + 2) == 0;
    assert SpaceRun(s, n + 1) == 1;
  }

  /** ` and ` followed by a non-space is a separator of length five. */
  lemma AndSeparator(s: string, n: nat)
    requires n + 5 < |s| && s[n..n + 5] == " and " && !IsSpace(s[n + 5])
    ensures SeparatorAt(s, n) == 5
  {
    assert s[n] == s[n..n + 5][0] == ' ';
    assert s[n + 1] == s[n..n + 5][1] == 'a';
    assert s[n + 2] == s[n..n + 5][2] == 'n';
    assert s[n + 3] == s[n..n + 5][3] == 'd';
    assert s[n + 4] == s[n..n + 5][4] == ' ';
    assert !IsSpace('a') && IsSpace(' ');
    assert SpaceRun(s, n + 1) == 0;
    assert SpaceRun(s, n) == 1;
    assert AndAt(s, n + 1);
    assert SpaceRun(s, n + 5) == 0;
    assert SpaceRun(s, n + 4) == 1;
  }

  /** `English and French` is two languages. */
  lemma LanguagesExampleAnd()
    ensures Languages("English" + " and " + "French") == ["English", "French"]
  {
    assert Word("English") by {
      assert !IsSpace('E') && !IsSpace('n') && !IsSpace('g') && !IsSpace('l') && !IsSpace('i') &&
        !IsSpace('s') && !IsSpace('h');
    }
    assert Word("French") by {
      assert !IsSpace('F') && !IsSpace('r') && !IsSpace('e') && !IsSpace('n') && !IsSpace('c') &&
        !IsSpace('h');
    }
    LanguagesAnd("English", "French");
  }
}
