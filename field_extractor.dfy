/** `get_match` and the post-processing the country resolvers apply to the captured
    group: `.strip()` for the capital, `.replace(",", "")` for the population and the
    split / strip / filter of the language list. */
module FieldExtractor {
  import opened Results
  import opened StrOps

  /** A compiled `re.search` with `re.DOTALL | re.IGNORECASE`, reduced to what the core
      uses of it: the named group of the first match in `text`, or nothing. Python's
      regex engine is not part of this model; the search is a parameter. */
  type Searcher = (string, string) -> Option<string>

  const DefaultErrorText: string := "Page doesn't appear to have the property you're expecting"

  const CapitalPattern: string := @"Capital\s*(?:\[\d+\])?\s*(?P<capital>[A-Za-z\s,\(\)\-]+)"
  const PopulationPattern: string := @"Population(?:\s*\([^)]*\))?\s*(?:\[\d+\])?.*?(?P<population>\d{1,3}(?:,\d{3})+)"
  const LanguagesPattern: string := @"Official languages?\s*(?:\[\d+\])?\s*(?P<languages>[A-Za-z,\s\(\)\-]+)"
  const PolarRadiusPattern: string := @"(?:Polar radius.*?)(?: ?[\d]+ )?(?P<radius>[\d,.]+)(?:.*?)km"
  const BirthPattern: string := @"(?:Born\D*)(?P<birth>\d{4}-\d{2}-\d{2})"

  const NoCapitalText: string := "Page infobox has no capital city information"
  const NoPopulationText: string := "Page infobox has no population information"
  const NoLanguagesText: string := "Page infobox has no official language information"
  const NoPolarRadiusText: string := "Page infobox has no polar radius information"
  const NoBirthText: string := "Page infobox has no birth information (at least none in xxxx-xx-xx format)"

  /** `get_match`: a search that finds nothing becomes a failure carrying exactly
      `errorText` (the `AttributeError` raised there); otherwise the match is returned. */
  function GetMatch(search: Searcher, text: string, pattern: string,
                    errorText: string := DefaultErrorText): (r: Result<string>)
    ensures r.Fail? <==> search(pattern, text).None?
    ensures r.Fail? ==> r.msg == errorText
    ensures r.Ok? ==> r.value == search(pattern, text).value
  {
    match search(pattern, text)
    case None => Fail(errorText)
    case Some(g) => Ok(g)
  }

  // ---------------------------------------------------------------------------------
  // Population: `match.group("population").replace(",", "")`

  predicate IsDigit(c: char)
  {
    '0' <= c <= '9'
  }

  predicate AllDigits(s: string)
  {
    forall i | 0 <= i < |s| :: IsDigit(s[i])
  }

  /** `(?:,\d{3})+`: one or more groups of a comma and three digits. */
  predicate ThousandsGroups(s: string)
    decreases |s|
  {
    |s| >= 4 && s[0] == ',' && IsDigit(s[1]) && IsDigit(s[2]) && IsDigit(s[3]) &&
    (|s| == 4 || ThousandsGroups(s[4..]))
  }

  /** `k` leading digits followed by thousands groups. */
  predicate LeadThenGroups(s: string, k: nat)
  {
    k <= |s| && AllDigits(s[..k]) && ThousandsGroups(s[k..])
  }

  /** The shape of the population group, `\d{1,3}(?:,\d{3})+`. */
  predicate GroupedNumber(s: string)
  {
    LeadThenGroups(s, 1) || LeadThenGroups(s, 2) || LeadThenGroups(s, 3)
  }

  /** What `get_country_population` returns for a captured group. */
  function Population(group: string): (r: string)
    ensures ',' !in r
    ensures |r| == |group| - Count(group, ',')
  {
    RemoveChar(group, ',')
  }

  /** The population keeps every other character of the group in order; by
      `RemoveCharUnique`, it is the only comma-free subsequence of that length. */
  lemma PopulationKeepsOrder(group: string)
    ensures IsSubsequence(Population(group), group)
  {
    RemoveCharSubsequence(group, ',');
  }

  lemma {:induction false} ThousandsGroupsDigits(s: string)
    requires ThousandsGroups(s)
    ensures AllDigits(RemoveChar(s, ',')) && |RemoveChar(s, ',')| >= 3
    decreases |s|
  {
    assert s == s[..4] + s[4..];
    RemoveCharAppend(s[..4], s[4..], ',');
    assert s[..4][1..] == s[1..4];
    AllDigitsRemoveChar(s[1..4]);
    if |s| > 4 {
      ThousandsGroupsDigits(s[4..]);
    } else {
      assert s[4..] == [];
    }
  }

  lemma {:induction false} AllDigitsRemoveChar(s: string)
    requires AllDigits(s)
    ensures RemoveChar(s, ',') == s
  {
    if s != [] {
      AllDigitsRemoveChar(s[1..]);
    }
  }

  /** A group of the shape `\d{1,3}(?:,\d{3})+` loses all its commas and is left as a
      string of at least four digits. */
  lemma PopulationIsDigits(group: string)
    requires GroupedNumber(group)
    ensures AllDigits(Population(group)) && |Population(group)| >= 4
  {
    var k := if LeadThenGroups(group, 1) then 1 else if LeadThenGroups(group, 2) then 2 else 3;
    assert group == group[..k] + group[k..];
    RemoveCharAppend(group[..k], group[k..], ',');
    AllDigitsRemoveChar(group[..k]);
    ThousandsGroupsDigits(group[k..]);
  }

  /** The groups laid end to end. */
  function Concat(groups: seq<string>): string
  {
    if groups == [] then [] else groups[0] + Concat(groups[1..])
  }

  /** Any number of digit groups joined by commas lose exactly the commas: the
      population is the groups laid end to end. */
  lemma {:induction false} PopulationOfGroups(groups: seq<string>)
    requires forall k | 0 <= k < |groups| :: AllDigits(groups[k])
    ensures Population(Join(groups, ",")) == Concat(groups)
    decreases |groups|
  {
    if |groups| == 1 {
      AllDigitsRemoveChar(groups[0]);
      assert Concat(groups) == groups[0] + Concat([]);
    } else if |groups| > 1 {
      var g, rest := groups[0], Join(groups[1..], ",");
      assert Join(groups, ",") == g + ([','] + rest);
      PopulationOfGroups(groups[1..]);
      AllDigitsRemoveChar(g);
      RemoveCharAppend(g, [','] + rest, ',');
      assert ([','] + rest)[1..] == rest;
    }
  }

  /** The population of the end-to-end example: `126,014,024` becomes `126014024`. */
  lemma PopulationExample()
    ensures Population("126,014,024") == "126014024"
  {
    var groups := ["126", "014", "024"];
    assert Join(groups, ",") == "126,014,024" by {
      assert Join(groups[2..], ",") == "024";
      assert Join(groups[1..], ",") == "014" + "," + "024";
    }
    assert Concat(groups) == "126014024" by {
      assert Concat(groups[2..]) == "024" + Concat([]);
      assert Concat(groups[1..]) == "014" + "024";
    }
    PopulationOfGroups(groups);
  }
}
