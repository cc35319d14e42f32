/** The subject resolvers of a10.py: fetch the infobox text of a page, clean it, search
    it for one field and post-process the captured group. */
module Resolvers {
  import opened Results
  import opened StrOps
  import opened TextNormalizer
  import opened FieldExtractor
  import opened LanguageList

  /** The collaborators the resolvers call into. `fetch(name)` stands for
      `get_first_infobox_text(get_page_html(name))`: the infobox text of the first
      search hit, or a failure carrying the text of the exception raised on the way
      (no search hit, no infobox, a network error). `search` is the regex search. */
  datatype Env = Env(fetch: string -> Result<string>, search: Searcher)

  const RetrievePrefix: string := "Could not retrieve page or infobox for "

  /** The message `get_country_*` raise when fetching fails: it starts with the fixed
      prefix and contains the country name and the original error text after it. */
  function RetrieveFailure(name: string, e: string): (m: string)
    ensures RetrievePrefix <= m
    ensures IsInfix(name, m)
    ensures IsInfix(e, m)
  {
    var m := RetrievePrefix + name + ": " + e;
    assert m == RetrievePrefix + (name + ": " + e);
    InfixExtendLeft(name, RetrievePrefix, name + ": " + e);
    assert m == (RetrievePrefix + name + ": ") + e;
    InfixExtendLeft(e, RetrievePrefix + name + ": ", e);
    m
  }

  /** A cleaned infobox, where a fetch failure passes through unchanged (the
      unguarded `clean_text(get_first_infobox_text(get_page_html(name)))` of
      `get_polar_radius` and `get_birth_date`). */
  function CleanInfobox(env: Env, name: string): (r: Result<string>)
    ensures env.fetch(name).Fail? ==> r == env.fetch(name)
    ensures env.fetch(name).Ok? ==> r == Ok(CleanText(env.fetch(name).value))
  {
    env.fetch(name).Map(CleanText)
  }

  /** The same, inside the `try` of the three country resolvers: a fetch failure is
      turned into a message that names the country. */
  function CountryInfobox(env: Env, name: string): (r: Result<string>)
    ensures r.Ok? <==> env.fetch(name).Ok?
    ensures r.Ok? ==> r.value == CleanText(env.fetch(name).value)
    ensures r.Fail? ==> r.msg == RetrieveFailure(name, env.fetch(name).msg)
  {
    match env.fetch(name)
    case Ok(text) => Ok(CleanText(text))
    case Fail(e) => Fail(RetrieveFailure(name, e))
  }

  /** The shared country pipeline: infobox, clean, search for one named group. */
  function CountryField(env: Env, name: string, pattern: string, errorText: string): (r: Result<string>)
    ensures r.Ok? <==> env.fetch(name).Ok? && env.search(pattern, CleanText(env.fetch(name).value)).Some?
    ensures r.Ok? ==> r.value == env.search(pattern, CleanText(env.fetch(name).value)).value
    ensures env.fetch(name).Fail? ==> r.Fail? && r.msg == RetrieveFailure(name, env.fetch(name).msg)
    ensures env.fetch(name).Ok? && r.Fail? ==> r.msg == errorText
  {
    match CountryInfobox(env, name)
    case Fail(e) => Fail(e)
    case Ok(text) => GetMatch(env.search, text, pattern, errorText)
  }

  /** `get_country_capital`: succeeds exactly when the page is fetched and the pattern
      matches; the capital is the stripped group, so a non-empty capital has no
      surrounding whitespace; a failure is the fetch message naming the country or the
      capital's own "not found" text. */
  function CountryCapital(env: Env, name: string): (r: Result<string>)
    ensures var doc := env.fetch(name);
      (r.Ok? <==> doc.Ok? && env.search(CapitalPattern, CleanText(doc.value)).Some?) &&
      (r.Ok? ==> r.value == Strip(env.search(CapitalPattern, CleanText(doc.value)).value)) &&
      (r.Ok? && |r.value| > 0 ==> !IsSpace(r.value[0]) && !IsSpace(r.value[|r.value| - 1])) &&
      (doc.Fail? ==> r.Fail? && IsInfix(name, r.msg) && IsInfix(doc.msg, r.msg)) &&
      (doc.Ok? && r.Fail? ==> r.msg == NoCapitalText)
  {
    CountryField(env, name, CapitalPattern, NoCapitalText).Map(Strip)
  }

  /** `get_country_population`: succeeds exactly when the page is fetched and the
      pattern matches; the population is the group without its commas, and when the
      group has the shape the pattern captures it is all digits and at least four long;
      failures as for the capital. */
  function CountryPopulation(env: Env, name: string): (r: Result<string>)
    ensures var doc := env.fetch(name);
      (r.Ok? <==> doc.Ok? && env.search(PopulationPattern, CleanText(doc.value)).Some?) &&
      (r.Ok? ==> r.value == RemoveChar(env.search(PopulationPattern, CleanText(doc.value)).value, ',')) &&
      (r.Ok? && GroupedNumber(env.search(PopulationPattern, CleanText(doc.value)).value) ==>
         AllDigits(r.value) && |r.value| >= 4) &&
      (doc.Fail? ==> r.Fail? && IsInfix(name, r.msg) && IsInfix(doc.msg, r.msg)) &&
      (doc.Ok? && r.Fail? ==> r.msg == NoPopulationText)
  {
    var r := CountryField(env, name, PopulationPattern, NoPopulationText).Map(Population);
    if r.Ok? && GroupedNumber(env.search(PopulationPattern, CleanText(env.fetch(name).value)).value) then
      PopulationIsDigits(env.search(PopulationPattern, CleanText(env.fetch(name).value)).value);
      r
    else r
  }

  /** `get_country_languages`: succeeds exactly when the page is fetched and the
      pattern matches; the list is `Languages` of the group, so every item is
      non-empty, has no surrounding whitespace and no comma, and the items appear in the
      group in the listed order; failures as for the capital. */
  function CountryLanguages(env: Env, name: string): (r: Result<seq<string>>)
    ensures var doc := env.fetch(name);
      (r.Ok? <==> doc.Ok? && env.search(LanguagesPattern, CleanText(doc.value)).Some?) &&
      (r.Ok? ==> r.value == Languages(env.search(LanguagesPattern, CleanText(doc.value)).value)) &&
      (r.Ok? ==> forall q | q in r.value :: |q| > 0 && !IsSpace(q[0]) && !IsSpace(q[|q| - 1]) && ',' !in q) &&
      (r.Ok? ==> InOrderFrom(r.value, env.search(LanguagesPattern, CleanText(doc.value)).value, 0)) &&
      (doc.Fail? ==> r.Fail? && IsInfix(name, r.msg) && IsInfix(doc.msg, r.msg)) &&
      (doc.Ok? && r.Fail? ==> r.msg == NoLanguagesText)
  {
    var r := CountryField(env, name, LanguagesPattern, NoLanguagesText).Map(Languages);
    if r.Ok? then
      LanguagesShape(env.search(LanguagesPattern, CleanText(env.fetch(name).value)).value);
      r
    else r
  }

  /** The three country resolvers when the page is fetched and the pattern matches. */
  lemma CapitalFound(env: Env, name: string, doc: string, group: string)
    requires env.fetch(name) == Ok(doc) && env.search(CapitalPattern, CleanText(doc)) == Some(group)
    ensures CountryCapital(env, name) == Ok(Strip(group))
  {
  }

  lemma PopulationFound(env: Env, name: string, doc: string, group: string)
    requires env.fetch(name) == Ok(doc) && env.search(PopulationPattern, CleanText(doc)) == Some(group)
    ensures CountryPopulation(env, name) == Ok(Population(group))
  {
  }

  lemma LanguagesFound(env: Env, name: string, doc: string, group: string)
    requires env.fetch(name) == Ok(doc) && env.search(LanguagesPattern, CleanText(doc)) == Some(group)
    ensures CountryLanguages(env, name) == Ok(Languages(group))
  {
  }

  /** `get_polar_radius`: no conversion of a fetch failure. */
  function PolarRadius(env: Env, name: string): (r: Result<string>)
    ensures env.fetch(name).Fail? ==> r == env.fetch(name)
  {
    match CleanInfobox(env, name)
    case Fail(e) => Fail(e)
    case Ok(text) => GetMatch(env.search, text, PolarRadiusPattern, NoPolarRadiusText)
  }

  /** `get_birth_date`: no conversion of a fetch failure either. */
  function BirthDate(env: Env, name: string): (r: Result<string>)
    ensures env.fetch(name).Fail? ==> r == env.fetch(name)
  {
    match CleanInfobox(env, name)
    case Fail(e) => Fail(e)
    case Ok(text) => GetMatch(env.search, text, BirthPattern, NoBirthText)
  }
}
