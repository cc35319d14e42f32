/** `search_pa_list` over the rule table `pa_list`: the first rule whose template
    matches decides the answer. */
module Dispatcher {
  import opened Results
  import opened StrOps
  import opened FieldExtractor
  import opened LanguageList
  import opened Handlers
  import Resolvers
  import TextNormalizer

  /** The wildcard matcher `match(pattern, source)` imported by a10.py: the words bound
      to the pattern's wildcards, or nothing when the pattern does not match. Its
      definition is not part of this model, so it is a parameter. */
  type Matcher = (seq<string>, seq<string>) -> Option<seq<string>>

  /** The actions `pa_list` names. */
  datatype Action = BirthDate | PolarRadius | CountryCapital | CountryPopulation | CountryLanguages | Bye

  /** Calling the action `a` on the bound words. */
  function Perform(env: Resolvers.Env, a: Action, matches: seq<string>): (out: Outcome)
    ensures a == Bye <==> out == Terminate
  {
    match a
    case BirthDate => BirthDateAction(env, matches)
    case PolarRadius => PolarRadiusAction(env, matches)
    case CountryCapital => CountryCapitalAction(env, matches)
    case CountryPopulation => CountryPopulationAction(env, matches)
    case CountryLanguages => CountryLanguagesAction(env, matches)
    case Bye => ByeAction(matches)
  }

  /** One entry of `pa_list`: a template (already split into words) and its action. */
  datatype Rule = Rule(pattern: seq<string>, action: Action)

  const NoAnswers: string := "No answers"
  const NotUnderstood: string := "I don't understand"

  /** `pa_list`, in its order. */
  const PaList: seq<Rule> :=
    [ Rule(["when", "was", "%", "born"], BirthDate),
      Rule(["what", "is", "%'s", "birth", "date"], BirthDate),
      Rule(["what", "is", "the", "polar", "radius", "of", "%"], PolarRadius),
      Rule(["how", "big", "is", "%"], PolarRadius),
      Rule(["what", "is", "the", "capital", "of", "%"], CountryCapital),
      Rule(["how", "many", "people", "live", "in", "%"], CountryPopulation),
      Rule(["what", "language", "is", "spoken", "in", "%"], CountryLanguages),
      Rule(["what", "are", "the", "official", "languages", "of", "%"], CountryLanguages),
      Rule(["bye"], Bye) ]

  /** `pa_list` has nine rules; only the last, `bye`, ends the session, and the country
      actions are rules 4 to 7. */
  lemma PaListShape()
    ensures |PaList| == 9
    ensures PaList[8].action == Bye && forall k | 0 <= k < 8 :: PaList[k].action != Bye
    ensures PaList[4].action == CountryCapital && PaList[5].action == CountryPopulation
    ensures PaList[6].action == CountryLanguages && PaList[7].action == CountryLanguages
  {
  }

  /** Whether rule `k` of `table` matches `src`. */
  predicate Matches(matcher: Matcher, table: seq<Rule>, src: seq<string>, k: nat)
    requires k < |table|
  {
    matcher(table[k].pattern, src).Some?
  }

  /** The index of the first rule at or after `i` whose template matches `src`. */
  function FirstMatchFrom(matcher: Matcher, table: seq<Rule>, src: seq<string>, i: nat): (r: Option<nat>)
    requires i <= |table|
    ensures r.Some? ==> i <= r.value < |table| && Matches(matcher, table, src, r.value)
    ensures r.Some? ==> forall k | i <= k < r.value :: !Matches(matcher, table, src, k)
    ensures r.None? ==> forall k | i <= k < |table| :: !Matches(matcher, table, src, k)
    decreases |table| - i
  {
    if i == |table| then None
    else if Matches(matcher, table, src, i) then Some(i)
    else FirstMatchFrom(matcher, table, src, i + 1)
  }

  /** `answer if answer else ["No answers"]`. */
  function NonEmpty(answer: Outcome): (r: Outcome)
    ensures r.Answers? ==> |r.lines| > 0
    ensures answer == Answers([]) ==> r == Answers([NoAnswers])
    ensures answer != Answers([]) ==> r == answer
  {
    if answer == Answers([]) then Answers([NoAnswers]) else answer
  }

  /** What `search_pa_list(src)` returns: the first matching rule's action applied to
      the bound words, an empty answer replaced by "No answers"; "I don't understand"
      when no rule matches. An answer always has at least one line, and the session
      ends exactly when the first matching rule is `bye`. */
  function Dispatch(matcher: Matcher, env: Resolvers.Env, table: seq<Rule>, src: seq<string>): (out: Outcome)
    ensures out.Answers? ==> |out.lines| > 0
    ensures out == Terminate <==>
      var f := FirstMatchFrom(matcher, table, src, 0); f.Some? && table[f.value].action == Bye
  {
    match FirstMatchFrom(matcher, table, src, 0)
    case None => Answers([NotUnderstood])
    case Some(k) => NonEmpty(Perform(env, table[k].action, matcher(table[k].pattern, src).value))
  }

  /** `search_pa_list`: a linear scan of the table that stops at the first match. */
  method SearchPaList(matcher: Matcher, env: Resolvers.Env, table: seq<Rule>, src: seq<string>) returns (out: Outcome)
    ensures out == Dispatch(matcher, env, table, src)
  {
    var i := 0;
    while i < |table|
      invariant 0 <= i <= |table|
      invariant forall k | 0 <= k < i :: !Matches(matcher, table, src, k)
      invariant FirstMatchFrom(matcher, table, src, i) == FirstMatchFrom(matcher, table, src, 0)
    {
      var mat := matcher(table[i].pattern, src);
      if mat.Some? {
        var answer := Perform(env, table[i].action, mat.value);
        out := if answer == Answers([]) then Answers([NoAnswers]) else answer;
        return;
      }
      i := i + 1;
    }
    out := Answers([NotUnderstood]);
  }

  /** Rules after the first matching one are never tried: replacing any of them
      (template or action) does not change the answer. */
  lemma LaterRulesIgnored(matcher: Matcher, env: Resolvers.Env, table: seq<Rule>, other: seq<Rule>, src: seq<string>, k: nat)
    requires k < |table| && Matches(matcher, table, src, k)
    requires k < |other| && other[..k + 1] == table[..k + 1]
    ensures Dispatch(matcher, env, other, src) == Dispatch(matcher, env, table, src)
  {
    var f := FirstMatchFrom(matcher, table, src, 0);
    assert f.Some? && f.value <= k;
    assert other[..k + 1][f.value] == table[..k + 1][f.value];
    forall j | 0 <= j < f.value ensures !Matches(matcher, other, src, j) {
      assert other[..k + 1][j] == table[..k + 1][j];
      assert other[j] == table[j];
      assert !Matches(matcher, table, src, j);
    }
    assert other[f.value].pattern == table[f.value].pattern;
    assert Matches(matcher, other, src, f.value);
    assert FirstMatchFrom(matcher, other, src, 0) == f;
  }

  // ---------------------------------------------------------------------------------
  // Scenarios on `pa_list`

  /** `bye` ends the session when no earlier template matches it. */
  lemma ByeTerminates(env: Resolvers.Env, matcher: Matcher)
    requires matcher(["bye"], ["bye"]).Some?
    requires forall k | 0 <= k < 8 :: matcher(PaList[k].pattern, ["bye"]).None?
    ensures Dispatch(matcher, env, PaList, ["bye"]) == Terminate
  {
    var table := PaList;
    assert Matches(matcher, table, ["bye"], 8);
  }

  /** When no template matches, the answer is "I don't understand". */
  lemma DispatchNoMatch(matcher: Matcher, env: Resolvers.Env, table: seq<Rule>, src: seq<string>)
    requires forall k | 0 <= k < |table| :: matcher(table[k].pattern, src).None?
    ensures Dispatch(matcher, env, table, src) == Answers([NotUnderstood])
  {
    assert forall k | 0 <= k < |table| :: !Matches(matcher, table, src, k);
  }

  /** The rule picked for `src` is the `k`th one when it matches and no earlier one does. */
  lemma DispatchPicks(matcher: Matcher, env: Resolvers.Env, table: seq<Rule>, src: seq<string>, k: nat, bound: seq<string>)
    requires k < |table| && matcher(table[k].pattern, src) == Some(bound)
    requires forall j | 0 <= j < k :: matcher(table[j].pattern, src).None?
    ensures Dispatch(matcher, env, table, src) == NonEmpty(Perform(env, table[k].action, bound))
  {
    assert Matches(matcher, table, src, k);
    assert forall j | 0 <= j < k :: !Matches(matcher, table, src, j);
    assert FirstMatchFrom(matcher, table, src, 0) == Some(k);
  }

  /** Every action answers exactly one line when it answers at all, so none answers
      with no lines. */
  lemma ActionsAnswerOneLine(env: Resolvers.Env, a: Action, matches: seq<string>)
    ensures Perform(env, a, matches).Answers? ==> |Perform(env, a, matches).lines| == 1
  {
    match a
    case BirthDate =>
    case PolarRadius =>
    case CountryCapital =>
    case CountryPopulation =>
    case CountryLanguages =>
    case Bye =>
  }

  /** So the "No answers" fallback is never taken: the answer is the picked action's
      outcome as it is. */
  lemma DispatchAnswersAsAction(matcher: Matcher, env: Resolvers.Env, table: seq<Rule>, src: seq<string>, k: nat, bound: seq<string>)
    requires k < |table| && matcher(table[k].pattern, src) == Some(bound)
    requires forall j | 0 <= j < k :: matcher(table[j].pattern, src).None?
    ensures Dispatch(matcher, env, table, src) == Perform(env, table[k].action, bound)
  {
    DispatchPicks(matcher, env, table, src, k, bound);
    ActionsAnswerOneLine(env, table[k].action, bound);
  }

  /** A question that rule `k` of `pa_list` matches, and no earlier rule, is answered
      by rule `k`'s action on the bound words. */
  lemma PicksRule(env: Resolvers.Env, matcher: Matcher, q: seq<string>, k: nat, bound: seq<string>)
    requires k < |PaList| && matcher(PaList[k].pattern, q) == Some(bound)
    requires forall j | 0 <= j < k :: matcher(PaList[j].pattern, q).None?
    ensures Dispatch(matcher, env, PaList, q) == NonEmpty(Perform(env, PaList[k].action, bound))
  {
    DispatchPicks(matcher, env, PaList, q, k, bound);
  }

  /** A question that only the capital template (and no earlier one) matches is
      answered by `country_capital` for the bound word. */
  lemma CapitalRule(env: Resolvers.Env, matcher: Matcher, q: seq<string>, doc: string,
      country: string, group: string)
    requires matcher(["what", "is", "the", "capital", "of", "%"], q) == Some([country])
    requires forall k | 0 <= k < 4 :: matcher(PaList[k].pattern, q).None?
    requires env.fetch(country) == Ok(doc)
    requires env.search(CapitalPattern, TextNormalizer.CleanText(doc)) == Some(group)
    ensures Dispatch(matcher, env, PaList, q) ==
      Answers(["The capital of " + country + " is " + Strip(group)])
  {
    PicksRule(env, matcher, q, 4, [country]);
    PaListShape();
    CapitalLine(env, country, doc, group);
  }

  // The answer of each country rule for one bound word.

  lemma CapitalLine(env: Resolvers.Env, country: string, doc: string, group: string)
    requires env.fetch(country) == Ok(doc)
    requires env.search(CapitalPattern, TextNormalizer.CleanText(doc)) == Some(group)
    ensures NonEmpty(Perform(env, CountryCapital, [country])) == Answers(["The capital of " + country + " is " + Strip(group)])
  {
    assert Join([country], " ") == country;
    CapitalAnswer(env, [country], doc, group);
  }

  lemma PopulationLine(env: Resolvers.Env, country: string, doc: string, group: string)
    requires env.fetch(country) == Ok(doc)
    requires env.search(PopulationPattern, TextNormalizer.CleanText(doc)) == Some(group)
    ensures NonEmpty(Perform(env, CountryPopulation, [country])) == Answers(["The population of " + country + " is " + Population(group)])
  {
    assert Join([country], " ") == country;
    PopulationAnswer(env, [country], doc, group);
  }

  lemma LanguagesLine(env: Resolvers.Env, country: string, doc: string, group: string)
    requires env.fetch(country) == Ok(doc)
    requires env.search(LanguagesPattern, TextNormalizer.CleanText(doc)) == Some(group)
    ensures NonEmpty(Perform(env, CountryLanguages, [country])) == Answers(["The official language(s) of " + country + ": " + Join(Languages(group), ", ")])
  {
    PerformLanguages(env, [country]);
    assert Join([country], " ") == country;
    LanguagesAnswer(env, [country], doc, group);
  }

  /** Kept apart from `LanguagesLine`, whose language terms make unfolding `Perform`
      expensive there. */
  lemma PerformLanguages(env: Resolvers.Env, matches: seq<string>)
    ensures Perform(env, CountryLanguages, matches) == CountryLanguagesAction(env, matches)
  {
  }

  /** "what is the capital of tanzania", with an infobox whose capital group is
      "Dodoma". */
  lemma CapitalScenario(env: Resolvers.Env, matcher: Matcher, q: seq<string>, doc: string)
    requires matcher(["what", "is", "the", "capital", "of", "%"], q) == Some(["tanzania"])
    requires forall k | 0 <= k < 4 :: matcher(PaList[k].pattern, q).None?
    requires env.fetch("tanzania") == Ok(doc)
    requires env.search(CapitalPattern, TextNormalizer.CleanText(doc)) == Some("Dodoma")
    ensures Dispatch(matcher, env, PaList, q) == Answers(["The capital of tanzania is Dodoma"])
  {
    CapitalRule(env, matcher, q, doc, "tanzania", "Dodoma");
    CapitalSentence();
  }

  /** A question that only the population template (and no earlier one) matches is
      answered by `country_population` for the bound words. */
  lemma PopulationRule(env: Resolvers.Env, matcher: Matcher, q: seq<string>, doc: string,
      country: string, group: string)
    requires matcher(["how", "many", "people", "live", "in", "%"], q) == Some([country])
    requires forall k | 0 <= k < 5 :: matcher(PaList[k].pattern, q).None?
    requires env.fetch(country) == Ok(doc)
    requires env.search(PopulationPattern, TextNormalizer.CleanText(doc)) == Some(group)
    ensures Dispatch(matcher, env, PaList, q) ==
      Answers(["The population of " + country + " is " + Population(group)])
  {
    PicksRule(env, matcher, q, 5, [country]);
    PaListShape();
    PopulationLine(env, country, doc, group);
  }

  /** A question that only the first language template (and no earlier one) matches is
      answered by `country_languages` for the bound words. */
  lemma LanguagesRule(env: Resolvers.Env, matcher: Matcher, q: seq<string>, doc: string,
      country: string, group: string)
    requires matcher(["what", "language", "is", "spoken", "in", "%"], q) == Some([country])
    requires forall k | 0 <= k < 6 :: matcher(PaList[k].pattern, q).None?
    requires env.fetch(country) == Ok(doc)
    requires env.search(LanguagesPattern, TextNormalizer.CleanText(doc)) == Some(group)
    ensures Dispatch(matcher, env, PaList, q) ==
      Answers(["The official language(s) of " + country + ": " + Join(Languages(group), ", ")])
  {
    PicksRule(env, matcher, q, 6, [country]);
    PaListShape();
    LanguagesLine(env, country, doc, group);
  }

  /** "how many people live in mexico", with a population group "126,014,024". */
  lemma PopulationScenario(env: Resolvers.Env, matcher: Matcher, q: seq<string>, doc: string)
    requires matcher(["how", "many", "people", "live", "in", "%"], q) == Some(["mexico"])
    requires forall k | 0 <= k < 5 :: matcher(PaList[k].pattern, q).None?
    requires env.fetch("mexico") == Ok(doc)
    requires env.search(PopulationPattern, TextNormalizer.CleanText(doc)) == Some("126,014,024")
    ensures Dispatch(matcher, env, PaList, q) == Answers(["The population of mexico is 126014024"])
  {
    PopulationRule(env, matcher, q, doc, "mexico", "126,014,024");
    PopulationExample();
    PopulationSentence();
  }

  /** "what language is spoken in germany", with a language group "German". */
  lemma LanguagesScenario(env: Resolvers.Env, matcher: Matcher, q: seq<string>, doc: string)
    requires matcher(["what", "language", "is", "spoken", "in", "%"], q) == Some(["germany"])
    requires forall k | 0 <= k < 6 :: matcher(PaList[k].pattern, q).None?
    requires env.fetch("germany") == Ok(doc)
    requires env.search(LanguagesPattern, TextNormalizer.CleanText(doc)) == Some("German")
    ensures Dispatch(matcher, env, PaList, q) == Answers(["The official language(s) of germany: German"])
  {
    LanguagesRule(env, matcher, q, doc, "germany", "German");
    LanguagesExampleGerman();
    LanguagesSentence();
  }

  // The answer sentences of the scenarios, kept apart so that the string arithmetic
  // is not done in the scenarios' larger contexts.

  lemma CapitalSentence()
    ensures Strip("Dodoma") == "Dodoma"
    ensures "The capital of " + "tanzania" + " is " + "Dodoma" == "The capital of tanzania is Dodoma"
  {
    StripUnchanged("Dodoma");
  }

  lemma PopulationSentence()
    ensures "The population of " + "mexico" + " is " + "126014024" == "The population of mexico is 126014024"
  {
  }

  lemma LanguagesSentence()
    ensures Join(["German"], ", ") == "German"
    ensures "The official language(s) of " + "germany" + ": " + "German" ==
      "The official language(s) of germany: German"
  {
  }
}
