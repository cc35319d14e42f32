/** The actions of the rule table (a10.py `birth_date` … `bye_action`): each takes the
    words a template matched and produces the answer lines. */
module Handlers {
  import opened Results
  import opened StrOps
  import Resolvers
  import FieldExtractor
  import LanguageList
  import TextNormalizer

  /** What an action does: answer with some lines, end the session (the
      `KeyboardInterrupt` raised by `bye_action`), or raise an exception that nothing in
      the core catches. */
  datatype Outcome = Answers(lines: seq<string>) | Terminate | Crash(reason: string)

  /** The message of the `IndexError` raised by `matches[0]` on an empty list. */
  const IndexErrorText: string := "list index out of range"

  const CapitalFailurePrefix: string := "Could not find capital: "
  const PopulationFailurePrefix: string := "Could not find population: "
  const LanguagesFailurePrefix: string := "Could not find language info: "

  /** `birth_date`: `[get_birth_date(" ".join(matches))]`; a failure escapes. */
  function BirthDateAction(env: Resolvers.Env, matches: seq<string>): (out: Outcome)
    ensures var r := Resolvers.BirthDate(env, Join(matches, " "));
      !out.Terminate? &&
      (out.Answers? <==> r.Ok?) &&
      (out.Answers? ==> out.lines == [r.value]) &&
      (out.Crash? ==> out.reason == r.msg)
  {
    match Resolvers.BirthDate(env, Join(matches, " "))
    case Ok(b) => Answers([b])
    case Fail(e) => Crash(e)
  }

  /** `polar_radius`: `[get_polar_radius(matches[0])]`; indexing an empty list and a
      failure of the resolver both escape. */
  function PolarRadiusAction(env: Resolvers.Env, matches: seq<string>): (out: Outcome)
    ensures !out.Terminate?
    ensures |matches| == 0 ==> out == Crash(IndexErrorText)
    ensures |matches| > 0 ==> var r := Resolvers.PolarRadius(env, matches[0]);
      (out.Answers? <==> r.Ok?) &&
      (out.Answers? ==> out.lines == [r.value]) &&
      (out.Crash? ==> out.reason == r.msg)
  {
    if |matches| == 0 then Crash(IndexErrorText)
    else
      match Resolvers.PolarRadius(env, matches[0])
      case Ok(radius) => Answers([radius])
      case Fail(e) => Crash(e)
  }

  /** `country_capital`: exactly one line, the answer sentence or "Could not find
      capital: " and the reason. Only `matches[0]` on an empty list (reached on the
      success path) escapes. */
  function CountryCapitalAction(env: Resolvers.Env, matches: seq<string>): (out: Outcome)
    ensures var r := Resolvers.CountryCapital(env, Join(matches, " "));
      !out.Terminate? &&
      (out.Crash? <==> r.Ok? && |matches| == 0) &&
      (out.Crash? ==> out.reason == IndexErrorText) &&
      (out.Answers? ==> |out.lines| == 1) &&
      (out.Answers? && r.Ok? ==> out.lines[0] == "The capital of " + matches[0] + " is " + r.value) &&
      (r.Fail? ==> out.Answers? && out.lines[0] == CapitalFailurePrefix + r.msg)
  {
    match Resolvers.CountryCapital(env, Join(matches, " "))
    case Ok(capital) =>
      if |matches| == 0 then Crash(IndexErrorText)
      else Answers(["The capital of " + matches[0] + " is " + capital])
    case Fail(e) => Answers([CapitalFailurePrefix + e])
  }

  /** `country_population`: one line, as for the capital. */
  function CountryPopulationAction(env: Resolvers.Env, matches: seq<string>): (out: Outcome)
    ensures var r := Resolvers.CountryPopulation(env, Join(matches, " "));
      !out.Terminate? &&
      (out.Crash? <==> r.Ok? && |matches| == 0) &&
      (out.Crash? ==> out.reason == IndexErrorText) &&
      (out.Answers? ==> |out.lines| == 1) &&
      (out.Answers? && r.Ok? ==> out.lines[0] == "The population of " + matches[0] + " is " + r.value) &&
      (r.Fail? ==> out.Answers? && out.lines[0] == PopulationFailurePrefix + r.msg)
  {
    match Resolvers.CountryPopulation(env, Join(matches, " "))
    case Ok(pop) =>
      if |matches| == 0 then Crash(IndexErrorText)
      else Answers(["The population of " + matches[0] + " is " + pop])
    case Fail(e) => Answers([PopulationFailurePrefix + e])
  }

  /** `country_languages`: one line listing the languages joined by ", ", or the
      failure line. */
  function CountryLanguagesAction(env: Resolvers.Env, matches: seq<string>): (out: Outcome)
    ensures var r := Resolvers.CountryLanguages(env, Join(matches, " "));
      !out.Terminate? &&
      (out.Crash? <==> r.Ok? && |matches| == 0) &&
      (out.Crash? ==> out.reason == IndexErrorText) &&
      (out.Answers? ==> |out.lines| == 1) &&
      (out.Answers? && r.Ok? ==>
         out.lines[0] == "The official language(s) of " + matches[0] + ": " + Join(r.value, ", ")) &&
      (r.Fail? ==> out.Answers? && out.lines[0] == LanguagesFailurePrefix + r.msg)
  {
    match Resolvers.CountryLanguages(env, Join(matches, " "))
    case Ok(langs) =>
      if |matches| == 0 then Crash(IndexErrorText)
      else Answers(["The official language(s) of " + matches[0] + ": " + Join(langs, ", ")])
    case Fail(e) => Answers([LanguagesFailurePrefix + e])
  }

  /** `bye_action`: always ends the session. */
  function ByeAction(matches: seq<string>): (out: Outcome)
    ensures out == Terminate
  {
    Terminate
  }

  /** When the page of the matched country (the matched words joined by spaces) cannot
      be fetched, each country action answers one "Could not find" line that names the
      country, whatever the number of matched words. */
  lemma CountryActionsNameCountryOnFetchFailure(env: Resolvers.Env, matches: seq<string>)
    requires env.fetch(Join(matches, " ")).Fail?
    ensures var out := CountryCapitalAction(env, matches);
      out.Answers? && |out.lines| == 1 && IsInfix(Join(matches, " "), out.lines[0])
    ensures var out := CountryPopulationAction(env, matches);
      out.Answers? && |out.lines| == 1 && IsInfix(Join(matches, " "), out.lines[0])
    ensures var out := CountryLanguagesAction(env, matches);
      out.Answers? && |out.lines| == 1 && IsInfix(Join(matches, " "), out.lines[0])
  {
    var country := Join(matches, " ");
    var m := Resolvers.RetrieveFailure(country, env.fetch(country).msg);
    InfixExtendLeft(country, CapitalFailurePrefix, m);
    InfixExtendLeft(country, PopulationFailurePrefix, m);
    InfixExtendLeft(country, LanguagesFailurePrefix, m);
  }

  /** The success line of `country_capital`: the lookup uses all matched words, the
      sentence only the first. */
  lemma CapitalAnswer(env: Resolvers.Env, matches: seq<string>, doc: string, group: string)
    requires |matches| > 0
    requires env.fetch(Join(matches, " ")) == Ok(doc)
    requires env.search(FieldExtractor.CapitalPattern, TextNormalizer.CleanText(doc)) == Some(group)
    ensures CountryCapitalAction(env, matches) ==
      Answers(["The capital of " + matches[0] + " is " + Strip(group)])
  {
    Resolvers.CapitalFound(env, Join(matches, " "), doc, group);
  }

  /** The success line of `country_population`. */
  lemma PopulationAnswer(env: Resolvers.Env, matches: seq<string>, doc: string, group: string)
    requires |matches| > 0
    requires env.fetch(Join(matches, " ")) == Ok(doc)
    requires env.search(FieldExtractor.PopulationPattern, TextNormalizer.CleanText(doc)) == Some(group)
    ensures CountryPopulationAction(env, matches) ==
      Answers(["The population of " + matches[0] + " is " + FieldExtractor.Population(group)])
  {
    Resolvers.PopulationFound(env, Join(matches, " "), doc, group);
  }

  /** The success line of `country_languages`. */
  lemma LanguagesAnswer(env: Resolvers.Env, matches: seq<string>, doc: string, group: string)
    requires |matches| > 0
    requires env.fetch(Join(matches, " ")) == Ok(doc)
    requires env.search(FieldExtractor.LanguagesPattern, TextNormalizer.CleanText(doc)) == Some(group)
    ensures CountryLanguagesAction(env, matches) ==
      Answers(["The official language(s) of " + matches[0] + ": " + Join(LanguageList.Languages(group), ", ")])
  {
    Resolvers.LanguagesFound(env, Join(matches, " "), doc, group);
  }
}
