# a10 question-answering core, in Dafny

`a10.py` is a small console chatbot. It answers questions such as "what is the capital of
tanzania" from the infobox of a Wikipedia page. A question, already split into words, is
tried against the templates of the ordered rule table `pa_list`. The first template that
matches decides the action. The action fetches the infobox text of the page for the
matched words and cleans it with `clean_text`. It then searches the text for one field
with a regular expression, post-processes the captured group, and builds an answer line.

This project models that core:

- the text normaliser `clean_text` (module `TextNormalizer`);
- `get_match` and the post-processing of captured groups: the strip of the capital and
  the comma removal of the population (module `FieldExtractor`, with the string
  operations in `StrOps`);
- the language list of `get_country_languages` (module `LanguageList`). The split
  `re.split(r",\s*|\s+and\s+", raw)` is written as a left-to-right scanner. It is followed
  by the strip of each piece and the removal of empty pieces;
- the resolvers `get_country_*`, `get_polar_radius` and `get_birth_date`, including how they
  turn a fetch failure into a message (module `Resolvers`);
- the actions of the rule table (module `Handlers`);
- `pa_list` and `search_pa_list` (module `Dispatcher`).

Failures are values. Python exceptions become `Result.Fail(msg)` inside the resolvers. An
action has one of three outcomes:

- `Answers(lines)`;
- `Terminate`, for the `KeyboardInterrupt` of `bye_action`;
- `Crash(reason)`, for an exception that nothing in the core catches. Examples are the
  `IndexError` of `matches[0]` on an empty list and the failures that `birth_date` and
  `polar_radius` let escape.

The model has three collaborators, and each is a parameter:

- **Fetching a page's infobox.** `get_page_html` and `get_first_infobox_text` become
  `Env.fetch : string -> Result<string>`.
- **The regex search of a field pattern.** This becomes
  `Env.search : (pattern, text) -> Option<group>`.
- **The wildcard matcher `match`**, which a10.py imports. It becomes
  `Matcher : (template, words) -> Option<bound words>`.

`search_pa_list` is a method with a `while` loop, proved against the function `Dispatch`.
Every action answers exactly one line when it answers at all, so its "No answers"
fallback is never taken (`DispatchAnswersAsAction`).
Everything else in the source is pure, so it is modelled with functions and lemmas.

Character classes:

- Python's `string.printable` is U+0009..U+000D plus U+0020..U+007E (`IsPrintable`).
- `str.strip()` and the regex class `\s` share Python's whitespace set (`StrOps.IsSpace`):
  U+0009..U+000D, U+001C..U+001F, U+0020, U+0085, U+00A0, U+1680, U+2000..U+200A, U+2028,
  U+2029, U+202F, U+205F and U+3000.

The list is split on a comma or on the word "and", and the model follows the code in two
details of the second separator:

- The `and` separator is matched in lower case only. This is because `re.split` gets no
  flags, while the field searches use `re.IGNORECASE`.
- The `and` separator needs whitespace on both sides.

The split is stated in two layers. `Separators(s)` is the table of the match length at each
position of `s` (0 where no match starts). `SplitsAs` says what `re.split` returns for any
such table: each piece runs up to the leftmost position where a match starts, the match is
skipped, and the last piece runs to the end. `SplitsUnique` shows this determines the
pieces, `SplitsRebuild` puts the text back together from them, and the scanner
`SplitFrom`, which `SplitLanguages` runs over `Separators(s)`, returns exactly that cut.

## Model

| member | source | states |
|---|---|---|
| TextNormalizer.ReplaceNonPrintable | a10.py:20 | output has the input's length; each character is kept if it is in `string.printable` and otherwise becomes exactly one space |
| TextNormalizer.ReplaceNonPrintableIsPrintable | a10.py:20 | after the first step only printable characters are left |
| TextNormalizer.ReplaceNonPrintableFixpoint | a10.py:20 | a text that is already printable is left unchanged |
| TextNormalizer.CollapseRuns | a10.py:21-22 | `re.sub(c+"+", c, s)`: never longer than the input, keeps the first character, leaves no two neighbouring `c`s and introduces no character |
| TextNormalizer.CollapseRunsKeepsOthers | a10.py:21-22 | the output is a subsequence of the input, and removing every `c` from both gives the same string, so only `c`s are dropped |
| TextNormalizer.CollapseRunsKeepsChar | a10.py:21-22 | `c` occurs in the output exactly when it occurs in the input, so a run is shortened and never removed |
| TextNormalizer.CollapseRunsRunLength | a10.py:21-22 | a run of two `c`s gives the same result as a run of one |
| TextNormalizer.CollapseRunsFixpoint | a10.py:21-22 | a text without doubled `c`s is unchanged |
| TextNormalizer.CollapseRunsKeepsNoDouble | a10.py:22 | collapsing newlines does not bring back doubled spaces |
| TextNormalizer.CleanText | a10.py:19-23 | `clean_text` output is all printable, has no two consecutive spaces and no two consecutive newlines, and is never longer than the input |
| TextNormalizer.CleanTextIdempotent | a10.py:19-23 | `clean_text(clean_text(s)) == clean_text(s)` |
| TextNormalizer.CleanTextKeepsOthers | a10.py:19-23 | the output is a subsequence of the first step's output, and the two agree once spaces and newlines are removed |
| FieldExtractor.GetMatch | a10.py:25-30 | fails exactly when the search finds nothing, then with exactly the given error text; otherwise returns the match |
| StrOps.Strip | a10.py:53 | `.strip()` is the contiguous part of the text that starts after the leading whitespace, and it neither starts nor ends with whitespace |
| StrOps.StripCutsOnlySpaces | a10.py:53 | everything `.strip()` cuts off at either end is whitespace |
| StrOps.StripEmptyIff | a10.py:73 | a piece strips to the empty string exactly when it is all whitespace, which is when the comprehension drops it |
| StrOps.StripUnchanged | a10.py:53 | a string that neither starts nor ends with whitespace is its own strip |
| StrOps.Join | a10.py:97-98 | `sep.join`: no parts give the empty string and one part is returned as it is |
| StrOps.JoinLength | a10.py:98 | the result starts with the first part, and its length is the parts' total length plus one separator between each two |
| StrOps.RemoveChar | a10.py:62 | `.replace(c, "")` leaves no `c`, and its length is the input's length minus the number of `c`s |
| StrOps.RemoveCharSubsequence | a10.py:62 | the other characters are kept in order |
| StrOps.RemoveCharUnique | a10.py:62 | it is the only `c`-free subsequence of that length, so nothing else is removed |
| StrOps.RemoveCharAppend | a10.py:62 | removing a character distributes over concatenation |
| StrOps.RemoveCharCommutes | a10.py:19-23 | helper of `CleanTextKeepsOthers`: removing two characters in either order gives the same string |
| FieldExtractor.Population | a10.py:62 | the population is comma-free, and its length is the group's length minus its commas |
| FieldExtractor.PopulationKeepsOrder | a10.py:62 | the population is a subsequence of the captured group |
| FieldExtractor.PopulationIsDigits | a10.py:60-62 | a group of the shape `\d{1,3}(?:,\d{3})+` gives an all-digit population at least four long |
| FieldExtractor.PopulationOfGroups | a10.py:62 | any number of digit groups joined by commas become the groups laid end to end |
| FieldExtractor.PopulationExample | a10.py:62 | `126,014,024` becomes `126014024` |
| LanguageList.SpaceRun | a10.py:72 | the whitespace run at a position stays inside the text and is maximal: the character after it is not whitespace |
| LanguageList.SpaceRunSpaces | a10.py:72 | every character of the run is whitespace |
| LanguageList.SeparatorAt | a10.py:72 | a separator match stays inside the text, and only a comma or whitespace can start one |
| LanguageList.SeparatorAtExtent | a10.py:72 | the extent of a separator match: a comma with the whole whitespace run after it; otherwise a match exists exactly when a non-empty whitespace run is followed by `and` and a non-empty whitespace run, and it covers all three |
| LanguageList.NoSeparatorAt | a10.py:72 | no match starts at a character that is neither a comma nor whitespace |
| LanguageList.Separators | a10.py:72 | the separator table has one entry per character, the length of the match starting there |
| LanguageList.SeparatorsIsTable | a10.py:72 | no match runs past the end of the text, and every comma starts a match |
| LanguageList.SplitsRebuild | a10.py:72 | round trip: the pieces of a cut with the skipped separator texts put back between them are the text |
| LanguageList.SplitsUnique | a10.py:72 | a text has only one cut at the leftmost matches, so `re.split`'s result is determined |
| LanguageList.SplitsNoComma | a10.py:72 | since every comma starts a match, no piece holds a comma |
| LanguageList.SplitFrom | a10.py:72 | the left-to-right scan returns pieces that occur in the text in order and, started on a fresh piece, exactly the cut at the leftmost matches |
| LanguageList.SplitLanguages | a10.py:72 | `re.split` of a language group `s` is the cut of `s` at its separator matches (the one `SplitsAs` describes), the pieces with the separators put back are `s`, no piece holds a comma, and the pieces are in text order |
| LanguageList.StripNonEmpty | a10.py:73 | the comprehension returns no more items than pieces, and from comma-free pieces only languages: non-empty, no whitespace at either end, no comma |
| LanguageList.StripNonEmptyContents | a10.py:73 | every piece whose strip is non-empty contributes that strip, and every item is the strip of some piece |
| LanguageList.StripNonEmptyAppend | a10.py:73 | the comprehension works piece by piece: it distributes over concatenation |
| LanguageList.Languages | a10.py:72-73 | the language list holds only languages, in the order of the captured text |
| LanguageList.LanguagesContents | a10.py:72-73 | the languages are exactly the non-empty strips of the split pieces: each such strip is listed and nothing else is |
| LanguageList.StripNonEmptyInOrder | a10.py:73 | stripping and dropping pieces keeps the items in text order |
| LanguageList.LanguagesShape | a10.py:72-73 | every item of the language list is non-empty, has no leading or trailing whitespace and no comma, and the items occur left to right in the captured text |
| LanguageList.LanguagesOneWord | a10.py:72-73 | a single word is a one-item list |
| LanguageList.LanguagesAnd | a10.py:72-73 | `a and b` for two words gives `[a, b]` |
| LanguageList.LanguagesComma | a10.py:72-73 | `a, b` for two words gives `[a, b]` |
| LanguageList.LanguagesExampleGerman | a10.py:72-73 | `German` gives `["German"]` |
| LanguageList.LanguagesExampleAnd | a10.py:72-73 | `English and French` gives `["English", "French"]` |
| LanguageList.SplitTwo | a10.py:72 | a word, one separator match and a word split into the two words |
| LanguageList.TwoPieces | a10.py:72 | a text with exactly one match is cut into the two pieces around it |
| LanguageList.CommaSeparator | a10.py:72 | `, ` followed by a non-space is a match of length two |
| LanguageList.AndSeparator | a10.py:72 | ` and ` followed by a non-space is a match of length five |
| Resolvers.CleanInfobox | a10.py:33 | a fetch failure passes through unchanged; otherwise the result is the cleaned text |
| Resolvers.CountryInfobox | a10.py:47-50 | succeeds exactly when the fetch does, with the cleaned text; a fetch failure becomes "Could not retrieve page or infobox for <name>: <error>" |
| Resolvers.CountryField | a10.py:47-52 | succeeds exactly when the fetch succeeds and the search finds the field; a fetch failure gives the retrieve message; a failed search gives the caller's error text |
| Resolvers.RetrieveFailure | a10.py:50 | the retrieve message starts with "Could not retrieve page or infobox for " and contains the country name and the original error text |
| Resolvers.CountryCapital | a10.py:46-53 | succeeds exactly when the page is fetched and the pattern matches; the capital is the stripped group, and a non-empty one has no whitespace at either end; a fetch failure gives a message naming the country and the error, a failed search the "no capital" text |
| Resolvers.CountryPopulation | a10.py:55-62 | succeeds exactly when the page is fetched and the pattern matches; the population is the group without commas, and all digits and at least four long when the group has the pattern's shape; failures as for the capital |
| Resolvers.CountryLanguages | a10.py:64-73 | succeeds exactly when the page is fetched and the pattern matches; the list is the language list of the group, every item is non-empty, has no whitespace at either end and no comma, and the items follow the group's order; failures as for the capital |
| Resolvers.CapitalFound | a10.py:46-53 | with a fetched page and a found group, the capital is the stripped group |
| Resolvers.PopulationFound | a10.py:55-62 | with a fetched page and a found group, the population is the group without commas |
| Resolvers.LanguagesFound | a10.py:64-73 | with a fetched page and a found group, the result is the group's language list |
| Resolvers.PolarRadius | a10.py:32-37 | a fetch failure escapes unchanged |
| Resolvers.BirthDate | a10.py:39-44 | a fetch failure escapes unchanged |
| Handlers.BirthDateAction | a10.py:75-76 | one line holding the birth date of the joined words, or an escaping failure with the resolver's message; never ends the session |
| Handlers.PolarRadiusAction | a10.py:78-79 | no words gives the `IndexError`; otherwise one line holding the radius of the first word, or the resolver's failure escapes |
| Handlers.CountryCapitalAction | a10.py:81-86 | exactly one line: the sentence built from `matches[0]`, or "Could not find capital: " + error; crashes only when the lookup succeeds with no words |
| Handlers.CountryPopulationAction | a10.py:88-93 | exactly one line: the sentence built from `matches[0]`, or "Could not find population: " + error; crashes only when the lookup succeeds with no words |
| Handlers.CountryLanguagesAction | a10.py:95-100 | exactly one line: the sentence with the languages joined by ", ", or "Could not find language info: " + error; crashes only when the lookup succeeds with no words |
| Handlers.ByeAction | a10.py:102-103 | always ends the session |
| Handlers.CountryActionsNameCountryOnFetchFailure | a10.py:81-100 | for any number of matched words, when the page of the words joined by spaces cannot be fetched, each country action answers one line that contains that joined name |
| Handlers.CapitalAnswer | a10.py:81-84 | for any non-empty matched words whose joined name is fetched and whose capital is found, the one line "The capital of <first word> is <stripped group>" |
| Handlers.PopulationAnswer | a10.py:88-91 | the same for `country_population`, with the group without commas |
| Handlers.LanguagesAnswer | a10.py:95-98 | the same for `country_languages`, with the language list joined by ", " |
| Dispatcher.Perform | a10.py:127 | calling an action ends the session exactly when that action is `bye_action` |
| Dispatcher.PaListShape | a10.py:108-118 | `pa_list` has nine rules, only the last (`bye`) ends the session, and rules 4 to 7 are the capital, population and two language rules |
| Dispatcher.FirstMatchFrom | a10.py:124-126 | the index found is a matching rule and no earlier rule matches; nothing is found exactly when no rule matches |
| Dispatcher.NonEmpty | a10.py:128 | an empty answer becomes `["No answers"]`, and anything else passes unchanged |
| Dispatcher.Dispatch | a10.py:123-129 | an answer always has at least one line, and the session ends exactly when the first matching rule's action is `bye_action` |
| Dispatcher.SearchPaList | a10.py:123-129 | the loop returns what `Dispatch` specifies: the first matching rule's action, with "No answers" for an empty answer and "I don't understand" when no rule matches |
| Dispatcher.LaterRulesIgnored | a10.py:124-128 | the rules after the first matching one may be replaced without changing the answer |
| Dispatcher.DispatchPicks | a10.py:124-128 | when rule `k` matches (with that binding) and no earlier one does, the answer is rule `k`'s action on that binding |
| Dispatcher.ActionsAnswerOneLine | a10.py:75-103 | every action of `pa_list` that answers, answers exactly one line |
| Dispatcher.DispatchAnswersAsAction | a10.py:127-128 | hence the "No answers" fallback is never taken: the answer is the first matching rule's action outcome as it is |
| Dispatcher.PicksRule | a10.py:123-128 | on `pa_list`, the first matching rule `k` decides the answer with its binding |
| Dispatcher.DispatchNoMatch | a10.py:129 | when no template matches, the answer is "I don't understand" |
| Dispatcher.ByeTerminates | a10.py:108-118 | on `pa_list`, `bye` ends the session when no earlier template matches it |
| Dispatcher.CapitalRule | a10.py:113 | on `pa_list`, a question that only the capital template matches is answered with "The capital of <country> is <stripped group>" |
| Dispatcher.PopulationRule | a10.py:114 | on `pa_list`, a question that only the population template matches is answered with "The population of <country> is <group without commas>" |
| Dispatcher.LanguagesRule | a10.py:115 | on `pa_list`, a question that only the first language template matches is answered with the joined language list |
| Dispatcher.CapitalLine | a10.py:81-84 | for one bound word, the capital action's line passes the "No answers" check unchanged |
| Dispatcher.PopulationLine | a10.py:88-91 | the same for the population action |
| Dispatcher.LanguagesLine | a10.py:95-98 | the same for the language action |
| Dispatcher.CapitalScenario | a10.py:120 | "what is the capital of tanzania", with a capital group "Dodoma", is answered "The capital of tanzania is Dodoma" |
| Dispatcher.PopulationScenario | a10.py:121 | "how many people live in mexico", with a group "126,014,024", is answered "The population of mexico is 126014024" |
| Dispatcher.LanguagesScenario | a10.py:122 | "what language is spoken in germany", with a group "German", is answered "The official language(s) of germany: German" |

## Left out

- Fetching is not modelled: `get_page_html` (the `wikipedia` library, network) and
  `get_first_infobox_text` (BeautifulSoup HTML parsing). They appear only as `Env.fetch`,
  a function that returns the infobox text or a failure message.
- Python's regex engine is not modelled for the field patterns of the capital, the
  population, the languages, the polar radius and the birth date. The patterns are kept as
  constants, and the search is the parameter `Env.search`. Only what the code does with the
  captured group is modelled. The split pattern of the language list is the exception: it
  is written out as a scanner.
- The wildcard matcher `match` is imported from a module that is not part of this model. It
  is the parameter `Matcher`, and no policy for splitting the wildcard is assumed.
- `query_loop` is not modelled: console input and output, `.replace("?", "")`, `.lower()`,
  `.split()`, and leaving the loop on `KeyboardInterrupt` or `EOFError`. The dispatcher
  returns `Terminate` where the loop would end.
- Exceptions raised inside `fetch` are not modelled by type: any failure becomes its message
  text `e`. In `polar_radius` and `birth_date` the failure escapes, and `Crash` carries the
  message, not the exception.
- Python `str` values can hold lone surrogates (U+D800..U+DFFF), which a Dafny `char`
  cannot. Texts holding them are outside the model.
- Resolvers.PolarRadius, Resolvers.BirthDate: their contracts state only that a fetch
  failure escapes unchanged. The success value is, by `GetMatch`, the searched group,
  and nothing further is proved about it because the source does not post-process it.
