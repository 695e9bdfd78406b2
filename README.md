# Band name generator — a Dafny model

The band name generator is a single-page form. It takes a city, a pet name,
an optional favourite colour and an optional genre, and suggests band names
from two sources:

- **rule-based names** (`generate_band_names`): fixed templates filled from
  the raw inputs and from three constant ten-word lists (adjectives, nouns,
  suffixes), one word drawn at random from each list;
- **AI names** (`get_ai_band_names`): a prompt built from the four inputs is
  sent to a text generation service, and its answer is split into lines,
  stripped, with blank lines dropped.

The button handler checks that city and pet name are not blank. It is
meant to merge both lists and remove duplicates through a set. As written,
it never gets that far: the call that should fetch the AI names
(band_name_generator.py:197) goes through `st.experimental_rerun_if_changed`,
which Streamlit does not provide, outside the `try` of
`get_ai_band_names`, and the `async` function it passes is never awaited.
So every request that passes validation stops with an error at line 197,
and lines 200-216 never run. The model follows the intended flow: the AI
names are those parsed from the service's reply, and they are merged with
the rule-based names.

This project models that core and proves what it promises:

- `strings.dfy` (module `Strings`) models the Python string built-ins the
  core uses. `Strip` is `str.strip()` over the full `str.isspace()`
  character set. `Split` and `Join` are `str.split('\n')` and `'\n'.join`.
- `dedup.dfy` (module `Dedup`) models `list(set(xs))` as `Distinct`.
- `rule_engine.dfy` (module `RuleEngine`) holds the three word lists and the
  five templates. `GenerateBandNames` is a method that appends to a list step
  by step and then deduplicates, as the source does. `RuleBasedNames` is the
  set it must produce. The three `random.choice` calls become `Draws`, three
  indices into the lists.
- `suggestion_fetcher.dfy` (module `SuggestionFetcher`) holds the `'N/A'`
  substitution, the prompt and the response parse. The service call is
  replaced by the `Reply` it produced.
- `app.dfy` (module `App`) holds the merge and the button handler's three
  outcomes.

Python's `list(set(...))` leaves the order to the hash set. The model picks
one order: `Distinct` keeps each element where it first occurs
(`Dedup.DistinctPrefix`), so in the merged list the rule-based names come
first and the new AI names follow (`App.RuleBasedNamesFirst`). No contract
about the source depends on that order: each speaks of the element set and
the absence of duplicates.

Once validation passes, the plain name, the adjective name and the suffix
name are pairwise distinct for every input. So `generate_band_names` always
yields at least three names. As a consequence, the "No band names could be
generated" warning (band_name_generator.py:215-216) could never be shown,
even if line 197 worked:
`App.HandleGenerate` proves that the `NoSuggestions` outcome is unreachable.

## Model

| member | source | states |
|---|---|---|
| `Strings.Strip` | band_name_generator.py:31 | `strip()` is never longer than its input and its result neither begins nor ends with whitespace; `StripSpec` and `StripUnique` pin it down completely |
| `Strings.TrimStartSpec` | band_name_generator.py:31 | the leading-whitespace trim removes a prefix made only of whitespace and leaves a suffix that does not start with whitespace |
| `Strings.TrimEndSpec` | band_name_generator.py:31 | the trailing-whitespace trim removes a suffix made only of whitespace and leaves a prefix that does not end with whitespace |
| `Strings.StripSpec` | band_name_generator.py:31 | `strip()` returns an infix with only whitespace around it that neither begins nor ends with whitespace |
| `Strings.StripUnique` | band_name_generator.py:31 | any string with that property is the strip, so the characterisation defines `strip()` completely |
| `Strings.BlankIffAllSpace` | band_name_generator.py:31 | `not s.strip()` holds exactly when every character of `s` is whitespace |
| `Strings.StripIdempotent` | band_name_generator.py:73 | stripping an already stripped name changes nothing |
| `Strings.Split` | band_name_generator.py:72 | `split('\n')` yields at least one piece and no piece contains the separator |
| `Strings.JoinSplit` | band_name_generator.py:72 | joining the pieces of a split with the separator gives back the text |
| `Strings.SplitJoin` | band_name_generator.py:72 | splitting a join of separator-free pieces gives back those pieces |
| `Strings.SplitPrefix` | band_name_generator.py:72 | a separator-free prefix is glued onto the first piece of the rest |
| `Strings.SplitLength` | band_name_generator.py:72 | a split has one piece more than the text has separators |
| `Dedup.Distinct` | band_name_generator.py:54 | `list(set(xs))` has no duplicates, the same elements as `xs`, and is no longer than `xs` (in the model, each element sits at its first occurrence) |
| `Dedup.NoDuplicatesCard` | band_name_generator.py:54 | a duplicate-free list has as many entries as distinct elements |
| `RuleEngine.MissingInput` | band_name_generator.py:31 | the validation `not city.strip() or not pet_name.strip()` fails exactly when the city or the pet name is made only of whitespace |
| `RuleEngine.RuleBasedNames` | band_name_generator.py:28-54 | the names of one call form the empty set exactly when validation fails, and otherwise 3 to 5 names; `RuleBasedNamesContents` and `GenreIgnored` give their contents |
| `RuleEngine.GenerateBandNames` | band_name_generator.py:23-54 | the result is duplicate-free with exactly the element set `RuleBasedNames`; it is empty when city or pet name is blank, otherwise it holds 3 to 5 names, none blank |
| `RuleEngine.NoNamesIffMissingInput` | band_name_generator.py:31-32 | no names at all exactly when city or pet name is blank, whatever the colour, genre and draws; otherwise `city + " " + pet_name` is among them |
| `RuleEngine.RuleBasedNamesContents` | band_name_generator.py:36-52 | once validation passes, the drawn words come from the three lists and the plain, adjective, noun and suffix names built from the raw inputs are present; the colour name is present when a colour is given; with a blank colour the names are exactly the other four |
| `RuleEngine.GenreIgnored` | band_name_generator.py:23-54 | two calls that differ only in genre give the same names |
| `RuleEngine.PlainNotAdjective` | band_name_generator.py:36-40 | `city + " " + pet_name` never equals `adjective + " " + pet_name + "s"`, for any strings |
| `RuleEngine.SuffixShape` | band_name_generator.py:20 | every suffix is non-empty and none ends in `s` |
| `RuleEngine.AdjectiveNotSuffix` | band_name_generator.py:40-52 | the adjective name (ending in `s`) never equals the suffix name when the suffix does not end in `s` |
| `RuleEngine.TemplatesCount` | band_name_generator.py:28-54 | the filled templates form a set of 3 to 5 names, at most 4 without a colour |
| `RuleEngine.TemplatesNonBlank` | band_name_generator.py:36-52 | once validation passes, every name contains a non-whitespace character |
| `RuleEngine.KualaLumpurExample` | band_name_generator.py:18-54 | Kuala Lumpur, Sparky, Blue with the draws Electric, Wolves, Band give exactly the five expected names |
| `SuggestionFetcher.OrNA` | band_name_generator.py:63-64 | the value shown for an optional field is never blank and is either the raw field or `N/A`; `OrNASpec` says exactly when each |
| `SuggestionFetcher.PromptFields` | band_name_generator.py:62-64 | the three field lines follow one another in order: the pet name label with the raw pet name, the colour label with the rendered colour, and the genre label with the rendered genre, and nothing else |
| `SuggestionFetcher.Prompt` | band_name_generator.py:60-67 | the prompt is the fixed instruction, then the raw city right after `City: `, then the three field lines, then the request for one name per line, and nothing else |
| `SuggestionFetcher.OrNASpec` | band_name_generator.py:63-64 | the rendered optional field is never blank; it equals the raw field exactly when that field is not blank, and is `N/A` otherwise |
| `SuggestionFetcher.PromptPetName` | band_name_generator.py:60-62 | two prompts differing only in pet name are equal exactly when the pet names are equal (the prompt is injective in the pet name) |
| `SuggestionFetcher.PromptColor` | band_name_generator.py:60-67 | two prompts differing only in colour are equal exactly when the colours render alike (the prompt is injective in the rendered colour) |
| `SuggestionFetcher.PromptGenre` | band_name_generator.py:60-67 | two prompts differing only in genre are equal exactly when the genres render alike (the prompt is injective in the rendered genre) |
| `SuggestionFetcher.CleanLines` | band_name_generator.py:73 | the comprehension keeps at most as many names as there are lines |
| `SuggestionFetcher.CleanLinesAreClean` | band_name_generator.py:73 | every kept name is non-empty and equal to its own strip |
| `SuggestionFetcher.CleanLinesAppend` | band_name_generator.py:73 | the comprehension keeps source order: cleaning a concatenation concatenates the cleaned parts |
| `SuggestionFetcher.CleanLinesMembership` | band_name_generator.py:73 | a name is kept exactly when it is non-empty and some line strips to it |
| `SuggestionFetcher.CleanLinesKeepsClean` | band_name_generator.py:73 | lines that are already clean pass through unchanged |
| `SuggestionFetcher.ParseResponse` | band_name_generator.py:72-73 | the parse yields at most one name per line, each non-empty and already stripped; `ParseResponseMembership` and `ParseJoinedNames` pin down which names and in what order |
| `SuggestionFetcher.ParseResponseMembership` | band_name_generator.py:72-73 | a parsed name is exactly a non-empty strip of a `'\n'`-separated line of the reply text |
| `SuggestionFetcher.ParseJoinedNames` | band_name_generator.py:72-73 | a reply listing clean names one per line parses back into exactly those names, in order |
| `SuggestionFetcher.ThreeLineReply` | band_name_generator.py:72-73 | a concrete reply with padding and a blank line yields its three names, stripped and in order |
| `SuggestionFetcher.AiBandNames` | band_name_generator.py:68-79 | an unusable response or a failed call gives no names; otherwise the names are exactly the non-empty strips of the reply's lines, each non-empty and stripped |
| `App.MergeSuggestions` | band_name_generator.py:191-203 | the final list has no duplicates and its elements are exactly the union of the rule-based and AI names |
| `App.HandleGenerate` | band_name_generator.py:185-216 | the missing-input error is shown exactly when city or pet name is blank; the no-suggestions warning is never reached; otherwise the suggestions are duplicate-free and are exactly the rule-based names plus the AI names; this is the intended flow past line 197, which as written raises (see "## Left out") |

## Left out

- The Streamlit page: configuration, styling, text inputs, spinner, error and warning texts, and the HTML copy button (band_name_generator.py:82-184, 205-236). These are presentation and I/O. `App.Outcome` records which of the handler's own messages would be shown (the missing-input error at line 187 and the no-suggestions warning at line 216). The warning and the error that `get_ai_band_names` shows when the reply has no usable candidate or the call fails (lines 75 and 78) are not recorded: both cases only yield no AI names.
- The Gemini client, its configuration and the asynchronous `generate_content_async` call (band_name_generator.py:3, 10-15, 70). These are foreign code and network I/O. The call is replaced by its result, a `Reply`.
- The inspection of `response.candidates` and the `try/except` (band_name_generator.py:68-79). `Reply` collapses these into three cases: a candidate with text, no usable candidate, and an exception. The last two give no names.
- App.HandleGenerate: models the intended flow, in which the handler reaches lines 200-216 with the AI names merged in. As written, line 197 raises for every request that passes validation (next line), and the model does not capture that error.
- The session cache of AI names and the call that is meant to fill it (band_name_generator.py:195-199). The cache is framework session state. The call at line 197 goes through `st.experimental_rerun_if_changed`, a function Streamlit does not provide. It raises outside any `try`, so the cache is never filled and, as written, the handler stops there for every valid request. The `async` `get_ai_band_names` is never awaited either. `App.HandleGenerate` and `App.MergeSuggestions` model the intended flow instead: the names parsed from the reply for the current request are merged with the rule-based names. They do not model the crash.
- The random number generator. The three choices are inputs (`Draws`), not a distribution.
- The order of `list(set(...))`, which depends on string hashing. `Distinct` fixes one order, and the contracts speak only of element sets and duplicate-freedom.
- How the service reads the prompt: the prompt text is modelled exactly, but what the service answers is an input (`Reply`).
