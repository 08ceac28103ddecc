# La navaja del programador — a verified model of its core

This project models the logic of the Angular application "la navaja del
programador", a collection of developer tools, and proves properties of it:

- **Regex playground** (`RegexTool`). It normalises the flag text to
  `[gimsuy]` letters, each once, in the order first typed. It classifies the
  pattern as idle, rejected or compiled. It lists every match with a loop
  that steps past empty matches and stops at a safety counter. It renders a
  highlighted, HTML-escaped view of the text. It computes the replace-mode
  result. It resets or loads a sample.
- **Tool catalogue** (`ToolRegistryService`). It holds ten tool records and
  answers `getAll`, `getById`, `getByCategory` and a case-insensitive
  substring `search`.
- **Tools sidebar** (`ToolsShell`) and **home page** (`Home`). They filter
  the catalogue by category, by favourites and by query. They show an
  eight-entry preview and the catalogue's categories in first-seen order.
- **Favourites** (`FavoritesService`). It holds a set of tool ids in
  insertion order. It loads the set from stored JSON and writes it back
  after each toggle.
- **JSON tool** (`JsonTool`). It validates the input on every edit and shows
  the status. It reads the approximate error position out of the parser's
  message, and pretty-prints or minifies the input on request.

Reactive `signal`/`computed` state becomes class fields (`var`) and
functions of those fields (`reads this`). Methods with `modifies` clauses
model the actions that set signals. The host's `RegExp`, `JSON.parse` and
`JSON.stringify` are parameters, which the model treats as oracles:

- `RegexHost.Host` bundles regex construction, `exec` and `replace`.
  `Exec` is a subset type. Its only assumption is that a match lies in the
  text, at or after `lastIndex`, and that `m[0]` is the text at the match
  index.
- `JsonValues.Parser` is the JSON parser. It returns a value or a thrown
  message.
- `JsonTool.pretty` and `JsonTool.minified` are the two serialisers.

Files:

- `common.dfy`: `Option`, sequence filters and subsequences, first-seen
  de-duplication, JavaScript whitespace and `trim`, ASCII lower-casing,
  substring search, `join`.
- `tool_catalog.dfy`: the tool record and the registry.
- `favorites.dfy`: the parsed-JSON shape and the favourites service.
- `tool_filters.dfy`: the shared list filters, the sidebar and the home page.
- `regex_flags.dfy`: flag normalisation.
- `regex_matching.dfy`: the regex oracles and the match loop.
- `regex_highlight.dfy`: `escapeHtml` and the highlighter, with their decoders.
- `regex_tool.dfy`: the regex playground component.
- `json_tool.dfy`: the error-position reader and the JSON tool component.

The match loop's safety counter is compared after the row is pushed. A
listing therefore holds up to 5001 rows, not 5000.
The model follows the code: `RegexMatching.ScanBounded` proves the 5001
bound and `RegexMatching.SafetyBoundIsReached` shows it is reached.

## Model

| member | source | states |
|---|---|---|
| ToolRegistry.GetAll | src/app/core/services/tool-registry.service.ts:6-105 | a copy of the ten-entry catalogue: the same entries in the same order |
| ToolRegistry.FindById | src/app/core/services/tool-registry.service.ts:107-109 | `find` on ids: nothing exactly when no entry has the id; otherwise an entry with that id, and no earlier entry has it |
| ToolRegistry.GetById | src/app/core/services/tool-registry.service.ts:107-109 | `find` over the catalogue: `undefined` exactly when no entry has the id, otherwise a catalogue entry with that id (the first, by `FindById`) |
| ToolRegistry.GetByCategory | src/app/core/services/tool-registry.service.ts:111-113 | exactly the catalogue entries of that category, as a subsequence of the catalogue (catalogue order) |
| ToolRegistry.Search | src/app/core/services/tool-registry.service.ts:115-133 | a blank term lists the whole catalogue; otherwise an entry is listed exactly when its lower-cased haystack (name, description, category, keywords, id, route) contains the trimmed, lower-cased term |
| ToolRegistry.SearchIsSubseq | src/app/core/services/tool-registry.service.ts:119-132 | search results keep catalogue order: they are a subsequence of it |
| ToolRegistry.SearchMonotone | src/app/core/services/tool-registry.service.ts:115-133 | when the first normalised query occurs in the second, the second's results are a subsequence of the first's |
| ToolRegistry.CatalogueIdsDistinct | src/app/core/services/tool-registry.service.ts:6-101 | no two catalogue entries share an id |
| ToolRegistry.GetByIdOfListed | src/app/core/services/tool-registry.service.ts:107-109 | `getById` of any listed id returns that very entry |
| Favorites.StringItems | src/app/core/services/favorites.service.ts:29 | the string elements of a parsed array, in array order: one id per string element, the k-th id being the k-th string element; an id is kept exactly when the array holds it as a string |
| Favorites.LoadIds | src/app/core/services/favorites.service.ts:24-33 | a missing or empty entry, a text the parser rejects and a parsed non-array all load nothing; a parsed array loads its string elements in order; every loaded id is a string element of the stored array and every such element is loaded |
| Favorites.Removed | src/app/core/services/favorites.service.ts:14 | `delete`: exactly the other ids remain |
| Favorites.Toggled | src/app/core/services/favorites.service.ts:13-15 | the id's membership flips, every other id keeps its membership, and the ids stay duplicate-free |
| Favorites.ToggleTwice | src/app/core/services/favorites.service.ts:13-15 | two toggles restore the same set of ids; for an absent id, the very same sequence; for a present id, the id moves to the end |
| Favorites.FavoritesService.constructor | src/app/core/services/favorites.service.ts:7 | the set starts as the de-duplicated loaded ids, and nothing has been written yet |
| Favorites.FavoritesService.IsFavorite | src/app/core/services/favorites.service.ts:9-11 | set membership |
| Favorites.FavoritesService.GetAllIds | src/app/core/services/favorites.service.ts:20-22 | no duplicates, and an id is listed exactly when it is a favourite |
| Favorites.FavoritesService.Toggle | src/app/core/services/favorites.service.ts:13-18 | membership of the id flips, all other ids are unchanged, the set stays duplicate-free, and the stored list is then `getAllIds()` |
| Favorites.FavoritesService.Save | src/app/core/services/favorites.service.ts:35-37 | the stored list becomes `getAllIds()` |
| ToolFilters.CategoryList | src/app/features/tools/tools-shell/tools-shell.ts:29 | `map` to categories: same length, each category of the tool at that index |
| ToolFilters.Categories | src/app/features/tools/tools-shell/tools-shell.ts:28-30 | every category that some tool has, each once, in the order the tools first show it |
| ToolFilters.FilterTwiceIsSubseq | src/app/features/tools/tools-shell/tools-shell.ts:38-46 | two chained filters keep a subsequence of the list |
| ToolFilters.UnfilteredKeepsAll | src/app/features/tools/tools-shell/tools-shell.ts:38-46 | with category 'all' and an empty query, every tool is kept |
| ToolsShell.ToolsShell.constructor | src/app/features/tools/tools-shell/tools-shell.ts:17-56 | sidebar closed, empty query, category 'all', the whole catalogue and its categories, and the favourites count from the service |
| ToolsShell.ToolsShell.FilteredTools | src/app/features/tools/tools-shell/tools-shell.ts:34-47 | a subsequence of all tools; a tool is listed exactly when it has the selected category (unless 'all') and, for a non-blank query, its haystack (name, description, category, id, route, keywords) contains the normalised query |
| ToolsShell.ToolsShell.FilteredCount | src/app/features/tools/tools-shell/tools-shell.ts:49 | the number of filtered tools, at most the catalogue size |
| ToolsShell.ToolsShell.FilteredPreview | src/app/features/tools/tools-shell/tools-shell.ts:52 | the first min(8, n) filtered tools |
| ToolsShell.ToolsShell.ToggleSidebar | src/app/features/tools/tools-shell/tools-shell.ts:58-60 | the sidebar flag is negated, so two toggles restore it; the filters are unchanged |
| ToolsShell.ToolsShell.CloseSidebarOnMobile | src/app/features/tools/tools-shell/tools-shell.ts:62-65 | the sidebar is closed afterwards; the filters are unchanged |
| ToolsShell.ToolsShell.SetQuery | src/app/features/tools/tools-shell/tools-shell.ts:72-74 | the query is set; nothing else changes |
| ToolsShell.ToolsShell.SetCategory | src/app/features/tools/tools-shell/tools-shell.ts:76-78 | the category is set; nothing else changes |
| ToolsShell.ToolsShell.ResetFilters | src/app/features/tools/tools-shell/tools-shell.ts:80-83 | query '' and category 'all', after which every tool is listed again |
| ToolsShell.ToolsShell.RefreshFavCount | src/app/features/tools/tools-shell/tools-shell.ts:85-87 | the count is the number of favourite ids |
| Home.HomeFilterFacts | src/app/features/home/home.ts:38-47 | the chained filters give a subsequence; a tool is kept exactly when it passes category, favourites mode and query; with no filter every tool is kept |
| Home.HomeFilter | src/app/features/home/home.ts:38-47 | the three chained filters of `filteredTools`: category, then favourites mode, then query (its properties are `HomeFilterFacts`) |
| Home.Home.constructor | src/app/features/home/home.ts:19-53 | empty query, category 'all', mode 'all', the whole catalogue and its categories in first-seen order |
| Home.Home.FilteredTools | src/app/features/home/home.ts:31-48 | a subsequence of all tools; a tool is listed exactly when it has the selected category, is a favourite in 'favorites' mode, and matches a non-blank query; with no filter, all tools |
| Home.Home.SetQuery | src/app/features/home/home.ts:55-57 | the query is set; category and mode are unchanged |
| Home.Home.SetCategory | src/app/features/home/home.ts:64-66 | the category is set; query and mode are unchanged |
| Home.Home.SetMode | src/app/features/home/home.ts:68-70 | the mode is set; query and category are unchanged |
| Home.Home.Reset | src/app/features/home/home.ts:72-76 | query '', category 'all', mode 'all' |
| Home.Home.IsFav | src/app/features/home/home.ts:78-80 | membership in the favourites service |
| Home.Home.ToggleFav | src/app/features/home/home.ts:82-87 | `isFav(id)` flips, no other id changes, and query, category and mode keep their values |
| RegexFlags.NormalizeFlags | src/app/features/tools/regex/regex-tools.ts:32-40 | the push loop yields exactly the normalised flags |
| RegexFlags.NormalizedFlags | src/app/features/tools/regex/regex-tools.ts:32-40 | the reference definition of `flags`: the lower-cased raw text, filtered to `gimsuy`, de-duplicated keeping first occurrences (its properties are `NormalizedFlagsShape` and `NormalizeFlagsIdempotent`) |
| RegexFlags.NormalizedFlagsShape | src/app/features/tools/regex/regex-tools.ts:32-40 | only letters of `gimsuy`, none twice; a letter is kept exactly when it occurs in the lower-cased raw text; letters come in the order of their first occurrence there |
| RegexFlags.NormalizeFlagsIdempotent | src/app/features/tools/regex/regex-tools.ts:32-40 | normalising normalised flags changes nothing |
| RegexFlags.IterFlags | src/app/features/tools/regex/regex-tools.ts:89-90 | always contains 'g'; starts with the given flags; one letter longer exactly when 'g' was missing; no letter other than 'g' is added |
| RegexFlags.IterFlagsNormalized | src/app/features/tools/regex/regex-tools.ts:89-90 | the iteration flags of normalised flags are themselves allowed letters without duplicates |
| RegexMatching.GroupTexts | src/app/features/tools/regex/regex-tools.ts:109-113 | one group per capture, a missing capture given as "" |
| RegexMatching.Scan | src/app/features/tools/regex/regex-tools.ts:100-131 | the reference definition of the match loop from a cursor and a row count: `exec` at the cursor, push the row, step past an empty match, stop after the 5001st row or when `exec` finds nothing (its properties are `ScanRows`, `ScanBounded` and `ScanListing`) |
| RegexMatching.CollectMatches | src/app/features/tools/regex/regex-tools.ts:100-131 | the while loop, with the empty-match step and the counter, emits exactly the rows of the recursive scan |
| RegexMatching.ScanRows | src/app/features/tools/regex/regex-tools.ts:104-131 | every row's index is its position, `end = start + |text|`, the text is the matched slice, rows lie at or after the cursor; consecutive rows do not overlap and have strictly increasing starts |
| RegexMatching.ScanBounded | src/app/features/tools/regex/regex-tools.ts:100-131 | at most 5001 rows in all (the counter is tested after the push) |
| RegexMatching.ScanListing | src/app/features/tools/regex/regex-tools.ts:100-133 | the listing from the start of the text: bounded, numbered, sliced, ordered and non-overlapping |
| RegexMatching.EmptyMatchesVisitEveryGap | src/app/features/tools/regex/regex-tools.ts:124-126 | when the pattern matches the empty string everywhere, the loop visits every position once, up to the counter |
| RegexMatching.SafetyBoundIsReached | src/app/features/tools/regex/regex-tools.ts:129-130 | on a text of 5000 or more characters an everywhere-empty pattern yields exactly 5001 rows |
| RegexMatching.EmptyPatternOnAbc | src/app/features/tools/regex/regex-tools.ts:124-126 | an everywhere-empty pattern on "abc" lists the four empty matches at 0, 1, 2 and 3 |
| HtmlEscape.ReplaceAll | src/app/features/tools/regex/regex-tools.ts:253-258 | `replaceAll` leaves a text without the character unchanged and never shortens it |
| HtmlEscape.EscapeHtml | src/app/features/tools/regex/regex-tools.ts:252-259 | the five chained `replaceAll`s, `&` first (its one-pass equivalent, length, safety and inverse are the lemmas below) |
| HtmlEscape.EscapeHtmlPlain | src/app/features/tools/regex/regex-tools.ts:252-259 | escaping never shortens a text and is the identity on text without any of `&`, `<`, `>`, `"`, `'` |
| HtmlEscape.EscapeHtmlAppend | src/app/features/tools/regex/regex-tools.ts:252-259 | escaping distributes over concatenation |
| HtmlEscape.EscapeHtmlIsEscapeEach | src/app/features/tools/regex/regex-tools.ts:252-259 | the five chained `replaceAll`s, '&' first, equal escaping each character once |
| HtmlEscape.EscapeHtmlSafe | src/app/features/tools/regex/regex-tools.ts:252-259 | the escaped text holds no `<`, `>`, `"` or `'` |
| HtmlEscape.UnescapeEscape | src/app/features/tools/regex/regex-tools.ts:252-259 | decoding the five entities gives back the original text |
| Highlight.Slice | src/app/features/tools/regex/regex-tools.ts:156-160 | `slice` with clamping: the slice for in-range bounds, empty otherwise |
| Highlight.Parts | src/app/features/tools/regex/regex-tools.ts:151-160 | the pieces the loop pushes from a cursor: a row starting before the cursor is skipped, otherwise the escaped gap and the marked, escaped match; finally the escaped rest of the text (its shape is `MarksFollowRows`) |
| Highlight.Highlighted | src/app/features/tools/regex/regex-tools.ts:163 | the joined pieces inside `<pre class="pre">` (its round trip is `HighlightRoundTrip`) |
| Highlight.RenderRows | src/app/features/tools/regex/regex-tools.ts:151-163 | the cursor loop, skipping rows that start before the cursor, builds exactly the highlighted markup |
| Highlight.HighlightRoundTrip | src/app/features/tools/regex/regex-tools.ts:151-163 | for rows inside the text, removing the `pre`/`mark` tags and decoding the entities gives the text back |
| Highlight.MarksFollowRows | src/app/features/tools/regex/regex-tools.ts:154-159 | for ordered rows no row is skipped: 2n+1 parts, part 2k+1 the marked, escaped text of row k |
| Highlight.ScanRowsAllMarked | src/app/features/tools/regex/regex-tools.ts:143-160 | rows from the match loop are inside the text and ordered, so every match is marked |
| RegexPlayground.CompilePattern | src/app/features/tools/regex/regex-tools.ts:42-53 | idle exactly for a blank pattern; compiled exactly when non-blank and the host builds it; otherwise the host's message or the default message |
| RegexPlayground.IterationRegex | src/app/features/tools/regex/regex-tools.ts:92-98 | the same source; with 'g' in its flags whenever the host builds the copy |
| RegexPlayground.Listing | src/app/features/tools/regex/regex-tools.ts:77-134 | empty unless compiled, with text and a non-blank pattern; otherwise at most 5001 rows, numbered, sliced, ordered, non-overlapping |
| RegexPlayground.Replaced | src/app/features/tools/regex/regex-tools.ts:166-179 | non-empty only in replace mode with a compiled pattern and a text, and then the host's replacement; a thrown `replace` gives "" |
| RegexPlayground.RegexTool.constructor | src/app/features/tools/regex/regex-tools.ts:22-29 | mode 'match', empty pattern, flags "g", empty text, replacement "$1", no message |
| RegexPlayground.RegexTool.Flags | src/app/features/tools/regex/regex-tools.ts:32-40 | exactly the allowed letters of the lower-cased raw flags, without duplicates |
| RegexPlayground.RegexTool.Compiled | src/app/features/tools/regex/regex-tools.ts:42-53 | idle exactly for a blank pattern; a compiled regex carries the pattern and the normalised flags |
| RegexPlayground.RegexTool.StatusType | src/app/features/tools/regex/regex-tools.ts:55-60 | idle exactly when the pattern is blank, error exactly when the host rejected it, ok exactly when it compiled |
| RegexPlayground.RegexTool.StatusTitle | src/app/features/tools/regex/regex-tools.ts:62-67 | one title per status, both directions |
| RegexPlayground.RegexTool.StatusDetail | src/app/features/tools/regex/regex-tools.ts:69-75 | the host's message on rejection; a prompt for the missing text or the missing pattern; otherwise "" |
| RegexPlayground.RegexTool.Matches | src/app/features/tools/regex/regex-tools.ts:77-134 | the early exits, iteration regex and loop give the listing |
| RegexPlayground.RegexTool.HighlightHtmlValue | src/app/features/tools/regex/regex-tools.ts:136-164 | "" exactly without text, without a compiled regex or without matches; otherwise markup whose plain text is the text |
| RegexPlayground.RegexTool.HighlightHtml | src/app/features/tools/regex/regex-tools.ts:136-164 | the imperative `highlightHtml` yields that value |
| RegexPlayground.RegexTool.ReplaceResult | src/app/features/tools/regex/regex-tools.ts:166-179 | non-empty only in replace mode for a compiled pattern on a text, and then what the host's `replace` returned |
| RegexPlayground.RegexTool.SetMode | src/app/features/tools/regex/regex-tools.ts:183-185 | the mode is set; nothing else changes |
| RegexPlayground.RegexTool.ClearAll | src/app/features/tools/regex/regex-tools.ts:187-194 | every field back to its initial value, so the status is idle and nothing is listed or highlighted |
| RegexPlayground.RegexTool.LoadExample | src/app/features/tools/regex/regex-tools.ts:196-204 | the sample pattern, flags, text and replacement, no message, mode unchanged; the sample flags normalise to "gi" |
| ErrorPosition.Decimal | src/app/features/tools/json-tool/json-tool.ts:43 | `${pos}`: at least one digit, only digits, no leading zero |
| ErrorPosition.DecimalRoundTrip | src/app/features/tools/json-tool/json-tool.ts:43 | reading the decimal digits of n gives n |
| ErrorPosition.FirstMatchFrom | src/app/features/tools/json-tool/json-tool.ts:160 | the leftmost index where `/position\s+(\d+)/i` matches, or nothing exactly when it matches nowhere |
| ErrorPosition.ExtractPosition | src/app/features/tools/json-tool/json-tool.ts:158-164 | the value of the digits captured at the leftmost match of `/position\s+(\d+)/i`, or nothing (its contract is `ExtractPositionLeftmost`) |
| ErrorPosition.ExtractPositionLeftmost | src/app/features/tools/json-tool/json-tool.ts:158-164 | null exactly when the pattern matches nowhere; otherwise the value of the digits captured at the leftmost match |
| ErrorPosition.KeywordThenDecimal | src/app/features/tools/json-tool/json-tool.ts:160 | "position", a space and the digits of n match and capture exactly those digits |
| ErrorPosition.PositionOfMessage | src/app/features/tools/json-tool/json-tool.ts:158-164 | a message ending "position N", with no 'p' before it, yields N |
| ErrorPosition.NoKeywordNoPosition | src/app/features/tools/json-tool/json-tool.ts:158-164 | a message without "position" in any case yields null |
| JsonToolComponent.AfterParse | src/app/features/tools/json-tool/json-tool.ts:138-156 | success exactly when the parser returns a value, clearing the error; a thrown `Error` records its message and position; any other throw records the fixed message and keeps the old position |
| JsonToolComponent.AfterValidate | src/app/features/tools/json-tool/json-tool.ts:126-136 | blank input resets the validation; otherwise success exactly when the parser succeeds; a success never carries an error |
| JsonToolComponent.Detail | src/app/features/tools/json-tool/json-tool.ts:38-44 | the prompt for blank input, "" after a success, otherwise the message, followed by a suffix exactly when a position is known |
| JsonToolComponent.DetailNamesPosition | src/app/features/tools/json-tool/json-tool.ts:43 | the suffix is " (posición aproximada: N)" with the digits of the recorded position |
| JsonToolComponent.JsonTool.constructor | src/app/features/tools/json-tool/json-tool.ts:14-22 | empty input and output, no mode, no message, cleared validation |
| JsonToolComponent.JsonTool.StatusType | src/app/features/tools/json-tool/json-tool.ts:27-30 | idle exactly for blank input; otherwise ok or error exactly as `parsedOk` says |
| JsonToolComponent.JsonTool.StatusTitle | src/app/features/tools/json-tool/json-tool.ts:32-36 | one title per status, both directions |
| JsonToolComponent.JsonTool.TryParse | src/app/features/tools/json-tool/json-tool.ts:138-156 | the validation fields become those of the parse outcome; a value is returned exactly on success; a success never leaves an error message or position behind |
| JsonToolComponent.JsonTool.ValidateOnly | src/app/features/tools/json-tool/json-tool.ts:126-136 | the validation fields become those of validating the input; a success never leaves an error message or position behind |
| JsonToolComponent.JsonTool.SetInput | src/app/features/tools/json-tool/json-tool.ts:51-55 | the new input, validated at once, output kept; the status is idle, ok or error by the blank test and the parser |
| JsonToolComponent.JsonTool.ClearInput | src/app/features/tools/json-tool/json-tool.ts:57-60 | empty input, cleared validation, idle status; output kept; a success never leaves an error message or position behind |
| JsonToolComponent.JsonTool.ClearAll | src/app/features/tools/json-tool/json-tool.ts:62-68 | input, output, mode and message emptied; validation cleared; idle status; a success never leaves an error message or position behind |
| JsonToolComponent.JsonTool.Run | src/app/features/tools/json-tool/json-tool.ts:70-90 | clears the message; on failure empties output and mode; on success writes the value in the requested layout and records the mode; a success never leaves an error message or position behind |
| JsonToolComponent.ValidateTwice | src/app/features/tools/json-tool/json-tool.ts:126-136 | validating the same input twice equals validating it once |

## Left out

- Clipboard and timers: `copyText`, `copyPattern`, `copyResult` (and its match summary lines), `copyHighlighted`, `pasteText`, `copyOutput`, `copyInput`, `pasteInput` and `copyToClipboard` are asynchronous host I/O. The `copyMsg` fields are kept only as values that the modelled actions reset.
- `Blob` byte counts (`replaceResultBytes`, `inputBytes`, `outputBytes`) depend on the host's UTF-8 encoder.
- `JSON.parse` and `JSON.stringify` are parameters. Values are distinguished only as strings, arrays and everything else.
- `localStorage`: the stored entry is a constructor parameter, and every write is a ghost field `saved`.
- `toLowerCase`: ASCII letters only, which is exact on the catalogue. `trim` and `\s` use the ECMAScript whitespace and line-terminator set.
- The host regex engine: construction, `exec` and `String.prototype.replace` with `$n` templates are oracles. Their internals are not modelled.
- `re.source` is taken to be the pattern text; the host's escaping of `/` and line breaks in `source` is not modelled.
- RegexPlayground.IterationRegex: the fallback `iterRe = re` is modelled as a branch. The model assumes its `exec` honours the cursor like a global regex would.
- RegexMatching.Scan: strings are sequences of Unicode code points, so every offset in the model (`MatchRow.start` and `end`, the cursor, `NextCursor`, `Slice`, the `Exec` oracle) counts code points. The source's `m.index`, `length`, `lastIndex` and `slice` count UTF-16 code units, so on text outside the Basic Multilingual Plane the offsets differ: an everywhere-empty pattern lists three empty matches on a single emoji in the source and two in the model. Stepping into or past a surrogate pair, with or without the `u` flag, cannot be represented.
- RegexPlayground.Replaced and RegexPlayground.RegexTool.ReplaceResult: the host's `replace` is a pure function of regex, text and replacement. In the source, `replace` runs on the cached `compiled` RegExp object, whose `lastIndex` persists between evaluations. With the `y` flag and no `g`, `replace` reads and advances that `lastIndex`, so the result depends on earlier evaluations. For example, pattern `a`, flags `y`, replacement `X`: text `ab` gives "Xb" and leaves `lastIndex` at 1; editing the text to `abc` then gives "abc" unchanged and resets `lastIndex` to 0. The model does not carry `lastIndex` between evaluations. The match listing is not affected, since it iterates on a freshly built copy (except in the fallback branch of `IterationRegex`).
- ErrorPosition.ExtractPositionLeftmost: `Number(m[1])` is not checked for overflow. The position is a natural number, so the `Number.isFinite` null for an overlong digit run is not modelled.
- RegexPlayground.RegexTool.MatchRows and JsonToolComponent.JsonTool.StatusDetail carry no contract of their own. They delegate to `Listing` and `Detail`, whose contracts state the properties.
- Favorites.ToggleTwice: two toggles of a present id restore the set of ids but not their order, as with a JavaScript `Set`.
- The unused `escaped` value in `highlightHtml`, `trackByIndex`/`trackById` and the `onQueryInput` event adapters are not modelled.
- Routing tables, the tool card component and the two component smoke tests have no logic to model.
