# ETF explorer front-end: a verified model of its core

This project models the logic behind three screens of a browser front-end for
exchange-traded funds (ETFs):

- The **Intersection Analyzer** finds holdings that several selected ETFs share. For each
  one it lists which ETFs hold it, each ETF's weight, and a $100-per-ETF weighted value.
  The results are ranked by that value.
- The **Portfolio Builder** keeps dollar allocations per ETF. It sends the positive ones
  for comparison and turns a failed comparison into a message for the user.
- The **ETF Comparator** keeps a list of selected ETFs with their fetched data and shows
  a few capped lists per ETF.

The model is written in Dafny and follows the source's structure:

| file | module | what it holds |
|---|---|---|
| `wrappers.dfy` | `Wrappers` | `Option`, `Result` |
| `strings.dfy` | `Strings` | JavaScript string operations over ASCII: `toUpperCase`, `trim` (with the JavaScript white-space set), `includes`, `split`, `join`, the default `sort` order |
| `etf.dfy` | `Etf` | the records the data service returns; `null` and missing fields are `Option` |
| `names.dfy` | `Names`, `NameExamples` | `normalizeName`, one stage per `.replace`, and worked examples |
| `holdings.dfy` | `Holdings` | the per-ETF filter and map that normalises holdings |
| `ranking.dfy` | `Ranking` | the sort of the shared holdings: a stable insertion sort under the source's comparator |
| `intersections.dfy` | `Intersections` | `calculateIntersections`, stage by stage, as specification functions |
| `engine.dfy` | `IntersectionEngine` | the same computation as the source's loops; each method is proved equal to its specification function |
| `facts.dfy` | `IntersectionFacts` | what the analysis guarantees: shared identifiers, subset keys, weights, weighted values, ranking |
| `selection.dfy` | `Selection` | the selected-ETF list shared by the comparator and the analyzer, with its invariant |
| `search.dfy` | `Search` | the search-reply adapter and the search alert |
| `comparator.dfy` | `Comparator` | the comparator's display rules and its `ETFComparator` state class |
| `analyzer.dfy` | `Analyzer` | the analyzer's `IntersectionAnalyzer` state class |
| `compare_errors.dfy` | `CompareErrors` | failed-symbol extraction and the choice of error message |
| `portfolio.dfy` | `Portfolio` | allocations, their total, and the `PortfolioBuilder` state class |

Each React component becomes a class. Its `useState` fields are class fields, and each
handler is a method with a `modifies` clause. Everything the handlers cannot compute is
a parameter of the method:

- `window.confirm` is a boolean;
- a fetch result is a `Fetch` value;
- a search reply is a `Result<SearchReply, SearchError>`;
- a comparison reply is a `Result<PortfolioReport, CompareError>`;
- `parseFloat` is an `Option<real>`.

An `alert` is returned as an `Option<string>`. The effect that runs the intersection
analysis after each selection change is the method `Refresh`.

Where the code and the behaviour one would expect from it part, the model follows the code:

- A holding with no ticker and no name gets the empty identifier. It stays in
  `holdingsByETF`. It never becomes a shared holding, because identifier collection skips
  empty identifiers (`Holdings.NormalizeKeepsOthers`, `IntersectionFacts.SharedDiscovered`).
- `normalizeName` is not idempotent. Suffix removal runs after white space is collapsed,
  so "X INC Y" becomes "X  Y" with two spaces, and normalising that again
  gives "X Y" (`NameExamples.NormalizeNameNotIdempotent`).
- An expense ratio of exactly 0 with no fund-operations ratio is shown as "N/A", because
  the fallback uses `||` (`Comparator.ZeroRatioNotAvailable`).

## Model

| member | source | states |
|---|---|---|
| Names.NormalizeNameChars | src/components/IntersectionAnalyzer.jsx:133-141 | the normalised name holds only upper-case word characters and plain spaces, and it neither starts nor ends with a space |
| Names.NormalizeName | src/components/IntersectionAnalyzer.jsx:133-141 | `normalizeName` as the `!name` guard followed by its four stages in order; the empty name gives "", and the result never starts or ends with white space |
| Names.CollapseSpacesShape | src/components/IntersectionAnalyzer.jsx:137 | white space is left only as single plain spaces; a leading space remains exactly when the input starts with white space; an input without lower-case letters gives an output without them |
| Names.StripPunctuationChars | src/components/IntersectionAnalyzer.jsx:139 | only word characters and white space remain |
| NameExamples.NormalizeNameExamples | src/components/IntersectionAnalyzer.jsx:133-141 | "Apple Inc." and "APPLE INC" both normalise to "APPLE"; the empty name normalises to "" |
| NameExamples.NormalizeNameNotIdempotent | src/components/IntersectionAnalyzer.jsx:137-138 | "X INC Y" normalises to "X  Y", and normalising that again changes it |
| Holdings.RawTicker | src/components/IntersectionAnalyzer.jsx:146-156 | `ticker` when non-empty, else `symbol` when non-empty, else nothing; never the empty string |
| Holdings.KeptHoldingsMembers | src/components/IntersectionAnalyzer.jsx:143-154 | a holding is kept exactly when it is non-null and not a catch-all line ("OTHER"/"OTHERS" ticker, or a name containing "OTHER HOLDINGS" or "OTHERS") |
| Holdings.KeptAppend | src/components/IntersectionAnalyzer.jsx:143-154 | the filter works element by element, so kept holdings keep their input order |
| Holdings.NormalizeHoldingsShape | src/components/IntersectionAnalyzer.jsx:143-169 | no output is a catch-all line; each identifier is the cleaned ticker when non-empty, otherwise `normalizeName(name)`; each output is the normalised form of an input holding |
| Holdings.NormalizeAllPointwise | src/components/IntersectionAnalyzer.jsx:155-169 | the `.map` step turns each kept holding, in place, into its normalised form |
| Holdings.NormalizeKeepsOthers | src/components/IntersectionAnalyzer.jsx:143-169 | every non-null, non-catch-all holding appears, normalised, in the output, including one with an empty identifier |
| Holdings.NormalizeHoldingsSingle | src/components/IntersectionAnalyzer.jsx:155-169 | one holding yields its normalised form with weight `weight \|\| 0`, or nothing when filtered out |
| Intersections.HoldingsMapKeys | src/components/IntersectionAnalyzer.jsx:121-143 | the keys are exactly the ETFs' storage keys, with 'unknown' for a data-less ETF whose symbol is empty |
| Intersections.Discover | src/components/IntersectionAnalyzer.jsx:174-181 | the identifiers collected are distinct and non-empty, and they are exactly the non-empty identifiers held by some selected ETF |
| Intersections.Holders | src/components/IntersectionAnalyzer.jsx:188-190 | the ETFs kept are exactly the selected ETFs whose holdings contain the identifier |
| Intersections.FindIndex | src/components/IntersectionAnalyzer.jsx:203 | the first holding with the identifier, or none exactly when no holding has it |
| Intersections.Analyze | src/components/IntersectionAnalyzer.jsx:112-116 | with fewer than two selected ETFs the analysis is null; otherwise it is `calculateIntersections` |
| Intersections.IntersectionsOf | src/components/IntersectionAnalyzer.jsx:118-254 | `calculateIntersections` succeeds exactly when every selected symbol has an entry in `holdingsByETF`; then `holdingsByETF` is the normalised map and the shared holdings are the weighted entries in some order |
| IntersectionEngine.BuildHoldingsMap | src/components/IntersectionAnalyzer.jsx:121-170 | the `forEach` that fills `holdingsByETF` builds exactly `HoldingsMap` |
| IntersectionEngine.DiscoverIdentifiers | src/components/IntersectionAnalyzer.jsx:174-181 | succeeds exactly when every selected symbol has an entry, and then yields the discovered identifiers in order |
| IntersectionEngine.GatherHolders | src/components/IntersectionAnalyzer.jsx:198-213 | the loop over the holders builds the weights map, the first name and the first ticker |
| IntersectionEngine.CollectShared | src/components/IntersectionAnalyzer.jsx:186-226 | the pushes onto `sharedHoldings` give exactly `Collect` |
| IntersectionEngine.AssignWeightedValues | src/components/IntersectionAnalyzer.jsx:228-238 | the loop sets each entry's weighted value and nothing else |
| IntersectionEngine.CalculateIntersections | src/components/IntersectionAnalyzer.jsx:118-254 | the whole imperative computation equals `IntersectionsOf`; a lookup that throws ends in `None`, as the `catch` does |
| IntersectionFacts.HoldingsMapUnique | src/components/IntersectionAnalyzer.jsx:122-143 | with unique non-empty symbols every ETF's entry is its own normalised holdings, and an ETF without data has an empty list |
| IntersectionFacts.HoldingsMapEntry | src/components/IntersectionAnalyzer.jsx:121-143 | with unique non-empty symbols, each selected ETF's symbol is a key, and its entry is that ETF's normalised holdings |
| IntersectionFacts.UnknownKeyFails | src/components/IntersectionAnalyzer.jsx:123-253 | a data-less ETF with an empty symbol is stored under 'unknown', so the later lookup by symbol fails and the analysis is null |
| IntersectionFacts.SharedDiscovered | src/components/IntersectionAnalyzer.jsx:174-192 | the shared identifiers are distinct, and an identifier is shared exactly when it is non-empty and at least two selected ETFs hold it |
| IntersectionFacts.HoldersUnique | src/components/IntersectionAnalyzer.jsx:188-190 | the holders of an identifier have unique symbols |
| IntersectionFacts.SubsetKeyExample | src/components/IntersectionAnalyzer.jsx:193 | holders A and C give the key "A & C" in either selection order |
| Strings.SortStringsSorts | src/components/IntersectionAnalyzer.jsx:193 | the default `sort` yields an ordered permutation of the symbols |
| IntersectionFacts.KeySplitsBack | src/components/IntersectionAnalyzer.jsx:193-231 | for symbols without a space, splitting the subset key at " & " gives back the sorted holder symbols |
| IntersectionFacts.SeparatorFreeSymbolsNotEnough | src/components/IntersectionAnalyzer.jsx:193-231 | symbols that merely lack " & " do not make `split(' & ')` undo the join: "A &" and "B" give the key "A & & B", which splits into "A" and "& B" |
| IntersectionFacts.WeightsEntries | src/components/IntersectionAnalyzer.jsx:202-208 | the weights map has exactly the holders' symbols as keys, and each entry comes from that ETF's first holding with the identifier |
| IntersectionFacts.FirstNameIsFirst | src/components/IntersectionAnalyzer.jsx:199-216 | the display name is the first non-empty holding name in selection order, and there is none exactly when all names are empty |
| IntersectionFacts.FirstNameNone | src/components/IntersectionAnalyzer.jsx:199-216 | no display name is found exactly when every holder's matching holding has an empty name |
| IntersectionFacts.FirstNameSome | src/components/IntersectionAnalyzer.jsx:199-210 | a display name that is found is the non-empty name of some holder, and every earlier holder's name is empty |
| IntersectionFacts.FirstTickerIsFirst | src/components/IntersectionAnalyzer.jsx:200-217 | the display ticker is the first non-empty ticker in selection order, and there is none exactly when no holder has one |
| IntersectionFacts.FirstTickerNone | src/components/IntersectionAnalyzer.jsx:200-217 | no display ticker is found exactly when no holder's matching holding has a non-empty ticker |
| IntersectionFacts.FirstTickerSome | src/components/IntersectionAnalyzer.jsx:200-211 | a display ticker that is found is some holder's non-empty ticker, and no earlier holder has one |
| IntersectionFacts.SumWeightsPermutation | src/components/IntersectionAnalyzer.jsx:231-235 | the weighted sum does not depend on the order of the symbols |
| IntersectionFacts.WeightedValueIsSum | src/components/IntersectionAnalyzer.jsx:228-238 | splitting the subset key back into symbols and summing 100·weight/100 gives the sum over the holders' first matching holdings (symbols without a space) |
| IntersectionFacts.WeightedValueExample | src/components/IntersectionAnalyzer.jsx:228-238 | weights 5 and 10 under the key "A & C" give 15 |
| IntersectionFacts.ResultEntries | src/components/IntersectionAnalyzer.jsx:184-249 | every ranked entry is the weighted entry of one non-empty identifier that at least two selected ETFs hold, and `holdingsByETF` is the normalised map |
| IntersectionFacts.ResultRanked | src/components/IntersectionAnalyzer.jsx:242-247 | the ranked list is a permutation of the discovered one; when no weighted value is 0 it is non-increasing and equal values keep discovery order |
| Ranking.SortByValuePermutes | src/components/IntersectionAnalyzer.jsx:242-247 | the sort is a permutation of its input |
| Ranking.SortByValueOrdered | src/components/IntersectionAnalyzer.jsx:242-247 | with no zero weighted value, the sort orders by value, largest first, and stably |
| Ranking.SortByValue | src/components/IntersectionAnalyzer.jsx:242-247 | the `sort` call as a stable insertion under the source's comparator; it keeps the number of entries |
| Selection.Without | src/components/ETFComparator.jsx:103 | the filter keeps exactly the entries with another symbol, and the symbol is no longer selected |
| Selection.WithoutAppend | src/components/ETFComparator.jsx:103 | the filter works entry by entry, so the other entries keep their order |
| Selection.WithoutCount | src/components/ETFComparator.jsx:103 | with unique symbols, removal shortens the list by one exactly when the symbol was selected |
| Selection.AddThenRemove | src/components/ETFComparator.jsx:79-107 | removing the ETF just added gives the old list back |
| Selection.FetchedEntry | src/components/ETFComparator.jsx:85-96 | a failed fetch adds nothing; otherwise the entry carries the symbol and the fetched data, named `etf.name \|\| data.name \|\| symbol`; a null body with an empty `etf.name` throws and adds nothing |
| Selection.ConsistentAdd | src/components/ETFComparator.jsx:92-93 | appending a new entry and storing its data keeps symbols unique and the selected symbols exactly the keys of `etfData` |
| Selection.ConsistentRemove | src/components/ETFComparator.jsx:102-107 | filtering a symbol out and deleting its key keeps that invariant |
| Search.SearchResults | src/components/ETFComparator.jsx:63-64 | `response?.results \|\| response \|\| []`, with any non-array made []; a present `results` array is used even when empty |
| Search.SearchFailureMessage | src/components/ETFComparator.jsx:71-72 | the response message if non-empty, else the error message if non-empty, else the fixed text |
| Search.BlankIffAllSpace | src/components/ETFComparator.jsx:56 | a query is blank exactly when every character is white space |
| Comparator.MostRecentDividend | src/components/ETFComparator.jsx:115-125 | the first recent dividend's amount exactly when the list is non-empty and that amount is positive; only the first entry is read |
| Comparator.MostRecentIgnoresLater | src/components/ETFComparator.jsx:115-125 | entries after the first never change the result |
| Comparator.DisplayedExpenseRatio | src/components/ETFComparator.jsx:242 | `expense_ratio` when non-zero, otherwise the fund-operations ratio; nothing without data |
| Comparator.FormatExpenseRatio | src/components/ETFComparator.jsx:109-112 | "N/A" exactly for a missing ratio, otherwise the ratio times 100 as a percentage |
| Comparator.ZeroRatioNotAvailable | src/components/ETFComparator.jsx:109-112 | a ratio of exactly 0 with no fund-operations ratio is shown as "N/A" |
| Comparator.DisplayedHoldings | src/components/ETFComparator.jsx:278 | at most 10 rows, a prefix of `top_holdings` whenever that field is present (even empty), otherwise of `holdings` |
| Comparator.HoldingLabel | src/components/ETFComparator.jsx:334 | `name \|\| ticker \|\| symbol \|\| 'N/A'`, never empty |
| Comparator.DisplayedSectors | src/components/ETFComparator.jsx:279 | at most 5 sector rows, a prefix of the sector entries |
| Comparator.DisplayedDividends | src/components/ETFComparator.jsx:280 | at most 4 dividend rows, a prefix of `recent_dividends` |
| Comparator.ETFComparator.Reset | src/components/ETFComparator.jsx:45-53 | when confirmed, the selection, its data, the query and the results are empty; otherwise nothing changes |
| Comparator.ETFComparator.RunSearch | src/components/ETFComparator.jsx:55-77 | a request is sent exactly when the query is not blank; a blank query changes nothing; otherwise the results are the adapted reply, or empty with an alert; only the results can change |
| Comparator.ETFComparator.AddETF | src/components/ETFComparator.jsx:79-100 | no-op for a selected symbol; on a failed fetch only the alert; otherwise the entry is appended and `etfData[symbol]` set; the invariant is kept |
| Comparator.ETFComparator.RemoveETF | src/components/ETFComparator.jsx:102-107 | the symbol leaves both the list and the map, nothing else changes, and the invariant is kept |
| Analyzer.IntersectionAnalyzer.Reset | src/components/IntersectionAnalyzer.jsx:46-55 | when confirmed, everything including the analysis is cleared; otherwise nothing changes |
| Analyzer.IntersectionAnalyzer.RunSearch | src/components/IntersectionAnalyzer.jsx:57-78 | as the comparator's search |
| Analyzer.IntersectionAnalyzer.AddETF | src/components/IntersectionAnalyzer.jsx:80-101 | as the comparator's add; the analysis is left for `Refresh` |
| Analyzer.IntersectionAnalyzer.RemoveETF | src/components/IntersectionAnalyzer.jsx:103-109 | the symbol leaves the list and the map, the others keep their order, and the analysis is null |
| Analyzer.IntersectionAnalyzer.Refresh | src/components/IntersectionAnalyzer.jsx:112-257 | the analysis becomes `Analyze` of the current selection, computed by the imperative engine |
| CompareErrors.ErrorText | src/components/PortfolioBuilder.jsx:127-128 | `detail \|\| message \|\| error.message \|\| ''`: detail first, and empty exactly when all three are empty |
| CompareErrors.ExtractedAreGroupLetters | src/components/PortfolioBuilder.jsx:136-139 | every symbol taken from the error text is a non-empty run of the group's letters |
| CompareErrors.ExtractedSymbolsAreUpperCase | src/components/PortfolioBuilder.jsx:136-139 | the extraction the model uses yields non-empty upper-case tickers |
| CompareErrors.NoSymbolWordNothingExtracted | src/components/PortfolioBuilder.jsx:136-139 | a text that never spells "symbol", in any case, yields no symbols |
| CompareErrors.FirstMatch | src/components/PortfolioBuilder.jsx:136 | the leftmost match of the pattern from a position; a match found has its group starting at a letter of the group's class and ending where the greedy `(?:,\s*[A-Z]+)*` repetition stops |
| CompareErrors.FailedSymbolsWith | src/components/PortfolioBuilder.jsx:131-140 | a present `failed_symbols`, even an empty one, is the result; with neither that field nor an error text there are no failed symbols; otherwise the symbols matched in the text |
| CompareErrors.FailedFieldWins | src/components/PortfolioBuilder.jsx:131-133 | a present `failed_symbols`, even an empty one, is used and the text is not searched |
| CompareErrors.FailedFromTextAreGroupLetters | src/components/PortfolioBuilder.jsx:134-140 | without the field, the failed symbols are non-empty runs of the group's letters: letters of either case under the source's `i` flag, upper-case letters only with the corrected group |
| CompareErrors.MessageFor | src/components/PortfolioBuilder.jsx:143-157 | the message follows the fixed priority: failed symbols listed; "Could not fetch data" with all sent symbols; "404" or "not found"; the raw text; the generic text |
| CompareErrors.CollectFailedSymbols | src/components/PortfolioBuilder.jsx:127-141 | the imperative choice between `failed_symbols` and the text search yields exactly `FailedSymbolsWith` for the chosen letter class: the source's extraction under the `i` flag, the corrected one without it |
| CompareErrors.ChooseMessage | src/components/PortfolioBuilder.jsx:143-157 | the chain of `if`/`else if` assignments yields exactly `MessageFor` |
| CompareErrors.FailureMessage | src/components/PortfolioBuilder.jsx:127-157 | the reassignment chain of the `catch` block gives exactly `MessageFor` of the failed symbols and the error text: the source's message (`FailureTextAsWritten`) under the `i` flag, the corrected one (`FailureText`) without it |
| CompareErrors.LowerCaseWordTakenForSymbol | src/components/PortfolioBuilder.jsx:136-152 | as written, the text "symbol not found" yields the symbol "not" and the failed-symbol message; with an upper-case group it yields the not-found message |
| CompareErrors.AsWrittenTakesNot | src/components/PortfolioBuilder.jsx:136-139 | with the `i` flag, the text "symbol not found" yields the one symbol "not" |
| CompareErrors.UpperTakesNothing | src/components/PortfolioBuilder.jsx:136-139 | with an upper-case group, the text "symbol not found" yields no symbol |
| Portfolio.NewAllocation | src/components/PortfolioBuilder.jsx:87-91 | the new allocation has the symbol, `name \|\| symbol`, and 0 dollars |
| Portfolio.WithoutAllocation | src/components/PortfolioBuilder.jsx:98 | keeps exactly the allocations with another symbol |
| Portfolio.WithDollars | src/components/PortfolioBuilder.jsx:103-107 | only the matching allocation's dollars change |
| Portfolio.ValidAllocations | src/components/PortfolioBuilder.jsx:112 | keeps exactly the allocations with a positive amount |
| Portfolio.ValidAppend | src/components/PortfolioBuilder.jsx:112 | the filter works element by element, so the order is kept |
| Portfolio.ValidEmptyIff | src/components/PortfolioBuilder.jsx:112-117 | nothing is sent exactly when no amount is positive |
| Portfolio.ValidIsSubsequence | src/components/PortfolioBuilder.jsx:112 | what is sent is a sub-multiset of the allocations, with every positive allocation as often as it occurs |
| Portfolio.ValidTotalAtLeast | src/components/PortfolioBuilder.jsx:112 | the amount sent is never less than the total shown |
| Portfolio.TotalAppend | src/components/PortfolioBuilder.jsx:165 | the total of two lists is the sum of their totals |
| Portfolio.TotalDollars | src/components/PortfolioBuilder.jsx:165 | the `reduce` sum of the dollar amounts, which is never negative when no amount is |
| Portfolio.TotalAfterAdd | src/components/PortfolioBuilder.jsx:82-95 | adding an ETF leaves the total unchanged |
| Portfolio.TotalAfterRemove | src/components/PortfolioBuilder.jsx:97-100 | removing a symbol that occurs once takes exactly its dollars off the total |
| Portfolio.TotalAfterUpdate | src/components/PortfolioBuilder.jsx:102-109 | updating a symbol that occurs once moves the total by the difference |
| Portfolio.UpdateKeepsSymbols | src/components/PortfolioBuilder.jsx:102-109 | an update keeps every symbol in place and keeps symbols unique |
| Portfolio.WithoutAllocationUnique | src/components/PortfolioBuilder.jsx:97-100 | removal keeps symbols unique |
| Portfolio.PortfolioBuilder.Reset | src/components/PortfolioBuilder.jsx:48-56 | when confirmed, allocations empty and comparison null, with the search cleared; otherwise nothing changes |
| Portfolio.PortfolioBuilder.RunSearch | src/components/PortfolioBuilder.jsx:58-80 | as the comparator's search |
| Portfolio.PortfolioBuilder.AddETF | src/components/PortfolioBuilder.jsx:82-95 | no-op for a present symbol; otherwise the new allocation is appended and the search cleared; the comparison is kept and symbols stay unique |
| Portfolio.PortfolioBuilder.RemoveETF | src/components/PortfolioBuilder.jsx:97-100 | the symbol's allocation is removed, the others keep their order, and the comparison is null |
| Portfolio.PortfolioBuilder.UpdateDollars | src/components/PortfolioBuilder.jsx:102-109 | only the matching allocation's dollars change, to the parsed value or 0, and the comparison is null |
| Portfolio.PortfolioBuilder.Compare | src/components/PortfolioBuilder.jsx:111-163 | with no positive amount nothing is sent, the validation alert is returned and the state is unchanged; otherwise the positive allocations are sent and the reply is stored, or the corrected error message is returned, which is the source's message whenever both extractions agree |

## Left out

- Loading and saving state in `localStorage` is not modelled: it is browser I/O. Saving is also skipped when the state is empty, so it is not a round trip.
- Asynchrony and the loading and searching flags are left out. Each handler is modelled as one atomic step.
- `window.confirm` is a boolean parameter, and `alert` is a returned string.
- `toFixed`, `toLocaleString` and `Date` formatting are not modelled. A formatted percentage is kept as the exact number it would print.
- Weights and dollars are exact reals, not IEEE doubles. So 100·w/100 is exactly w here, and the sums have no rounding.
- `parseFloat` is an opaque `Option<real>`; its parsing rules are not modelled.
- Letters are ASCII only. Case conversion and `\w`, `\b` and the `i` flag cover ASCII letters only.
- A `null` entry inside a selection list is not modelled. Such an entry can only come from stored state, which is left out.
- Field values of the wrong JSON type are not modelled: a non-string name, or a `top_holdings` that is not an array, which would make `.filter` throw. Only `null` and missing fields are.
- Non-array search results fall into `ScalarReply` or a missing `results`.
- Ranking.SortByValue: no order is stated when some weighted value is 0. The comparator then returns 0 for pairs that are not equal, so the order depends on the engine's sort algorithm. The model's stable insertion sort is one valid outcome.
- The `intersections` object that the analysis also stores is not modelled. Its entries are only ever empty lists.
- Comparator.DisplayedHoldings: a `null` row inside the list, which would make rendering throw, is kept as `None` and not modelled further.
- PortfolioReport: the server's comparison result is an opaque value. The core only stores and displays it.
- Compare (`Portfolio.PortfolioBuilder.Compare`): on a failed comparison the alert is the message with the corrected, upper-case-only extraction (see Findings), not the source's. It can differ from the source's only where the two extractions differ, as they do for the text "symbol not found". `CompareErrors.FailureMessage` with the `i` flag gives the source's message.
- Rendering (JSX), the other pages (`Home.jsx`, `About.jsx`, `Navbar.jsx`, `App.jsx`) and the HTTP wrappers in `src/services/api.js` are not part of this model.

## Findings

| source | as written | input that shows it | evidently intended | confidence | as-written member | corrected member |
|---|---|---|---|---|---|---|
| src/components/PortfolioBuilder.jsx:136-139 | the `i` flag on `/symbol[s]?:?\s*([A-Z]+(?:,\s*[A-Z]+)*)/i` applies to the captured group too, so lower-case words are taken as symbols | an error text "symbol not found" yields the failed symbol "not". The user sees "Failed to fetch data for not. Please check the symbols and try again." The not-found rule, which comes later in the order, never applies. | the group captures upper-case tickers only, while "symbol"/"symbols" still matches in any case | medium, not executed | CompareErrors.ExtractedSymbolsAsWritten, shown by CompareErrors.LowerCaseWordTakenForSymbol | CompareErrors.ExtractedSymbols, with CompareErrors.ExtractedSymbolsAreUpperCase |

The portfolio builder in this model (`Portfolio.PortfolioBuilder.Compare`) calls
`CompareErrors.FailureMessage` with the corrected extraction. `CompareErrors.FailureTextAsWritten`
keeps the message as the source computes it.
