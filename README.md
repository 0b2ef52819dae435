# Faculty directory: filter, pagination and suggestion core

A model of the logic of `FacultyInfo/script.js`. This browser script loads a
JSON array of faculty records and offers the user:

- a faculty selector with a suggestion list, and a free-text search box;
- a paginated grid of cards, 20 per page, with previous/next buttons;
- a header label and a dated footer, for an image export of the page.

The model leaves the DOM out. The script's module-level state (`allData`,
`filteredData`, `currentPage`) is the class `Directory.App`. Its methods
stand in for the handlers: the end of the fetch (`Load`), the input handler
`filterAndDisplayData` (`Filter`), the previous/next click handlers (`Prev`,
`Next`) and `displayCards` (`DisplayCards`). What the script writes into the
page is returned as a view model (`View.Display`, `View.Card`). The pure
parts are functions with lemmas in their own modules:

- `Text`: `trim`, `toLowerCase`, `includes`;
- `Filtering`: the record predicate and the filtered list;
- `Pagination`: the page slice and the navigation guards;
- `View`: the cards, the display state and the header text;
- `Suggestions`: the de-duplicated, sorted name list, built by a loop and an
  in-place sort;
- `Ordinal`: `getOrdinalSuffix`.

`Directory.Session` is a client of the class: a short session over 21 to
40 records, loading, stepping forward twice and back once, with the display
and the page checked after each step.

Two modelling choices:

- The source tests for "th" with `day > 3 && day < 21`, not with the usual
  11–13 rule. `Ordinal.SuffixIsEnglishForDays` shows the two agree on every
  day of a month.
- A record's values are strings. `String(val)` of other JSON values is not
  modelled.

## Model

| member | source | states |
|---|---|---|
| Text.Lower | FacultyInfo/script.js:42-43 | `toLowerCase` keeps the length and maps each character to its lower-case form, leaving no upper-case letter |
| Text.LowerIdempotent | FacultyInfo/script.js:42-43 | lower-casing twice is lower-casing once |
| Text.TrimStart | FacultyInfo/script.js:42-43 | the leading part of `trim`: a suffix of the input that does not start with whitespace |
| Text.TrimStartDropsSpace | FacultyInfo/script.js:42-43 | what the leading trim removes is all whitespace |
| Text.TrimEnd | FacultyInfo/script.js:42-43 | the trailing part of `trim`: a prefix of the input that does not end with whitespace |
| Text.TrimEndDropsSpace | FacultyInfo/script.js:42-43 | what the trailing trim removes is all whitespace |
| Text.Trim | FacultyInfo/script.js:42-43 | `trim` is no longer than its input and neither starts nor ends with whitespace |
| Text.TrimSplits | FacultyInfo/script.js:42-43 | the input is whitespace, then the trimmed text, then whitespace |
| Text.TrimEmptyIff | FacultyInfo/script.js:42-43 | `trim` gives the empty string exactly when the input is all whitespace |
| Text.NormalizeEmptyIff | FacultyInfo/script.js:42-45 | a criterion is falsy after `trim().toLowerCase()` exactly when the raw input is all whitespace |
| Text.Normalize | FacultyInfo/script.js:42-43 | `trim().toLowerCase()` of a raw input: never longer than it; its emptiness, case-insensitivity and idempotence are stated by `NormalizeEmptyIff`, `NormalizeIgnoresCase` and `NormalizeIdempotent` |
| Text.Contains | FacultyInfo/script.js:52-54 | `includes`: the needle is a prefix of the text or of one of its tails; `ContainsIff` proves this is the existence of an occurrence position |
| Text.ContainsIff | FacultyInfo/script.js:52-54 | `includes` holds exactly when the needle occurs at some position of the text |
| Text.ContainsEmpty | FacultyInfo/script.js:52 | every text includes the empty string |
| Text.LowerPrefix | FacultyInfo/script.js:42-43 | lower-casing a prefix gives the prefix of the lower-cased text |
| Text.LowerTrimStart | FacultyInfo/script.js:42-43 | the leading trim commutes with lower-casing |
| Text.LowerTrimEnd | FacultyInfo/script.js:42-43 | the trailing trim commutes with lower-casing |
| Text.NormalizeIgnoresCase | FacultyInfo/script.js:42-43 | two raw inputs that differ only in letter case normalise to the same criterion |
| Text.NormalizeFixed | FacultyInfo/script.js:42-43 | a text without surrounding whitespace and without upper-case letters is its own normal form |
| Text.NormalizeIdempotent | FacultyInfo/script.js:42-43 | normalising an already normalised criterion changes nothing |
| Text.NoPairNoContains | FacultyInfo/script.js:52-54 | a text that never has the needle's first two characters side by side does not include it |
| Filtering.Truthy | FacultyInfo/script.js:82-86 | JavaScript truthiness of a string field: present and not the empty string; used by the card placeholders and the suggestion list's `filter(Boolean)` |
| Filtering.NameTest | FacultyInfo/script.js:52-56 | `!faculty \|\| nameMatch`: an empty selector passes every record; otherwise the record needs a "Faculty Name" whose lower-cased text includes the selector, and a record without the field fails |
| Filtering.QueryTest | FacultyInfo/script.js:53-55 | `!query \|\| Object.values(item).some(...)`: an empty query passes every record; otherwise some field value, lower-cased, includes the query |
| Filtering.Keep | FacultyInfo/script.js:51-57 | the predicate handed to `filter`: both tests hold |
| Filtering.Filtered | FacultyInfo/script.js:51-57 | the filtered list is no longer than the dataset and holds only dataset records that pass both tests |
| Filtering.FilteredMembership | FacultyInfo/script.js:51-57 | a record is in the filtered list exactly when it is in the dataset and passes the selector test and the query test |
| Filtering.NamelessRecordDropped | FacultyInfo/script.js:52-56 | with a selector set, a record without a "Faculty Name" is never kept |
| Filtering.FilteredIsSubsequence | FacultyInfo/script.js:51-57 | the filtered list keeps the dataset's order: it is a subsequence of it |
| Filtering.SubsequenceOfTail | FacultyInfo/script.js:51-57 | a subsequence of a list's tail is a subsequence of the list |
| Filtering.SubsequenceDropHead | FacultyInfo/script.js:51-57 | dropping the head of a subsequence leaves a subsequence |
| Filtering.FilteredNoCriteria | FacultyInfo/script.js:51-57 | with an empty selector and an empty query the filtered list is the whole dataset |
| Filtering.FilteredIdempotent | FacultyInfo/script.js:51-57 | filtering the filtered list again with the same criteria changes nothing |
| Filtering.FilteredAppend | FacultyInfo/script.js:51-57 | filtering a concatenation is concatenating the filtered parts, since each record is judged alone |
| Filtering.SelectorIgnoresCase | FacultyInfo/script.js:42-56 | the selector test does not depend on the letter case of the typed selector |
| Filtering.BlankSelector | FacultyInfo/script.js:42-56 | a selector of only whitespace lets every record through |
| Filtering.SelectJaneExample | FacultyInfo/script.js:41-57 | over Jane Doe (CS) and John Roe (EE), the selector "jane" keeps only Jane Doe |
| Filtering.SearchEeExample | FacultyInfo/script.js:41-57 | over the same records, the search "ee" keeps only John Roe, whose department is "EE" |
| Pagination.PageStart | FacultyInfo/script.js:64 | the first index of page `p` is `(p - 1) * 20` |
| Pagination.HasPrev | FacultyInfo/script.js:101 | the previous handler's guard `currentPage > 1` |
| Pagination.HasNext | FacultyInfo/script.js:108 | the next handler's guard: records remain after the current page, `currentPage * 20 < length` |
| Pagination.Clamp | FacultyInfo/script.js:66 | `slice` bounds are cut down to the length of the list |
| Pagination.Page | FacultyInfo/script.js:64-66 | the page has at most 20 records, is empty exactly when it starts past the end, and its records are those from `(p-1)*20` on, in order |
| Pagination.PrevPage | FacultyInfo/script.js:100-105 | "previous" moves back one page when the page is above 1 and otherwise stays |
| Pagination.NextPage | FacultyInfo/script.js:107-112 | "next" moves on one page when records follow the current page and otherwise stays |
| Pagination.PageCount | FacultyInfo/script.js:12 | the number of non-empty pages is the record count divided by 20, rounded up |
| Pagination.PageNonEmptyIff | FacultyInfo/script.js:64-70 | a page has records exactly when its number is between 1 and the page count |
| Pagination.ReachablePageNonEmpty | FacultyInfo/script.js:64-70 | on every page the navigation can reach, a non-empty list shows records |
| Pagination.FirstPageReachable | FacultyInfo/script.js:59 | page 1, where every filter pass returns, is reachable whatever the list |
| Pagination.PrevPreservesReachable | FacultyInfo/script.js:100-105 | "previous" keeps the page reachable and moves exactly when the page is above 1 |
| Pagination.NextPreservesReachable | FacultyInfo/script.js:107-112 | "next" keeps the page reachable and moves exactly when records follow the current page |
| Pagination.PagesArePrefix | FacultyInfo/script.js:64-66 | pages 1 to k together are the first `k*20` records, or all of them |
| Pagination.PagesCoverAll | FacultyInfo/script.js:64-66 | all pages in order give back the whole list, with no gap and no repetition |
| Pagination.TwentyFiveRecords | FacultyInfo/script.js:101-108 | over 25 records, page 1 can only go forward and page 2 can only go back, and there are two pages |
| View.Field | FacultyInfo/script.js:82-86 | `item[key] \|\| placeholder` is the record's value when it is present and non-empty, the placeholder otherwise |
| View.CardOf | FacultyInfo/script.js:80-88 | every line of a card is non-empty |
| View.Cards | FacultyInfo/script.js:79-90 | one card per record of the page, in page order |
| View.Render | FacultyInfo/script.js:63-95 | the no-results state is shown exactly when the page starts past the end; otherwise the cards are those of the page, and each button is disabled exactly when its handler's guard fails |
| View.Header | FacultyInfo/script.js:45-49 | the header label, whose meaning `HeaderShowsSelector` states |
| View.HeaderShowsSelector | FacultyInfo/script.js:45-49 | the header is the raw selector text in brackets, not trimmed or lower-cased, unless that text is all whitespace, when it is "[Faculty Name]" |
| View.CardOfCompleteRecord | FacultyInfo/script.js:80-88 | a record with all five fields filled shows them unchanged |
| View.CardOfBareRecord | FacultyInfo/script.js:80-88 | a record with none of the five fields shows "TBA Faculty" and four "N/A" |
| View.BothDisabledIffSinglePage | FacultyInfo/script.js:92-93 | on a populated page both buttons are disabled exactly when it is the only page |
| Suggestions.LessEq | FacultyInfo/script.js:33 | the default string order of `sort()`: lexicographic by character, a proper prefix first; the four lemmas below prove it a total order |
| Suggestions.LessEqReflexive | FacultyInfo/script.js:33 | the string order of `sort()` is reflexive |
| Suggestions.LessEqTotal | FacultyInfo/script.js:33 | the string order of `sort()` is total |
| Suggestions.LessEqAntisymmetric | FacultyInfo/script.js:33 | the string order of `sort()` is antisymmetric |
| Suggestions.LessEqTransitive | FacultyInfo/script.js:33 | the string order of `sort()` is transitive |
| Suggestions.DistinctNames | FacultyInfo/script.js:32 | the spread of the `Set` holds each non-empty faculty name of the dataset once and nothing else |
| Suggestions.SortInPlace | FacultyInfo/script.js:33 | `sort()` leaves the array ordered and a permutation of what it held |
| Suggestions.PopulateFacultyList | FacultyInfo/script.js:31-39 | the suggestion list is sorted, has no repetitions, and holds exactly the non-empty faculty names of the dataset |
| Suggestions.DistinctPermutation | FacultyInfo/script.js:32-33 | sorting a list without repetitions keeps it without repetitions and keeps its elements |
| Suggestions.MultiplicityAtLeastTwo | FacultyInfo/script.js:32 | a string at two positions of a list occurs at least twice in it |
| Suggestions.DistinctMultiplicity | FacultyInfo/script.js:32 | in a list without repetitions each string occurs at most once |
| Suggestions.TailMembership | FacultyInfo/script.js:32 | in a list without repetitions the tail holds every element except the head |
| Suggestions.SortedDistinctUnique | FacultyInfo/script.js:32-33 | the suggestion list is determined by the dataset's names: two sorted lists without repetitions that hold the same names are equal |
| Ordinal.Suffix | FacultyInfo/script.js:118-126 | the suffix is one of "st", "nd", "rd", "th" |
| Ordinal.SuffixIsEnglishForDays | FacultyInfo/script.js:118-126 | for days 1 to 31 the suffix agrees with the English rule (11, 12, 13 take "th"; otherwise the last digit decides) |
| Ordinal.SuffixExamples | FacultyInfo/script.js:118-126 | 1st, 2nd, 3rd, 11th, 12th, 13th, 21st, 22nd, 23rd, 24th, 31st |
| Ordinal.SuffixThIff | FacultyInfo/script.js:118-126 | for days of a month, "th" is chosen exactly on days 4 to 20 and 24 to 30 |
| Directory.App.constructor | FacultyInfo/script.js:12-15 | before the dataset arrives, nothing is loaded or filtered and the page is 1 |
| Directory.App.DisplayCards | FacultyInfo/script.js:63-95 | builds the cards one record at a time and returns the display `Render` specifies; the no-results state is shown exactly when the filtered list is empty |
| Directory.App.Filter | FacultyInfo/script.js:41-61 | sets the header, recomputes the filtered list from the whole dataset with the normalised inputs, returns to page 1 and renders it, keeping the state valid and the dataset unchanged |
| Directory.App.Load | FacultyInfo/script.js:22-26 | stores the dataset, fills the suggestion list sorted and without repetitions with exactly its names, and runs a filter pass |
| Directory.App.Prev | FacultyInfo/script.js:100-105 | the page moves back one and a populated page is rendered exactly when the page was above 1; otherwise nothing changes |
| Directory.App.Next | FacultyInfo/script.js:107-112 | the page moves on one and a populated page is rendered exactly when records followed the current page; otherwise nothing changes |
| Directory.FlagsMatchGuards | FacultyInfo/script.js:92-112 | on a rendered page each button's disabled flag holds exactly when a click on it would not move |
| Directory.Session | FacultyInfo/script.js:100-112 | a session over 21 to 40 records with no criteria: after loading, page 1 has "previous" disabled and "next" enabled; "next" moves to page 2, a second "next" does nothing, and "previous" returns to page 1 |

## Left out

- The fetch of `faculty.json` and its error path (lines 17-29) are network I/O. `Load` models the successful end only. A failed fetch changes no state.
- Directory.App.constructor: before the first filter pass the header text and the suggestion options come from the page's markup, which is not modelled. The constructor assumes the markup starts with the header "[Faculty Name]" and no options.
- The DOM is not modelled: element lookups, `innerHTML` concatenation, `style.display` and `<option>` creation (lines 1-10, 34-38, 68-90). The model returns the cards and flags as the `Display` view model.
- The event-listener wiring (lines 97-98, 100, 107, 114) is not modelled. The methods of `App` stand in for the handlers.
- The image export (`html2canvas`, `toDataURL`, the download link) and the `Date` and locale formatting of the footer (lines 114-147) are left out. Only `getOrdinalSuffix` is kept.
- Text.Lower: handles ASCII letters only. Full Unicode `toLowerCase` is not modelled.
- Text.Trim: uses a fixed set of whitespace characters, not the full Unicode `White_Space` and line-terminator sets of `trim`.
- Suggestions.LessEq: compares Dafny characters, not UTF-16 code units. The two orders differ only outside the Basic Multilingual Plane.
- Pagination.Page: requires a page number of at least 1, so JavaScript's negative `slice` indices are not modelled. Every page the handlers can reach is at least 1.
- View.Render: in the no-results state the buttons keep their previous disabled flags, which are hidden. The model does not track them.
- Filtering.QueryTest: records map field names to strings. `String(val)` of numbers, booleans or nested values is not modelled.
