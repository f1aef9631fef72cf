# Dynamic quote page: the quote store

A verified Dafny model of the logic inside `dom-manipulation/script.js`, the
script of a page that shows random quotes and lets the user add new ones.
Behind the DOM wiring the script keeps a small in-memory store:

- `quotes`, a list of records with a `text` and a `category`;
- the values of the category selector's `<option>` elements, modelled as the
  sequence `options`.

Four operations act on that store, and all four are modelled:

- **Show a random quote** (`displayRandomQuote`). The selected value `"all"`
  means no filtering. It is compared exactly, so `"All"` is not the sentinel.
  Any other value keeps the quotes whose category equals it ignoring case.
  An empty result shows the "no quotes" message. Otherwise the quote at a
  random index of the filtered list is shown.
- **Add a quote** (`addQuote`). Both fields are trimmed, and the quote is
  rejected if either one is empty. Otherwise the quote is appended. Its
  category becomes a new option only if no existing option equals it
  ignoring case.
- **Populate the selector on load** (the `DOMContentLoaded` handler). It appends
  one option per distinct category, in order of first occurrence. Here
  distinctness is the exact, case-sensitive equality of a JavaScript `Set`.
- **Filter** and **pick**, the two pure steps inside the first operation.

The two de-duplications disagree on case. Loading keeps `"Life"` and `"life"`
as two options, but adding a quote filed under `"life"` next to a `"Life"`
option adds nothing. `Quotes.CaseSensitivityDiffers` states both outcomes.

Layout:

- `text.dfy`, module `Text`: `trim` and `toLowerCase`. `trim` removes exactly
  the ECMAScript white-space and line-terminator characters. `toLowerCase`
  maps only the ASCII letters.
- `quotes.dfy`, module `Quotes`: the records, the filter, the two category
  de-duplications and the class `QuoteStore`. The class holds the `quotes`
  and `options` fields, and its methods modify them as the script does.

The class keeps two invariants, stated as ghost predicates:

- `WellFormed`: every stored quote has a trimmed, non-empty text and category.
  The initial quotes satisfy it, and `AddQuote` preserves it.
- `CategoriesSelectable`: every stored quote's category matches some option
  ignoring case. `PopulateCategories` establishes it, and `AddQuote`
  preserves it.

## Model

| member | source | states |
|---|---|---|
| `Text.Trim` | dom-manipulation/script.js:37-38 | the trimmed field is no longer than the raw one and neither starts nor ends with white space |
| `Text.TrimCutsOnlyWhiteSpace` | dom-manipulation/script.js:37-38 | the trimmed field is the slice of the raw one that starts after its leading white space, and only white space is cut from either end |
| `Text.TrimIdempotent` | dom-manipulation/script.js:37-38 | trimming an already trimmed field changes nothing |
| `Text.TrimEmptyIffBlank` | dom-manipulation/script.js:37-40 | a trimmed field is empty exactly when the raw field is all white space, which is exactly when the quote is rejected |
| `Text.ToLower` | dom-manipulation/script.js:20 | lower-casing keeps the length, leaves no upper-case ASCII letter, keeps every other character and shifts A-Z by 32 |
| `Text.EqualsIgnoreCase` | dom-manipulation/script.js:20 | definition of the comparison `a.toLowerCase() === b.toLowerCase()` used at lines 20 and 50; equal strings compare equal, and strings that compare equal have the same length |
| `Text.EqualsIgnoreCaseCharwise` | dom-manipulation/script.js:20 | two strings compare equal after lower-casing if and only if they have the same length and agree character by character up to ASCII case |
| `Quotes.InCategory` | dom-manipulation/script.js:20 | definition of the filter callback; a quote whose category is exactly the selected value passes, and a passing category has the selected value's length |
| `Quotes.FilterByCategory` | dom-manipulation/script.js:19-21 | every kept quote's category equals the selected value ignoring case, and the result is no longer than the list |
| `Quotes.FilterByCategoryIsSelection` | dom-manipulation/script.js:19-21 | the filter returns the quotes at strictly increasing positions of the list, each once and in the original order, and those positions are exactly the ones whose category matches ignoring case |
| `Quotes.FilterQuotes` | dom-manipulation/script.js:16-22 | for the exact value "all" the list to draw from is the whole quote list, order included; otherwise every quote in it matches the selected category ignoring case |
| `Quotes.FilterQuotesSelects` | dom-manipulation/script.js:18-22 | outside "all", a quote is in the filtered list if and only if it is stored and its category matches ignoring case, with the original order kept |
| `Quotes.QuoteStore.DisplayRandomQuote` | dom-manipulation/script.js:14-30 | the "no quotes" outcome happens exactly when the store is empty (for "all") or no stored quote matches the category; otherwise the shown quote is the filtered list's element at the drawn in-range index, it is stored, and it matches the category |
| `Quotes.QuoteStore.AddQuote` | dom-manipulation/script.js:36-58 | a quote is added if and only if both trimmed fields are non-empty; a rejected quote leaves quotes and options unchanged; an accepted one appends exactly `(trim(text), trim(category))` at the end, updates the options as `AddOption` does, and preserves both store invariants |
| `Quotes.CategoryExists` | dom-manipulation/script.js:49-51 | definition of the `some` test over the options; an option equal to the category makes it true, and it is false on an empty option list |
| `Quotes.AddOption` | dom-manipulation/script.js:49-58 | after an addition the category is offered ignoring case; the old options stay as a prefix; the list grows by exactly one entry, the trimmed category, if and only if no existing option matched it ignoring case |
| `Quotes.AddOptionIdempotent` | dom-manipulation/script.js:49-58 | adding again a category that equals, ignoring case, one just added leaves the options unchanged |
| `Quotes.AddOptionKeepsNoCaseDuplicates` | dom-manipulation/script.js:49-58 | if no two options are equal ignoring case, none are after an addition |
| `Quotes.Categories` | dom-manipulation/script.js:71 | the mapped list has one category per quote, in the same order |
| `Quotes.Distinct` | dom-manipulation/script.js:71 | the set-based list holds exactly the categories that occur, each exactly once, compared exactly |
| `Quotes.DistinctKeepsFirstOccurrenceOrder` | dom-manipulation/script.js:71 | the distinct categories appear in the order of their first occurrences in the quote list |
| `Quotes.QuoteStore.PopulateCategories` | dom-manipulation/script.js:70-77 | the load handler leaves quotes unchanged, appends the distinct categories after the existing options in first-occurrence order; afterwards every quote's category is offered, and each quote is shown in the filtered list of an option matching its category |
| `Quotes.CaseSensitivityDiffers` | dom-manipulation/script.js:49-71 | load-time de-duplication keeps "Life" and "life" as two options, while adding "life" next to "Life" adds nothing |
| `Quotes.AllOfferedAdd` | dom-manipulation/script.js:46-58 | if every stored quote's category is offered, it still is after a quote is appended and its category added |
| `Quotes.SelectableQuoteIsReachable` | dom-manipulation/script.js:18-22 | a stored quote is in the filtered list of every option whose value equals its category ignoring case |
| `Quotes.OfferedQuotesReachable` | dom-manipulation/script.js:18-22 | when every stored category is offered, each stored quote appears in the filtered list of an option that matches its category ignoring case |
| `Quotes.InitialQuotesAccepted` | dom-manipulation/script.js:2-6 | the three initial quotes have trimmed, non-empty text and category, as the add path would accept them |
| `Quotes.QuoteStore.constructor` | dom-manipulation/script.js:2-6 | the store starts with the three initial quotes and the options written in the page markup, and it is well formed |

## Left out

- DOM lookups, event listeners, `alert` and the HTML written into the display
  region are not modelled. The outcome datatypes `Display` and `AddOutcome`
  stand for what is shown.
- Clearing the two input fields after an addition (lines 61-62) touches only
  the DOM and is not modelled.
- The options written in the page markup (such as the `"all"` option) are not
  part of the script. They are a constructor parameter.
- `Math.random` and `Math.floor` (line 29) are not modelled. The caller
  supplies the drawn index, which must lie in the filtered list whenever that
  list is non-empty. Uniformity of the draw is not modelled.
- `Text.ToLower`: does not model Unicode case mapping beyond ASCII A-Z, because
  the full Unicode tables are out of scope; non-ASCII letters are kept as they
  are.
- The three initial texts are written as concatenations of two literals. They
  are the same strings; this only keeps the proof about them small.
