/**
  The in-memory quote store of the dynamic quote page: the list of quote
  records, the category filter and random pick behind the "Show New Quote"
  button, the validation and de-duplication done when a quote is added, and
  the category list built when the page loads.
*/
module Quotes {
  import opened Text

  /** A quote record: free text and the category it is filed under. */
  datatype Quote = Quote(text: string, category: string)

  /** What the display region shows after a request for a random quote. */
  datatype Display =
    | NoQuotes            // "No quotes available in this category."
    | Shown(quote: Quote) // the picked quote, rendered with its category

  /** What `addQuote` reports to the user. */
  datatype AddOutcome =
    | MissingField // "Please enter both quote text and category."
    | Added        // "New quote added!"

  /** The selector value that stands for "no filtering". */
  const AllCategories: string := "all"

  /** The quotes the page starts with (the long texts are written in two
      pieces only to keep the verifier's reasoning about literals short). */
  const InitialQuotes: seq<Quote> := [
    Quote("The only limit to our realization " + "of tomorrow is our doubts of today.", "Motivation"),
    Quote("Life is what happens when " + "you're busy making other plans.", "Life"),
    Quote("Code is like humor. " + "When you have to explain it, it\U{2019}s bad.", "Programming")
  ]

  // ---------------------------------------------------------------------
  // Filtering by category
  // ---------------------------------------------------------------------

  /** The filter test: the categories agree after lower-casing both. */
  predicate InCategory(q: Quote, selected: string)
    ensures q.category == selected ==> InCategory(q, selected)
    ensures InCategory(q, selected) ==> |q.category| == |selected|
  {
    EqualsIgnoreCase(q.category, selected)
  }

  /** `quotes.filter(...)` with the case-insensitive category test. */
  function FilterByCategory(qs: seq<Quote>, selected: string): (r: seq<Quote>)
    ensures |r| <= |qs|
    ensures forall k :: 0 <= k < |r| ==> InCategory(r[k], selected)
  {
    if qs == [] then []
    else
      var r := FilterByCategory(qs[..|qs| - 1], selected);
      if InCategory(qs[|qs| - 1], selected) then r + [qs[|qs| - 1]] else r
  }

  /** The positions in `qs` of the quotes in the selected category, in
      increasing order (a specification device for the filter). */
  ghost function CategoryPositions(qs: seq<Quote>, selected: string): seq<nat>
  {
    if qs == [] then []
    else
      var p := CategoryPositions(qs[..|qs| - 1], selected);
      if InCategory(qs[|qs| - 1], selected) then p + [|qs| - 1] else p
  }

  /** `r` is the subsequence of `qs` taken at the strictly increasing
      positions `p`, and `p` holds exactly the positions whose quote is in
      the selected category. */
  ghost predicate IsCategorySelection(qs: seq<Quote>, selected: string, p: seq<nat>, r: seq<Quote>) {
    && |p| == |r|
    && (forall k :: 0 <= k < |p| ==> p[k] < |qs| && r[k] == qs[p[k]])
    && (forall k, l :: 0 <= k < l < |p| ==> p[k] < p[l])
    && (forall i :: 0 <= i < |qs| ==> (i in p <==> InCategory(qs[i], selected)))
  }

  /** The filter keeps exactly the quotes in the category, each once, in
      their original order. */
  lemma {:induction false} FilterByCategoryIsSelection(qs: seq<Quote>, selected: string)
    ensures IsCategorySelection(qs, selected, CategoryPositions(qs, selected), FilterByCategory(qs, selected))
  {
    if qs != [] {
      var init := qs[..|qs| - 1];
      FilterByCategoryIsSelection(init, selected);
      var p0 := CategoryPositions(init, selected);
      assert forall k :: 0 <= k < |p0| ==> p0[k] < |init|;
      assert forall i :: 0 <= i < |init| ==> init[i] == qs[i];
    }
  }

  /** The list `displayRandomQuote` draws from: the whole list for the
      sentinel "all" (exact, case-sensitive comparison), the case-insensitive
      category filter otherwise. */
  function FilterQuotes(qs: seq<Quote>, selected: string): (r: seq<Quote>)
    ensures selected == AllCategories ==> r == qs
    ensures selected != AllCategories ==> forall q :: q in r ==> InCategory(q, selected)
  {
    if selected == AllCategories then qs else FilterByCategory(qs, selected)
  }

  /** Outside the sentinel, the filtered list is the order-preserving
      selection of exactly the quotes whose category matches ignoring case;
      in particular every such quote is in it. */
  lemma FilterQuotesSelects(qs: seq<Quote>, selected: string)
    requires selected != AllCategories
    ensures IsCategorySelection(qs, selected, CategoryPositions(qs, selected), FilterQuotes(qs, selected))
    ensures forall q :: q in FilterQuotes(qs, selected) <==> q in qs && InCategory(q, selected)
  {
    FilterByCategoryIsSelection(qs, selected);
    var p := CategoryPositions(qs, selected);
    var r := FilterQuotes(qs, selected);
    forall q | q in qs && InCategory(q, selected) ensures q in r {
      var i :| 0 <= i < |qs| && qs[i] == q;
      assert i in p;
      var k :| 0 <= k < |p| && p[k] == i;
      assert r[k] == q;
    }
    forall q | q in r ensures q in qs {
      var k :| 0 <= k < |r| && r[k] == q;
      assert qs[p[k]] == q;
    }
  }

  // ---------------------------------------------------------------------
  // Categories offered by the selector
  // ---------------------------------------------------------------------

  /** `quotes.map((q) => q.category)`. */
  function Categories(qs: seq<Quote>): (r: seq<string>)
    ensures |r| == |qs|
    ensures forall i :: 0 <= i < |qs| ==> r[i] == qs[i].category
  {
    seq(|qs|, i requires 0 <= i < |qs| => qs[i].category)
  }

  /** The index of the first occurrence of `x` in `s`. */
  function FirstIndex(s: seq<string>, x: string): (r: nat)
    requires x in s
    ensures r < |s| && s[r] == x
    ensures forall k :: 0 <= k < r ==> s[k] != x
  {
    if s[0] == x then 0 else 1 + FirstIndex(s[1..], x)
  }

  /** `[...new Set(s)]`: the values of `s` with exact (case-sensitive)
      duplicates removed, each kept at its first occurrence. */
  function Distinct(s: seq<string>): (r: seq<string>)
    ensures forall x :: x in r <==> x in s
    ensures forall i, j :: 0 <= i < j < |r| ==> r[i] != r[j]
  {
    if s == [] then []
    else
      var r := Distinct(s[..|s| - 1]);
      if s[|s| - 1] in r then r else r + [s[|s| - 1]]
  }

  /** Appending to a list does not move the first occurrence of a value it
      already held. */
  lemma FirstIndexAppend(s: seq<string>, x: string, y: string)
    requires y in s
    ensures FirstIndex(s + [x], y) == FirstIndex(s, y)
  {
    var b := FirstIndex(s, y);
    assert (s + [x])[b] == y;
  }

  /** The distinct values appear in the order of their first occurrence. */
  lemma {:induction false} DistinctKeepsFirstOccurrenceOrder(s: seq<string>)
    ensures forall i, j :: 0 <= i < j < |Distinct(s)| ==>
              FirstIndex(s, Distinct(s)[i]) < FirstIndex(s, Distinct(s)[j])
  {
    if s != [] {
      var init, x := s[..|s| - 1], s[|s| - 1];
      assert s == init + [x];
      DistinctKeepsFirstOccurrenceOrder(init);
      var d := Distinct(init);
      forall y | y in d ensures FirstIndex(s, y) == FirstIndex(init, y) {
        FirstIndexAppend(init, x, y);
      }
      if x !in d {
        assert FirstIndex(s, x) == |init|;
      }
    }
  }

  /** `[...options].some((opt) => opt.value.toLowerCase() === category.toLowerCase())`. */
  predicate CategoryExists(options: seq<string>, category: string)
    ensures category in options ==> CategoryExists(options, category)
    ensures CategoryExists(options, category) ==> options != []
  {
    exists o :: o in options && EqualsIgnoreCase(o, category)
  }

  /** The option list after `addQuote` offers `category`: unchanged when an
      option already matches it ignoring case, one entry longer otherwise. */
  function AddOption(options: seq<string>, category: string): (r: seq<string>)
    ensures CategoryExists(r, category)
    ensures |options| <= |r| <= |options| + 1 && r[..|options|] == options
    ensures |r| == |options| + 1 <==> !CategoryExists(options, category)
    ensures |r| == |options| + 1 ==> r[|options|] == category
  {
    if CategoryExists(options, category) then options
    else
      assert category in options + [category];
      options + [category]
  }

  /** Whatever was offered before an addition is still offered after it. */
  lemma AddOptionKeepsOffered(options: seq<string>, category: string)
    ensures forall c :: CategoryExists(options, c) ==> CategoryExists(AddOption(options, category), c)
  {
  }

  /** Adding a category that matches, ignoring case, one just added changes
      nothing: the option list is idempotent under repeated additions. */
  lemma AddOptionIdempotent(options: seq<string>, category: string, again: string)
    requires EqualsIgnoreCase(category, again)
    ensures AddOption(AddOption(options, category), again) == AddOption(options, category)
  {
    var o := AddOption(options, category);
    var w :| w in o && EqualsIgnoreCase(w, category);
    assert EqualsIgnoreCase(w, again);
  }

  /** No two options equal ignoring case. */
  ghost predicate NoCaseDuplicates(options: seq<string>) {
    forall i, j :: 0 <= i < j < |options| ==> !EqualsIgnoreCase(options[i], options[j])
  }

  /** Adding through `addQuote` never creates two options that differ only in
      case. */
  lemma AddOptionKeepsNoCaseDuplicates(options: seq<string>, category: string)
    requires NoCaseDuplicates(options)
    ensures NoCaseDuplicates(AddOption(options, category))
  {
    var r := AddOption(options, category);
    if |r| == |options| + 1 {
      forall i | 0 <= i < |options| ensures !EqualsIgnoreCase(r[i], r[|options|]) {
        assert r[i] in options;
      }
    }
  }

  /** The two de-duplications disagree on case: the load-time list keeps
      "Life" and "life" apart, while adding "life" to an option list that
      holds "Life" adds nothing. */
  lemma CaseSensitivityDiffers()
    ensures Distinct(["Life", "life"]) == ["Life", "life"]
    ensures AddOption(["Life"], "life") == ["Life"]
    ensures !NoCaseDuplicates(Distinct(["Life", "life"]))
  {
    assert ["Life", "life"][..1] == ["Life"];
    assert "Life" != "life" by { assert "Life"[0] != "life"[0]; }
    assert ToLower("Life") == "life";
    assert ToLower("life") == "life";
    assert "Life" in ["Life"];
  }

  /** A quote whose category matches some option ignoring case can be
      reached by selecting that option. */
  lemma SelectableQuoteIsReachable(qs: seq<Quote>, options: seq<string>, q: Quote)
    requires q in qs && CategoryExists(options, q.category)
    ensures forall o :: o in options && EqualsIgnoreCase(o, q.category) ==> q in FilterQuotes(qs, o)
  {
    forall o | o in options && EqualsIgnoreCase(o, q.category) ensures q in FilterQuotes(qs, o) {
      if o != AllCategories {
        FilterQuotesSelects(qs, o);
      }
    }
  }

  /** When every stored category is offered, each stored quote is shown in
      the filtered list of an option that matches its category. */
  lemma OfferedQuotesReachable(qs: seq<Quote>, options: seq<string>)
    requires AllOffered(qs, options)
    ensures forall q :: q in qs ==>
              exists o :: o in options && EqualsIgnoreCase(o, q.category) && q in FilterQuotes(qs, o)
  {
    forall q | q in qs
      ensures exists o :: o in options && EqualsIgnoreCase(o, q.category) && q in FilterQuotes(qs, o)
    {
      SelectableQuoteIsReachable(qs, options, q);
    }
  }

  // ---------------------------------------------------------------------
  // The store
  // ---------------------------------------------------------------------

  /** A field as `addQuote` accepts it: trimmed and not empty. */
  ghost predicate IsAcceptedField(s: string) {
    s != [] && Trim(s) == s
  }

  /** A trimmed field that is not empty is of the accepted form. */
  lemma TrimmedFieldAccepted(raw: string)
    requires Trim(raw) != []
    ensures IsAcceptedField(Trim(raw))
  {
    TrimIdempotent(raw);
  }

  /** Every quote in `qs` has fields of the accepted form. */
  ghost predicate AllAccepted(qs: seq<Quote>) {
    forall q :: q in qs ==> IsAcceptedField(q.text) && IsAcceptedField(q.category)
  }

  /** Every quote in `qs` has its category offered by `options`, ignoring case. */
  ghost predicate AllOffered(qs: seq<Quote>, options: seq<string>) {
    forall q :: q in qs ==> CategoryExists(options, q.category)
  }

  /** Appending an accepted quote keeps every quote accepted. */
  lemma AllAcceptedAppend(qs: seq<Quote>, q: Quote)
    requires AllAccepted(qs) && IsAcceptedField(q.text) && IsAcceptedField(q.category)
    ensures AllAccepted(qs + [q])
  {
  }

  /** Appending a quote and adding its category as `addQuote` does keeps
      every category offered. */
  lemma AllOfferedAdd(qs: seq<Quote>, options: seq<string>, q: Quote)
    requires AllOffered(qs, options)
    ensures AllOffered(qs + [q], AddOption(options, q.category))
  {
    AddOptionKeepsOffered(options, q.category);
  }

  /** The initial quotes are all of the form `addQuote` accepts. */
  lemma InitialQuotesAccepted()
    ensures AllAccepted(InitialQuotes)
  {
    forall k | 0 <= k < |InitialQuotes|
      ensures IsAcceptedField(InitialQuotes[k].text) && IsAcceptedField(InitialQuotes[k].category)
    {
      var q := InitialQuotes[k];
      TrimKeepsUnpadded(q.text);
      TrimKeepsUnpadded(q.category);
    }
  }

  /** The quote list and the values of the category selector's options. */
  class QuoteStore {
    var quotes: seq<Quote>
    var options: seq<string>

    /** Every stored quote has trimmed, non-empty text and category. */
    ghost predicate WellFormed()
      reads this
    {
      AllAccepted(quotes)
    }

    /** Every stored quote's category matches some option ignoring case. */
    ghost predicate CategoriesSelectable()
      reads this
    {
      AllOffered(quotes, options)
    }

    /** The page as loaded: the initial quotes, and the options written in the
        page markup (which the script does not define). */
    constructor (markupOptions: seq<string>)
      ensures quotes == InitialQuotes && options == markupOptions
      ensures WellFormed()
    {
      quotes := InitialQuotes;
      options := markupOptions;
      InitialQuotesAccepted();
    }

    /** `displayRandomQuote`: filter by the selected value, then show the
        quote at the drawn index, or the "no quotes" message when the filter
        keeps nothing. `draw` stands for `Math.floor(Math.random() * n)`. */
    method DisplayRandomQuote(selected: string, draw: nat) returns (d: Display)
      requires FilterQuotes(quotes, selected) != [] ==> draw < |FilterQuotes(quotes, selected)|
      ensures d == NoQuotes <==>
                if selected == AllCategories then quotes == []
                else forall q :: q in quotes ==> !InCategory(q, selected)
      ensures d.Shown? ==> FilterQuotes(quotes, selected) != [] && d.quote == FilterQuotes(quotes, selected)[draw] && d.quote in quotes
      ensures d.Shown? && selected != AllCategories ==> InCategory(d.quote, selected)
    {
      var filtered := FilterQuotes(quotes, selected);
      if selected != AllCategories {
        FilterQuotesSelects(quotes, selected);
      }
      if |filtered| == 0 {
        return NoQuotes;
      }
      d := Shown(filtered[draw]);
    }

    /** `addQuote`: trim both fields; reject when either is empty; otherwise
        append the quote and add its category to the selector unless an
        option already matches it ignoring case. */
    method AddQuote(rawText: string, rawCategory: string) returns (outcome: AddOutcome)
      modifies this
      ensures outcome == Added <==> Trim(rawText) != [] && Trim(rawCategory) != []
      ensures outcome == MissingField ==> quotes == old(quotes) && options == old(options)
      ensures outcome == Added ==> quotes == old(quotes) + [Quote(Trim(rawText), Trim(rawCategory))]
      ensures outcome == Added ==> options == AddOption(old(options), Trim(rawCategory))
      ensures old(WellFormed()) ==> WellFormed()
      ensures old(CategoriesSelectable()) ==> CategoriesSelectable()
    {
      var text := Trim(rawText);
      var category := Trim(rawCategory);
      if text == [] || category == [] {
        return MissingField;
      }
      quotes := quotes + [Quote(text, category)];
      if !CategoryExists(options, category) {
        options := options + [category];
      }
      outcome := Added;
      assert options == AddOption(old(options), category);
      if old(WellFormed()) {
        TrimmedFieldAccepted(rawText);
        TrimmedFieldAccepted(rawCategory);
        AllAcceptedAppend(old(quotes), Quote(text, category));
      }
      if old(CategoriesSelectable()) {
        AllOfferedAdd(old(quotes), old(options), Quote(text, category));
      }
    }

    /** The `DOMContentLoaded` handler: append one option per distinct
        category, in order of first occurrence, without looking at the
        options already present. */
    method PopulateCategories()
      modifies this
      ensures quotes == old(quotes)
      ensures options == old(options) + Distinct(Categories(quotes))
      ensures CategoriesSelectable()
      ensures forall q :: q in quotes ==>
                exists o :: o in options && EqualsIgnoreCase(o, q.category) && q in FilterQuotes(quotes, o)
    {
      var categories := Distinct(Categories(quotes));
      for i := 0 to |categories|
        invariant quotes == old(quotes)
        invariant options == old(options) + categories[..i]
      {
        options := options + [categories[i]];
      }
      assert categories[..|categories|] == categories;
      forall q | q in quotes ensures CategoryExists(options, q.category) {
        var i :| 0 <= i < |quotes| && quotes[i] == q;
        assert Categories(quotes)[i] == q.category;
        assert q.category in options;
      }
      OfferedQuotesReachable(quotes, options);
    }
  }
}
