/**
 * The filter engine (app.js `applyFilters`): a stable filter that ANDs a
 * text search, a category match and an inclusive date range. The four DOM
 * inputs are passed in as `Criteria`.
 */
module Filters {
  import opened Wrappers
  import opened Lists
  import opened Text
  import opened Investments

  /** A date input: an empty field sets no bound; otherwise `new Date(value)`, possibly Invalid. */
  datatype DateBound = Unset | Bound(at: Date)

  /** The raw values of the search box, category select and the two date inputs. */
  datatype Criteria = Criteria(search: string, category: string, from: DateBound, to: DateBound)

  /** The search text as the filter uses it: trimmed, then lower-cased. */
  function Query(c: Criteria): string
  {
    ToLower(Trim(c.search))
  }

  /** The text searched in a record: its name, a space, and its notes (or nothing). */
  function Haystack(inv: Investment): string
  {
    ToLower(inv.name + " " + inv.notes.GetOr(""))
  }

  /** `a >= b` on two Date objects: false whenever either is Invalid (NaN). */
  predicate NotBefore(a: Date, b: Date)
  {
    a.Some? && b.Some? && a.value >= b.value
  }

  /** The callback given to `list.filter`, once the search text has become the query `q`. */
  predicate Passes(q: string, category: string, from: DateBound, to: DateBound, inv: Investment)
  {
    var ok := true;
    var ok := if q != "" then ok && Contains(Haystack(inv), q) else ok;
    var ok := if category != "" then ok && inv.category == category else ok;
    var ok := if from.Bound? then ok && NotBefore(inv.date, from.at) else ok;
    var ok := if to.Bound? then ok && NotBefore(to.at, inv.date) else ok;
    ok
  }

  /** The callback given to `list.filter`: each active criterion can only turn `ok` false. */
  predicate Matches(c: Criteria, inv: Investment)
  {
    Passes(Query(c), c.category, c.from, c.to, inv)
  }

  /** `applyFilters`: the records that pass every active criterion, in list order. */
  function ApplyFilters(list: seq<Investment>, c: Criteria): (r: seq<Investment>)
    ensures |r| <= |list|
  {
    Keep(list, inv => Matches(c, inv))
  }

  /** A record passes exactly when it satisfies each criterion that is switched on. */
  lemma MatchesIff(c: Criteria, inv: Investment)
    ensures Matches(c, inv) <==>
      && (Query(c) != "" ==> Contains(Haystack(inv), Query(c)))
      && (c.category != "" ==> inv.category == c.category)
      && (c.from.Bound? ==> inv.date.Some? && c.from.at.Some? && inv.date.value >= c.from.at.value)
      && (c.to.Bound? ==> inv.date.Some? && c.to.at.Some? && inv.date.value <= c.to.at.value)
  {
  }

  /**
   * The result is an order-preserving subsequence of the input holding exactly
   * the records that match.
   */
  lemma ApplyFiltersSpec(list: seq<Investment>, c: Criteria)
    ensures IsSubsequence(ApplyFilters(list, c), list)
    ensures forall inv :: inv in ApplyFilters(list, c) <==> inv in list && Matches(c, inv)
  {
    KeepIsSubsequence(list, inv => Matches(c, inv));
    forall inv ensures inv in ApplyFilters(list, c) <==> inv in list && Matches(c, inv) {
      KeepMembers(list, inv => Matches(c, inv), inv);
    }
  }

  /** Filtering distributes over concatenation, so it commutes with appending a record. */
  lemma ApplyFiltersAppend(a: seq<Investment>, b: seq<Investment>, c: Criteria)
    ensures ApplyFilters(a + b, c) == ApplyFilters(a, c) + ApplyFilters(b, c)
  {
    KeepAppend(a, b, inv => Matches(c, inv));
  }

  /** With a blank (or all white-space) search, no category and no dates the list comes back unchanged. */
  lemma NoCriteriaIsIdentity(list: seq<Investment>, search: string)
    requires AllSpace(search)
    ensures ApplyFilters(list, Criteria(search, "", Unset, Unset)) == list
  {
    TrimIsSlice(search);
    KeepAll(list, inv => Matches(Criteria(search, "", Unset, Unset), inv));
  }

  /** Applying the filters twice is applying them once. */
  lemma ApplyFiltersIdempotent(list: seq<Investment>, c: Criteria)
    ensures ApplyFilters(ApplyFilters(list, c), c) == ApplyFilters(list, c)
  {
    KeepIdempotent(list, inv => Matches(c, inv));
  }

  /** The search ignores case: any search text with the same lower-case form selects the same records. */
  lemma {:induction false} QueryCaseInsensitive(c: Criteria, search: string, inv: Investment)
    requires ToLower(search) == ToLower(c.search)
    ensures Matches(c.(search := search), inv) == Matches(c, inv)
  {
    SameQuery(search, c.search);
  }

  /** Two search texts with the same lower-case form give the same query. */
  lemma {:induction false} SameQuery(s: string, t: string)
    requires ToLower(s) == ToLower(t)
    ensures ToLower(Trim(s)) == ToLower(Trim(t))
  {
    TrimToLower(s);
    TrimToLower(t);
    ToLowerIdempotent(Trim(s));
    ToLowerIdempotent(Trim(t));
  }

  /** Typing the search in lower case changes nothing. */
  lemma {:induction false} LowerCaseQuery(c: Criteria, inv: Investment)
    ensures Matches(c.(search := ToLower(c.search)), inv) == Matches(c, inv)
  {
    ToLowerIdempotent(c.search);
    QueryCaseInsensitive(c, ToLower(c.search), inv);
  }

  /** The case of a record's name and notes does not affect whether it matches. */
  lemma {:induction false} RecordCaseInsensitive(c: Criteria, a: Investment, b: Investment)
    requires ToLower(a.name) == ToLower(b.name)
    requires ToLower(a.notes.GetOr("")) == ToLower(b.notes.GetOr(""))
    requires a.category == b.category && a.date == b.date
    ensures Matches(c, a) == Matches(c, b)
  {
    ToLowerAppend(a.name + " ", a.notes.GetOr(""));
    ToLowerAppend(a.name, " ");
    ToLowerAppend(b.name + " ", b.notes.GetOr(""));
    ToLowerAppend(b.name, " ");
  }

  /** A record whose date does not parse fails every date bound that is set. */
  lemma InvalidDateFailsBounds(c: Criteria, inv: Investment)
    requires inv.date.None?
    requires c.from.Bound? || c.to.Bound?
    ensures !Matches(c, inv)
  {
  }

  /** A date field that does not parse sets a bound no record meets, so nothing is shown. */
  lemma InvalidBoundShowsNothing(list: seq<Investment>, c: Criteria)
    requires (c.from.Bound? && c.from.at.None?) || (c.to.Bound? && c.to.at.None?)
    ensures ApplyFilters(list, c) == []
  {
    KeepNone(list, inv => Matches(c, inv));
  }
}
