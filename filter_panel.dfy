/**
 * components/filter-panel.tsx: the filter options the page applies, the
 * panel's state updaters (each a function from the previous state to the
 * next), the list of domains offered, and whether any filter is active.
 */
module FilterPanel {
  import opened Wrappers
  import opened Text
  import opened Seqs
  import opened Dates
  import opened Firebase

  datatype SortBy = ByDate | ByDomain
  datatype SortOrder = Asc | Desc

  /** A complete date range, both bounds inclusive. */
  datatype DateRange = DateRange(from: TimeValue, to: TimeValue)

  datatype FilterOptions = FilterOptions(
    domain: Option<string>,
    dateRange: Option<DateRange>,
    sortBy: SortBy,
    sortOrder: SortOrder)

  /** The calendar's selection so far, in which either end may be missing. */
  datatype PickedRange = PickedRange(from: Option<TimeValue>, to: Option<TimeValue>)

  /** The panel's two pieces of state: the filters and the calendar selection. */
  datatype PanelState = PanelState(filters: FilterOptions, picked: PickedRange)

  /** The filters the panel starts with: newest first, nothing selected. */
  const InitialFilters: FilterOptions := FilterOptions(None, None, ByDate, Desc)

  const NoPick: PickedRange := PickedRange(None, None)

  const InitialState: PanelState := PanelState(InitialFilters, NoPick)

  /** The value of the domain selector's "All domains" entry. */
  const AllDomains: string := "all"

  /** JavaScript truthiness of an optional string: present and not empty. */
  predicate IsSet(s: Option<string>) {
    s.Some? && s.value != ""
  }

  /** `handleDomainChange(value)`. */
  function DomainChange(state: PanelState, value: string): (next: PanelState)
    ensures value == AllDomains ==> next.filters.domain == None
    ensures value != AllDomains ==> next.filters.domain == Some(value)
    ensures next == state.(filters := next.filters)
    ensures next.filters == state.filters.(domain := next.filters.domain)
  {
    state.(filters := state.filters.(domain := if value == AllDomains then None else Some(value)))
  }

  /** `handleDateRangeChange(range)`: the calendar keeps what was picked; the filter needs both ends. */
  function DateRangeChange(state: PanelState, range: PickedRange): (next: PanelState)
    ensures next.picked == range
    ensures next.filters.dateRange.Some? <==> range.from.Some? && range.to.Some?
    ensures next.filters.dateRange.Some? ==>
      next.filters.dateRange.value == DateRange(range.from.value, range.to.value)
    ensures next.filters == state.filters.(dateRange := next.filters.dateRange)
  {
    PanelState(
      state.filters.(dateRange :=
        if range.from.Some? && range.to.Some? then Some(DateRange(range.from.value, range.to.value)) else None),
      range)
  }

  /** `handleSortChange(sortBy)`. */
  function SortChange(state: PanelState, sortBy: SortBy): (next: PanelState)
    ensures next.filters.sortBy == sortBy
    ensures next.filters.sortOrder == state.filters.sortOrder
    ensures next.filters.domain == state.filters.domain
    ensures next.filters.dateRange == state.filters.dateRange
    ensures next.picked == state.picked
  {
    state.(filters := state.filters.(sortBy := sortBy))
  }

  /** `handleSortOrderChange(sortOrder)`. */
  function SortOrderChange(state: PanelState, sortOrder: SortOrder): (next: PanelState)
    ensures next.filters.sortOrder == sortOrder
    ensures next.filters.sortBy == state.filters.sortBy
    ensures next.filters.domain == state.filters.domain
    ensures next.filters.dateRange == state.filters.dateRange
    ensures next.picked == state.picked
  {
    state.(filters := state.filters.(sortOrder := sortOrder))
  }

  /** `clearFilters()`: whatever came before, the panel is back where it started. */
  function ClearFilters(state: PanelState): (next: PanelState)
    ensures next == InitialState
    ensures !HasActiveFilters(next.filters)
  {
    PanelState(FilterOptions(None, None, ByDate, Desc), PickedRange(None, None))
  }

  /** `hasActiveFilters`: a non-empty domain or a date range is chosen. */
  predicate HasActiveFilters(f: FilterOptions) {
    IsSet(f.domain) || f.dateRange.Some?
  }

  /** After choosing a domain, a filter is active iff the choice is a real, non-empty domain or a range was already set. */
  lemma ActiveAfterDomainChange(state: PanelState, value: string)
    ensures HasActiveFilters(DomainChange(state, value).filters) <==>
      (value != AllDomains && value != "") || state.filters.dateRange.Some?
  {
  }

  /** After picking dates, a filter is active iff both ends are picked or a domain was already set. */
  lemma ActiveAfterDateRangeChange(state: PanelState, range: PickedRange)
    ensures HasActiveFilters(DateRangeChange(state, range).filters) <==>
      (range.from.Some? && range.to.Some?) || IsSet(state.filters.domain)
  {
  }

  /** Clearing twice is clearing once. */
  lemma ClearFiltersIdempotent(state: PanelState)
    ensures ClearFilters(ClearFilters(state)) == ClearFilters(state)
  {
  }

  /** Choosing "All domains" undoes choosing a domain. */
  lemma DomainChangeUndone(state: PanelState, d: string)
    requires state.filters.domain == None
    ensures DomainChange(DomainChange(state, d), AllDomains) == state
  {
  }

  // ---------------------------------------------------------------------
  // The domain selector's entries
  // ---------------------------------------------------------------------

  /** No two positions out of UTF-16 code-unit order, no value twice. */
  predicate StrictlyAscending(s: seq<string>) {
    forall i, j :: 0 <= i < j < |s| ==> CompareStrings(s[i], s[j]) < 0
  }

  predicate Ascending(s: seq<string>) {
    forall i, j :: 0 <= i < j < |s| ==> CompareStrings(s[i], s[j]) <= 0
  }

  /** Places `x` into an ascending sequence. */
  function Insert(x: string, s: seq<string>): (r: seq<string>)
    requires Ascending(s)
    ensures Ascending(r)
    ensures multiset(r) == multiset(s) + multiset{x}
    decreases |s|
  {
    if s == [] then [x]
    else if CompareStrings(x, s[0]) <= 0 then
      InsertFront(x, s);
      [x] + s
    else
      var t := Insert(x, s[1..]);
      InsertBehind(x, s, t);
      [s[0]] + t
  }

  /** A value no greater than the head goes in front. */
  lemma InsertFront(x: string, s: seq<string>)
    requires s != [] && Ascending(s)
    requires CompareStrings(x, s[0]) <= 0
    ensures Ascending([x] + s)
    ensures multiset([x] + s) == multiset(s) + multiset{x}
  {
    forall j | 0 <= j < |s| ensures CompareStrings(x, s[j]) <= 0 {
      if j > 0 { CompareStringsTransitive(x, s[0], s[j]); }
    }
  }

  /** A value greater than the head goes behind it, into the rest. */
  lemma InsertBehind(x: string, s: seq<string>, t: seq<string>)
    requires s != [] && Ascending(s)
    requires CompareStrings(x, s[0]) > 0
    requires Ascending(t) && multiset(t) == multiset(s[1..]) + multiset{x}
    ensures Ascending([s[0]] + t)
    ensures multiset([s[0]] + t) == multiset(s) + multiset{x}
  {
    CompareStringsAntisymmetric(x, s[0]);
    assert s == [s[0]] + s[1..];
    forall j | 0 <= j < |t| ensures CompareStrings(s[0], t[j]) <= 0 {
      assert t[j] in multiset(t);
      assert t[j] == x || t[j] in multiset(s[1..]);
      if t[j] != x {
        var k :| 0 <= k < |s[1..]| && s[1..][k] == t[j];
        assert s[k + 1] == t[j];
      }
    }
  }

  /** `strings.sort()` without a comparator: UTF-16 code-unit order. */
  function SortStrings(s: seq<string>): (r: seq<string>)
    ensures Ascending(r)
    ensures multiset(r) == multiset(s)
  {
    if s == [] then []
    else
      assert s == s[..|s| - 1] + [s[|s| - 1]];
      Insert(s[|s| - 1], SortStrings(s[..|s| - 1]))
  }

  /**
   * A character above U+FFFF starts with a surrogate below U+E000, so it
   * sorts before a full-width letter although its code point is larger.
   */
  lemma SortStringsUsesCodeUnits()
    ensures SortStrings(["\U{FF21}", "\U{1F600}"]) == ["\U{1F600}", "\U{FF21}"]
  {
    assert ["\U{FF21}", "\U{1F600}"][..1] == ["\U{FF21}"];
  }

  function DomainOf(item: NewsItem): string {
    item.domain
  }

  /**
   * `Array.from(new Set(news.map(item => item.domain))).sort()`: each domain
   * that occurs, exactly once, in ascending order.
   */
  function Domains(news: seq<NewsItem>): (r: seq<string>)
    ensures StrictlyAscending(r)
    ensures forall d :: d in r <==> exists x :: x in news && x.domain == d
  {
    var all := Map(news, DomainOf);
    var distinct := Distinct(all);
    var r := SortStrings(distinct);
    forall d ensures d in r <==> exists x :: x in news && x.domain == d {
      assert d in r <==> d in multiset(distinct);
      if d in all {
        var i :| 0 <= i < |all| && all[i] == d;
        assert news[i] in news;
      }
      if exists x :: x in news && x.domain == d {
        var x :| x in news && x.domain == d;
        var i :| 0 <= i < |news| && news[i] == x;
        assert all[i] == d;
      }
    }
    AscendingDistinctIsStrict(distinct, r);
    r
  }

  /** Sorting values that are pairwise different gives a strictly ascending sequence. */
  lemma AscendingDistinctIsStrict(s: seq<string>, r: seq<string>)
    requires NoDuplicates(s) && multiset(r) == multiset(s) && Ascending(r)
    ensures StrictlyAscending(r)
  {
    forall i, j | 0 <= i < j < |r| ensures CompareStrings(r[i], r[j]) < 0 {
      if r[i] == r[j] {
        MultisetPairs(r, i, j);
        DistinctCountsOne(s, r[i]);
        assert false;
      }
      CompareStringsZeroIff(r[i], r[j]);
    }
  }

  /** A value at two positions is counted at least twice. */
  lemma MultisetPairs(r: seq<string>, i: int, j: int)
    requires 0 <= i < j < |r| && r[i] == r[j]
    ensures multiset(r)[r[i]] >= 2
  {
    assert r == r[..j] + [r[j]] + r[j + 1..];
    assert r[i] in r[..j];
    assert multiset(r) == multiset(r[..j]) + multiset{r[j]} + multiset(r[j + 1..]);
  }

  /** In a sequence without duplicates every value is counted at most once. */
  lemma {:induction false} DistinctCountsOne(s: seq<string>, x: string)
    requires NoDuplicates(s)
    ensures multiset(s)[x] <= 1
    decreases |s|
  {
    if s != [] {
      var init := s[..|s| - 1];
      assert s == init + [s[|s| - 1]];
      DistinctCountsOne(init, x);
      if s[|s| - 1] == x {
        assert multiset(init)[x] == 0;
      }
    }
  }
}
