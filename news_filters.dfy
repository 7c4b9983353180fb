/**
 * hooks/use-news-filters.ts: the list the page shows.  A copy of the news
 * is narrowed by the search text, the chosen domain and the chosen date
 * range, and the copy is then sorted in place by date or by domain.
 */
module NewsFilters {
  import opened Wrappers
  import opened Text
  import opened Seqs
  import opened Sorting
  import opened Dates
  import opened Firebase
  import opened FilterPanel

  /** The search step: blank text keeps everything; otherwise the lower-cased text must occur. */
  function SearchStep(news: seq<NewsItem>, searchQuery: string): (r: seq<NewsItem>)
    ensures IsSubseq(r, news)
  {
    if Trim(searchQuery) == [] then SubseqReflexive(news); news
    else Filter(news, SearchPredicate(ToLower(searchQuery)))
  }

  function DomainPredicate(domain: string): NewsItem -> bool {
    (item: NewsItem) => item.domain == domain
  }

  /** The domain step: a chosen (non-empty) domain must match exactly, case included. */
  function DomainStep(news: seq<NewsItem>, domain: Option<string>): (r: seq<NewsItem>)
    ensures IsSubseq(r, news)
  {
    if IsSet(domain) then Filter(news, DomainPredicate(domain.value)) else SubseqReflexive(news); news
  }

  predicate InDateRange(item: NewsItem, range: DateRange) {
    range.from <= item.date <= range.to
  }

  function DatePredicate(range: DateRange): NewsItem -> bool {
    (item: NewsItem) => InDateRange(item, range)
  }

  /** The date step: both ends of a chosen range are inclusive. */
  function DateStep(news: seq<NewsItem>, range: Option<DateRange>): (r: seq<NewsItem>)
    ensures IsSubseq(r, news)
  {
    if range.Some? then Filter(news, DatePredicate(range.value)) else SubseqReflexive(news); news
  }

  /** Whether one item survives all three steps. */
  predicate Keep(item: NewsItem, filters: FilterOptions, searchQuery: string) {
    && (Trim(searchQuery) == [] || TitleOrDomainContains(item, ToLower(searchQuery)))
    && (IsSet(filters.domain) ==> item.domain == filters.domain.value)
    && (filters.dateRange.Some? ==> InDateRange(item, filters.dateRange.value))
  }

  /**
   * The three filter steps in the hook's order.  Each item is kept, as
   * often as it occurs, exactly when it passes every active step, and the
   * survivors keep their relative order.
   */
  function Filtered(news: seq<NewsItem>, filters: FilterOptions, searchQuery: string): (r: seq<NewsItem>)
    ensures forall x :: multiset(r)[x] == if Keep(x, filters, searchQuery) then multiset(news)[x] else 0
    ensures forall x :: x in r <==> x in news && Keep(x, filters, searchQuery)
    ensures IsSubseq(r, news)
  {
    var searched := SearchStep(news, searchQuery);
    var narrowed := DomainStep(searched, filters.domain);
    var r := DateStep(narrowed, filters.dateRange);
    SubseqTransitive(narrowed, searched, news);
    SubseqTransitive(r, narrowed, news);
    r
  }

  /** The comparator handed to `sort`: date difference or string order, negated for "desc". */
  function Compare(filters: FilterOptions, a: NewsItem, b: NewsItem): int {
    var comparison := match filters.sortBy
      case ByDate => a.date - b.date
      case ByDomain => CompareStrings(a.domain, b.domain);
    if filters.sortOrder == Desc then -comparison else comparison
  }

  function Comparator(filters: FilterOptions): (NewsItem, NewsItem) -> int {
    (a, b) => Compare(filters, a, b)
  }

  /** Both sort keys are orders, so the comparator is consistent on any list. */
  lemma ComparatorIsConsistent(filters: FilterOptions, s: seq<NewsItem>)
    ensures TotalPreorderOn(Comparator(filters), s)
  {
    var cmp := Comparator(filters);
    forall x, y | cmp(x, y) > 0 ensures cmp(y, x) <= 0 {
      CompareStringsAntisymmetric(x.domain, y.domain);
    }
    forall x, y, z | cmp(x, y) <= 0 && cmp(y, z) <= 0 ensures cmp(x, z) <= 0 {
      if filters.sortBy == ByDomain {
        if filters.sortOrder == Desc {
          CompareStringsAntisymmetric(x.domain, y.domain);
          CompareStringsAntisymmetric(y.domain, z.domain);
          CompareStringsAntisymmetric(x.domain, z.domain);
          CompareStringsTransitive(z.domain, y.domain, x.domain);
        } else {
          CompareStringsTransitive(x.domain, y.domain, z.domain);
        }
      }
    }
  }

  /**
   * The hook's body.  `news` is a value that the call cannot change; the
   * result holds exactly the filtered items, each as often as before, in
   * the order the filters ask for.
   */
  method UseNewsFilters(news: seq<NewsItem>, filters: FilterOptions, searchQuery: string) returns (r: seq<NewsItem>)
    ensures multiset(r) == multiset(Filtered(news, filters, searchQuery))
    ensures forall x :: x in r <==> x in news && Keep(x, filters, searchQuery)
    ensures filters.sortBy == ByDate && filters.sortOrder == Asc ==>
      forall i, j :: 0 <= i < j < |r| ==> r[i].date <= r[j].date
    ensures filters.sortBy == ByDate && filters.sortOrder == Desc ==>
      forall i, j :: 0 <= i < j < |r| ==> r[i].date >= r[j].date
    ensures filters.sortBy == ByDomain && filters.sortOrder == Asc ==>
      forall i, j :: 0 <= i < j < |r| ==> CompareStrings(r[i].domain, r[j].domain) <= 0
    ensures filters.sortBy == ByDomain && filters.sortOrder == Desc ==>
      forall i, j :: 0 <= i < j < |r| ==> CompareStrings(r[i].domain, r[j].domain) >= 0
    ensures exists perm ::
      && Arrangement(Filtered(news, filters, searchQuery), r, perm)
      && KeepsTies(r, perm, Comparator(filters))
  {
    var filteredNews := news;
    filteredNews := SearchStep(filteredNews, searchQuery);
    filteredNews := DomainStep(filteredNews, filters.domain);
    filteredNews := DateStep(filteredNews, filters.dateRange);
    var a := new NewsItem[|filteredNews|](i requires 0 <= i < |filteredNews| => filteredNews[i]);
    assert a[..] == filteredNews;
    ComparatorIsConsistent(filters, a[..]);
    StepsAreFiltered(news, filters, searchQuery);
    ghost var perm := SortInPlace(a, Comparator(filters));
    r := a[..];
    SortedFilteredFacts(news, filters, searchQuery, r);
  }

  /** The hook's three assignments compute `Filtered`. */
  lemma StepsAreFiltered(news: seq<NewsItem>, filters: FilterOptions, searchQuery: string)
    ensures DateStep(DomainStep(SearchStep(news, searchQuery), filters.domain), filters.dateRange) ==
      Filtered(news, filters, searchQuery)
  {
  }

  /**
   * Items of one domain, sorted by domain, stay in their input order: the
   * sort is stable and calls any two of them equal.
   */
  lemma OneDomainKeepsOrder(filters: FilterOptions, s: seq<NewsItem>, r: seq<NewsItem>, perm: seq<int>)
    requires filters.sortBy == ByDomain
    requires forall i, j :: 0 <= i < j < |s| ==> s[i].domain == s[j].domain
    requires Arrangement(s, r, perm) && KeepsTies(r, perm, Comparator(filters))
    ensures r == s
  {
    forall x, y | x in s && y in s ensures Comparator(filters)(x, y) == 0 {
      var i :| 0 <= i < |s| && s[i] == x;
      var j :| 0 <= j < |s| && s[j] == y;
      assert x.domain == y.domain;
      CompareStringsZeroIff(x.domain, y.domain);
    }
    AllTiedKeepsOrder(s, r, perm, Comparator(filters));
  }

  /** A sorted permutation of the filtered items has the hook's membership and order. */
  lemma SortedFilteredFacts(news: seq<NewsItem>, filters: FilterOptions, searchQuery: string, r: seq<NewsItem>)
    requires multiset(r) == multiset(Filtered(news, filters, searchQuery))
    requires Sorted(r, Comparator(filters))
    ensures forall x :: x in r <==> x in news && Keep(x, filters, searchQuery)
    ensures filters.sortBy == ByDate && filters.sortOrder == Asc ==>
      forall i, j :: 0 <= i < j < |r| ==> r[i].date <= r[j].date
    ensures filters.sortBy == ByDate && filters.sortOrder == Desc ==>
      forall i, j :: 0 <= i < j < |r| ==> r[i].date >= r[j].date
    ensures filters.sortBy == ByDomain && filters.sortOrder == Asc ==>
      forall i, j :: 0 <= i < j < |r| ==> CompareStrings(r[i].domain, r[j].domain) <= 0
    ensures filters.sortBy == ByDomain && filters.sortOrder == Desc ==>
      forall i, j :: 0 <= i < j < |r| ==> CompareStrings(r[i].domain, r[j].domain) >= 0
  {
    SortedMeansOrdered(filters, r);
    SameMembers(r, Filtered(news, filters, searchQuery));
  }

  /** What `Sorted` under the hook's comparator says about dates and domains. */
  lemma SortedMeansOrdered(filters: FilterOptions, r: seq<NewsItem>)
    requires Sorted(r, Comparator(filters))
    ensures filters.sortBy == ByDate && filters.sortOrder == Asc ==>
      forall i, j :: 0 <= i < j < |r| ==> r[i].date <= r[j].date
    ensures filters.sortBy == ByDate && filters.sortOrder == Desc ==>
      forall i, j :: 0 <= i < j < |r| ==> r[i].date >= r[j].date
    ensures filters.sortBy == ByDomain && filters.sortOrder == Asc ==>
      forall i, j :: 0 <= i < j < |r| ==> CompareStrings(r[i].domain, r[j].domain) <= 0
    ensures filters.sortBy == ByDomain && filters.sortOrder == Desc ==>
      forall i, j :: 0 <= i < j < |r| ==> CompareStrings(r[i].domain, r[j].domain) >= 0
  {
    forall i, j | 0 <= i < j < |r| ensures Compare(filters, r[i], r[j]) <= 0 {
      assert Comparator(filters)(r[i], r[j]) <= 0;
    }
  }

  lemma SameMembers<T>(r: seq<T>, s: seq<T>)
    requires multiset(r) == multiset(s)
    ensures forall x :: x in r <==> x in s
  {
    forall x ensures x in r <==> x in s {
      assert x in r <==> x in multiset(r);
      assert x in s <==> x in multiset(s);
    }
  }

  /** With no active filter and a blank search, the hook only reorders. */
  lemma InactiveFiltersKeepAll(news: seq<NewsItem>, filters: FilterOptions, searchQuery: string)
    requires !HasActiveFilters(filters) && Trim(searchQuery) == []
    ensures Filtered(news, filters, searchQuery) == news
  {
  }

  /** A search made in the page agrees with the server's search for every non-blank query. */
  lemma PageSearchMatchesServerSearch(searchQuery: string, snapshot: Snapshot)
    requires Trim(searchQuery) != []
    ensures SearchStep(QueryNews(snapshot), searchQuery) == SearchNews(searchQuery, snapshot)
  {
  }

  /** A search made of white space only keeps everything in the page. */
  lemma BlankSearchKeepsAll(news: seq<NewsItem>, searchQuery: string)
    requires AllSpace(searchQuery)
    ensures SearchStep(news, searchQuery) == news
  {
    TrimEmptyIff(searchQuery);
  }
}
