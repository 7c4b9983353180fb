/**
 * components/news-list.tsx: how the filtered list is shown.  The items
 * are gathered into sections keyed by domain or by calendar day, the
 * section keys are ordered, and each section is headed by its key and its
 * article count.  An empty list shows the empty state instead.
 */
module NewsList {
  import opened Text
  import opened Seqs
  import opened Sorting
  import opened Dates
  import opened Firebase
  import opened FilterPanel

  const UnknownDate: string := "Unknown date"

  /** `formatDate`: the short label of a date, or "Unknown date" for the invalid date. */
  function FormatDate(date: JsDate, locale: Locale): (text: string)
    ensures date.InvalidDate? ==> text == UnknownDate
    ensures date.ValidDate? ==> text == locale.shortDate(date.ms)
  {
    match date
    case ValidDate(ms) => locale.shortDate(ms)
    case InvalidDate => UnknownDate
  }

  /** `formatDateForGrouping`: the long label of a date, or "Unknown date" for the invalid date. */
  function FormatDateForGrouping(date: JsDate, locale: Locale): (text: string)
    ensures date.InvalidDate? ==> text == UnknownDate
    ensures date.ValidDate? ==> text == locale.longDate(date.ms)
  {
    match date
    case ValidDate(ms) => locale.longDate(ms)
    case InvalidDate => UnknownDate
  }

  /** The key of the section an item belongs to. */
  function SectionKey(item: NewsItem, sortBy: SortBy, locale: Locale): (key: string)
    ensures sortBy == ByDomain ==> key == item.domain
    ensures sortBy == ByDate ==> key == FormatDateForGrouping(FromMillis(item.date), locale)
  {
    if sortBy == ByDomain then item.domain else FormatDateForGrouping(FromMillis(item.date), locale)
  }

  function KeyOf(sortBy: SortBy, locale: Locale): NewsItem -> string {
    (item: NewsItem) => SectionKey(item, sortBy, locale)
  }

  function InSection(key: string, sortBy: SortBy, locale: Locale): NewsItem -> bool {
    (item: NewsItem) => SectionKey(item, sortBy, locale) == key
  }

  /** The section keys in the order they first occur: the key order of the grouped object. */
  function SectionKeys(news: seq<NewsItem>, sortBy: SortBy, locale: Locale): seq<string> {
    Distinct(Map(news, KeyOf(sortBy, locale)))
  }

  /** The items of one section, in list order. */
  function SectionItems(news: seq<NewsItem>, key: string, sortBy: SortBy, locale: Locale): seq<NewsItem> {
    Filter(news, InSection(key, sortBy, locale))
  }

  /** The grouped object: its keys in insertion order and the list stored under each. */
  datatype Grouped = Grouped(keys: seq<string>, sections: map<string, seq<NewsItem>>)

  /** A key that no item has selects no item. */
  lemma EmptySection(news: seq<NewsItem>, key: string, sortBy: SortBy, locale: Locale)
    requires key !in Map(news, KeyOf(sortBy, locale))
    ensures SectionItems(news, key, sortBy, locale) == []
  {
  }

  /** Adding an item adds its key at the end, unless the key is already there. */
  lemma SectionKeysAppend(news: seq<NewsItem>, x: NewsItem, sortBy: SortBy, locale: Locale)
    ensures SectionKeys(news + [x], sortBy, locale) ==
      var d := SectionKeys(news, sortBy, locale);
      var k := SectionKey(x, sortBy, locale);
      if k in d then d else d + [k]
  {
    var keyOf := KeyOf(sortBy, locale);
    var m := Map(news + [x], keyOf);
    assert m[..|m| - 1] == Map(news, keyOf);
  }

  lemma SectionItemsPush(news: seq<NewsItem>, x: NewsItem, key: string, sortBy: SortBy, locale: Locale)
    ensures SectionItems(news + [x], key, sortBy, locale) ==
      SectionItems(news, key, sortBy, locale) + (if SectionKey(x, sortBy, locale) == key then [x] else [])
  {
    assert (news + [x])[..|news|] == news;
  }

  /*
   * What holds once the forEach has placed the items of `prefix`: `keys`
   * are the section keys of `prefix`, they are the keys of `sections`, and
   * each list holds exactly its key's items.  The two step lemmas carry
   * these three facts over one more item; `GroupFoldCorrect` chains them.
   */

  /** One turn of the forEach for an item whose key has been seen before. */
  lemma GroupStepSeen(prefix: seq<NewsItem>, x: NewsItem, sortBy: SortBy, locale: Locale,
                      keys: seq<string>, sections: map<string, seq<NewsItem>>)
    requires keys == SectionKeys(prefix, sortBy, locale)
    requires forall k :: k in sections <==> k in keys
    requires forall k :: k in sections ==> sections[k] == SectionItems(prefix, k, sortBy, locale)
    requires SectionKey(x, sortBy, locale) in sections
    ensures keys == SectionKeys(prefix + [x], sortBy, locale)
    ensures
      var key := SectionKey(x, sortBy, locale);
      var pushed := sections[key := sections[key] + [x]];
      forall k :: k in pushed <==> k in keys
    ensures
      var key := SectionKey(x, sortBy, locale);
      var pushed := sections[key := sections[key] + [x]];
      forall k :: k in pushed ==> pushed[k] == SectionItems(prefix + [x], k, sortBy, locale)
  {
    SectionKeysAppend(prefix, x, sortBy, locale);
    PushKeepsSections(prefix, x, sortBy, locale, sections);
  }

  /** One turn of the forEach for an item with a new key: an empty list is created first. */
  lemma GroupStepNew(prefix: seq<NewsItem>, x: NewsItem, sortBy: SortBy, locale: Locale,
                     keys: seq<string>, sections: map<string, seq<NewsItem>>)
    requires keys == SectionKeys(prefix, sortBy, locale)
    requires forall k :: k in sections <==> k in keys
    requires forall k :: k in sections ==> sections[k] == SectionItems(prefix, k, sortBy, locale)
    requires SectionKey(x, sortBy, locale) !in sections
    ensures keys + [SectionKey(x, sortBy, locale)] == SectionKeys(prefix + [x], sortBy, locale)
    ensures
      var key := SectionKey(x, sortBy, locale);
      var created := sections[key := []];
      var pushed := created[key := created[key] + [x]];
      forall k :: k in pushed <==> k in keys + [key]
    ensures
      var key := SectionKey(x, sortBy, locale);
      var created := sections[key := []];
      var pushed := created[key := created[key] + [x]];
      forall k :: k in pushed ==> pushed[k] == SectionItems(prefix + [x], k, sortBy, locale)
  {
    var key := SectionKey(x, sortBy, locale);
    SectionKeysAppend(prefix, x, sortBy, locale);
    MapKeyAbsent(prefix, key, sortBy, locale);
    PushKeepsSections(prefix, x, sortBy, locale, sections[key := []]);
  }

  /** A key that is not among the section keys selects no item. */
  lemma MapKeyAbsent(prefix: seq<NewsItem>, key: string, sortBy: SortBy, locale: Locale)
    requires key !in SectionKeys(prefix, sortBy, locale)
    ensures SectionItems(prefix, key, sortBy, locale) == []
  {
    EmptySection(prefix, key, sortBy, locale);
  }

  /** Pushing an item onto its key's list keeps every list equal to the items with that key. */
  lemma PushKeepsSections(prefix: seq<NewsItem>, x: NewsItem, sortBy: SortBy, locale: Locale,
                          sections: map<string, seq<NewsItem>>)
    requires SectionKey(x, sortBy, locale) in sections
    requires forall k :: k in sections ==> sections[k] == SectionItems(prefix, k, sortBy, locale)
    ensures
      var key := SectionKey(x, sortBy, locale);
      var pushed := sections[key := sections[key] + [x]];
      forall k :: k in pushed ==> pushed[k] == SectionItems(prefix + [x], k, sortBy, locale)
  {
    forall k | k in sections {
      SectionItemsPush(prefix, x, k, sortBy, locale);
    }
  }

  /** After the loop every item sits in the section of its key. */
  lemma EveryItemPlaced(news: seq<NewsItem>, sortBy: SortBy, locale: Locale, g: Grouped)
    requires g.keys == SectionKeys(news, sortBy, locale)
    requires forall k :: k in g.sections <==> k in g.keys
    requires forall k :: k in g.sections ==> g.sections[k] == SectionItems(news, k, sortBy, locale)
    ensures forall x :: x in news ==> SectionKey(x, sortBy, locale) in g.sections && x in g.sections[SectionKey(x, sortBy, locale)]
  {
    var keyOf := KeyOf(sortBy, locale);
    forall x | x in news
      ensures SectionKey(x, sortBy, locale) in g.sections && x in g.sections[SectionKey(x, sortBy, locale)]
    {
      var i :| 0 <= i < |news| && news[i] == x;
      assert Map(news, keyOf)[i] == SectionKey(x, sortBy, locale);
    }
  }

  /** After the loop no section is empty. */
  lemma NoEmptySection(news: seq<NewsItem>, sortBy: SortBy, locale: Locale, g: Grouped)
    requires g.keys == SectionKeys(news, sortBy, locale)
    requires forall k :: k in g.sections <==> k in g.keys
    requires forall k :: k in g.sections ==> g.sections[k] == SectionItems(news, k, sortBy, locale)
    ensures forall k :: k in g.sections ==> g.sections[k] != []
  {
    var keyOf := KeyOf(sortBy, locale);
    forall k | k in g.sections ensures g.sections[k] != [] {
      var i :| 0 <= i < |Map(news, keyOf)| && Map(news, keyOf)[i] == k;
      assert news[i] in g.sections[k];
    }
  }

  /** One turn of the forEach: create the key's list if it is missing, then push the item. */
  function PushItem(g: Grouped, key: string, item: NewsItem): Grouped {
    if key in g.sections then
      Grouped(g.keys, g.sections[key := g.sections[key] + [item]])
    else
      var created := g.sections[key := []];
      Grouped(g.keys + [key], created[key := created[key] + [item]])
  }

  /** The grouped object after the forEach has visited every item of `news`. */
  function GroupFold(news: seq<NewsItem>, sortBy: SortBy, locale: Locale): Grouped
    decreases |news|
  {
    if news == [] then Grouped([], map[])
    else
      var last := news[|news| - 1];
      PushItem(GroupFold(news[..|news| - 1], sortBy, locale), SectionKey(last, sortBy, locale), last)
  }

  /**
   * The forEach builds the section keys in first-occurrence order, one
   * list per key, and under each key exactly the items with that key.
   */
  lemma {:induction false} GroupFoldCorrect(news: seq<NewsItem>, sortBy: SortBy, locale: Locale)
    ensures GroupFold(news, sortBy, locale).keys == SectionKeys(news, sortBy, locale)
    ensures forall k :: k in GroupFold(news, sortBy, locale).sections <==> k in GroupFold(news, sortBy, locale).keys
    ensures forall k :: k in GroupFold(news, sortBy, locale).sections ==>
      GroupFold(news, sortBy, locale).sections[k] == SectionItems(news, k, sortBy, locale)
    decreases |news|
  {
    if news != [] {
      var init, x := news[..|news| - 1], news[|news| - 1];
      assert news == init + [x];
      GroupFoldCorrect(init, sortBy, locale);
      var g0 := GroupFold(init, sortBy, locale);
      if SectionKey(x, sortBy, locale) in g0.sections {
        GroupStepSeen(init, x, sortBy, locale, g0.keys, g0.sections);
      } else {
        GroupStepNew(init, x, sortBy, locale, g0.keys, g0.sections);
      }
    }
  }

  /** `groupNewsBySection`: a forEach over the items that pushes each onto its key's list. */
  method GroupNewsBySection(news: seq<NewsItem>, sortBy: SortBy, locale: Locale) returns (g: Grouped)
    ensures g == GroupFold(news, sortBy, locale)
    ensures g.keys == SectionKeys(news, sortBy, locale)
    ensures forall k :: k in g.sections <==> k in g.keys
    ensures forall k :: k in g.sections ==> g.sections[k] == SectionItems(news, k, sortBy, locale)
  {
    var keys: seq<string> := [];
    var sections: map<string, seq<NewsItem>> := map[];
    for i := 0 to |news|
      invariant Grouped(keys, sections) == GroupFold(news[..i], sortBy, locale)
    {
      var item := news[i];
      var sectionKey := SectionKey(item, sortBy, locale);
      assert news[..i + 1][..i] == news[..i];
      if sectionKey !in sections {
        sections := sections[sectionKey := []];
        keys := keys + [sectionKey];
      }
      sections := sections[sectionKey := sections[sectionKey] + [item]];
    }
    assert news[..|news|] == news;
    g := Grouped(keys, sections);
    GroupFoldCorrect(news, sortBy, locale);
  }

  /**
   * What the grouped object says about the items: no section is empty,
   * every item sits in the section of its own key, and a section holds
   * only items of the input with that key.
   */
  lemma GroupedFacts(news: seq<NewsItem>, sortBy: SortBy, locale: Locale, g: Grouped)
    requires g.keys == SectionKeys(news, sortBy, locale)
    requires forall k :: k in g.sections <==> k in g.keys
    requires forall k :: k in g.sections ==> g.sections[k] == SectionItems(news, k, sortBy, locale)
    ensures forall k :: k in g.sections ==> g.sections[k] != []
    ensures forall x :: x in news ==> SectionKey(x, sortBy, locale) in g.sections && x in g.sections[SectionKey(x, sortBy, locale)]
    ensures forall x, k :: k in g.sections && x in g.sections[k] ==> x in news && k == SectionKey(x, sortBy, locale)
  {
    assert forall k :: k in g.sections ==> g.sections[k] != [] by {
      NoEmptySection(news, sortBy, locale, g);
    }
    assert forall x :: x in news ==> SectionKey(x, sortBy, locale) in g.sections && x in g.sections[SectionKey(x, sortBy, locale)] by {
      EveryItemPlaced(news, sortBy, locale, g);
    }
    forall x, k | k in g.sections && x in g.sections[k] ensures x in news && k == SectionKey(x, sortBy, locale) {
      assert x in SectionItems(news, k, sortBy, locale);
    }
  }

  // ---------------------------------------------------------------------
  // No item lost, none duplicated
  // ---------------------------------------------------------------------

  /** The number of items across the sections named by `keys`. */
  function TotalSize(news: seq<NewsItem>, keys: seq<string>, sortBy: SortBy, locale: Locale): nat {
    if keys == [] then 0
    else TotalSize(news, keys[..|keys| - 1], sortBy, locale) + |SectionItems(news, keys[|keys| - 1], sortBy, locale)|
  }

  lemma SectionItemsAppend(news: seq<NewsItem>, x: NewsItem, key: string, sortBy: SortBy, locale: Locale)
    ensures |SectionItems(news + [x], key, sortBy, locale)|
         == |SectionItems(news, key, sortBy, locale)| + (if SectionKey(x, sortBy, locale) == key then 1 else 0)
  {
    assert (news + [x])[..|news|] == news;
  }

  lemma {:induction false} TotalSizeAppend(news: seq<NewsItem>, x: NewsItem, keys: seq<string>, sortBy: SortBy, locale: Locale)
    requires NoDuplicates(keys)
    ensures TotalSize(news + [x], keys, sortBy, locale)
         == TotalSize(news, keys, sortBy, locale) + (if SectionKey(x, sortBy, locale) in keys then 1 else 0)
    decreases |keys|
  {
    if keys != [] {
      var init, last := keys[..|keys| - 1], keys[|keys| - 1];
      assert keys == init + [last];
      TotalSizeAppend(news, x, init, sortBy, locale);
      SectionItemsAppend(news, x, last, sortBy, locale);
    }
  }

  /** The section sizes add up to the number of items. */
  lemma {:induction false} SectionSizesSum(news: seq<NewsItem>, sortBy: SortBy, locale: Locale)
    ensures TotalSize(news, SectionKeys(news, sortBy, locale), sortBy, locale) == |news|
    decreases |news|
  {
    if news != [] {
      var init, x := news[..|news| - 1], news[|news| - 1];
      assert news == init + [x];
      SectionSizesSum(init, sortBy, locale);
      SectionSizesStep(init, x, sortBy, locale);
    }
  }

  /** One more item adds one to the sum of the section sizes. */
  lemma SectionSizesStep(init: seq<NewsItem>, x: NewsItem, sortBy: SortBy, locale: Locale)
    ensures TotalSize(init + [x], SectionKeys(init + [x], sortBy, locale), sortBy, locale)
         == TotalSize(init, SectionKeys(init, sortBy, locale), sortBy, locale) + 1
  {
    SectionKeysAppend(init, x, sortBy, locale);
    var d := SectionKeys(init, sortBy, locale);
    var k := SectionKey(x, sortBy, locale);
    TotalSizeAppend(init, x, d, sortBy, locale);
    if k !in d {
      assert (d + [k])[..|d|] == d;
      EmptySection(init, k, sortBy, locale);
      SectionItemsAppend(init, x, k, sortBy, locale);
    }
  }

  // ---------------------------------------------------------------------
  // Ordering the sections
  // ---------------------------------------------------------------------

  /**
   * `sortSections`' comparator.  Domain keys use string order, reversed for
   * "desc".  Date keys are parsed back into dates; a key that does not
   * parse makes the difference NaN, which the sort reads as 0.
   */
  function SectionCompare(filters: FilterOptions, locale: Locale, a: string, b: string): int {
    match filters.sortBy
    case ByDomain =>
      if filters.sortOrder == Asc then CompareStrings(a, b) else CompareStrings(b, a)
    case ByDate =>
      match (locale.parseDate(a), locale.parseDate(b))
      case (ValidDate(ta), ValidDate(tb)) => if filters.sortOrder == Asc then ta - tb else tb - ta
      case _ => 0
  }

  function SectionComparator(filters: FilterOptions, locale: Locale): (string, string) -> int {
    (a, b) => SectionCompare(filters, locale, a, b)
  }

  /** The time a key reads back as (0 when it does not parse). */
  function KeyTime(locale: Locale, key: string): int {
    match locale.parseDate(key)
    case ValidDate(ms) => ms
    case InvalidDate => 0
  }

  /** Every key reads back as a valid date. */
  predicate AllParse(keys: seq<string>, locale: Locale) {
    forall k :: k in keys ==> locale.parseDate(k).ValidDate?
  }

  /** The section comparator is consistent for domain keys, and for date keys that all parse. */
  lemma SectionComparatorIsConsistent(filters: FilterOptions, locale: Locale, keys: seq<string>)
    requires filters.sortBy == ByDomain || AllParse(keys, locale)
    ensures TotalPreorderOn(SectionComparator(filters, locale), keys)
  {
    var cmp := SectionComparator(filters, locale);
    forall x, y | x in keys && y in keys && cmp(x, y) > 0 ensures cmp(y, x) <= 0 {
      CompareStringsAntisymmetric(x, y);
    }
    forall x, y, z | x in keys && y in keys && z in keys && cmp(x, y) <= 0 && cmp(y, z) <= 0
      ensures cmp(x, z) <= 0
    {
      if filters.sortBy == ByDomain {
        if filters.sortOrder == Asc {
          CompareStringsTransitive(x, y, z);
        } else {
          CompareStringsTransitive(z, y, x);
        }
      }
    }
  }

  /** `sortSections`: the keys of the grouped object, ordered in place. */
  method SortSections(g: Grouped, filters: FilterOptions, locale: Locale) returns (keys: seq<string>)
    ensures multiset(keys) == multiset(g.keys)
    ensures filters.sortBy == ByDomain && filters.sortOrder == Asc ==>
      forall i, j :: 0 <= i < j < |keys| ==> CompareStrings(keys[i], keys[j]) <= 0
    ensures filters.sortBy == ByDomain && filters.sortOrder == Desc ==>
      forall i, j :: 0 <= i < j < |keys| ==> CompareStrings(keys[j], keys[i]) <= 0
    ensures filters.sortBy == ByDate && AllParse(g.keys, locale) && filters.sortOrder == Asc ==>
      forall i, j :: 0 <= i < j < |keys| ==> KeyTime(locale, keys[i]) <= KeyTime(locale, keys[j])
    ensures filters.sortBy == ByDate && AllParse(g.keys, locale) && filters.sortOrder == Desc ==>
      forall i, j :: 0 <= i < j < |keys| ==> KeyTime(locale, keys[i]) >= KeyTime(locale, keys[j])
  {
    var sectionKeys := new string[|g.keys|](i requires 0 <= i < |g.keys| => g.keys[i]);
    assert sectionKeys[..] == g.keys;
    if filters.sortBy == ByDomain || AllParse(g.keys, locale) {
      SectionComparatorIsConsistent(filters, locale, g.keys);
    }
    ghost var perm := SortInPlace(sectionKeys, SectionComparator(filters, locale));
    keys := sectionKeys[..];
    SortedSectionsOrdered(filters, locale, g.keys, keys);
  }

  lemma SortedSectionsOrdered(filters: FilterOptions, locale: Locale, keys0: seq<string>, keys: seq<string>)
    requires multiset(keys) == multiset(keys0)
    requires filters.sortBy == ByDomain || AllParse(keys0, locale) ==> Sorted(keys, SectionComparator(filters, locale))
    ensures filters.sortBy == ByDomain && filters.sortOrder == Asc ==>
      forall i, j :: 0 <= i < j < |keys| ==> CompareStrings(keys[i], keys[j]) <= 0
    ensures filters.sortBy == ByDomain && filters.sortOrder == Desc ==>
      forall i, j :: 0 <= i < j < |keys| ==> CompareStrings(keys[j], keys[i]) <= 0
    ensures filters.sortBy == ByDate && AllParse(keys0, locale) && filters.sortOrder == Asc ==>
      forall i, j :: 0 <= i < j < |keys| ==> KeyTime(locale, keys[i]) <= KeyTime(locale, keys[j])
    ensures filters.sortBy == ByDate && AllParse(keys0, locale) && filters.sortOrder == Desc ==>
      forall i, j :: 0 <= i < j < |keys| ==> KeyTime(locale, keys[i]) >= KeyTime(locale, keys[j])
  {
    if filters.sortBy == ByDomain || AllParse(keys0, locale) {
      var cmp := SectionComparator(filters, locale);
      forall i, j | 0 <= i < j < |keys| ensures SectionCompare(filters, locale, keys[i], keys[j]) <= 0 {
        assert cmp(keys[i], keys[j]) <= 0;
      }
      if filters.sortBy == ByDate {
        forall i | 0 <= i < |keys| ensures locale.parseDate(keys[i]).ValidDate? {
          assert keys[i] in multiset(keys);
        }
      }
    }
  }

  // ---------------------------------------------------------------------
  // What is shown
  // ---------------------------------------------------------------------

  /** The count under a section heading: "1 article", otherwise "<n> articles". */
  function ArticleCount(n: nat): (text: string)
    ensures StartsWith(text, NatToString(n))
    ensures text[|text| - 1] == 's' <==> n != 1
    ensures n == 1 ==> text == "1 article"
    ensures n != 1 ==> text == NatToString(n) + " articles"
  {
    NatToString(n) + (if n == 1 then " article" else " articles")
  }

  /** The number in front of the count text reads back as the count. */
  lemma ArticleCountReadsBack(n: nat)
    ensures |NatToString(n)| < |ArticleCount(n)|
    ensures DigitsValue(ArticleCount(n)[..|NatToString(n)|]) == n
  {
    NatToStringRoundTrip(n);
    assert ArticleCount(n)[..|NatToString(n)|] == NatToString(n);
  }

  datatype ItemView = ItemView(item: NewsItem, dateText: string)

  datatype SectionView = SectionView(title: string, countText: string, items: seq<ItemView>)

  /** What the list component shows: the empty state, or its sections in order. */
  datatype ListView = EmptyState | SectionList(sections: seq<SectionView>)

  function ItemViewOf(locale: Locale): NewsItem -> ItemView {
    (item: NewsItem) => ItemView(item, FormatDate(FromMillis(item.date), locale))
  }

  /** The rendering: the empty-list branch, then grouping, ordering and one view per section. */
  method RenderNewsList(news: seq<NewsItem>, filters: FilterOptions, locale: Locale) returns (view: ListView)
    ensures view.EmptyState? <==> news == []
    ensures view.SectionList? ==>
      multiset(Map(view.sections, (s: SectionView) => s.title)) == multiset(SectionKeys(news, filters.sortBy, locale))
    ensures view.SectionList? ==> forall i :: 0 <= i < |view.sections| ==>
      var s := view.sections[i];
      && s.items == Map(SectionItems(news, s.title, filters.sortBy, locale), ItemViewOf(locale))
      && s.items != []
      && s.countText == ArticleCount(|s.items|)
    ensures view.SectionList? && filters.sortBy == ByDomain ==> forall i, j :: 0 <= i < j < |view.sections| ==>
      CompareStrings(view.sections[i].title, view.sections[j].title) == if filters.sortOrder == Asc then -1 else 1
  {
    if |news| == 0 {
      return EmptyState;
    }
    var grouped := GroupNewsBySection(news, filters.sortBy, locale);
    var sortedSectionKeys := SortSections(grouped, filters, locale);
    KeysStayInGroup(grouped, sortedSectionKeys);
    var sections := seq(|sortedSectionKeys|, i requires 0 <= i < |sortedSectionKeys| =>
      SectionViewOf(grouped, sortedSectionKeys[i], locale));
    view := SectionList(sections);
    SectionListFacts(news, filters, locale, grouped, sortedSectionKeys, sections);
  }

  /** The sections shown, from what grouping and ordering guarantee. */
  lemma SectionListFacts(news: seq<NewsItem>, filters: FilterOptions, locale: Locale, g: Grouped,
                         keys: seq<string>, sections: seq<SectionView>)
    requires g.keys == SectionKeys(news, filters.sortBy, locale)
    requires forall k :: k in g.sections <==> k in g.keys
    requires forall k :: k in g.sections ==> g.sections[k] == SectionItems(news, k, filters.sortBy, locale)
    requires multiset(keys) == multiset(g.keys)
    requires filters.sortBy == ByDomain && filters.sortOrder == Asc ==>
      forall i, j :: 0 <= i < j < |keys| ==> CompareStrings(keys[i], keys[j]) <= 0
    requires filters.sortBy == ByDomain && filters.sortOrder == Desc ==>
      forall i, j :: 0 <= i < j < |keys| ==> CompareStrings(keys[j], keys[i]) <= 0
    requires forall i :: 0 <= i < |keys| ==> keys[i] in g.sections
    requires |sections| == |keys|
    requires forall i :: 0 <= i < |keys| ==> sections[i] == SectionViewOf(g, keys[i], locale)
    ensures multiset(Map(sections, (s: SectionView) => s.title)) == multiset(SectionKeys(news, filters.sortBy, locale))
    ensures forall i :: 0 <= i < |sections| ==>
      var s := sections[i];
      && s.items == Map(SectionItems(news, s.title, filters.sortBy, locale), ItemViewOf(locale))
      && s.items != []
      && s.countText == ArticleCount(|s.items|)
    ensures filters.sortBy == ByDomain ==> forall i, j :: 0 <= i < j < |sections| ==>
      CompareStrings(sections[i].title, sections[j].title) == if filters.sortOrder == Asc then -1 else 1
  {
    GroupedFacts(news, filters.sortBy, locale, g);
    ViewsDescribeSections(news, filters.sortBy, locale, g, keys, sections);
    if filters.sortBy == ByDomain {
      StrictOrder(g.keys, keys, filters.sortOrder);
    }
  }

  /** One section of the list: its key as title, its count and its items. */
  function SectionViewOf(g: Grouped, key: string, locale: Locale): SectionView
    requires key in g.sections
  {
    var items := g.sections[key];
    SectionView(key, ArticleCount(|items|), Map(items, ItemViewOf(locale)))
  }

  lemma ViewsDescribeSections(news: seq<NewsItem>, sortBy: SortBy, locale: Locale, g: Grouped,
                              keys: seq<string>, views: seq<SectionView>)
    requires forall k :: k in g.sections ==> g.sections[k] == SectionItems(news, k, sortBy, locale)
    requires forall k :: k in g.sections ==> g.sections[k] != []
    requires forall i :: 0 <= i < |keys| ==> keys[i] in g.sections
    requires |views| == |keys|
    requires forall i :: 0 <= i < |keys| ==> views[i] == SectionViewOf(g, keys[i], locale)
    ensures Map(views, (s: SectionView) => s.title) == keys
    ensures forall i :: 0 <= i < |views| ==>
      var s := views[i];
      && s.items == Map(SectionItems(news, s.title, sortBy, locale), ItemViewOf(locale))
      && s.items != []
      && s.countText == ArticleCount(|s.items|)
  {
    forall i | 0 <= i < |views|
      ensures views[i].items != []
    {
      assert |views[i].items| == |g.sections[keys[i]]|;
    }
  }

  lemma KeysStayInGroup(g: Grouped, keys: seq<string>)
    requires multiset(keys) == multiset(g.keys)
    requires forall k :: k in g.sections <==> k in g.keys
    ensures forall i :: 0 <= i < |keys| ==> keys[i] in g.sections
  {
    forall i | 0 <= i < |keys| ensures keys[i] in g.keys {
      assert keys[i] in multiset(keys);
    }
  }

  /** Ordered keys that are all different are strictly ordered. */
  lemma StrictOrder(keys0: seq<string>, keys: seq<string>, order: SortOrder)
    requires NoDuplicates(keys0) && multiset(keys) == multiset(keys0)
    requires order == Asc ==> forall i, j :: 0 <= i < j < |keys| ==> CompareStrings(keys[i], keys[j]) <= 0
    requires order == Desc ==> forall i, j :: 0 <= i < j < |keys| ==> CompareStrings(keys[j], keys[i]) <= 0
    ensures forall i, j :: 0 <= i < j < |keys| ==>
      CompareStrings(keys[i], keys[j]) == if order == Asc then -1 else 1
  {
    forall i, j | 0 <= i < j < |keys|
      ensures CompareStrings(keys[i], keys[j]) == if order == Asc then -1 else 1
    {
      if keys[i] == keys[j] {
        MultisetPairs(keys, i, j);
        DistinctCountsOne(keys0, keys[i]);
        assert false;
      }
      CompareStringsZeroIff(keys[i], keys[j]);
      CompareStringsAntisymmetric(keys[i], keys[j]);
    }
  }
}
