/**
 * lib/firebase.ts: the news record, the conversion of a stored document
 * into a record, and the query functions.  The database is not modelled:
 * every query receives the snapshot the store returned for it, or the
 * failure it raised.
 */
module Firebase {
  import opened Text
  import opened Seqs
  import opened Dates

  /** A news article as the whole application passes it around. */
  datatype NewsItem = NewsItem(id: string, title: string, url: string, date: TimeValue, domain: string)

  /**
   * The fields of a stored document; `date` is already what `new Date(data.date)`
   * made of the stored value.
   */
  datatype DocData = DocData(title: string, url: string, date: JsDate, domain: string)

  datatype Doc = Doc(id: string, data: DocData)

  /** The outcome of a query: the documents, or a thrown error. */
  datatype Snapshot = Fetched(docs: seq<Doc>) | FetchFailed

  /** The document-to-record conversion shared by every query. */
  function ToNewsItem(doc: Doc): (item: NewsItem)
    ensures item.id == doc.id
    ensures item.title == doc.data.title && item.url == doc.data.url && item.domain == doc.data.domain
    ensures doc.data.date.ValidDate? ==> item.date == doc.data.date.ms
    ensures doc.data.date.InvalidDate? ==> item.date == Epoch
  {
    NewsItem(
      doc.id,
      doc.data.title,
      doc.data.url,
      match doc.data.date
      case ValidDate(ms) => ms
      case InvalidDate => Epoch,
      doc.data.domain)
  }

  /**
   * `getAllNews`, `getNewsByDomain` and `getNewsByDateRange` once the store
   * has answered: the documents converted one by one, or `[]` when the
   * query failed.
   */
  function QueryNews(snapshot: Snapshot): (news: seq<NewsItem>)
    ensures snapshot.FetchFailed? ==> news == []
    ensures snapshot.Fetched? ==>
      |news| == |snapshot.docs| && forall i :: 0 <= i < |news| ==> news[i] == ToNewsItem(snapshot.docs[i])
  {
    match snapshot
    case Fetched(docs) => Map(docs, ToNewsItem)
    case FetchFailed => []
  }

  /** The search test: the lower-cased title or domain includes `needle`. */
  predicate TitleOrDomainContains(item: NewsItem, needle: string) {
    Contains(ToLower(item.title), needle) || Contains(ToLower(item.domain), needle)
  }

  function SearchPredicate(needle: string): NewsItem -> bool {
    (item: NewsItem) => TitleOrDomainContains(item, needle)
  }

  /**
   * `searchNews(term)`: all documents converted, then those whose title or
   * domain contains the term, ignoring case; `[]` when the fetch failed.
   */
  function SearchNews(term: string, snapshot: Snapshot): (news: seq<NewsItem>)
    ensures snapshot.FetchFailed? ==> news == []
    ensures forall x :: x in news <==> x in QueryNews(snapshot) && TitleOrDomainContains(x, ToLower(term))
    ensures forall x :: multiset(news)[x] == if TitleOrDomainContains(x, ToLower(term)) then multiset(QueryNews(snapshot))[x] else 0
    ensures IsSubseq(news, QueryNews(snapshot))
  {
    match snapshot
    case Fetched(docs) => Filter(QueryNews(snapshot), SearchPredicate(ToLower(term)))
    case FetchFailed => []
  }

  /** Upper- and lower-case spellings of the term find the same records. */
  lemma SearchIgnoresCase(term: string, snapshot: Snapshot)
    ensures SearchNews(term, snapshot) == SearchNews(ToLower(term), snapshot)
  {
    ToLowerIdempotent(term);
  }

  /** Searching for the empty string returns every record. */
  lemma SearchEmptyTermKeepsAll(snapshot: Snapshot)
    ensures SearchNews("", snapshot) == QueryNews(snapshot)
  {
    if snapshot.Fetched? {
      forall x ensures SearchPredicate(ToLower(""))(x) {
        ContainsEmpty(ToLower(x.title));
      }
      FilterAll(QueryNews(snapshot), SearchPredicate(ToLower("")));
    }
  }
}
