/**
 * app/api/news/route.ts: the `GET` handler, which picks one query from the
 * request's parameters (search, then domain, then a date range, then
 * everything) and answers with its records, or with status 500 when the
 * handler throws.
 */
module NewsRoute {
  import opened Wrappers
  import opened Firebase
  import opened FilterPanel

  /** A query string as its name/value pairs, in order. */
  type Params = seq<(string, string)>

  /** `searchParams.get(name)`: the value of the first pair with that name, if any. */
  function Get(params: Params, name: string): (v: Option<string>)
    ensures v.None? <==> forall i :: 0 <= i < |params| ==> params[i].0 != name
    ensures v.Some? ==> exists i ::
      && 0 <= i < |params|
      && params[i] == (name, v.value)
      && forall j :: 0 <= j < i ==> params[j].0 != name
  {
    if params == [] then None
    else if params[0].0 == name then Some(params[0].1)
    else
      var rest := Get(params[1..], name);
      assert forall i :: 1 <= i < |params| ==> params[i] == params[1..][i - 1];
      rest
  }

  /** The query the handler runs. */
  datatype Query =
    | SearchQuery(term: string)
    | DomainQuery(domain: string)
    | DateRangeQuery(startDate: string, endDate: string)
    | AllQuery

  /** The parameter names the handler reads. */
  predicate IsQueryParam(name: string) {
    name == "search" || name == "domain" || name == "startDate" || name == "endDate"
  }

  /** The precedence chain: an empty parameter counts as absent. */
  function SelectQuery(params: Params): (q: Query)
    ensures IsSet(Get(params, "search")) ==> q == SearchQuery(Get(params, "search").value)
    ensures !IsSet(Get(params, "search")) && IsSet(Get(params, "domain")) ==>
      q == DomainQuery(Get(params, "domain").value)
    ensures q.DateRangeQuery? <==>
      !IsSet(Get(params, "search")) && !IsSet(Get(params, "domain")) &&
      IsSet(Get(params, "startDate")) && IsSet(Get(params, "endDate"))
    ensures q.DateRangeQuery? ==>
      q.startDate == Get(params, "startDate").value && q.endDate == Get(params, "endDate").value
    ensures q.AllQuery? <==>
      !IsSet(Get(params, "search")) && !IsSet(Get(params, "domain")) &&
      !(IsSet(Get(params, "startDate")) && IsSet(Get(params, "endDate")))
  {
    var search := Get(params, "search");
    var domain := Get(params, "domain");
    var startDate := Get(params, "startDate");
    var endDate := Get(params, "endDate");
    if IsSet(search) then SearchQuery(search.value)
    else if IsSet(domain) then DomainQuery(domain.value)
    else if IsSet(startDate) && IsSet(endDate) then DateRangeQuery(startDate.value, endDate.value)
    else AllQuery
  }

  /**
   * The records a query yields once the store has answered: `searchNews`
   * filters every record, the other three return what the store sent.
   */
  function RunQuery(q: Query, snapshot: Snapshot): seq<NewsItem> {
    match q
    case SearchQuery(term) => SearchNews(term, snapshot)
    case _ => QueryNews(snapshot)
  }

  datatype Response = Ok(news: seq<NewsItem>) | ServerError(error: string)

  function Status(r: Response): int {
    if r.Ok? then 200 else 500
  }

  const FetchError: string := "Failed to fetch news"

  /**
   * `GET`: `url` is the request's parsed query string, `None` when
   * `new URL(request.url)` throws.  The query functions catch their own
   * failures and return `[]`, so only a malformed URL reaches the 500 path.
   */
  function HandleGet(url: Option<Params>, snapshot: Snapshot): (r: Response)
    ensures Status(r) == 500 <==> url.None?
    ensures r.ServerError? ==> r.error == FetchError
    ensures url.Some? && r.Ok? && snapshot.FetchFailed? ==> r.news == []
    ensures url.Some? && IsSet(Get(url.value, "search")) ==>
      r == Ok(SearchNews(Get(url.value, "search").value, snapshot))
    ensures url.Some? && !IsSet(Get(url.value, "search")) ==> r == Ok(QueryNews(snapshot))
  {
    match url
    case None => ServerError(FetchError)
    case Some(params) => Ok(RunQuery(SelectQuery(params), snapshot))
  }

  /** Two parameter lists agree on `name` where either has it set. */
  predicate AgreeWhereSet(p: Params, q: Params, name: string) {
    (IsSet(Get(p, name)) || IsSet(Get(q, name))) ==> Get(p, name) == Get(q, name)
  }

  /**
   * Only the set (present, non-empty) parameters decide the query: an
   * empty value is the same as no value at all.
   */
  lemma EmptyParamIsAbsent(p: Params, q: Params)
    requires AgreeWhereSet(p, q, "search") && AgreeWhereSet(p, q, "domain")
    requires AgreeWhereSet(p, q, "startDate") && AgreeWhereSet(p, q, "endDate")
    ensures SelectQuery(p) == SelectQuery(q)
  {
  }

  /** A parameter the handler does not read changes nothing, wherever it sits. */
  lemma OtherParamsIgnored(p: Params, i: nat, name: string, value: string)
    requires i <= |p| && !IsQueryParam(name)
    ensures SelectQuery(p[..i] + [(name, value)] + p[i..]) == SelectQuery(p)
  {
    GetSkipsOther(p, i, name, value, "search");
    GetSkipsOther(p, i, name, value, "domain");
    GetSkipsOther(p, i, name, value, "startDate");
    GetSkipsOther(p, i, name, value, "endDate");
  }

  /** `get` does not see a pair with another name. */
  lemma {:induction false} GetSkipsOther(p: Params, i: nat, name: string, value: string, wanted: string)
    requires i <= |p| && name != wanted
    ensures Get(p[..i] + [(name, value)] + p[i..], wanted) == Get(p, wanted)
    decreases i
  {
    var q := p[..i] + [(name, value)] + p[i..];
    if i == 0 {
      assert q[1..] == p;
    } else {
      assert q[0] == p[0];
      var p' := p[1..];
      assert q[1..] == p'[..i - 1] + [(name, value)] + p'[i - 1..];
      GetSkipsOther(p', i - 1, name, value, wanted);
    }
  }
}
