/**
 * components/summary-panel.tsx: the line describing which news a summary
 * covers, and the panel's `summary` / `isLoading` / `error` state as it
 * moves through a summary request.  The request itself (a POST to
 * /api/summarize) is not modelled: what it yields is an `Outcome`.
 */
module SummaryPanel {
  import opened Wrappers
  import opened Text
  import opened Dates
  import opened Firebase
  import opened FilterPanel

  /** How a summary request ends: the response's `summary` text, or any thrown error. */
  datatype Outcome = Succeeded(summary: string) | Failed

  /** The message shown after a failed request. */
  const RetryMessage: string := "Failed to generate summary. Please try again."

  /** The separator between the parts of the context line. */
  const Bullet: string := " \U{2022} "

  /** The context line when no filter is selected. */
  const AllNews: string := "All news"

  /** The domain part of the context line. */
  function DomainContext(domain: string): string {
    domain + " domain"
  }

  /** The date part of the context line: both ends in the runtime's default date format. */
  function RangeContext(range: DateRange, locale: Locale): string {
    locale.defaultDate(range.from) + " - " + locale.defaultDate(range.to)
  }

  /**
   * `getSummaryContext`: collects "<domain> domain" when a domain is
   * selected and the date range when one is, domain first, joined by
   * " • "; with neither, "All news".
   */
  method GetSummaryContext(selectedDomain: Option<string>, selectedDateRange: Option<DateRange>, locale: Locale)
    returns (r: string)
    ensures !IsSet(selectedDomain) && selectedDateRange.None? ==> r == AllNews
    ensures IsSet(selectedDomain) && selectedDateRange.None? ==> r == DomainContext(selectedDomain.value)
    ensures !IsSet(selectedDomain) && selectedDateRange.Some? ==>
      r == RangeContext(selectedDateRange.value, locale)
    ensures IsSet(selectedDomain) && selectedDateRange.Some? ==>
      r == DomainContext(selectedDomain.value) + Bullet + RangeContext(selectedDateRange.value, locale)
    ensures r != []
  {
    var contexts: seq<string> := [];
    if IsSet(selectedDomain) {
      contexts := contexts + [DomainContext(selectedDomain.value)];
    }
    if selectedDateRange.Some? {
      contexts := contexts + [RangeContext(selectedDateRange.value, locale)];
    }
    if |contexts| > 0 {
      if |contexts| == 2 {
        JoinPair(contexts[0], contexts[1], Bullet);
        assert contexts == [contexts[0], contexts[1]];
      }
      r := Join(contexts, Bullet);
    } else {
      r := AllNews;
    }
  }

  /** Joining two parts puts the separator between them. */
  lemma JoinPair(a: string, b: string, sep: string)
    ensures Join([a, b], sep) == a + sep + b
  {
    assert [a, b][1..] == [b];
  }

  /** The summary card's state. */
  class SummaryPanel {
    var summary: string
    var isLoading: bool
    var error: string

    /** The card starts with no summary, not loading and no error. */
    constructor()
      ensures summary == [] && !isLoading && error == []
    {
      summary := [];
      isLoading := false;
      error := [];
    }

    /** Nothing to show but the "Generate Summary" prompt. */
    predicate ShowsPrompt()
      reads this
    {
      summary == [] && !isLoading
    }

    /** The start of a request: loading, with any earlier error cleared. */
    method BeginRequest()
      modifies this
      ensures isLoading && error == []
      ensures summary == old(summary)
    {
      isLoading := true;
      error := [];
    }

    /**
     * The end of a request: a success replaces the summary, a failure sets
     * the retry message and keeps the summary; either way loading stops.
     */
    method FinishRequest(outcome: Outcome)
      modifies this
      ensures !isLoading
      ensures outcome.Succeeded? ==> summary == outcome.summary && error == old(error)
      ensures outcome.Failed? ==> error == RetryMessage && summary == old(summary)
    {
      match outcome {
        case Succeeded(text) =>
          summary := text;
        case Failed =>
          error := RetryMessage;
      }
      isLoading := false;
    }

    /**
     * `generateSummary`: with no news it neither requests nor changes
     * anything; otherwise it begins a request and finishes it with
     * `outcome`.  `requested` says whether a request was made.
     */
    method GenerateSummary(news: seq<NewsItem>, outcome: Outcome) returns (requested: bool)
      modifies this
      ensures requested <==> news != []
      ensures !requested ==> summary == old(summary) && isLoading == old(isLoading) && error == old(error)
      ensures requested ==> !isLoading
      ensures requested && outcome.Succeeded? ==> summary == outcome.summary && error == []
      ensures requested && outcome.Failed? ==> summary == old(summary) && error == RetryMessage
    {
      if |news| == 0 {
        return false;
      }
      requested := true;
      BeginRequest();
      FinishRequest(outcome);
    }

    /** `clearSummary`: the summary and the error go; loading is untouched. */
    method ClearSummary()
      modifies this
      ensures summary == [] && error == []
      ensures isLoading == old(isLoading)
      ensures !isLoading ==> ShowsPrompt()
    {
      summary := [];
      error := [];
    }
  }
}
