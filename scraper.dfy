/** `scrape_stackoverflow`: pick the first answered search hit, fetch its
    answers sorted by votes, and report the top one as plain text or as one of
    two sentinel strings. The two HTTP requests are inputs (`search` and
    `answersFor`) and the HTML-to-text conversion is the parameter
    `htmlToText`. */
module Scraper {
  import opened Wrappers
  import opened PyText

  /** One element of the search response's "items". Each field is `Some` when
      its key is present in the JSON object, since the source reads them with
      `dict.get`. */
  datatype SearchItem = SearchItem(isAnswered: Option<bool>, answerCount: Option<int>, questionId: Option<int>)

  /** The decoded search response; `items` is `None` when the key is absent. */
  datatype SearchResponse = SearchResponse(items: Option<seq<SearchItem>>)

  /** One answer, with its HTML body. */
  datatype Answer = Answer(body: string)

  /** The decoded answers response; `items` is `None` when the key is absent. */
  datatype AnswersResponse = AnswersResponse(items: Option<seq<Answer>>)

  /** The outcome of one HTTP request followed by `.json()`: either the decoded
      body or a `RequestException`. */
  datatype Fetch<T> = TransportError | Ok(value: T)

  /** The heads of the two sentinels: the prefixes `ask` tests for. */
  const NotFoundPrefix: string := "No relevant answer found"
  const FetchFailedPrefix: string := "Error fetching data"

  /** The sentinel for "no eligible question" and "no answers". */
  const NotFound: string := NotFoundPrefix + ". Try rewording your query."
  /** The sentinel for a `RequestException` in either request. */
  const FetchFailed: string := FetchFailedPrefix + " from Stack Overflow."

  lemma SentinelsStripped()
    ensures Stripped(NotFound) && Stripped(FetchFailed)
  {
    assert NotFound[0] == NotFoundPrefix[0] == 'N' && NotFound[|NotFound| - 1] == '.';
    assert FetchFailed[0] == FetchFailedPrefix[0] == 'E' && FetchFailed[|FetchFailed| - 1] == '.';
  }

  /** Each sentinel starts with its own prefix and the error sentinel does not
      start with the not-found prefix. */
  lemma SentinelPrefixes()
    ensures StartsWith(NotFound, NotFoundPrefix) && StartsWith(FetchFailed, FetchFailedPrefix)
    ensures !StartsWith(FetchFailed, NotFoundPrefix)
  {
    assert FetchFailed[0] == FetchFailedPrefix[0] == 'E';
    assert NotFoundPrefix[0] == 'N';
  }

  /** `item.get("answer_count", 0)`. */
  function AnswerCountOrZero(item: SearchItem): int
  {
    if item.answerCount.Some? then item.answerCount.value else 0
  }

  /** The selection test: `is_answered` is truthy and the answer count, 0 when
      absent, is positive. */
  predicate Eligible(item: SearchItem)
  {
    item.isAnswered == Some(true) && AnswerCountOrZero(item) > 0
  }

  /** The index of the first eligible item, in the order the search supplied. */
  function FirstEligible(items: seq<SearchItem>): (r: Option<nat>)
    ensures r.Some? ==> r.value < |items| && Eligible(items[r.value])
    ensures r.Some? ==> forall k :: 0 <= k < r.value ==> !Eligible(items[k])
    ensures r.None? <==> forall k :: 0 <= k < |items| ==> !Eligible(items[k])
  {
    if items == [] then None
    else if Eligible(items[0]) then Some(0)
    else
      match FirstEligible(items[1..])
      case None => None
      case Some(k) => Some(k + 1)
  }

  /** The eligible items, in order: an independent description of the selection
      as filter-then-take-first. */
  function EligibleItems(items: seq<SearchItem>): seq<SearchItem>
  {
    if items == [] then []
    else (if Eligible(items[0]) then [items[0]] else []) + EligibleItems(items[1..])
  }

  /** The scan agrees with filter-then-take-first: nothing is selected exactly
      when no item is eligible, and otherwise the selected item heads the list
      of eligible ones. */
  lemma {:induction false} FirstEligibleIsFilterHead(items: seq<SearchItem>)
    ensures FirstEligible(items).None? <==> EligibleItems(items) == []
    ensures FirstEligible(items).Some? ==> EligibleItems(items)[0] == items[FirstEligible(items).value]
  {
    if items != [] {
      FirstEligibleIsFilterHead(items[1..]);
      if !Eligible(items[0]) {
        assert EligibleItems(items) == EligibleItems(items[1..]);
        match FirstEligible(items[1..])
        case None =>
        case Some(k) =>
          assert items[1..][k] == items[k + 1];
      }
    }
  }

  /** The search item whose question is looked up, if any. */
  function SelectedItem(response: SearchResponse): (r: Option<SearchItem>)
    ensures r.Some? ==> response.items.Some? && r.value in response.items.value && Eligible(r.value)
    ensures r.None? <==> response.items.None? || forall k :: 0 <= k < |response.items.value| ==> !Eligible(response.items.value[k])
  {
    if response.items.None? then None
    else
      match FirstEligible(response.items.value)
      case None => None
      case Some(k) => Some(response.items.value[k])
  }

  /** What `scrape_stackoverflow` returns for the given responses: the
      specification that the method Scrape is proved to meet. */
  function ScrapeResult(search: Fetch<SearchResponse>, answersFor: Option<int> -> Fetch<AnswersResponse>,
                        htmlToText: string -> string): (r: string)
    ensures Stripped(r)
  {
    SentinelsStripped();
    match search
    case TransportError => FetchFailed
    case Ok(response) =>
      if response.items.None? || response.items.value == [] then NotFound
      else
        match FirstEligible(response.items.value)
        case None => NotFound
        case Some(k) =>
          match answersFor(response.items.value[k].questionId)
          case TransportError => FetchFailed
          case Ok(answers) =>
            if answers.items.Some? && answers.items.value != [] then Strip(htmlToText(answers.items.value[0].body))
            else NotFound
  }

  /** The scan of `scrape_stackoverflow`: a loop that breaks at the first
      eligible item, its `for ... else` branch reporting that none was found,
      and early returns for every outcome. */
  method Scrape(search: Fetch<SearchResponse>, answersFor: Option<int> -> Fetch<AnswersResponse>,
                htmlToText: string -> string) returns (r: string)
    ensures r == ScrapeResult(search, answersFor, htmlToText)
  {
    if search.TransportError? {
      return FetchFailed;
    }
    var response := search.value;
    if response.items.Some? && response.items.value != [] {
      var items := response.items.value;
      var questionId: Option<int> := None;
      var broke := false;
      var i := 0;
      while i < |items|
        invariant 0 <= i <= |items|
        invariant !broke
        invariant forall k :: 0 <= k < i ==> !Eligible(items[k])
      {
        if Eligible(items[i]) {
          questionId := items[i].questionId;
          broke := true;
          break;
        }
        i := i + 1;
      }
      if !broke {
        return NotFound;
      }
      assert FirstEligible(items) == Some(i);
      var answers := answersFor(questionId);
      if answers.TransportError? {
        return FetchFailed;
      }
      var answerItems := answers.value.items;
      if answerItems.Some? && answerItems.value != [] {
        return Strip(htmlToText(answerItems.value[0].body));
      }
    }
    return NotFound;
  }

  /** A failed search request yields the error sentinel and nothing else. */
  lemma SearchFailureReported(answersFor: Option<int> -> Fetch<AnswersResponse>, htmlToText: string -> string)
    ensures ScrapeResult(TransportError, answersFor, htmlToText) == FetchFailed
  {
  }

  /** Absent items, empty items, or items none of which is eligible: the
      not-found sentinel, whatever the answers endpoint would have said. */
  lemma NoEligibleItemIsNotFound(response: SearchResponse, answersFor: Option<int> -> Fetch<AnswersResponse>,
                                 htmlToText: string -> string)
    requires SelectedItem(response).None?
    ensures ScrapeResult(Ok(response), answersFor, htmlToText) == NotFound
  {
  }

  /** With an item selected, the result is decided by the answers request for
      that item's question id alone: a transport failure gives the error
      sentinel, a non-empty list the stripped text of its first (top-voted)
      element, and an absent or empty list the not-found sentinel. */
  lemma SelectedQuestionOutcome(response: SearchResponse, item: SearchItem,
                                answersFor: Option<int> -> Fetch<AnswersResponse>, htmlToText: string -> string)
    requires SelectedItem(response) == Some(item)
    ensures var r := ScrapeResult(Ok(response), answersFor, htmlToText);
            match answersFor(item.questionId)
            case TransportError => r == FetchFailed
            case Ok(answers) =>
              if answers.items.Some? && answers.items.value != []
              then r == Strip(htmlToText(answers.items.value[0].body))
              else r == NotFound
  {
  }

  /** Only the selected question's answers are consulted: two answer sources
      that agree on the selected question id give the same result. */
  lemma OnlySelectedAnswersMatter(search: Fetch<SearchResponse>, f: Option<int> -> Fetch<AnswersResponse>,
                                  g: Option<int> -> Fetch<AnswersResponse>, htmlToText: string -> string)
    requires search.Ok? && SelectedItem(search.value).Some? ==>
               f(SelectedItem(search.value).value.questionId) == g(SelectedItem(search.value).value.questionId)
    ensures ScrapeResult(search, f, htmlToText) == ScrapeResult(search, g, htmlToText)
  {
  }

  /** Putting ineligible items in front of the search hits changes nothing. */
  lemma {:induction false} IneligiblePrefixSkipped(pre: seq<SearchItem>, items: seq<SearchItem>)
    requires forall k :: 0 <= k < |pre| ==> !Eligible(pre[k])
    ensures FirstEligible(pre + items) ==
              match FirstEligible(items)
              case None => None
              case Some(k) => Some(|pre| + k)
  {
    if pre != [] {
      assert (pre + items)[0] == pre[0];
      assert (pre + items)[1..] == pre[1..] + items;
      IneligiblePrefixSkipped(pre[1..], items);
    } else {
      assert pre + items == items;
    }
  }

  /** The same for the whole scrape: unanswered or zero-answer items placed
      before the hits do not change the result. */
  lemma IneligiblePrefixKeepsResult(pre: seq<SearchItem>, items: seq<SearchItem>,
                                    answersFor: Option<int> -> Fetch<AnswersResponse>, htmlToText: string -> string)
    requires forall k :: 0 <= k < |pre| ==> !Eligible(pre[k])
    ensures ScrapeResult(Ok(SearchResponse(Some(pre + items))), answersFor, htmlToText)
            == ScrapeResult(Ok(SearchResponse(Some(items))), answersFor, htmlToText)
  {
    IneligiblePrefixSkipped(pre, items);
    match FirstEligible(items)
    case None =>
    case Some(k) =>
      assert (pre + items)[|pre| + k] == items[k];
  }
}
