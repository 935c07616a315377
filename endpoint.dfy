/** The `POST /ask` handler: strip the query, reject a blank one with status
    400, scrape, route the two sentinel results to fixed user messages, and
    summarize only a real answer. The result records, beside the response,
    which query was searched for and which prompt reached the generator, so
    that "never invoked" can be stated. */
module Endpoint {
  import opened Wrappers
  import opened PyText
  import opened Scraper
  import opened Summarizer

  /** An `HTTPException` raised by the handler, or the `{"answer": ...}` body. */
  datatype Response = Rejected(status: int, detail: string) | Replied(answer: string)

  /** The response with the calls made to produce it: the query handed to the
      scrape, if it ran, and the prompt handed to the generator, if it ran. */
  datatype AskTrace = AskTrace(response: Response, searchedFor: Option<string>, generatedFrom: Option<string>)

  const BadRequest: int := 400
  const QueryRequired: string := "Query is required"
  const NoAnswerMessage: string := "I couldn't find a relevant answer. Try rewording your question."
  const RetrievalMessage: string := "There was an issue retrieving data. Please try again later."

  /** `ask`. The search request is a function of the query it is made for; the
      answers request, the HTML conversion and the generator are as for the
      scrape and the summary. */
  function Ask(rawQuery: string, search: string -> Fetch<SearchResponse>,
               answersFor: Option<int> -> Fetch<AnswersResponse>,
               htmlToText: string -> string, generate: string -> string): (r: AskTrace)
    ensures r.response.Rejected? <==> r.searchedFor.None?
    ensures r.response.Rejected? ==> r.response.status == BadRequest
    ensures r.generatedFrom.Some? ==> r.searchedFor.Some?
    ensures r.searchedFor.Some? ==> r.searchedFor.value != [] && Stripped(r.searchedFor.value)
  {
    var query := Strip(rawQuery);
    if query == [] then AskTrace(Rejected(BadRequest, QueryRequired), None, None)
    else
      var found := ScrapeResult(search(query), answersFor, htmlToText);
      if StartsWith(found, NotFoundPrefix) then AskTrace(Replied(NoAnswerMessage), Some(query), None)
      else if StartsWith(found, FetchFailedPrefix) then AskTrace(Replied(RetrievalMessage), Some(query), None)
      else AskTrace(Replied(Summarize(query, found, generate)), Some(query), Some(Prompt(query, found)))
  }

  /** A query that is empty or whitespace only, and only such a query, is
      rejected with 400 "Query is required", before any request is made. */
  lemma BlankQueryRejected(rawQuery: string, search: string -> Fetch<SearchResponse>,
                           answersFor: Option<int> -> Fetch<AnswersResponse>,
                           htmlToText: string -> string, generate: string -> string)
    ensures Ask(rawQuery, search, answersFor, htmlToText, generate).response.Rejected? <==> AllSpace(rawQuery)
    ensures AllSpace(rawQuery) ==>
              Ask(rawQuery, search, answersFor, htmlToText, generate)
              == AskTrace(Rejected(BadRequest, QueryRequired), None, None)
  {
    var r := Ask(rawQuery, search, answersFor, htmlToText, generate);
    if !AllSpace(rawQuery) {
      assert r.searchedFor.Some?;
    }
  }

  /** Surrounding whitespace in the query makes no difference at all. */
  lemma QueryStripped(rawQuery: string, search: string -> Fetch<SearchResponse>,
                      answersFor: Option<int> -> Fetch<AnswersResponse>,
                      htmlToText: string -> string, generate: string -> string)
    ensures Ask(rawQuery, search, answersFor, htmlToText, generate)
            == Ask(Strip(rawQuery), search, answersFor, htmlToText, generate)
  {
    StripIdempotent(rawQuery);
  }

  /** The generator is called exactly when the scrape result starts with
      neither sentinel prefix, and then with the prompt built from the stripped
      query and that result; every reply is one of the two fixed messages or
      the generator's stripped output. */
  lemma GeneratesOnlyForAnswers(rawQuery: string, search: string -> Fetch<SearchResponse>,
                                answersFor: Option<int> -> Fetch<AnswersResponse>,
                                htmlToText: string -> string, generate: string -> string)
    requires !AllSpace(rawQuery)
    ensures var query := Strip(rawQuery);
            var found := ScrapeResult(search(query), answersFor, htmlToText);
            var r := Ask(rawQuery, search, answersFor, htmlToText, generate);
            && r.searchedFor == Some(query)
            && (r.generatedFrom.Some? <==> !StartsWith(found, NotFoundPrefix) && !StartsWith(found, FetchFailedPrefix))
            && (r.generatedFrom.Some? ==>
                  && PromptSlots(r.generatedFrom.value, |query|) == Some((query, found))
                  && r.response == Replied(Strip(generate(r.generatedFrom.value))))
            && (r.generatedFrom.None? ==>
                  r.response == Replied(if StartsWith(found, NotFoundPrefix) then NoAnswerMessage else RetrievalMessage))
  {
    PromptRoundTrip(Strip(rawQuery), ScrapeResult(search(Strip(rawQuery)), answersFor, htmlToText));
  }

  /** A failed search request ends in the retrieval message, without a
      generator call. */
  lemma SearchFailureMessage(rawQuery: string, search: string -> Fetch<SearchResponse>,
                             answersFor: Option<int> -> Fetch<AnswersResponse>,
                             htmlToText: string -> string, generate: string -> string)
    requires !AllSpace(rawQuery) && search(Strip(rawQuery)).TransportError?
    ensures Ask(rawQuery, search, answersFor, htmlToText, generate)
            == AskTrace(Replied(RetrievalMessage), Some(Strip(rawQuery)), None)
  {
    SentinelPrefixes();
  }

  /** No eligible search hit ends in the not-found message, without a
      generator call. */
  lemma NothingEligibleMessage(rawQuery: string, search: string -> Fetch<SearchResponse>,
                               answersFor: Option<int> -> Fetch<AnswersResponse>,
                               htmlToText: string -> string, generate: string -> string)
    requires !AllSpace(rawQuery)
    requires search(Strip(rawQuery)).Ok? && SelectedItem(search(Strip(rawQuery)).value).None?
    ensures Ask(rawQuery, search, answersFor, htmlToText, generate)
            == AskTrace(Replied(NoAnswerMessage), Some(Strip(rawQuery)), None)
  {
    SentinelPrefixes();
  }

  /** For the selected question: a failed answers request gives the retrieval
      message, an absent or empty answers list the not-found message, neither
      with a generator call; a top answer whose text starts with neither
      sentinel prefix is summarized with the prompt built from the stripped
      query and that text. */
  lemma SelectedQuestionMessage(rawQuery: string, search: string -> Fetch<SearchResponse>, item: SearchItem,
                                answersFor: Option<int> -> Fetch<AnswersResponse>,
                                htmlToText: string -> string, generate: string -> string)
    requires !AllSpace(rawQuery)
    requires search(Strip(rawQuery)).Ok? && SelectedItem(search(Strip(rawQuery)).value) == Some(item)
    ensures var query := Strip(rawQuery);
            var r := Ask(rawQuery, search, answersFor, htmlToText, generate);
            match answersFor(item.questionId)
            case TransportError => r == AskTrace(Replied(RetrievalMessage), Some(query), None)
            case Ok(answers) =>
              if answers.items.None? || answers.items.value == [] then
                r == AskTrace(Replied(NoAnswerMessage), Some(query), None)
              else
                var text := Strip(htmlToText(answers.items.value[0].body));
                !StartsWith(text, NotFoundPrefix) && !StartsWith(text, FetchFailedPrefix) ==>
                  r == AskTrace(Replied(Strip(generate(Prompt(query, text)))), Some(query), Some(Prompt(query, text)))
  {
    var query := Strip(rawQuery);
    var found := ScrapeResult(search(query), answersFor, htmlToText);
    SentinelPrefixes();
    SelectedQuestionOutcome(search(query).value, item, answersFor, htmlToText);
    match answersFor(item.questionId)
    case TransportError =>
      assert found == FetchFailed;
    case Ok(answers) =>
      if answers.items.None? || answers.items.value == [] {
        assert found == NotFound;
      } else {
        assert found == Strip(htmlToText(answers.items.value[0].body));
      }
  }

  /** The sentinels travel in band: a genuine top answer whose text begins
      with "Error fetching data" is reported as a retrieval failure and never
      summarized, although both requests succeeded. */
  lemma AnswerLikeSentinelMisrouted(rawQuery: string, search: string -> Fetch<SearchResponse>, item: SearchItem,
                                    answers: seq<Answer>, htmlToText: string -> string, generate: string -> string)
    requires !AllSpace(rawQuery)
    requires search(Strip(rawQuery)).Ok? && SelectedItem(search(Strip(rawQuery)).value) == Some(item)
    requires answers != [] && StartsWith(Strip(htmlToText(answers[0].body)), FetchFailedPrefix)
    ensures var answersFor := (id: Option<int>) => Ok(AnswersResponse(Some(answers)));
            Ask(rawQuery, search, answersFor, htmlToText, generate)
            == AskTrace(Replied(RetrievalMessage), Some(Strip(rawQuery)), None)
  {
    var answersFor := (id: Option<int>) => Ok(AnswersResponse(Some(answers)));
    var text := Strip(htmlToText(answers[0].body));
    SelectedQuestionOutcome(search(Strip(rawQuery)).value, item, answersFor, htmlToText);
    assert !StartsWith(text, NotFoundPrefix) by {
      SentinelPrefixes();
      assert text[0] == FetchFailedPrefix[0] == 'E';
      assert NotFoundPrefix[0] == 'N';
    }
  }
}
