# StackSummarize backend: answer selection and routing

A Dafny model of the decision logic of the StackSummarize backend
(`backend/server.py`). The backend takes a free-text programming question. It
searches Stack Overflow through the Stack Exchange API and picks the first
search hit that is answered and has at least one answer. It fetches that
question's answers sorted by votes and turns the top one's HTML body into
plain text. Finally it asks a text generator to summarize the answer for a
beginner. The `POST /ask` endpoint strips and validates the query. It then
turns the scrape's in-band sentinel strings into fixed user messages and calls
the generator only for a real answer.

The HTTP requests, the HTML-to-text library and the generator are not
modelled. Each becomes a parameter:

- `search: string -> Fetch<SearchResponse>` is the search request for a query
  (`requests.get(...).json()`); `TransportError` stands for a
  `RequestException`.
- `answersFor: Option<int> -> Fetch<AnswersResponse>` is the answers request
  for a question id. The id is an `Option` because the source reads it with
  `item.get("question_id")`.
- `htmlToText: string -> string` is BeautifulSoup's `.text`. The model applies
  Python's `strip()` after it, as the source does.
- `generate: string -> string` is the generator's reply text for a prompt, in
  one run.

Modules:

- `PyText` (text.dfy): Python's `str.strip()`, with the whitespace set of
  `str.isspace()`, and `str.startswith`. Stripping is defined and proved
  for any set of characters to remove (`StripOf`), then used with
  `IsSpace`.
- `Scraper` (scraper.dfy): `scrape_stackoverflow`. The method `Scrape` keeps
  the source's loop, which breaks at the first eligible item and has a
  `for ... else` branch, plus its early returns. It is proved equal to the
  pure `ScrapeResult`, and the lemmas about the selection are stated over
  `ScrapeResult`.
- `Summarizer` (summarizer.dfy): the prompt template of `summarize_text`, its
  inverse `PromptSlots`, and the stripped generator reply.
- `Endpoint` (endpoint.dfy): `ask`. It returns an `AskTrace`: the response,
  plus the query handed to the scrape and the prompt handed to the generator
  when those calls happen. With that record, "rejected before any request"
  and "no generator call" become equalities. `Ask` is a function over
  `ScrapeResult`, the specification `Scrape` meets, because Dafny functions
  cannot call methods.
- `Wrappers` (wrappers.dfy): `Option`.

`Prompt` is a Dafny function, so the same query and text always give the same
prompt. The prompt places both verbatim into the template, and `PromptSlots`
reads them back. The template does not escape the quotes around the two
slots. Because of that, the query's length is needed to split a prompt, and
`PromptNotEscaped` shows two different (query, text) pairs that give the same
prompt.

The scrape reports every outcome, errors included, as a plain string, and
`ask` classifies that string by prefix. As a result, a real top answer whose
text begins with "Error fetching data" gets the retrieval-error message and is
never summarized (`AnswerLikeSentinelMisrouted`). Likewise, one beginning with
"No relevant answer found" gets the not-found message. The model keeps this
behaviour, because it is what the code does.

## Model

| member | source | states |
|---|---|---|
| `PyText.Strip` | backend/server.py:150 | `strip()` returns a string that neither begins nor ends with whitespace, and the result is empty exactly when the input is empty or all whitespace |
| `PyText.StripRemovesOnlySpace` | backend/server.py:150 | the input is the result of `strip()` with some whitespace in front of it and some behind: nothing else is removed or changed |
| `PyText.StripPadded` | backend/server.py:150 | whitespace on both sides of a stripped string is exactly what `strip()` removes; with the row above this pins down the result |
| `PyText.StripIdempotent` | backend/server.py:150 | stripping twice is the same as stripping once |
| `Scraper.FirstEligible` | backend/server.py:73-76 | the index returned is the first item, in the order the search supplied, that has `is_answered` true and an answer count above 0, with a missing count taken as 0; no index means no item qualifies |
| `Scraper.FirstEligibleIsFilterHead` | backend/server.py:73-78 | the scan agrees with filter-then-take-first: nothing is selected exactly when the filtered list is empty, and otherwise the selected item heads that list |
| `Scraper.SelectedItem` | backend/server.py:71-78 | a selected item is an eligible member of `items`; nothing is selected exactly when `items` is absent or has no eligible item |
| `Scraper.ScrapeResult` | backend/server.py:61-96 | every outcome the scrape reports, whether a sentinel or an answer, is already stripped |
| `Scraper.Scrape` | backend/server.py:61-96 | the loop with its early exits returns exactly `ScrapeResult` of the two responses |
| `Scraper.SearchFailureReported` | backend/server.py:67-94 | a transport failure of the search request yields exactly "Error fetching data from Stack Overflow." |
| `Scraper.NoEligibleItemIsNotFound` | backend/server.py:71-96 | absent, empty, or wholly ineligible `items` yield exactly "No relevant answer found. Try rewording your query.", whatever the answers endpoint would say |
| `Scraper.SelectedQuestionOutcome` | backend/server.py:80-96 | for the selected question: a failed answers request yields the error sentinel, a non-empty answers list the stripped plain text of its first (top-voted) body, and an absent or empty list the not-found sentinel |
| `Scraper.OnlySelectedAnswersMatter` | backend/server.py:75-84 | only the answers of the selected question id are consulted: two answer sources that agree there give the same result |
| `Scraper.IneligiblePrefixSkipped` | backend/server.py:73-76 | ineligible items before the hits shift the selected index by their number and change nothing else |
| `Scraper.IneligiblePrefixKeepsResult` | backend/server.py:71-96 | unanswered or zero-answer items placed before the hits do not change the scrape result |
| `Scraper.SentinelPrefixes` | backend/server.py:157-161 | each sentinel starts with the prefix `ask` tests for it, and the error sentinel does not start with the not-found prefix, which `ask` tests first |
| `Summarizer.PromptRoundTrip` | backend/server.py:130-140 | the prompt holds the query and the answer text verbatim at fixed places in the template, and both can be read back |
| `Summarizer.PromptSlotsSound` | backend/server.py:130-140 | whatever is read back out of a prompt rebuilds exactly that prompt |
| `Summarizer.PromptInjective` | backend/server.py:130-140 | for queries of equal length, equal prompts come only from equal queries and equal texts |
| `Summarizer.PromptNotEscaped` | backend/server.py:133-137 | the quotes in the template are not escaped: two different query/text pairs can give the same prompt |
| `Summarizer.Summarize` | backend/server.py:142-144 | the summary is the generator's reply to the prompt with only surrounding whitespace removed: the reply is the summary with whitespace in front and behind, the summary has no surrounding whitespace, and it is empty exactly when the reply is blank |
| `Endpoint.Ask` | backend/server.py:148-166 | a rejection has status 400 and exactly then the scrape is not run; a generator call happens only after a scrape; the query searched for is stripped and non-empty |
| `Endpoint.BlankQueryRejected` | backend/server.py:150-153 | a query is rejected with 400 "Query is required" exactly when it is empty or all whitespace, and then neither the scrape nor the generator is invoked |
| `Endpoint.QueryStripped` | backend/server.py:150-155 | surrounding whitespace in the query changes nothing, neither the response nor the calls made |
| `Endpoint.GeneratesOnlyForAnswers` | backend/server.py:155-166 | the generator is called exactly when the scrape result starts with neither sentinel prefix; its prompt holds the stripped query and the scrape text verbatim and the reply is its stripped output; otherwise the reply is the not-found message when that prefix matches, tested first, and the retrieval message when not |
| `Endpoint.SearchFailureMessage` | backend/server.py:155-161 | a failed search request ends in "There was an issue retrieving data. Please try again later." with no generator call |
| `Endpoint.NothingEligibleMessage` | backend/server.py:155-158 | no eligible search hit ends in "I couldn't find a relevant answer. Try rewording your question." with no generator call |
| `Endpoint.SelectedQuestionMessage` | backend/server.py:155-166 | for the selected question: a failed answers request gives the retrieval message, no answers the not-found message, both without a generator call; a top answer starting with neither prefix is summarized from the prompt of the stripped query and its text |
| `Endpoint.AnswerLikeSentinelMisrouted` | backend/server.py:157-161 | a real top answer whose text starts with "Error fetching data" is answered with the retrieval message and never summarized, although both requests succeeded |

## Left out

- HTTP requests and `.json()`: they are the inputs `search` and `answersFor`. The URL strings they are built from are not modelled. A `.json()` failure that is not a `RequestException` is not modelled either.
- BeautifulSoup: the parameter `htmlToText`, so HTML parsing is not modelled.
- The Gemini client: its configuration, its system instruction and `generate_content` are out of scope. The parameter `generate` stands for the reply text of one run. Nondeterminism across runs, a failed call and a blocked reply (`response.text` raising) are not modelled.
- A missing `"body"` key in an answer (an uncaught `KeyError`) is not modelled. The request asks for `filter=withbody`, so `Answer` always carries a body.
- An `answer_count` key that is present with a null value (a `TypeError` in the comparison) is not modelled. The field is either absent or an integer.
- JSON values of other types, such as a non-boolean `is_answered` or a non-list `items`, are not modelled. `is_answered` is an optional boolean and only `true` counts as truthy.
- Loading the environment and the startup `ValueError` for a missing API key are process bootstrap, not modelled.
- The FastAPI app, the CORS middleware and the pydantic request model are framework plumbing, not modelled. The 400 rejection is the `Rejected` response.
- Debug `print` calls are not modelled.
- The commented-out `refine_query` is dead code, not modelled.
- The frontend (React components and the axios call) is not part of this model.
- A Markdown normaliser (one code fence, bolded identifiers and loop keywords) has no implementation in `backend/server.py`, so it is not modelled.
