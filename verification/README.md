# Flight scraper and page summariser: decision logic

This project models the pure decision logic of two scripts and proves
properties of it in Dafny.

- **The flight-search scraper** (`playwright_script.py`). It covers:
  - the rules that turn one result card into a flat flight record;
  - the per-card isolation of `extract_flight_data`;
  - the `%Y-%m-%d` date check and the calendar-day choice of `select_date`;
  - the step order of `scrape_flights`;
  - the status and envelope decision of the `GET /flight-search` handler `search_flights`.
- **The page summariser** (`sol3.py`). It covers the text cleaning of
  `fetch_and_clean_content` and the empty-content guard of
  `get_summary_from_gemini`.

The browser, the network and the Gemini API are not modelled. Their observable
outcomes become inputs:

- A result card is the list of elements each CSS selector matches inside it.
  An element's text may be unreadable, which stands for a Playwright read that
  raises.
- A browser session is the outcome of each step.
- A web page is an already-parsed tree of tagged elements and text leaves.
- The summariser's API call is its reply or the text of the exception it raised.

Modules:

- `Results` (results.dfy): `Option` and `Result`.
- `StringOps` (string_ops.dfy): Python's `strip()`, `split()`, `' '.join`,
  `in` and `split(sep)[0]`, using the whitespace set of `str.isspace()`.
- `FlightCard` and `CardProperties` (flight_card.dfy): the per-card field rules,
  and their properties.
- `Extraction` (extraction.dfy): the page-level loop that keeps the cards
  that extract.
- `JourneyDate` (journey_date.dfy): `datetime.strptime(s, "%Y-%m-%d")` and `str(day)`.
- `Scraper` (scraper.dfy): `select_date` and `scrape_flights`.
- `Endpoint` (endpoint.dfy): `search_flights`, both as written and as evidently intended.
- `PageText` (page_text.dfy): tag removal, paragraph text, body fallback and
  whitespace collapse.
- `Summarizer` (summarizer.dfy): `get_summary_from_gemini` around the API call.

The model follows the code, not the documentation, in two places:

- **Looser date format.** The date check accepts more than the `YYYY-MM-DD` its
  error message asks for. `strptime` lets `%m` and `%d` match one digit, and
  lets `%d` match a space followed by a digit. So `"2025-1-5"` and `"2025-10- 8"`
  are accepted (`JourneyDate.UnpaddedExample`, `JourneyDate.ParseDateExact`).
- **Destination code selector.** The destination code is the second match of
  the broad `.text-extra-dark` selector. It is not the second match of the
  narrower selector the origin code uses (playwright_script.py:59 and 72-73).
  The other destination fields do use the second match of the origin's selectors.

## Model

| member | source | states |
|---|---|---|
| StringOps.Strip | playwright_script.py:55-56 | `strip()` returns a string with no whitespace at either end, no longer than its input, and leaves exactly the already-stripped strings unchanged |
| StringOps.StripParts | playwright_script.py:55-56 | the input is the stripped result with a run of whitespace before it and one after it |
| StringOps.WordsOfStrip | sol3.py:34-38 | stripping never changes the words `split()` finds |
| StringOps.BeforeFirst | playwright_script.py:120 | `text.split('/')[0]` is a prefix of the text without `/`, and is shorter than the text exactly when the text holds a `/`, which then follows it |
| StringOps.Collapse | sol3.py:38 | `' '.join(s.split())` is collapsed (stripped, only single plain spaces between words), has the same words as its input, and equals its input exactly when the input is already collapsed |
| StringOps.CollapseIdempotent | sol3.py:38 | collapsing twice gives the same text as collapsing once |
| StringOps.CollapsedIsFixpoint | sol3.py:38 | a collapsed text is the single-space join of its own words |
| StringOps.WordsOfJoin | sol3.py:38 | joining whitespace-free, non-empty words with one space and splitting again gives back the words |
| StringOps.WordsOfJoinAll | sol3.py:36-38 | the words of the space-joined parts are the words of each part, in order |
| StringOps.JoinOfWordsCollapsed | sol3.py:38 | the space-join of words has no whitespace at the ends and no two adjacent whitespace characters |
| FlightCard.TextAt | playwright_script.py:53-56 | a field is the trimmed text of the chosen match, `''` when there are too few matches, and fails exactly when the chosen element cannot be read |
| FlightCard.LegAt | playwright_script.py:59-87 | a leg's code, city, time and date are read at the same ordinal, and the leg fails exactly when one of those four elements cannot be read |
| FlightCard.StopsAt | playwright_script.py:93-101 | with no stops element the result is `'Non-stop'` with an empty layover; otherwise it is the element's trimmed text, and the layover is the trimmed `data-balloon` or `''` |
| FlightCard.SeatsAt | playwright_script.py:130-138 | available seats is `''` or the first seats element's trimmed text, and it is the text exactly when that text contains `Seat` |
| FlightCard.BaggageStep | playwright_script.py:116-124 | a text without `Kgs` changes nothing; with a `/` only check-in changes, to the trimmed part before the first `/`; otherwise it fills an empty check-in, or else overwrites hand |
| FlightCard.WeightTexts | playwright_script.py:116-118 | the texts that contain `Kgs`, and every such text |
| FlightCard.ReadFrom | playwright_script.py:116-117 | reading a list of elements fails exactly when one of them cannot be read, and otherwise yields each element's text in order |
| FlightCard.AllTexts | playwright_script.py:112-117 | the trimmed texts of all action-bar elements, one per element, and a failure exactly when one cannot be read |
| FlightCard.ExtractCard | playwright_script.py:49-144 | a card yields a record exactly when every element the extractor reads can be read |
| CardProperties.BaggageSplit | playwright_script.py:116-124 | the baggage loop over two lists in a row is the loop over the second, started from the result of the first |
| CardProperties.BaggageSkipsUnweighted | playwright_script.py:116-118 | removing a text without `Kgs` from anywhere in the list changes neither baggage field |
| CardProperties.BaggageOfWeightTexts | playwright_script.py:116-124 | the baggage fields depend only on the texts with `Kgs`, in their order |
| CardProperties.BaggageFilled | playwright_script.py:121-124 | once check-in is set, slash-free texts leave it alone and hand ends as the last of them |
| CardProperties.SlashFreeBaggage | playwright_script.py:116-127 | without any `/`, check-in is the first text with `Kgs` and hand is the last one when there are at least two, else `''` |
| CardProperties.HandBaggageOrigin | playwright_script.py:116-127 | hand baggage is unchanged or is one of the texts, one that contains `Kgs` and no `/` |
| CardProperties.CheckinBaggageOrigin | playwright_script.py:116-127 | check-in is unchanged, or a slash-free text with `Kgs`, or the trimmed prefix before `/` of a text with `Kgs` |
| CardProperties.SlashedBaggageExample | playwright_script.py:118-120 | `"20 Kgs/7 Kgs"` gives check-in `"20 Kgs"` and leaves hand baggage empty |
| CardProperties.MissingSelectorBlanksOnlyItsFields | playwright_script.py:52-142 | removing every match of one selector from a card that extracts still extracts; exactly the fields read through that selector fall back (`''`, or `'Non-stop'` for stops) and all others stay the same, given selector lists that do not nest (see Left out) |
| CardProperties.DepartureFromFirstMatch | playwright_script.py:53-69 | airline, flight number, origin code, city, time, date and terminal are the trimmed first match of their selectors, or `''` |
| CardProperties.ArrivalFromSecondMatch | playwright_script.py:71-87 | destination code, city, time and date are the trimmed second match of their selectors, or `''` when there are fewer than two |
| CardProperties.RemainingFields | playwright_script.py:89-142 | duration, price, promo and next-day come from the first match; stops fall back to `'Non-stop'` without layover; seats are `''` or a trimmed text with `Seat`; baggage is the fold over all action-bar texts |
| Extraction.ExtractFlightData | playwright_script.py:37-153 | no flights when the cards cannot be located, otherwise at most one flight per card |
| Extraction.ExtractFlightDataLoop | playwright_script.py:42-149 | the loop that appends each successful card's record computes the page's flights |
| Extraction.ExtractAllConcat | playwright_script.py:48-147 | extracting two runs of cards is extracting each run, concatenated |
| Extraction.FailedCardDropped | playwright_script.py:146-147 | a card that raises is skipped and its neighbours' records are kept |
| Extraction.AllCardsKept | playwright_script.py:48-144 | when every card extracts, the flights are the cards' records, one for one and in order |
| Extraction.SuccessPositions | playwright_script.py:48-147 | the collected values are exactly the successful outcomes, in increasing position order, and no success is missed |
| Extraction.Survivors | playwright_script.py:44-153 | the flights are exactly the records of the readable cards, in document order |
| JourneyDate.DaysInMonth | playwright_script.py:203 | month lengths are 28 to 31, with 29 exactly for February of a Gregorian leap year |
| JourneyDate.MonthToken | playwright_script.py:203 | `%m` reads a month from 1 to 12 from one or two characters, which spell that month |
| JourneyDate.DayToken | playwright_script.py:203 | `%d` reads a day from 1 to 31 from one or two characters, which spell that day (zero- or space-padded, or bare) |
| JourneyDate.Iso | playwright_script.py:203 | the ten-character `YYYY-MM-DD` spelling is one of the date's renderings |
| JourneyDate.ParseDate | playwright_script.py:203 | an accepted text names a real calendar date, and the text is one of that date's renderings |
| JourneyDate.ParseRendering | playwright_script.py:203 | every rendering of a real date is accepted as that date |
| JourneyDate.ParseDateExact | playwright_script.py:329-336 | the date check accepts a text as a date exactly when the date is real and the text is one of its renderings |
| JourneyDate.ParseIso | playwright_script.py:329-336 | every real date round-trips through its `YYYY-MM-DD` spelling |
| JourneyDate.LeapDay | playwright_script.py:203 | `YYYY-02-29` is accepted exactly in Gregorian leap years |
| JourneyDate.UnpaddedExample | playwright_script.py:203 | `"2025-1-5"` is accepted as 5 January 2025 |
| JourneyDate.DocumentedExample | playwright_script.py:335 | the documented example `"2025-10-18"` is accepted |
| JourneyDate.RejectedLayouts | playwright_script.py:330-336 | `"2025/10/18"`, `"18-10-2025"` and `""` are rejected |
| JourneyDate.RejectedYearZero | playwright_script.py:203 | year 0 is rejected |
| JourneyDate.RejectedLeapDays | playwright_script.py:203 | 29 February 2025 and 29 February 1900 are rejected |
| JourneyDate.RejectedMonthEnd | playwright_script.py:203 | 31 April is rejected |
| JourneyDate.DayText | playwright_script.py:204-216 | `str(day)` is one or two decimal digits, with no leading zero, whose value is the day |
| JourneyDate.DayTextInjective | playwright_script.py:216 | different days give different `data-day` texts |
| Scraper.FirstSelectable | playwright_script.py:220-222 | the first enabled cell whose `data-day` is the day, with no such cell before it; or none at all |
| Scraper.ClickDate | playwright_script.py:194-232 | a cell is clicked exactly when the date parses, the calendar opens and some enabled cell shows the day; it is the first such cell |
| Scraper.ClickedDayMatches | playwright_script.py:203-222 | the clicked cell's `data-day` spells the requested day of the month in decimal without a leading zero |
| Scraper.ScrapeFlights | playwright_script.py:234-305 | the steps run in order and the browser is closed on every path; the run succeeds exactly when navigation, both city selections and the search click succeed, and its flights are then the extractor's |
| Scraper.OriginFailureAborts | playwright_script.py:260-263 | a failed origin selection stops before the destination, with `Failed to select origin city` |
| Scraper.DestinationFailureAborts | playwright_script.py:269-272 | a failed destination selection stops before the date, with `Failed to select destination city` |
| Scraper.DateSelectionNotFatal | playwright_script.py:277-280 | neither the date text nor the calendar changes the steps or the outcome |
| Scraper.DateClickedWhenReached | playwright_script.py:276-277 | a session that reaches the date clicks the cell `select_date` picks |
| Endpoint.Found | playwright_script.py:341-362 | status 200 echoing the query; `total_flights` equals the number of flights exactly when there are some, and the message takes its place exactly when there are none |
| Endpoint.AfterScrape | playwright_script.py:339-368 | a finished scrape answers with the envelope; a raised scrape answers 500 with `Error scraping flights: ` and the exception's text |
| Endpoint.SearchFlightsAsWritten | playwright_script.py:328-368 | as written, a bad date answers 500 with the 400's text embedded and never runs the scraper; a good date answers as the scrape does |
| Endpoint.SearchFlights | playwright_script.py:328-368 | a bad date answers 400 with the fixed detail and never runs the scraper; the status is 200, 400 or 500, and 200 carries the scrape's envelope |
| Endpoint.SameOnValidDates | playwright_script.py:339-362 | on a date that parses, the two versions answer alike |
| Endpoint.SlashedDateAnswered500 | playwright_script.py:330-336 | for `"2025/10/18"` the code as written answers 500 with `Error scraping flights: 400: Invalid date format...`, where 400 was intended |
| Endpoint.SuccessfulSearch | playwright_script.py:339-362 | a valid search whose scraper finishes answers 200 with the page's flights, with `total_flights` or the no-flights message |
| Endpoint.FailedSearch | playwright_script.py:364-368 | a scraper failure on a valid date answers 500 with its text |
| PageText.Prune | sol3.py:27-28 | decomposing never adds nodes |
| PageText.PruneNode | sol3.py:27-28 | a node disappears exactly when it has a removed tag |
| PageText.PruneConcat | sol3.py:27-28 | decomposing works on each part of a page independently |
| PageText.PruneFree | sol3.py:27-28 | after decomposition no `script`, `style`, `nav`, `footer`, `header` or `aside` remains at any depth |
| PageText.PruneFixpoint | sol3.py:27-28 | decomposition changes a page exactly when the page contains a removed tag |
| PageText.PruneIdempotent | sol3.py:27-28 | decomposing twice is decomposing once |
| PageText.StringsOfPrune | sol3.py:27-28 | the text left after decomposition is the text outside every removed element, its descendants included |
| PageText.RemovedNodeInvisible | sol3.py:27-28 | a removed element vanishes with all its contents and nothing else moves |
| PageText.CleanIgnoresRemoved | sol3.py:27-38 | the cleaned text does not depend on a removed element or anything inside it |
| PageText.CleanAsWritten | sol3.py:30-38 | as written, the cleaning raises exactly when there is no paragraph and no `<body>`, and otherwise gives the intended text |
| PageText.Clean | sol3.py:30-38 | the text is collapsed; with paragraphs its words are the paragraphs' words in order, and without them the words of the body's text (or the page's) |
| PageText.FetchAndCleanAsWritten | sol3.py:8-41 | as written: `None` exactly when the fetch failed; the `AttributeError` of the body fallback escapes exactly when the fetched page has no paragraph and no `<body>`; otherwise the cleaned text |
| PageText.FetchAndClean | sol3.py:8-41 | as evidently intended (the corrected version): `None` exactly when the fetch failed, otherwise the collapsed cleaned text |
| PageText.FetchAndCleanAgrees | sol3.py:8-41 | whenever the code as written returns, it returns what the intended version returns |
| PageText.BodylessPageRaises | sol3.py:32-34 | a page holding only `<div>hello</div>` raises as written, also out of the whole function, where `"hello"` is intended |
| Summarizer.GetSummary | sol3.py:43-85 | the API is called exactly when the content is non-empty; the reply is trimmed text or the error text the `except` builds |
| Summarizer.EmptyContentNeverCallsApi | sol3.py:47-48 | empty content gets `Error: Content to summarize is empty.` whatever the service would answer |

## Left out

- **Browser I/O** in `select_city`, `select_date` and `scrape_flights`:
  - launching, navigation, waits, fixed sleeps, clicks and key presses are
    reduced to each step's outcome;
  - `select_city` is reduced to the boolean it returns.
- **Browser launch** (playwright_script.py:246-249) happens outside the `try`.
  A failure there is not modelled.
- **`set_input_value_and_dispatch`** evaluates JavaScript in the page, which is
  foreign code.
- **Per-card failures:** only unreadable element text makes a card fail.
  - A locator's `.all()` or `.count()` raising inside a card has the same
    effect (the card is skipped).
  - `get_attribute` raising on the stops element is not modelled.
- **CSS selector matching** and **HTML parsing** by BeautifulSoup are inputs.
- **Kinds of strings.** The page model has one kind of text leaf, and
  `PageText.Strings` counts every one of them. BeautifulSoup's `get_text` keeps
  only plain strings and CDATA sections. It skips comments, doctypes and
  processing instructions, and (since BeautifulSoup 4.9) strings inside
  `<template>`. Those strings must be left out of the input tree; the model
  does not filter them itself.
- **Independent selector lists.** A card gives each selector its own list of
  matches, chosen freely. On a real page some selectors nest:
  - every `CityLabel` element also matches `TerminalLabel`
    (playwright_script.py:62-63);
  - the `OriginCode` and `Duration` elements also match `ExtraDark`
    (playwright_script.py:59, 72, 90), so the second `.text-extra-dark` match
    can be the duration element;
  - every `SeatsText` element also matches `ActionBarText`
    (playwright_script.py:112, 130).
  
  The model does not require a card's lists to be consistent in this way.
- CardProperties.MissingSelectorBlanksOnlyItsFields: removes the matches of one
  selector only. On a real page, removing the city elements also changes the
  first terminal match. Removing the `.text-extra-dark` elements also removes
  the origin code and the duration, and removing the action-bar texts also
  removes the seats element. So "every other field stays the same" holds for
  the model's independent lists, and not for those nested pairs.
- **`\d` in strptime's patterns** matches any Unicode decimal digit in Python.
  The model accepts ASCII digits only.
- **FastAPI plumbing** is framework and concurrency code:
  - routing, query parsing, `run_in_threadpool`, JSON encoding and uvicorn;
  - the root endpoint (playwright_script.py:307-316).
  - The text of an `HTTPException` (`"<status>: <detail>"`) is taken from the
    framework's behaviour, not modelled from its code.
- **External calls in sol3.py:** the `requests.get` fetch is a parameter of
  `PageText.FetchAndClean`. The Gemini client call is a parameter of
  `Summarizer.GetSummary`. The prompt text, `load_dotenv`/`os.getenv`, the
  main block and writing the output file are not modelled.
- **All `print` logging.**
- **sol1.py** is a one-off data exploration script and is not part of this model.
- **Python string internals:** no Unicode normalisation or encoding is modelled.
  Strings are sequences of code points.

## Findings

| source | as written | input that shows it | evidently intended | confidence | as-written member | corrected member |
|---|---|---|---|---|---|---|
| playwright_script.py:328-336 | the 400 `HTTPException` for a bad date is raised inside the outer `try`, whose `except Exception` turns it into a 500 | `journey_date="2025/10/18"` answers 500 with detail `Error scraping flights: 400: Invalid date format. Please use YYYY-MM-DD (e.g., 2025-10-18)` | answer 400 with detail `Invalid date format. Please use YYYY-MM-DD (e.g., 2025-10-18)` | not executed | Endpoint.SlashedDateAnswered500 | Endpoint.SearchFlights |
| sol3.py:32-34 | with no `<p>`, the fallback calls `soup.body.get_text`, but `html.parser` creates no `<body>` that is not written, so `soup.body` is `None` and the call raises `AttributeError` | a page consisting of `<div>hello</div>` | fall back to the text of the whole page, giving `"hello"` | not executed | PageText.BodylessPageRaises | PageText.Clean |
