/** The `GET /flight-search` handler `search_flights`: the date check, the
    call into the scraper, and the response envelope. */
module Endpoint {
  import opened Results
  import opened FlightCard
  import opened Extraction
  import opened JourneyDate
  import opened Scraper

  /** A JSON body: the search envelope, or FastAPI's `{"detail": ...}` for
      an `HTTPException`. In the envelope, `totalFlights` and `message` are
      `None` when the key is absent. */
  datatype Body =
    | Envelope(
        origin: string,
        destination: string,
        journeyDate: string,
        totalFlights: Option<nat>,
        flights: seq<FlightRecord>,
        message: Option<string>)
    | Detail(detail: string)

  datatype Response = Response(status: nat, body: Body)

  /** The response, and the scraper run behind it (`None` when the scraper
      was never invoked). */
  datatype Handled = Handled(response: Response, run: Option<Run>)

  const InvalidDate: string := "Invalid date format. Please use YYYY-MM-DD (e.g., 2025-10-18)"
  const NoFlights: string := "No flights found for the given search criteria"
  const ScrapeError: string := "Error scraping flights: "

  /** `str()` of an `HTTPException`: its status code, a colon and its detail. */
  function HttpExceptionText(status: nat, detail: string): string
    requires 100 <= status <= 999
  {
    [DigitChar(status / 100), DigitChar(status / 10 % 10), DigitChar(status % 10)] + ": " + detail
  }

  /** The 200 envelope for a finished search. */
  function Found(origin: string, destination: string, journeyDate: string, flights: seq<FlightRecord>): (r: Response)
    ensures r.status == 200 && r.body.Envelope?
    ensures r.body.origin == origin && r.body.destination == destination && r.body.journeyDate == journeyDate
    ensures r.body.flights == flights
    ensures r.body.totalFlights.Some? <==> flights != []
    ensures r.body.totalFlights.Some? ==> r.body.totalFlights.value == |flights|
    ensures r.body.message.Some? <==> flights == []
    ensures r.body.message.Some? ==> r.body.message.value == NoFlights
  {
    if flights == [] then
      Response(200, Envelope(origin, destination, journeyDate, None, [], Some(NoFlights)))
    else
      Response(200, Envelope(origin, destination, journeyDate, Some(|flights|), flights, None))
  }

  /** The scraper's result turned into a response: 200 with the envelope, or
      500 with the exception's text. */
  function AfterScrape(origin: string, destination: string, journeyDate: string, run: Run): (r: Handled)
    ensures r.run == Some(run)
    ensures run.outcome.Success? ==> r.response == Found(origin, destination, journeyDate, run.outcome.value)
    ensures run.outcome.Failure? ==> r.response == Response(500, Detail(ScrapeError + run.outcome.error))
  {
    match run.outcome
    case Success(flights) => Handled(Found(origin, destination, journeyDate, flights), Some(run))
    case Failure(message) => Handled(Response(500, Detail(ScrapeError + message)), Some(run))
  }

  /** `search_flights` as written: the 400 raised for a bad date is inside
      the outer `try`, whose `except Exception` turns it into a 500 whose
      detail embeds the 400's text. */
  function SearchFlightsAsWritten(origin: string, destination: string, journeyDate: string, b: Browser): (r: Handled)
    ensures ParseDate(journeyDate).None? ==>
              && r.run.None?
              && r.response == Response(500, Detail(ScrapeError + HttpExceptionText(400, InvalidDate)))
    ensures ParseDate(journeyDate).Some? ==>
              r == AfterScrape(origin, destination, journeyDate, ScrapeFlights(journeyDate, b))
  {
    if ParseDate(journeyDate).None? then
      Handled(Response(500, Detail(ScrapeError + HttpExceptionText(400, InvalidDate))), None)
    else
      AfterScrape(origin, destination, journeyDate, ScrapeFlights(journeyDate, b))
  }

  /** `search_flights` as evidently intended: a bad date is answered with
      400 and the fixed detail, before the scraper is invoked. */
  function SearchFlights(origin: string, destination: string, journeyDate: string, b: Browser): (r: Handled)
    ensures r.run.None? <==> ParseDate(journeyDate).None?
    ensures r.response.status == 400 <==> ParseDate(journeyDate).None?
    ensures ParseDate(journeyDate).None? ==> r.response.body == Detail(InvalidDate)
    ensures r.response.status in {200, 400, 500}
    ensures r.response.status == 200 ==>
              && r.run.Some? && r.run.value.outcome.Success?
              && r.response.body == Found(origin, destination, journeyDate, r.run.value.outcome.value).body
  {
    if ParseDate(journeyDate).None? then
      Handled(Response(400, Detail(InvalidDate)), None)
    else
      AfterScrape(origin, destination, journeyDate, ScrapeFlights(journeyDate, b))
  }

  /** On a date that parses, the two versions answer alike. */
  lemma SameOnValidDates(origin: string, destination: string, journeyDate: string, b: Browser)
    requires ParseDate(journeyDate).Some?
    ensures SearchFlights(origin, destination, journeyDate, b) == SearchFlightsAsWritten(origin, destination, journeyDate, b)
  {
  }

  /** The discrepancy on the documented malformed example: as written the
      answer is 500, with detail
      `Error scraping flights: 400: Invalid date format. ...`; intended is 400. */
  lemma SlashedDateAnswered500(origin: string, destination: string, b: Browser)
    ensures SearchFlightsAsWritten(origin, destination, "2025/10/18", b).response
            == Response(500, Detail(ScrapeError + "400: " + InvalidDate))
    ensures SearchFlights(origin, destination, "2025/10/18", b).response == Response(400, Detail(InvalidDate))
  {
    RejectedLayouts();
    BadRequestText(InvalidDate);
    assert ScrapeError + ("400: " + InvalidDate) == ScrapeError + "400: " + InvalidDate;
  }

  /** The text of a 400 `HTTPException`. */
  lemma BadRequestText(detail: string)
    ensures HttpExceptionText(400, detail) == "400: " + detail
  {
    assert [DigitChar(4), DigitChar(0), DigitChar(0)] == "400";
  }

  /** A valid search whose scraper finishes answers 200 with the page's
      flights: `total_flights` counts them when there are any, and the
      message replaces it when there are none. */
  lemma SuccessfulSearch(origin: string, destination: string, journeyDate: string, b: Browser)
    requires ParseDate(journeyDate).Some?
    requires b.navigation == Done && b.originSelected && b.destinationSelected && b.searchButton == Done
    ensures var r := SearchFlights(origin, destination, journeyDate, b).response;
            var flights := ExtractFlightData(b.results);
            && r.status == 200
            && r.body == Envelope(origin, destination, journeyDate,
                                  if flights == [] then None else Some(|flights|),
                                  flights,
                                  if flights == [] then Some(NoFlights) else None)
  {
  }

  /** Any scraper failure on a valid date answers 500 with its text. */
  lemma FailedSearch(origin: string, destination: string, journeyDate: string, b: Browser)
    requires ParseDate(journeyDate).Some?
    requires !(b.navigation == Done && b.originSelected && b.destinationSelected && b.searchButton == Done)
    ensures var r := SearchFlights(origin, destination, journeyDate, b).response;
            && r.status == 500
            && r.body == Detail(ScrapeError + ScrapeFlights(journeyDate, b).outcome.error)
  {
  }
}
