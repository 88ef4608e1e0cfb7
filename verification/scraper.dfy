/** The step sequence of `scrape_flights` and the calendar click of
    `select_date`. The browser is reduced to the outcome of each step: whether
    navigation and the search click raised, whether each city selection
    reported success, which calendar cells were on screen, and the results
    page the extractor would read. */
module Scraper {
  import opened Results
  import opened FlightCard
  import opened Extraction
  import opened JourneyDate

  /** A calendar cell: its `data-day` attribute and whether it carries the
      `disabled` class. */
  datatype Cell = Cell(dataDay: string, disabled: bool)

  /** A browser step that may raise, with the exception's text. */
  datatype Outcome = Done | Raise(message: string)

  /** What the target site does in one session. `originSelected` and
      `destinationSelected` are what `select_city` returns (it never raises);
      `calendar` is `None` when the date input never appears or clicking it
      raises. */
  datatype Browser = Browser(
    navigation: Outcome,
    originSelected: bool,
    destinationSelected: bool,
    calendar: Option<seq<Cell>>,
    searchButton: Outcome,
    results: Page)

  datatype Step = Navigate | SelectOrigin | SelectDestination | SelectDate | ClickSearch | Extract | CloseBrowser

  /** The steps in the order `scrape_flights` issues them, before the
      `finally` that closes the browser. */
  const Order: seq<Step> := [Navigate, SelectOrigin, SelectDestination, SelectDate, ClickSearch, Extract]

  const OriginFailed: string := "Failed to select origin city"
  const DestinationFailed: string := "Failed to select destination city"

  /** One session: the steps taken, the calendar cell clicked (by position),
      and the flights or the text of the exception `scrape_flights` re-raises. */
  datatype Run = Run(steps: seq<Step>, dateClicked: Option<nat>, outcome: Result<seq<FlightRecord>, string>)

  /* ----------------------------------------------------------- select_date */

  /** A cell `td[data-day='<day>']:not(.disabled)` selects. */
  predicate Selectable(c: Cell, day: nat)
    requires 1 <= day <= 31
  {
    c.dataDay == DayText(day) && !c.disabled
  }

  /** The position of the first selectable cell at or after `from`. */
  function FirstSelectable(cells: seq<Cell>, day: nat, from: nat): (r: Option<nat>)
    requires 1 <= day <= 31 && from <= |cells|
    ensures r.Some? ==> from <= r.value < |cells| && Selectable(cells[r.value], day)
    ensures r.Some? ==> forall j :: from <= j < r.value ==> !Selectable(cells[j], day)
    ensures r.None? ==> forall j :: from <= j < |cells| ==> !Selectable(cells[j], day)
    decreases |cells| - from
  {
    if from == |cells| then None
    else if Selectable(cells[from], day) then Some(from)
    else FirstSelectable(cells, day, from + 1)
  }

  /** `select_date`: the position of the cell clicked, or `None` where it
      returns `False` (the date does not parse, the calendar does not open,
      or no enabled cell shows the day). */
  function ClickDate(journeyDate: string, calendar: Option<seq<Cell>>): (r: Option<nat>)
    ensures r.Some? ==>
              && ParseDate(journeyDate).Some? && calendar.Some?
              && r.value < |calendar.value|
              && Selectable(calendar.value[r.value], ParseDate(journeyDate).value.day)
              && forall j :: 0 <= j < r.value ==> !Selectable(calendar.value[j], ParseDate(journeyDate).value.day)
    ensures r.None? <==>
              || ParseDate(journeyDate).None? || calendar.None?
              || forall j :: 0 <= j < |calendar.value| ==> !Selectable(calendar.value[j], ParseDate(journeyDate).value.day)
  {
    match ParseDate(journeyDate)
    case None => None
    case Some(d) =>
      match calendar
      case None => None
      case Some(cells) => FirstSelectable(cells, d.day, 0)
  }

  /** The clicked cell's `data-day` spells the day of the month of the
      requested date, in decimal and without a leading zero. */
  lemma ClickedDayMatches(journeyDate: string, calendar: Option<seq<Cell>>)
    requires ClickDate(journeyDate, calendar).Some?
    ensures var t := calendar.value[ClickDate(journeyDate, calendar).value].dataDay;
            var day := ParseDate(journeyDate).value.day;
            && 1 <= |t| <= 2 && t[0] != '0'
            && (|t| == 1 ==> DigitValue(t[0]) == day)
            && (|t| == 2 ==> 10 * DigitValue(t[0]) + DigitValue(t[1]) == day)
  {
  }

  /* -------------------------------------------------------- scrape_flights */

  /** `scrape_flights`: each step in order; a raising step or a failed city
      selection aborts, the date selection never does, and the browser is
      closed on every path. */
  function ScrapeFlights(journeyDate: string, b: Browser): (r: Run)
    ensures |r.steps| >= 2 && r.steps[|r.steps| - 1] == CloseBrowser
    ensures r.steps[..|r.steps| - 1] <= Order
    ensures r.outcome.Success? <==>
              b.navigation == Done && b.originSelected && b.destinationSelected && b.searchButton == Done
    ensures r.outcome.Success? ==> r.outcome.value == ExtractFlightData(b.results)
    ensures r.outcome.Success? <==> r.steps == Order + [CloseBrowser]
  {
    if b.navigation.Raise? then
      Run([Navigate, CloseBrowser], None, Failure(b.navigation.message))
    else if !b.originSelected then
      Run([Navigate, SelectOrigin, CloseBrowser], None, Failure(OriginFailed))
    else if !b.destinationSelected then
      Run([Navigate, SelectOrigin, SelectDestination, CloseBrowser], None, Failure(DestinationFailed))
    else
      var clicked := ClickDate(journeyDate, b.calendar);
      if b.searchButton.Raise? then
        Run([Navigate, SelectOrigin, SelectDestination, SelectDate, ClickSearch, CloseBrowser],
            clicked, Failure(b.searchButton.message))
      else
        Run(Order + [CloseBrowser], clicked, Success(ExtractFlightData(b.results)))
  }

  /** A failed origin selection ends the session before the destination is
      touched, with the origin message. */
  lemma OriginFailureAborts(journeyDate: string, b: Browser)
    requires b.navigation == Done && !b.originSelected
    ensures ScrapeFlights(journeyDate, b).steps == [Navigate, SelectOrigin, CloseBrowser]
    ensures ScrapeFlights(journeyDate, b).outcome == Failure(OriginFailed)
  {
  }

  /** A failed destination selection ends the session before the date is
      touched, with the destination message. */
  lemma DestinationFailureAborts(journeyDate: string, b: Browser)
    requires b.navigation == Done && b.originSelected && !b.destinationSelected
    ensures ScrapeFlights(journeyDate, b).steps == [Navigate, SelectOrigin, SelectDestination, CloseBrowser]
    ensures ScrapeFlights(journeyDate, b).outcome == Failure(DestinationFailed)
  {
  }

  /** Date selection is not fatal: whatever the calendar shows, and whether
      or not the date parses, the steps and the outcome stay the same. */
  lemma DateSelectionNotFatal(d1: string, d2: string, b: Browser, cal: Option<seq<Cell>>)
    ensures ScrapeFlights(d1, b).steps == ScrapeFlights(d2, b.(calendar := cal)).steps
    ensures ScrapeFlights(d1, b).outcome == ScrapeFlights(d2, b.(calendar := cal)).outcome
  {
  }

  /** When the session gets as far as the date, the cell it clicks is the one
      `select_date` picks. */
  lemma DateClickedWhenReached(journeyDate: string, b: Browser)
    requires b.navigation == Done && b.originSelected && b.destinationSelected
    ensures ScrapeFlights(journeyDate, b).dateClicked == ClickDate(journeyDate, b.calendar)
  {
  }
}
