/** One result card of the flight-search page and the rules that turn it into
    a flat flight record (`extract_flight_data`, the body of its per-card
    `try`). A card is given as the elements each CSS selector matches inside
    it, in document order; selector matching itself is not modelled. */
module FlightCard {
  import opened Results
  import opened StringOps

  /** The selectors the extractor queries inside a card. */
  datatype Selector =
    | AirlineName
    | FlightNumber
    | OriginCode
    | ExtraDark
    | TimeLabel
    | DateLabel
    | CityLabel
    | TerminalLabel
    | Duration
    | Stops
    | Price
    | Promo
    | ActionBarText
    | SeatsText
    | NextDay
  {
    /** The CSS text passed to `card.locator(...)`. */
    function Css(): string
    {
      match this
      case AirlineName => "p.h6.responsive-bold.mb-0"
      case FlightNumber => "p.mb-0.d-inline.d-lg-block"
      case OriginCode => ".text-extra-dark.font-weight-600.mb-0.text-nowrap"
      case ExtraDark => ".text-extra-dark"
      case TimeLabel => ".text-mild-dark.d-block.h4"
      case DateLabel => ".hide-on-small-and-down.mb-0.d-block"
      case CityLabel => ".font-weight-normal.small.mb-0.text-nowrap.text-light-dark"
      case TerminalLabel => ".font-weight-normal.small.text-light-dark"
      case Duration => ".responsive-dblock.text-extra-dark.font-weight-bold"
      case Stops => ".onechangecolor.font-weight-bold.responsive-dblock"
      case Price =>
        ".text-gray.roboto_font.mb-0.text-primary.h4, .font-weight-600.text-gray.lbl-bold.roboto_font.mb-0.lbl-huge"
      case Promo => ".lbl-PromoFare.mb-0"
      case ActionBarText => ".action-bar .text"
      case SeatsText => ".action-bar .text.ng-binding"
      case NextDay => ".text-danger"
    }
  }

  /** A matched element: its `text_content()` (`None` when reading it raises,
      for instance because the element went stale), and its `data-balloon`
      attribute (`None` when absent). */
  datatype Element = Element(text: Option<string>, balloon: Option<string>)

  /** A result card: for each selector, the elements it matches, in document
      order. A selector missing from the map matches nothing. */
  datatype Card = Card(found: map<Selector, seq<Element>>) {
    function Matches(sel: Selector): seq<Element>
    {
      if sel in found then found[sel] else []
    }
  }

  /** Why a card's extraction raised: the element that could not be read. */
  datatype Fault = Unreadable(sel: Selector, ordinal: nat)

  /** Departure or arrival side of a flight. */
  datatype Leg = Leg(code: string, city: string, time: string, date: string)

  datatype StopsInfo = StopsInfo(stops: string, layover: string)

  datatype Luggage = Luggage(checkin: string, hand: string)

  /** One extracted flight; every field is a string, absent data is `""`. */
  datatype FlightRecord = FlightRecord(
    airline: string,
    flightNumber: string,
    origin: string,
    originCity: string,
    departureTime: string,
    departureDate: string,
    originTerminal: string,
    destination: string,
    destinationCity: string,
    arrivalTime: string,
    arrivalDate: string,
    duration: string,
    stops: string,
    layoverInfo: string,
    price: string,
    promo: string,
    checkinBaggage: string,
    handBaggage: string,
    availableSeats: string,
    nextDayArrival: string)

  const NonStop: string := "Non-stop"
  const WeightMarker: string := "Kgs"
  const SeatMarker: string := "Seat"

  /** The first leg reads the first match of each selector, the second leg the
      second match: the two legs share markup and differ only by position. */
  const Departure: nat := 0
  const Arrival: nat := 1

  /* ------------------------------------------------------- single fields */

  /** The trimmed text of the `ordinal`-th match of `sel`, or `""` when the
      card has fewer matches; reading a present element may raise. */
  function TextAt(c: Card, sel: Selector, ordinal: nat): (r: Result<string, Fault>)
    ensures |c.Matches(sel)| <= ordinal ==> r == Success("")
    ensures ordinal < |c.Matches(sel)| ==>
              && (r.Success? <==> c.Matches(sel)[ordinal].text.Some?)
              && (r.Success? ==> r.value == Strip(c.Matches(sel)[ordinal].text.value))
    ensures r.Success? <==> ReadableAt(c, sel, ordinal)
    ensures r.Success? ==> IsStripped(r.value)
    ensures r.Failure? ==> r.error == Unreadable(sel, ordinal)
  {
    var m := c.Matches(sel);
    if |m| <= ordinal then Success("")
    else match m[ordinal].text
      case None => Failure(Unreadable(sel, ordinal))
      case Some(t) => Success(Strip(t))
  }

  /** Every element `TextAt(c, sel, ordinal)` would read can be read. */
  predicate ReadableAt(c: Card, sel: Selector, ordinal: nat)
  {
    ordinal < |c.Matches(sel)| ==> c.Matches(sel)[ordinal].text.Some?
  }

  /** The leg at position `ordinal`: code from `codeSel`, then city, time and
      date from the shared label selectors, all at the same position. */
  function LegAt(c: Card, codeSel: Selector, ordinal: nat): (r: Result<Leg, Fault>)
    ensures r.Success? <==>
              ReadableAt(c, codeSel, ordinal) && ReadableAt(c, CityLabel, ordinal)
              && ReadableAt(c, TimeLabel, ordinal) && ReadableAt(c, DateLabel, ordinal)
    ensures r.Success? ==>
              && r.value.code == TextAt(c, codeSel, ordinal).value
              && r.value.city == TextAt(c, CityLabel, ordinal).value
              && r.value.time == TextAt(c, TimeLabel, ordinal).value
              && r.value.date == TextAt(c, DateLabel, ordinal).value
  {
    var code :- TextAt(c, codeSel, ordinal);
    var city :- TextAt(c, CityLabel, ordinal);
    var time :- TextAt(c, TimeLabel, ordinal);
    var date :- TextAt(c, DateLabel, ordinal);
    Success(Leg(code, city, time, date))
  }

  /** Stops and layover: with no stops element the flight is `"Non-stop"`
      without layover; otherwise the element's trimmed text, and its
      trimmed `data-balloon` attribute as layover (`""` when absent). */
  function StopsAt(c: Card): (r: Result<StopsInfo, Fault>)
    ensures |c.Matches(Stops)| == 0 ==> r == Success(StopsInfo(NonStop, ""))
    ensures |c.Matches(Stops)| > 0 ==>
              var e := c.Matches(Stops)[0];
              && (r.Success? <==> e.text.Some?)
              && (r.Success? ==> r.value.stops == Strip(e.text.value))
              && (r.Success? ==> (r.value.layover != "" ==> e.balloon.Some? && r.value.layover == Strip(e.balloon.value)))
              && (r.Success? && e.balloon.Some? ==> r.value.layover == Strip(e.balloon.value))
    ensures r.Success? <==> ReadableAt(c, Stops, 0)
    ensures r.Success? ==> IsStripped(r.value.layover)
  {
    var m := c.Matches(Stops);
    if |m| == 0 then Success(StopsInfo(NonStop, ""))
    else
      var stops :- TextAt(c, Stops, 0);
      var layover := match m[0].balloon case None => "" case Some(b) => Strip(b);
      Success(StopsInfo(stops, layover))
  }

  /** Available seats: the first seats element's trimmed text when it
      mentions `"Seat"`, and `""` otherwise. */
  function SeatsAt(c: Card): (r: Result<string, Fault>)
    ensures r.Success? ==> r.value == "" || (Contains(r.value, SeatMarker) && IsStripped(r.value))
    ensures r.Success? ==>
              (r.value != "" <==>
                 && |c.Matches(SeatsText)| > 0
                 && c.Matches(SeatsText)[0].text.Some?
                 && Contains(Strip(c.Matches(SeatsText)[0].text.value), SeatMarker))
    ensures r.Success? && r.value != "" ==>
              |c.Matches(SeatsText)| > 0 && c.Matches(SeatsText)[0].text.Some?
              && r.value == Strip(c.Matches(SeatsText)[0].text.value)
    ensures r.Success? <==> ReadableAt(c, SeatsText, 0)
  {
    var t :- TextAt(c, SeatsText, 0);
    Success(if Contains(t, SeatMarker) then t else "")
  }

  /* -------------------------------------------------------------- baggage */

  /** One step of the baggage loop over the action-bar texts. */
  function BaggageStep(acc: Luggage, text: string): (r: Luggage)
    ensures !Contains(text, WeightMarker) ==> r == acc
    ensures Contains(text, WeightMarker) && '/' in text ==>
              r == Luggage(Strip(BeforeFirst(text, '/')), acc.hand)
    ensures Contains(text, WeightMarker) && '/' !in text && acc.checkin == "" ==>
              r == Luggage(text, acc.hand)
    ensures Contains(text, WeightMarker) && '/' !in text && acc.checkin != "" ==>
              r == Luggage(acc.checkin, text)
  {
    if !Contains(text, WeightMarker) then acc
    else if '/' in text then acc.(checkin := Strip(BeforeFirst(text, '/')))
    else if acc.checkin == "" then acc.(checkin := text)
    else acc.(hand := text)
  }

  /** The baggage loop: a left fold of `BaggageStep` over the texts. */
  function Baggage(acc: Luggage, texts: seq<string>): Luggage
    decreases |texts|
  {
    if texts == [] then acc else Baggage(BaggageStep(acc, texts[0]), texts[1..])
  }

  /** The texts that mention the weight marker, in order. */
  function WeightTexts(texts: seq<string>): (r: seq<string>)
    ensures forall k :: 0 <= k < |r| ==> r[k] in texts && Contains(r[k], WeightMarker)
    ensures forall t :: t in texts && Contains(t, WeightMarker) ==> t in r
  {
    if texts == [] then []
    else if Contains(texts[0], WeightMarker) then [texts[0]] + WeightTexts(texts[1..])
    else WeightTexts(texts[1..])
  }

  predicate AllReadable(c: Card, sel: Selector)
  {
    forall i :: 0 <= i < |c.Matches(sel)| ==> c.Matches(sel)[i].text.Some?
  }

  /** The trimmed texts of all matches of `sel`; reading any of them may raise. */
  function AllTexts(c: Card, sel: Selector): (r: Result<seq<string>, Fault>)
    ensures r.Success? <==> AllReadable(c, sel)
    ensures r.Success? ==>
              && |r.value| == |c.Matches(sel)|
              && forall i :: 0 <= i < |r.value| ==> r.value[i] == Strip(c.Matches(sel)[i].text.value)
  {
    var raw :- ReadFrom(c.Matches(sel), sel, 0);
    Success(seq(|raw|, i requires 0 <= i < |raw| => Strip(raw[i])))
  }

  /** The raw texts of `es`, failing at the first one that cannot be read
      (`start` is the position of `es[0]` among all matches). */
  function ReadFrom(es: seq<Element>, sel: Selector, start: nat): (r: Result<seq<string>, Fault>)
    ensures r.Success? <==> forall i :: 0 <= i < |es| ==> es[i].text.Some?
    ensures r.Success? ==>
              && |r.value| == |es|
              && forall i :: 0 <= i < |es| ==> es[i].text == Some(r.value[i])
    decreases |es|
  {
    if es == [] then Success([])
    else match es[0].text
      case None => Failure(Unreadable(sel, start))
      case Some(t) =>
        var rest :- ReadFrom(es[1..], sel, start + 1);
        Success([t] + rest)
  }

  /** Baggage fields of a card: the fold over every action-bar text. */
  function BaggageAt(c: Card): (r: Result<Luggage, Fault>)
    ensures r.Success? <==> AllReadable(c, ActionBarText)
    ensures r.Success? ==> r.value == Baggage(Luggage("", ""), AllTexts(c, ActionBarText).value)
  {
    var texts :- AllTexts(c, ActionBarText);
    Success(Baggage(Luggage("", ""), texts))
  }

  /* ---------------------------------------------------------- whole card */

  /** Every element the extractor reads can be read. */
  predicate Readable(c: Card)
  {
    && ReadableAt(c, AirlineName, 0)
    && ReadableAt(c, FlightNumber, 0)
    && ReadableAt(c, OriginCode, Departure)
    && ReadableAt(c, CityLabel, Departure)
    && ReadableAt(c, TimeLabel, Departure)
    && ReadableAt(c, DateLabel, Departure)
    && ReadableAt(c, TerminalLabel, 0)
    && ReadableAt(c, ExtraDark, Arrival)
    && ReadableAt(c, CityLabel, Arrival)
    && ReadableAt(c, TimeLabel, Arrival)
    && ReadableAt(c, DateLabel, Arrival)
    && ReadableAt(c, Duration, 0)
    && ReadableAt(c, Stops, 0)
    && ReadableAt(c, Price, 0)
    && ReadableAt(c, Promo, 0)
    && AllReadable(c, ActionBarText)
    && ReadableAt(c, SeatsText, 0)
    && ReadableAt(c, NextDay, 0)
  }

  /** The extraction of one card, in the order the source reads the fields;
      the first unreadable element makes the whole card fail. */
  function ExtractCard(c: Card): (r: Result<FlightRecord, Fault>)
    ensures r.Success? <==> Readable(c)
  {
    var airline :- TextAt(c, AirlineName, 0);
    var flightNumber :- TextAt(c, FlightNumber, 0);
    var from :- LegAt(c, OriginCode, Departure);
    var terminal :- TextAt(c, TerminalLabel, 0);
    var to :- LegAt(c, ExtraDark, Arrival);
    var duration :- TextAt(c, Duration, 0);
    var stops :- StopsAt(c);
    var price :- TextAt(c, Price, 0);
    var promo :- TextAt(c, Promo, 0);
    var bag :- BaggageAt(c);
    var seats :- SeatsAt(c);
    var nextDay :- TextAt(c, NextDay, 0);
    Success(FlightRecord(
      airline, flightNumber,
      from.code, from.city, from.time, from.date, terminal,
      to.code, to.city, to.time, to.date,
      duration, stops.stops, stops.layover, price, promo,
      bag.checkin, bag.hand, seats, nextDay))
  }
}

/** Properties of the card rules: the baggage fold and field isolation. */
module CardProperties {
  import opened Results
  import opened StringOps
  import opened FlightCard

  /* -------------------------------------------------------------- baggage */

  lemma {:induction false} BaggageSplit(acc: Luggage, a: seq<string>, b: seq<string>)
    ensures Baggage(acc, a + b) == Baggage(Baggage(acc, a), b)
    decreases |a|
  {
    if a != [] {
      assert (a + b)[0] == a[0];
      assert (a + b)[1..] == a[1..] + b;
      BaggageSplit(BaggageStep(acc, a[0]), a[1..], b);
    } else {
      assert a + b == b;
    }
  }

  /** A text without the weight marker can be dropped from anywhere in the
      list without changing either baggage field. */
  lemma BaggageSkipsUnweighted(acc: Luggage, a: seq<string>, t: string, b: seq<string>)
    requires !Contains(t, WeightMarker)
    ensures Baggage(acc, a + [t] + b) == Baggage(acc, a + b)
  {
    BaggageSplit(acc, a + [t], b);
    BaggageSplit(acc, a, [t]);
    BaggageSplit(acc, a, b);
  }

  /** Only the texts carrying the weight marker matter, in their order. */
  lemma {:induction false} BaggageOfWeightTexts(acc: Luggage, texts: seq<string>)
    ensures Baggage(acc, texts) == Baggage(acc, WeightTexts(texts))
    decreases |texts|
  {
    if texts != [] {
      var t := texts[0];
      if Contains(t, WeightMarker) {
        BaggageOfWeightTexts(BaggageStep(acc, t), texts[1..]);
        var ks := [t] + WeightTexts(texts[1..]);
        assert ks[0] == t && ks[1..] == WeightTexts(texts[1..]);
      } else {
        BaggageOfWeightTexts(acc, texts[1..]);
      }
    }
  }

  predicate SlashFree(texts: seq<string>)
  {
    forall i :: 0 <= i < |texts| ==> '/' !in texts[i]
  }

  lemma {:induction false} BaggageFilled(acc: Luggage, ks: seq<string>)
    requires acc.checkin != ""
    requires SlashFree(ks)
    requires forall i :: 0 <= i < |ks| ==> Contains(ks[i], WeightMarker)
    ensures Baggage(acc, ks) == Luggage(acc.checkin, if ks == [] then acc.hand else ks[|ks| - 1])
    decreases |ks|
  {
    if ks != [] {
      BaggageFilled(BaggageStep(acc, ks[0]), ks[1..]);
      if |ks| > 1 {
        assert ks[1..][|ks| - 2] == ks[|ks| - 1];
      }
    }
  }

  /** Without any `/`, check-in baggage is the first text carrying the weight
      marker and hand baggage is the last one, provided there are at least
      two of them. */
  lemma SlashFreeBaggage(texts: seq<string>)
    requires SlashFree(texts)
    ensures var ks := WeightTexts(texts);
            Baggage(Luggage("", ""), texts)
              == Luggage(if ks == [] then "" else ks[0], if |ks| < 2 then "" else ks[|ks| - 1])
  {
    var ks := WeightTexts(texts);
    BaggageOfWeightTexts(Luggage("", ""), texts);
    if ks != [] {
      assert ks[0] in texts;
      assert '/' !in ks[0] by {
        var i :| 0 <= i < |texts| && texts[i] == ks[0];
      }
      assert ks[0] != "";
      var first := BaggageStep(Luggage("", ""), ks[0]);
      assert first == Luggage(ks[0], "");
      assert SlashFree(ks[1..]) by {
        forall i | 0 <= i < |ks| - 1
          ensures '/' !in ks[1..][i]
        {
          assert ks[1..][i] == ks[i + 1] && ks[i + 1] in texts;
          var j :| 0 <= j < |texts| && texts[j] == ks[i + 1];
        }
      }
      BaggageFilled(first, ks[1..]);
      if |ks| > 1 {
        assert ks[1..][|ks| - 2] == ks[|ks| - 1];
      }
    }
  }

  /** Hand baggage is never filled from a text holding a `/`: it is either
      left as it was or is one of the texts, carrying the marker and no `/`. */
  lemma {:induction false} HandBaggageOrigin(acc: Luggage, texts: seq<string>)
    ensures var r := Baggage(acc, texts);
            r.hand == acc.hand || (r.hand in texts && Contains(r.hand, WeightMarker) && '/' !in r.hand)
    decreases |texts|
  {
    if texts != [] {
      HandBaggageOrigin(BaggageStep(acc, texts[0]), texts[1..]);
    }
  }

  /** Check-in baggage is either left as it was, or one of the texts with the
      marker and no `/`, or the trimmed part before the first `/` of a text
      with the marker. */
  lemma {:induction false} CheckinBaggageOrigin(acc: Luggage, texts: seq<string>)
    ensures var r := Baggage(acc, texts);
            || r.checkin == acc.checkin
            || (r.checkin in texts && Contains(r.checkin, WeightMarker) && '/' !in r.checkin)
            || (exists t :: t in texts && Contains(t, WeightMarker) && '/' in t && r.checkin == Strip(BeforeFirst(t, '/')))
    decreases |texts|
  {
    if texts != [] {
      var t := texts[0];
      CheckinBaggageOrigin(BaggageStep(acc, t), texts[1..]);
      var r := Baggage(acc, texts);
      if r.checkin != acc.checkin && !(r.checkin in texts && Contains(r.checkin, WeightMarker) && '/' !in r.checkin) {
        if r.checkin == BaggageStep(acc, t).checkin {
          assert t in texts;
        } else {
          var u :| u in texts[1..] && Contains(u, WeightMarker) && '/' in u && r.checkin == Strip(BeforeFirst(u, '/'));
          assert u in texts;
        }
      }
    }
  }

  /* ---------------------------------------------------- field isolation */

  /** The card with every match of `sel` removed. */
  function Without(c: Card, sel: Selector): (d: Card)
    ensures d.Matches(sel) == []
    ensures forall other :: other != sel ==> d.Matches(other) == c.Matches(other)
  {
    Card(c.found - {sel})
  }

  /** The record with the fields read through `sel` set to their fallback. */
  function Blank(f: FlightRecord, sel: Selector): FlightRecord
  {
    FlightRecord(
      if sel == AirlineName then "" else f.airline,
      if sel == FlightNumber then "" else f.flightNumber,
      if sel == OriginCode then "" else f.origin,
      if sel == CityLabel then "" else f.originCity,
      if sel == TimeLabel then "" else f.departureTime,
      if sel == DateLabel then "" else f.departureDate,
      if sel == TerminalLabel then "" else f.originTerminal,
      if sel == ExtraDark then "" else f.destination,
      if sel == CityLabel then "" else f.destinationCity,
      if sel == TimeLabel then "" else f.arrivalTime,
      if sel == DateLabel then "" else f.arrivalDate,
      if sel == Duration then "" else f.duration,
      if sel == Stops then NonStop else f.stops,
      if sel == Stops then "" else f.layoverInfo,
      if sel == Price then "" else f.price,
      if sel == Promo then "" else f.promo,
      if sel == ActionBarText then "" else f.checkinBaggage,
      if sel == ActionBarText then "" else f.handBaggage,
      if sel == SeatsText then "" else f.availableSeats,
      if sel == NextDay then "" else f.nextDayArrival)
  }

  /** A card missing every element of one selector still extracts, with
      exactly the fields read through that selector at their fallback value
      and every other field as before. */
  lemma MissingSelectorBlanksOnlyItsFields(c: Card, sel: Selector)
    requires ExtractCard(c).Success?
    ensures ExtractCard(Without(c, sel)) == Success(Blank(ExtractCard(c).value, sel))
  {
    ReadableWithout(c, sel);
    RecordOfReadable(c);
    RecordOfReadable(Without(c, sel));
    AssembleWithout(c, sel);
  }

  lemma AssembleWithout(c: Card, sel: Selector)
    requires Readable(c)
    ensures Readable(Without(c, sel))
    ensures Assemble(Without(c, sel)) == Blank(Assemble(c), sel)
  {
    ReadableWithout(c, sel);
    TextFieldsWithout(c, sel);
    LegFieldsWithout(c, sel);
    ListFieldsWithout(c, sel);
  }

  /** The fields read from a single element. */
  lemma TextFieldsWithout(c: Card, sel: Selector)
    requires Readable(c) && Readable(Without(c, sel))
    ensures var f, g, b := Assemble(c), Assemble(Without(c, sel)), Blank(Assemble(c), sel);
            && g.airline == b.airline && g.flightNumber == b.flightNumber
            && g.originTerminal == b.originTerminal && g.duration == b.duration
            && g.price == b.price && g.promo == b.promo && g.nextDayArrival == b.nextDayArrival
  {
    SingleFieldWithout(c, sel, AirlineName, 0);
    SingleFieldWithout(c, sel, FlightNumber, 0);
    SingleFieldWithout(c, sel, TerminalLabel, 0);
    SingleFieldWithout(c, sel, Duration, 0);
    SingleFieldWithout(c, sel, Price, 0);
    SingleFieldWithout(c, sel, Promo, 0);
    SingleFieldWithout(c, sel, NextDay, 0);
  }

  /** The departure and arrival fields. */
  lemma LegFieldsWithout(c: Card, sel: Selector)
    requires Readable(c) && Readable(Without(c, sel))
    ensures var f, g, b := Assemble(c), Assemble(Without(c, sel)), Blank(Assemble(c), sel);
            && g.origin == b.origin && g.originCity == b.originCity
            && g.departureTime == b.departureTime && g.departureDate == b.departureDate
            && g.destination == b.destination && g.destinationCity == b.destinationCity
            && g.arrivalTime == b.arrivalTime && g.arrivalDate == b.arrivalDate
  {
    LegWithout(c, sel, OriginCode, Departure);
    LegWithout(c, sel, ExtraDark, Arrival);
  }

  /** The stops, baggage and seats fields. */
  lemma ListFieldsWithout(c: Card, sel: Selector)
    requires Readable(c) && Readable(Without(c, sel))
    ensures var f, g, b := Assemble(c), Assemble(Without(c, sel)), Blank(Assemble(c), sel);
            && g.stops == b.stops && g.layoverInfo == b.layoverInfo
            && g.checkinBaggage == b.checkinBaggage && g.handBaggage == b.handBaggage
            && g.availableSeats == b.availableSeats
  {
    StopsFieldsWithout(c, sel);
    BaggageFieldsWithout(c, sel);
    SeatsFieldWithout(c, sel);
  }

  lemma StopsFieldsWithout(c: Card, sel: Selector)
    requires Readable(c) && Readable(Without(c, sel))
    ensures var f, g := Assemble(c), Assemble(Without(c, sel));
            && g.stops == (if sel == Stops then NonStop else f.stops)
            && g.layoverInfo == (if sel == Stops then "" else f.layoverInfo)
  {
    if sel != Stops {
      StopsWithout(c, sel);
    }
  }

  lemma BaggageFieldsWithout(c: Card, sel: Selector)
    requires Readable(c) && Readable(Without(c, sel))
    ensures var f, g := Assemble(c), Assemble(Without(c, sel));
            && g.checkinBaggage == (if sel == ActionBarText then "" else f.checkinBaggage)
            && g.handBaggage == (if sel == ActionBarText then "" else f.handBaggage)
  {
    if sel != ActionBarText {
      BaggageWithout(c, sel);
    }
  }

  lemma SeatsFieldWithout(c: Card, sel: Selector)
    requires Readable(c) && Readable(Without(c, sel))
    ensures var f, g := Assemble(c), Assemble(Without(c, sel));
            g.availableSeats == (if sel == SeatsText then "" else f.availableSeats)
  {
    if sel != SeatsText {
      SeatsWithout(c, sel);
    }
  }

  lemma ReadableWithout(c: Card, sel: Selector)
    requires Readable(c)
    ensures Readable(Without(c, sel))
  {
    var d := Without(c, sel);
    forall s: Selector, k: nat | ReadableAt(c, s, k)
      ensures ReadableAt(d, s, k)
    {
      assert s != sel ==> d.Matches(s) == c.Matches(s);
    }
    assert AllReadable(d, ActionBarText) by {
      assert sel != ActionBarText ==> d.Matches(ActionBarText) == c.Matches(ActionBarText);
    }
  }

  lemma BaggageWithout(c: Card, sel: Selector)
    requires sel != ActionBarText
    ensures BaggageAt(Without(c, sel)) == BaggageAt(c)
  {
    assert Without(c, sel).Matches(ActionBarText) == c.Matches(ActionBarText);
  }

  lemma StopsWithout(c: Card, sel: Selector)
    requires sel != Stops
    ensures StopsAt(Without(c, sel)) == StopsAt(c)
  {
    assert Without(c, sel).Matches(Stops) == c.Matches(Stops);
  }

  lemma SeatsWithout(c: Card, sel: Selector)
    requires sel != SeatsText
    ensures SeatsAt(Without(c, sel)) == SeatsAt(c)
  {
    assert Without(c, sel).Matches(SeatsText) == c.Matches(SeatsText);
  }

  lemma SingleFieldWithout(c: Card, sel: Selector, s: Selector, k: nat)
    ensures TextAt(Without(c, sel), s, k) == if s == sel then Success("") else TextAt(c, s, k)
  {
  }

  lemma LegWithout(c: Card, sel: Selector, codeSel: Selector, k: nat)
    requires LegAt(c, codeSel, k).Success?
    ensures var l, m := LegAt(c, codeSel, k).value, LegAt(Without(c, sel), codeSel, k);
            m == Success(Leg(
              if sel == codeSel then "" else l.code,
              if sel == CityLabel then "" else l.city,
              if sel == TimeLabel then "" else l.time,
              if sel == DateLabel then "" else l.date))
  {
    SingleFieldWithout(c, sel, codeSel, k);
    SingleFieldWithout(c, sel, CityLabel, k);
    SingleFieldWithout(c, sel, TimeLabel, k);
    SingleFieldWithout(c, sel, DateLabel, k);
  }

  /** A readable card's record, assembled from the single-field rules. */
  function Assemble(c: Card): FlightRecord
    requires Readable(c)
  {
    var from, to := LegAt(c, OriginCode, Departure).value, LegAt(c, ExtraDark, Arrival).value;
    FlightRecord(
      TextAt(c, AirlineName, 0).value, TextAt(c, FlightNumber, 0).value,
      from.code, from.city, from.time, from.date, TextAt(c, TerminalLabel, 0).value,
      to.code, to.city, to.time, to.date,
      TextAt(c, Duration, 0).value, StopsAt(c).value.stops, StopsAt(c).value.layover,
      TextAt(c, Price, 0).value, TextAt(c, Promo, 0).value,
      BaggageAt(c).value.checkin, BaggageAt(c).value.hand,
      SeatsAt(c).value, TextAt(c, NextDay, 0).value)
  }

  lemma RecordOfReadable(c: Card)
    requires Readable(c)
    ensures ExtractCard(c) == Success(Assemble(c))
  {
  }

  /* ------------------------------------------------- fields from matches */

  /** The trimmed text of the `k`-th match of `sel`, or `""` when the card has
      fewer matches. */
  function Nth(c: Card, sel: Selector, k: nat): string
    requires ReadableAt(c, sel, k)
  {
    if k < |c.Matches(sel)| then Strip(c.Matches(sel)[k].text.value) else ""
  }

  /** Airline, flight number and the departure side come from the first match
      of their selectors. */
  lemma DepartureFromFirstMatch(c: Card)
    requires ExtractCard(c).Success?
    ensures var f := ExtractCard(c).value;
            && f.airline == Nth(c, AirlineName, 0)
            && f.flightNumber == Nth(c, FlightNumber, 0)
            && f.origin == Nth(c, OriginCode, 0)
            && f.originCity == Nth(c, CityLabel, 0)
            && f.departureTime == Nth(c, TimeLabel, 0)
            && f.departureDate == Nth(c, DateLabel, 0)
            && f.originTerminal == Nth(c, TerminalLabel, 0)
  {
    RecordOfReadable(c);
  }

  /** The arrival side comes from the second match of the broad
      `.text-extra-dark` selector and of the shared label selectors, and is
      `""` where there is no second match. */
  lemma ArrivalFromSecondMatch(c: Card)
    requires ExtractCard(c).Success?
    ensures var f := ExtractCard(c).value;
            && f.destination == Nth(c, ExtraDark, 1)
            && f.destinationCity == Nth(c, CityLabel, 1)
            && f.arrivalTime == Nth(c, TimeLabel, 1)
            && f.arrivalDate == Nth(c, DateLabel, 1)
  {
    RecordOfReadable(c);
  }

  /** Stops default to `"Non-stop"` without layover; seats are `""` or a
      trimmed text mentioning `"Seat"`; baggage is the fold over every
      action-bar text. */
  lemma RemainingFields(c: Card)
    requires ExtractCard(c).Success?
    ensures var f := ExtractCard(c).value;
            && f.duration == Nth(c, Duration, 0)
            && f.price == Nth(c, Price, 0)
            && f.promo == Nth(c, Promo, 0)
            && f.nextDayArrival == Nth(c, NextDay, 0)
            && (|c.Matches(Stops)| == 0 ==> f.stops == NonStop && f.layoverInfo == "")
            && (|c.Matches(Stops)| > 0 ==> f.stops == Nth(c, Stops, 0))
            && (f.availableSeats == "" || (Contains(f.availableSeats, SeatMarker) && IsStripped(f.availableSeats)))
            && (f.availableSeats != "" ==> f.availableSeats == Nth(c, SeatsText, 0))
            && Luggage(f.checkinBaggage, f.handBaggage)
                 == Baggage(Luggage("", ""), AllTexts(c, ActionBarText).value)
  {
    RecordOfReadable(c);
  }

  /** The example the scraper was written for: `"20 Kgs/7 Kgs"` gives check-in
      `"20 Kgs"` and leaves hand baggage empty. */
  lemma SlashedBaggageExample()
    ensures Baggage(Luggage("", ""), ["20 Kgs/7 Kgs"]) == Luggage("20 Kgs", "")
  {
    var t := "20 Kgs/7 Kgs";
    ExampleHasMarker();
    ExampleHasSlash();
    ExampleCheckin();
    assert BaggageStep(Luggage("", ""), t) == Luggage("20 Kgs", "");
    assert [t][1..] == [];
  }

  lemma ExampleHasMarker()
    ensures Contains("20 Kgs/7 Kgs", WeightMarker)
  {
    var t := "20 Kgs/7 Kgs";
    assert t[..3] != WeightMarker by { assert t[..3][0] == '2'; }
    assert t[1..][..3] != WeightMarker by { assert t[1..][..3][0] == '0'; }
    assert t[2..][..3] != WeightMarker by { assert t[2..][..3][0] == ' '; }
    assert t[3..][..3] == WeightMarker;
    assert t[3..] == t[1..][1..][1..];
  }

  lemma ExampleHasSlash()
    ensures '/' in "20 Kgs/7 Kgs"
  {
    assert "20 Kgs/7 Kgs"[6] == '/';
  }

  lemma ExampleCheckin()
    ensures Strip(BeforeFirst("20 Kgs/7 Kgs", '/')) == "20 Kgs"
  {
    ExampleBeforeSlash();
    ExampleStripped();
  }

  lemma ExampleBeforeSlash()
    ensures BeforeFirst("20 Kgs/7 Kgs", '/') == "20 Kgs"
  {
    assert "20 Kgs/7 Kgs" == "20 Kgs" + ['/'] + "7 Kgs";
    BeforeFirstOf("20 Kgs", '/', "7 Kgs");
  }

  lemma ExampleStripped()
    ensures Strip("20 Kgs") == "20 Kgs"
  {
    var w := "20 Kgs";
    assert w[0] == '2' && w[|w| - 1] == 's';
    assert IsStripped(w);
  }
}
