/** The page-level loop of `extract_flight_data`: every result card is
    extracted on its own, a card whose extraction raises is skipped, and a
    failure to locate the cards at all yields no flights. */
module Extraction {
  import opened Results
  import opened FlightCard

  /** The results page as the extractor sees it: the `.card-body` elements in
      document order, or `None` when locating them raised. */
  datatype Page = Page(cards: Option<seq<Card>>)

  /** What each card's extraction gives, in card order. */
  function Outcomes(cards: seq<Card>): (rs: seq<Result<FlightRecord, Fault>>)
    ensures |rs| == |cards|
    ensures forall i :: 0 <= i < |cards| ==> rs[i] == ExtractCard(cards[i])
  {
    seq(|cards|, i requires 0 <= i < |cards| => ExtractCard(cards[i]))
  }

  /** The values of the successful outcomes, in order: the per-card `try`
      whose `except` only logs. */
  function Successes<R, E>(rs: seq<Result<R, E>>): (r: seq<R>)
    ensures |r| <= |rs|
    decreases |rs|
  {
    if rs == [] then []
    else
      var last := rs[|rs| - 1];
      Successes(rs[..|rs| - 1]) + (if last.Success? then [last.value] else [])
  }

  /** The records of the cards that extract, in card order. */
  function ExtractAll(cards: seq<Card>): (r: seq<FlightRecord>)
    ensures |r| <= |cards|
  {
    Successes(Outcomes(cards))
  }

  /** `extract_flight_data`: the page's flights, or none when the cards
      could not be located. */
  function ExtractFlightData(page: Page): (r: seq<FlightRecord>)
    ensures page.cards.None? ==> r == []
    ensures page.cards.Some? ==> |r| <= |page.cards.value|
  {
    match page.cards
    case None => []
    case Some(cards) => ExtractAll(cards)
  }

  /** The extractor's loop, one card at a time, appending what each card
      yields. */
  method ExtractFlightDataLoop(page: Page) returns (flights: seq<FlightRecord>)
    ensures flights == ExtractFlightData(page)
  {
    flights := [];
    if page.cards.None? {
      return;
    }
    var cards := page.cards.value;
    var i := 0;
    while i < |cards|
      invariant 0 <= i <= |cards|
      invariant flights == ExtractAll(cards[..i])
    {
      var outcome := ExtractCard(cards[i]);
      ExtractAllStep(cards, i);
      if outcome.Success? {
        flights := flights + [outcome.value];
      }
      i := i + 1;
    }
    assert cards[..i] == cards;
  }

  /** One more card adds its record when it extracts, and nothing otherwise. */
  lemma ExtractAllStep(cards: seq<Card>, i: nat)
    requires i < |cards|
    ensures var o := ExtractCard(cards[i]);
            ExtractAll(cards[..i + 1]) == ExtractAll(cards[..i]) + (if o.Success? then [o.value] else [])
  {
    assert cards[..i + 1] == cards[..i] + [cards[i]];
    OutcomesConcat(cards[..i], [cards[i]]);
    SuccessesConcat(Outcomes(cards[..i]), Outcomes([cards[i]]));
    var one := Outcomes([cards[i]]);
    assert one[..0] == [];
  }

  /* ------------------------------------------------------------ properties */

  /** Collecting distributes over a split of the outcomes. */
  lemma {:induction false} SuccessesConcat<R, E>(a: seq<Result<R, E>>, b: seq<Result<R, E>>)
    ensures Successes(a + b) == Successes(a) + Successes(b)
    decreases |b|
  {
    if b == [] {
      assert a + b == a;
    } else {
      var b' := b[..|b| - 1];
      assert (a + b)[..|a + b| - 1] == a + b';
      assert (a + b)[|a + b| - 1] == b[|b| - 1];
      SuccessesConcat(a, b');
    }
  }

  lemma OutcomesConcat(a: seq<Card>, b: seq<Card>)
    ensures Outcomes(a + b) == Outcomes(a) + Outcomes(b)
  {
  }

  /** Extraction distributes over a split of the card list. */
  lemma ExtractAllConcat(a: seq<Card>, b: seq<Card>)
    ensures ExtractAll(a + b) == ExtractAll(a) + ExtractAll(b)
  {
    OutcomesConcat(a, b);
    SuccessesConcat(Outcomes(a), Outcomes(b));
  }

  /** A card that raises is skipped without disturbing its neighbours. */
  lemma FailedCardDropped(a: seq<Card>, c: Card, b: seq<Card>)
    requires !Readable(c)
    ensures ExtractAll(a + [c] + b) == ExtractAll(a) + ExtractAll(b)
  {
    ExtractAllConcat(a + [c], b);
    ExtractAllConcat(a, [c]);
    var one := Outcomes([c]);
    assert one[..0] == [] && one[0].Failure?;
  }

  /** With only successful outcomes, collecting keeps every value. */
  lemma {:induction false} AllSucceed<R, E>(rs: seq<Result<R, E>>)
    requires forall i :: 0 <= i < |rs| ==> rs[i].Success?
    ensures |Successes(rs)| == |rs|
    ensures forall i :: 0 <= i < |rs| ==> Successes(rs)[i] == rs[i].value
    decreases |rs|
  {
    if rs != [] {
      var init := rs[..|rs| - 1];
      AllSucceed(init);
    }
  }

  /** When every card extracts, the flights are the cards' records, one for
      one and in order. */
  lemma AllCardsKept(cards: seq<Card>)
    requires forall i :: 0 <= i < |cards| ==> Readable(cards[i])
    ensures |ExtractAll(cards)| == |cards|
    ensures forall i :: 0 <= i < |cards| ==> ExtractAll(cards)[i] == ExtractCard(cards[i]).value
  {
    AllSucceed(Outcomes(cards));
  }

  /** The positions of the successful outcomes, in increasing order. */
  function Positions<R, E>(rs: seq<Result<R, E>>): (idx: seq<nat>)
    ensures |idx| == |Successes(rs)|
    decreases |rs|
  {
    if rs == [] then []
    else
      var n := |rs| - 1;
      Positions(rs[..n]) + (if rs[n].Success? then [n] else [])
  }

  /** Each listed position is in range and holds a success. */
  lemma {:induction false} PositionsAreSuccesses<R, E>(rs: seq<Result<R, E>>)
    ensures forall k :: 0 <= k < |Positions(rs)| ==> Positions(rs)[k] < |rs| && rs[Positions(rs)[k]].Success?
    decreases |rs|
  {
    if rs != [] {
      var n := |rs| - 1;
      PositionsAreSuccesses(rs[..n]);
    }
  }

  lemma {:induction false} PositionsIncrease<R, E>(rs: seq<Result<R, E>>)
    ensures forall k, l :: 0 <= k < l < |Positions(rs)| ==> Positions(rs)[k] < Positions(rs)[l]
    decreases |rs|
  {
    if rs != [] {
      var n := |rs| - 1;
      PositionsIncrease(rs[..n]);
      PositionsAreSuccesses(rs[..n]);
    }
  }

  /** The `k`-th collected value comes from the `k`-th listed position. */
  lemma {:induction false} PositionsGiveValues<R, E>(rs: seq<Result<R, E>>)
    ensures forall k :: 0 <= k < |Positions(rs)| ==>
              Positions(rs)[k] < |rs| && rs[Positions(rs)[k]].Success? && Successes(rs)[k] == rs[Positions(rs)[k]].value
    decreases |rs|
  {
    PositionsAreSuccesses(rs);
    if rs != [] {
      var n := |rs| - 1;
      var init := rs[..n];
      PositionsGiveValues(init);
      PositionsAreSuccesses(init);
      forall k | 0 <= k < |Positions(init)|
        ensures Successes(rs)[k] == rs[Positions(rs)[k]].value
      {
        assert Positions(rs)[k] == Positions(init)[k];
        assert Successes(rs)[k] == Successes(init)[k];
        assert init[Positions(init)[k]] == rs[Positions(init)[k]];
      }
    }
  }

  /** Every success is listed. */
  lemma {:induction false} PositionsComplete<R, E>(rs: seq<Result<R, E>>)
    ensures forall i :: 0 <= i < |rs| && rs[i].Success? ==> i in Positions(rs)
    decreases |rs|
  {
    if rs != [] {
      var n := |rs| - 1;
      var init := rs[..n];
      PositionsComplete(init);
      forall i | 0 <= i < n && rs[i].Success?
        ensures i in Positions(rs)
      {
        assert init[i] == rs[i];
      }
    }
  }

  /** `idx` lists, increasingly, the positions of the successful outcomes,
      and the `k`-th collected value comes from position `idx[k]`. */
  lemma SuccessPositions<R, E>(rs: seq<Result<R, E>>) returns (idx: seq<nat>)
    ensures |idx| == |Successes(rs)|
    ensures forall k :: 0 <= k < |idx| ==> idx[k] < |rs| && rs[idx[k]].Success?
    ensures forall k, l :: 0 <= k < l < |idx| ==> idx[k] < idx[l]
    ensures forall k :: 0 <= k < |idx| ==> Successes(rs)[k] == rs[idx[k]].value
    ensures forall i :: 0 <= i < |rs| && rs[i].Success? ==> i in idx
  {
    idx := Positions(rs);
    PositionsAreSuccesses(rs);
    PositionsIncrease(rs);
    PositionsGiveValues(rs);
    PositionsComplete(rs);
  }

  /** The flights are exactly the records of the readable cards: `idx`
      lists, in increasing order, the positions of the cards that extract,
      and the `k`-th flight is the record of card `idx[k]`. */
  lemma Survivors(cards: seq<Card>) returns (idx: seq<nat>)
    ensures |idx| == |ExtractAll(cards)|
    ensures forall k :: 0 <= k < |idx| ==> idx[k] < |cards| && Readable(cards[idx[k]])
    ensures forall k, l :: 0 <= k < l < |idx| ==> idx[k] < idx[l]
    ensures forall k :: 0 <= k < |idx| ==> ExtractAll(cards)[k] == ExtractCard(cards[idx[k]]).value
    ensures forall i :: 0 <= i < |cards| && Readable(cards[i]) ==> i in idx
  {
    idx := SuccessPositions(Outcomes(cards));
  }
}
