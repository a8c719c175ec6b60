/** The strategy object: the catastrophic stop it records, the orders it has
    sent to the host so far, and its per-bar rule. */
module Daenerys {
  import opened Orders
  import opened Decision
  import opened History

  class DaenerysStrategy {
    /** The stop order last placed to protect an entry; `None` until the
        first entry (the C# field starts out null). */
    var catastrophicStop: Option<StopOrder>
    /** Every `InsertOrder` and `CancelOrder` call made so far, in order. */
    var operations: seq<Operation>
    /** The bars seen so far. */
    ghost var bars: seq<BarInput>

    ghost predicate Valid()
      reads this
    {
      Run(bars) == Effect(operations, catastrophicStop)
    }

    constructor ()
      ensures Valid() && WellFormedLog(operations)
      ensures catastrophicStop == None && operations == [] && bars == []
    {
      catastrophicStop := None;
      operations := [];
      bars := [];
    }

    /** The rule run on every new bar. The previous and current RSI values,
        the trigger levels, the stop distance in ticks, the tick size, the
        bar's close and the host-reported open position are its inputs; the
        position is read once, as the host reports the same value throughout
        the bar. */
    method OnNewBar(prevRsi: real, curRsi: real, buyLevel: int, sellLevel: int,
                    position: int, close: real, tickSize: real, stopTicks: int)
      requires Valid()
      modifies this
      ensures Valid()
      ensures var b := BarInput(prevRsi, curRsi, buyLevel, sellLevel, position, close, tickSize, stopTicks);
        && bars == old(bars) + [b]
        && operations == old(operations) + BarEffect(b, old(catastrophicStop)).ops
        && catastrophicStop == BarEffect(b, old(catastrophicStop)).stop
      ensures |operations| <= |old(operations)| + 2
      ensures WellFormedLog(operations) && catastrophicStop == LastStop(operations)
    {
      ghost var b := BarInput(prevRsi, curRsi, buyLevel, sellLevel, position, close, tickSize, stopTicks);
      ghost var e := BarEffect(b, catastrophicStop);
      RunStep(bars, b);
      var stopMargin := stopTicks as real * tickSize;

      if prevRsi <= buyLevel as real && curRsi > buyLevel as real && position != 1 {
        if position == 0 {
          // Buy signal: enter long and place the catastrophic stop below.
          var buyOrder := MarketOrder(Buy, 1, EnterLongLabel);
          catastrophicStop := Some(StopOrder(Sell, 1, close - stopMargin, LongStopLabel));
          operations := operations + [InsertMarket(buyOrder)];
          operations := operations + [InsertStop(catastrophicStop.value)];
          assert Classify(b) == EnterLong && catastrophicStop.value == LongStop(b);
          assert e.ops == [InsertMarket(buyOrder), InsertStop(catastrophicStop.value)];
        } else if position == -1 {
          // Buy signal: close the short and cancel its catastrophic stop.
          var exitShortOrder := MarketOrder(Buy, 1, ExitShortLabel);
          operations := operations + [InsertMarket(exitShortOrder)];
          operations := operations + [Cancel(catastrophicStop)];
          assert Classify(b) == ExitShort;
          assert e.ops == [InsertMarket(exitShortOrder), Cancel(catastrophicStop)];
        } else {
          assert Classify(b) == Nothing;
        }
      } else if prevRsi >= sellLevel as real && curRsi < sellLevel as real && position != -1 {
        if position == 0 {
          // Sell signal: enter short and place the catastrophic stop above.
          var sellOrder := MarketOrder(Sell, 1, EnterShortLabel);
          catastrophicStop := Some(StopOrder(Buy, 1, close + stopMargin, ShortStopLabel));
          operations := operations + [InsertMarket(sellOrder)];
          operations := operations + [InsertStop(catastrophicStop.value)];
          assert Classify(b) == EnterShort && catastrophicStop.value == ShortStop(b);
          assert e.ops == [InsertMarket(sellOrder), InsertStop(catastrophicStop.value)];
        } else if position == 1 {
          // Sell signal: close the long and cancel its catastrophic stop.
          var exitLongOrder := MarketOrder(Sell, 1, ExitLongLabel);
          operations := operations + [InsertMarket(exitLongOrder)];
          operations := operations + [Cancel(catastrophicStop)];
          assert Classify(b) == ExitLong;
          assert e.ops == [InsertMarket(exitLongOrder), Cancel(catastrophicStop)];
        } else {
          assert Classify(b) == Nothing;
        }
      } else {
        assert Classify(b) == Nothing;
      }

      assert operations == old(operations) + e.ops && catastrophicStop == e.stop;
      bars := bars + [b];
      RunLogWellFormed(bars, operations, catastrophicStop);
    }
  }

  /** A client: a buy crossing while flat, then a sell crossing while long,
      leaves a market buy, its sell stop, a market sell and the cancellation
      of that very stop. */
  method EnterThenReverse(close: real, tickSize: real, stopTicks: int) returns (ops: seq<Operation>)
    ensures |ops| == 4
    ensures ops[1].InsertStop? && ops[1].stop.side == Sell
    ensures ops[3] == Cancel(Some(ops[1].stop))
  {
    var s := new DaenerysStrategy();
    s.OnNewBar(50.0, 53.0, 52, 48, 0, close, tickSize, stopTicks);
    s.OnNewBar(49.0, 46.0, 52, 48, 1, close, tickSize, stopTicks);
    ops := s.operations;
  }
}
