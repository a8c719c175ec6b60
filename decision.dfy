/** The per-bar decision of the Daenerys strategy as a pure function: which
    orders one bar sends to the host, and what the strategy records as its
    catastrophic stop afterwards. */
module Decision {
  import opened Orders

  /** Everything one bar's decision reads. The strategy re-reads its
      parameters on every bar, so they are part of the bar's input.
      `prevRsi` and `curRsi` are the indicator's values one bar ago and now;
      `position` is the open position the host reports (-1, 0 or 1 with a
      maximum open position of one contract). */
  datatype BarInput = BarInput(
    prevRsi: real, curRsi: real,
    buyLevel: int, sellLevel: int,
    position: int,
    close: real, tickSize: real, stopTicks: int)

  /** What one bar produces: the operations sent to the host, in order, and
      the value of the recorded catastrophic stop afterwards. */
  datatype Effect = Effect(ops: seq<Operation>, stop: Option<StopOrder>)

  const EnterLongLabel := "Enter long position"
  const LongStopLabel := "Catastrophic stop long exit"
  const ExitShortLabel := "Exit short position (reversal exit signal)"
  const EnterShortLabel := "Enter short position"
  const ShortStopLabel := "Catastrophic stop short exit"
  const ExitLongLabel := "Exit long position (reversal exit signal)"

  /** The RSI crosses the buy level upwards between the two bars. */
  predicate BuyCross(b: BarInput)
  {
    b.prevRsi <= b.buyLevel as real && b.curRsi > b.buyLevel as real
  }

  /** The RSI crosses the sell level downwards between the two bars. */
  predicate SellCross(b: BarInput)
  {
    b.prevRsi >= b.sellLevel as real && b.curRsi < b.sellLevel as real
  }

  /** The two crossings never happen on the same bar, whatever the levels:
      a buy crossing needs `prevRsi <= buyLevel < curRsi`, a sell crossing
      `curRsi < sellLevel <= prevRsi`, and together they would need
      `sellLevel <= buyLevel < sellLevel`. */
  lemma CrossingsExclusive(b: BarInput)
    ensures !(BuyCross(b) && SellCross(b))
  {
  }

  /** Distance between the entry close and the catastrophic stop. */
  function StopMargin(b: BarInput): real
  {
    b.stopTicks as real * b.tickSize
  }

  /** The stop that protects a long entered at this bar's close. */
  function LongStop(b: BarInput): StopOrder
  {
    StopOrder(Sell, 1, b.close - StopMargin(b), LongStopLabel)
  }

  /** The stop that protects a short entered at this bar's close. */
  function ShortStop(b: BarInput): StopOrder
  {
    StopOrder(Buy, 1, b.close + StopMargin(b), ShortStopLabel)
  }

  lemma StopPriceBounds(b: BarInput)
    requires b.stopTicks >= 0 && b.tickSize >= 0.0
    ensures LongStop(b).price <= b.close && b.close - LongStop(b).price == b.stopTicks as real * b.tickSize
    ensures ShortStop(b).price >= b.close && ShortStop(b).price - b.close == b.stopTicks as real * b.tickSize
  {
  }

  /** The branch of the decision one bar takes. */
  datatype Action = EnterLong | ExitShort | EnterShort | ExitLong | Nothing

  /** Which branch the bar takes: the buy test first; the sell test only
      when the buy test fails (also when it fails only because the position
      is already long, although then the sell level cannot be crossed).
      Inside each, the reported position picks between entering and
      exiting; any other position does nothing. */
  function Classify(b: BarInput): Action
  {
    if BuyCross(b) && b.position != 1 then
      if b.position == 0 then EnterLong
      else if b.position == -1 then ExitShort
      else Nothing
    else if SellCross(b) && b.position != -1 then
      if b.position == 0 then EnterShort
      else if b.position == 1 then ExitLong
      else Nothing
    else Nothing
  }

  /** The orders a branch sends and the stop it records. An entry sends a
      market order then its protective stop, and records that stop; an exit
      sends a market order then cancels whatever stop is recorded, and leaves
      the record as it is. */
  function Emit(a: Action, b: BarInput, recorded: Option<StopOrder>): (e: Effect)
    ensures |e.ops| <= 2
  {
    match a
    case EnterLong =>
      Effect([InsertMarket(MarketOrder(Buy, 1, EnterLongLabel)), InsertStop(LongStop(b))], Some(LongStop(b)))
    case ExitShort =>
      Effect([InsertMarket(MarketOrder(Buy, 1, ExitShortLabel)), Cancel(recorded)], recorded)
    case EnterShort =>
      Effect([InsertMarket(MarketOrder(Sell, 1, EnterShortLabel)), InsertStop(ShortStop(b))], Some(ShortStop(b)))
    case ExitLong =>
      Effect([InsertMarket(MarketOrder(Sell, 1, ExitLongLabel)), Cancel(recorded)], recorded)
    case Nothing =>
      Effect([], recorded)
  }

  /** One bar of the strategy, given the stop recorded before it: the branch
      the bar takes, and the orders that branch sends. */
  function BarEffect(b: BarInput, recorded: Option<StopOrder>): (e: Effect)
    ensures |e.ops| <= 2
  {
    Emit(Classify(b), b, recorded)
  }

  /** The shape of every bar's operations: every order is for one contract,
      every stop follows the market entry it protects, every cancellation
      targets the stop recorded at that point, and the record changes only
      to the stop this bar inserts. */
  lemma BarEffectWellFormed(b: BarInput, recorded: Option<StopOrder>)
    ensures var e := BarEffect(b, recorded);
      && (forall op <- e.ops :: UnitQuantity(op))
      && StopsProtectEntries(e.ops)
      && (forall op <- e.ops :: op.Cancel? ==> op.target == recorded)
      && CancelsLatest(recorded, e.ops)
      && e.stop == Latest(recorded, e.ops)
  {
    var e := BarEffect(b, recorded);
    if e.ops != [] {
      assert e.ops == [e.ops[0], e.ops[1]];
      LastStopOfPair(e.ops[0], e.ops[1]);
      assert e.ops[..1] == [e.ops[0]] && [e.ops[0]][..0] == [];
    }
  }

  /** Buy crossing while flat: market buy, then a sell stop below the close
      by the stop margin, which becomes the recorded stop. */
  lemma BuyWhileFlat(b: BarInput, recorded: Option<StopOrder>)
    requires BuyCross(b) && b.position == 0
    ensures var e := BarEffect(b, recorded);
      && e.ops == [InsertMarket(MarketOrder(Buy, 1, EnterLongLabel)),
                   InsertStop(StopOrder(Sell, 1, b.close - b.stopTicks as real * b.tickSize, LongStopLabel))]
      && e.stop == Some(e.ops[1].stop)
  {
    assert Classify(b) == EnterLong;
    var e := BarEffect(b, recorded);
    assert e.ops[0] == InsertMarket(MarketOrder(Buy, 1, EnterLongLabel));
    assert e.ops[1] == InsertStop(StopOrder(Sell, 1, b.close - b.stopTicks as real * b.tickSize, LongStopLabel));
  }

  /** Sell crossing while flat: market sell, then a buy stop above the close
      by the stop margin, which becomes the recorded stop. */
  lemma SellWhileFlat(b: BarInput, recorded: Option<StopOrder>)
    requires SellCross(b) && b.position == 0
    ensures var e := BarEffect(b, recorded);
      && e.ops == [InsertMarket(MarketOrder(Sell, 1, EnterShortLabel)),
                   InsertStop(StopOrder(Buy, 1, b.close + b.stopTicks as real * b.tickSize, ShortStopLabel))]
      && e.stop == Some(e.ops[1].stop)
  {
    assert Classify(b) == EnterShort;
    var e := BarEffect(b, recorded);
    assert e.ops[0] == InsertMarket(MarketOrder(Sell, 1, EnterShortLabel));
    assert e.ops[1] == InsertStop(StopOrder(Buy, 1, b.close + b.stopTicks as real * b.tickSize, ShortStopLabel));
  }

  /** Buy crossing while short: market buy to cover, then cancel the
      recorded stop; no new stop, no re-entry, the record is untouched. */
  lemma BuyWhileShort(b: BarInput, recorded: Option<StopOrder>)
    requires BuyCross(b) && b.position == -1
    ensures BarEffect(b, recorded) ==
      Effect([InsertMarket(MarketOrder(Buy, 1, ExitShortLabel)), Cancel(recorded)], recorded)
  {
  }

  /** Sell crossing while long: market sell to close, then cancel the
      recorded stop; no new stop, the record is untouched. */
  lemma SellWhileLong(b: BarInput, recorded: Option<StopOrder>)
    requires SellCross(b) && b.position == 1
    ensures BarEffect(b, recorded) ==
      Effect([InsertMarket(MarketOrder(Sell, 1, ExitLongLabel)), Cancel(recorded)], recorded)
  {
  }

  /** When the buy test passes (crossing and not long), the sell level plays
      no part in the outcome: the sell test is never evaluated. */
  lemma BuyTestPrecedes(b: BarInput, otherSellLevel: int, recorded: Option<StopOrder>)
    requires BuyCross(b) && b.position != 1
    ensures BarEffect(b, recorded) == BarEffect(b.(sellLevel := otherSellLevel), recorded)
    ensures forall op <- BarEffect(b, recorded).ops :: op.InsertMarket? ==> op.market.side == Buy
  {
    var b' := b.(sellLevel := otherSellLevel);
    assert Classify(b') == Classify(b);
    assert LongStop(b') == LongStop(b);
  }

  /** A buy crossing while long fails the buy test and goes on to the sell
      test, which fails too since the sell level cannot be crossed on the
      same bar: nothing is sent and the record is untouched. Likewise for a
      sell crossing while short. */
  lemma CrossingWithPositionSendsNothing(b: BarInput, recorded: Option<StopOrder>)
    requires (BuyCross(b) && b.position == 1) || (SellCross(b) && b.position == -1)
    ensures BarEffect(b, recorded) == Effect([], recorded)
  {
  }

  /** A bar sends orders exactly when a crossing meets a position it can act
      on: a buy crossing while flat or short, or a sell crossing while flat
      or long. Otherwise nothing is sent and the record is unchanged. */
  lemma OrdersIffUsableCrossing(b: BarInput, recorded: Option<StopOrder>)
    ensures var e := BarEffect(b, recorded);
      e.ops != [] <==> (BuyCross(b) && b.position in {-1, 0}) || (SellCross(b) && b.position in {0, 1})
    ensures var e := BarEffect(b, recorded);
      e.ops == [] ==> e.stop == recorded
  {
  }

  /** A position outside what a one-contract maximum allows never leads to
      orders. */
  lemma OutOfRangePositionIgnored(b: BarInput, recorded: Option<StopOrder>)
    requires b.position < -1 || 1 < b.position
    ensures BarEffect(b, recorded) == Effect([], recorded)
  {
  }

  /** A new stop is recorded only on an entry from flat, as the second
      operation, opposite to the entry, at the stop margin's distance from
      the close; with a non-negative margin it sits on the losing side of
      the close: below for a long, above for a short. */
  lemma RecordedStopBounds(b: BarInput, recorded: Option<StopOrder>)
    ensures var e := BarEffect(b, recorded);
      e.stop != recorded ==>
        && b.position == 0
        && e.stop.Some?
        && |e.ops| == 2 && e.ops[1] == InsertStop(e.stop.value)
        && e.ops[0].market.side == Opposite(e.stop.value.side)
        && (b.stopTicks >= 0 && b.tickSize >= 0.0 && e.stop.value.side == Sell ==> e.stop.value.price <= b.close)
        && (b.stopTicks >= 0 && b.tickSize >= 0.0 && e.stop.value.side == Buy ==> e.stop.value.price >= b.close)
        && (if e.stop.value.side == Sell then b.close - e.stop.value.price
            else e.stop.value.price - b.close) == b.stopTicks as real * b.tickSize
  {
  }
}
