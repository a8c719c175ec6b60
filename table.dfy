/** The strategy's entry and exit rule in the words of its class comment, as
    an independent reference for the per-bar decision: enter long when the
    RSI breaks above the buy level, enter short when it breaks below the sell
    level, exit on the reversal signal. Written as a signal detector followed
    by a transition table from the reported position and the signal to an
    action. */
module DecisionTable {
  import opened Orders
  import opened Decision

  datatype Signal = NoSignal | BuySignal | SellSignal

  /** The signal of a bar: a buy crossing, a sell crossing, or none. */
  function Detect(b: BarInput): Signal
  {
    if BuyCross(b) then BuySignal
    else if SellCross(b) then SellSignal
    else NoSignal
  }

  /** Flat + buy enters long, flat + sell enters short, short + buy exits
      the short, long + sell exits the long; every other pair holds. */
  function Transition(position: int, s: Signal): Action
  {
    match s
    case BuySignal => if position == 0 then EnterLong else if position == -1 then ExitShort else Nothing
    case SellSignal => if position == 0 then EnterShort else if position == 1 then ExitLong else Nothing
    case NoSignal => Nothing
  }

  /** The code takes the table's action on every bar, for any levels and any
      reported position, so the orders it sends are exactly those the table
      prescribes. The order of the code's two tests cannot be observed, as
      the two crossings exclude each other. */
  lemma CodeFollowsTable(b: BarInput, recorded: Option<StopOrder>)
    ensures Classify(b) == Transition(b.position, Detect(b))
    ensures BarEffect(b, recorded) == Emit(Transition(b.position, Detect(b)), b, recorded)
  {
  }

  /** Two concrete bars: 51 to 53 crosses a buy level of 52 upwards, and 49
      to 47 crosses a sell level of 48 downwards; 50 to 51 crosses neither. */
  lemma DetectExamples()
    ensures Detect(BarInput(51.0, 53.0, 52, 48, 0, 100.0, 0.25, 58)) == BuySignal
    ensures Detect(BarInput(49.0, 47.0, 52, 48, 0, 100.0, 0.25, 58)) == SellSignal
    ensures Detect(BarInput(50.0, 51.0, 52, 48, 0, 100.0, 0.25, 58)) == NoSignal
  {
  }
}
