/** A run of the strategy over a sequence of bars, from a freshly created
    strategy (no order sent, no stop recorded), and the properties of the
    order log that hold after any number of bars. */
module History {
  import opened Orders
  import opened Decision

  /** The operations sent and the stop recorded after the bars `bars`, in
      order, each bar deciding with the stop the bars before it recorded. */
  function Run(bars: seq<BarInput>): Effect
  {
    if bars == [] then Effect([], None)
    else
      var before := Run(bars[..|bars| - 1]);
      var step := BarEffect(bars[|bars| - 1], before.stop);
      Effect(before.ops + step.ops, step.stop)
  }

  /** One more bar keeps a well-formed log well-formed, and the stop it
      records is again the last stop in the log. */
  lemma BarKeepsLog(log: seq<Operation>, b: BarInput)
    requires WellFormedLog(log)
    ensures var e := BarEffect(b, LastStop(log));
      && WellFormedLog(log + e.ops)
      && LastStop(log + e.ops) == e.stop
  {
    var e := BarEffect(b, LastStop(log));
    BarEffectWellFormed(b, LastStop(log));
    assert Latest(None, log) == LastStop(log);
    CancelsLatestAppend(None, log, e.ops);
    LastStopAppend(log, e.ops);
    forall i | 0 <= i < |log + e.ops| && (log + e.ops)[i].InsertStop?
      ensures 0 < i && (log + e.ops)[i - 1].InsertMarket?
      ensures (log + e.ops)[i - 1].market.side == Opposite((log + e.ops)[i].stop.side)
    {
      if i >= |log| {
        assert (log + e.ops)[i] == e.ops[i - |log|];
        assert (log + e.ops)[i - 1] == e.ops[i - 1 - |log|];
      }
    }
  }

  /** After any sequence of bars: every order is for one contract, every
      stop follows the entry it protects, every cancellation targets the
      most recently inserted stop, the recorded stop is the last stop
      inserted, and at most two operations were sent per bar. */
  lemma {:induction false} RunInvariant(bars: seq<BarInput>)
    ensures WellFormedLog(Run(bars).ops)
    ensures Run(bars).stop == LastStop(Run(bars).ops)
    ensures |Run(bars).ops| <= 2 * |bars|
  {
    if bars != [] {
      var before := bars[..|bars| - 1];
      RunInvariant(before);
      BarKeepsLog(Run(before).ops, bars[|bars| - 1]);
    }
  }

  /** The log and the record of any run satisfy the run's invariant. */
  lemma RunLogWellFormed(bars: seq<BarInput>, ops: seq<Operation>, stop: Option<StopOrder>)
    requires Run(bars) == Effect(ops, stop)
    ensures WellFormedLog(ops) && stop == LastStop(ops)
  {
    RunInvariant(bars);
  }

  /** Running one more bar extends the log by that bar's operations. */
  lemma RunStep(bars: seq<BarInput>, b: BarInput)
    ensures var e := BarEffect(b, Run(bars).stop);
      Run(bars + [b]) == Effect(Run(bars).ops + e.ops, e.stop)
  {
  }

  /** A bar that does not cross either level adds nothing to a run. */
  lemma QuietBarChangesNothing(bars: seq<BarInput>, b: BarInput)
    requires !BuyCross(b) && !SellCross(b)
    ensures Run(bars + [b]) == Run(bars)
  {
  }
}
