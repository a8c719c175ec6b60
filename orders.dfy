/** Order records and the log of order operations the strategy sends to the host.

    The host's `InsertOrder` and `CancelOrder` are foreign calls; the model
    records each call, in order, as an `Operation`. */
module Orders {

  datatype Option<T> = None | Some(value: T)

  datatype Side = Buy | Sell

  /** The side that closes a position opened on side `s`. */
  function Opposite(s: Side): (o: Side)
    ensures o != s
  {
    if s == Buy then Sell else Buy
  }

  datatype MarketOrder = MarketOrder(side: Side, quantity: nat, name: string)

  /** A stop order: `price` is the trigger price (a C# `decimal`, exact). */
  datatype StopOrder = StopOrder(side: Side, quantity: nat, price: real, name: string)

  /** One call into the host: inserting a market order, inserting a stop
      order, or cancelling the stop order the strategy has recorded (`None`
      when the strategy never recorded one: the C# field is still null). */
  datatype Operation =
    | InsertMarket(market: MarketOrder)
    | InsertStop(stop: StopOrder)
    | Cancel(target: Option<StopOrder>)

  /** Every order sent to the host is for a single contract. */
  predicate UnitQuantity(op: Operation)
  {
    match op
    case InsertMarket(m) => m.quantity == 1
    case InsertStop(s) => s.quantity == 1
    case Cancel(_) => true
  }

  /** The stop order most recently inserted in `log`, if there is one. */
  function LastStop(log: seq<Operation>): Option<StopOrder>
  {
    if log == [] then None
    else if log[|log| - 1].InsertStop? then Some(log[|log| - 1].stop)
    else LastStop(log[..|log| - 1])
  }

  /** The last stop of a concatenation is the last stop of its tail part,
      unless that part inserts no stop at all. */
  lemma {:induction false} LastStopAppend(log: seq<Operation>, more: seq<Operation>)
    ensures LastStop(log + more) == if LastStop(more).Some? then LastStop(more) else LastStop(log)
  {
    if more != [] {
      var n := |log + more|;
      assert (log + more)[..n - 1] == log + more[..|more| - 1];
      LastStopAppend(log, more[..|more| - 1]);
    } else {
      assert log + more == log;
    }
  }

  /** The last stop of a two-operation log. */
  lemma LastStopOfPair(a: Operation, b: Operation)
    ensures LastStop([a, b]) == if b.InsertStop? then Some(b.stop) else if a.InsertStop? then Some(a.stop) else None
  {
    assert [a, b][..1] == [a];
    assert [a][..0] == [];
    assert LastStop([a]) == if a.InsertStop? then Some(a.stop) else None;
  }

  /** The stop recorded after `log`, starting from `recorded`: the last stop
      `log` inserts, or `recorded` when it inserts none. */
  function Latest(recorded: Option<StopOrder>, log: seq<Operation>): Option<StopOrder>
  {
    if LastStop(log).Some? then LastStop(log) else recorded
  }

  /** Every cancellation in `log` targets the stop recorded at that point:
      the one inserted most recently before it, or `recorded` when `log`
      inserted none before it. */
  ghost predicate CancelsLatest(recorded: Option<StopOrder>, log: seq<Operation>)
  {
    forall i :: 0 <= i < |log| && log[i].Cancel? ==> log[i].target == Latest(recorded, log[..i])
  }

  lemma CancelsLatestAppend(recorded: Option<StopOrder>, log: seq<Operation>, more: seq<Operation>)
    requires CancelsLatest(recorded, log)
    requires CancelsLatest(Latest(recorded, log), more)
    ensures CancelsLatest(recorded, log + more)
    ensures Latest(recorded, log + more) == Latest(Latest(recorded, log), more)
  {
    LastStopAppend(log, more);
    forall i | 0 <= i < |log + more| && (log + more)[i].Cancel?
      ensures (log + more)[i].target == Latest(recorded, (log + more)[..i])
    {
      if i < |log| {
        assert (log + more)[..i] == log[..i];
      } else {
        var j := i - |log|;
        assert (log + more)[..i] == log + more[..j];
        LastStopAppend(log, more[..j]);
      }
    }
  }

  /** Every stop order in `log` comes right after a market order of the
      opposite side: the entry it protects. */
  ghost predicate StopsProtectEntries(log: seq<Operation>)
  {
    forall i :: 0 <= i < |log| && log[i].InsertStop? ==>
      0 < i && log[i - 1].InsertMarket? && log[i - 1].market.side == Opposite(log[i].stop.side)
  }

  /** What the strategy's order log always satisfies. */
  ghost predicate WellFormedLog(log: seq<Operation>)
  {
    && (forall op <- log :: UnitQuantity(op))
    && CancelsLatest(None, log)
    && StopsProtectEntries(log)
  }
}
