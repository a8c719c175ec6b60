# Daenerys trading strategy: the per-bar decision rule

The Daenerys strategy trades one instrument, one contract at most. On every
new bar it compares the previous and current RSI values with two integer
trigger levels. An upward crossing of the buy level is a buy signal. A
downward crossing of the sell level is a sell signal. With the open position
the host reports (-1, 0 or 1), the signal decides what happens:

- flat: enter with a market order, then place a "catastrophic" stop order
  `stopTicks · tickSize` away from the bar's close, on the losing side;
- short on a buy signal, or long on a sell signal: exit with a market order,
  then cancel the recorded catastrophic stop.

The strategy keeps one piece of state, the field `catastrophicStop`. It
hands every order and cancellation to the host.

This project models that rule in Dafny and proves what it does on every
branch.

- `orders.dfy` (module `Orders`): order sides and records. The host calls
  `InsertOrder` and `CancelOrder` appear as a log of `Operation`s.
  `LastStop` is the stop most recently inserted in a log.
- `decision.dfy` (module `Decision`): the decision as pure functions.
  `BuyCross` and `SellCross` are the crossing tests. `LongStop` and
  `ShortStop` build the stop orders. `Classify` picks the branch, mirroring
  the `if` / `else if` structure of the source. `Emit` gives the orders a
  branch sends. `BarEffect` combines the two. There is one lemma per
  behaviour.
- `history.dfy` (module `History`): `Run` plays a sequence of bars from a
  fresh strategy. Lemmas show what holds for the order log after any number
  of bars.
- `strategy.dfy` (module `Daenerys`): the class `DaenerysStrategy`. Its
  fields are `catastrophicStop` and the log `operations`. Its method
  `OnNewBar` is written imperatively, branch for branch like the source, and
  is proved to match `BarEffect` and `Run`.
- `table.dfy` (module `DecisionTable`): an independent reference. It is the
  entry and exit rule of the class comment (lines 11-16) written as a
  signal detector followed by a transition table: enter long on a break
  above the buy level, enter short on a break below the sell level, exit on
  the reversal signal. A lemma proves that the code takes the table's
  action on every bar.

Modelling choices:

- Prices, the tick size and the stop margin are C# `decimal`. Decimal is
  exact for the values a price feed carries, so they are `real` here (its
  rounding and overflow are under "Left out").
- The RSI values are only compared with the integer levels, so they are
  `real` too.
- The levels, the stop distance in ticks and the position are `int`.
- The strategy reads its parameters again on every bar (lines 115-118), so
  they are inputs of each bar (`BarInput`), not fixed state.
- The host-reported position is one input per bar. The source calls
  `GetOpenPosition()` up to three times per bar (lines 120, 122 and 131, or
  140, 142 and 151), and the host reports the same value within one bar.
- `catastrophicStop` starts out null in C#; here it is `None`.
- A cancellation sends whatever is recorded, `None` included, because the
  code cancels the field without checking it (lines 137 and 157).

What the code does and does not do:

- The buy crossing and the sell crossing can never hold on the same bar,
  whatever the levels (`CrossingsExclusive`): together they would need
  `sellLevel <= buyLevel < sellLevel`. So the order of the two tests at
  lines 120 and 140 cannot be observed. A buy crossing while long fails the
  buy test and then fails the sell test too, so it sends nothing, and
  likewise a sell crossing while short (`CrossingWithPositionSendsNothing`).
  The code takes the transition table's action on every bar
  (`CodeFollowsTable`).
- The code has no re-syncing with the host after a forced close, no
  "not ready" indicator state, no validation of the parameters and no
  special handling of a second cancellation; the model has none either.
- A position outside -1..1 sends nothing (`OutOfRangePositionIgnored`).
  The code does not require the position to be in range. The one-contract
  cap (`MaxOpenPosition`, lines 56-62) is a host filter, so it is not
  assumed either.

## Model

| member | source | states |
|---|---|---|
| `Daenerys.DaenerysStrategy.OnNewBar` | DaenerysStrategy/DaenerysStrategy.cs:113-160 | appends exactly the operations of `BarEffect` for this bar's inputs and the previously recorded stop, and sets `catastrophicStop` to its record; at most two operations per bar; the log stays well-formed and the recorded stop is always the last stop inserted |
| `Daenerys.DaenerysStrategy.constructor` | DaenerysStrategy/DaenerysStrategy.cs:21-28 | a new strategy has sent nothing and records no stop (the field is null) |
| `Daenerys.EnterThenReverse` | DaenerysStrategy/DaenerysStrategy.cs:120-158 | a buy crossing while flat, then a sell crossing while long, sends four operations; the final cancellation targets exactly the sell stop placed on entry |
| `Decision.Emit` | DaenerysStrategy/DaenerysStrategy.cs:124-157 | each branch sends at most two operations |
| `Decision.BarEffect` | DaenerysStrategy/DaenerysStrategy.cs:115-159 | a single bar sends at most two operations |
| `Decision.BarEffectWellFormed` | DaenerysStrategy/DaenerysStrategy.cs:125-157 | every order has quantity 1; every stop comes right after a market order of the opposite side; every cancellation targets the recorded stop; the record changes only to a stop inserted on this bar |
| `Decision.StopPriceBounds` | DaenerysStrategy/DaenerysStrategy.cs:115-146 | with non-negative ticks and tick size, a long's stop is at or below the close and a short's at or above, each exactly `stopTicks · tickSize` away |
| `Decision.BuyWhileFlat` | DaenerysStrategy/DaenerysStrategy.cs:120-130 | buy crossing while flat: market buy 1, then sell stop 1 at `close − stopTicks · tickSize`, in this order; that stop becomes the recorded one |
| `Decision.SellWhileFlat` | DaenerysStrategy/DaenerysStrategy.cs:140-150 | sell crossing while flat: market sell 1, then buy stop 1 at `close + stopTicks · tickSize`, in this order; that stop becomes the recorded one |
| `Decision.BuyWhileShort` | DaenerysStrategy/DaenerysStrategy.cs:131-138 | buy crossing while short: market buy 1, then a cancellation of the recorded stop; no new stop, no re-entry, the record is unchanged |
| `Decision.SellWhileLong` | DaenerysStrategy/DaenerysStrategy.cs:151-158 | sell crossing while long: market sell 1, then a cancellation of the recorded stop; the record is unchanged |
| `Decision.BuyTestPrecedes` | DaenerysStrategy/DaenerysStrategy.cs:120-140 | when the buy test passes, the sell level has no effect on the outcome, and every market order is a buy |
| `Decision.CrossingsExclusive` | DaenerysStrategy/DaenerysStrategy.cs:120-140 | the buy crossing of line 120 and the sell crossing of line 140 never hold on the same bar, for any levels |
| `Decision.CrossingWithPositionSendsNothing` | DaenerysStrategy/DaenerysStrategy.cs:120-159 | a buy crossing while long, or a sell crossing while short, sends nothing and leaves the record unchanged |
| `Decision.OrdersIffUsableCrossing` | DaenerysStrategy/DaenerysStrategy.cs:120-159 | a bar sends orders if and only if there is a buy crossing while flat or short, or a sell crossing while flat or long; a bar that sends nothing leaves the record unchanged |
| `Decision.OutOfRangePositionIgnored` | DaenerysStrategy/DaenerysStrategy.cs:120-159 | a reported position outside -1..1 sends nothing and leaves the record unchanged |
| `Decision.RecordedStopBounds` | DaenerysStrategy/DaenerysStrategy.cs:115-150 | for any inputs, the record changes only on an entry from flat; the new stop is the second operation, on the side opposite to the entry, at distance `stopTicks · tickSize` from the close; with non-negative ticks and tick size it is on the losing side of the close |
| `Orders.LastStopAppend` | DaenerysStrategy/DaenerysStrategy.cs:22 | the last stop after appending operations is the last one appended, or else the last one before |
| `Orders.CancelsLatestAppend` | DaenerysStrategy/DaenerysStrategy.cs:22 | "every cancellation targets the stop recorded at that point" survives concatenation |
| `History.BarKeepsLog` | DaenerysStrategy/DaenerysStrategy.cs:120-159 | one more bar keeps the log well-formed, and the stop the bar records is the last stop in the log |
| `History.RunInvariant` | DaenerysStrategy/DaenerysStrategy.cs:113-160 | after any sequence of bars: quantities are 1, every stop follows its entry, every cancellation targets the most recently inserted stop, the recorded stop is the last stop inserted, and at most two operations were sent per bar |
| `History.QuietBarChangesNothing` | DaenerysStrategy/DaenerysStrategy.cs:120-159 | a bar that crosses neither level changes neither the log nor the record |
| `DecisionTable.CodeFollowsTable` | DaenerysStrategy/DaenerysStrategy.cs:117-159 | for any levels and any reported position, the branch the code takes is the table's action for the position and the bar's signal, and the orders sent are exactly those the table prescribes |
| `DecisionTable.DetectExamples` | DaenerysStrategy/DaenerysStrategy.cs:120-140 | 51 to 53 with buy level 52 is a buy signal; 49 to 47 with sell level 48 is a sell signal; 50 to 51 is no signal |

## Left out

- RSI computation (`RSIIndicator`, line 105): it lives in the host SDK, which is not part of this model. The previous and current RSI values are inputs. Wilder smoothing, warm-up and the [0, 100] range are not modelled.
- RSI values as `double`: they are modelled as exact reals. NaN and rounding are not represented.
- Host and broker behaviour:
  - `InsertOrder` and `CancelOrder` are only recorded in the log;
  - fills, rejections and order handles are not modelled;
  - `GetOpenPosition` is an input.
- Decimal range: C# `decimal` overflow is not modelled. `close ± stopMargin` and `stopTicks · tickSize` throw `OverflowException` beyond about 7.9·10^28; the model's reals are unbounded.
- Decimal rounding: C# `decimal` rounds a result that needs more than 28-29 significant digits, for example `close − stopMargin` with a 20-digit close and a margin with 10 fractional digits. The model computes stop prices exactly.
- Forced intraday close (`ForceCloseIntradayPosition`, lines 45-51) and `UsesAdvancedOrderManagement` (lines 67-73): host policy flags with no logic in the strategy.
- Configuration and presentation plumbing: parameter definitions and defaults (lines 78-94), `Name` (lines 34-40), logging and indicator registration in `OnInitialize` (lines 99-108). Defaults appear only as example values.
