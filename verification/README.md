# Intraday straddle backtester — Dafny model

This project models the core of a one-file intraday backtester (`main.py`).
It takes a minute-bar price series and reconstructs what a long + short
straddle would have done each day:

- it opens both legs at the close of an exact entry minute;
- it closes each leg at the first bar whose close reaches that leg's stop level;
- it otherwise closes the leg at an exact exit minute.

It then prices every day with slippage and a flat cost per leg, sums the
totals per date, and derives the cumulative P&L and drawdown series that
the charts plot.

Modules (one per stage of the pipeline):

- `Market` (`market.dfy`): minute bars stamped with a date and a minute of the
  day, and the partition of a series into one group per date
  (`df.groupby(df.index.date)`).
- `Simulator` (`simulator.dfy`): the per-day loop of `backtest_strategy`. It
  covers the exact-timestamp lookup, the `loc[entry:exit]` window, the
  minute loop with its two "not yet resolved" legs, the fallback to the
  exit bar, and the loop over all dates.
- `Pnl` (`pnl.dfy`): the live `analyze_trades`. It covers slippage, per-leg and
  total P&L, and the per-date group-sum.
- `Drawdown` (`drawdown.dfy`): `cumsum`, `cummax` and the drawdown they give.
- `Pipeline` (`pipeline.dfy`): the run end to end. The script's module-level
  settings become an explicit `Config`.

Representation choices:

- Prices, lot size, cost and slippage rate are `real`.
- Dates are day numbers and times are minutes of the day, both `int`.
- The exact-stamp lookup (`IndexOfMinute`) returns the first bar with the
  wanted minute. The source's `group.loc[ts, 'close']` assumes there is only
  one such bar. So the lemmas that depend on uniqueness require minutes to
  strictly increase within a day (`Increasing`), or the series to be
  time-ordered (`TimeOrdered`).
- The window is the set of bars stamped within [entry, exit], in order.
  This is what label slicing does on a sorted index. When the entry minute is
  after the exit minute the window is empty, and both legs leave at the exit
  bar, as the source's slice would make them.
- The group-sum accepts records in any date order. Like pandas `groupby`,
  it returns one row per date, sorted by date.

## Model

| member | source | states |
|---|---|---|
| Market.GroupByDate | main.py:15 | every group is non-empty and carries its bars' date, and concatenating the groups gives back the series |
| Market.GroupDatesIncreasing | main.py:15-17 | on a time-ordered series the group dates strictly increase, so the loop visits each date once, in date order |
| Market.GroupByDateOrdered | main.py:15-17 | on a time-ordered series every group has strictly increasing minutes and the group dates strictly increase, so each date has exactly one group |
| Market.GroupByDatePartition | main.py:15-17 | on a time-ordered series a group holds exactly the series' bars of its date, and every bar's date has a group |
| Market.GroupOf | main.py:15 | every bar of the series lies in a group carrying its date |
| Market.BarOf | main.py:15 | every group's date is the date of some bar of the series |
| Simulator.IndexOfMinute | main.py:19-22 | exact-timestamp lookup: the position of the first bar stamped with the minute, and None exactly when no bar carries that minute |
| Simulator.Window | main.py:37 | the slice never holds more bars than the day |
| Simulator.WindowContents | main.py:37 | the walked window holds exactly the day's bars stamped within [entry, exit] |
| Simulator.WindowIncreasing | main.py:37 | the window keeps the bars in chronological order |
| Simulator.FirstBreach | main.py:41-48 | the index found breaches the level and no earlier bar does; None means no bar breaches (ties count) |
| Simulator.Walk | main.py:36-48 | a leg already closed keeps its exit, and a leg the loop closes is closed by a bar that breaches that leg's level |
| Simulator.WalkFindsFirstBreach | main.py:37-48 | the minute loop leaves each leg at the first breach of its own level; a leg already stopped is never overwritten; each leg's result depends only on its own state and level |
| Simulator.ShortLegIndependent | main.py:45-48 | the short leg's exit is the same whatever the long leg's level or state |
| Simulator.TradeOn | main.py:26-68 | the record carries the date, the entry minute and the entry bar's close; each leg's exit time and price are those of the first bar in the window that breaches its level (entry price minus the stop for the long leg, plus the stop for the short leg), or else of the exit bar |
| Simulator.SimulateDay | main.py:17-26 | a date yields a record if and only if it has bars at both the exact entry and exact exit minute; the record carries the date, the entry minute and the entry bar's close |
| Simulator.LegCloseStopped | main.py:37-43 | a leg's stop bar is a bar of the day in [entry, exit] that breaches, and no bar of the day stamped from the entry minute up to before it breaches |
| Simulator.LegCloseUnstopped | main.py:37-53 | a leg that is never stopped has no breaching bar of the day in [entry, exit] |
| Simulator.LegCloseIsFirstBreach | main.py:37-57 | closing a leg at the first breach in the window, or else at the exit bar, is the first-breach exit described on the day's bars |
| Simulator.SimulatedTrade | main.py:26-68 | a simulated record's exits are the closes of the first breaches in the window, or of a bar of the day stamped with the exit minute |
| Simulator.LongLegIsFirstBreach | main.py:29-53 | in a simulated record the long leg leaves at the first bar in [entry, exit] whose close is at or below entry price minus the stop, and no bar of the day from the entry minute up to before it breaches; if none does, it leaves at the exit minute at the exit bar's close |
| Simulator.ShortLegIsFirstBreach | main.py:30-57 | in a simulated record the short leg leaves at the first bar in [entry, exit] whose close is at or above entry price plus the stop, regardless of the long leg; if none does, it leaves at the exit minute at the exit bar's close |
| Simulator.ExitsWithinWindow | main.py:37-57 | when entry is not after exit, both exit times of a simulated record lie in [entry, exit], and each exit price is the close of a bar stamped with that exit time |
| Simulator.NoStopOnEntryBar | main.py:26-30 | with a positive stop distance neither leg can be stopped on the entry bar: each leg leaves after the entry minute or at the exit minute |
| Simulator.Backtest | main.py:17-23 | at most one record per date group |
| Simulator.BacktestRecordsFromDays | main.py:60-68 | every record is the simulation of one of the date groups |
| Simulator.BacktestCoversQualifying | main.py:22-23 | every group with exact entry and exit bars contributes its record |
| Simulator.BacktestDatesIncreasing | main.py:15-17 | over groups in increasing date order the records come out in strictly increasing date order |
| Simulator.BacktestOnePerQualifyingDate | main.py:17-23 | a date has a record if and only if it has both exact bars, and no date has two records |
| Simulator.DipScenario | main.py:29-57 | worked day: a dip of 150 at 10:00 stops the long leg there at the dip price; the short leg leaves at 15:25 at that bar's close |
| Simulator.LateOpenScenario | main.py:22-23 | a day whose first bar is after the entry minute yields no record |
| Pnl.Slippage | main.py:143-144 | slippage is twice the rate times the entry price: zero at a zero rate, never negative for non-negative price and rate, positive for positive ones |
| Pnl.PriceTrade | main.py:143-148 | each leg's slippage is 2·entry·rate; the long leg earns (exit − entry − slippage)·lot − cost and the short leg (entry − exit − slippage)·lot − cost; total = long + short = (exit long − exit short − 4·entry·rate)·lot − 2·cost |
| Pnl.FrictionlessLegs | main.py:79-81 | with zero cost and zero slippage each leg earns its price move times the lot size |
| Pnl.CostOnlyLegs | main.py:111-112 | with zero slippage each leg earns its price move times the lot size, less the cost |
| Pnl.CostChargedTwice | main.py:146-148 | raising the cost per leg by δ lowers the day's total by exactly 2δ |
| Pnl.SlippageExample | main.py:143-144 | entry 100 at rate 0.0005 gives slippage 0.1 per leg |
| Pnl.PriceTrades | main.py:143-148 | every record is priced, in order |
| Pnl.Book | main.py:150 | booking an amount keeps one row per date in date order, adds the date, and raises that date's amount and the grand total by the amount |
| Pnl.GroupByDateSum | main.py:150 | the daily log has one row per date that has records, in date order; the amount on each date is the sum of that date's totals; the grand total is unchanged |
| Pnl.DailyRowIsDateSum | main.py:150 | each daily row's total is the sum of the totals of the records on its date |
| Pnl.GroupByDateSumIdentity | main.py:150 | with one record per date in date order the group-sum is the identity: row k is record k's date and total |
| Drawdown.CumSumFrom | main.py:197 | running sum from a starting value: entry i is the start plus the first i + 1 values |
| Drawdown.CumSum | main.py:197 | cumulative P&L: entry i is the sum of the first i + 1 daily totals |
| Drawdown.CumMaxFrom | main.py:198 | running maximum continuing from a peak: each entry is at least that peak and every value so far, and equals the peak or one of those values |
| Drawdown.CumMax | main.py:198 | running maximum: entry i is at least each of the first i + 1 values and equals one of them |
| Drawdown.Drawdowns | main.py:198 | one drawdown per day, none of them positive |
| Drawdown.DrawdownNonPositive | main.py:197-198 | drawdown is never positive, and is zero exactly when the cumulative P&L is at its highest so far |
| Drawdown.DrawdownIsDistanceToPeak | main.py:197-198 | drawdown at i is cum[i] minus some cum[j] with j ≤ i, and no earlier cumulative value exceeds cum[i] minus the drawdown |
| Drawdown.CumSumEndsAtTotal | main.py:197 | the last cumulative value is the sum of all daily totals |
| Pipeline.Totals | main.py:197 | the Total P&L column the cumulative series is taken over keeps the money: its values sum to the daily log's total, with one value per row in row order |
| Pipeline.Run | main.py:166-168 | the run fails (None) exactly when no date group has both exact bars, as the source's pricing raises on an empty trade log; otherwise the logs are non-empty, there are no more priced records than bars, the cumulative and drawdown series have one entry per daily row, and drawdown is never positive |
| Pipeline.GroupStamp | main.py:19-22 | within a date group a minute has a bar exactly when the series has that date-and-minute stamp |
| Pipeline.GroupQualifies | main.py:19-23 | a date group qualifies exactly when the series has both exact stamps on its date |
| Pipeline.SomeGroupQualifies | main.py:17-23 | some date group qualifies exactly when some date of the series has both exact stamps |
| Pipeline.RunFailsWithoutQualifyingDate | main.py:143 | on a time-ordered series the run fails exactly when no date of the series has both its exact entry and exit stamps |
| Pipeline.RunOneRowPerQualifyingDate | main.py:17-23 | on a time-ordered series a successful run's daily log has one row per record with the record's date and total, and a date of the series gets a row if and only if the series has both its exact entry and exit stamps |
| Pipeline.RunPreservesTotal | main.py:150-153 | in a successful run the daily log sums to the sum of the priced records, and the last cumulative value equals that sum |

## Left out

- CSV reading and timestamp parsing (main.py:7-9) are left out because they are file I/O. The model starts from a parsed series. Unparseable input, which aborts the run, is not represented.
- The trade-log and daily-log CSV writes (main.py:72, 170, 172) are left out because they are file I/O.
- Chart rendering, the histogram and `savefig` (main.py:177-206) are plotting side effects and are left out. Only the `cumsum`/`cummax` arithmetic is modelled.
- The console summary (main.py:151-154) is printing and is left out. The trading-day count is the length of the daily log, and the total is `DailyTotal`. The mean is not modelled.
- The script driver and its hard-coded settings (main.py:158-168, 210) are replaced by the `Config` parameter of `Pipeline.Run`.
- The two commented-out `analyze_trades` variants (main.py:78-104, 110-137) are dead code. They appear only as the zero-cost and zero-slippage special cases of `PriceTrade`.
- IEEE floating-point rounding is not modelled, because prices and rates are exact reals.
- The exception an empty trade log raises (main.py:143) is modelled only as `Run` returning None; its kind and message are not.
- Market.GroupByDate and Simulator.Window match pandas only on a time-ordered series. `GroupByDate` splits the series into runs of equal date, and `Window` filters by minute. pandas `groupby` gathers every bar of a date into one group, and label slicing on an unsorted index behaves differently. So on a series whose dates go 2, 2, 1, 1, 2, 2 the model gives three groups where pandas gives two (`Market.UnorderedSeriesSplitsDate`). The source never sorts, and the grouping lemmas require a time-ordered series.
- A day with two bars at the same minute is outside the source's assumptions, because `loc` then returns several rows. The model takes the first such bar, and the lemmas that depend on uniqueness require strictly increasing minutes.
- Simulator.Window: its contract states only the size bound. The contents and the order of the slice are stated by `WindowContents` and `WindowIncreasing`, which callers invoke where they need them.
