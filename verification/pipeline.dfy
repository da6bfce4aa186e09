/**
 The whole batch run of main.py with its configuration passed in: group the
 series by date, simulate every date, price the records, sum them per date
 and derive the cumulative and drawdown series.
 */
module Pipeline {
  import opened Market
  import opened Simulator
  import opened Pnl
  import Drawdown

  /** The configuration surface: entry and exit minute of the day, stop
      distance, and the accounting parameters. */
  datatype Config = Config(entryTime: int, exitTime: int, stopLoss: real, costs: Costs)

  /** Everything the run produces before it is written out. */
  datatype Report = Report(
    trades: seq<PricedTrade>,
    daily: seq<DailyPnl>,
    cumulative: seq<real>,
    drawdown: seq<real>)

  /** The Total P&L column of the daily log: one value per row, in order,
      summing to the log's total. */
  function Totals(rows: seq<DailyPnl>): (xs: seq<real>)
    ensures |xs| == |rows|
    ensures forall k :: 0 <= k < |rows| ==> xs[k] == rows[k].total
    ensures Drawdown.Sum(xs) == DailyTotal(rows)
  {
    if |rows| == 0 then []
    else
      var rest := Totals(rows[1..]);
      var xs := [rows[0].total] + rest;
      assert xs[1..] == rest;
      xs
  }

  /** One run over a series. With no record at all the trade log has no
      columns and pricing it fails (`trades_df['Entry Price']` raises), so
      the run yields nothing exactly when no date group has both exact bars.
      Otherwise the logs are non-empty and the drawdown is never positive. */
  function Run(series: seq<Bar>, cfg: Config): (r: Option<Report>)
    ensures r.None? <==> forall d :: d in GroupByDate(series) ==> !Qualifies(d, cfg.entryTime, cfg.exitTime)
    ensures r.Some? ==> 0 < |r.value.trades| <= |series| && 0 < |r.value.daily|
    ensures r.Some? ==> |r.value.cumulative| == |r.value.daily| && |r.value.drawdown| == |r.value.daily|
    ensures r.Some? ==> forall i :: 0 <= i < |r.value.drawdown| ==> r.value.drawdown[i] <= 0.0
  {
    var days := GroupByDate(series);
    var trades := Backtest(days, cfg.entryTime, cfg.exitTime, cfg.stopLoss);
    BacktestRecordsFromDays(days, cfg.entryTime, cfg.exitTime, cfg.stopLoss);
    BacktestCoversQualifying(days, cfg.entryTime, cfg.exitTime, cfg.stopLoss);
    if |trades| == 0 then None
    else
      assert trades[0] in trades;
      var priced := PriceTrades(trades, cfg.costs);
      var daily := GroupByDateSum(priced);
      assert priced[0].trade.date in RowDates(daily);
      var totals := Totals(daily);
      Drawdown.DrawdownNonPositive(totals);
      Some(Report(priced, daily, Drawdown.CumSum(totals), Drawdown.Drawdowns(totals)))
  }

  /** The series has a bar stamped with this date and minute. */
  predicate HasStamp(series: seq<Bar>, date: int, minute: int) {
    exists i :: 0 <= i < |series| && series[i].date == date && series[i].minute == minute
  }

  /** Within one group, a minute has a bar exactly when the series has that
      stamp on the group's date. */
  lemma GroupStamp(series: seq<Bar>, k: int, minute: int)
    requires TimeOrdered(series)
    requires 0 <= k < |GroupByDate(series)|
    ensures var d := GroupByDate(series)[k];
            HasBarAt(d.bars, minute) <==> HasStamp(series, d.date, minute)
  {
    var d := GroupByDate(series)[k];
    GroupByDatePartition(series);
    if HasBarAt(d.bars, minute) {
      var i :| 0 <= i < |d.bars| && d.bars[i].minute == minute;
      assert d.bars[i] in d.bars;
    }
    if HasStamp(series, d.date, minute) {
      var i :| 0 <= i < |series| && series[i].date == d.date && series[i].minute == minute;
      assert series[i] in series;
    }
  }

  /** A date group qualifies exactly when the series has both exact stamps on its date. */
  lemma GroupQualifies(series: seq<Bar>, k: int, entry: int, exit: int)
    requires TimeOrdered(series)
    requires 0 <= k < |GroupByDate(series)|
    ensures var d := GroupByDate(series)[k];
            Qualifies(d, entry, exit) <==> HasStamp(series, d.date, entry) && HasStamp(series, d.date, exit)
  {
    GroupStamp(series, k, entry);
    GroupStamp(series, k, exit);
  }

  /** Some date group qualifies exactly when some date of the series has
      both exact stamps. */
  lemma SomeGroupQualifies(series: seq<Bar>, entry: int, exit: int)
    requires TimeOrdered(series)
    ensures (exists d :: d in GroupByDate(series) && Qualifies(d, entry, exit))
        <==> exists i :: 0 <= i < |series| && HasStamp(series, series[i].date, entry) && HasStamp(series, series[i].date, exit)
  {
    var days := GroupByDate(series);
    if exists d :: d in days && Qualifies(d, entry, exit) {
      var d :| d in days && Qualifies(d, entry, exit);
      var k :| 0 <= k < |days| && days[k] == d;
      GroupQualifies(series, k, entry, exit);
      var i := BarOf(series, k);
      assert HasStamp(series, series[i].date, entry) && HasStamp(series, series[i].date, exit);
    }
    if exists i :: 0 <= i < |series| && HasStamp(series, series[i].date, entry) && HasStamp(series, series[i].date, exit) {
      var i :| 0 <= i < |series| && HasStamp(series, series[i].date, entry) && HasStamp(series, series[i].date, exit);
      var k := GroupOf(series, i);
      GroupQualifies(series, k, entry, exit);
      assert days[k] in days;
    }
  }

  /** On a time-ordered series the run fails exactly when no date of the
      series has bars at both its exact entry and exact exit stamps. */
  lemma RunFailsWithoutQualifyingDate(series: seq<Bar>, cfg: Config)
    requires TimeOrdered(series)
    ensures Run(series, cfg).None? <==>
              forall i :: 0 <= i < |series| ==>
                !(HasStamp(series, series[i].date, cfg.entryTime) && HasStamp(series, series[i].date, cfg.exitTime))
  {
    SomeGroupQualifies(series, cfg.entryTime, cfg.exitTime);
  }

  /** On a time-ordered series that yields a report: the daily log has one
      row per priced record, in the same date order and with the same total,
      and a date of the series gets a row if and only if the series has bars
      at both its exact entry and exact exit stamps. */
  lemma RunOneRowPerQualifyingDate(series: seq<Bar>, cfg: Config)
    requires TimeOrdered(series)
    ensures var r := Run(series, cfg);
            r.Some? ==>
            && |r.value.daily| == |r.value.trades|
            && (forall k :: 0 <= k < |r.value.trades| ==>
                  r.value.daily[k] == DailyPnl(r.value.trades[k].trade.date, r.value.trades[k].totalPnl))
            && (forall i :: 0 <= i < |series| ==>
                  ((exists k :: 0 <= k < |r.value.daily| && r.value.daily[k].date == series[i].date)
                   <==> HasStamp(series, series[i].date, cfg.entryTime) && HasStamp(series, series[i].date, cfg.exitTime)))
  {
    var days := GroupByDate(series);
    var trades := Backtest(days, cfg.entryTime, cfg.exitTime, cfg.stopLoss);
    var priced := PriceTrades(trades, cfg.costs);
    if Run(series, cfg).Some? {
      var r := Run(series, cfg).value;
      assert r.trades == priced && r.daily == GroupByDateSum(priced);
      GroupByDateOrdered(series);
      GroupByDatePartition(series);
      BacktestOnePerQualifyingDate(days, cfg.entryTime, cfg.exitTime, cfg.stopLoss);
      assert PricedDatesIncreasing(priced);
      GroupByDateSumIdentity(priced);
      forall i | 0 <= i < |series|
        ensures (exists k :: 0 <= k < |r.daily| && r.daily[k].date == series[i].date)
                <==> HasStamp(series, series[i].date, cfg.entryTime) && HasStamp(series, series[i].date, cfg.exitTime)
      {
        var j :| 0 <= j < |days| && days[j].date == series[i].date;
        GroupStamp(series, j, cfg.entryTime);
        GroupStamp(series, j, cfg.exitTime);
        if exists k :: 0 <= k < |r.daily| && r.daily[k].date == series[i].date {
          var k :| 0 <= k < |r.daily| && r.daily[k].date == series[i].date;
          assert trades[k].date == days[j].date;
        }
        if Qualifies(days[j], cfg.entryTime, cfg.exitTime) {
          var k :| 0 <= k < |trades| && trades[k].date == days[j].date;
          assert r.daily[k].date == series[i].date;
        }
      }
    }
  }

  /** The grouping and the running sum keep the money: the daily log sums to
      the sum of the priced records, and the last cumulative value is that sum. */
  lemma RunPreservesTotal(series: seq<Bar>, cfg: Config)
    ensures var r := Run(series, cfg);
            r.Some? ==>
            && DailyTotal(r.value.daily) == TotalOf(r.value.trades)
            && r.value.cumulative[|r.value.daily| - 1] == TotalOf(r.value.trades)
  {
    if Run(series, cfg).Some? {
      var r := Run(series, cfg).value;
      var totals := Totals(r.daily);
      Drawdown.CumSumEndsAtTotal(totals);
    }
  }
}
