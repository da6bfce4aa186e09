/**
 The P&L aggregator (`analyze_trades`, the variant with both brokerage and
 slippage, in main.py): prices every simulated record with slippage and a
 flat cost per leg, then sums the totals per date.
 */
module Pnl {
  import opened Simulator

  /** The fixed accounting parameters: lot size (multiplier), flat cost per
      leg, and slippage rate as a fraction of the entry price. */
  datatype Costs = Costs(lotSize: real, costPerTrade: real, slippageRate: real)

  /** A record of the trade log after pricing. */
  datatype PricedTrade = PricedTrade(
    trade: TradeRecord,
    slippageLong: real,
    slippageShort: real,
    pnlLong: real,
    pnlShort: real,
    totalPnl: real)

  /** One row of the daily P&L log. */
  datatype DailyPnl = DailyPnl(date: int, total: real)

  /** Slippage charged on one leg: twice the rate, applied to the entry price. */
  function Slippage(entryPrice: real, rate: real): (r: real)
    ensures rate == 0.0 ==> r == 0.0
    ensures 0.0 <= entryPrice && 0.0 <= rate ==> 0.0 <= r
    ensures 0.0 < entryPrice && 0.0 < rate ==> 0.0 < r
    ensures r == 2.0 * (entryPrice * rate)
  {
    entryPrice * rate * 2.0
  }

  /** Prices one record. Each leg pays slippage of twice the rate on the
      entry price; the long leg earns exit minus entry, the short leg entry
      minus exit, each less its slippage, times the lot size, less the flat
      cost. The day's total depends on the entry price only through
      slippage, because the long leg's gain from the entry is the short
      leg's loss and vice versa. */
  function PriceTrade(t: TradeRecord, c: Costs): (p: PricedTrade)
    ensures p.trade == t
    ensures p.slippageLong == p.slippageShort == 2.0 * t.entryPrice * c.slippageRate
    ensures p.pnlLong == (t.exitPriceLong - t.entryPrice - p.slippageLong) * c.lotSize - c.costPerTrade
    ensures p.pnlShort == (t.entryPrice - t.exitPriceShort - p.slippageShort) * c.lotSize - c.costPerTrade
    ensures p.totalPnl == p.pnlLong + p.pnlShort
    ensures p.totalPnl
         == (t.exitPriceLong - t.exitPriceShort - 4.0 * t.entryPrice * c.slippageRate) * c.lotSize
            - 2.0 * c.costPerTrade
  {
    var slipLong := Slippage(t.entryPrice, c.slippageRate);
    var slipShort := Slippage(t.entryPrice, c.slippageRate);
    var pnlLong := (t.exitPriceLong - t.entryPrice - slipLong) * c.lotSize - c.costPerTrade;
    var pnlShort := (t.entryPrice - t.exitPriceShort - slipShort) * c.lotSize - c.costPerTrade;
    assert pnlLong + pnlShort
        == (t.exitPriceLong - t.exitPriceShort) * c.lotSize - 2.0 * slipLong * c.lotSize - 2.0 * c.costPerTrade;
    PricedTrade(t, slipLong, slipShort, pnlLong, pnlShort, pnlLong + pnlShort)
  }

  /** With neither cost nor slippage, each leg earns its price move times
      the lot size (the aggregator variant without costs). */
  lemma FrictionlessLegs(t: TradeRecord, lotSize: real)
    ensures var p := PriceTrade(t, Costs(lotSize, 0.0, 0.0));
            && p.pnlLong == (t.exitPriceLong - t.entryPrice) * lotSize
            && p.pnlShort == (t.entryPrice - t.exitPriceShort) * lotSize
            && p.totalPnl == (t.exitPriceLong - t.exitPriceShort) * lotSize
  {
  }

  /** With zero slippage only the flat cost is charged, once per leg (the
      aggregator variant with brokerage only). */
  lemma CostOnlyLegs(t: TradeRecord, lotSize: real, cost: real)
    ensures var p := PriceTrade(t, Costs(lotSize, cost, 0.0));
            && p.pnlLong == (t.exitPriceLong - t.entryPrice) * lotSize - cost
            && p.pnlShort == (t.entryPrice - t.exitPriceShort) * lotSize - cost
  {
  }

  /** Raising the cost per leg by `delta` lowers the day's total by exactly
      twice `delta`, whatever the prices. */
  lemma CostChargedTwice(t: TradeRecord, c: Costs, delta: real)
    ensures PriceTrade(t, c.(costPerTrade := c.costPerTrade + delta)).totalPnl
         == PriceTrade(t, c).totalPnl - 2.0 * delta
  {
  }

  /** A worked case: entry price 100 at rate 0.0005 costs 0.1 per leg. */
  lemma SlippageExample()
    ensures Slippage(100.0, 0.0005) == 0.1
  {
  }

  /** Prices every record, in order. */
  function PriceTrades(ts: seq<TradeRecord>, c: Costs): (ps: seq<PricedTrade>)
    ensures |ps| == |ts|
    ensures forall k :: 0 <= k < |ts| ==> ps[k] == PriceTrade(ts[k], c)
  {
    if |ts| == 0 then [] else [PriceTrade(ts[0], c)] + PriceTrades(ts[1..], c)
  }

  /** Sum of the totals of a list of priced records. Like `DailyTotal` and
      `Drawdown.Sum` it is a sum over one column of one record type; the
      three are linked by `GroupByDateSum` and `Pipeline.Totals`. */
  function TotalOf(ps: seq<PricedTrade>): real {
    if |ps| == 0 then 0.0 else ps[0].totalPnl + TotalOf(ps[1..])
  }

  /** Sum of the totals of the priced records on one date. */
  function TotalOn(ps: seq<PricedTrade>, date: int): real {
    if |ps| == 0 then 0.0
    else (if ps[0].trade.date == date then ps[0].totalPnl else 0.0) + TotalOn(ps[1..], date)
  }

  /** The dates that have at least one priced record. */
  function TradeDates(ps: seq<PricedTrade>): set<int> {
    if |ps| == 0 then {} else {ps[0].trade.date} + TradeDates(ps[1..])
  }

  /** Sum of a daily P&L column. */
  function DailyTotal(rows: seq<DailyPnl>): real {
    if |rows| == 0 then 0.0 else rows[0].total + DailyTotal(rows[1..])
  }

  /** What the daily log books on one date (the sum of its rows for that date). */
  function AmountOn(rows: seq<DailyPnl>, date: int): real {
    if |rows| == 0 then 0.0
    else (if rows[0].date == date then rows[0].total else 0.0) + AmountOn(rows[1..], date)
  }

  /** The dates that have a row. */
  function RowDates(rows: seq<DailyPnl>): set<int> {
    if |rows| == 0 then {} else {rows[0].date} + RowDates(rows[1..])
  }

  /** Rows in strictly increasing date order: one row per date, sorted
      (the daily-log copy of `DatesIncreasing`). */
  predicate RowsIncreasing(rows: seq<DailyPnl>) {
    forall i, j :: 0 <= i < j < |rows| ==> rows[i].date < rows[j].date
  }

  /** Books `amount` on `date` in a sorted daily log: adds it to that date's
      row, or opens a row for the date at its place in the order. */
  function Book(rows: seq<DailyPnl>, date: int, amount: real): (r: seq<DailyPnl>)
    requires RowsIncreasing(rows)
    ensures RowsIncreasing(r)
    ensures RowDates(r) == RowDates(rows) + {date}
    ensures DailyTotal(r) == DailyTotal(rows) + amount
    ensures forall x :: AmountOn(r, x) == AmountOn(rows, x) + (if x == date then amount else 0.0)
  {
    if |rows| == 0 then [DailyPnl(date, amount)]
    else if date < rows[0].date then
      var r := [DailyPnl(date, amount)] + rows;
      assert r[1..] == rows;
      r
    else if date == rows[0].date then
      var r := [DailyPnl(date, rows[0].total + amount)] + rows[1..];
      assert r[1..] == rows[1..];
      r
    else
      var tail := Book(rows[1..], date, amount);
      RowDatesMember(tail, 0);
      RowDatesBounded(rows[1..], rows[0].date);
      RowsIncreasingCons(rows[0], tail);
      var r := [rows[0]] + tail;
      assert r[1..] == tail;
      r
  }

  /** Putting a row dated before the first of a sorted log in front keeps it sorted. */
  lemma RowsIncreasingCons(row: DailyPnl, rows: seq<DailyPnl>)
    requires RowsIncreasing(rows)
    requires |rows| > 0 ==> row.date < rows[0].date
    ensures RowsIncreasing([row] + rows)
  {
    var all := [row] + rows;
    forall i, j | 0 <= i < j < |all| ensures all[i].date < all[j].date {
      assert all[j] == rows[j - 1];
      if i > 0 {
        assert all[i] == rows[i - 1];
      }
    }
  }

  /** Every row's date is among the row dates. */
  lemma {:induction false} RowDatesMember(rows: seq<DailyPnl>, k: int)
    requires 0 <= k < |rows|
    ensures rows[k].date in RowDates(rows)
  {
    if k > 0 {
      RowDatesMember(rows[1..], k - 1);
    }
  }

  /** Row dates of a list with every date above `low` are above `low`. */
  lemma RowDatesBounded(rows: seq<DailyPnl>, low: int)
    requires forall k :: 0 <= k < |rows| ==> low < rows[k].date
    ensures forall x :: x in RowDates(rows) ==> low < x
  {
  }

  /** In a sorted log each row is the only one for its date, so the amount
      booked on that date is the row's total. */
  lemma {:induction false} AmountOnRow(rows: seq<DailyPnl>, k: int)
    requires RowsIncreasing(rows)
    requires 0 <= k < |rows|
    ensures AmountOn(rows, rows[k].date) == rows[k].total
  {
    if k == 0 {
      AmountOnAbsent(rows[1..], rows[0].date);
    } else {
      assert rows[1..][k - 1] == rows[k];
      AmountOnRow(rows[1..], k - 1);
    }
  }

  /** Nothing is booked on a date that has no row. */
  lemma {:induction false} AmountOnAbsent(rows: seq<DailyPnl>, date: int)
    requires forall k :: 0 <= k < |rows| ==> rows[k].date != date
    ensures AmountOn(rows, date) == 0.0
  {
    if |rows| > 0 {
      AmountOnAbsent(rows[1..], date);
    }
  }

  /** The daily log (`groupby("Date")["Total P&L"].sum()`): one row per date
      that has records, in date order, each holding the sum of that date's
      totals; the grand total is unchanged by the grouping. */
  function GroupByDateSum(ps: seq<PricedTrade>): (rows: seq<DailyPnl>)
    ensures RowsIncreasing(rows)
    ensures RowDates(rows) == TradeDates(ps)
    ensures forall x :: AmountOn(rows, x) == TotalOn(ps, x)
    ensures DailyTotal(rows) == TotalOf(ps)
  {
    if |ps| == 0 then []
    else Book(GroupByDateSum(ps[1..]), ps[0].trade.date, ps[0].totalPnl)
  }

  /** Each row of the daily log holds the sum of the totals on its date. */
  lemma DailyRowIsDateSum(ps: seq<PricedTrade>, k: int)
    requires 0 <= k < |GroupByDateSum(ps)|
    ensures GroupByDateSum(ps)[k].total == TotalOn(ps, GroupByDateSum(ps)[k].date)
  {
    AmountOnRow(GroupByDateSum(ps), k);
  }

  /** Priced records already in strictly increasing date order (the
      priced-record copy of `DatesIncreasing`). */
  predicate PricedDatesIncreasing(ps: seq<PricedTrade>) {
    forall i, j :: 0 <= i < j < |ps| ==> ps[i].trade.date < ps[j].trade.date
  }

  /** With one record per date in date order, as the simulator produces
      them, the group-sum is the identity: row k is record k's date and total. */
  lemma {:induction false} GroupByDateSumIdentity(ps: seq<PricedTrade>)
    requires PricedDatesIncreasing(ps)
    ensures |GroupByDateSum(ps)| == |ps|
    ensures forall k :: 0 <= k < |ps| ==>
              GroupByDateSum(ps)[k] == DailyPnl(ps[k].trade.date, ps[k].totalPnl)
  {
    if |ps| > 0 {
      var rest := GroupByDateSum(ps[1..]);
      assert PricedDatesIncreasing(ps[1..]);
      GroupByDateSumIdentity(ps[1..]);
      if |rest| > 0 {
        assert rest[0].date == ps[1].trade.date;
      }
      assert GroupByDateSum(ps) == [DailyPnl(ps[0].trade.date, ps[0].totalPnl)] + rest;
    }
  }
}
