/**
 The per-day straddle simulator (`backtest_strategy` in main.py). At the entry
 minute a long and a short position are opened at that minute's close; each
 leg is closed by the first bar in [entry, exit] whose close reaches its stop
 level, and a leg that is never stopped is closed at the exit minute.
 */
module Simulator {
  import opened Market

  /** The two legs of the straddle. */
  datatype Side = Long | Short

  /** One simulated day: the fields of a row of the trade log. Times are
      minutes of the day. */
  datatype TradeRecord = TradeRecord(
    date: int,
    entryTime: int,
    entryPrice: real,
    exitTimeLong: int,
    exitTimeShort: int,
    exitPriceLong: real,
    exitPriceShort: real)

  /** Whether a close reaches a leg's stop level. A tie counts: the long leg
      is stopped at or below its level, the short leg at or above it. */
  predicate Breaches(side: Side, b: Bar, level: real) {
    match side
    case Long => b.close <= level
    case Short => b.close >= level
  }

  /** Some bar of the group is stamped with the given minute. */
  predicate HasBarAt(bars: seq<Bar>, minute: int) {
    exists i :: 0 <= i < |bars| && bars[i].minute == minute
  }

  /** Exact-timestamp lookup: the position of the first bar stamped with
      `minute`, or None when no bar carries that minute. */
  function IndexOfMinute(bars: seq<Bar>, minute: int): (r: Option<nat>)
    ensures r.Some? ==> r.value < |bars| && bars[r.value].minute == minute
    ensures r.Some? ==> forall k :: 0 <= k < r.value ==> bars[k].minute != minute
    ensures r.None? <==> !HasBarAt(bars, minute)
  {
    if |bars| == 0 then None
    else if bars[0].minute == minute then Some(0)
    else
      match IndexOfMinute(bars[1..], minute)
      case Some(j) => Some(j + 1)
      case None =>
        assert forall i :: 1 <= i < |bars| ==> bars[i] == bars[1..][i - 1];
        None
  }

  /** The bars stamped within [from, to], in their original order (label
      slicing `loc[from:to]` on a sorted index). */
  function Window(bars: seq<Bar>, from: int, to: int): (w: seq<Bar>)
    ensures |w| <= |bars|
  {
    if |bars| == 0 then []
    else
      var rest := Window(bars[1..], from, to);
      if from <= bars[0].minute <= to then [bars[0]] + rest else rest
  }

  /** The window holds exactly the bars stamped within [from, to]. */
  lemma {:induction false} WindowContents(bars: seq<Bar>, from: int, to: int)
    ensures forall b :: b in Window(bars, from, to) <==> b in bars && from <= b.minute <= to
  {
    if |bars| > 0 {
      WindowContents(bars[1..], from, to);
      assert bars == [bars[0]] + bars[1..];
    }
  }

  /** A window of bars all stamped after `m` holds only bars stamped after `m`. */
  lemma {:induction false} WindowAfter(bars: seq<Bar>, from: int, to: int, m: int)
    requires forall k :: 0 <= k < |bars| ==> m < bars[k].minute
    ensures forall k :: 0 <= k < |Window(bars, from, to)| ==> m < Window(bars, from, to)[k].minute
  {
    if |bars| > 0 {
      WindowAfter(bars[1..], from, to, m);
    }
  }

  /** Slicing keeps the chronological order of the bars. */
  lemma {:induction false} WindowIncreasing(bars: seq<Bar>, from: int, to: int)
    requires Increasing(bars)
    ensures Increasing(Window(bars, from, to))
  {
    if |bars| > 0 {
      var rest := Window(bars[1..], from, to);
      assert Increasing(bars[1..]);
      WindowIncreasing(bars[1..], from, to);
      if from <= bars[0].minute <= to {
        assert forall k :: 0 <= k < |bars[1..]| ==> bars[0].minute < bars[1..][k].minute by {
          forall k | 0 <= k < |bars[1..]| ensures bars[0].minute < bars[1..][k].minute {
            assert bars[1..][k] == bars[k + 1];
          }
        }
        WindowAfter(bars[1..], from, to, bars[0].minute);
        var w := [bars[0]] + rest;
        forall i, j | 0 <= i < j < |w| ensures w[i].minute < w[j].minute {
          assert w[j] == rest[j - 1];
          if i > 0 {
            assert w[i] == rest[i - 1];
          }
        }
      }
    }
  }

  /** The position of the first bar that reaches `level` on the given side,
      or None when none does. */
  function FirstBreach(w: seq<Bar>, side: Side, level: real): (r: Option<nat>)
    ensures r.Some? ==> r.value < |w| && Breaches(side, w[r.value], level)
    ensures r.Some? ==> forall k :: 0 <= k < r.value ==> !Breaches(side, w[k], level)
    ensures r.None? ==> forall k :: 0 <= k < |w| ==> !Breaches(side, w[k], level)
  {
    if |w| == 0 then None
    else if Breaches(side, w[0], level) then Some(0)
    else
      match FirstBreach(w[1..], side, level)
      case Some(j) => Some(j + 1)
      case None => None
  }

  /** The bar that stops a leg, if any. */
  function FirstBreachBar(w: seq<Bar>, side: Side, level: real): Option<Bar> {
    match FirstBreach(w, side, level)
    case Some(j) => Some(w[j])
    case None => None
  }

  /** The state of the minute loop: each leg's stop bar once it has been hit. */
  datatype Exits = Exits(long: Option<Bar>, short: Option<Bar>)

  /** One leg's update on one bar: an open leg is closed by a bar that
      breaches its level; a closed leg keeps its first exit. */
  function StepLeg(side: Side, exit: Option<Bar>, b: Bar, level: real): Option<Bar> {
    if exit.None? && Breaches(side, b, level) then Some(b) else exit
  }

  /** The minute loop: both legs are updated on every bar, in order. */
  function Walk(w: seq<Bar>, stopLong: real, stopShort: real, st: Exits): (r: Exits)
    ensures st.long.Some? ==> r.long == st.long
    ensures st.short.Some? ==> r.short == st.short
    ensures r.long.Some? ==> st.long.Some? || Breaches(Long, r.long.value, stopLong)
    ensures r.short.Some? ==> st.short.Some? || Breaches(Short, r.short.value, stopShort)
    decreases |w|
  {
    if |w| == 0 then st
    else
      var next := Exits(StepLeg(Long, st.long, w[0], stopLong), StepLeg(Short, st.short, w[0], stopShort));
      Walk(w[1..], stopLong, stopShort, next)
  }

  /** The loop closes each leg at its first breach: a leg already closed
      stays closed, an open one is closed by the first breaching bar of the
      rest of the walk. Each leg's outcome depends only on its own state and
      level, never on the other leg. */
  lemma {:induction false} WalkFindsFirstBreach(w: seq<Bar>, stopLong: real, stopShort: real, st: Exits)
    ensures Walk(w, stopLong, stopShort, st).long
         == (if st.long.Some? then st.long else FirstBreachBar(w, Long, stopLong))
    ensures Walk(w, stopLong, stopShort, st).short
         == (if st.short.Some? then st.short else FirstBreachBar(w, Short, stopShort))
  {
    if |w| > 0 {
      var next := Exits(StepLeg(Long, st.long, w[0], stopLong), StepLeg(Short, st.short, w[0], stopShort));
      WalkFindsFirstBreach(w[1..], stopLong, stopShort, next);
    }
  }

  /** The short leg's exit is the same whatever the long leg does: changing
      the long level or the long leg's state leaves it unchanged. */
  lemma {:induction false} ShortLegIndependent(w: seq<Bar>, stopLong: real, stopLong': real, stopShort: real, st: Exits, st': Exits)
    requires st.short == st'.short
    ensures Walk(w, stopLong, stopShort, st).short == Walk(w, stopLong', stopShort, st').short
  {
    WalkFindsFirstBreach(w, stopLong, stopShort, st);
    WalkFindsFirstBreach(w, stopLong', stopShort, st');
  }

  /** A date qualifies when it has bars at both the exact entry and the exact exit minute. */
  predicate Qualifies(d: Day, entry: int, exit: int) {
    HasBarAt(d.bars, entry) && HasBarAt(d.bars, exit)
  }

  /** How a leg is closed: at its stop bar if it has one, else at the exit bar. */
  function LegClose(stopBar: Option<Bar>, exitBar: Bar): Bar {
    if stopBar.Some? then stopBar.value else exitBar
  }

  /** The record of a qualifying date, given its entry and exit bars: both
      legs open at the entry bar's close, and each is closed at the first bar
      of the window that breaches its own level, or else at the exit bar. */
  function TradeOn(d: Day, entry: int, exit: int, stopLoss: real, entryBar: Bar, exitBar: Bar): (r: TradeRecord)
    ensures r.date == d.date && r.entryTime == entry && r.entryPrice == entryBar.close
    ensures var c := LegClose(FirstBreachBar(Window(d.bars, entry, exit), Long, r.entryPrice - stopLoss), exitBar);
            r.exitTimeLong == c.minute && r.exitPriceLong == c.close
    ensures var c := LegClose(FirstBreachBar(Window(d.bars, entry, exit), Short, r.entryPrice + stopLoss), exitBar);
            r.exitTimeShort == c.minute && r.exitPriceShort == c.close
  {
    var w := Window(d.bars, entry, exit);
    var ex := Walk(w, entryBar.close - stopLoss, entryBar.close + stopLoss, Exits(None, None));
    WalkFindsFirstBreach(w, entryBar.close - stopLoss, entryBar.close + stopLoss, Exits(None, None));
    var longExit := LegClose(ex.long, exitBar);
    var shortExit := LegClose(ex.short, exitBar);
    TradeRecord(d.date, entry, entryBar.close,
                longExit.minute, shortExit.minute, longExit.close, shortExit.close)
  }

  /** Simulates one date. A date without an exact entry or exit bar yields
      nothing; otherwise one record opened at the entry bar's close. */
  function SimulateDay(d: Day, entry: int, exit: int, stopLoss: real): (r: Option<TradeRecord>)
    ensures r.Some? <==> Qualifies(d, entry, exit)
    ensures r.Some? ==> r.value.date == d.date && r.value.entryTime == entry
    ensures r.Some? ==> exists i :: 0 <= i < |d.bars| && d.bars[i].minute == entry && d.bars[i].close == r.value.entryPrice
  {
    match (IndexOfMinute(d.bars, entry), IndexOfMinute(d.bars, exit))
    case (Some(ie), Some(ix)) => Some(TradeOn(d, entry, exit, stopLoss, d.bars[ie], d.bars[ix]))
    case _ => None
  }

  /** A leg stopped at `exitTime`: a bar in [entry, exit] stamped then, at
      `exitPrice`, reaches the level, and no bar from the entry minute up to
      before it does. */
  ghost predicate StoppedAt(d: Day, entry: int, exit: int, side: Side, level: real, exitTime: int, exitPrice: real) {
    && entry <= exitTime <= exit
    && (exists i :: 0 <= i < |d.bars| && d.bars[i].minute == exitTime && d.bars[i].close == exitPrice
                   && Breaches(side, d.bars[i], level))
    && (forall i :: 0 <= i < |d.bars| && entry <= d.bars[i].minute < exitTime ==> !Breaches(side, d.bars[i], level))
  }

  /** A leg never stopped: no bar in [entry, exit] reaches the level, and the
      leg leaves at the exit minute at a close of a bar stamped then. */
  ghost predicate NeverStopped(d: Day, entry: int, exit: int, side: Side, level: real, exitTime: int, exitPrice: real) {
    && exitTime == exit
    && (forall i :: 0 <= i < |d.bars| && entry <= d.bars[i].minute <= exit ==> !Breaches(side, d.bars[i], level))
    && (exists i :: 0 <= i < |d.bars| && d.bars[i].minute == exit && d.bars[i].close == exitPrice)
  }

  /** The exit a leg of a simulated day takes: the first bar in
      [entry, exit] that reaches the leg's level, and only that one; or, when
      no bar there reaches it, the exit minute at the exit bar's close. The
      two cases exclude each other, since a stop bar is a breach in [entry, exit]. */
  ghost predicate FirstBreachExit(d: Day, entry: int, exit: int, side: Side, level: real, exitTime: int, exitPrice: real) {
    || StoppedAt(d, entry, exit, side, level, exitTime, exitPrice)
    || NeverStopped(d, entry, exit, side, level, exitTime, exitPrice)
  }

  /** A bar of the day stamped inside the window but before the window's
      j-th bar sits at some position before j in the window. */
  lemma WindowEarlierBar(bars: seq<Bar>, from: int, to: int, j: int, b: Bar)
    requires Increasing(bars)
    requires 0 <= j < |Window(bars, from, to)|
    requires b in bars && from <= b.minute < Window(bars, from, to)[j].minute
    ensures exists k :: 0 <= k < j && Window(bars, from, to)[k] == b
  {
    var w := Window(bars, from, to);
    WindowIncreasing(bars, from, to);
    WindowContents(bars, from, to);
    assert b in w;
    var k :| 0 <= k < |w| && w[k] == b;
    assert k < j;
  }

  /** When a leg is stopped, its stop bar is a bar of the day inside
      [entry, exit] that breaches the level, and no bar of the day stamped
      from the entry minute up to before it breaches. */
  lemma LegCloseStopped(d: Day, entry: int, exit: int, side: Side, level: real, j: nat)
    requires Increasing(d.bars)
    requires FirstBreach(Window(d.bars, entry, exit), side, level) == Some(j)
    ensures var b := Window(d.bars, entry, exit)[j];
            && b in d.bars && entry <= b.minute <= exit && Breaches(side, b, level)
            && forall i :: 0 <= i < |d.bars| && entry <= d.bars[i].minute < b.minute ==> !Breaches(side, d.bars[i], level)
  {
    var w := Window(d.bars, entry, exit);
    WindowContents(d.bars, entry, exit);
    assert w[j] in w;
    forall i | 0 <= i < |d.bars| && entry <= d.bars[i].minute < w[j].minute
      ensures !Breaches(side, d.bars[i], level)
    {
      WindowEarlierBar(d.bars, entry, exit, j, d.bars[i]);
    }
  }

  /** When a leg is never stopped, no bar of the day inside [entry, exit]
      breaches its level. */
  lemma LegCloseUnstopped(d: Day, entry: int, exit: int, side: Side, level: real)
    requires FirstBreach(Window(d.bars, entry, exit), side, level).None?
    ensures forall i :: 0 <= i < |d.bars| && entry <= d.bars[i].minute <= exit ==> !Breaches(side, d.bars[i], level)
  {
    var w := Window(d.bars, entry, exit);
    WindowContents(d.bars, entry, exit);
    forall i | 0 <= i < |d.bars| && entry <= d.bars[i].minute <= exit
      ensures !Breaches(side, d.bars[i], level)
    {
      assert d.bars[i] in w;
    }
  }

  /** Closing a leg at the first breach of its level in the window, or else
      at the exit bar, meets the first-breach description of its exit. */
  lemma LegCloseIsFirstBreach(d: Day, entry: int, exit: int, side: Side, level: real, exitBar: Bar)
    requires Increasing(d.bars)
    requires exitBar in d.bars && exitBar.minute == exit
    ensures var c := LegClose(FirstBreachBar(Window(d.bars, entry, exit), side, level), exitBar);
            FirstBreachExit(d, entry, exit, side, level, c.minute, c.close)
  {
    var w := Window(d.bars, entry, exit);
    match FirstBreach(w, side, level)
    case Some(j) =>
      LegCloseStopped(d, entry, exit, side, level, j);
      var i :| 0 <= i < |d.bars| && d.bars[i] == w[j];
    case None =>
      LegCloseUnstopped(d, entry, exit, side, level);
      var i :| 0 <= i < |d.bars| && d.bars[i] == exitBar;
  }

  /** A simulated record is the trade opened at a bar of the entry minute:
      each leg closes at its first breach in the window, or else at a bar of
      the exit minute. */
  lemma SimulatedTrade(d: Day, entry: int, exit: int, stopLoss: real, t: TradeRecord) returns (exitBar: Bar)
    requires SimulateDay(d, entry, exit, stopLoss) == Some(t)
    ensures exitBar in d.bars && exitBar.minute == exit
    ensures t.exitTimeLong == LegClose(FirstBreachBar(Window(d.bars, entry, exit), Long, t.entryPrice - stopLoss), exitBar).minute
    ensures t.exitPriceLong == LegClose(FirstBreachBar(Window(d.bars, entry, exit), Long, t.entryPrice - stopLoss), exitBar).close
    ensures t.exitTimeShort == LegClose(FirstBreachBar(Window(d.bars, entry, exit), Short, t.entryPrice + stopLoss), exitBar).minute
    ensures t.exitPriceShort == LegClose(FirstBreachBar(Window(d.bars, entry, exit), Short, t.entryPrice + stopLoss), exitBar).close
  {
    var ie, ix := IndexOfMinute(d.bars, entry).value, IndexOfMinute(d.bars, exit).value;
    exitBar := d.bars[ix];
    assert t == TradeOn(d, entry, exit, stopLoss, d.bars[ie], exitBar);
  }

  /** Long leg: exit at the first bar in [entry, exit] whose close is at or
      below entry price minus the stop; later breaches do not replace it; with
      no such bar, exit at the exit minute's close. */
  lemma LongLegIsFirstBreach(d: Day, entry: int, exit: int, stopLoss: real, t: TradeRecord)
    requires Increasing(d.bars)
    requires SimulateDay(d, entry, exit, stopLoss) == Some(t)
    ensures FirstBreachExit(d, entry, exit, Long, t.entryPrice - stopLoss, t.exitTimeLong, t.exitPriceLong)
  {
    var exitBar := SimulatedTrade(d, entry, exit, stopLoss, t);
    LongExitFromClose(d, entry, exit, stopLoss, t, exitBar);
  }

  /** Short leg: exit at the first bar in [entry, exit] whose close is at or
      above entry price plus the stop, whether or not the long leg has
      already been stopped; with no such bar, exit at the exit minute's close. */
  lemma ShortLegIsFirstBreach(d: Day, entry: int, exit: int, stopLoss: real, t: TradeRecord)
    requires Increasing(d.bars)
    requires SimulateDay(d, entry, exit, stopLoss) == Some(t)
    ensures FirstBreachExit(d, entry, exit, Short, t.entryPrice + stopLoss, t.exitTimeShort, t.exitPriceShort)
  {
    var exitBar := SimulatedTrade(d, entry, exit, stopLoss, t);
    ShortExitFromClose(d, entry, exit, stopLoss, t, exitBar);
  }

  /** A record whose long exit is the close of the first long breach in the
      window, or else of the exit bar, leaves the long leg at its first breach. */
  lemma LongExitFromClose(d: Day, entry: int, exit: int, stopLoss: real, t: TradeRecord, exitBar: Bar)
    requires Increasing(d.bars)
    requires exitBar in d.bars && exitBar.minute == exit
    requires t.exitTimeLong == LegClose(FirstBreachBar(Window(d.bars, entry, exit), Long, t.entryPrice - stopLoss), exitBar).minute
    requires t.exitPriceLong == LegClose(FirstBreachBar(Window(d.bars, entry, exit), Long, t.entryPrice - stopLoss), exitBar).close
    ensures FirstBreachExit(d, entry, exit, Long, t.entryPrice - stopLoss, t.exitTimeLong, t.exitPriceLong)
  {
    LegCloseIsFirstBreach(d, entry, exit, Long, t.entryPrice - stopLoss, exitBar);
  }

  /** A record whose short exit is the close of the first short breach in the
      window, or else of the exit bar, leaves the short leg at its first breach. */
  lemma ShortExitFromClose(d: Day, entry: int, exit: int, stopLoss: real, t: TradeRecord, exitBar: Bar)
    requires Increasing(d.bars)
    requires exitBar in d.bars && exitBar.minute == exit
    requires t.exitTimeShort == LegClose(FirstBreachBar(Window(d.bars, entry, exit), Short, t.entryPrice + stopLoss), exitBar).minute
    requires t.exitPriceShort == LegClose(FirstBreachBar(Window(d.bars, entry, exit), Short, t.entryPrice + stopLoss), exitBar).close
    ensures FirstBreachExit(d, entry, exit, Short, t.entryPrice + stopLoss, t.exitTimeShort, t.exitPriceShort)
  {
    LegCloseIsFirstBreach(d, entry, exit, Short, t.entryPrice + stopLoss, exitBar);
  }

  /** With entry no later than exit, both legs leave inside [entry, exit],
      each at the close of a bar stamped with its exit time. */
  lemma ExitsWithinWindow(d: Day, entry: int, exit: int, stopLoss: real, t: TradeRecord)
    requires Increasing(d.bars)
    requires entry <= exit
    requires SimulateDay(d, entry, exit, stopLoss) == Some(t)
    ensures entry <= t.exitTimeLong <= exit
    ensures entry <= t.exitTimeShort <= exit
    ensures exists i :: 0 <= i < |d.bars| && d.bars[i].minute == t.exitTimeLong && d.bars[i].close == t.exitPriceLong
    ensures exists i :: 0 <= i < |d.bars| && d.bars[i].minute == t.exitTimeShort && d.bars[i].close == t.exitPriceShort
  {
    LongLegIsFirstBreach(d, entry, exit, stopLoss, t);
    ShortLegIsFirstBreach(d, entry, exit, stopLoss, t);
  }

  /** With a positive stop distance neither leg can be stopped on the entry
      bar, whose close is the entry price itself: a leg leaves either after
      the entry minute or at the exit minute. */
  lemma NoStopOnEntryBar(d: Day, entry: int, exit: int, stopLoss: real, t: TradeRecord)
    requires Increasing(d.bars)
    requires stopLoss > 0.0
    requires SimulateDay(d, entry, exit, stopLoss) == Some(t)
    ensures entry < t.exitTimeLong || t.exitTimeLong == exit
    ensures entry < t.exitTimeShort || t.exitTimeShort == exit
  {
    var e :| 0 <= e < |d.bars| && d.bars[e].minute == entry && d.bars[e].close == t.entryPrice;
    // the entry bar is the only bar stamped with the entry minute
    forall i | 0 <= i < |d.bars| && d.bars[i].minute == entry
      ensures d.bars[i] == d.bars[e]
    {
      assert !(i < e) && !(e < i);
    }
    assert !Breaches(Long, d.bars[e], t.entryPrice - stopLoss);
    assert !Breaches(Short, d.bars[e], t.entryPrice + stopLoss);
    LongLegIsFirstBreach(d, entry, exit, stopLoss, t);
    ShortLegIsFirstBreach(d, entry, exit, stopLoss, t);
  }

  /** Records in strictly increasing date order: at most one per date
      (the record-level copy of `DatesIncreasing`). */
  predicate TradeDatesIncreasing(trades: seq<TradeRecord>) {
    forall i, j :: 0 <= i < j < |trades| ==> trades[i].date < trades[j].date
  }

  /** The simulator over every date group, in order: the records of the
      qualifying dates, at most one per group. */
  function Backtest(days: seq<Day>, entry: int, exit: int, stopLoss: real): (trades: seq<TradeRecord>)
    ensures |trades| <= |days|
  {
    if |days| == 0 then []
    else
      var rest := Backtest(days[1..], entry, exit, stopLoss);
      match SimulateDay(days[0], entry, exit, stopLoss)
      case Some(t) => [t] + rest
      case None => rest
  }

  /** Every record is the simulation of one of the groups. */
  lemma {:induction false} BacktestRecordsFromDays(days: seq<Day>, entry: int, exit: int, stopLoss: real)
    ensures forall t :: t in Backtest(days, entry, exit, stopLoss) ==>
              exists d :: d in days && SimulateDay(d, entry, exit, stopLoss) == Some(t)
  {
    if |days| > 0 {
      BacktestRecordsFromDays(days[1..], entry, exit, stopLoss);
      assert forall d :: d in days[1..] ==> d in days;
    }
  }

  /** Every qualifying group contributes its record. */
  lemma {:induction false} BacktestCoversQualifying(days: seq<Day>, entry: int, exit: int, stopLoss: real)
    ensures forall d :: d in days && Qualifies(d, entry, exit) ==>
              SimulateDay(d, entry, exit, stopLoss).value in Backtest(days, entry, exit, stopLoss)
  {
    if |days| > 0 {
      BacktestCoversQualifying(days[1..], entry, exit, stopLoss);
      assert days == [days[0]] + days[1..];
    }
  }

  /** The date of every record is the date of a qualifying group. */
  lemma RecordDatesQualify(days: seq<Day>, entry: int, exit: int, stopLoss: real, k: int)
    requires DatesIncreasing(days)
    requires 0 <= k < |Backtest(days, entry, exit, stopLoss)|
    ensures forall i :: 0 <= i < |days| && days[i].date == Backtest(days, entry, exit, stopLoss)[k].date ==>
              Qualifies(days[i], entry, exit)
  {
    var trades := Backtest(days, entry, exit, stopLoss);
    BacktestRecordsFromDays(days, entry, exit, stopLoss);
    assert trades[k] in trades;
    var d :| d in days && SimulateDay(d, entry, exit, stopLoss) == Some(trades[k]);
    var j :| 0 <= j < |days| && days[j] == d;
    forall i | 0 <= i < |days| && days[i].date == trades[k].date ensures Qualifies(days[i], entry, exit) {
      assert !(i < j) && !(j < i);
    }
  }

  /** A qualifying group's record is among the records. */
  lemma QualifyingDateHasRecord(days: seq<Day>, entry: int, exit: int, stopLoss: real, i: int)
    requires 0 <= i < |days| && Qualifies(days[i], entry, exit)
    ensures exists k :: 0 <= k < |Backtest(days, entry, exit, stopLoss)|
                        && Backtest(days, entry, exit, stopLoss)[k].date == days[i].date
  {
    var trades := Backtest(days, entry, exit, stopLoss);
    BacktestCoversQualifying(days, entry, exit, stopLoss);
    assert days[i] in days;
    var t := SimulateDay(days[i], entry, exit, stopLoss).value;
    assert t in trades;
    var k :| 0 <= k < |trades| && trades[k] == t;
  }

  /** Putting a record dated before the first of an increasing list in
      front keeps the list increasing. */
  lemma TradeDatesIncreasingCons(t: TradeRecord, trades: seq<TradeRecord>)
    requires TradeDatesIncreasing(trades)
    requires |trades| > 0 ==> t.date < trades[0].date
    ensures TradeDatesIncreasing([t] + trades)
  {
    var all := [t] + trades;
    forall i, j | 0 <= i < j < |all| ensures all[i].date < all[j].date {
      assert all[j] == trades[j - 1];
      if i > 0 {
        assert all[i] == trades[i - 1];
      }
    }
  }

  /** Groups all dated after `date` give records all dated after it. */
  lemma {:induction false} BacktestDatesAfter(days: seq<Day>, entry: int, exit: int, stopLoss: real, date: int)
    requires forall i :: 0 <= i < |days| ==> date < days[i].date
    ensures forall k :: 0 <= k < |Backtest(days, entry, exit, stopLoss)| ==> date < Backtest(days, entry, exit, stopLoss)[k].date
  {
    if |days| > 0 {
      assert forall i :: 0 <= i < |days[1..]| ==> days[1..][i] == days[i + 1];
      BacktestDatesAfter(days[1..], entry, exit, stopLoss, date);
    }
  }

  /** Records come out in strictly increasing date order over groups with
      increasing dates. */
  lemma {:induction false} BacktestDatesIncreasing(days: seq<Day>, entry: int, exit: int, stopLoss: real)
    requires DatesIncreasing(days)
    ensures TradeDatesIncreasing(Backtest(days, entry, exit, stopLoss))
  {
    if |days| > 0 {
      var rest := Backtest(days[1..], entry, exit, stopLoss);
      assert DatesIncreasing(days[1..]);
      BacktestDatesIncreasing(days[1..], entry, exit, stopLoss);
      match SimulateDay(days[0], entry, exit, stopLoss)
      case Some(t) =>
        assert forall i :: 0 <= i < |days[1..]| ==> days[1..][i] == days[i + 1];
        BacktestDatesAfter(days[1..], entry, exit, stopLoss, days[0].date);
        TradeDatesIncreasingCons(t, rest);
      case None =>
    }
  }

  /** Over groups with distinct, increasing dates: a date has a record if and
      only if it has bars at both the exact entry and exit minutes, and the
      records come out in date order, so no date has two. */
  lemma BacktestOnePerQualifyingDate(days: seq<Day>, entry: int, exit: int, stopLoss: real)
    requires DatesIncreasing(days)
    ensures var trades := Backtest(days, entry, exit, stopLoss);
            && TradeDatesIncreasing(trades)
            && forall i :: 0 <= i < |days| ==>
                 (Qualifies(days[i], entry, exit) <==> exists k :: 0 <= k < |trades| && trades[k].date == days[i].date)
  {
    var trades := Backtest(days, entry, exit, stopLoss);
    BacktestDatesIncreasing(days, entry, exit, stopLoss);
    forall i | 0 <= i < |days|
      ensures Qualifies(days[i], entry, exit) <==> exists k :: 0 <= k < |trades| && trades[k].date == days[i].date
    {
      if Qualifies(days[i], entry, exit) {
        QualifyingDateHasRecord(days, entry, exit, stopLoss, i);
      }
      if exists k :: 0 <= k < |trades| && trades[k].date == days[i].date {
        var k :| 0 <= k < |trades| && trades[k].date == days[i].date;
        RecordDatesQualify(days, entry, exit, stopLoss, k);
      }
    }
  }

  /** A worked day: entry 09:16 at 1000, a dip to 850 at 10:00, exit 15:25
      at 1010, stop 100. The long leg is stopped at 10:00 at 850; the short
      leg is never stopped and leaves at 15:25 at 1010. */
  lemma DipScenario()
    ensures var d := Day(1, [Bar(1, 556, 1000.0), Bar(1, 600, 850.0), Bar(1, 700, 980.0), Bar(1, 925, 1010.0)]);
            SimulateDay(d, 556, 925, 100.0) == Some(TradeRecord(1, 556, 1000.0, 600, 925, 850.0, 1010.0))
  {
  }

  /** A day whose first bar is at 09:30 has no 09:16 bar and yields no record. */
  lemma LateOpenScenario()
    ensures SimulateDay(Day(2, [Bar(2, 570, 1000.0), Bar(2, 925, 990.0)]), 556, 925, 100.0).None?
  {
  }
}
