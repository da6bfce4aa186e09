/**
 The price series the backtester reads: minute bars, each stamped with a
 calendar date and a minute of that date, and the partition of the series into
 one group of bars per date (`df.groupby(df.index.date)` in main.py).
 */
module Market {

  datatype Option<T> = None | Some(value: T)

  /** One minute observation: calendar date (a day number), minute of the
      day, and the close price of that minute. */
  datatype Bar = Bar(date: int, minute: int, close: real)

  /** The bars that share one calendar date. */
  datatype Day = Day(date: int, bars: seq<Bar>)

  /** Chronological order of two timestamps (date first, then minute). */
  predicate Before(a: Bar, b: Bar) {
    a.date < b.date || (a.date == b.date && a.minute < b.minute)
  }

  /** A series whose timestamps strictly increase: sorted and without duplicates. */
  predicate TimeOrdered(s: seq<Bar>) {
    forall i, j :: 0 <= i < j < |s| ==> Before(s[i], s[j])
  }

  /** Minutes strictly increase along the bars of a day. */
  predicate Increasing(bars: seq<Bar>) {
    forall i, j :: 0 <= i < j < |bars| ==> bars[i].minute < bars[j].minute
  }

  /** A group as the date partition produces it: non-empty, every bar on the
      group's date, minutes strictly increasing. */
  predicate WellFormedDay(d: Day) {
    && |d.bars| > 0
    && (forall i :: 0 <= i < |d.bars| ==> d.bars[i].date == d.date)
    && Increasing(d.bars)
  }

  /** Groups listed in strictly increasing date order (each date once).
      Records, priced records and daily rows have their own copies of this
      ordering: each is stated on its own record type's date field, which
      keeps quantifier triggers first-order (a shared version would take the
      date as a function value and quantify over its applications). */
  predicate DatesIncreasing(days: seq<Day>) {
    forall i, j :: 0 <= i < j < |days| ==> days[i].date < days[j].date
  }

  /** The series a list of groups came from: their bars, one group after another. */
  function Flatten(days: seq<Day>): seq<Bar> {
    if |days| == 0 then [] else days[0].bars + Flatten(days[1..])
  }

  /** Partition of a series into runs of equal date. Every group is non-empty
      and carries the date of its bars, and putting the groups back together
      gives the series unchanged. */
  function GroupByDate(s: seq<Bar>): (days: seq<Day>)
    ensures |days| <= |s|
    ensures |s| > 0 ==> |days| > 0 && days[0].date == s[0].date
    ensures forall k :: 0 <= k < |days| ==> |days[k].bars| > 0
    ensures forall k, i :: 0 <= k < |days| && 0 <= i < |days[k].bars| ==> days[k].bars[i].date == days[k].date
    ensures Flatten(days) == s
  {
    if |s| == 0 then []
    else
      var rest := GroupByDate(s[1..]);
      if |rest| > 0 && rest[0].date == s[0].date then
        var first := Day(s[0].date, [s[0]] + rest[0].bars);
        FlattenCons(rest[0], rest[1..]);
        FlattenCons(first, rest[1..]);
        [first] + rest[1..]
      else
        var first := Day(s[0].date, [s[0]]);
        FlattenCons(first, rest);
        [first] + rest
  }

  /** Flattening a group followed by others puts its bars first. */
  lemma FlattenCons(d: Day, days: seq<Day>)
    ensures Flatten([d] + days) == d.bars + Flatten(days)
  {
    assert ([d] + days)[1..] == days;
  }

  /** A suffix of a time-ordered series is time-ordered. */
  lemma TimeOrderedTail(s: seq<Bar>)
    requires TimeOrdered(s) && |s| > 0
    ensures TimeOrdered(s[1..])
  {
    forall i, j | 0 <= i < j < |s[1..]| ensures Before(s[1..][i], s[1..][j]) {
      assert s[1..][i] == s[i + 1] && s[1..][j] == s[j + 1];
    }
  }

  /** Putting a group dated before the first of an increasing list in front
      keeps the list increasing. */
  lemma DatesIncreasingCons(d: Day, days: seq<Day>)
    requires DatesIncreasing(days)
    requires |days| > 0 ==> d.date < days[0].date
    ensures DatesIncreasing([d] + days)
  {
    var all := [d] + days;
    forall i, j | 0 <= i < j < |all| ensures all[i].date < all[j].date {
      assert all[j] == days[j - 1];
      if i > 0 {
        assert all[i] == days[i - 1];
      }
    }
  }

  /** On a time-ordered series the dates of the groups strictly increase. */
  lemma {:induction false} GroupDatesIncreasing(s: seq<Bar>)
    requires TimeOrdered(s)
    ensures DatesIncreasing(GroupByDate(s))
  {
    if |s| > 1 {
      var rest := GroupByDate(s[1..]);
      TimeOrderedTail(s);
      GroupDatesIncreasing(s[1..]);
      assert Before(s[0], s[1]);
      if rest[0].date == s[0].date {
        assert DatesIncreasing(rest[1..]);
        DatesIncreasingCons(Day(s[0].date, [s[0]] + rest[0].bars), rest[1..]);
      } else {
        DatesIncreasingCons(Day(s[0].date, [s[0]]), rest);
      }
    }
  }

  /** On a time-ordered series every group is well formed and the dates of
      the groups strictly increase, so each calendar date gets exactly one group. */
  lemma {:induction false} GroupByDateOrdered(s: seq<Bar>)
    requires TimeOrdered(s)
    ensures forall k :: 0 <= k < |GroupByDate(s)| ==> WellFormedDay(GroupByDate(s)[k])
    ensures DatesIncreasing(GroupByDate(s))
  {
    GroupDatesIncreasing(s);
    if |s| > 0 {
      var rest := GroupByDate(s[1..]);
      TimeOrderedTail(s);
      GroupByDateOrdered(s[1..]);
      var days := GroupByDate(s);
      if |rest| > 0 && rest[0].date == s[0].date {
        assert Flatten(rest) == rest[0].bars + Flatten(rest[1..]);
        forall i | 0 <= i < |rest[0].bars|
          ensures rest[0].bars[i] == s[i + 1]
        {
          assert rest[0].bars[i] == Flatten(rest)[i];
        }
        var first := days[0];
        assert first.bars == [s[0]] + rest[0].bars;
        forall i, j | 0 <= i < j < |first.bars|
          ensures first.bars[i].minute < first.bars[j].minute
        {
          assert Before(s[i], s[j]);
          assert first.bars[i] == s[i] && first.bars[j] == s[j];
        }
        assert WellFormedDay(first);
        assert days == [first] + rest[1..];
      } else {
        assert days == [Day(s[0].date, [s[0]])] + rest;
      }
    }
  }

  /** A bar is in the flattened series exactly when it is in one of the groups. */
  lemma {:induction false} FlattenMember(days: seq<Day>, b: Bar)
    ensures b in Flatten(days) <==> exists k :: 0 <= k < |days| && b in days[k].bars
  {
    if |days| > 0 {
      FlattenMember(days[1..], b);
      assert forall k :: 1 <= k < |days| ==> days[k] == days[1..][k - 1];
      if b in Flatten(days[1..]) {
        var k :| 0 <= k < |days[1..]| && b in days[1..][k].bars;
        assert b in days[k + 1].bars;
      }
    }
  }

  /** On a time-ordered series the groups partition it by date: a group
      holds exactly the bars of the series stamped with its date, and every
      bar's date has a group. */
  lemma GroupByDatePartition(s: seq<Bar>)
    requires TimeOrdered(s)
    ensures var days := GroupByDate(s);
            && (forall k, b :: 0 <= k < |days| ==> (b in days[k].bars <==> b in s && b.date == days[k].date))
            && (forall i :: 0 <= i < |s| ==> exists k :: 0 <= k < |days| && days[k].date == s[i].date)
  {
    var days := GroupByDate(s);
    GroupByDateOrdered(s);
    forall k, b | 0 <= k < |days|
      ensures b in days[k].bars <==> b in s && b.date == days[k].date
    {
      FlattenMember(days, b);
      if b in s && b.date == days[k].date {
        var k' :| 0 <= k' < |days| && b in days[k'].bars;
        assert b.date == days[k'].date;
        assert !(k < k') && !(k' < k);
      }
    }
    forall i | 0 <= i < |s|
      ensures exists k :: 0 <= k < |days| && days[k].date == s[i].date
    {
      FlattenMember(days, s[i]);
      var k :| 0 <= k < |days| && s[i] in days[k].bars;
    }
  }

  /** Every bar of the series lies in a group carrying its date. */
  lemma GroupOf(s: seq<Bar>, i: int) returns (k: int)
    requires 0 <= i < |s|
    ensures 0 <= k < |GroupByDate(s)| && s[i] in GroupByDate(s)[k].bars && GroupByDate(s)[k].date == s[i].date
  {
    var days := GroupByDate(s);
    FlattenMember(days, s[i]);
    k :| 0 <= k < |days| && s[i] in days[k].bars;
  }

  /** Every group's date is the date of some bar of the series. */
  lemma BarOf(s: seq<Bar>, k: int) returns (i: int)
    requires 0 <= k < |GroupByDate(s)|
    ensures 0 <= i < |s| && s[i].date == GroupByDate(s)[k].date
  {
    var days := GroupByDate(s);
    var b := days[k].bars[0];
    FlattenMember(days, b);
    i :| 0 <= i < |s| && s[i] == b;
  }

  /** Grouping keeps runs of equal date, as `groupby` does on a time-ordered
      index: on a series that returns to an earlier date, dates 2, 2, 1, 1,
      2, 2 give three groups, and date 2 gets two of them. */
  lemma UnorderedSeriesSplitsDate()
    ensures var days := GroupByDate([Bar(2, 600, 1.0), Bar(2, 601, 1.0), Bar(1, 600, 1.0),
                                     Bar(1, 601, 1.0), Bar(2, 602, 1.0), Bar(2, 603, 1.0)]);
            |days| == 3 && days[0].date == 2 && days[1].date == 1 && days[2].date == 2
  {
  }
}
