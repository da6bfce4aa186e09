/**
 The reporting series derived from the daily P&L column (`create_charts` in
 main.py): the cumulative P&L (`cumsum`) and the drawdown, the cumulative
 P&L minus its running maximum (`cummax`).
 */
module Drawdown {

  /** Sum of a column. */
  function Sum(xs: seq<real>): real {
    if |xs| == 0 then 0.0 else xs[0] + Sum(xs[1..])
  }

  /** Running sum started from `acc`: entry i is `acc` plus the first i + 1 values. */
  function CumSumFrom(xs: seq<real>, acc: real): (c: seq<real>)
    ensures |c| == |xs|
    ensures forall i :: 0 <= i < |xs| ==> c[i] == acc + Sum(xs[..i + 1])
  {
    if |xs| == 0 then []
    else
      var rest := CumSumFrom(xs[1..], acc + xs[0]);
      var c := [acc + xs[0]] + rest;
      forall i | 0 <= i < |xs| ensures c[i] == acc + Sum(xs[..i + 1]) {
        assert xs[..i + 1][1..] == xs[1..][..i];
        if i > 0 {
          assert c[i] == rest[i - 1];
        }
      }
      c
  }

  /** Cumulative P&L: entry i is the sum of the first i + 1 daily totals. */
  function CumSum(xs: seq<real>): (c: seq<real>)
    ensures |c| == |xs|
    ensures forall i :: 0 <= i < |xs| ==> c[i] == Sum(xs[..i + 1])
  {
    CumSumFrom(xs, 0.0)
  }

  /** The larger of two values. */
  function Max(a: real, b: real): real {
    if a < b then b else a
  }

  /** Running maximum continuing from a peak `best` already reached. */
  function CumMaxFrom(cs: seq<real>, best: real): (m: seq<real>)
    ensures |m| == |cs|
    ensures forall i :: 0 <= i < |cs| ==> best <= m[i]
    ensures forall i, j :: 0 <= j <= i < |cs| ==> cs[j] <= m[i]
    ensures forall i :: 0 <= i < |cs| ==> m[i] == best || exists j :: 0 <= j <= i && m[i] == cs[j]
  {
    if |cs| == 0 then []
    else
      var top := Max(best, cs[0]);
      var rest := CumMaxFrom(cs[1..], top);
      var m := [top] + rest;
      forall i | 0 < i < |cs| ensures m[i] == best || exists j :: 0 <= j <= i && m[i] == cs[j] {
        assert m[i] == rest[i - 1];
        if m[i] != top {
          var j :| 0 <= j <= i - 1 && rest[i - 1] == cs[1..][j];
          assert m[i] == cs[j + 1];
        }
      }
      forall i, j | 0 <= j <= i < |cs| ensures cs[j] <= m[i] {
        if j > 0 {
          assert cs[j] == cs[1..][j - 1];
          assert m[i] == rest[i - 1];
        }
      }
      m
  }

  /** Running maximum (`cummax`): entry i is the largest of the first i + 1
      values — at least each of them and equal to one of them. */
  function CumMax(cs: seq<real>): (m: seq<real>)
    ensures |m| == |cs|
    ensures forall i, j :: 0 <= j <= i < |cs| ==> cs[j] <= m[i]
    ensures forall i :: 0 <= i < |cs| ==> exists j :: 0 <= j <= i && m[i] == cs[j]
  {
    if |cs| == 0 then []
    else
      var m := CumMaxFrom(cs, cs[0]);
      forall i | 0 <= i < |cs| ensures exists j :: 0 <= j <= i && m[i] == cs[j] {
        if m[i] == cs[0] {
          assert 0 <= 0 <= i && m[i] == cs[0];
        }
      }
      m
  }

  /** Drawdown: cumulative P&L minus its running maximum, day by day. */
  function Drawdowns(pnl: seq<real>): (dd: seq<real>)
    ensures |dd| == |pnl|
    ensures forall i :: 0 <= i < |pnl| ==> dd[i] <= 0.0
  {
    var cum := CumSum(pnl);
    var peak := CumMax(cum);
    seq(|pnl|, i requires 0 <= i < |pnl| => cum[i] - peak[i])
  }

  /** The drawdown never exceeds zero, and is zero exactly on the days the
      cumulative P&L stands at its highest level so far. */
  lemma DrawdownNonPositive(pnl: seq<real>)
    ensures var cum := CumSum(pnl);
            var dd := Drawdowns(pnl);
            && (forall i :: 0 <= i < |pnl| ==> dd[i] <= 0.0)
            && (forall i :: 0 <= i < |pnl| ==> (dd[i] == 0.0 <==> forall j :: 0 <= j <= i ==> cum[j] <= cum[i]))
  {
  }

  /** The drawdown is the distance below the best cumulative level reached so
      far: it equals cum[i] minus some earlier-or-equal cum[j], and every
      earlier cumulative level is at most cum[i] minus the drawdown. */
  lemma DrawdownIsDistanceToPeak(pnl: seq<real>, i: int)
    requires 0 <= i < |pnl|
    ensures var cum := CumSum(pnl);
            var dd := Drawdowns(pnl);
            && (exists j :: 0 <= j <= i && dd[i] == cum[i] - cum[j])
            && (forall j :: 0 <= j <= i ==> cum[j] <= cum[i] - dd[i])
  {
    var cum := CumSum(pnl);
    var peak := CumMax(cum);
    assert Drawdowns(pnl)[i] == cum[i] - peak[i];
    var top :| 0 <= top <= i && peak[i] == cum[top];
  }

  /** The last cumulative value is the grand total. */
  lemma CumSumEndsAtTotal(pnl: seq<real>)
    requires |pnl| > 0
    ensures CumSum(pnl)[|pnl| - 1] == Sum(pnl)
  {
  }
}
