/**
 * The four summary metrics and the two money totals the dashboard shows:
 * total P&L, current balance, best and worst day, total in and total out.
 */
module Metrics {
  import opened Wrappers
  import opened Dates
  import opened Table
  import Perm

  /** The four money columns of a loaded row. */
  datatype Field = MoneyIn | GainLoss | MoneyOut | OverallMoney

  function Amount(r: Record, f: Field): real {
    match f
    case MoneyIn => r.moneyIn
    case GainLoss => r.gainLoss
    case MoneyOut => r.moneyOut
    case OverallMoney => r.overallMoney
  }

  /** A metric asked of a table with no rows (`iloc[-1]`, `idxmax` and `idxmin` fault). */
  datatype MetricError = EmptyTable

  /** `df[f].sum()`: 0 for an empty table. */
  function Sum(rs: seq<Record>, f: Field): (r: real)
    ensures rs == [] ==> r == 0.0
    ensures |rs| == 1 ==> r == Amount(rs[0], f)
  {
    if rs == [] then 0.0 else Amount(rs[0], f) + Sum(rs[1..], f)
  }

  lemma {:induction false} SumAppend(a: seq<Record>, b: seq<Record>, f: Field)
    ensures Sum(a + b, f) == Sum(a, f) + Sum(b, f)
  {
    if a == [] {
      assert a + b == b;
    } else {
      assert (a + b)[0] == a[0] && (a + b)[1..] == a[1..] + b;
      SumAppend(a[1..], b, f);
    }
  }

  /** Taking one row out of a table takes its value out of the total. */
  lemma SumRemove(b: seq<Record>, j: nat, f: Field)
    requires j < |b|
    ensures Sum(b, f) == Amount(b[j], f) + Sum(b[..j] + b[j + 1..], f)
  {
    assert b == b[..j] + ([b[j]] + b[j + 1..]);
    SumAppend(b[..j], [b[j]] + b[j + 1..], f);
    assert ([b[j]] + b[j + 1..])[1..] == b[j + 1..];
    SumAppend(b[..j], b[j + 1..], f);
  }

  /** A column total does not depend on the order of the rows. */
  lemma {:induction false} SumPermutation(a: seq<Record>, b: seq<Record>, f: Field)
    requires multiset(a) == multiset(b)
    ensures Sum(a, f) == Sum(b, f)
  {
    if a == [] {
      assert |b| == |multiset(b)| == 0;
    } else {
      assert a[0] in multiset(b);
      var j :| 0 <= j < |b| && b[j] == a[0];
      Perm.RemoveMatching(a, b, j);
      SumPermutation(a[1..], b[..j] + b[j + 1..], f);
      SumRemove(b, j, f);
    }
  }

  /** `n` times `x`, as a sum of `n` copies of `x`. */
  function Times(n: nat, x: real): real {
    if n == 0 then 0.0 else x + Times(n - 1, x)
  }

  /** A total lies between the row count times the smallest and times the largest value. */
  lemma {:induction false} SumBounds(rs: seq<Record>, f: Field, lo: real, hi: real)
    requires forall i :: 0 <= i < |rs| ==> lo <= Amount(rs[i], f) <= hi
    ensures Times(|rs|, lo) <= Sum(rs, f) <= Times(|rs|, hi)
  {
    if rs != [] {
      assert forall i :: 0 <= i < |rs[1..]| ==> rs[1..][i] == rs[i + 1];
      SumBounds(rs[1..], f, lo, hi);
    }
  }

  /**
   * `df[f].idxmax()`: the first row holding the largest value. After
   * `reset_index(drop=True)` the label it returns is the row's position.
   */
  function FirstMaxIndex(rs: seq<Record>, f: Field): (k: nat)
    requires rs != []
    ensures k < |rs|
    ensures forall j :: 0 <= j < |rs| ==> Amount(rs[j], f) <= Amount(rs[k], f)
    ensures forall j :: 0 <= j < k ==> Amount(rs[j], f) < Amount(rs[k], f)
  {
    if |rs| == 1 then 0
    else
      var k := FirstMaxIndex(rs[..|rs| - 1], f);
      if Amount(rs[|rs| - 1], f) > Amount(rs[k], f) then |rs| - 1 else k
  }

  /** `df[f].idxmin()`: the first row holding the smallest value. */
  function FirstMinIndex(rs: seq<Record>, f: Field): (k: nat)
    requires rs != []
    ensures k < |rs|
    ensures forall j :: 0 <= j < |rs| ==> Amount(rs[k], f) <= Amount(rs[j], f)
    ensures forall j :: 0 <= j < k ==> Amount(rs[k], f) < Amount(rs[j], f)
  {
    if |rs| == 1 then 0
    else
      var k := FirstMinIndex(rs[..|rs| - 1], f);
      if Amount(rs[|rs| - 1], f) < Amount(rs[k], f) then |rs| - 1 else k
  }

  /** Only one row is the first to hold the largest value. */
  lemma FirstMaxIsUnique(rs: seq<Record>, f: Field, k: nat)
    requires k < |rs|
    requires forall j :: 0 <= j < |rs| ==> Amount(rs[j], f) <= Amount(rs[k], f)
    requires forall j :: 0 <= j < k ==> Amount(rs[j], f) < Amount(rs[k], f)
    ensures FirstMaxIndex(rs, f) == k
  {
    var m := FirstMaxIndex(rs, f);
    assert !(m < k) && !(k < m);
  }

  /** Only one row is the first to hold the smallest value. */
  lemma FirstMinIsUnique(rs: seq<Record>, f: Field, k: nat)
    requires k < |rs|
    requires forall j :: 0 <= j < |rs| ==> Amount(rs[k], f) <= Amount(rs[j], f)
    requires forall j :: 0 <= j < k ==> Amount(rs[k], f) < Amount(rs[j], f)
    ensures FirstMinIndex(rs, f) == k
  {
    var m := FirstMinIndex(rs, f);
    assert !(m < k) && !(k < m);
  }

  /** `df["overall money"].iloc[-1]`: the balance on the last row. */
  function CurrentBalance(rs: seq<Record>): (r: Result<real, MetricError>)
    ensures r.Err? <==> rs == []
    ensures r.Ok? ==> r.value == rs[|rs| - 1].overallMoney
    ensures r.Ok? && RecordsSorted(rs) ==> forall i :: 0 <= i < |rs| ==> StampLe(rs[i].date, rs[|rs| - 1].date)
  {
    if rs == [] then Err(EmptyTable) else Ok(rs[|rs| - 1].overallMoney)
  }

  /** The metrics block of the dashboard. */
  datatype Summary = Summary(
    totalPnl: real,
    currentBalance: real,
    bestDay: Record,
    worstDay: Record,
    totalIn: real,
    totalOut: real)

  /**
   * Lines 80 to 83, 96 and 100 of the dashboard: fails on a table with no
   * rows; otherwise the totals are column sums, the balance is the last
   * row's, and the best and worst days are the first rows with the largest
   * and the smallest gain/loss.
   */
  function Summarize(rs: seq<Record>): (r: Result<Summary, MetricError>)
    ensures r.Err? <==> rs == []
    ensures r.Ok? ==> var s := r.value;
      && s.totalPnl == Sum(rs, GainLoss)
      && s.totalIn == Sum(rs, MoneyIn)
      && s.totalOut == Sum(rs, MoneyOut)
      && s.currentBalance == rs[|rs| - 1].overallMoney
      && (exists k :: 0 <= k < |rs| && rs[k] == s.bestDay
            && (forall j :: 0 <= j < k ==> rs[j].gainLoss < s.bestDay.gainLoss))
      && (forall j :: 0 <= j < |rs| ==> rs[j].gainLoss <= s.bestDay.gainLoss)
      && (exists k :: 0 <= k < |rs| && rs[k] == s.worstDay
            && (forall j :: 0 <= j < k ==> s.worstDay.gainLoss < rs[j].gainLoss))
      && (forall j :: 0 <= j < |rs| ==> s.worstDay.gainLoss <= rs[j].gainLoss)
  {
    match CurrentBalance(rs)
    case Err(e) => Err(e)
    case Ok(current) =>
      var best := FirstMaxIndex(rs, GainLoss);
      var worst := FirstMinIndex(rs, GainLoss);
      Ok(Summary(Sum(rs, GainLoss), current, rs[best], rs[worst], Sum(rs, MoneyIn), Sum(rs, MoneyOut)))
  }

  /**
   * How rows with the same date are ordered is not promised, yet it changes
   * nothing about the three totals or the best and worst gain/loss values.
   */
  lemma SummaryIgnoresRowOrder(a: seq<Record>, b: seq<Record>)
    requires multiset(a) == multiset(b) && a != []
    ensures b != [] && Summarize(a).Ok? && Summarize(b).Ok?
    ensures Summarize(a).value.totalPnl == Summarize(b).value.totalPnl
    ensures Summarize(a).value.totalIn == Summarize(b).value.totalIn
    ensures Summarize(a).value.totalOut == Summarize(b).value.totalOut
    ensures Summarize(a).value.bestDay.gainLoss == Summarize(b).value.bestDay.gainLoss
    ensures Summarize(a).value.worstDay.gainLoss == Summarize(b).value.worstDay.gainLoss
  {
    assert a[0] in multiset(b);
    SumPermutation(a, b, GainLoss);
    SumPermutation(a, b, MoneyIn);
    SumPermutation(a, b, MoneyOut);
    var sa, sb := Summarize(a).value, Summarize(b).value;
    assert sa.bestDay in multiset(b) && sb.bestDay in multiset(a);
    assert sa.worstDay in multiset(b) && sb.worstDay in multiset(a);
  }

  /** The total P&L lies between the row count times the worst and times the best day's gain/loss. */
  lemma PnlBetweenWorstAndBest(rs: seq<Record>)
    requires rs != []
    ensures var s := Summarize(rs).value;
      Times(|rs|, s.worstDay.gainLoss) <= s.totalPnl <= Times(|rs|, s.bestDay.gainLoss)
  {
    var s := Summarize(rs).value;
    SumBounds(rs, GainLoss, s.worstDay.gainLoss, s.bestDay.gainLoss);
  }

  /**
   * Two rows on 5 and 6 November: total P&L 300, balance 1300, best day the
   * 6th, worst day the 5th.
   */
  lemma SummaryExample()
    ensures var rs := [Record(Date(DefaultYear, 11, 5), 0.0, -200.0, 0.0, 800.0),
                       Record(Date(DefaultYear, 11, 6), 0.0, 500.0, 0.0, 1300.0)];
      && Summarize(rs).Ok?
      && Summarize(rs).value.totalPnl == 300.0
      && Summarize(rs).value.currentBalance == 1300.0
      && Summarize(rs).value.bestDay.date == Date(DefaultYear, 11, 6)
      && Summarize(rs).value.worstDay.date == Date(DefaultYear, 11, 5)
  {
    var rs := [Record(Date(DefaultYear, 11, 5), 0.0, -200.0, 0.0, 800.0),
               Record(Date(DefaultYear, 11, 6), 0.0, 500.0, 0.0, 1300.0)];
    assert rs[1..] == [rs[1]] && rs[1..][1..] == [];
    assert Sum(rs[1..], GainLoss) == 500.0 + Sum([], GainLoss);
    assert Sum(rs, GainLoss) == -200.0 + Sum(rs[1..], GainLoss);
  }

  /**
   * When the last date is shared, the unpromised tie order decides which
   * balance is current: two sorted orders of the same rows disagree.
   */
  lemma CurrentBalanceOnTiedLastDay()
    ensures var x := Record(Date(DefaultYear, 11, 6), 0.0, 0.0, 0.0, 800.0);
            var y := Record(Date(DefaultYear, 11, 6), 0.0, 0.0, 0.0, 1300.0);
      && RecordsSorted([x, y]) && RecordsSorted([y, x])
      && multiset([x, y]) == multiset([y, x])
      && CurrentBalance([x, y]) != CurrentBalance([y, x])
  {
  }
}
