/**
 * The investment record and the aggregator: per-record ROI and the
 * portfolio summary (app.js `safeNumber`, `computeROI`, `computeSummary`).
 * Numbers are mathematical reals; IEEE-754 rounding is not modelled.
 */
module Investments {
  import opened Wrappers
  import opened Lists

  /** A parsed date as its time value (milliseconds since the epoch); `None` is JavaScript's Invalid Date. */
  type Date = Option<int>

  /**
   * A record as the store returns it. An amount is the result of `Number(...)`
   * on the stored field: `None` when that is NaN or an infinity. An absent
   * name or category is the empty string; absent notes are `None`.
   */
  datatype Investment = Investment(
    id: int,
    name: string,
    category: string,
    amountInvested: Option<real>,
    currentValue: Option<real>,
    date: Date,
    notes: Option<string>)

  /** `safeNumber`: a finite number stays as it is, anything else becomes 0. Negatives are kept. */
  function SafeNumber(n: Option<real>): (r: real)
    ensures n.None? ==> r == 0.0
    ensures n.Some? ==> r == n.value
  {
    match n
    case Some(v) => v
    case None => 0.0
  }

  function Invested(inv: Investment): real
  {
    SafeNumber(inv.amountInvested)
  }

  function Current(inv: Investment): real
  {
    SafeNumber(inv.currentValue)
  }

  /**
   * `computeROI`: the gain as a percentage of the amount invested, or 0 when
   * nothing positive was invested.
   */
  function ComputeROI(inv: Investment): (r: real)
    ensures Invested(inv) <= 0.0 ==> r == 0.0
    ensures Invested(inv) > 0.0 ==> r * Invested(inv) == (Current(inv) - Invested(inv)) * 100.0
  {
    var invested := Invested(inv);
    var current := Current(inv);
    if invested <= 0.0 then 0.0 else ((current - invested) / invested) * 100.0
  }

  /** With a positive stake, the ROI is non-negative exactly when the record has not lost value. */
  lemma ROISign(inv: Investment)
    requires Invested(inv) > 0.0
    ensures ComputeROI(inv) >= 0.0 <==> Current(inv) >= Invested(inv)
    ensures ComputeROI(inv) == 0.0 <==> Current(inv) == Invested(inv)
  {
    var r, i, c := ComputeROI(inv), Invested(inv), Current(inv);
    assert r * i == (c - i) * 100.0;
    if r >= 0.0 { assert r * i >= 0.0; }
    if r < 0.0 { assert r * i < 0.0; }
  }

  /** A record whose current value is not negative can lose at most 100 percent. */
  lemma ROIAtLeastMinus100(inv: Investment)
    requires Current(inv) >= 0.0
    ensures ComputeROI(inv) >= -100.0
  {
    var r, i, c := ComputeROI(inv), Invested(inv), Current(inv);
    if i > 0.0 {
      assert r * i == (c - i) * 100.0;
      assert (r + 100.0) * i == c * 100.0;
    }
  }

  /** The object `computeSummary` returns. */
  datatype Summary = Summary(invested: real, current: real, net: real, roi: real)

  /**
   * `computeSummary`: the totals of the coerced amounts, the net gain, and the
   * portfolio ROI, 0 when the total invested is not positive.
   */
  function ComputeSummary(list: seq<Investment>): (s: Summary)
    ensures s.invested == SumOf(list, Invested) && s.current == SumOf(list, Current)
    ensures s.net == s.current - s.invested
    ensures s.invested <= 0.0 ==> s.roi == 0.0
    ensures s.invested > 0.0 ==> s.roi * s.invested == s.net * 100.0
  {
    var invested := SumOf(list, Invested);
    var current := SumOf(list, Current);
    var net := current - invested;
    var roi := if invested > 0.0 then (net / invested) * 100.0 else 0.0;
    Summary(invested, current, net, roi)
  }

  /** The empty list summarises to all zeros. */
  lemma SummaryOfEmpty()
    ensures ComputeSummary([]) == Summary(0.0, 0.0, 0.0, 0.0)
  {
  }

  /** The totals are additive over concatenation. */
  lemma SummaryAppend(a: seq<Investment>, b: seq<Investment>)
    ensures ComputeSummary(a + b).invested == ComputeSummary(a).invested + ComputeSummary(b).invested
    ensures ComputeSummary(a + b).current == ComputeSummary(a).current + ComputeSummary(b).current
    ensures ComputeSummary(a + b).net == ComputeSummary(a).net + ComputeSummary(b).net
  {
    SumOfAppend(a, b, Invested);
    SumOfAppend(a, b, Current);
  }

  /** The summary of a single record carries that record's ROI. */
  lemma SummaryOfOne(inv: Investment)
    ensures ComputeSummary([inv]).invested == Invested(inv)
    ensures ComputeSummary([inv]).current == Current(inv)
    ensures ComputeSummary([inv]).roi == ComputeROI(inv)
  {
    assert [inv] + [] == [inv];
    SumOfCons(inv, [], Invested);
    SumOfCons(inv, [], Current);
  }

  /** Two records, one up 50 and one down 50: totals 300/300, no net gain, ROI 0. */
  lemma SummaryExample(a: Investment, b: Investment)
    requires a.amountInvested == Some(100.0) && a.currentValue == Some(150.0)
    requires b.amountInvested == Some(200.0) && b.currentValue == Some(150.0)
    ensures ComputeSummary([a, b]) == Summary(300.0, 300.0, 0.0, 0.0)
  {
    SummaryOfOne(b);
    SumOfCons(a, [b], Invested);
    SumOfCons(a, [b], Current);
    assert [a] + [b] == [a, b];
  }
}
