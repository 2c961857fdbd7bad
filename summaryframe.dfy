/** The summary frame `df_group` and the steps that change it in place: the
    descending sort, the Infections_logarithm column, the masked overwrite of
    minus-infinity rows with 0, and the Infections_Percentage column. */
module SummaryFrame {
  import opened Tables
  import opened Grouping
  import opened Sorting

  /** The aggregated table as a frame: Prefecture_name, Prefecture_code, Infections. */
  function FromGroups(gs: seq<Group>): (rows: seq<Row>)
  {
    seq(|gs|, i requires 0 <= i < |gs| => Row(Named(gs[i].key.name), gs[i].key.code, gs[i].infections, None, None))
  }

  lemma {:induction false} FromGroupsTotal(gs: seq<Group>)
    ensures FrameTotal(FromGroups(gs)) == GroupTotal(gs)
  {
    if gs != [] {
      assert FromGroups(gs)[1..] == FromGroups(gs[1..]);
      FromGroupsTotal(gs[1..]);
    }
  }

  /** `np.log` on a count: minus infinity for 0. */
  function Log(n: nat): (v: LogValue)
  {
    if n == 0 then NegInfinity else Ln(n)
  }

  /** `df_group["Infections_logarithm"] = np.log(df_group["Infections"])`. */
  function WithLogarithm(rows: seq<Row>): (out: seq<Row>)
  {
    seq(|rows|, i requires 0 <= i < |rows| => rows[i].(logarithm := Some(Log(rows[i].infections))))
  }

  /** The mask `df_group["Infections_logarithm"] == -np.inf`. */
  predicate IsMinusInfinity(r: Row)
  {
    r.logarithm == Some(NegInfinity)
  }

  /** A row after `= 0`: every column that exists is set to 0, the name and the
      code included. */
  function ZeroRow(r: Row): (z: Row)
  {
    Row(NameZero, 0, 0,
        if r.logarithm.Some? then Some(LogZero) else None,
        if r.percentage.Some? then Some(Percent(0.0)) else None)
  }

  /** `df_group[mask] = 0`. */
  function OverwriteMasked(rows: seq<Row>): (out: seq<Row>)
  {
    seq(|rows|, i requires 0 <= i < |rows| => if IsMinusInfinity(rows[i]) then ZeroRow(rows[i]) else rows[i])
  }

  /** `100 * n / total` on exact rationals; 0 / 0 is NaN.  A positive n over a
      zero total cannot arise, since the total is the sum of the column. */
  function PercentOf(n: nat, total: nat): (p: Percentage)
  {
    if total == 0 then NaN else Percent(100.0 * n as real / total as real)
  }

  /** `df_group["Infections_Percentage"] = 100 * df_group["Infections"] / df_group["Infections"].sum()`. */
  function WithPercentage(rows: seq<Row>): (out: seq<Row>)
  {
    var total := FrameTotal(rows);
    seq(|rows|, i requires 0 <= i < |rows| => rows[i].(percentage := Some(PercentOf(rows[i].infections, total))))
  }

  /** A percentage cell as a number, 0 where the column is absent or NaN. */
  function PercentValue(r: Row): (v: real)
  {
    if r.percentage.Some? && r.percentage.value.Percent? then r.percentage.value.value else 0.0
  }

  /** The sum of the Infections_Percentage column. */
  function PercentSum(rows: seq<Row>): (sum: real)
  {
    if rows == [] then 0.0 else PercentValue(rows[0]) + PercentSum(rows[1..])
  }

  /** The sentinel works: after the logarithm is assigned, a row is masked
      exactly when its count is 0, and nothing else changes. */
  lemma LogarithmSentinel(rows: seq<Row>)
    ensures |WithLogarithm(rows)| == |rows|
    ensures forall i :: 0 <= i < |rows| ==>
              (IsMinusInfinity(WithLogarithm(rows)[i]) <==> rows[i].infections == 0)
    ensures forall i :: 0 <= i < |rows| && rows[i].infections > 0 ==>
              WithLogarithm(rows)[i].logarithm == Some(Ln(rows[i].infections))
    ensures forall i :: 0 <= i < |rows| ==>
              WithLogarithm(rows)[i].(logarithm := rows[i].logarithm) == rows[i]
  {
  }

  /** Over a frame whose mask marks exactly the zero-count rows, the overwrite
      zeroes every column of those rows, leaves the other rows as they were,
      keeps the Infections column (and so its total and its order) and leaves
      no minus infinity behind. */
  lemma {:induction false} OverwriteZeroRows(rows: seq<Row>)
    requires forall i :: 0 <= i < |rows| ==> (IsMinusInfinity(rows[i]) <==> rows[i].infections == 0)
    ensures |OverwriteMasked(rows)| == |rows|
    ensures forall i :: 0 <= i < |rows| && rows[i].infections == 0 ==>
              var z := OverwriteMasked(rows)[i];
              z.name == NameZero && z.code == 0 && z.infections == 0 && z.logarithm == Some(LogZero)
    ensures forall i :: 0 <= i < |rows| && rows[i].infections > 0 ==> OverwriteMasked(rows)[i] == rows[i]
    ensures forall i :: 0 <= i < |rows| ==> OverwriteMasked(rows)[i].infections == rows[i].infections
    ensures forall i :: 0 <= i < |rows| ==> !IsMinusInfinity(OverwriteMasked(rows)[i])
    ensures FrameTotal(OverwriteMasked(rows)) == FrameTotal(rows)
    ensures NonIncreasing(rows) ==> NonIncreasing(OverwriteMasked(rows))
  {
    SameInfectionsSameTotal(OverwriteMasked(rows), rows);
  }

  /** Percentages relative to a positive total add up to that share of 100. */
  lemma {:induction false} PercentSumScales(rows: seq<Row>, total: nat)
    requires total > 0
    requires forall i :: 0 <= i < |rows| ==> rows[i].percentage == Some(PercentOf(rows[i].infections, total))
    ensures PercentSum(rows) == 100.0 * FrameTotal(rows) as real / total as real
  {
    if rows != [] {
      PercentSumScales(rows[1..], total);
      var a, b, t := rows[0].infections as real, FrameTotal(rows[1..]) as real, total as real;
      assert 100.0 * a / t + 100.0 * b / t == 100.0 * (a + b) / t;
    }
  }

  lemma ShareBounds(n: nat, total: nat)
    requires 0 < total && n <= total
    ensures 0.0 <= 100.0 * n as real / total as real <= 100.0
  {
    var x, t := n as real, total as real;
    var q := 100.0 * x / t;
    assert q * t == 100.0 * x;
    var d := 100.0 - q;
    assert d * t == 100.0 * (t - x);
    assert d * t >= 0.0 && q * t >= 0.0;
  }

  lemma WholeShare(t: real)
    requires t > 0.0
    ensures 100.0 * t / t == 100.0
  {
    assert t / t == 1.0;
    assert 100.0 * t / t == 100.0 * (t / t);
  }

  /** Assigning the percentage column changes no other column. */
  lemma PercentageKeepsColumns(rows: seq<Row>)
    ensures |WithPercentage(rows)| == |rows|
    ensures forall i :: 0 <= i < |rows| ==>
              WithPercentage(rows)[i].(percentage := rows[i].percentage) == rows[i]
    ensures FrameTotal(WithPercentage(rows)) == FrameTotal(rows)
  {
    SameInfectionsSameTotal(WithPercentage(rows), rows);
  }

  /** With a positive total the percentage column sums to exactly 100. */
  lemma PercentagesSumTo100(rows: seq<Row>)
    requires FrameTotal(rows) > 0
    ensures PercentSum(WithPercentage(rows)) == 100.0
  {
    var out, total := WithPercentage(rows), FrameTotal(rows);
    PercentageKeepsColumns(rows);
    PercentSumScales(out, total);
    WholeShare(total as real);
  }

  /** Each percentage cell is 100 times the row's share of the total, within
      [0, 100]; when every count is 0 every cell is the NaN of 0 / 0. */
  lemma PercentageCells(rows: seq<Row>, i: nat)
    requires i < |rows|
    ensures FrameTotal(rows) > 0 ==>
              var p := WithPercentage(rows)[i].percentage;
              && p == Some(Percent(100.0 * rows[i].infections as real / FrameTotal(rows) as real))
              && 0.0 <= p.value.value <= 100.0
    ensures FrameTotal(rows) == 0 ==> WithPercentage(rows)[i].percentage == Some(NaN)
  {
    if FrameTotal(rows) > 0 {
      RowBelowTotal(rows, i);
      ShareBounds(rows[i].infections, FrameTotal(rows));
    }
  }

  /** The frame `df_group`, changed in place by the steps of lines 80-83. */
  class GroupFrame {
    var rows: seq<Row>

    /** The frame that `groupby(...).agg(...)` returns. */
    constructor (gs: seq<Group>)
      ensures rows == FromGroups(gs)
    {
      rows := FromGroups(gs);
    }

    /** `sort_values("Infections", inplace=True, ascending=False)`. */
    method SortValuesDescending()
      modifies this
      ensures rows == SortDescending(old(rows))
      ensures multiset(rows) == multiset(old(rows))
      ensures NonIncreasing(rows)
    {
      SortDescendingSpec(rows);
      rows := SortDescending(rows);
    }

    /** Assigns the Infections_logarithm column. */
    method AssignLogarithm()
      modifies this
      ensures rows == WithLogarithm(old(rows))
      ensures forall i :: 0 <= i < |rows| ==> (IsMinusInfinity(rows[i]) <==> rows[i].infections == 0)
    {
      rows := WithLogarithm(rows);
    }

    /** `df_group[df_group["Infections_logarithm"] == -np.inf] = 0`. */
    method OverwriteMinusInfinityRows()
      modifies this
      ensures rows == OverwriteMasked(old(rows))
      ensures forall i :: 0 <= i < |rows| ==> !IsMinusInfinity(rows[i])
    {
      rows := OverwriteMasked(rows);
    }

    /** Assigns the Infections_Percentage column. */
    method AssignPercentage()
      modifies this
      ensures rows == WithPercentage(old(rows))
      ensures FrameTotal(old(rows)) > 0 ==> PercentSum(rows) == 100.0
    {
      if FrameTotal(rows) > 0 {
        PercentagesSumTo100(rows);
      }
      rows := WithPercentage(rows);
    }
  }
}
