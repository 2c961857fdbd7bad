/** Value types shared by every stage of the infection aggregation: the rows of
    the daily case table and the rows of the per-prefecture summary frame. */
module Tables {

  datatype Option<T> = None | Some(value: T)

  /** A calendar date as a day ordinal; the dashboard compares `datetime.date`
      values, which are totally ordered one day apart exactly like integers. */
  type Date = int

  /** One row of the daily case table: Date, Prefecture_name, Prefecture_code,
      Infections. */
  datatype CaseRecord = CaseRecord(date: Date, name: string, code: int, infections: nat)

  /** The group-by key, the column pair (Prefecture_name, Prefecture_code). */
  datatype Key = Key(name: string, code: int)

  function KeyOf(r: CaseRecord): (k: Key)
  {
    Key(r.name, r.code)
  }

  /** The distinct group keys that occur in a case table. */
  function RecordKeys(rs: seq<CaseRecord>): (keys: set<Key>)
  {
    set r | r in rs :: KeyOf(r)
  }

  /** Sum of the Infections column of a case table. */
  function RecordTotal(rs: seq<CaseRecord>): (total: nat)
  {
    if rs == [] then 0 else RecordTotal(rs[..|rs| - 1]) + rs[|rs| - 1].infections
  }

  /** A Prefecture_name cell of the summary frame: the prefecture's name, or the
      integer 0 that the masked row overwrite writes over it. */
  datatype NameCell = Named(text: string) | NameZero

  /** An Infections_logarithm cell.  `np.log` of a count is minus infinity for 0
      and the natural logarithm `Ln(n)` of a positive n; `LogZero` is the 0 the
      masked row overwrite writes over a minus-infinity cell.  Only the role of
      the value as a zero sentinel is modelled, not its floating-point value. */
  datatype LogValue = NegInfinity | Ln(argument: nat) | LogZero

  /** An Infections_Percentage cell: an exact rational, or the NaN of 0 / 0. */
  datatype Percentage = Percent(value: real) | NaN

  /** One row of the summary frame `df_group`.  A column that has not been
      assigned yet holds None. */
  datatype Row = Row(
    name: NameCell,
    code: int,
    infections: nat,
    logarithm: Option<LogValue>,
    percentage: Option<Percentage>)

  /** `df_group["Infections"].sum()`. */
  function FrameTotal(rows: seq<Row>): (total: nat)
  {
    if rows == [] then 0 else rows[0].infections + FrameTotal(rows[1..])
  }

  /** Two frames whose Infections columns agree have the same total. */
  lemma {:induction false} SameInfectionsSameTotal(a: seq<Row>, b: seq<Row>)
    requires |a| == |b|
    requires forall i :: 0 <= i < |a| ==> a[i].infections == b[i].infections
    ensures FrameTotal(a) == FrameTotal(b)
  {
    if a != [] {
      SameInfectionsSameTotal(a[1..], b[1..]);
    }
  }

  /** No single row exceeds the column total. */
  lemma {:induction false} RowBelowTotal(rows: seq<Row>, i: nat)
    requires i < |rows|
    ensures rows[i].infections <= FrameTotal(rows)
  {
    if i > 0 {
      RowBelowTotal(rows[1..], i - 1);
    }
  }
}
