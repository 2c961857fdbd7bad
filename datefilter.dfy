/** The inclusive date-range filter applied to the case table before grouping. */
module DateFilter {
  import opened Tables

  predicate InRange(r: CaseRecord, startDate: Date, endDate: Date)
  {
    startDate <= r.date && r.date <= endDate
  }

  /** `df[(df["Date"] >= start_date) & (df["Date"] <= end_date)]`: the records whose
      date lies in the range, both ends included. */
  function FilterDates(rs: seq<CaseRecord>, startDate: Date, endDate: Date): (out: seq<CaseRecord>)
    ensures forall x :: x in out <==> x in rs && InRange(x, startDate, endDate)
    ensures |out| <= |rs|
  {
    if rs == [] then []
    else
      assert rs == [rs[0]] + rs[1..];
      (if InRange(rs[0], startDate, endDate) then [rs[0]] else []) + FilterDates(rs[1..], startDate, endDate)
  }

  /** The filter keeps relative order: filtering a concatenation is the
      concatenation of the filtered parts. */
  lemma {:induction false} FilterDatesAppend(a: seq<CaseRecord>, b: seq<CaseRecord>, startDate: Date, endDate: Date)
    ensures FilterDates(a + b, startDate, endDate) == FilterDates(a, startDate, endDate) + FilterDates(b, startDate, endDate)
  {
    if a == [] {
      assert a + b == b;
    } else {
      assert (a + b)[0] == a[0] && (a + b)[1..] == a[1..] + b;
      FilterDatesAppend(a[1..], b, startDate, endDate);
    }
  }

  /** Every record in range is kept as often as it occurs, every other record
      not at all. */
  lemma {:induction false} FilterDatesCount(rs: seq<CaseRecord>, startDate: Date, endDate: Date, x: CaseRecord)
    ensures multiset(FilterDates(rs, startDate, endDate))[x]
         == if InRange(x, startDate, endDate) then multiset(rs)[x] else 0
  {
    if rs != [] {
      assert rs == [rs[0]] + rs[1..];
      FilterDatesCount(rs[1..], startDate, endDate, x);
    }
  }

  /** Lines 68-71: the filter runs only when both session-state dates are set
      (a `datetime.date` is always truthy; None stands for an unset date). */
  function SelectDates(rs: seq<CaseRecord>, startDate: Option<Date>, endDate: Option<Date>): (out: seq<CaseRecord>)
    ensures startDate.Some? && endDate.Some? ==>
              forall x :: x in out <==> x in rs && InRange(x, startDate.value, endDate.value)
    ensures startDate.None? || endDate.None? ==> out == rs
  {
    if startDate.Some? && endDate.Some? then FilterDates(rs, startDate.value, endDate.value) else rs
  }
}
