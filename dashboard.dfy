/** The map column of the dashboard (lines 67-101): the date filter, the
    no-data check, the aggregation into `df_group` and the join with the
    boundary features.  Drawing the choropleth and the tooltips is not modelled. */
module Dashboard {
  import opened Tables
  import opened DateFilter
  import opened Grouping
  import opened Sorting
  import opened SummaryFrame
  import opened GeoJoin

  /** What the map column shows: the "no data" message, or the summary frame
      together with the merged table handed to the map layer. */
  datatype Outcome = NoData | Rendered(summary: seq<Row>, joined: seq<JoinedRow>)

  /** `df_group` after line 83, built from the filtered case table. */
  function SummaryTable(df: seq<CaseRecord>): (summary: seq<Row>)
  {
    WithPercentage(OverwriteMasked(WithLogarithm(SortDescending(FromGroups(GroupSum(df))))))
  }

  /** The whole map column as a function of its inputs. */
  function MapColumnOutcome(records: seq<CaseRecord>, startDate: Option<Date>, endDate: Option<Date>,
                            features: seq<Feature>): (outcome: Outcome)
  {
    var df := SelectDates(records, startDate, endDate);
    if |df| <= 0 then NoData
    else
      var summary := SummaryTable(df);
      Rendered(summary, InnerJoin(features, summary))
  }

  /** The map column, step by step over the frame `df_group`. */
  method MapColumn(records: seq<CaseRecord>, startDate: Option<Date>, endDate: Option<Date>,
                   features: seq<Feature>) returns (outcome: Outcome)
    ensures outcome == MapColumnOutcome(records, startDate, endDate, features)
  {
    var df := SelectDates(records, startDate, endDate);
    if |df| <= 0 {
      return NoData;
    }
    var frame := new GroupFrame(GroupSum(df));
    frame.SortValuesDescending();
    frame.AssignLogarithm();
    frame.OverwriteMinusInfinityRows();
    frame.AssignPercentage();
    var joined := InnerJoin(features, frame.rows);
    outcome := Rendered(frame.rows, joined);
  }

  /** The no-data branch is taken exactly when no record survives the filter:
      with both dates set, when no record lies in the inclusive range; with a
      date unset, when the case table is empty. */
  lemma NoDataExactlyWhenEmpty(records: seq<CaseRecord>, startDate: Option<Date>, endDate: Option<Date>,
                               features: seq<Feature>)
    ensures startDate.Some? && endDate.Some? ==>
              (MapColumnOutcome(records, startDate, endDate, features).NoData? <==>
               forall x :: x in records ==> !InRange(x, startDate.value, endDate.value))
    ensures startDate.None? || endDate.None? ==>
              (MapColumnOutcome(records, startDate, endDate, features).NoData? <==> records == [])
  {
    var df := SelectDates(records, startDate, endDate);
    if |df| > 0 {
      assert df[0] in df;
    }
  }

  /** The rows of the sorted frame are the aggregated groups, permuted. */
  lemma SortedRowsAreGroups(df: seq<CaseRecord>, i: nat)
    requires i < |SortDescending(FromGroups(GroupSum(df)))|
    ensures var r := SortDescending(FromGroups(GroupSum(df)))[i];
            && r.name.Named? && r.logarithm.None? && r.percentage.None?
            && Key(r.name.text, r.code) in RecordKeys(df)
            && r.infections == SumFor(df, Key(r.name.text, r.code))
  {
    var gs := GroupSum(df);
    var base, sorted := FromGroups(gs), SortDescending(FromGroups(gs));
    SortDescendingSpec(base);
    GroupSumRows(df);
    assert sorted[i] in multiset(base);
    var j :| 0 <= j < |base| && base[j] == sorted[i];
    assert Key(sorted[i].name.text, sorted[i].code) == gs[j].key;
  }

  /** Every key of the filtered table has a sorted row, in some position. */
  lemma GroupsAreSortedRows(df: seq<CaseRecord>, k: Key) returns (i: nat)
    requires k in RecordKeys(df)
    ensures i < |SortDescending(FromGroups(GroupSum(df)))|
    ensures var r := SortDescending(FromGroups(GroupSum(df)))[i];
            r.name == Named(k.name) && r.code == k.code && r.infections == SumFor(df, k)
  {
    var gs := GroupSum(df);
    var base, sorted := FromGroups(gs), SortDescending(FromGroups(gs));
    SortDescendingSpec(base);
    GroupSumRows(df);
    var j :| 0 <= j < |gs| && gs[j].key == k;
    assert base[j] in multiset(sorted);
    i :| 0 <= i < |sorted| && sorted[i] == base[j];
  }

  /** Size, order and total of the summary frame: one row per distinct
      (Prefecture_name, Prefecture_code) key of the filtered table, Infections
      non-increasing, and the column total equal to the filtered table's, the
      overwrite of zero rows included. */
  lemma SummaryShape(df: seq<CaseRecord>)
    ensures |SummaryTable(df)| == |RecordKeys(df)|
    ensures NonIncreasing(SummaryTable(df))
    ensures FrameTotal(SummaryTable(df)) == RecordTotal(df)
  {
    var gs := GroupSum(df);
    var base := FromGroups(gs);
    var sorted := SortDescending(base);
    var logged := WithLogarithm(sorted);
    var masked := OverwriteMasked(logged);
    GroupSumRows(df);
    SortDescendingSpec(base);
    assert |sorted| == |multiset(sorted)| == |base|;
    FromGroupsTotal(gs);
    LogarithmSentinel(sorted);
    SameInfectionsSameTotal(logged, sorted);
    OverwriteZeroRows(logged);
    PercentageKeepsColumns(masked);
  }

  /** The summary rows one by one: a row with a positive count carries the
      name and code of a key of the filtered table, the sum of that key's
      counts and its logarithm; a row with count 0 has been zeroed in every
      column, name and code included. */
  lemma SummaryRows(df: seq<CaseRecord>, i: nat)
    requires i < |SummaryTable(df)|
    ensures var r := SummaryTable(df)[i];
            r.infections > 0 ==>
              && r.name.Named?
              && Key(r.name.text, r.code) in RecordKeys(df)
              && r.infections == SumFor(df, Key(r.name.text, r.code))
              && r.logarithm == Some(Ln(r.infections))
    ensures var r := SummaryTable(df)[i];
            r.infections == 0 ==>
              r.name == NameZero && r.code == 0 && r.logarithm == Some(LogZero)
  {
    var sorted := SortDescending(FromGroups(GroupSum(df)));
    var logged := WithLogarithm(sorted);
    LogarithmSentinel(sorted);
    OverwriteZeroRows(logged);
    PercentageKeepsColumns(OverwriteMasked(logged));
    SortedRowsAreGroups(df, i);
  }

  /** Two positions holding the same row make it occur at least twice. */
  lemma TwoCopies(s: seq<Row>, i: nat, j: nat)
    requires i < j < |s| && s[i] == s[j]
    ensures multiset(s)[s[i]] >= 2
  {
    assert s == s[..j] + [s[j]] + s[j + 1..];
    assert s[..j][i] == s[i];
  }

  /** A sequence without repeated rows holds each row at most once. */
  lemma {:induction false} NoRepeatsOnce(s: seq<Row>, x: Row)
    requires forall i, j :: 0 <= i < j < |s| ==> s[i] != s[j]
    ensures multiset(s)[x] <= 1
  {
    if s != [] {
      assert s == [s[0]] + s[1..];
      NoRepeatsOnce(s[1..], x);
      if x == s[0] {
        assert x !in s[1..];
      }
    }
  }

  /** No two rows of the sorted frame share a (name, code) key. */
  lemma SortedKeysDistinct(df: seq<CaseRecord>, i: nat, j: nat)
    requires i < j < |SortDescending(FromGroups(GroupSum(df)))|
    ensures var sorted := SortDescending(FromGroups(GroupSum(df)));
            sorted[i].name != sorted[j].name || sorted[i].code != sorted[j].code
  {
    var gs := GroupSum(df);
    var base, sorted := FromGroups(gs), SortDescending(FromGroups(gs));
    SortDescendingSpec(base);
    GroupSumRows(df);
    assert sorted[i] in multiset(base) && sorted[j] in multiset(base);
    var p :| 0 <= p < |base| && base[p] == sorted[i];
    var q :| 0 <= q < |base| && base[q] == sorted[j];
    if sorted[i].name == sorted[j].name && sorted[i].code == sorted[j].code {
      assert gs[p].key == gs[q].key;
      assert p == q;
      TwoCopies(sorted, i, j);
      forall u, v | 0 <= u < v < |base| ensures base[u] != base[v] {
        assert gs[u].key != gs[v].key;
      }
      NoRepeatsOnce(base, sorted[i]);
      assert false;
    }
  }

  /** One summary row per key at the level of the summary itself: two rows
      with positive counts never share a (Prefecture_name, Prefecture_code) pair. */
  lemma SummaryPositiveRowsDistinct(df: seq<CaseRecord>, i: nat, j: nat)
    requires i < j < |SummaryTable(df)|
    requires SummaryTable(df)[i].infections > 0 && SummaryTable(df)[j].infections > 0
    ensures SummaryTable(df)[i].name != SummaryTable(df)[j].name
         || SummaryTable(df)[i].code != SummaryTable(df)[j].code
  {
    var sorted := SortDescending(FromGroups(GroupSum(df)));
    var logged := WithLogarithm(sorted);
    LogarithmSentinel(sorted);
    OverwriteZeroRows(logged);
    PercentageKeepsColumns(OverwriteMasked(logged));
    SortedKeysDistinct(df, i, j);
  }

  /** Every key of the filtered table with a positive sum has its own summary row. */
  lemma PositiveKeysShown(df: seq<CaseRecord>, k: Key) returns (i: nat)
    requires k in RecordKeys(df) && SumFor(df, k) > 0
    ensures i < |SummaryTable(df)|
    ensures var r := SummaryTable(df)[i];
            r.name == Named(k.name) && r.code == k.code && r.infections == SumFor(df, k)
  {
    var sorted := SortDescending(FromGroups(GroupSum(df)));
    var logged := WithLogarithm(sorted);
    LogarithmSentinel(sorted);
    OverwriteZeroRows(logged);
    PercentageKeepsColumns(OverwriteMasked(logged));
    i := GroupsAreSortedRows(df, k);
  }

  /** The percentage column of the summary: each cell is 100 times the row's
      share of the filtered total, within [0, 100], the cells summing to 100;
      if every filtered count is 0, every cell is NaN. */
  lemma SummaryPercentages(df: seq<CaseRecord>)
    ensures RecordTotal(df) > 0 ==>
              && PercentSum(SummaryTable(df)) == 100.0
              && forall i :: 0 <= i < |SummaryTable(df)| ==>
                   var r := SummaryTable(df)[i];
                   && r.percentage == Some(Percent(100.0 * r.infections as real / RecordTotal(df) as real))
                   && 0.0 <= r.percentage.value.value <= 100.0
    ensures RecordTotal(df) == 0 ==>
              forall i :: 0 <= i < |SummaryTable(df)| ==> SummaryTable(df)[i].percentage == Some(NaN)
  {
    var masked := OverwriteMasked(WithLogarithm(SortDescending(FromGroups(GroupSum(df)))));
    SummaryShape(df);
    PercentageKeepsColumns(masked);
    if RecordTotal(df) > 0 {
      PercentagesSumTo100(masked);
    }
    forall i | 0 <= i < |masked| {
      PercentageCells(masked, i);
    }
  }

  /** The merged table: a (feature, summary row) pair occurs exactly when the
      feature's id equals the row's Prefecture_code.  A feature with a nonzero
      id drops out when no key of the filtered table with that code has a
      positive sum (absent from the range, or zeroed to code 0); a feature whose
      id is the code of a key with a positive sum is kept, beside that key's row. */
  lemma MapColumnJoin(records: seq<CaseRecord>, startDate: Option<Date>, endDate: Option<Date>,
                      features: seq<Feature>, f: Feature)
    requires MapColumnOutcome(records, startDate, endDate, features).Rendered?
    ensures var o := MapColumnOutcome(records, startDate, endDate, features);
            forall j :: j in o.joined <==> j.feature in features && j.summary in o.summary && j.feature.id == j.summary.code
    ensures var df := SelectDates(records, startDate, endDate);
            var o := MapColumnOutcome(records, startDate, endDate, features);
            f.id != 0 && (forall k :: k in RecordKeys(df) && k.code == f.id ==> SumFor(df, k) == 0) ==>
              forall j :: j in o.joined ==> j.feature != f
    ensures var df := SelectDates(records, startDate, endDate);
            var o := MapColumnOutcome(records, startDate, endDate, features);
            f in features ==>
              forall k :: k in RecordKeys(df) && k.code == f.id && SumFor(df, k) > 0 ==>
                exists j :: j in o.joined && j.feature == f && j.summary.name == Named(k.name)
  {
    var df := SelectDates(records, startDate, endDate);
    var summary := SummaryTable(df);
    InnerJoinMembership(features, summary);
    if f.id != 0 && (forall k :: k in RecordKeys(df) && k.code == f.id ==> SumFor(df, k) == 0) {
      forall i | 0 <= i < |summary| ensures summary[i].code != f.id {
        SummaryRows(df, i);
      }
      UnmatchedFeatureDropped(features, summary, f);
    }
    if f in features {
      forall k | k in RecordKeys(df) && k.code == f.id && SumFor(df, k) > 0
        ensures exists j :: j in InnerJoin(features, summary) && j.feature == f && j.summary.name == Named(k.name)
      {
        var i := PositiveKeysShown(df, k);
        assert JoinedRow(f, summary[i]) in InnerJoin(features, summary);
      }
    }
  }

  /** The case table of the worked case below. */
  function ScenarioRecords(): (records: seq<CaseRecord>)
  {
    [CaseRecord(0, "Tokyo", 13, 10), CaseRecord(1, "Tokyo", 13, 20), CaseRecord(0, "Osaka", 27, 0)]
  }

  lemma ScenarioGroups()
    ensures GroupSum(ScenarioRecords()) == [Group(Key("Tokyo", 13), 30), Group(Key("Osaka", 27), 0)]
  {
    var records := ScenarioRecords();
    assert GroupSum(records[..1]) == [Group(Key("Tokyo", 13), 10)];
    assert GroupSum(records[..2]) == [Group(Key("Tokyo", 13), 30)];
    assert records[..|records| - 1] == records[..2];
    assert KeyOf(records[2]) != Key("Tokyo", 13) by {
      assert "Osaka"[0] != "Tokyo"[0];
    }
    assert GroupSum(records) == AddRecord([Group(Key("Tokyo", 13), 30)], records[2]);
  }

  lemma ScenarioSummary()
    ensures SummaryTable(ScenarioRecords())
         == [Row(Named("Tokyo"), 13, 30, Some(Ln(30)), Some(Percent(100.0))),
             Row(NameZero, 0, 0, Some(LogZero), Some(Percent(0.0)))]
  {
    ScenarioGroups();
    var tokyo := Row(Named("Tokyo"), 13, 30, None, None);
    var osaka := Row(Named("Osaka"), 27, 0, None, None);
    assert FromGroups(GroupSum(ScenarioRecords())) == [tokyo, osaka];
    assert SortDescending([osaka]) == [osaka];
    assert SortDescending([tokyo, osaka]) == [tokyo, osaka];
    var logged := WithLogarithm([tokyo, osaka]);
    assert logged == [tokyo.(logarithm := Some(Ln(30))), osaka.(logarithm := Some(NegInfinity))];
    var masked := OverwriteMasked(logged);
    var zeroed := Row(NameZero, 0, 0, Some(LogZero), None);
    assert masked == [tokyo.(logarithm := Some(Ln(30))), zeroed];
    assert masked[1..] == [zeroed] && [zeroed][1..] == [];
    assert FrameTotal([zeroed]) == 0;
    assert FrameTotal(masked) == 30;
  }

  /** A worked case: Tokyo with 10 and 20 infections and Osaka with 0 over a
      two-day range.  Tokyo comes first with 100 percent; Osaka's row is zeroed
      in every column, its name and code included, so the Osaka boundary
      feature finds no partner in the join. */
  lemma TokyoOsakaScenario()
    ensures var features := [Feature(13, "Tokyo-to"), Feature(27, "Osaka-fu")];
            var tokyo := Row(Named("Tokyo"), 13, 30, Some(Ln(30)), Some(Percent(100.0)));
            MapColumnOutcome(ScenarioRecords(), Some(0), Some(1), features)
              == Rendered([tokyo, Row(NameZero, 0, 0, Some(LogZero), Some(Percent(0.0)))],
                          [JoinedRow(Feature(13, "Tokyo-to"), tokyo)])
  {
    var records := ScenarioRecords();
    assert records[1..][1..][1..] == [];
    assert FilterDates(records[1..][1..], 0, 1) == records[1..][1..];
    assert FilterDates(records[1..], 0, 1) == records[1..];
    assert SelectDates(records, Some(0), Some(1)) == records;
    ScenarioSummary();
    var tokyo := Row(Named("Tokyo"), 13, 30, Some(Ln(30)), Some(Percent(100.0)));
    var summary := [tokyo, Row(NameZero, 0, 0, Some(LogZero), Some(Percent(0.0)))];
    assert summary[1..] == [summary[1]] && summary[1..][1..] == [];
    assert MatchesOf(Feature(13, "Tokyo-to"), summary) == [JoinedRow(Feature(13, "Tokyo-to"), tokyo)];
    assert MatchesOf(Feature(27, "Osaka-fu"), summary) == [];
  }
}
