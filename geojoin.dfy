/** `pd.merge(geojson.loc[:, ['id', 'nam_ja', 'geometry']], df_group,
    right_on="Prefecture_code", left_on="id")`: the inner join of the boundary
    features with the summary frame on id == Prefecture_code. */
module GeoJoin {
  import opened Tables

  /** A boundary feature: its `id` property and its `nam_ja` display name.  The
      polygon geometry travels through the join unchanged and is not modelled. */
  datatype Feature = Feature(id: int, displayName: string)

  /** One row of the merged table: the feature's columns next to the summary row's. */
  datatype JoinedRow = JoinedRow(feature: Feature, summary: Row)

  /** The joined rows of one feature, in the order of the summary frame. */
  function MatchesOf(f: Feature, rows: seq<Row>): (out: seq<JoinedRow>)
  {
    if rows == [] then []
    else (if rows[0].code == f.id then [JoinedRow(f, rows[0])] else []) + MatchesOf(f, rows[1..])
  }

  /** The inner join, feature by feature. */
  function InnerJoin(features: seq<Feature>, rows: seq<Row>): (joined: seq<JoinedRow>)
  {
    if features == [] then [] else MatchesOf(features[0], rows) + InnerJoin(features[1..], rows)
  }

  lemma {:induction false} MatchesOfCount(f: Feature, rows: seq<Row>, j: JoinedRow)
    ensures multiset(MatchesOf(f, rows))[j]
         == if j.feature == f && j.summary.code == f.id then multiset(rows)[j.summary] else 0
  {
    if rows != [] {
      assert rows == [rows[0]] + rows[1..];
      MatchesOfCount(f, rows[1..], j);
    }
  }

  lemma SuccTimes(m: int, r: int)
    ensures (m + 1) * r == m * r + r
  {
  }

  /** The join holds every pair of a feature and a summary row whose id and code
      agree, as many times as the feature and the row occur, and nothing else. */
  lemma {:induction false} InnerJoinCount(features: seq<Feature>, rows: seq<Row>, j: JoinedRow)
    ensures multiset(InnerJoin(features, rows))[j]
         == if j.feature.id == j.summary.code
            then multiset(features)[j.feature] * multiset(rows)[j.summary]
            else 0
  {
    if features != [] {
      var f, rest := features[0], features[1..];
      assert features == [f] + rest;
      MatchesOfCount(f, rows, j);
      InnerJoinCount(rest, rows, j);
      var m, r := multiset(rest)[j.feature], multiset(rows)[j.summary];
      assert multiset(InnerJoin(features, rows))[j]
          == multiset(MatchesOf(f, rows))[j] + multiset(InnerJoin(rest, rows))[j];
      if j.feature == f {
        assert multiset(features)[j.feature] == m + 1;
        SuccTimes(m, r);
      } else {
        assert multiset(features)[j.feature] == m;
      }
    }
  }

  /** Membership in the join, both directions. */
  lemma InnerJoinMembership(features: seq<Feature>, rows: seq<Row>)
    ensures forall j :: j in InnerJoin(features, rows) <==>
              j.feature in features && j.summary in rows && j.feature.id == j.summary.code
  {
    forall j ensures j in InnerJoin(features, rows) <==>
                       j.feature in features && j.summary in rows && j.feature.id == j.summary.code
    {
      InnerJoinCount(features, rows, j);
      var m, r := multiset(features)[j.feature], multiset(rows)[j.summary];
      assert m > 0 && r > 0 ==> m * r > 0;
    }
  }

  /** A feature whose id is the code of no summary row is absent from the join. */
  lemma UnmatchedFeatureDropped(features: seq<Feature>, rows: seq<Row>, f: Feature)
    requires forall i :: 0 <= i < |rows| ==> rows[i].code != f.id
    ensures forall j :: j in InnerJoin(features, rows) ==> j.feature != f
  {
    InnerJoinMembership(features, rows);
  }
}
