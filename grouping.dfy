/** `df.groupby(["Prefecture_name", "Prefecture_code"], as_index=False).agg({'Infections': 'sum'})`:
    one row per distinct key, holding the sum of Infections over the records with that key. */
module Grouping {
  import opened Tables

  /** One row of the aggregated table. */
  datatype Group = Group(key: Key, infections: nat)

  /** Folds one record into a partial aggregation: add its count to the group of
      its key, or open a new group at the end when the key is new. */
  function AddRecord(gs: seq<Group>, r: CaseRecord): (out: seq<Group>)
  {
    if gs == [] then [Group(KeyOf(r), r.infections)]
    else if gs[0].key == KeyOf(r) then [Group(gs[0].key, gs[0].infections + r.infections)] + gs[1..]
    else [gs[0]] + AddRecord(gs[1..], r)
  }

  /** The aggregation of a whole table, record by record.  Groups come out in
      order of first appearance; pandas sorts the keys instead.  The descending
      sort that follows keeps the order of tied rows from its input, so the
      model's order of rows with equal counts may differ from the program's. */
  function GroupSum(rs: seq<CaseRecord>): (gs: seq<Group>)
  {
    if rs == [] then [] else AddRecord(GroupSum(rs[..|rs| - 1]), rs[|rs| - 1])
  }

  /** Reference definition: the sum of Infections over the records with key k. */
  function SumFor(rs: seq<CaseRecord>, k: Key): (sum: nat)
  {
    if rs == [] then 0
    else SumFor(rs[..|rs| - 1], k) + (if KeyOf(rs[|rs| - 1]) == k then rs[|rs| - 1].infections else 0)
  }

  function KeySet(gs: seq<Group>): (keys: set<Key>)
  {
    if gs == [] then {} else {gs[0].key} + KeySet(gs[1..])
  }

  /** No key occurs in two groups. */
  predicate DistinctKeys(gs: seq<Group>)
  {
    gs == [] || (gs[0].key !in KeySet(gs[1..]) && DistinctKeys(gs[1..]))
  }

  /** The count held for key k by the first group with that key, 0 if none. */
  function ValueOf(gs: seq<Group>, k: Key): (v: nat)
  {
    if gs == [] then 0 else if gs[0].key == k then gs[0].infections else ValueOf(gs[1..], k)
  }

  function GroupTotal(gs: seq<Group>): (total: nat)
  {
    if gs == [] then 0 else gs[0].infections + GroupTotal(gs[1..])
  }

  lemma {:induction false} KeySetAt(gs: seq<Group>, k: Key)
    ensures k in KeySet(gs) <==> exists i :: 0 <= i < |gs| && gs[i].key == k
  {
    if gs != [] {
      KeySetAt(gs[1..], k);
      if k in KeySet(gs[1..]) {
        var i :| 0 <= i < |gs[1..]| && gs[1..][i].key == k;
        assert gs[i + 1].key == k;
      }
      if exists i :: 0 <= i < |gs| && gs[i].key == k {
        var i :| 0 <= i < |gs| && gs[i].key == k;
        if i > 0 {
          assert gs[1..][i - 1].key == k;
        }
      }
    }
  }

  /** DistinctKeys means that two different positions never share a key. */
  lemma {:induction false} DistinctKeysAt(gs: seq<Group>, i: nat, j: nat)
    requires DistinctKeys(gs)
    requires i < j < |gs|
    ensures gs[i].key != gs[j].key
  {
    if i == 0 {
      KeySetAt(gs[1..], gs[j].key);
      assert gs[1..][j - 1].key == gs[j].key;
    } else {
      DistinctKeysAt(gs[1..], i - 1, j - 1);
    }
  }

  /** With distinct keys there are exactly as many groups as keys. */
  lemma {:induction false} DistinctKeysCount(gs: seq<Group>)
    requires DistinctKeys(gs)
    ensures |KeySet(gs)| == |gs|
  {
    if gs != [] {
      DistinctKeysCount(gs[1..]);
    }
  }

  /** With distinct keys every group holds the value looked up by its key. */
  lemma {:induction false} ValueOfAt(gs: seq<Group>, i: nat)
    requires DistinctKeys(gs)
    requires i < |gs|
    ensures ValueOf(gs, gs[i].key) == gs[i].infections
  {
    if i > 0 {
      KeySetAt(gs[1..], gs[i].key);
      assert gs[1..][i - 1].key == gs[i].key;
      ValueOfAt(gs[1..], i - 1);
    }
  }

  /** What folding one record into the aggregation does to keys, values and total. */
  lemma {:induction false} AddRecordSpec(gs: seq<Group>, r: CaseRecord)
    ensures KeySet(AddRecord(gs, r)) == KeySet(gs) + {KeyOf(r)}
    ensures DistinctKeys(gs) ==> DistinctKeys(AddRecord(gs, r))
    ensures forall k :: ValueOf(AddRecord(gs, r), k) == ValueOf(gs, k) + (if k == KeyOf(r) then r.infections else 0)
    ensures GroupTotal(AddRecord(gs, r)) == GroupTotal(gs) + r.infections
  {
    if gs != [] && gs[0].key != KeyOf(r) {
      AddRecordSpec(gs[1..], r);
      assert AddRecord(gs, r)[1..] == AddRecord(gs[1..], r);
    } else if gs != [] {
      assert AddRecord(gs, r)[1..] == gs[1..];
    }
  }

  /** The aggregation has one group per distinct key of the table, each group
      holds the sum of its key's counts, and no count is lost or duplicated. */
  lemma {:induction false} GroupSumSpec(rs: seq<CaseRecord>)
    ensures DistinctKeys(GroupSum(rs))
    ensures KeySet(GroupSum(rs)) == RecordKeys(rs)
    ensures forall k :: ValueOf(GroupSum(rs), k) == SumFor(rs, k)
    ensures GroupTotal(GroupSum(rs)) == RecordTotal(rs)
  {
    if rs != [] {
      var prefix, last := rs[..|rs| - 1], rs[|rs| - 1];
      assert rs == prefix + [last];
      GroupSumSpec(prefix);
      AddRecordSpec(GroupSum(prefix), last);
      assert RecordKeys(rs) == RecordKeys(prefix) + {KeyOf(last)};
    }
  }

  /** The groupby contract row by row: exactly one row per distinct key, and
      each row's Infections is the sum over the records with its key. */
  lemma GroupSumRows(rs: seq<CaseRecord>)
    ensures |GroupSum(rs)| == |RecordKeys(rs)|
    ensures forall i, j :: 0 <= i < j < |GroupSum(rs)| ==> GroupSum(rs)[i].key != GroupSum(rs)[j].key
    ensures forall k :: k in RecordKeys(rs) <==> exists i :: 0 <= i < |GroupSum(rs)| && GroupSum(rs)[i].key == k
    ensures forall i :: 0 <= i < |GroupSum(rs)| ==> GroupSum(rs)[i].infections == SumFor(rs, GroupSum(rs)[i].key)
    ensures GroupTotal(GroupSum(rs)) == RecordTotal(rs)
  {
    var gs := GroupSum(rs);
    GroupSumSpec(rs);
    DistinctKeysCount(gs);
    forall i, j | 0 <= i < j < |gs| ensures gs[i].key != gs[j].key {
      DistinctKeysAt(gs, i, j);
    }
    forall k ensures k in RecordKeys(rs) <==> exists i :: 0 <= i < |gs| && gs[i].key == k {
      KeySetAt(gs, k);
    }
    forall i | 0 <= i < |gs| ensures gs[i].infections == SumFor(rs, gs[i].key) {
      ValueOfAt(gs, i);
    }
  }
}
