/** `df_group.sort_values("Infections", ascending=False)`: the rows reordered so
    that Infections never increases.  pandas' default sort is not stable, so only
    the permutation and the order are promised.  The model (a stable insertion
    sort over first-appearance order) fixes the order only up to ties; its
    order of tied rows may differ from the one pandas produces. */
module Sorting {
  import opened Tables

  predicate NonIncreasing(rows: seq<Row>)
  {
    forall i, j :: 0 <= i < j < |rows| ==> rows[i].infections >= rows[j].infections
  }

  /** Inserts x before the first row whose count does not exceed its own. */
  function Insert(x: Row, s: seq<Row>): (r: seq<Row>)
  {
    if s == [] then [x]
    else if x.infections >= s[0].infections then [x] + s
    else [s[0]] + Insert(x, s[1..])
  }

  function SortDescending(s: seq<Row>): (r: seq<Row>)
  {
    if s == [] then [] else Insert(s[0], SortDescending(s[1..]))
  }

  /** Inserting a row no larger than a bound into rows no larger than it keeps
      every row within the bound. */
  lemma {:induction false} InsertBelow(x: Row, s: seq<Row>, bound: nat)
    requires x.infections <= bound
    requires forall i :: 0 <= i < |s| ==> s[i].infections <= bound
    ensures forall i :: 0 <= i < |Insert(x, s)| ==> Insert(x, s)[i].infections <= bound
  {
    if s != [] && x.infections < s[0].infections {
      InsertBelow(x, s[1..], bound);
      assert Insert(x, s)[1..] == Insert(x, s[1..]);
    }
  }

  lemma {:induction false} InsertPermutes(x: Row, s: seq<Row>)
    ensures multiset(Insert(x, s)) == multiset(s) + multiset{x}
  {
    if s != [] && x.infections < s[0].infections {
      assert s == [s[0]] + s[1..];
      InsertPermutes(x, s[1..]);
      assert Insert(x, s) == [s[0]] + Insert(x, s[1..]);
    }
  }

  lemma {:induction false} InsertOrdered(x: Row, s: seq<Row>)
    requires NonIncreasing(s)
    ensures NonIncreasing(Insert(x, s))
  {
    if s != [] && x.infections < s[0].infections {
      var rest := Insert(x, s[1..]);
      InsertOrdered(x, s[1..]);
      InsertBelow(x, s[1..], s[0].infections);
      assert Insert(x, s) == [s[0]] + rest;
    }
  }

  lemma {:induction false} InsertTotal(x: Row, s: seq<Row>)
    ensures FrameTotal(Insert(x, s)) == x.infections + FrameTotal(s)
  {
    if s != [] && x.infections < s[0].infections {
      assert Insert(x, s)[1..] == Insert(x, s[1..]);
      InsertTotal(x, s[1..]);
    } else {
      assert Insert(x, s)[1..] == s;
    }
  }

  /** The sorted frame is a permutation of its input, non-increasing in Infections. */
  lemma {:induction false} SortDescendingSpec(s: seq<Row>)
    ensures multiset(SortDescending(s)) == multiset(s)
    ensures NonIncreasing(SortDescending(s))
    ensures FrameTotal(SortDescending(s)) == FrameTotal(s)
  {
    if s != [] {
      assert s == [s[0]] + s[1..];
      SortDescendingSpec(s[1..]);
      InsertPermutes(s[0], SortDescending(s[1..]));
      InsertOrdered(s[0], SortDescending(s[1..]));
      InsertTotal(s[0], SortDescending(s[1..]));
    }
  }

  /** The first row of a non-increasing frame holds its largest count. */
  lemma HeadIsLargest(a: seq<Row>, x: Row)
    requires NonIncreasing(a)
    requires x in a
    ensures a[0].infections >= x.infections
  {
    var q :| 0 <= q < |a| && a[q] == x;
  }

  /** Dropping one row keeps a frame non-increasing. */
  lemma RemoveAtNonIncreasing(b: seq<Row>, p: nat)
    requires NonIncreasing(b)
    requires p < |b|
    ensures NonIncreasing(b[..p] + b[p + 1..])
  {
    var b' := b[..p] + b[p + 1..];
    forall u, v | 0 <= u < v < |b'| ensures b'[u].infections >= b'[v].infections {
      var u' := if u < p then u else u + 1;
      var v' := if v < p then v else v + 1;
      assert b'[u] == b[u'] && b'[v] == b[v'];
    }
  }

  lemma RemoveAtMultiset(b: seq<Row>, p: nat)
    requires p < |b|
    ensures multiset(b[..p] + b[p + 1..]) == multiset(b) - multiset{b[p]}
  {
    assert b == b[..p] + [b[p]] + b[p + 1..];
  }

  /** Dropping a row that ties with the first row shifts the counts behind it
      by one position and leaves the column otherwise as it was. */
  lemma RemoveTieShifts(b: seq<Row>, p: nat, k: nat)
    requires NonIncreasing(b)
    requires k + 1 < |b| && p < |b|
    requires b[p].infections == b[0].infections
    ensures (b[..p] + b[p + 1..])[k].infections == b[k + 1].infections
  {
    if k < p {
      assert (b[..p] + b[p + 1..])[k] == b[k];
      assert b[0].infections >= b[k].infections >= b[k + 1].infections;
    } else {
      assert (b[..p] + b[p + 1..])[k] == b[k + 1];
    }
  }

  /** Two non-increasing orderings of the same rows start with the same count. */
  lemma HeadsAgree(a: seq<Row>, b: seq<Row>)
    requires multiset(a) == multiset(b)
    requires NonIncreasing(a) && NonIncreasing(b)
    requires a != []
    ensures |a| == |b| && a[0].infections == b[0].infections
  {
    assert |a| == |multiset(a)| == |b|;
    assert a[0] in multiset(b) && b[0] in multiset(a);
    HeadIsLargest(a, b[0]);
    HeadIsLargest(b, a[0]);
  }

  lemma IndexOf(b: seq<Row>, x: Row) returns (p: nat)
    requires x in b
    ensures p < |b| && b[p] == x
  {
    p :| 0 <= p < |b| && b[p] == x;
  }

  /** Removes the first row of a from b: what is left of both is again two
      non-increasing orderings of the same rows. */
  lemma DropHead(a: seq<Row>, b: seq<Row>) returns (p: nat)
    requires multiset(a) == multiset(b)
    requires NonIncreasing(a) && NonIncreasing(b)
    requires a != []
    ensures p < |b| && b[p] == a[0] && b[p].infections == b[0].infections
    ensures multiset(a[1..]) == multiset(b[..p] + b[p + 1..])
    ensures NonIncreasing(a[1..]) && NonIncreasing(b[..p] + b[p + 1..])
  {
    HeadsAgree(a, b);
    assert a[0] in multiset(b);
    p := IndexOf(b, a[0]);
    RemoveAtMultiset(b, p);
    assert a == [a[0]] + a[1..];
    RemoveAtNonIncreasing(b, p);
  }

  /** Any two non-increasing orderings of the same rows have the same Infections
      column, so the unspecified tie order never shows in that column. */
  lemma {:induction false} SortedColumnUnique(a: seq<Row>, b: seq<Row>, i: nat)
    requires multiset(a) == multiset(b)
    requires NonIncreasing(a) && NonIncreasing(b)
    requires i < |a|
    ensures |a| == |b| && a[i].infections == b[i].infections
  {
    HeadsAgree(a, b);
    if i > 0 {
      var p := DropHead(a, b);
      SortedColumnUnique(a[1..], b[..p] + b[p + 1..], i - 1);
      RemoveTieShifts(b, p, i - 1);
      assert a[1..][i - 1] == a[i];
    }
  }
}
