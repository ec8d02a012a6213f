/** Leaderboard ordering shared by both bots: rows of (name, value) sorted by
    value, largest first, with rows of equal value kept in their original
    order (Python's `sorted(rows, key=lambda x: x[1], reverse=True)` is
    stable). */
module Ranking {

  /** A leaderboard row: an account or player name and the value it is ranked by. */
  type Row = (string, int)

  /** Values never increase from one row to any later row. */
  ghost predicate NonIncreasing(s: seq<Row>) {
    forall i, j :: 0 <= i < j < |s| ==> s[i].1 >= s[j].1
  }

  /** The names that occur in the rows. */
  function Names(s: seq<Row>): set<string> {
    set i | 0 <= i < |s| :: s[i].0
  }

  /** No name occurs in two rows. */
  ghost predicate DistinctNames(s: seq<Row>) {
    forall i, j :: 0 <= i < j < |s| ==> s[i].0 != s[j].0
  }

  /** No element occurs twice. */
  ghost predicate Distinct(ks: seq<string>) {
    forall i, j :: 0 <= i < j < |ks| ==> ks[i] != ks[j]
  }

  /** The sum of the values of all rows. */
  function SumValues(s: seq<Row>): int {
    if s == [] then 0 else s[0].1 + SumValues(s[1..])
  }

  lemma NamesCons(x: Row, s: seq<Row>)
    ensures Names([x] + s) == {x.0} + Names(s)
  {
    var t := [x] + s;
    forall n | n in Names(t) ensures n in {x.0} + Names(s) {
      var i :| 0 <= i < |t| && t[i].0 == n;
      if i > 0 { assert s[i - 1] == t[i]; }
    }
    forall n | n in Names(s) ensures n in Names(t) {
      var i :| 0 <= i < |s| && s[i].0 == n;
      assert t[i + 1] == s[i];
    }
    assert t[0] == x;
  }

  /** The rows whose value is `v`, in their order in `s`: a sort is stable
      when it keeps this subsequence for every value. */
  function Ties(s: seq<Row>, v: int): seq<Row> {
    if s == [] then [] else (if s[0].1 == v then [s[0]] else []) + Ties(s[1..], v)
  }

  lemma TiesCons(x: Row, s: seq<Row>, v: int)
    ensures Ties([x] + s, v) == (if x.1 == v then [x] else []) + Ties(s, v)
  {
    assert ([x] + s)[1..] == s;
  }

  /** Places `x` in front of the first row whose value is not larger than
      its own, so that `x` precedes every row of equal value. */
  function Insert(x: Row, s: seq<Row>): (r: seq<Row>)
    ensures multiset(r) == multiset(s) + multiset{x}
    ensures r[0] == x || (s != [] && r[0] == s[0])
  {
    if s == [] then [x]
    else if s[0].1 <= x.1 then [x] + s
    else
      var rest := Insert(x, s[1..]);
      assert s == [s[0]] + s[1..];
      [s[0]] + rest
  }

  /** The stable descending sort: a permutation of its input, ordered by
      value, largest first. */
  function SortDesc(s: seq<Row>): (r: seq<Row>)
    ensures multiset(r) == multiset(s)
    ensures NonIncreasing(r)
  {
    if s == [] then []
    else
      assert s == [s[0]] + s[1..];
      InsertSorted(s[0], SortDesc(s[1..]));
      Insert(s[0], SortDesc(s[1..]))
  }

  /** The inserted row comes before every row of the same value and leaves
      the order of those rows alone. */
  lemma {:induction false} InsertTies(x: Row, s: seq<Row>, v: int)
    ensures Ties(Insert(x, s), v) == (if x.1 == v then [x] else []) + Ties(s, v)
  {
    if s == [] {
      assert Insert(x, s) == [x] + [];
      TiesCons(x, [], v);
    } else if s[0].1 <= x.1 {
      TiesCons(x, s, v);
    } else {
      InsertTies(x, s[1..], v);
      TiesCons(s[0], Insert(x, s[1..]), v);
      assert Insert(x, s) == [s[0]] + Insert(x, s[1..]);
    }
  }

  /** Stability: rows of equal value leave the sort in their input order. */
  lemma {:induction false} SortDescStable(s: seq<Row>, v: int)
    ensures Ties(SortDesc(s), v) == Ties(s, v)
  {
    if s != [] {
      SortDescStable(s[1..], v);
      InsertTies(s[0], SortDesc(s[1..]), v);
    }
  }

  /** Inserting into a sorted list keeps it sorted. */
  lemma {:induction false} InsertSorted(x: Row, s: seq<Row>)
    requires NonIncreasing(s)
    ensures NonIncreasing(Insert(x, s))
  {
    if s != [] && s[0].1 > x.1 {
      var rest := Insert(x, s[1..]);
      InsertSorted(x, s[1..]);
      var r := [s[0]] + rest;
      assert Insert(x, s) == r;
      assert s[0].1 >= rest[0].1;
      forall i, j | 0 <= i < j < |r| ensures r[i].1 >= r[j].1 {
        if i == 0 {
          assert r[j] == rest[j - 1];
          assert rest[0].1 >= rest[j - 1].1;
        } else {
          assert r[i] == rest[i - 1] && r[j] == rest[j - 1];
        }
      }
    }
  }

  /** Rows that are a permutation of each other mention the same names. */
  lemma PermutationNames(r: seq<Row>, s: seq<Row>)
    requires multiset(r) == multiset(s)
    ensures Names(r) == Names(s)
  {
    forall n | n in Names(r) ensures n in Names(s) {
      var i :| 0 <= i < |r| && r[i].0 == n;
      assert r[i] in multiset(s);
      var j :| 0 <= j < |s| && s[j] == r[i];
    }
    forall n | n in Names(s) ensures n in Names(r) {
      var j :| 0 <= j < |s| && s[j].0 == n;
      assert s[j] in multiset(r);
      var i :| 0 <= i < |r| && r[i] == s[j];
    }
  }

  lemma {:induction false} InsertNames(x: Row, s: seq<Row>)
    ensures Names(Insert(x, s)) == Names(s) + {x.0}
  {
    if s == [] {
      NamesCons(x, []);
    } else if s[0].1 <= x.1 {
      NamesCons(x, s);
    } else {
      assert s == [s[0]] + s[1..];
      NamesCons(s[0], s[1..]);
      InsertNames(x, s[1..]);
      NamesCons(s[0], Insert(x, s[1..]));
    }
  }

  lemma {:induction false} InsertKeepsDistinct(x: Row, s: seq<Row>)
    requires DistinctNames(s) && x.0 !in Names(s)
    ensures DistinctNames(Insert(x, s))
  {
    if s == [] {
    } else if s[0].1 <= x.1 {
      NamesCons(x, s);
    } else {
      assert s == [s[0]] + s[1..];
      NamesCons(s[0], s[1..]);
      var rest := Insert(x, s[1..]);
      assert DistinctNames(s[1..]) by {
        forall i, j | 0 <= i < j < |s[1..]| ensures s[1..][i].0 != s[1..][j].0 {
          assert s[1..][i] == s[i + 1] && s[1..][j] == s[j + 1];
        }
      }
      InsertKeepsDistinct(x, s[1..]);
      InsertNames(x, s[1..]);
      assert s[0].0 !in Names(rest) by {
        forall k | 0 <= k < |s[1..]| ensures s[1..][k].0 != s[0].0 {
          assert s[1..][k] == s[k + 1];
        }
      }
      var r := [s[0]] + rest;
      assert Insert(x, s) == r;
      forall i, j | 0 <= i < j < |r| ensures r[i].0 != r[j].0 {
        if i == 0 {
          assert r[j] == rest[j - 1];
        } else {
          assert r[i] == rest[i - 1] && r[j] == rest[j - 1];
        }
      }
    }
  }

  lemma {:induction false} InsertSum(x: Row, s: seq<Row>)
    ensures SumValues(Insert(x, s)) == x.1 + SumValues(s)
  {
    if s != [] && s[0].1 > x.1 {
      InsertSum(x, s[1..]);
      assert Insert(x, s) == [s[0]] + Insert(x, s[1..]);
    }
  }

  /** Sorting keeps the number of rows, the names and the total value. */
  lemma SortDescKeeps(s: seq<Row>)
    ensures |SortDesc(s)| == |s|
    ensures Names(SortDesc(s)) == Names(s)
    ensures SumValues(SortDesc(s)) == SumValues(s)
  {
    var r := SortDesc(s);
    assert |multiset(r)| == |multiset(s)|;
    PermutationNames(r, s);
    SortDescSum(s);
  }

  lemma {:induction false} SortDescSum(s: seq<Row>)
    ensures SumValues(SortDesc(s)) == SumValues(s)
  {
    if s != [] {
      SortDescSum(s[1..]);
      InsertSum(s[0], SortDesc(s[1..]));
    }
  }

  /** Sorting rows with distinct names gives rows with distinct names. */
  lemma {:induction false} SortDescDistinct(s: seq<Row>)
    requires DistinctNames(s)
    ensures DistinctNames(SortDesc(s))
  {
    if s != [] {
      assert s == [s[0]] + s[1..];
      NamesCons(s[0], s[1..]);
      assert DistinctNames(s[1..]) by {
        forall i, j | 0 <= i < j < |s[1..]| ensures s[1..][i].0 != s[1..][j].0 {
          assert s[1..][i] == s[i + 1] && s[1..][j] == s[j + 1];
        }
      }
      assert forall k :: 0 <= k < |s[1..]| ==> s[1..][k].0 != s[0].0 by {
        forall k | 0 <= k < |s[1..]| ensures s[1..][k].0 != s[0].0 {
          assert s[1..][k] == s[k + 1];
        }
      }
      SortDescDistinct(s[1..]);
      SortDescKeeps(s[1..]);
      InsertKeepsDistinct(s[0], SortDesc(s[1..]));
    }
  }
}
