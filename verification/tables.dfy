/**
 * Relational tables as maps from row id to row: rows in rowid order
 * (the order SQLite returns without ORDER BY) and SQLite's id assignment.
 */
module Tables {

  lemma {:induction false} MinExists(s: set<int>)
    requires s != {}
    ensures exists m :: m in s && forall x :: x in s ==> m <= x
    decreases |s|
  {
    assert (forall e :: e !in s) ==> s == {};
    var y :| y in s;
    var rest := s - {y};
    if rest != {} {
      MinExists(rest);
      var m :| m in rest && forall x :: x in rest ==> m <= x;
      var w := if y < m then y else m;
      forall x | x in s ensures w <= x {
        if x != y { assert x in rest; }
      }
      assert w in s;
    } else {
      forall x | x in s ensures y <= x {
        assert x == y || x in rest;
      }
    }
  }

  lemma {:induction false} MaxExists(s: set<int>)
    requires s != {}
    ensures exists m :: m in s && forall x :: x in s ==> x <= m
    decreases |s|
  {
    assert (forall e :: e !in s) ==> s == {};
    var y :| y in s;
    var rest := s - {y};
    if rest != {} {
      MaxExists(rest);
      var m :| m in rest && forall x :: x in rest ==> x <= m;
      var w := if y > m then y else m;
      forall x | x in s ensures x <= w {
        if x != y { assert x in rest; }
      }
      assert w in s;
    } else {
      forall x | x in s ensures x <= y {
        assert x == y || x in rest;
      }
    }
  }

  function MinOf(s: set<int>): (m: int)
    requires s != {}
    ensures m in s && forall x :: x in s ==> m <= x
  {
    MinExists(s);
    var m :| m in s && forall x :: x in s ==> m <= x;
    m
  }

  function MaxOf(s: set<int>): (m: int)
    requires s != {}
    ensures m in s && forall x :: x in s ==> x <= m
  {
    MaxExists(s);
    var m :| m in s && forall x :: x in s ==> x <= m;
    m
  }

  /** A subset is no larger than its superset. */
  lemma SubsetCard<T>(a: set<T>, b: set<T>)
    requires a <= b
    ensures |a| <= |b|
  {
    assert b == a + (b - a);
  }

  /** The keys of a table in ascending order. */
  function SortedKeys(s: set<int>): (r: seq<int>)
    ensures |r| == |s|
    ensures forall x :: x in r <==> x in s
    ensures forall i, j :: 0 <= i < j < |r| ==> r[i] < r[j]
    decreases |s|
  {
    if s == {} then []
    else
      var m := MinOf(s);
      var rest := SortedKeys(s - {m});
      PrependMin(m, s, rest);
      [m] + rest
  }

  lemma PrependMin(m: int, s: set<int>, rest: seq<int>)
    requires m in s && forall x :: x in s ==> m <= x
    requires |rest| == |s - {m}|
    requires forall x :: x in rest <==> x in s - {m}
    requires forall i, j :: 0 <= i < j < |rest| ==> rest[i] < rest[j]
    ensures |[m] + rest| == |s|
    ensures forall x :: x in [m] + rest <==> x in s
    ensures forall i, j :: 0 <= i < j < |[m] + rest| ==> ([m] + rest)[i] < ([m] + rest)[j]
  {
    var r := [m] + rest;
    forall i, j | 0 <= i < j < |r| ensures r[i] < r[j] {
      assert r[j] == rest[j - 1];
      if i > 0 {
        assert r[i] == rest[i - 1];
      } else {
        assert rest[j - 1] in rest;
      }
    }
  }

  /** The rows a list of row ids names, in list order. */
  function RowsAt<V>(m: map<int, V>, ids: seq<int>): (r: seq<V>)
    requires forall i :: 0 <= i < |ids| ==> ids[i] in m
    ensures |r| == |ids|
    ensures forall i :: 0 <= i < |ids| ==> r[i] == m[ids[i]]
  {
    seq(|ids|, i requires 0 <= i < |ids| => m[ids[i]])
  }

  /** The rows of a table in rowid order. */
  function Rows<V>(m: map<int, V>): (r: seq<V>)
    ensures |r| == |m|
  {
    var ks := SortedKeys(m.Keys);
    assert forall i :: 0 <= i < |ks| ==> ks[i] in m by {
      forall i | 0 <= i < |ks| ensures ks[i] in m {
        assert ks[i] in ks;
      }
    }
    RowsAt(m, ks)
  }

  /**
   * Row id SQLite gives a table declared `INTEGER PRIMARY KEY` (no
   * AUTOINCREMENT): one more than the largest id present, or 1 when empty.
   */
  function NextRowId(keys: set<int>): (r: int)
    ensures r !in keys
    ensures forall k :: k in keys ==> k < r
    ensures keys == {} ==> r == 1
  {
    if keys == {} then 1 else MaxOf(keys) + 1
  }

  /**
   * Row id SQLite gives an AUTOINCREMENT table whose sequence counter is
   * `last`: one more than both the counter and the largest id present.
   */
  function AutoIncrementId(keys: set<int>, last: int): (r: int)
    ensures r !in keys
    ensures forall k :: k in keys ==> k < r
    ensures last < r
  {
    if keys == {} then last + 1
    else
      var mx := MaxOf(keys);
      (if mx > last then mx else last) + 1
  }
}
