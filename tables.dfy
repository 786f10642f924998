/**
 * Tables as the repositories and view-models see them: sequences of records in storage
 * order, with the few query shapes the application uses (first match, filter, replace by
 * key, order by an integer key).
 */
module Tables {
  import opened Wrappers

  /** `SELECT * ... WHERE pred` returning a single row: the first match in storage order. */
  function FirstWhere<T>(rows: seq<T>, pred: T -> bool): Option<T> {
    if rows == [] then None
    else if pred(rows[0]) then Some(rows[0])
    else FirstWhere(rows[1..], pred)
  }

  /** `FirstWhere` finds nothing exactly when no row matches, and otherwise the first match. */
  lemma {:induction false} FirstWhereFinds<T>(rows: seq<T>, pred: T -> bool)
    ensures FirstWhere(rows, pred).None? <==> forall i | 0 <= i < |rows| :: !pred(rows[i])
    ensures FirstWhere(rows, pred).Some? ==>
      exists i | 0 <= i < |rows| :: rows[i] == FirstWhere(rows, pred).value && pred(rows[i]) && forall j | 0 <= j < i :: !pred(rows[j])
  {
    if rows != [] && !pred(rows[0]) {
      var r := FirstWhere(rows[1..], pred);
      FirstWhereFinds(rows[1..], pred);
      assert forall i | 1 <= i < |rows| :: rows[i] == rows[1..][i - 1];
      if r.Some? {
        var i :| 0 <= i < |rows[1..]| && rows[1..][i] == r.value && pred(rows[1..][i]) && forall j | 0 <= j < i :: !pred(rows[1..][j]);
        assert rows[i + 1] == r.value && pred(rows[i + 1]);
        assert forall j | 0 <= j < i + 1 :: !pred(rows[j]) by {
          forall j | 0 <= j < i + 1 ensures !pred(rows[j]) {
            if j > 0 { assert rows[j] == rows[1..][j - 1]; }
          }
        }
      }
    }
  }

  /** One step of the search from position `k`: the row there is taken when it matches, otherwise the search moves on. */
  lemma FirstWhereStep<T>(rows: seq<T>, k: nat, pred: T -> bool)
    requires k < |rows|
    ensures FirstWhere(rows[k..], pred) == if pred(rows[k]) then Some(rows[k]) else FirstWhere(rows[k + 1..], pred)
  {
    assert rows[k..][1..] == rows[k + 1..];
  }

  /** Searching a concatenation searches the first part, then the second. */
  lemma {:induction false} FirstWhereAppend<T>(a: seq<T>, b: seq<T>, pred: T -> bool)
    ensures FirstWhere(a + b, pred) == if FirstWhere(a, pred).Some? then FirstWhere(a, pred) else FirstWhere(b, pred)
  {
    if a != [] {
      assert (a + b)[0] == a[0];
      assert (a + b)[1..] == a[1..] + b;
      FirstWhereAppend(a[1..], b, pred);
    } else {
      assert a + b == b;
    }
  }

  /** Kotlin's `filter`: the elements satisfying `pred`, in their original order. */
  function Filter<T>(s: seq<T>, pred: T -> bool): (r: seq<T>)
    ensures forall i | 0 <= i < |r| :: pred(r[i])
    ensures forall i | 0 <= i < |r| :: r[i] in s
    ensures forall i | 0 <= i < |s| :: pred(s[i]) ==> s[i] in r
  {
    if s == [] then []
    else if pred(s[0]) then [s[0]] + Filter(s[1..], pred)
    else Filter(s[1..], pred)
  }

  /** Filtering by a predicate and by its negation splits a sequence in two. */
  lemma {:induction false} FilterPartition<T>(s: seq<T>, pred: T -> bool, other: T -> bool)
    requires forall x :: other(x) <==> !pred(x)
    ensures |Filter(s, pred)| + |Filter(s, other)| == |s|
    ensures multiset(Filter(s, pred)) + multiset(Filter(s, other)) == multiset(s)
  {
    if s != [] {
      FilterPartition(s[1..], pred, other);
      assert s == [s[0]] + s[1..];
    }
  }

  /** Filtering a concatenation filters each part in turn: the kept rows stay in their order. */
  lemma {:induction false} FilterAppend<T>(a: seq<T>, b: seq<T>, pred: T -> bool)
    ensures Filter(a + b, pred) == Filter(a, pred) + Filter(b, pred)
  {
    if a == [] {
      assert a + b == b;
    } else {
      assert (a + b)[0] == a[0];
      assert (a + b)[1..] == a[1..] + b;
      FilterAppend(a[1..], b, pred);
    }
  }

  /** No two rows share a primary key. */
  predicate KeysUnique<T>(rows: seq<T>, key: T -> int) {
    forall i, j | 0 <= i < j < |rows| :: key(rows[i]) != key(rows[j])
  }

  /** Room's `@Update`: the row with the primary key of `x` becomes `x`; the others stay. */
  function ReplaceByKey<T>(rows: seq<T>, key: T -> int, x: T): (r: seq<T>)
    ensures |r| == |rows|
    ensures forall i | 0 <= i < |rows| :: key(r[i]) == key(rows[i])
  {
    seq(|rows|, i requires 0 <= i < |rows| => if key(rows[i]) == key(x) then x else rows[i])
  }

  /** With unique keys, updating a stored row rewrites exactly that row. */
  lemma ReplaceStoredRow<T>(rows: seq<T>, key: T -> int, i: int, x: T)
    requires KeysUnique(rows, key) && 0 <= i < |rows| && key(x) == key(rows[i])
    ensures ReplaceByKey(rows, key, x) == rows[i := x]
  {
  }

  /** Updating a row whose key is not in the table changes nothing. */
  lemma ReplaceMissingRow<T>(rows: seq<T>, key: T -> int, x: T)
    requires forall i | 0 <= i < |rows| :: key(rows[i]) != key(x)
    ensures ReplaceByKey(rows, key, x) == rows
  {
  }

  /** Two updates of the same key in turn leave the later record wherever that key is stored. */
  lemma ReplaceTwice<T>(rows: seq<T>, key: T -> int, x: T, y: T)
    requires key(x) == key(y)
    ensures ReplaceByKey(ReplaceByKey(rows, key, x), key, y) == ReplaceByKey(rows, key, y)
  {
  }

  predicate SortedBy<T>(s: seq<T>, key: T -> int) {
    forall i, j | 0 <= i < j < |s| :: key(s[i]) <= key(s[j])
  }

  function InsertBy<T>(x: T, s: seq<T>, key: T -> int): (r: seq<T>)
    requires SortedBy(s, key)
    ensures SortedBy(r, key)
    ensures multiset(r) == multiset(s) + multiset{x}
  {
    if s == [] then [x]
    else if key(x) <= key(s[0]) then [x] + s
    else
      var rest := InsertBy(x, s[1..], key);
      assert s == [s[0]] + s[1..];
      assert forall k | 0 <= k < |rest| :: key(s[0]) <= key(rest[k]) by {
        forall k | 0 <= k < |rest| ensures key(s[0]) <= key(rest[k]) {
          assert rest[k] in multiset(rest);
          if rest[k] != x {
            assert rest[k] in multiset(s[1..]);
            var m :| 0 <= m < |s[1..]| && s[1..][m] == rest[k];
            assert s[m + 1] == rest[k];
          }
        }
      }
      [s[0]] + rest
  }

  /** `ORDER BY key ASC`, as an insertion sort (the order among equal keys is not specified). */
  function SortBy<T>(s: seq<T>, key: T -> int): (r: seq<T>)
    ensures SortedBy(r, key)
    ensures multiset(r) == multiset(s)
  {
    if s == [] then []
    else
      assert s == [s[0]] + s[1..];
      InsertBy(s[0], SortBy(s[1..], key), key)
  }

  /** Kotlin's `toMap`: a later pair overrides an earlier one with the same key. */
  function ToMap<K(==), V>(pairs: seq<(K, V)>): map<K, V> {
    if pairs == [] then map[]
    else ToMap(pairs[..|pairs| - 1])[pairs[|pairs| - 1].0 := pairs[|pairs| - 1].1]
  }

  predicate KeysDistinct<K(==), V>(pairs: seq<(K, V)>) {
    forall a, b | 0 <= a < b < |pairs| :: pairs[a].0 != pairs[b].0
  }

  /** With distinct keys, the map built from the pairs sends every key to its own value. */
  lemma {:induction false} ToMapFinds<K, V>(pairs: seq<(K, V)>, i: nat)
    requires KeysDistinct(pairs) && i < |pairs|
    ensures pairs[i].0 in ToMap(pairs) && ToMap(pairs)[pairs[i].0] == pairs[i].1
  {
    var n := |pairs| - 1;
    if i < n {
      var front := pairs[..n];
      assert front[i] == pairs[i];
      assert KeysDistinct(front) by {
        forall a, b | 0 <= a < b < |front| ensures front[a].0 != front[b].0 {
          assert front[a] == pairs[a] && front[b] == pairs[b];
        }
      }
      ToMapFinds(front, i);
      assert pairs[i].0 != pairs[n].0;
    }
  }
}
