/**
 * Generic operations on a table kept as a sequence of rows in insertion order:
 * `WHERE` (Where), `ORDER BY ... DESC` over rows stamped in insertion order (Reverse),
 * `LIMIT n` (Limit) and `COUNT(*)` (Count), with the facts the route models need about them.
 */
module Rows {
  import opened Wrappers

  /** `SELECT ... WHERE keep(row)`: the rows that satisfy `keep`, in table order. */
  function Where<T>(s: seq<T>, keep: T -> bool): (r: seq<T>)
    ensures |r| <= |s|
    ensures forall i :: 0 <= i < |r| ==> r[i] in s && keep(r[i])
    ensures forall i :: 0 <= i < |s| && keep(s[i]) ==> s[i] in r
  {
    if s == [] then [] else (if keep(s[0]) then [s[0]] else []) + Where(s[1..], keep)
  }

  /** `SELECT COUNT(*) ... WHERE keep(row)`. */
  function Count<T>(s: seq<T>, keep: T -> bool): nat {
    |Where(s, keep)|
  }

  /** The sequence read backwards. */
  function Reverse<T>(s: seq<T>): (r: seq<T>)
    ensures |r| == |s| && forall i :: 0 <= i < |s| ==> r[i] == s[|s| - 1 - i]
  {
    seq(|s|, i requires 0 <= i < |s| => s[|s| - 1 - i])
  }

  /** `LIMIT n`: the first `n` rows, or all of them when there are fewer. */
  function Limit<T>(s: seq<T>, n: nat): (r: seq<T>)
    ensures |r| == if |s| <= n then |s| else n
    ensures r == s[..|r|]
  {
    if |s| <= n then s else s[..n]
  }

  function Min(a: nat, b: nat): nat {
    if a <= b then a else b
  }

  /** Stamps never decrease along the sequence. */
  ghost predicate Ascending<T>(s: seq<T>, at: T -> int) {
    forall i, j :: 0 <= i < j < |s| ==> at(s[i]) <= at(s[j])
  }

  /** Stamps never increase along the sequence. */
  ghost predicate Descending<T>(s: seq<T>, at: T -> int) {
    forall i, j :: 0 <= i < j < |s| ==> at(s[i]) >= at(s[j])
  }

  /** Keys strictly increase along the sequence (an AUTO_INCREMENT id column). */
  ghost predicate Increasing<T>(s: seq<T>, key: T -> int) {
    forall i, j :: 0 <= i < j < |s| ==> key(s[i]) < key(s[j])
  }

  /** No two rows share a key (a UNIQUE KEY). */
  ghost predicate Distinct<T, K>(s: seq<T>, key: T -> K) {
    forall i, j :: 0 <= i < j < |s| ==> key(s[i]) != key(s[j])
  }

  /** Every row's stamp is at most `bound`. */
  ghost predicate AllAtMost<T>(s: seq<T>, at: T -> int, bound: int) {
    forall i :: 0 <= i < |s| ==> at(s[i]) <= bound
  }

  /** `rel` holds of every pair of rows in table order. */
  ghost predicate Pairwise<T>(s: seq<T>, rel: (T, T) -> bool) {
    forall i, j :: 0 <= i < j < |s| ==> rel(s[i], s[j])
  }

  /** Filtering keeps the relative order of the rows it keeps, so any relation that held
      of every pair in table order still does. */
  lemma {:induction false} WherePairwise<T>(s: seq<T>, keep: T -> bool, rel: (T, T) -> bool)
    requires Pairwise(s, rel)
    ensures Pairwise(Where(s, keep), rel)
  {
    if s != [] {
      var t := s[1..];
      assert Pairwise(t, rel) by {
        forall i, j | 0 <= i < j < |t| ensures rel(t[i], t[j]) { assert t[i] == s[i + 1] && t[j] == s[j + 1]; }
      }
      WherePairwise(t, keep, rel);
      var w := Where(t, keep);
      if keep(s[0]) {
        var r := Where(s, keep);
        assert r == [s[0]] + w;
        forall i, j | 0 <= i < j < |r| ensures rel(r[i], r[j]) {
          if i == 0 {
            assert r[j] == w[j - 1] && w[j - 1] in t;
            var k :| 0 <= k < |t| && t[k] == w[j - 1];
            assert s[k + 1] == r[j];
          } else {
            assert r[i] == w[i - 1] && r[j] == w[j - 1];
          }
        }
      }
    }
  }

  /** Filtering keeps the table's order: stamps stay ascending. */
  lemma WhereAscending<T>(s: seq<T>, keep: T -> bool, at: T -> int)
    requires Ascending(s, at)
    ensures Ascending(Where(s, keep), at)
  {
    var rel := (a: T, b: T) => at(a) <= at(b);
    assert Pairwise(s, rel);
    WherePairwise(s, keep, rel);
  }

  lemma WhereIncreasing<T>(s: seq<T>, keep: T -> bool, key: T -> int)
    requires Increasing(s, key)
    ensures Increasing(Where(s, keep), key)
  {
    var rel := (a: T, b: T) => key(a) < key(b);
    assert Pairwise(s, rel);
    WherePairwise(s, keep, rel);
  }

  lemma WhereDistinct<T, K>(s: seq<T>, keep: T -> bool, key: T -> K)
    requires Distinct(s, key)
    ensures Distinct(Where(s, keep), key)
  {
    var rel := (a: T, b: T) => key(a) != key(b);
    assert Pairwise(s, rel);
    WherePairwise(s, keep, rel);
  }

  lemma WhereAllAtMost<T>(s: seq<T>, keep: T -> bool, at: T -> int, bound: int)
    requires AllAtMost(s, at, bound)
    ensures AllAtMost(Where(s, keep), at, bound)
  {
    forall i | 0 <= i < |Where(s, keep)| ensures at(Where(s, keep)[i]) <= bound {
      var x := Where(s, keep)[i];
      assert x in s;
      var k :| 0 <= k < |s| && s[k] == x;
    }
  }

  /** Reading an ascending table backwards gives `ORDER BY ... DESC`. */
  lemma ReverseDescending<T>(s: seq<T>, at: T -> int)
    requires Ascending(s, at)
    ensures Descending(Reverse(s), at)
  {
    var r := Reverse(s);
    forall i, j | 0 <= i < j < |r| ensures at(r[i]) >= at(r[j]) {
      assert r[i] == s[|s| - 1 - i] && r[j] == s[|s| - 1 - j];
    }
  }

  lemma LimitDescending<T>(s: seq<T>, n: nat, at: T -> int)
    requires Descending(s, at)
    ensures Descending(Limit(s, n), at)
  {
  }

  /** Newest-first, keep `n`, then back to oldest-first (`ORDER BY ... DESC LIMIT n` followed by
      JavaScript's `reverse()`) yields the last `n` rows in table order. */
  lemma LatestInOrder<T>(s: seq<T>, n: nat)
    ensures Reverse(Limit(Reverse(s), n)) == s[|s| - Min(n, |s|)..]
  {
    var k := Min(n, |s|);
    var tail := s[|s| - k..];
    assert Limit(Reverse(s), n) == Reverse(s)[..k];
    ReverseTake(s, k);
    ReverseReverse(tail);
  }

  /** The first `k` rows of the reversed table are the reversed last `k` rows. */
  lemma ReverseTake<T>(s: seq<T>, k: nat)
    requires k <= |s|
    ensures Reverse(s)[..k] == Reverse(s[|s| - k..])
  {
    var a := Reverse(s)[..k];
    var b := Reverse(s[|s| - k..]);
    forall i | 0 <= i < k ensures a[i] == b[i] {
      assert b[i] == s[|s| - k..][k - 1 - i];
    }
  }

  lemma ReverseReverse<T>(s: seq<T>)
    ensures Reverse(Reverse(s)) == s
  {
    var r := Reverse(s);
    forall i | 0 <= i < |s| ensures Reverse(r)[i] == s[i] {
      assert Reverse(r)[i] == r[|s| - 1 - i];
    }
  }

  lemma {:induction false} WhereAppend<T>(s: seq<T>, t: seq<T>, keep: T -> bool)
    ensures Where(s + t, keep) == Where(s, keep) + Where(t, keep)
  {
    if s != [] {
      assert (s + t)[1..] == s[1..] + t;
      WhereAppend(s[1..], t, keep);
    } else {
      assert s + t == t;
    }
  }

  /** Filtering with a test every row passes keeps the whole table. */
  lemma {:induction false} WhereAll<T>(s: seq<T>, keep: T -> bool)
    requires forall i :: 0 <= i < |s| ==> keep(s[i])
    ensures Where(s, keep) == s
  {
    if s != [] {
      WhereAll(s[1..], keep);
    }
  }

  /** Filtering with a test no row passes keeps nothing. */
  lemma {:induction false} WhereNone<T>(s: seq<T>, keep: T -> bool)
    requires forall i :: 0 <= i < |s| ==> !keep(s[i])
    ensures Where(s, keep) == []
  {
    if s != [] {
      WhereNone(s[1..], keep);
    }
  }

  /** Filtering twice is filtering once with both tests. */
  lemma {:induction false} WhereWhere<T>(s: seq<T>, a: T -> bool, b: T -> bool, both: T -> bool)
    requires forall x :: both(x) == (a(x) && b(x))
    ensures Where(Where(s, a), b) == Where(s, both)
  {
    if s != [] {
      WhereWhere(s[1..], a, b, both);
      var w := Where(s[1..], a);
      if a(s[0]) {
        var sa := Where(s, a);
        assert sa == [s[0]] + w;
        assert sa[1..] == w;
        assert Where(sa, b) == (if b(sa[0]) then [sa[0]] else []) + Where(sa[1..], b);
        assert both(s[0]) == b(s[0]);
      } else {
        assert Where(s, a) == w;
        assert !both(s[0]);
        assert Where(s, both) == Where(s[1..], both);
      }
    }
  }

  /** Two tests that agree on every row select the same rows. */
  lemma {:induction false} WhereSame<T>(s: seq<T>, a: T -> bool, b: T -> bool)
    requires forall i :: 0 <= i < |s| ==> a(s[i]) == b(s[i])
    ensures Where(s, a) == Where(s, b)
  {
    if s != [] {
      WhereSame(s[1..], a, b);
    }
  }

  /** A row passing `p` is either the first row or a row of the rest. */
  lemma AnyRow<T>(s: seq<T>, p: T -> bool)
    requires s != []
    ensures (exists i :: 0 <= i < |s| && p(s[i])) == (p(s[0]) || exists i :: 0 <= i < |s[1..]| && p(s[1..][i]))
  {
    if exists i :: 0 <= i < |s| && p(s[i]) {
      var i :| 0 <= i < |s| && p(s[i]);
      if i > 0 {
        assert s[1..][i - 1] == s[i];
      }
    }
    if exists i :: 0 <= i < |s[1..]| && p(s[1..][i]) {
      var i :| 0 <= i < |s[1..]| && p(s[1..][i]);
      assert s[i + 1] == s[1..][i];
    }
  }

  /** At most one row passing `p` means at most one in the rest, and none there when the
      first row passes. */
  lemma AtMostOneTail<T>(s: seq<T>, p: T -> bool)
    requires s != []
    requires forall i, j :: 0 <= i < j < |s| && p(s[i]) ==> !p(s[j])
    ensures forall i, j :: 0 <= i < j < |s[1..]| && p(s[1..][i]) ==> !p(s[1..][j])
    ensures p(s[0]) ==> !exists i :: 0 <= i < |s[1..]| && p(s[1..][i])
  {
    var t := s[1..];
    forall i, j | 0 <= i < j < |t| && p(t[i]) ensures !p(t[j]) {
      assert s[i + 1] == t[i] && s[j + 1] == t[j];
    }
    if p(s[0]) {
      forall i | 0 <= i < |t| ensures !p(t[i]) { assert s[i + 1] == t[i]; }
    }
  }

  /** In a table where at most one row passes `doomed`, deleting that row lowers the count of
      any selection containing it by exactly one, and leaves other counts alone. */
  lemma {:induction false} CountAfterDelete<T>(s: seq<T>, doomed: T -> bool, kept: T -> bool,
                                               counted: T -> bool, both: T -> bool)
    requires forall x :: kept(x) == !doomed(x)
    requires forall x :: both(x) == (kept(x) && counted(x))
    requires forall i, j :: 0 <= i < j < |s| && doomed(s[i]) ==> !doomed(s[j])
    requires forall x :: doomed(x) ==> counted(x)
    ensures Count(Where(s, kept), counted) + (if exists i :: 0 <= i < |s| && doomed(s[i]) then 1 else 0)
            == Count(s, counted)
  {
    WhereWhere(s, kept, counted, both);
    if s != [] {
      var t := s[1..];
      AtMostOneTail(s, doomed);
      AnyRow(s, doomed);
      CountAfterDelete(t, doomed, kept, counted, both);
      WhereWhere(t, kept, counted, both);
    }
  }

  /** Appending a row raises the count of a selection by one exactly when the row is selected. */
  lemma CountAppend<T>(s: seq<T>, x: T, counted: T -> bool)
    ensures Count(s + [x], counted) == Count(s, counted) + (if counted(x) then 1 else 0)
  {
    WhereAppend(s, [x], counted);
    assert Where([x], counted) == (if counted(x) then [x] else []) + Where([x][1..], counted);
  }

  /** The rows mapped one by one, built by appending as a loop over the rows does. */
  function Map<T, U>(s: seq<T>, f: T -> U): (r: seq<U>)
    ensures |r| == |s|
  {
    if s == [] then [] else Map(s[..|s| - 1], f) + [f(s[|s| - 1])]
  }

  lemma {:induction false} MapAt<T, U>(s: seq<T>, f: T -> U)
    ensures forall i :: 0 <= i < |s| ==> Map(s, f)[i] == f(s[i])
  {
    if s != [] {
      var init := s[..|s| - 1];
      MapAt(init, f);
      forall i | 0 <= i < |s| ensures Map(s, f)[i] == f(s[i]) {
        if i < |init| {
          assert s[i] == init[i];
        }
      }
    }
  }

  /** `SELECT ... WHERE keep(row)`, first row. */
  function First<T>(s: seq<T>, keep: T -> bool): (r: Option<T>)
    ensures r.Some? <==> exists i :: 0 <= i < |s| && keep(s[i])
    ensures r.Some? ==> r.value in s && keep(r.value)
  {
    if s == [] then None
    else if keep(s[0]) then Some(s[0])
    else
      var r := First(s[1..], keep);
      assert (exists i :: 0 <= i < |s| && keep(s[i])) ==> exists i :: 0 <= i < |s[1..]| && keep(s[1..][i]) by {
        if exists i :: 0 <= i < |s| && keep(s[i]) {
          var i :| 0 <= i < |s| && keep(s[i]);
          assert s[1..][i - 1] == s[i];
        }
      }
      r
  }

  /** The set of keys of the rows: what a UNIQUE KEY makes observable about a table. */
  function Keys<T, K>(s: seq<T>, key: T -> K): (r: set<K>)
    ensures forall i :: 0 <= i < |s| ==> key(s[i]) in r
    ensures forall k :: k in r ==> exists i :: 0 <= i < |s| && key(s[i]) == k
  {
    set i | 0 <= i < |s| :: key(s[i])
  }

  /** The rows whose key is not `k`: `DELETE ... WHERE key = k`. */
  function Other<T, K(==)>(key: T -> K, k: K): T -> bool {
    (x: T) => key(x) != k
  }

  /** Inserting a row adds its key. */
  lemma KeysAppend<T, K>(s: seq<T>, x: T, key: T -> K)
    ensures Keys(s + [x], key) == Keys(s, key) + {key(x)}
  {
    var t := s + [x];
    forall k | k in Keys(t, key) ensures k in Keys(s, key) + {key(x)} {
      var i :| 0 <= i < |t| && key(t[i]) == k;
      if i < |s| { assert t[i] == s[i]; }
    }
    forall k | k in Keys(s, key) + {key(x)} ensures k in Keys(t, key) {
      if k != key(x) {
        var i :| 0 <= i < |s| && key(s[i]) == k;
        assert t[i] == s[i];
      } else {
        assert t[|s|] == x;
      }
    }
  }

  /** Deleting the rows with key `k` removes `k` and no other key. */
  lemma KeysRemove<T, K>(s: seq<T>, k: K, key: T -> K)
    ensures Keys(Where(s, Other(key, k)), key) == Keys(s, key) - {k}
  {
    var w := Where(s, Other(key, k));
    forall j | j in Keys(w, key) ensures j in Keys(s, key) - {k} {
      var i :| 0 <= i < |w| && key(w[i]) == j;
      assert Other(key, k)(w[i]);
      var m :| 0 <= m < |s| && s[m] == w[i];
    }
    forall j | j in Keys(s, key) - {k} ensures j in Keys(w, key) {
      var i :| 0 <= i < |s| && key(s[i]) == j;
      assert Other(key, k)(s[i]);
      var m :| 0 <= m < |w| && w[m] == s[i];
    }
  }

  /** A toggle of `x`: removed when present, added when absent. */
  function Toggled<T>(s: set<T>, x: T): (r: set<T>)
    ensures x in r <==> x !in s
    ensures r - {x} == s - {x}
  {
    if x in s then s - {x} else s + {x}
  }

  /** Toggling twice restores the set. */
  lemma ToggledTwice<T>(s: set<T>, x: T)
    ensures Toggled(Toggled(s, x), x) == s
  {
  }

  /** The rows whose key is `k`: `SELECT ... WHERE key = k`. */
  function KeyIs<T, K(==)>(key: T -> K, k: K): T -> bool {
    (x: T) => key(x) == k
  }

  /** Strictly increasing keys are distinct. */
  lemma IncreasingDistinct<T>(s: seq<T>, key: T -> int)
    requires Increasing(s, key)
    ensures Distinct(s, key)
  {
  }

  /** Deleting by a unique key that is present removes exactly one row. */
  lemma {:induction false} DeleteOne<T, K>(s: seq<T>, key: T -> K, k: K)
    requires Distinct(s, key) && k in Keys(s, key)
    ensures |Where(s, Other(key, k))| == |s| - 1
  {
    var t := s[1..];
    assert Distinct(t, key) by {
      forall i, j | 0 <= i < j < |t| ensures key(t[i]) != key(t[j]) { assert t[i] == s[i + 1] && t[j] == s[j + 1]; }
    }
    if key(s[0]) == k {
      forall i | 0 <= i < |t| ensures Other(key, k)(t[i]) { assert t[i] == s[i + 1]; }
      WhereAll(t, Other(key, k));
    } else {
      var i :| 0 <= i < |s| && key(s[i]) == k;
      assert t[i - 1] == s[i];
      DeleteOne(t, key, k);
    }
  }

  /** A bound that holds still holds when raised. */
  lemma AllAtMostLater<T>(s: seq<T>, at: T -> int, bound: int, later: int)
    requires AllAtMost(s, at, bound) && bound <= later
    ensures AllAtMost(s, at, later)
  {
  }

  /** Appending a row within the bound keeps the bound. */
  lemma AllAtMostAppend<T>(s: seq<T>, x: T, at: T -> int, bound: int)
    requires AllAtMost(s, at, bound) && at(x) <= bound
    ensures AllAtMost(s + [x], at, bound)
  {
    forall i | 0 <= i < |s + [x]| ensures at((s + [x])[i]) <= bound {
      if i < |s| { assert (s + [x])[i] == s[i]; }
    }
  }

  /** Appending a row stamped no earlier than every row keeps the order. */
  lemma AscendingAppend<T>(s: seq<T>, x: T, at: T -> int)
    requires Ascending(s, at) && AllAtMost(s, at, at(x))
    ensures Ascending(s + [x], at)
  {
    var t := s + [x];
    forall i, j | 0 <= i < j < |t| ensures at(t[i]) <= at(t[j]) {
      assert t[i] == s[i];
      if j < |s| { assert t[j] == s[j]; }
    }
  }

  /** Appending a row with a key above every key keeps the keys increasing. */
  lemma IncreasingAppend<T>(s: seq<T>, x: T, key: T -> int)
    requires Increasing(s, key) && AllAtMost(s, key, key(x) - 1)
    ensures Increasing(s + [x], key)
  {
    var t := s + [x];
    forall i, j | 0 <= i < j < |t| ensures key(t[i]) < key(t[j]) {
      assert t[i] == s[i];
      if j < |s| { assert t[j] == s[j]; }
    }
  }
}
