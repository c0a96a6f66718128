/**
 * The relational operators the reports are built from: filter, group-by with
 * a sum aggregate, inner join and full outer join, each with the textbook
 * semantics the dataframe engines give them. Rows are processed in input
 * order, as a fold; the order of rows produced by a group-by or a join is not
 * something any engine promises, and no property proved downstream depends
 * on it.
 */
module Relational {
  import opened Wrappers
  import opened Sorting

  /** `select`/`with_column`: the same rows, each rewritten by `f`. */
  function MapRows<T, U>(s: seq<T>, f: T -> U): (r: seq<U>)
    ensures |r| == |s|
    ensures forall i :: 0 <= i < |s| ==> r[i] == f(s[i])
  {
    seq(|s|, i requires 0 <= i < |s| => f(s[i]))
  }

  /**
   * Sorting and then projecting gives the rows that projecting and then
   * sorting gives, when the projection keeps the sort columns.
   */
  lemma {:induction false} SortByProjection<T, U>(s: seq<T>, f: T -> U, k1: T -> SortKey, k2: U -> SortKey)
    requires forall x :: k1(x) == k2(f(x))
    ensures MapRows(SortBy(s, k1), f) == SortBy(MapRows(s, f), k2)
  {
    if s != [] {
      SortByProjection(s[1..], f, k1, k2);
      assert MapRows(s, f)[1..] == MapRows(s[1..], f);
      InsertProjection(s[0], SortBy(s[1..], k1), f, k1, k2);
    }
  }

  lemma {:induction false} InsertProjection<T, U>(x: T, s: seq<T>, f: T -> U, k1: T -> SortKey, k2: U -> SortKey)
    requires forall x :: k1(x) == k2(f(x))
    ensures MapRows(Insert(x, s, k1), f) == Insert(f(x), MapRows(s, f), k2)
  {
    if s != [] && !KeyLe(k1(x), k1(s[0])) {
      InsertProjection(x, s[1..], f, k1, k2);
      assert MapRows(s, f)[1..] == MapRows(s[1..], f);
    }
  }

  /** `filter(p)`: the rows satisfying `p`, in their input order. */
  function Filter<T>(s: seq<T>, p: T -> bool): seq<T>
  {
    if s == [] then []
    else Filter(s[..|s| - 1], p) + (if p(s[|s| - 1]) then [s[|s| - 1]] else [])
  }

  /** A filter keeps each accepted row exactly as often as it occurs, and no other row. */
  lemma {:induction false} FilterMultiset<T>(s: seq<T>, p: T -> bool, x: T)
    ensures multiset(Filter(s, p))[x] == if p(x) then multiset(s)[x] else 0
  {
    if s != [] {
      FilterMultiset(s[..|s| - 1], p, x);
      assert s == s[..|s| - 1] + [s[|s| - 1]];
    }
  }

  /** A filter's rows are accepted rows of its input, and every accepted input row is among them. */
  lemma FilterMembers<T>(s: seq<T>, p: T -> bool)
    ensures forall x :: x in Filter(s, p) ==> p(x) && exists j :: 0 <= j < |s| && s[j] == x
    ensures forall j :: 0 <= j < |s| && p(s[j]) ==> s[j] in Filter(s, p)
  {
    forall x | x in Filter(s, p)
      ensures p(x) && exists j :: 0 <= j < |s| && s[j] == x
    {
      FilterMultiset(s, p, x);
      assert x in multiset(Filter(s, p));
      assert x in multiset(s);
    }
    forall j | 0 <= j < |s| && p(s[j])
      ensures s[j] in Filter(s, p)
    {
      FilterMultiset(s, p, s[j]);
      assert s[j] in multiset(s);
    }
  }

  /** Filtering depends only on what the predicate says about the rows present. */
  lemma {:induction false} FilterCongruent<T>(s: seq<T>, p: T -> bool, q: T -> bool)
    requires forall i :: 0 <= i < |s| ==> p(s[i]) == q(s[i])
    ensures Filter(s, p) == Filter(s, q)
  {
    if s != [] {
      FilterCongruent(s[..|s| - 1], p, q);
    }
  }

  /** The conjunction of two row predicates. */
  function Both<T>(p: T -> bool, q: T -> bool): T -> bool
  {
    x => p(x) && q(x)
  }

  /** Two filters in a row are one filter on the conjunction. */
  lemma {:induction false} FilterFilter<T>(s: seq<T>, p: T -> bool, q: T -> bool)
    ensures Filter(Filter(s, p), q) == Filter(s, Both(p, q))
  {
    if s != [] {
      var init := s[..|s| - 1];
      FilterFilter(init, p, q);
      var last := s[|s| - 1];
      var fp := Filter(s, p);
      assert Both(p, q)(last) == (p(last) && q(last));
      if p(last) {
        assert fp == Filter(init, p) + [last];
        assert fp[..|fp| - 1] == Filter(init, p);
        assert fp[|fp| - 1] == last;
      } else {
        assert fp == Filter(init, p);
      }
    }
  }

  /** Filtering after a row-wise map is mapping after the matching filter. */
  lemma {:induction false} FilterMapRows<T, U>(s: seq<T>, f: T -> U, p: T -> bool, q: U -> bool)
    requires forall i :: 0 <= i < |s| ==> q(f(s[i])) == p(s[i])
    ensures Filter(MapRows(s, f), q) == MapRows(Filter(s, p), f)
  {
    if s != [] {
      var init := s[..|s| - 1];
      var last := s[|s| - 1];
      FilterMapRows(init, f, p, q);
      var m := MapRows(s, f);
      assert m[..|m| - 1] == MapRows(init, f);
      assert m[|m| - 1] == f(last);
      if p(last) {
        assert Filter(s, p) == Filter(init, p) + [last];
        assert MapRows(Filter(s, p), f) == MapRows(Filter(init, p), f) + [f(last)];
      }
    }
  }

  /** Some row has key `k`. */
  predicate HasKey<T, K(==,!new)>(rows: seq<T>, key: T -> K, k: K)
  {
    exists i :: 0 <= i < |rows| && key(rows[i]) == k
  }

  /** No two rows share a key: the shape of a group-by's output. */
  predicate DistinctBy<T, K(==,!new)>(rows: seq<T>, key: T -> K)
  {
    forall i, j :: 0 <= i < j < |rows| ==> key(rows[i]) != key(rows[j])
  }

  /** A filter keeps a key-distinct frame key-distinct. */
  lemma {:induction false} FilterDistinct<T, K(!new)>(s: seq<T>, p: T -> bool, key: T -> K)
    requires DistinctBy(s, key)
    ensures DistinctBy(Filter(s, p), key)
    ensures forall k :: HasKey(Filter(s, p), key, k) ==> HasKey(s, key, k)
  {
    if s != [] {
      var init := s[..|s| - 1];
      var last := s[|s| - 1];
      FilterDistinct(init, p, key);
      var f := Filter(init, p);
      FilterMembers(init, p);
      forall i | 0 <= i < |f|
        ensures key(f[i]) != key(last)
      {
        assert f[i] in f;
        var j :| 0 <= j < |init| && init[j] == f[i];
        assert s[j] == f[i];
      }
      forall k | HasKey(Filter(s, p), key, k)
        ensures HasKey(s, key, k)
      {
        var i :| 0 <= i < |Filter(s, p)| && key(Filter(s, p)[i]) == k;
        if i < |f| {
          assert HasKey(f, key, k);
          var j :| 0 <= j < |init| && key(init[j]) == k;
          assert key(s[j]) == k;
        } else {
          assert key(s[|s| - 1]) == k;
        }
      }
    }
  }

  /** `sum(amount)` over the rows whose key is `k`: the reference definition of a group's total. */
  function SumWhere<T, K(==,!new)>(rows: seq<T>, key: T -> K, amount: T -> real, k: K): real
  {
    if rows == [] then 0.0
    else
      var last := rows[|rows| - 1];
      SumWhere(rows[..|rows| - 1], key, amount, k) + (if key(last) == k then amount(last) else 0.0)
  }

  /** A key whose rows all have amount zero totals to zero. */
  lemma {:induction false} SumWhereZero<T, K(!new)>(rows: seq<T>, key: T -> K, amount: T -> real, k: K)
    requires forall i :: 0 <= i < |rows| && key(rows[i]) == k ==> amount(rows[i]) == 0.0
    ensures SumWhere(rows, key, amount, k) == 0.0
  {
    if rows != [] {
      var init := rows[..|rows| - 1];
      assert forall i :: 0 <= i < |init| ==> init[i] == rows[i];
      SumWhereZero(init, key, amount, k);
    }
  }

  /** A key no row carries totals to zero. */
  lemma SumWhereAbsent<T, K(!new)>(rows: seq<T>, key: T -> K, amount: T -> real, k: K)
    requires !HasKey(rows, key, k)
    ensures SumWhere(rows, key, amount, k) == 0.0
  {
    SumWhereZero(rows, key, amount, k);
  }

  /** A key whose only row with a nonzero amount is `rows[i]` totals to that row's amount. */
  lemma {:induction false} SumWhereSingle<T, K(!new)>(rows: seq<T>, key: T -> K, amount: T -> real, i: nat)
    requires i < |rows|
    requires forall j :: 0 <= j < |rows| && j != i && key(rows[j]) == key(rows[i]) ==> amount(rows[j]) == 0.0
    ensures SumWhere(rows, key, amount, key(rows[i])) == amount(rows[i])
  {
    var init := rows[..|rows| - 1];
    var k := key(rows[i]);
    if i == |rows| - 1 {
      assert forall j :: 0 <= j < |init| ==> init[j] == rows[j];
      SumWhereZero(init, key, amount, k);
    } else {
      forall j | 0 <= j < |init| && j != i && key(init[j]) == key(init[i])
        ensures amount(init[j]) == 0.0
      {
        assert init[j] == rows[j];
      }
      SumWhereSingle(init, key, amount, i);
      assert init[i] == rows[i];
      var last := rows[|rows| - 1];
      assert key(last) == k ==> amount(last) == 0.0;
    }
  }

  /** `amount` on the rows satisfying `p`, zero elsewhere. */
  function Masked<T>(p: T -> bool, amount: T -> real): T -> real
  {
    x => if p(x) then amount(x) else 0.0
  }

  /** Appending a row adds its amount to its own key's total only. */
  lemma SumWhereSnoc<T, K(!new)>(rows: seq<T>, x: T, key: T -> K, amount: T -> real, k: K)
    ensures SumWhere(rows + [x], key, amount, k) == SumWhere(rows, key, amount, k) + (if key(x) == k then amount(x) else 0.0)
  {
    assert (rows + [x])[..|rows|] == rows;
  }

  /** Summing a filtered frame is summing the whole frame with the dropped rows' amounts zeroed. */
  lemma {:induction false} SumWhereOfFilter<T, K(!new)>(rows: seq<T>, p: T -> bool, key: T -> K, amount: T -> real, k: K)
    ensures SumWhere(Filter(rows, p), key, amount, k) == SumWhere(rows, key, Masked(p, amount), k)
  {
    if rows != [] {
      var init := rows[..|rows| - 1];
      var last := rows[|rows| - 1];
      SumWhereOfFilter(init, p, key, amount, k);
      if p(last) {
        assert Filter(rows, p) == Filter(init, p) + [last];
        SumWhereSnoc(Filter(init, p), last, key, amount, k);
      } else {
        assert Filter(rows, p) == Filter(init, p);
      }
    }
  }

  /** Dropping rows whose amount is zero does not change any total. */
  lemma {:induction false} SumWhereFilter<T, K(!new)>(rows: seq<T>, p: T -> bool, key: T -> K, amount: T -> real, k: K)
    requires forall i :: 0 <= i < |rows| && !p(rows[i]) ==> amount(rows[i]) == 0.0
    ensures SumWhere(Filter(rows, p), key, amount, k) == SumWhere(rows, key, amount, k)
  {
    if rows != [] {
      var init := rows[..|rows| - 1];
      var last := rows[|rows| - 1];
      forall i | 0 <= i < |init| && !p(init[i])
        ensures amount(init[i]) == 0.0
      {
        assert init[i] == rows[i];
      }
      SumWhereFilter(init, p, key, amount, k);
      if p(last) {
        assert Filter(rows, p) == Filter(init, p) + [last];
        SumWhereSnoc(Filter(init, p), last, key, amount, k);
      } else {
        assert Filter(rows, p) == Filter(init, p);
        assert amount(last) == 0.0;
      }
    }
  }

  /** One output row of a group-by: the group's key and its summed amount. */
  datatype Group<K> = Group(key: K, total: real)

  function KeyOfGroup<K>(g: Group<K>): K { g.key }

  predicate HasGroup<K(==,!new)>(g: seq<Group<K>>, k: K)
  {
    exists i :: 0 <= i < |g| && g[i].key == k
  }

  predicate DistinctGroups<K(==,!new)>(g: seq<Group<K>>)
  {
    forall i, j :: 0 <= i < j < |g| ==> g[i].key != g[j].key
  }

  /** `HasGroup` and `DistinctGroups` are `HasKey` and `DistinctBy` on the group key column. */
  lemma GroupKeyColumn<K(!new)>(g: seq<Group<K>>)
    ensures forall k :: HasGroup(g, k) <==> HasKey(g, KeyOfGroup, k)
    ensures DistinctGroups(g) <==> DistinctBy(g, KeyOfGroup)
  {
    forall k ensures HasGroup(g, k) <==> HasKey(g, KeyOfGroup, k) {
      if HasGroup(g, k) {
        var i :| 0 <= i < |g| && g[i].key == k;
        assert KeyOfGroup(g[i]) == k;
      }
    }
  }

  /** The total of group `k`, or 0 when there is no such group. */
  function TotalOf<K(==,!new)>(g: seq<Group<K>>, k: K): real
  {
    if g == [] then 0.0
    else if g[0].key == k then g[0].total
    else TotalOf(g[1..], k)
  }

  /** In a key-distinct frame, each group's total is what `TotalOf` finds for its key. */
  lemma {:induction false} TotalOfAt<K(!new)>(g: seq<Group<K>>, i: nat)
    requires DistinctGroups(g) && i < |g|
    ensures TotalOf(g, g[i].key) == g[i].total
  {
    if i > 0 {
      assert g[0].key != g[i].key;
      TotalOfAt(g[1..], i - 1);
    }
  }

  /** One aggregation step: add `a` to group `k`, opening the group if it is new. */
  function AddTo<K(==,!new)>(g: seq<Group<K>>, k: K, a: real): (r: seq<Group<K>>)
    requires DistinctGroups(g)
    ensures DistinctGroups(r)
    ensures forall k' :: HasGroup(r, k') <==> HasGroup(g, k') || k' == k
    ensures forall k' :: TotalOf(r, k') == TotalOf(g, k') + (if k' == k then a else 0.0)
  {
    if g == [] then
      var r := [Group(k, a)];
      assert r[0].key == k;
      r
    else if g[0].key == k then
      var r := [Group(k, g[0].total + a)] + g[1..];
      assert forall k' :: HasGroup(r, k') <==> HasGroup(g, k') by {
        forall k' ensures HasGroup(r, k') <==> HasGroup(g, k') {
          if HasGroup(g, k') {
            var i :| 0 <= i < |g| && g[i].key == k';
            assert r[i].key == k';
          }
          if HasGroup(r, k') {
            var i :| 0 <= i < |r| && r[i].key == k';
            assert g[i].key == k';
          }
        }
      }
      r
    else
      var rest := AddTo(g[1..], k, a);
      var r := [g[0]] + rest;
      assert forall k' :: HasGroup(r, k') <==> g[0].key == k' || HasGroup(rest, k') by {
        forall k' ensures HasGroup(r, k') <==> g[0].key == k' || HasGroup(rest, k') {
          if HasGroup(rest, k') {
            var i :| 0 <= i < |rest| && rest[i].key == k';
            assert r[i + 1].key == k';
          }
          if g[0].key == k' {
            assert r[0].key == k';
          }
          if HasGroup(r, k') && g[0].key != k' {
            var i :| 0 <= i < |r| && r[i].key == k';
            assert rest[i - 1].key == k';
          }
        }
      }
      assert forall k' :: HasGroup(g, k') <==> g[0].key == k' || HasGroup(g[1..], k') by {
        forall k' ensures HasGroup(g, k') <==> g[0].key == k' || HasGroup(g[1..], k') {
          if HasGroup(g[1..], k') {
            var i :| 0 <= i < |g[1..]| && g[1..][i].key == k';
            assert g[i + 1].key == k';
          }
          if g[0].key == k' {
            assert g[0].key == k';
          }
          if HasGroup(g, k') && g[0].key != k' {
            var i :| 0 <= i < |g| && g[i].key == k';
            assert g[1..][i - 1].key == k';
          }
        }
      }
      assert !HasGroup(g[1..], g[0].key);
      r
  }

  /**
   * `group_by(key).agg(sum(amount))`: one row per distinct key of the input,
   * whose total is the sum of the amounts of the rows with that key.
   */
  function GroupSum<T, K(==,!new)>(rows: seq<T>, key: T -> K, amount: T -> real): (g: seq<Group<K>>)
    ensures DistinctGroups(g)
    ensures forall k :: HasGroup(g, k) <==> HasKey(rows, key, k)
    ensures forall k :: TotalOf(g, k) == SumWhere(rows, key, amount, k)
  {
    if rows == [] then []
    else
      var init := rows[..|rows| - 1];
      var last := rows[|rows| - 1];
      var g := AddTo(GroupSum(init, key, amount), key(last), amount(last));
      assert forall k :: HasKey(rows, key, k) <==> HasKey(init, key, k) || key(last) == k by {
        forall k ensures HasKey(rows, key, k) <==> HasKey(init, key, k) || key(last) == k {
          if HasKey(init, key, k) {
            var i :| 0 <= i < |init| && key(init[i]) == k;
            assert key(rows[i]) == k;
          }
          if HasKey(rows, key, k) && key(last) != k {
            var i :| 0 <= i < |rows| && key(rows[i]) == k;
            assert key(init[i]) == k;
          }
        }
      }
      g
  }

  /** Every group's total is the sum over its key's rows. */
  lemma GroupSumTotals<T, K(!new)>(rows: seq<T>, key: T -> K, amount: T -> real, i: nat)
    requires i < |GroupSum(rows, key, amount)|
    ensures GroupSum(rows, key, amount)[i].total == SumWhere(rows, key, amount, GroupSum(rows, key, amount)[i].key)
  {
    TotalOfAt(GroupSum(rows, key, amount), i);
  }

  /** The group-by's row order depends on the keys alone, not on what is summed. */
  lemma {:induction false} GroupSumKeys<T, K(!new)>(rows: seq<T>, key: T -> K, a1: T -> real, a2: T -> real)
    ensures |GroupSum(rows, key, a1)| == |GroupSum(rows, key, a2)|
    ensures forall i :: 0 <= i < |GroupSum(rows, key, a1)| ==>
      GroupSum(rows, key, a1)[i].key == GroupSum(rows, key, a2)[i].key
  {
    if rows != [] {
      var init := rows[..|rows| - 1];
      GroupSumKeys(init, key, a1, a2);
      var last := rows[|rows| - 1];
      AddToKeys(GroupSum(init, key, a1), GroupSum(init, key, a2), key(last), a1(last), a2(last));
    }
  }

  lemma {:induction false} AddToKeys<K(!new)>(g1: seq<Group<K>>, g2: seq<Group<K>>, k: K, a1: real, a2: real)
    requires DistinctGroups(g1) && DistinctGroups(g2)
    requires |g1| == |g2| && forall i :: 0 <= i < |g1| ==> g1[i].key == g2[i].key
    ensures |AddTo(g1, k, a1)| == |AddTo(g2, k, a2)|
    ensures forall i :: 0 <= i < |AddTo(g1, k, a1)| ==> AddTo(g1, k, a1)[i].key == AddTo(g2, k, a2)[i].key
  {
    if g1 != [] && g1[0].key != k {
      AddToKeys(g1[1..], g2[1..], k, a1, a2);
    }
  }

  /** The row predicate "the key is `k`". */
  function KeyIs<R, K(==)>(rkey: R -> K, k: K): R -> bool
  {
    r => rkey(r) == k
  }

  /** The row predicate "some row of `rows` has this row's key". */
  function KeyIn<L, R, K(==,!new)>(rows: seq<R>, rkey: R -> K, lkey: L -> K): L -> bool
  {
    l => HasKey(rows, rkey, lkey(l))
  }

  /** The row predicate "no row of `rows` has this row's key". */
  function KeyNotIn<L, R, K(==,!new)>(rows: seq<R>, rkey: R -> K, lkey: L -> K): L -> bool
  {
    l => !HasKey(rows, rkey, lkey(l))
  }

  /** The rows of `right` whose key is `k`. */
  function Matches<R, K(==,!new)>(right: seq<R>, rkey: R -> K, k: K): seq<R>
  {
    Filter(right, KeyIs(rkey, k))
  }

  /** Against a key-distinct frame, a key matches exactly its one row, or none. */
  lemma {:induction false} MatchesOfDistinct<R, K(!new)>(right: seq<R>, rkey: R -> K, k: K)
    requires DistinctBy(right, rkey)
    ensures |Matches(right, rkey, k)| == if HasKey(right, rkey, k) then 1 else 0
    ensures forall r :: r in Matches(right, rkey, k) ==> rkey(r) == k && exists j :: 0 <= j < |right| && right[j] == r
  {
    var p := KeyIs(rkey, k);
    FilterMembers(right, p);
    if right != [] {
      var init := right[..|right| - 1];
      var last := right[|right| - 1];
      assert forall i :: 0 <= i < |init| ==> init[i] == right[i];
      MatchesOfDistinct(init, rkey, k);
      if rkey(last) == k {
        assert forall i :: 0 <= i < |init| ==> rkey(init[i]) != k;
      }
      assert HasKey(right, rkey, k) <==> HasKey(init, rkey, k) || rkey(last) == k by {
        if HasKey(init, rkey, k) {
          var i :| 0 <= i < |init| && rkey(init[i]) == k;
          assert rkey(right[i]) == k;
        }
      }
      assert p(last) == (rkey(last) == k);
    }
  }

  /** `join(how = "inner")`: a pair for every left row and every right row with an equal key. */
  function InnerJoin<L, R, K(==,!new)>(left: seq<L>, right: seq<R>, lkey: L -> K, rkey: R -> K): seq<(L, R)>
  {
    if left == [] then []
    else
      var l := left[|left| - 1];
      var m := Matches(right, rkey, lkey(l));
      InnerJoin(left[..|left| - 1], right, lkey, rkey) + seq(|m|, i requires 0 <= i < |m| => (l, m[i]))
  }

  /**
   * Joined against a key-distinct frame, the inner join keeps each left row
   * whose key the right side has, once, paired with that key's right row, and
   * neither duplicates nor invents a left row.
   */
  lemma {:induction false} InnerJoinDistinct<L, R, K(!new)>(left: seq<L>, right: seq<R>, lkey: L -> K, rkey: R -> K)
    requires DistinctBy(right, rkey)
    ensures var j := InnerJoin(left, right, lkey, rkey);
      var kept := Filter(left, KeyIn(right, rkey, lkey));
      |j| == |kept| &&
      forall i :: 0 <= i < |j| ==> j[i].0 == kept[i] && j[i].1 in right && rkey(j[i].1) == lkey(j[i].0)
  {
    if left != [] {
      var init := left[..|left| - 1];
      var l := left[|left| - 1];
      InnerJoinDistinct(init, right, lkey, rkey);
      MatchesOfDistinct(right, rkey, lkey(l));
      var m := Matches(right, rkey, lkey(l));
      var kept := Filter(left, KeyIn(right, rkey, lkey));
      assert KeyIn(right, rkey, lkey)(l) == HasKey(right, rkey, lkey(l));
      assert kept == Filter(init, KeyIn(right, rkey, lkey)) + (if HasKey(right, rkey, lkey(l)) then [l] else []);
      if |m| == 1 {
        assert m[0] in m;
      }
    }
  }

  /** One row of a full outer join: either side is null when that side had no match. */
  datatype Joined<L, R> = Joined(left: Option<L>, right: Option<R>)

  function LeftRows<L, R, K(==,!new)>(left: seq<L>, right: seq<R>, lkey: L -> K, rkey: R -> K): seq<Joined<L, R>>
  {
    if left == [] then []
    else
      var l := left[|left| - 1];
      var m := Matches(right, rkey, lkey(l));
      LeftRows(left[..|left| - 1], right, lkey, rkey) +
        if m == [] then [Joined(Some(l), None)]
        else seq(|m|, i requires 0 <= i < |m| => Joined(Some(l), Some(m[i])))
  }

  function RightOnly<L, R, K(==,!new)>(left: seq<L>, right: seq<R>, lkey: L -> K, rkey: R -> K): seq<Joined<L, R>>
  {
    var unmatched := Filter(right, KeyNotIn(left, lkey, rkey));
    seq(|unmatched|, i requires 0 <= i < |unmatched| => Joined(None, Some(unmatched[i])))
  }

  /** `join(how = "outer")`: the inner join, plus every unmatched row of either side paired with null. */
  function OuterJoin<L, R, K(==,!new)>(left: seq<L>, right: seq<R>, lkey: L -> K, rkey: R -> K): seq<Joined<L, R>>
  {
    LeftRows(left, right, lkey, rkey) + RightOnly(left, right, lkey, rkey)
  }

  /** The key of an outer-join row, taken from whichever side is present (`coalesce`). */
  function CoalescedKey<L, R, K>(p: Joined<L, R>, lkey: L -> K, rkey: R -> K): K
    requires p.left.Some? || p.right.Some?
  {
    if p.left.Some? then lkey(p.left.value) else rkey(p.right.value)
  }

  /** The outer-join row is well formed for `left`/`right`: it has a side, and each present side is that key's row. */
  ghost predicate OuterRowOf<L, R, K(!new)>(p: Joined<L, R>, left: seq<L>, right: seq<R>, lkey: L -> K, rkey: R -> K)
  {
    && (p.left.Some? || p.right.Some?)
    && (p.left.Some? <==> HasKey(left, lkey, CoalescedKey(p, lkey, rkey)))
    && (p.right.Some? <==> HasKey(right, rkey, CoalescedKey(p, lkey, rkey)))
    && (p.left.Some? ==> p.left.value in left && lkey(p.left.value) == CoalescedKey(p, lkey, rkey))
    && (p.right.Some? ==> p.right.value in right && rkey(p.right.value) == CoalescedKey(p, lkey, rkey))
  }

  lemma {:induction false} LeftRowsDistinct<L, R, K(!new)>(left: seq<L>, right: seq<R>, lkey: L -> K, rkey: R -> K)
    requires DistinctBy(right, rkey)
    ensures var j := LeftRows(left, right, lkey, rkey);
      |j| == |left| &&
      forall i :: 0 <= i < |j| ==> j[i].left == Some(left[i]) && OuterRowOf(j[i], left, right, lkey, rkey)
  {
    if left != [] {
      var init := left[..|left| - 1];
      var l := left[|left| - 1];
      LeftRowsDistinct(init, right, lkey, rkey);
      MatchesOfDistinct(right, rkey, lkey(l));
      var j := LeftRows(left, right, lkey, rkey);
      forall i | 0 <= i < |j|
        ensures j[i].left == Some(left[i]) && OuterRowOf(j[i], left, right, lkey, rkey)
      {
        var k := lkey(left[i]);
        assert HasKey(left, lkey, k);
        if i < |init| {
          assert OuterRowOf(j[i], init, right, lkey, rkey);
          assert left[i] == init[i];
        } else {
          var m := Matches(right, rkey, lkey(l));
          if m != [] {
            assert m[0] in m;
          }
        }
      }
    }
  }

  lemma RightOnlyDistinct<L, R, K(!new)>(left: seq<L>, right: seq<R>, lkey: L -> K, rkey: R -> K)
    requires DistinctBy(right, rkey)
    ensures var ro := RightOnly(left, right, lkey, rkey);
      && (forall i :: 0 <= i < |ro| ==> ro[i].left.None? && ro[i].right.Some? && OuterRowOf(ro[i], left, right, lkey, rkey))
      && (forall i, i' :: 0 <= i < i' < |ro| ==> rkey(ro[i].right.value) != rkey(ro[i'].right.value))
      && (forall t :: 0 <= t < |right| && !HasKey(left, lkey, rkey(right[t])) ==>
            exists i :: 0 <= i < |ro| && ro[i].right == Some(right[t]))
  {
    var p := KeyNotIn(left, lkey, rkey);
    var unmatched := Filter(right, p);
    var ro := RightOnly(left, right, lkey, rkey);
    FilterMembers(right, p);
    FilterDistinct(right, p, rkey);
    forall i | 0 <= i < |ro|
      ensures ro[i].left.None? && ro[i].right.Some? && OuterRowOf(ro[i], left, right, lkey, rkey)
    {
      var u := unmatched[i];
      assert ro[i] == Joined(None, Some(u));
      assert u in unmatched;
      var t :| 0 <= t < |right| && right[t] == u;
      assert HasKey(right, rkey, rkey(u));
    }
    forall t | 0 <= t < |right| && !HasKey(left, lkey, rkey(right[t]))
      ensures exists i :: 0 <= i < |ro| && ro[i].right == Some(right[t])
    {
      assert p(right[t]);
      assert right[t] in unmatched;
      var i :| 0 <= i < |unmatched| && unmatched[i] == right[t];
      assert ro[i].right == Some(right[t]);
    }
  }

  /** Every row of an outer join of key-distinct frames is well formed. */
  lemma OuterJoinRows<L, R, K(!new)>(left: seq<L>, right: seq<R>, lkey: L -> K, rkey: R -> K)
    requires DistinctBy(left, lkey) && DistinctBy(right, rkey)
    ensures var j := OuterJoin(left, right, lkey, rkey);
      forall i :: 0 <= i < |j| ==> OuterRowOf(j[i], left, right, lkey, rkey)
  {
    LeftRowsDistinct(left, right, lkey, rkey);
    RightOnlyDistinct(left, right, lkey, rkey);
    var lr := LeftRows(left, right, lkey, rkey);
    var j := OuterJoin(left, right, lkey, rkey);
    assert forall i :: 0 <= i < |lr| ==> j[i] == lr[i];
    assert forall i :: |lr| <= i < |j| ==> j[i] == RightOnly(left, right, lkey, rkey)[i - |lr|];
  }

  /** An outer join of key-distinct frames has one row per key. */
  lemma OuterJoinKeysDistinct<L, R, K(!new)>(left: seq<L>, right: seq<R>, lkey: L -> K, rkey: R -> K)
    requires DistinctBy(left, lkey) && DistinctBy(right, rkey)
    ensures var j := OuterJoin(left, right, lkey, rkey);
      forall i :: 0 <= i < |j| ==> j[i].left.Some? || j[i].right.Some?
    ensures var j := OuterJoin(left, right, lkey, rkey);
      forall i, i' :: 0 <= i < i' < |j| ==> CoalescedKey(j[i], lkey, rkey) != CoalescedKey(j[i'], lkey, rkey)
  {
    var j := OuterJoin(left, right, lkey, rkey);
    OuterJoinRows(left, right, lkey, rkey);
    forall i, i' | 0 <= i < i' < |j|
      ensures CoalescedKey(j[i], lkey, rkey) != CoalescedKey(j[i'], lkey, rkey)
    {
      OuterJoinKeyPair(left, right, lkey, rkey, i, i');
    }
  }

  /** Two rows of an outer join of key-distinct frames have different keys. */
  lemma OuterJoinKeyPair<L, R, K(!new)>(left: seq<L>, right: seq<R>, lkey: L -> K, rkey: R -> K, i: nat, i': nat)
    requires DistinctBy(left, lkey) && DistinctBy(right, rkey)
    requires i < i' < |OuterJoin(left, right, lkey, rkey)|
    ensures var j := OuterJoin(left, right, lkey, rkey);
      (j[i].left.Some? || j[i].right.Some?) && (j[i'].left.Some? || j[i'].right.Some?) &&
      CoalescedKey(j[i], lkey, rkey) != CoalescedKey(j[i'], lkey, rkey)
  {
    LeftRowsDistinct(left, right, lkey, rkey);
    RightOnlyDistinct(left, right, lkey, rkey);
    var lr := LeftRows(left, right, lkey, rkey);
    var ro := RightOnly(left, right, lkey, rkey);
    var j := OuterJoin(left, right, lkey, rkey);
    if i' < |lr| {
      assert j[i] == lr[i] && j[i'] == lr[i'];
      assert CoalescedKey(j[i], lkey, rkey) == lkey(left[i]);
      assert CoalescedKey(j[i'], lkey, rkey) == lkey(left[i']);
    } else if i < |lr| {
      assert j[i] == lr[i] && j[i'] == ro[i' - |lr|];
      assert CoalescedKey(j[i], lkey, rkey) == lkey(left[i]);
      assert OuterRowOf(ro[i' - |lr|], left, right, lkey, rkey);
      assert HasKey(left, lkey, lkey(left[i]));
    } else {
      assert j[i] == ro[i - |lr|] && j[i'] == ro[i' - |lr|];
    }
  }

  /** An outer join of key-distinct frames covers exactly the union of the two key sets. */
  lemma OuterJoinCoversKeys<L, R, K(!new)>(left: seq<L>, right: seq<R>, lkey: L -> K, rkey: R -> K, k: K)
    requires DistinctBy(left, lkey) && DistinctBy(right, rkey)
    ensures var j := OuterJoin(left, right, lkey, rkey);
      HasKey(left, lkey, k) || HasKey(right, rkey, k) <==>
      exists i :: 0 <= i < |j| && (j[i].left.Some? || j[i].right.Some?) && CoalescedKey(j[i], lkey, rkey) == k
  {
    var j := OuterJoin(left, right, lkey, rkey);
    if HasKey(left, lkey, k) || HasKey(right, rkey, k) {
      var i := OuterJoinRowFor(left, right, lkey, rkey, k);
    }
    if exists i :: 0 <= i < |j| && (j[i].left.Some? || j[i].right.Some?) && CoalescedKey(j[i], lkey, rkey) == k {
      var i :| 0 <= i < |j| && (j[i].left.Some? || j[i].right.Some?) && CoalescedKey(j[i], lkey, rkey) == k;
      OuterJoinRows(left, right, lkey, rkey);
      assert OuterRowOf(j[i], left, right, lkey, rkey);
    }
  }

  /** Where key `k` of either side sits in the outer join. */
  lemma OuterJoinRowFor<L, R, K(!new)>(left: seq<L>, right: seq<R>, lkey: L -> K, rkey: R -> K, k: K) returns (i: nat)
    requires DistinctBy(left, lkey) && DistinctBy(right, rkey)
    requires HasKey(left, lkey, k) || HasKey(right, rkey, k)
    ensures var j := OuterJoin(left, right, lkey, rkey);
      i < |j| && (j[i].left.Some? || j[i].right.Some?) && CoalescedKey(j[i], lkey, rkey) == k
  {
    var lr := LeftRows(left, right, lkey, rkey);
    var j := OuterJoin(left, right, lkey, rkey);
    if HasKey(left, lkey, k) {
      i := LeftRowFor(left, right, lkey, rkey, k);
      assert j[i] == lr[i];
    } else {
      var u := RightOnlyRowFor(left, right, lkey, rkey, k);
      i := |lr| + u;
      assert j[i] == RightOnly(left, right, lkey, rkey)[u];
    }
  }

  /** Where a key of the left side sits among the left rows of the join. */
  lemma LeftRowFor<L, R, K(!new)>(left: seq<L>, right: seq<R>, lkey: L -> K, rkey: R -> K, k: K) returns (i: nat)
    requires DistinctBy(right, rkey) && HasKey(left, lkey, k)
    ensures var lr := LeftRows(left, right, lkey, rkey);
      i < |lr| && lr[i].left.Some? && lkey(lr[i].left.value) == k
  {
    LeftRowsDistinct(left, right, lkey, rkey);
    i :| 0 <= i < |left| && lkey(left[i]) == k;
  }

  /** Where a key found only on the right sits among the unmatched right rows. */
  lemma RightOnlyRowFor<L, R, K(!new)>(left: seq<L>, right: seq<R>, lkey: L -> K, rkey: R -> K, k: K) returns (u: nat)
    requires DistinctBy(right, rkey)
    requires !HasKey(left, lkey, k) && HasKey(right, rkey, k)
    ensures var ro := RightOnly(left, right, lkey, rkey);
      u < |ro| && ro[u].left.None? && ro[u].right.Some? && rkey(ro[u].right.value) == k
  {
    var ro := RightOnly(left, right, lkey, rkey);
    RightOnlyDistinct(left, right, lkey, rkey);
    var t :| 0 <= t < |right| && rkey(right[t]) == k;
    u :| 0 <= u < |ro| && ro[u].right == Some(right[t]);
  }
}
