/**
 * The `sort` step of the reports and of the generator's chunk files.
 *
 * Every sort in the system orders rows ascending by a list of string columns.
 * A row's sort key is that list of cells; a cell is null when the column
 * holds a null, and nulls sort after every string. Strings compare
 * lexicographically by code point, so "10" sorts before "2".
 *
 * The engines do not promise a stable sort, so a report is specified as ANY
 * ordering of its rows that is sorted by the key; `SortBy` (an insertion sort)
 * is one such ordering and is proved to be sorted and a permutation.
 */
module Sorting {
  import opened Wrappers

  type SortKey = seq<Option<string>>

  /** Lexicographic order on strings (a proper prefix sorts first). */
  predicate StrLe(a: string, b: string)
    decreases |a|
  {
    if a == [] then true
    else if b == [] then false
    else if a[0] != b[0] then a[0] < b[0]
    else StrLe(a[1..], b[1..])
  }

  lemma {:induction false} StrLeTotal(a: string, b: string)
    ensures StrLe(a, b) || StrLe(b, a)
    decreases |a|
  {
    if a != [] && b != [] && a[0] == b[0] {
      StrLeTotal(a[1..], b[1..]);
    }
  }

  lemma {:induction false} StrLeTransitive(a: string, b: string, c: string)
    requires StrLe(a, b) && StrLe(b, c)
    ensures StrLe(a, c)
    decreases |a|
  {
    if a != [] && b != [] && c != [] && a[0] == b[0] && b[0] == c[0] {
      StrLeTransitive(a[1..], b[1..], c[1..]);
    }
  }

  lemma {:induction false} StrLeAntisymmetric(a: string, b: string)
    requires StrLe(a, b) && StrLe(b, a)
    ensures a == b
    decreases |a|
  {
    if a != [] {
      StrLeAntisymmetric(a[1..], b[1..]);
    }
  }

  /** Order on cells: strings by `StrLe`, null after every string. */
  predicate CellLe(a: Option<string>, b: Option<string>)
  {
    match (a, b)
    case (Some(x), Some(y)) => StrLe(x, y)
    case (Some(_), None) => true
    case (None, Some(_)) => false
    case (None, None) => true
  }

  /** Lexicographic order on sort keys, column by column. */
  predicate KeyLe(a: SortKey, b: SortKey)
    decreases |a|
  {
    if a == [] then true
    else if b == [] then false
    else if a[0] == b[0] then KeyLe(a[1..], b[1..])
    else CellLe(a[0], b[0])
  }

  lemma CellLeTotal(a: Option<string>, b: Option<string>)
    ensures CellLe(a, b) || CellLe(b, a)
  {
    if a.Some? && b.Some? {
      StrLeTotal(a.value, b.value);
    }
  }

  lemma CellLeTransitive(a: Option<string>, b: Option<string>, c: Option<string>)
    requires CellLe(a, b) && CellLe(b, c)
    ensures CellLe(a, c)
  {
    if a.Some? && b.Some? && c.Some? {
      StrLeTransitive(a.value, b.value, c.value);
    }
  }

  lemma CellLeAntisymmetric(a: Option<string>, b: Option<string>)
    requires CellLe(a, b) && CellLe(b, a)
    ensures a == b
  {
    if a.Some? && b.Some? {
      StrLeAntisymmetric(a.value, b.value);
    }
  }

  lemma {:induction false} KeyLeTotal(a: SortKey, b: SortKey)
    ensures KeyLe(a, b) || KeyLe(b, a)
    decreases |a|
  {
    if a != [] && b != [] {
      if a[0] == b[0] {
        KeyLeTotal(a[1..], b[1..]);
      } else {
        CellLeTotal(a[0], b[0]);
      }
    }
  }

  lemma {:induction false} KeyLeTransitive(a: SortKey, b: SortKey, c: SortKey)
    requires KeyLe(a, b) && KeyLe(b, c)
    ensures KeyLe(a, c)
    decreases |a|
  {
    if a != [] && b != [] && c != [] {
      if a[0] == b[0] && b[0] == c[0] {
        KeyLeTransitive(a[1..], b[1..], c[1..]);
      } else if a[0] == b[0] {
        assert CellLe(b[0], c[0]);
      } else if b[0] == c[0] {
        assert CellLe(a[0], b[0]);
      } else {
        CellLeTransitive(a[0], b[0], c[0]);
        if a[0] == c[0] {
          CellLeAntisymmetric(a[0], b[0]);
        }
      }
    }
  }

  /** `s` is in ascending order of `key`. */
  ghost predicate Sorted<T>(s: seq<T>, key: T -> SortKey)
  {
    forall i, j :: 0 <= i < j < |s| ==> KeyLe(key(s[i]), key(s[j]))
  }

  /** `out` is a valid result of sorting `s` by `key`: the same rows, in key order. */
  ghost predicate IsSortedPermutation<T>(out: seq<T>, s: seq<T>, key: T -> SortKey)
  {
    Sorted(out, key) && multiset(out) == multiset(s)
  }

  function Insert<T>(x: T, s: seq<T>, key: T -> SortKey): seq<T>
  {
    if s == [] then [x]
    else if KeyLe(key(x), key(s[0])) then [x] + s
    else [s[0]] + Insert(x, s[1..], key)
  }

  /** The sorted order this model picks; any order the engines may produce is characterised by `IsSortedPermutation`. */
  function SortBy<T>(s: seq<T>, key: T -> SortKey): seq<T>
  {
    if s == [] then [] else Insert(s[0], SortBy(s[1..], key), key)
  }

  lemma {:induction false} InsertPermutation<T>(x: T, s: seq<T>, key: T -> SortKey)
    ensures multiset(Insert(x, s, key)) == multiset(s) + multiset{x}
  {
    if s != [] && !KeyLe(key(x), key(s[0])) {
      InsertPermutation(x, s[1..], key);
      assert s == [s[0]] + s[1..];
    }
  }

  /** A row in front of a sorted sequence keeps it sorted when it is at most every row there. */
  lemma ConsSorted<T>(h: T, s: seq<T>, key: T -> SortKey)
    requires Sorted(s, key)
    requires forall j :: 0 <= j < |s| ==> KeyLe(key(h), key(s[j]))
    ensures Sorted([h] + s, key)
  {
    var r := [h] + s;
    forall i, j | 0 <= i < j < |r|
      ensures KeyLe(key(r[i]), key(r[j]))
    {
      assert r[j] == s[j - 1];
      if i > 0 {
        assert r[i] == s[i - 1];
      }
    }
  }

  /** Every row of `Insert(x, s)` is `x` or a row of `s`. */
  lemma InsertMembers<T>(x: T, s: seq<T>, key: T -> SortKey)
    ensures forall y :: y in Insert(x, s, key) ==> y == x || y in s
  {
    InsertPermutation(x, s, key);
    forall y | y in Insert(x, s, key)
      ensures y == x || y in s
    {
      assert y in multiset(Insert(x, s, key));
    }
  }

  lemma {:induction false} InsertSorted<T>(x: T, s: seq<T>, key: T -> SortKey)
    requires Sorted(s, key)
    ensures Sorted(Insert(x, s, key), key)
  {
    if s == [] {
    } else if KeyLe(key(x), key(s[0])) {
      forall j | 0 <= j < |s|
        ensures KeyLe(key(x), key(s[j]))
      {
        if j > 0 {
          KeyLeTransitive(key(x), key(s[0]), key(s[j]));
        }
      }
      ConsSorted(x, s, key);
    } else {
      var tail := s[1..];
      var rest := Insert(x, tail, key);
      InsertSorted(x, tail, key);
      InsertMembers(x, tail, key);
      KeyLeTotal(key(x), key(s[0]));
      forall j | 0 <= j < |rest|
        ensures KeyLe(key(s[0]), key(rest[j]))
      {
        assert rest[j] in rest;
        if rest[j] != x {
          var k :| 0 <= k < |tail| && tail[k] == rest[j];
          assert s[k + 1] == rest[j];
        }
      }
      ConsSorted(s[0], rest, key);
    }
  }

  /** `SortBy` returns the input rows, in ascending key order. */
  lemma {:induction false} SortByCorrect<T>(s: seq<T>, key: T -> SortKey)
    ensures IsSortedPermutation(SortBy(s, key), s, key)
  {
    if s != [] {
      SortByCorrect(s[1..], key);
      InsertSorted(s[0], SortBy(s[1..], key), key);
      InsertPermutation(s[0], SortBy(s[1..], key), key);
      assert s == [s[0]] + s[1..];
    }
  }
}
