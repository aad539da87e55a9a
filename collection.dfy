/** The document store as the handlers use it: a collection is the sequence
    of its records in insertion order; `find` selects the records matching a
    query, `update` rewrites them, `remove` drops them, and `sort` orders a
    result by one string field. The query engine itself is not modelled;
    only what each operation returns or leaves behind. */
module Collection {
  import Strings

  /** `find(query)`: the matching records, in collection order. */
  function Filter<T(==,!new)>(s: seq<T>, matches: T -> bool): (r: seq<T>)
    ensures |r| <= |s|
    ensures forall x :: x in r <==> x in s && matches(x)
    ensures forall x :: multiset(r)[x] == if matches(x) then multiset(s)[x] else 0
  {
    if s == [] then []
    else
      var rest := Filter(s[1..], matches);
      assert s == [s[0]] + s[1..];
      if matches(s[0]) then [s[0]] + rest else rest
  }

  /** `update(query, change)` over every matching record: each matching
      record is replaced by its changed version in place, the others stay. */
  function UpdateWhere<T>(s: seq<T>, matches: T -> bool, change: T -> T): (r: seq<T>)
    ensures |r| == |s|
    ensures forall i :: 0 <= i < |s| ==> r[i] == if matches(s[i]) then change(s[i]) else s[i]
  {
    if s == [] then []
    else [if matches(s[0]) then change(s[0]) else s[0]] + UpdateWhere(s[1..], matches, change)
  }

  datatype Direction = Ascending | Descending

  /** `a` may stand before `b` in a result sorted in direction `dir`. */
  predicate InOrder(dir: Direction, a: string, b: string)
  {
    if dir == Ascending then Strings.LessEq(a, b) else Strings.LessEq(b, a)
  }

  /** Every record's key is in order with the next one's. */
  predicate SortedBy<T>(s: seq<T>, key: T -> string, dir: Direction)
  {
    forall i :: 0 < i < |s| ==> InOrder(dir, key(s[i - 1]), key(s[i]))
  }

  lemma InOrderTotal(dir: Direction, a: string, b: string)
    ensures InOrder(dir, a, b) || InOrder(dir, b, a)
  {
    Strings.LessEqTotal(a, b);
  }

  /** Adjacent order gives order between any two positions. */
  lemma {:induction false} SortedPairwise<T>(s: seq<T>, key: T -> string, dir: Direction, i: int, j: int)
    requires SortedBy(s, key, dir)
    requires 0 <= i < j < |s|
    ensures InOrder(dir, key(s[i]), key(s[j]))
  {
    if i + 1 < j {
      SortedPairwise(s, key, dir, i, j - 1);
      if dir == Ascending {
        Strings.LessEqTransitive(key(s[i]), key(s[j - 1]), key(s[j]));
      } else {
        Strings.LessEqTransitive(key(s[j]), key(s[j - 1]), key(s[i]));
      }
    }
  }

  /** Insert `x` into a sorted sequence before the first record it may precede. */
  function InsertBy<T(==)>(x: T, s: seq<T>, key: T -> string, dir: Direction): (r: seq<T>)
    requires SortedBy(s, key, dir)
    ensures |r| == |s| + 1
    ensures r[0] == x || (|s| > 0 && r[0] == s[0])
    ensures SortedBy(r, key, dir)
    ensures multiset(r) == multiset(s) + multiset{x}
  {
    if s == [] then [x]
    else if InOrder(dir, key(x), key(s[0])) then [x] + s
    else
      InOrderTotal(dir, key(x), key(s[0]));
      var rest := InsertBy(x, s[1..], key, dir);
      assert s == [s[0]] + s[1..];
      [s[0]] + rest
  }

  /** `sort(field, 1)` / `sort(field, -1)`: the same records, ordered by key. */
  function SortBy<T(==)>(s: seq<T>, key: T -> string, dir: Direction): (r: seq<T>)
    ensures |r| == |s|
    ensures SortedBy(r, key, dir)
    ensures forall i, j :: 0 <= i < j < |r| ==> InOrder(dir, key(r[i]), key(r[j]))
    ensures multiset(r) == multiset(s)
  {
    if s == [] then []
    else
      assert s == [s[0]] + s[1..];
      var r := InsertBy(s[0], SortBy(s[1..], key, dir), key, dir);
      forall i, j | 0 <= i < j < |r| ensures InOrder(dir, key(r[i]), key(r[j])) {
        SortedPairwise(r, key, dir, i, j);
      }
      r
  }
}
