/** What std::ranges::sort promises, and no more: the result is a permutation of the
    input in which no element sorts before an earlier one. The order it leaves among
    elements that compare equal is unspecified, so nothing here states one.

    `le(a, b)` is the complement of the comparator with its arguments swapped
    (`!comp(b, a)`); for a strict weak ordering `comp` it is a total preorder. */
module Sorting {

  ghost predicate TotalPreorder<T(!new)>(le: (T, T) -> bool)
  {
    && (forall a, b :: le(a, b) || le(b, a))
    && (forall a, b, c :: le(a, b) && le(b, c) ==> le(a, c))
  }

  predicate SortedBy<T>(s: seq<T>, le: (T, T) -> bool)
  {
    forall i, j :: 0 <= i < j < |s| ==> le(s[i], s[j])
  }

  function Insert<T>(x: T, s: seq<T>, le: (T, T) -> bool): (r: seq<T>)
    ensures multiset(r) == multiset(s) + multiset{x}
    ensures |r| == |s| + 1
  {
    if s == [] || le(x, s[0]) then [x] + s
    else
      assert s == [s[0]] + s[1..];
      [s[0]] + Insert(x, s[1..], le)
  }

  /** A sort by `le`; only its permutation and ordering properties are relied upon. */
  function SortBy<T>(s: seq<T>, le: (T, T) -> bool): (r: seq<T>)
    ensures multiset(r) == multiset(s)
    ensures |r| == |s|
  {
    if s == [] then []
    else
      assert s == [s[0]] + s[1..];
      Insert(s[0], SortBy(s[1..], le), le)
  }

  lemma InsertMember<T>(x: T, s: seq<T>, le: (T, T) -> bool, y: T)
    requires y in Insert(x, s, le)
    ensures y == x || y in s
  {
    assert y in multiset(Insert(x, s, le));
  }

  lemma {:induction false} InsertSorted<T(!new)>(x: T, s: seq<T>, le: (T, T) -> bool)
    requires TotalPreorder(le)
    requires SortedBy(s, le)
    ensures SortedBy(Insert(x, s, le), le)
  {
    if s != [] && !le(x, s[0]) {
      InsertSorted(x, s[1..], le);
      var r := Insert(x, s[1..], le);
      forall j | 0 <= j < |r| ensures le(s[0], r[j]) {
        InsertMember(x, s[1..], le, r[j]);
      }
    }
  }

  lemma {:induction false} SortBySorted<T(!new)>(s: seq<T>, le: (T, T) -> bool)
    requires TotalPreorder(le)
    ensures SortedBy(SortBy(s, le), le)
  {
    if s != [] {
      SortBySorted(s[1..], le);
      InsertSorted(s[0], SortBy(s[1..], le), le);
    }
  }

  ghost predicate KeysDistinct<T, K>(s: seq<T>, key: T -> K)
  {
    forall i, j :: 0 <= i < j < |s| ==> key(s[i]) != key(s[j])
  }

  lemma ConsKeysDistinct<T, K>(y: T, t: seq<T>, key: T -> K)
    requires KeysDistinct(t, key)
    requires forall z :: z in t ==> key(z) != key(y)
    ensures KeysDistinct([y] + t, key)
  {
    var r := [y] + t;
    forall i, j | 0 <= i < j < |r| ensures key(r[i]) != key(r[j]) {
      assert r[j] == t[j - 1];
      if i > 0 {
        assert r[i] == t[i - 1];
      } else {
        assert t[j - 1] in t;
      }
    }
  }

  lemma {:induction false} InsertKeepsKeysDistinct<T, K>(x: T, s: seq<T>, le: (T, T) -> bool, key: T -> K)
    requires KeysDistinct(s, key)
    requires forall y :: y in s ==> key(y) != key(x)
    ensures KeysDistinct(Insert(x, s, le), key)
  {
    if s != [] && !le(x, s[0]) {
      assert KeysDistinct(s[1..], key);
      InsertKeepsKeysDistinct(x, s[1..], le, key);
      var r' := Insert(x, s[1..], le);
      forall z | z in r' ensures key(z) != key(s[0]) {
        InsertMember(x, s[1..], le, z);
        if z != x {
          var k :| 0 <= k < |s[1..]| && s[1..][k] == z;
          assert s[k + 1] == z;
        }
      }
      ConsKeysDistinct(s[0], r', key);
    } else {
      ConsKeysDistinct(x, s, key);
    }
  }

  /** Sorting keeps pairwise-distinct keys pairwise distinct. */
  lemma {:induction false} SortByKeepsKeysDistinct<T, K>(s: seq<T>, le: (T, T) -> bool, key: T -> K)
    requires KeysDistinct(s, key)
    ensures KeysDistinct(SortBy(s, le), key)
  {
    if s != [] {
      assert KeysDistinct(s[1..], key);
      SortByKeepsKeysDistinct(s[1..], le, key);
      forall y | y in SortBy(s[1..], le) ensures key(y) != key(s[0]) {
        assert y in multiset(SortBy(s[1..], le));
        var k :| 0 <= k < |s[1..]| && s[1..][k] == y;
        assert s[k + 1] == y;
      }
      InsertKeepsKeysDistinct(s[0], SortBy(s[1..], le), le, key);
    }
  }

  /** Stated once so that provers need not rediscover it in a crowded context. */
  lemma AppendAssociative<T>(a: seq<T>, b: seq<T>, c: seq<T>)
    ensures a + b + c == a + (b + c)
  {
  }

  /** The concatenation of f over the elements of s, in order. */
  function ConcatMap<T, U>(s: seq<T>, f: T -> seq<U>): seq<U>
  {
    if s == [] then [] else f(s[0]) + ConcatMap(s[1..], f)
  }

  lemma {:induction false} ConcatMapInsert<T, U>(x: T, s: seq<T>, le: (T, T) -> bool, f: T -> seq<U>)
    ensures multiset(ConcatMap(Insert(x, s, le), f)) == multiset(f(x)) + multiset(ConcatMap(s, f))
  {
    if s != [] && !le(x, s[0]) {
      ConcatMapInsert(x, s[1..], le, f);
    }
  }

  /** Sorting the groups does not change the multiset of their concatenated contents. */
  lemma {:induction false} ConcatMapSortBy<T, U>(s: seq<T>, le: (T, T) -> bool, f: T -> seq<U>)
    ensures multiset(ConcatMap(SortBy(s, le), f)) == multiset(ConcatMap(s, f))
  {
    if s != [] {
      ConcatMapSortBy(s[1..], le, f);
      ConcatMapInsert(s[0], SortBy(s[1..], le), le, f);
    }
  }

  lemma {:induction false} ConcatMapConcat<T, U>(a: seq<T>, b: seq<T>, f: T -> seq<U>)
    ensures ConcatMap(a + b, f) == ConcatMap(a, f) + ConcatMap(b, f)
  {
    if a == [] {
      assert a + b == b;
    } else {
      assert (a + b)[1..] == a[1..] + b;
      ConcatMapConcat(a[1..], b, f);
    }
  }

  lemma ConcatMapSingle<T, U>(x: T, f: T -> seq<U>)
    ensures ConcatMap([x], f) == f(x)
  {
    assert ConcatMap([x], f) == f(x) + ConcatMap([x][1..], f);
  }

  /** The concatenation around the k-th element. */
  lemma ConcatMapSplit<T, U>(s: seq<T>, k: int, f: T -> seq<U>)
    requires 0 <= k < |s|
    ensures ConcatMap(s, f) == ConcatMap(s[..k], f) + f(s[k]) + ConcatMap(s[k + 1..], f)
  {
    assert s == s[..k] + [s[k]] + s[k + 1..];
    ConcatMapConcat(s[..k] + [s[k]], s[k + 1..], f);
    ConcatMapConcat(s[..k], [s[k]], f);
    ConcatMapSingle(s[k], f);
  }

  /** Replacing each group by one with the same multiset of contents keeps the
      multiset of the concatenation. */
  lemma {:induction false} ConcatMapPointwise<T, U>(a: seq<T>, b: seq<T>, f: T -> seq<U>)
    requires |a| == |b|
    requires forall j :: 0 <= j < |a| ==> multiset(f(a[j])) == multiset(f(b[j]))
    ensures multiset(ConcatMap(a, f)) == multiset(ConcatMap(b, f))
  {
    if a != [] {
      ConcatMapPointwise(a[1..], b[1..], f);
    }
  }
}
