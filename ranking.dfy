/** The order in which the board lists posts: points descending, then
    submission time descending (the store's `sort({points: -1, submittedAt: -1})`
    and the client's comparator in components/PostList.tsx). */
module Ranking {
  import opened Wrappers

  /** The two sort keys of a post. */
  datatype RankKey = RankKey(points: Option<int>, submittedAt: int)

  /** `a` has at least as many points as `b`. A missing value compares as the
      store compares null with numbers: below every number. */
  predicate PointsAtLeast(a: Option<int>, b: Option<int>) {
    match a
    case None => b.None?
    case Some(x) => b.None? || x >= b.value
  }

  /** A post with key `a` may be listed before one with key `b`: more points,
      or as many points and a submission time no earlier. */
  predicate RanksAtLeast(a: RankKey, b: RankKey) {
    && PointsAtLeast(a.points, b.points)
    && (PointsAtLeast(b.points, a.points) ==> a.submittedAt >= b.submittedAt)
  }

  /** The listing order is a total preorder: two posts tie only when both keys are equal. */
  lemma RanksAtLeastIsTotalPreorder(a: RankKey, b: RankKey, c: RankKey)
    ensures RanksAtLeast(a, a)
    ensures RanksAtLeast(a, b) || RanksAtLeast(b, a)
    ensures RanksAtLeast(a, b) && RanksAtLeast(b, a) ==> a == b
    ensures RanksAtLeast(a, b) && RanksAtLeast(b, c) ==> RanksAtLeast(a, c)
  {
  }

  /** `s` is listed in ranking order. */
  predicate SortedBy<T>(s: seq<T>, key: T -> RankKey) {
    forall i, j :: 0 <= i < j < |s| ==> RanksAtLeast(key(s[i]), key(s[j]))
  }

  /** Puts `x` into the sorted `s` ahead of the first element it ranks at least
      as high as, so that `x` comes before the elements it ties with. */
  function Insert<T(==)>(x: T, s: seq<T>, key: T -> RankKey): (r: seq<T>)
    requires SortedBy(s, key)
    ensures SortedBy(r, key)
    ensures multiset(r) == multiset(s) + multiset{x}
  {
    if s == [] then [x]
    else if RanksAtLeast(key(x), key(s[0])) then [x] + s
    else
      var rest := Insert(x, s[1..], key);
      assert s == [s[0]] + s[1..];
      assert forall k :: 0 <= k < |rest| ==> RanksAtLeast(key(s[0]), key(rest[k])) by {
        forall k | 0 <= k < |rest| ensures RanksAtLeast(key(s[0]), key(rest[k])) {
          assert rest[k] in multiset(rest);
          if rest[k] != x {
            assert rest[k] in multiset(s[1..]);
            var m :| 0 <= m < |s[1..]| && s[1..][m] == rest[k];
            assert s[1 + m] == rest[k];
          } else {
            RanksAtLeastIsTotalPreorder(key(x), key(s[0]), key(s[0]));
          }
        }
      }
      [s[0]] + rest
  }

  /** An insertion sort: the result is in ranking order and is a permutation of `s`. */
  function SortBy<T(==)>(s: seq<T>, key: T -> RankKey): (r: seq<T>)
    ensures SortedBy(r, key)
    ensures multiset(r) == multiset(s) && |r| == |s|
  {
    if s == [] then []
    else
      assert s == [s[0]] + s[1..];
      Insert(s[0], SortBy(s[1..], key), key)
  }

  /** Sorting what is already in ranking order changes nothing: the sort is
      stable, so ties keep their places. */
  lemma {:induction false} SortSortedIsIdentity<T>(s: seq<T>, key: T -> RankKey)
    requires SortedBy(s, key)
    ensures SortBy(s, key) == s
  {
    if s != [] {
      assert SortedBy(s[1..], key);
      SortSortedIsIdentity(s[1..], key);
      assert s == [s[0]] + s[1..];
    }
  }
}
