/**
 * The list operations both programs lean on, each with the property its
 * built-in counterpart promises: `Array.prototype.filter` (Where),
 * `reduce` with `+` (SumOf), a stable comparison sort (`Array.prototype.sort`
 * and Python's `list.sort`, InsertionSort) and "keep the first item per key"
 * (Dedupe: a JavaScript `Set` fed in order, or a Python `seen` set).
 */
module Lists {

  // ---------------------------------------------------------------- filter

  /** `s.filter(p)`: the elements satisfying `p`, in their original order. */
  function Where<T>(s: seq<T>, p: T -> bool): (r: seq<T>)
    ensures |r| <= |s|
  {
    if s == [] then [] else (if p(s[0]) then [s[0]] else []) + Where(s[1..], p)
  }

  /** `a` can be obtained from `b` by deleting elements: the order is kept. */
  ghost predicate SubsequenceOf<T>(a: seq<T>, b: seq<T>)
    decreases |b|
  {
    a == [] || (b != [] && (if a[0] == b[0] then SubsequenceOf(a[1..], b[1..]) else SubsequenceOf(a, b[1..])))
  }

  lemma {:induction false} WhereSubsequence<T>(s: seq<T>, p: T -> bool)
    ensures SubsequenceOf(Where(s, p), s)
    decreases |s|
  {
    if s != [] {
      WhereSubsequence(s[1..], p);
      if p(s[0]) {
        assert Where(s, p) == [s[0]] + Where(s[1..], p);
        assert Where(s, p)[1..] == Where(s[1..], p);
      } else {
        assert Where(s, p) == Where(s[1..], p);
        SubsequenceSkip(Where(s, p), s);
      }
    }
  }

  /** Every element of a subsequence is an element of the whole. */
  lemma {:induction false} SubsequenceMember<T>(a: seq<T>, b: seq<T>, x: T)
    requires SubsequenceOf(a, b) && x in a
    ensures x in b
    decreases |b|
  {
    if a[0] == b[0] {
      if x != a[0] {
        assert x in a[1..];
        SubsequenceMember(a[1..], b[1..], x);
      }
    } else {
      SubsequenceMember(a, b[1..], x);
    }
  }

  lemma {:induction false} SubsequenceSkip<T>(a: seq<T>, b: seq<T>)
    requires b != [] && SubsequenceOf(a, b[1..])
    ensures SubsequenceOf(a, b)
    decreases |b|, 1
  {
    if a != [] && a[0] == b[0] {
      SubsequenceDropHead(a, b[1..]);
    }
  }

  lemma {:induction false} SubsequenceDropHead<T>(a: seq<T>, b: seq<T>)
    requires a != [] && SubsequenceOf(a, b)
    ensures SubsequenceOf(a[1..], b)
    decreases |b| + 1, 0
  {
    if a[0] == b[0] {
      SubsequenceSkip(a[1..], b);
    } else {
      SubsequenceDropHead(a, b[1..]);
      SubsequenceSkip(a[1..], b);
    }
  }

  /** Each element occurs in the filtered list exactly as often as in the input if it passes, else never. */
  lemma {:induction false} WhereCount<T>(s: seq<T>, p: T -> bool, x: T)
    ensures multiset(Where(s, p))[x] == if p(x) then multiset(s)[x] else 0
    decreases |s|
  {
    if s != [] {
      WhereCount(s[1..], p, x);
      assert s == [s[0]] + s[1..];
      assert multiset(s) == multiset([s[0]]) + multiset(s[1..]);
    }
  }

  lemma WhereMember<T>(s: seq<T>, p: T -> bool, x: T)
    ensures x in Where(s, p) <==> x in s && p(x)
  {
    WhereCount(s, p, x);
  }

  /** Filtering twice is filtering once by the conjunction. */
  lemma {:induction false} WhereWhere<T>(s: seq<T>, p: T -> bool, q: T -> bool, pq: T -> bool)
    requires forall x :: pq(x) == (p(x) && q(x))
    ensures Where(Where(s, p), q) == Where(s, pq)
    decreases |s|
  {
    if s != [] {
      WhereWhere(s[1..], p, q, pq);
      var head := if p(s[0]) then [s[0]] else [];
      WhereAppend(head, Where(s[1..], p), q);
    }
  }

  lemma {:induction false} WhereAppend<T>(a: seq<T>, b: seq<T>, p: T -> bool)
    ensures Where(a + b, p) == Where(a, p) + Where(b, p)
    decreases |a|
  {
    if a != [] {
      assert (a + b)[0] == a[0] && (a + b)[1..] == a[1..] + b;
      WhereAppend(a[1..], b, p);
      assert Where(a + b, p) == (if p(a[0]) then [a[0]] else []) + Where(a[1..] + b, p);
      assert Where(a, p) == (if p(a[0]) then [a[0]] else []) + Where(a[1..], p);
    } else {
      assert a + b == b;
    }
  }

  /** A filter that every element passes changes nothing. */
  lemma {:induction false} WhereAll<T>(s: seq<T>, p: T -> bool)
    requires forall x :: x in s ==> p(x)
    ensures Where(s, p) == s
    decreases |s|
  {
    if s != [] {
      WhereAll(s[1..], p);
    }
  }

  /** Filters that agree on every element of the list give the same result. */
  lemma {:induction false} WhereSame<T>(s: seq<T>, p: T -> bool, q: T -> bool)
    requires forall x :: x in s ==> p(x) == q(x)
    ensures Where(s, p) == Where(s, q)
    decreases |s|
  {
    if s != [] {
      WhereSame(s[1..], p, q);
    }
  }

  // ---------------------------------------------------------------- sums

  /** `s.reduce((sum, x) => sum + f(x), 0)`. */
  function SumOf<T>(f: T -> int, s: seq<T>): int {
    if s == [] then 0 else f(s[0]) + SumOf(f, s[1..])
  }

  lemma {:induction false} SumOfAppend<T>(f: T -> int, a: seq<T>, b: seq<T>)
    ensures SumOf(f, a + b) == SumOf(f, a) + SumOf(f, b)
    decreases |a|
  {
    if a != [] {
      assert (a + b)[0] == a[0] && (a + b)[1..] == a[1..] + b;
      SumOfAppend(f, a[1..], b);
      assert SumOf(f, a + b) == f(a[0]) + SumOf(f, a[1..] + b);
    } else {
      assert a + b == b;
    }
  }

  /** Replacing one element changes the sum by the difference of the two terms. */
  lemma {:induction false} SumOfUpdate<T>(f: T -> int, s: seq<T>, i: nat, x: T)
    requires i < |s|
    ensures SumOf(f, s[i := x]) == SumOf(f, s) - f(s[i]) + f(x)
    decreases |s|
  {
    if i > 0 {
      assert s[i := x][1..] == s[1..][i - 1 := x];
      SumOfUpdate(f, s[1..], i - 1, x);
    }
  }

  /** Every term non-negative: so is the sum. */
  lemma {:induction false} SumOfNonNegative<T>(f: T -> int, s: seq<T>)
    requires forall x :: x in s ==> f(x) >= 0
    ensures SumOf(f, s) >= 0
    decreases |s|
  {
    if s != [] {
      SumOfNonNegative(f, s[1..]);
    }
  }

  // ---------------------------------------------------------------- stable sort

  /** `le(a, b)`: `a` may come before `b` (the comparator returns a value <= 0). */
  ghost predicate TotalPreorder<T(!new)>(le: (T, T) -> bool) {
    (forall a, b :: le(a, b) || le(b, a))
    && (forall a, b, c :: le(a, b) && le(b, c) ==> le(a, c))
  }

  ghost predicate SortedBy<T>(le: (T, T) -> bool, s: seq<T>) {
    forall i, j :: 0 <= i < j < |s| ==> le(s[i], s[j])
  }

  /** Neither of `a`, `b` goes strictly before the other: the comparator returns 0. */
  predicate Tie<T>(le: (T, T) -> bool, a: T, b: T) {
    le(a, b) && le(b, a)
  }

  /** The elements of `s` that tie with `x`, in their order in `s`. */
  function TiesWith<T>(le: (T, T) -> bool, x: T, s: seq<T>): seq<T> {
    Where(s, y => Tie(le, x, y))
  }

  /** Inserts `x` before the first element it may precede. */
  function Insert<T>(le: (T, T) -> bool, x: T, s: seq<T>): (r: seq<T>)
    ensures multiset(r) == multiset(s) + multiset{x}
    ensures |r| == |s| + 1
  {
    if s == [] then [x]
    else if le(x, s[0]) then [x] + s
    else
      assert s == [s[0]] + s[1..];
      [s[0]] + Insert(le, x, s[1..])
  }

  /**
   * A stable sort: sorts the tail, then inserts the head in front of
   * every element it ties with, so equal elements keep their input order.
   */
  function InsertionSort<T>(le: (T, T) -> bool, s: seq<T>): seq<T> {
    if s == [] then [] else Insert(le, s[0], InsertionSort(le, s[1..]))
  }

  /** The sort returns a permutation of its input. */
  lemma {:induction false} SortPermutes<T>(le: (T, T) -> bool, s: seq<T>)
    ensures multiset(InsertionSort(le, s)) == multiset(s)
    ensures |InsertionSort(le, s)| == |s|
    decreases |s|
  {
    if s != [] {
      SortPermutes(le, s[1..]);
      assert s == [s[0]] + s[1..];
    }
  }

  /** A sorted sequence stays sorted when an element that may precede all of it goes in front. */
  lemma SortedCons<T>(le: (T, T) -> bool, a: T, r: seq<T>)
    requires SortedBy(le, r) && forall e :: e in r ==> le(a, e)
    ensures SortedBy(le, [a] + r)
  {
    var t := [a] + r;
    forall i, j | 0 <= i < j < |t| ensures le(t[i], t[j]) {
      assert t[j] == r[j - 1];
      if i == 0 {
        assert r[j - 1] in r;
      } else {
        assert t[i] == r[i - 1];
      }
    }
  }

  lemma {:induction false} InsertSorted<T(!new)>(le: (T, T) -> bool, x: T, s: seq<T>)
    requires TotalPreorder(le) && SortedBy(le, s)
    ensures SortedBy(le, Insert(le, x, s))
    decreases |s|
  {
    if s == [] {
    } else if le(x, s[0]) {
      forall e | e in s ensures le(x, e) {
        var j :| 0 <= j < |s| && s[j] == e;
        if j > 0 { assert le(s[0], s[j]); }
      }
      SortedCons(le, x, s);
    } else {
      InsertSorted(le, x, s[1..]);
      var r := Insert(le, x, s[1..]);
      forall e | e in r ensures le(s[0], e) {
        assert e in multiset(r);
        if e != x {
          assert e in s[1..];
          var j :| 0 <= j < |s[1..]| && s[1..][j] == e;
          assert s[j + 1] == e;
        }
      }
      SortedCons(le, s[0], r);
    }
  }

  /** For a comparator that is a total preorder, the output is in order. */
  lemma {:induction false} SortSorted<T(!new)>(le: (T, T) -> bool, s: seq<T>)
    requires TotalPreorder(le)
    ensures SortedBy(le, InsertionSort(le, s))
    decreases |s|
  {
    if s != [] {
      SortSorted(le, s[1..]);
      InsertSorted(le, s[0], InsertionSort(le, s[1..]));
    }
  }

  lemma {:induction false} InsertTies<T(!new)>(le: (T, T) -> bool, x: T, y: T, s: seq<T>)
    requires TotalPreorder(le)
    ensures TiesWith(le, x, Insert(le, y, s)) == (if Tie(le, x, y) then [y] else []) + TiesWith(le, x, s)
    decreases |s|
  {
    var p := z => Tie(le, x, z);
    var head := if Tie(le, x, y) then [y] else [];
    if s == [] {
      assert Insert(le, y, s) == [y];
      assert Where([y], p) == head + Where([], p);
    } else if le(y, s[0]) {
      WhereAppend([y], s, p);
    } else {
      InsertTies(le, x, y, s[1..]);
      var rest := Insert(le, y, s[1..]);
      assert Insert(le, y, s) == [s[0]] + rest;
      WhereAppend([s[0]], rest, p);
      assert s == [s[0]] + s[1..];
      WhereAppend([s[0]], s[1..], p);
      if Tie(le, x, y) {
        assert !Tie(le, x, s[0]);
      }
    }
  }

  /**
   * Stability: for every value `x`, the elements that tie with `x` appear
   * in the output in exactly the order they have in the input.
   */
  lemma {:induction false} SortStable<T(!new)>(le: (T, T) -> bool, s: seq<T>, x: T)
    requires TotalPreorder(le)
    ensures TiesWith(le, x, InsertionSort(le, s)) == TiesWith(le, x, s)
    decreases |s|
  {
    if s != [] {
      SortStable(le, s[1..], x);
      InsertTies(le, x, s[0], InsertionSort(le, s[1..]));
    }
  }

  /** No element occurs twice. */
  ghost predicate Distinct<T>(s: seq<T>) {
    forall i, j :: 0 <= i < j < |s| ==> s[i] != s[j]
  }

  lemma {:induction false} DistinctCountsOne<T>(s: seq<T>)
    requires Distinct(s)
    ensures forall x :: multiset(s)[x] <= 1
    decreases |s|
  {
    if s != [] {
      var t := s[1..];
      forall i, j | 0 <= i < j < |t| ensures t[i] != t[j] {
        assert t[i] == s[i + 1] && t[j] == s[j + 1];
      }
      DistinctCountsOne(t);
      forall k | 0 <= k < |t| ensures t[k] != s[0] {
        assert t[k] == s[k + 1];
      }
      assert s == [s[0]] + t;
      assert multiset(s) == multiset{s[0]} + multiset(t);
    }
  }

  lemma {:induction false} CountsOneDistinct<T>(s: seq<T>)
    requires forall x :: multiset(s)[x] <= 1
    ensures Distinct(s)
  {
    forall i, j | 0 <= i < j < |s| ensures s[i] != s[j] {
      assert s == s[..j] + s[j..];
      assert multiset(s) == multiset(s[..j]) + multiset(s[j..]);
      assert s[..j][i] == s[i];
      assert multiset(s[..j])[s[i]] >= 1;
      assert multiset(s)[s[i]] <= 1;
      assert multiset(s[j..])[s[i]] == 0;
      assert s[j..][0] == s[j];
    }
  }

  /** A permutation of a list without repetitions has none either. */
  lemma DistinctPermutation<T>(s: seq<T>, r: seq<T>)
    requires Distinct(s) && multiset(r) == multiset(s)
    ensures Distinct(r)
  {
    DistinctCountsOne(s);
    CountsOneDistinct(r);
  }

  // ---------------------------------------------------------------- dedupe

  /** Keeps each element whose key is neither in `seen` nor carried by an earlier element. */
  function DedupeFrom<T, K(==)>(key: T -> K, s: seq<T>, seen: set<K>): (r: seq<T>)
    ensures |r| <= |s|
  {
    if s == [] then []
    else if key(s[0]) in seen then DedupeFrom(key, s[1..], seen)
    else [s[0]] + DedupeFrom(key, s[1..], seen + {key(s[0])})
  }

  /** The first element for every key, in input order. */
  function Dedupe<T, K(==)>(key: T -> K, s: seq<T>): seq<T> {
    DedupeFrom(key, s, {})
  }

  ghost predicate DistinctKeys<T, K>(key: T -> K, r: seq<T>) {
    forall i, j :: 0 <= i < j < |r| ==> key(r[i]) != key(r[j])
  }

  /** No earlier element of `s` carries the key of `s[i]`. */
  ghost predicate FirstWithKey<T, K>(key: T -> K, s: seq<T>, i: int) {
    0 <= i < |s| && forall j :: 0 <= j < i ==> key(s[j]) != key(s[i])
  }

  lemma {:induction false} DedupeFromMembers<T, K>(key: T -> K, s: seq<T>, seen: set<K>)
    ensures forall e :: e in DedupeFrom(key, s, seen) ==> e in s && key(e) !in seen
    decreases |s|
  {
    if s != [] {
      var k := key(s[0]);
      var seen' := if k in seen then seen else seen + {k};
      DedupeFromMembers(key, s[1..], seen');
    }
  }

  lemma {:induction false} DedupeFromDistinct<T, K>(key: T -> K, s: seq<T>, seen: set<K>)
    ensures DistinctKeys(key, DedupeFrom(key, s, seen))
    decreases |s|
  {
    if s != [] {
      var k := key(s[0]);
      if k in seen {
        DedupeFromDistinct(key, s[1..], seen);
      } else {
        DedupeFromDistinct(key, s[1..], seen + {k});
        DedupeFromMembers(key, s[1..], seen + {k});
        var rest := DedupeFrom(key, s[1..], seen + {k});
        var r := DedupeFrom(key, s, seen);
        assert r == [s[0]] + rest;
        forall i, j | 0 <= i < j < |r| ensures key(r[i]) != key(r[j]) {
          if i == 0 {
            assert r[j] == rest[j - 1];
            assert r[j] in rest;
          } else {
            assert r[i] == rest[i - 1] && r[j] == rest[j - 1];
          }
        }
      }
    }
  }

  lemma {:induction false} DedupeFromCovers<T, K>(key: T -> K, s: seq<T>, seen: set<K>)
    ensures forall i :: 0 <= i < |s| && key(s[i]) !in seen ==>
              exists e :: e in DedupeFrom(key, s, seen) && key(e) == key(s[i])
    decreases |s|
  {
    if s != [] {
      var k := key(s[0]);
      var seen' := if k in seen then seen else seen + {k};
      DedupeFromCovers(key, s[1..], seen');
      var rest := DedupeFrom(key, s[1..], seen');
      var r := DedupeFrom(key, s, seen);
      assert r == (if k in seen then [] else [s[0]]) + rest;
      forall i | 0 <= i < |s| && key(s[i]) !in seen
        ensures exists e :: e in r && key(e) == key(s[i])
      {
        if key(s[i]) == k {
          assert s[0] in r;
        } else {
          assert s[1..][i - 1] == s[i];
          var e :| e in rest && key(e) == key(s[i]);
          assert e in r;
        }
      }
    }
  }

  lemma {:induction false} DedupeFromFirst<T, K>(key: T -> K, s: seq<T>, seen: set<K>)
    ensures forall i :: FirstWithKey(key, s, i) && key(s[i]) !in seen ==> s[i] in DedupeFrom(key, s, seen)
    decreases |s|
  {
    if s != [] {
      var k := key(s[0]);
      var seen' := if k in seen then seen else seen + {k};
      DedupeFromFirst(key, s[1..], seen');
      var rest := DedupeFrom(key, s[1..], seen');
      var r := DedupeFrom(key, s, seen);
      assert r == (if k in seen then [] else [s[0]]) + rest;
      forall i | FirstWithKey(key, s, i) && key(s[i]) !in seen ensures s[i] in r {
        if i > 0 {
          assert key(s[0]) != key(s[i]);
          assert s[1..][i - 1] == s[i];
          assert FirstWithKey(key, s[1..], i - 1);
          assert s[i] in rest;
        }
      }
    }
  }

  lemma {:induction false} DedupeFromSubsequence<T, K>(key: T -> K, s: seq<T>, seen: set<K>)
    ensures SubsequenceOf(DedupeFrom(key, s, seen), s)
    decreases |s|
  {
    if s != [] {
      var k := key(s[0]);
      if k in seen {
        DedupeFromSubsequence(key, s[1..], seen);
        SubsequenceSkip(DedupeFrom(key, s, seen), s);
      } else {
        DedupeFromSubsequence(key, s[1..], seen + {k});
        var r := DedupeFrom(key, s, seen);
        assert r[0] == s[0] && r[1..] == DedupeFrom(key, s[1..], seen + {k});
      }
    }
  }

  /**
   * The dedupe keeps, in input order, exactly the first element for each
   * key the input carries: keys in the output are pairwise distinct, every
   * input key is represented, and every first occurrence is kept.
   */
  lemma DedupeKeepsFirst<T, K>(key: T -> K, s: seq<T>)
    ensures SubsequenceOf(Dedupe(key, s), s)
    ensures DistinctKeys(key, Dedupe(key, s))
    ensures forall i :: 0 <= i < |s| ==> exists e :: e in Dedupe(key, s) && key(e) == key(s[i])
    ensures forall i :: FirstWithKey(key, s, i) ==> s[i] in Dedupe(key, s)
  {
    DedupeFromDistinct(key, s, {});
    DedupeFromCovers(key, s, {});
    DedupeFromFirst(key, s, {});
    DedupeFromSubsequence(key, s, {});
  }
}
