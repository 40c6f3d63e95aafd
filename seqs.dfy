/**
 * Sequence helpers shared by the log tools: order-preserving filters,
 * Python's slice bounds (negative indices count from the end), and the
 * stable sort that Python's `sorted`/`list.sort` perform.
 */
module Seqs {

  /** The elements of `s` that satisfy `p`, in order. */
  function Filter<T>(s: seq<T>, p: T -> bool): (r: seq<T>)
    ensures |r| <= |s|
  {
    if s == [] then [] else (if p(s[0]) then [s[0]] else []) + Filter(s[1..], p)
  }

  /** `Filter` keeps exactly the elements of `s` that satisfy `p`. */
  lemma {:induction false} FilterMembers<T>(s: seq<T>, p: T -> bool, x: T)
    ensures x in Filter(s, p) <==> x in s && p(x)
  {
    if s != [] {
      FilterMembers(s[1..], p, x);
      assert s == [s[0]] + s[1..];
    }
  }

  lemma {:induction false} FilterConcat<T>(a: seq<T>, b: seq<T>, p: T -> bool)
    ensures Filter(a + b, p) == Filter(a, p) + Filter(b, p)
  {
    if a != [] {
      assert (a + b)[1..] == a[1..] + b;
      FilterConcat(a[1..], b, p);
    } else {
      assert a + b == b;
    }
  }

  /** Filtering keeps each accepted element as often as it occurred. */
  lemma {:induction false} FilterMultiset<T>(s: seq<T>, p: T -> bool, x: T)
    ensures multiset(Filter(s, p))[x] == if p(x) then multiset(s)[x] else 0
  {
    if s != [] {
      FilterMultiset(s[1..], p, x);
      assert s == [s[0]] + s[1..];
    }
  }

  /** Extending a prefix by one element. */
  lemma PrefixSnoc<T>(s: seq<T>, m: nat)
    requires m < |s|
    ensures s[..m + 1] == s[..m] + [s[m]] && s[..m + 1][..m] == s[..m]
  {
  }

  lemma AppendAssoc<T>(a: seq<T>, b: seq<T>, c: seq<T>)
    ensures (a + b) + c == a + (b + c)
  {
  }

  lemma RegroupFive<T>(a: seq<T>, b: seq<T>, c: seq<T>, d: seq<T>, e: seq<T>)
    ensures a + b + c + d + e == a + b + (c + d + e)
  {
  }

  lemma PairThen<T>(x: T, y: T, t: seq<T>)
    ensures [x, y] + t == [x] + ([y] + t)
  {
  }

  /** Python's normalisation of a slice bound `k` against a length `n`. */
  function SliceIndex(n: nat, k: int): (r: nat)
    ensures r <= n
    ensures 0 <= k <= n ==> r == k
    ensures k < 0 && -k <= n ==> r == n + k
  {
    if k < 0 then (if n + k < 0 then 0 else n + k) else if k > n then n else k
  }

  /** `s[k:]`. */
  function PyDrop<T>(s: seq<T>, k: int): (r: seq<T>)
    ensures |r| <= |s| && r == s[|s| - |r|..]
    ensures k >= 0 ==> |r| == if k <= |s| then |s| - k else 0
    ensures k < 0 ==> |r| == if -k <= |s| then -k else |s|
  {
    s[SliceIndex(|s|, k)..]
  }

  /** `s[:k]`. */
  function PyTake<T>(s: seq<T>, k: int): (r: seq<T>)
    ensures |r| <= |s| && r == s[..|r|]
    ensures k >= 0 ==> |r| == if k <= |s| then k else |s|
    ensures k < 0 ==> |r| == if -k <= |s| then |s| + k else 0
  {
    s[..SliceIndex(|s|, k)]
  }

  /** The elements of `s` whose key is `k`, in order. */
  function WithKey<T, K(==)>(s: seq<T>, key: T -> K, k: K): (r: seq<T>)
  {
    if s == [] then [] else (if key(s[0]) == k then [s[0]] else []) + WithKey(s[1..], key, k)
  }

  /** `WithKey` selects exactly the elements of `s` whose key is `k`. */
  lemma {:induction false} WithKeyMembers<T, K>(s: seq<T>, key: T -> K, k: K, x: T)
    ensures x in WithKey(s, key, k) <==> x in s && key(x) == k
  {
    if s != [] {
      WithKeyMembers(s[1..], key, k, x);
      assert s == [s[0]] + s[1..];
    }
  }

  /** `le` is a total order: total, transitive and antisymmetric. */
  ghost predicate TotalOrder<K(!new)>(le: (K, K) -> bool) {
    (forall a, b :: le(a, b) || le(b, a))
    && (forall a, b, c :: le(a, b) && le(b, c) ==> le(a, c))
    && (forall a, b :: le(a, b) && le(b, a) ==> a == b)
  }

  predicate SortedBy<T, K>(s: seq<T>, key: T -> K, le: (K, K) -> bool) {
    forall i, j :: 0 <= i < j < |s| ==> le(key(s[i]), key(s[j]))
  }

  /** Insertion of `x` before the first element whose key is not below it. */
  function Insert<T, K>(x: T, s: seq<T>, key: T -> K, le: (K, K) -> bool): seq<T> {
    if s == [] || le(key(x), key(s[0])) then [x] + s
    else [s[0]] + Insert(x, s[1..], key, le)
  }

  /** `sorted(s, key=key)` for a key type ordered by `le`. */
  function SortByKey<T, K>(s: seq<T>, key: T -> K, le: (K, K) -> bool): seq<T> {
    if s == [] then [] else Insert(s[0], SortByKey(s[1..], key, le), key, le)
  }

  lemma {:induction false} InsertMultiset<T, K>(x: T, s: seq<T>, key: T -> K, le: (K, K) -> bool)
    ensures multiset(Insert(x, s, key, le)) == multiset{x} + multiset(s)
  {
    if s != [] && !le(key(x), key(s[0])) {
      InsertMultiset(x, s[1..], key, le);
      assert s == [s[0]] + s[1..];
    }
  }

  /** Sorting only reorders. */
  lemma {:induction false} SortPermutes<T, K>(s: seq<T>, key: T -> K, le: (K, K) -> bool)
    ensures multiset(SortByKey(s, key, le)) == multiset(s)
  {
    if s != [] {
      SortPermutes(s[1..], key, le);
      InsertMultiset(s[0], SortByKey(s[1..], key, le), key, le);
      assert s == [s[0]] + s[1..];
    }
  }

  lemma SortedTail<T, K>(s: seq<T>, key: T -> K, le: (K, K) -> bool)
    requires s != [] && SortedBy(s, key, le)
    ensures SortedBy(s[1..], key, le)
  {
    var t := s[1..];
    forall i, j | 0 <= i < j < |t| ensures le(key(t[i]), key(t[j])) {
      assert t[i] == s[i + 1] && t[j] == s[j + 1];
    }
  }

  /** Insertion keeps a lower bound that `x` and every element of `t` respect. */
  lemma InsertBounded<T, K>(x: T, t: seq<T>, key: T -> K, le: (K, K) -> bool, lo: K)
    requires le(lo, key(x)) && forall i :: 0 <= i < |t| ==> le(lo, key(t[i]))
    ensures forall y :: y in Insert(x, t, key, le) ==> le(lo, key(y))
  {
    InsertMultiset(x, t, key, le);
    forall y | y in Insert(x, t, key, le) ensures le(lo, key(y)) {
      assert y in multiset(Insert(x, t, key, le));
      if y != x {
        assert y in multiset(t);
        var k :| 0 <= k < |t| && t[k] == y;
      }
    }
  }

  lemma {:induction false} InsertSorted<T, K(!new)>(x: T, s: seq<T>, key: T -> K, le: (K, K) -> bool)
    requires TotalOrder(le) && SortedBy(s, key, le)
    ensures SortedBy(Insert(x, s, key, le), key, le)
  {
    if s != [] && !le(key(x), key(s[0])) {
      var t := s[1..];
      SortedTail(s, key, le);
      InsertSorted(x, t, key, le);
      assert forall i :: 0 <= i < |t| ==> t[i] == s[i + 1];
      InsertBounded(x, t, key, le, key(s[0]));
      var r := Insert(x, t, key, le);
      var full := [s[0]] + r;
      forall i, j | 0 <= i < j < |full| ensures le(key(full[i]), key(full[j])) {
        if i == 0 {
          assert full[j] == r[j - 1];
          assert full[j] in r;
        } else {
          assert full[i] == r[i - 1] && full[j] == r[j - 1];
        }
      }
    }
  }

  /** The result of sorting is ordered by the key. */
  lemma {:induction false} SortSorted<T, K(!new)>(s: seq<T>, key: T -> K, le: (K, K) -> bool)
    requires TotalOrder(le)
    ensures SortedBy(SortByKey(s, key, le), key, le)
  {
    if s != [] {
      SortSorted(s[1..], key, le);
      InsertSorted(s[0], SortByKey(s[1..], key, le), key, le);
    }
  }

  lemma {:induction false} InsertWithKey<T, K(!new)>(x: T, s: seq<T>, key: T -> K, le: (K, K) -> bool, k: K)
    requires TotalOrder(le) && SortedBy(s, key, le)
    ensures WithKey(Insert(x, s, key, le), key, k)
         == if key(x) == k then [x] + WithKey(s, key, k) else WithKey(s, key, k)
  {
    if s == [] || le(key(x), key(s[0])) {
      assert ([x] + s)[1..] == s;
    } else {
      assert key(s[0]) != key(x);
      var t := s[1..];
      assert SortedBy(t, key, le) by {
        forall i, j | 0 <= i < j < |t| ensures le(key(t[i]), key(t[j])) {
          assert t[i] == s[i + 1] && t[j] == s[j + 1];
        }
      }
      InsertWithKey(x, t, key, le, k);
      assert ([s[0]] + Insert(x, t, key, le))[1..] == Insert(x, t, key, le);
      if key(x) == k {
        assert WithKey(s, key, k) == WithKey(t, key, k);
      }
    }
  }

  /** The sort is stable: elements with equal keys keep their relative order. */
  lemma {:induction false} SortStable<T, K(!new)>(s: seq<T>, key: T -> K, le: (K, K) -> bool, k: K)
    requires TotalOrder(le)
    ensures WithKey(SortByKey(s, key, le), key, k) == WithKey(s, key, k)
  {
    if s != [] {
      SortStable(s[1..], key, le, k);
      SortSorted(s[1..], key, le);
      InsertWithKey(s[0], SortByKey(s[1..], key, le), key, le, k);
    }
  }

  /** Sorting keeps the length. */
  lemma SortLength<T, K>(s: seq<T>, key: T -> K, le: (K, K) -> bool)
    ensures |SortByKey(s, key, le)| == |s|
  {
    SortPermutes(s, key, le);
    assert |multiset(SortByKey(s, key, le))| == |multiset(s)|;
  }

  /** `WithKey` of a sequence extended by one element. */
  lemma {:induction false} WithKeySnoc<T, K>(s: seq<T>, x: T, key: T -> K, k: K)
    ensures WithKey(s + [x], key, k) == WithKey(s, key, k) + (if key(x) == k then [x] else [])
  {
    if s == [] {
      assert s + [x] == [x];
    } else {
      var t := s[1..];
      assert (s + [x])[0] == s[0];
      assert (s + [x])[1..] == t + [x];
      WithKeySnoc(t, x, key, k);
      var h := if key(s[0]) == k then [s[0]] else [];
      AppendAssoc(h, WithKey(t, key, k), if key(x) == k then [x] else []);
    }
  }

  /** No element has key `k`: nothing is selected. */
  lemma WithKeyAbsent<T, K>(s: seq<T>, key: T -> K, k: K)
    requires forall i :: 0 <= i < |s| ==> key(s[i]) != k
    ensures WithKey(s, key, k) == []
  {
  }

  predicate Distinct<K(==)>(ks: seq<K>) {
    forall i, j :: 0 <= i < j < |ks| ==> ks[i] != ks[j]
  }

  /** The distinct keys of the elements of `s`, in order of first appearance. */
  function Keys<T, K(==)>(s: seq<T>, key: T -> K): (r: seq<K>)
    ensures Distinct(r)
    ensures forall i :: 0 <= i < |s| ==> key(s[i]) in r
  {
    if s == [] then []
    else
      var init := s[..|s| - 1];
      var ks := Keys(init, key);
      assert forall i :: 0 <= i < |init| ==> init[i] == s[i];
      if key(s[|s| - 1]) in ks then ks else ks + [key(s[|s| - 1])]
  }

  /** Every key is the key of some element. */
  lemma {:induction false} KeysWitness<T, K>(s: seq<T>, key: T -> K, j: nat)
    requires j < |Keys(s, key)|
    ensures exists i :: 0 <= i < |s| && key(s[i]) == Keys(s, key)[j]
  {
    var init := s[..|s| - 1];
    var ks := Keys(init, key);
    if j < |ks| {
      KeysWitness(init, key, j);
      var i :| 0 <= i < |init| && key(init[i]) == ks[j];
      assert init[i] == s[i];
    } else {
      assert key(s[|s| - 1]) == Keys(s, key)[j];
    }
  }

  /** Appending an element adds its key at the end unless the key is already there. */
  lemma KeysSnoc<T, K>(s: seq<T>, x: T, key: T -> K)
    ensures Keys(s + [x], key) == if key(x) in Keys(s, key) then Keys(s, key) else Keys(s, key) + [key(x)]
  {
    assert (s + [x])[..|s|] == s;
  }

  /** How often `v` occurs in `ks`. */
  function Occurrences<K(==)>(ks: seq<K>, v: K): nat {
    if ks == [] then 0 else (if ks[0] == v then 1 else 0) + Occurrences(ks[1..], v)
  }

  lemma {:induction false} OccurrencesOfDistinct<K>(ks: seq<K>, v: K)
    requires Distinct(ks)
    ensures Occurrences(ks, v) == if v in ks then 1 else 0
  {
    if ks != [] {
      assert Distinct(ks[1..]) by {
        forall i, j | 0 <= i < j < |ks[1..]| ensures ks[1..][i] != ks[1..][j] {
          assert ks[1..][i] == ks[i + 1] && ks[1..][j] == ks[j + 1];
        }
      }
      OccurrencesOfDistinct(ks[1..], v);
      if ks[0] == v {
        assert v !in ks[1..] by {
          forall j | 0 <= j < |ks[1..]| ensures ks[1..][j] != v {
            assert ks[1..][j] == ks[j + 1];
          }
        }
      } else {
        assert v in ks <==> v in ks[1..] by {
          if v in ks {
            var j :| 0 <= j < |ks| && ks[j] == v;
            assert ks[1..][j - 1] == v;
          }
        }
      }
    }
  }

  /** The total size of the groups with the keys `ks`. */
  function SumWithKey<T, K(==)>(s: seq<T>, key: T -> K, ks: seq<K>): nat {
    if ks == [] then 0 else |WithKey(s, key, ks[0])| + SumWithKey(s, key, ks[1..])
  }

  lemma {:induction false} SumWithKeyCons<T, K>(s: seq<T>, key: T -> K, ks: seq<K>)
    requires s != []
    ensures SumWithKey(s, key, ks) == SumWithKey(s[1..], key, ks) + Occurrences(ks, key(s[0]))
  {
    if ks != [] {
      SumWithKeyCons(s, key, ks[1..]);
    }
  }

  /** Grouping by key with distinct keys covering every element splits `s` into parts whose sizes add up to `|s|`. */
  lemma {:induction false} WithKeyPartition<T, K>(s: seq<T>, key: T -> K, ks: seq<K>)
    requires Distinct(ks)
    requires forall i :: 0 <= i < |s| ==> key(s[i]) in ks
    ensures SumWithKey(s, key, ks) == |s|
  {
    if s == [] {
      SumWithKeyEmpty(key, ks);
    } else {
      SumWithKeyCons(s, key, ks);
      OccurrencesOfDistinct(ks, key(s[0]));
      assert forall i :: 0 <= i < |s[1..]| ==> s[1..][i] == s[i + 1];
      WithKeyPartition(s[1..], key, ks);
    }
  }

  lemma {:induction false} SumWithKeyEmpty<T, K>(key: T -> K, ks: seq<K>)
    ensures SumWithKey([], key, ks) == 0
  {
    if ks != [] {
      SumWithKeyEmpty(key, ks[1..]);
    }
  }

  /** The sum of `counts[k]` over the keys `ks`. */
  function TotalCount<K>(counts: map<K, nat>, ks: seq<K>): nat
    requires forall i :: 0 <= i < |ks| ==> ks[i] in counts
  {
    if ks == [] then 0 else counts[ks[0]] + TotalCount(counts, ks[1..])
  }

  /** The loop state of a counting loop once the elements `seen` are counted. */
  ghost predicate Counted<T, K(!new)>(seen: seq<T>, key: T -> K, keys: seq<K>, counts: map<K, nat>) {
    keys == Keys(seen, key)
    && (forall k :: k in counts <==> k in keys)
    && (forall k :: k in counts ==> counts[k] == |WithKey(seen, key, k)|)
  }

  /** One iteration of the counting loop: the element's key gains one, starting from zero if new. */
  lemma CountedStep<T, K(!new)>(seen: seq<T>, x: T, key: T -> K, keys: seq<K>, counts: map<K, nat>)
    requires Counted(seen, key, keys, counts)
    ensures var k := key(x);
      Counted(seen + [x], key, if k in counts then keys else keys + [k],
              counts[k := (if k in counts then counts[k] else 0) + 1])
  {
    var k := key(x);
    var keys' := if k in counts then keys else keys + [k];
    var counts' := counts[k := (if k in counts then counts[k] else 0) + 1];
    KeysSnoc(seen, x, key);
    assert keys' == Keys(seen + [x], key);
    forall k' ensures k' in counts' <==> k' in keys' {
      assert k' in counts' <==> k' == k || k' in counts;
      assert k' in keys' <==> k' == k || k' in keys;
    }
    if k !in counts {
      assert k !in keys;
      forall j | 0 <= j < |seen| ensures key(seen[j]) != k {
        assert key(seen[j]) in Keys(seen, key);
      }
    }
    CountsStep(seen, x, key, counts);
  }

  lemma CountsStep<T, K(!new)>(seen: seq<T>, x: T, key: T -> K, counts: map<K, nat>)
    requires forall k :: k in counts ==> counts[k] == |WithKey(seen, key, k)|
    requires key(x) !in counts ==> forall j :: 0 <= j < |seen| ==> key(seen[j]) != key(x)
    ensures var k := key(x);
      var counts' := counts[k := (if k in counts then counts[k] else 0) + 1];
      forall k' :: k' in counts' ==> counts'[k'] == |WithKey(seen + [x], key, k')|
  {
    var k := key(x);
    var counts' := counts[k := (if k in counts then counts[k] else 0) + 1];
    if k !in counts {
      WithKeyAbsent(seen, key, k);
    }
    forall k' | k' in counts' ensures counts'[k'] == |WithKey(seen + [x], key, k')| {
      WithKeySnoc(seen, x, key, k');
    }
  }

  /**
   * Counting the elements of `s` by key in a dictionary: the
   * dictionary as its keys in insertion order and the map from each key to
   * the number of elements with that key.
   */
  method CountByKey<T, K(!new)>(s: seq<T>, key: T -> K) returns (keys: seq<K>, counts: map<K, nat>)
    ensures keys == Keys(s, key)
    ensures forall k :: k in counts <==> k in keys
    ensures forall k :: k in counts ==> counts[k] == |WithKey(s, key, k)|
  {
    keys := [];
    counts := map[];
    for i := 0 to |s|
      invariant Counted(s[..i], key, keys, counts)
    {
      var k := key(s[i]);
      CountedStep(s[..i], s[i], key, keys, counts);
      PrefixSnoc(s, i);
      if k !in counts {
        keys := keys + [k];
      }
      counts := counts[k := (if k in counts then counts[k] else 0) + 1];
    }
    assert s[..|s|] == s;
  }

  /** The counts that `CountByKey` returns add up to the number of elements counted. */
  lemma CountsAddUp<T, K>(s: seq<T>, key: T -> K, keys: seq<K>, counts: map<K, nat>)
    requires keys == Keys(s, key)
    requires forall k :: k in counts <==> k in keys
    requires forall k :: k in counts ==> counts[k] == |WithKey(s, key, k)|
    ensures TotalCount(counts, keys) == |s|
  {
    TotalIsSum(s, key, keys, counts);
    WithKeyPartition(s, key, keys);
  }

  lemma {:induction false} TotalIsSum<T, K>(s: seq<T>, key: T -> K, ks: seq<K>, counts: map<K, nat>)
    requires forall i :: 0 <= i < |ks| ==> ks[i] in counts && counts[ks[i]] == |WithKey(s, key, ks[i])|
    ensures TotalCount(counts, ks) == SumWithKey(s, key, ks)
  {
    if ks != [] {
      TotalIsSum(s, key, ks[1..], counts);
    }
  }

  /** Filtering a sorted sequence keeps it sorted. */
  lemma {:induction false} FilterSorted<T, K>(s: seq<T>, p: T -> bool, key: T -> K, le: (K, K) -> bool)
    requires SortedBy(s, key, le)
    ensures SortedBy(Filter(s, p), key, le)
  {
    if s != [] {
      SortedTail(s, key, le);
      FilterSorted(s[1..], p, key, le);
      var t := Filter(s[1..], p);
      if p(s[0]) {
        forall y | y in t ensures le(key(s[0]), key(y)) {
          FilterMembers(s[1..], p, y);
          var j :| 0 <= j < |s[1..]| && s[1..][j] == y;
          assert s[j + 1] == y;
        }
        var r := [s[0]] + t;
        forall i, j | 0 <= i < j < |r| ensures le(key(r[i]), key(r[j])) {
          if i == 0 {
            assert r[j] == t[j - 1] && t[j - 1] in t;
          } else {
            assert r[i] == t[i - 1] && r[j] == t[j - 1];
          }
        }
      }
    }
  }

  /** A suffix of a sorted sequence is sorted. */
  lemma SuffixSorted<T, K>(s: seq<T>, k: nat, key: T -> K, le: (K, K) -> bool)
    requires k <= |s| && SortedBy(s, key, le)
    ensures SortedBy(s[k..], key, le)
  {
    var t := s[k..];
    forall i, j | 0 <= i < j < |t| ensures le(key(t[i]), key(t[j])) {
      assert t[i] == s[k + i] && t[j] == s[k + j];
    }
  }

  /** The concatenation of the sequences in `ss`, in order: repeated `list.extend`. */
  function Concat<T>(ss: seq<seq<T>>): seq<T> {
    if ss == [] then [] else ss[0] + Concat(ss[1..])
  }

  /** An element of the concatenation comes from one of the pieces, and every piece's elements are in it. */
  lemma {:induction false} ConcatMembers<T>(ss: seq<seq<T>>, x: T)
    ensures x in Concat(ss) <==> exists i :: 0 <= i < |ss| && x in ss[i]
  {
    if ss != [] {
      ConcatMembers(ss[1..], x);
      if x in Concat(ss[1..]) {
        var i :| 0 <= i < |ss[1..]| && x in ss[1..][i];
        assert x in ss[i + 1];
      }
      if exists i :: 0 <= i < |ss| && x in ss[i] {
        var i :| 0 <= i < |ss| && x in ss[i];
        if i > 0 {
          assert x in ss[1..][i - 1];
        }
      }
    }
  }

  /** Filtering twice is filtering once by both conditions. */
  lemma {:induction false} FilterFilter<T>(s: seq<T>, p: T -> bool, q: T -> bool, pq: T -> bool)
    requires forall x :: pq(x) == (p(x) && q(x))
    ensures Filter(Filter(s, p), q) == Filter(s, pq)
  {
    if s != [] {
      FilterFilter(s[1..], p, q, pq);
      var t := Filter(s[1..], p);
      if p(s[0]) {
        var fs := [s[0]] + t;
        assert Filter(s, p) == fs;
        assert fs != [] && fs[0] == s[0] && fs[1..] == t;
        assert Filter(fs, q) == (if q(s[0]) then [s[0]] else []) + Filter(t, q);
      } else {
        assert Filter(s, p) == t;
      }
    }
  }

  /** Filters that agree on every element of `s` select the same elements. */
  lemma {:induction false} FilterSame<T>(s: seq<T>, p: T -> bool, q: T -> bool)
    requires forall i :: 0 <= i < |s| ==> p(s[i]) == q(s[i])
    ensures Filter(s, p) == Filter(s, q)
  {
    if s != [] {
      assert p(s[0]) == q(s[0]);
      FilterSame(s[1..], p, q);
    }
  }

  /** A filter that every element passes keeps the whole sequence. */
  lemma {:induction false} FilterAll<T>(s: seq<T>, p: T -> bool)
    requires forall i :: 0 <= i < |s| ==> p(s[i])
    ensures Filter(s, p) == s
  {
    if s != [] {
      assert p(s[0]);
      FilterAll(s[1..], p);
    }
  }

  /** Extending the concatenated pieces by one more piece. */
  lemma {:induction false} ConcatSnoc<T>(ss: seq<seq<T>>, i: nat)
    requires i < |ss|
    ensures Concat(ss[..i + 1]) == Concat(ss[..i]) + ss[i]
  {
    if i > 0 {
      ConcatSnoc(ss[1..], i - 1);
      assert ss[1..][..i] == ss[..i + 1][1..];
      assert ss[1..][..i - 1] == ss[..i][1..];
      assert ss[1..][i - 1] == ss[i];
    } else {
      assert ss[..1] == [ss[0]];
      assert Concat(ss[..1][1..]) == [];
    }
  }
}
