/** Python's `sorted(s, key=k)` and `s.sort(key=k)`: a stable sort by an
    integer key. `sorted(..., reverse=True)` is the same sort on the negated
    key (Python's reverse sort also keeps equal elements in their original
    order). */
module Sorting {
  import opened Common

  /** Inserts `x` before the first element whose key is not smaller. */
  function InsertBy<T>(x: T, s: seq<T>, key: T -> int): (r: seq<T>)
    ensures |r| == |s| + 1
  {
    if s == [] then [x]
    else if key(x) <= key(s[0]) then [x] + s
    else [s[0]] + InsertBy(x, s[1..], key)
  }

  /** Insertion sort by `key`. */
  function SortBy<T>(s: seq<T>, key: T -> int): (r: seq<T>)
    ensures |r| == |s|
  {
    if s == [] then [] else InsertBy(s[0], SortBy(s[1..], key), key)
  }

  ghost predicate SortedBy<T>(s: seq<T>, key: T -> int) {
    forall i, j :: 0 <= i < j < |s| ==> key(s[i]) <= key(s[j])
  }

  /** The elements with key `k`. */
  function KeyIs<T>(key: T -> int, k: int): T -> bool {
    x => key(x) == k
  }

  lemma {:induction false} InsertByCounts<T>(x: T, s: seq<T>, key: T -> int)
    ensures multiset(InsertBy(x, s, key)) == multiset{x} + multiset(s)
  {
    if s != [] && key(x) > key(s[0]) {
      InsertByCounts(x, s[1..], key);
      assert s == [s[0]] + s[1..];
    }
  }

  lemma {:induction false} InsertBySorted<T>(x: T, s: seq<T>, key: T -> int)
    requires SortedBy(s, key)
    ensures SortedBy(InsertBy(x, s, key), key)
  {
    if s != [] && key(x) > key(s[0]) {
      var tl := s[1..];
      assert SortedBy(tl, key) by {
        forall i, j | 0 <= i < j < |tl| ensures key(tl[i]) <= key(tl[j]) {
          assert tl[i] == s[i + 1] && tl[j] == s[j + 1];
        }
      }
      InsertBySorted(x, tl, key);
      InsertByCounts(x, tl, key);
      var ins := InsertBy(x, tl, key);
      var r := [s[0]] + ins;
      forall j | 0 <= j < |ins| ensures key(s[0]) <= key(ins[j]) {
        assert ins[j] in multiset(ins);
        if ins[j] != x {
          assert ins[j] in multiset(tl);
          var m :| 0 <= m < |tl| && tl[m] == ins[j];
          assert tl[m] == s[m + 1];
        }
      }
      forall i, j | 0 <= i < j < |r| ensures key(r[i]) <= key(r[j]) {
        if i > 0 {
          assert r[i] == ins[i - 1] && r[j] == ins[j - 1];
        } else {
          assert r[j] == ins[j - 1];
        }
      }
    }
  }

  /** Inserting `x` does not reorder the elements that share any one key:
      everything `x` is moved past has a smaller key than `x`. */
  lemma {:induction false} InsertByStable<T>(x: T, s: seq<T>, key: T -> int, k: int)
    ensures Keep(InsertBy(x, s, key), KeyIs(key, k)) == Keep([x] + s, KeyIs(key, k))
  {
    if s != [] && key(x) > key(s[0]) {
      var p := KeyIs(key, k);
      InsertByStable(x, s[1..], key, k);
      assert ([s[0]] + InsertBy(x, s[1..], key))[1..] == InsertBy(x, s[1..], key);
      assert ([x] + s)[1..] == s && ([x] + s[1..])[1..] == s[1..];
      if p(x) {
        assert !p(s[0]);
      }
    }
  }

  /** The result is in ascending key order. */
  lemma {:induction false} SortBySorted<T>(s: seq<T>, key: T -> int)
    ensures SortedBy(SortBy(s, key), key)
  {
    if s != [] {
      SortBySorted(s[1..], key);
      InsertBySorted(s[0], SortBy(s[1..], key), key);
    }
  }

  /** The result is a permutation of the input. */
  lemma {:induction false} SortByCounts<T>(s: seq<T>, key: T -> int)
    ensures multiset(SortBy(s, key)) == multiset(s)
  {
    if s != [] {
      SortByCounts(s[1..], key);
      InsertByCounts(s[0], SortBy(s[1..], key), key);
      assert s == [s[0]] + s[1..];
    }
  }

  /** The sort is stable: elements with equal keys keep their input order. */
  lemma {:induction false} SortByStable<T>(s: seq<T>, key: T -> int, k: int)
    ensures Keep(SortBy(s, key), KeyIs(key, k)) == Keep(s, KeyIs(key, k))
  {
    if s != [] {
      var tl := SortBy(s[1..], key);
      SortByStable(s[1..], key, k);
      InsertByStable(s[0], tl, key, k);
      assert ([s[0]] + tl)[1..] == tl;
    }
  }
}
