/**
 * The order Rust uses on `String` (byte-wise on UTF-8, which orders exactly
 * as comparing code points one by one) and the stable sort by a string key
 * that `sort_by_cached_key` performs.
 */
module Ordering {

  /** `a` sorts before `b` or equals it, comparing character by character. */
  predicate LexLe(a: string, b: string)
    decreases |a|
  {
    a == [] || (b != [] && (a[0] < b[0] || (a[0] == b[0] && LexLe(a[1..], b[1..]))))
  }

  lemma {:induction false} LexLeReflexive(a: string)
    ensures LexLe(a, a)
    decreases |a|
  {
    if a != [] {
      LexLeReflexive(a[1..]);
    }
  }

  lemma {:induction false} LexLeTotal(a: string, b: string)
    ensures LexLe(a, b) || LexLe(b, a)
    decreases |a|
  {
    if a != [] && b != [] && a[0] == b[0] {
      LexLeTotal(a[1..], b[1..]);
    }
  }

  lemma {:induction false} LexLeAntisymmetric(a: string, b: string)
    requires LexLe(a, b) && LexLe(b, a)
    ensures a == b
    decreases |a|
  {
    if a != [] && b != [] {
      LexLeAntisymmetric(a[1..], b[1..]);
      assert a == [a[0]] + a[1..] && b == [b[0]] + b[1..];
    }
  }

  lemma {:induction false} LexLeTransitive(a: string, b: string, c: string)
    requires LexLe(a, b) && LexLe(b, c)
    ensures LexLe(a, c)
    decreases |a|
  {
    if a != [] && b != [] && c != [] && a[0] == b[0] && b[0] == c[0] {
      LexLeTransitive(a[1..], b[1..], c[1..]);
    }
  }

  /** LexLe is a total order on strings. */
  lemma LexLeIsTotalOrder()
    ensures forall a :: LexLe(a, a)
    ensures forall a, b :: LexLe(a, b) || LexLe(b, a)
    ensures forall a, b :: LexLe(a, b) && LexLe(b, a) ==> a == b
    ensures forall a, b, c :: LexLe(a, b) && LexLe(b, c) ==> LexLe(a, c)
  {
    forall a { LexLeReflexive(a); }
    forall a, b { LexLeTotal(a, b); }
    forall a, b | LexLe(a, b) && LexLe(b, a) { LexLeAntisymmetric(a, b); }
    forall a, b, c | LexLe(a, b) && LexLe(b, c) { LexLeTransitive(a, b, c); }
  }

  /** The keys of `s` never decrease from left to right. */
  predicate SortedBy<T>(s: seq<T>, key: T -> string)
  {
    forall i, j :: 0 <= i < j < |s| ==> LexLe(key(s[i]), key(s[j]))
  }

  /** No two elements of `s` have the same key. */
  predicate UniqueBy<T>(s: seq<T>, key: T -> string)
  {
    forall i, j :: 0 <= i < j < |s| ==> key(s[i]) != key(s[j])
  }

  /** The elements of `s` whose key is `k`, in their order in `s`. */
  function WithKey<T>(s: seq<T>, key: T -> string, k: string): seq<T>
  {
    if s == [] then [] else (if key(s[0]) == k then [s[0]] else []) + WithKey(s[1..], key, k)
  }

  /**
   * Puts `x` in front of the first element of `s` whose key is not smaller
   * than `x`'s; on sorted `s`, `x` then precedes every element with an equal key.
   */
  function InsertBefore<T>(s: seq<T>, key: T -> string, x: T): (r: seq<T>)
    ensures multiset(r) == multiset(s) + multiset{x}
  {
    if s == [] || LexLe(key(x), key(s[0])) then
      [x] + s
    else
      assert s == [s[0]] + s[1..];
      [s[0]] + InsertBefore(s[1..], key, x)
  }

  lemma {:induction false} InsertBeforeSorted<T>(s: seq<T>, key: T -> string, x: T)
    requires SortedBy(s, key)
    ensures SortedBy(InsertBefore(s, key, x), key)
  {
    var r := InsertBefore(s, key, x);
    if s == [] || LexLe(key(x), key(s[0])) {
      forall j | 0 < j < |r| ensures LexLe(key(r[0]), key(r[j])) {
        if j > 1 {
          LexLeTransitive(key(x), key(s[0]), key(s[j - 1]));
        }
      }
    } else {
      var rest := InsertBefore(s[1..], key, x);
      InsertBeforeSorted(s[1..], key, x);
      LexLeTotal(key(x), key(s[0]));
      forall j | 0 <= j < |rest| ensures LexLe(key(s[0]), key(rest[j])) {
        assert rest[j] in multiset(rest);
        if rest[j] != x {
          assert rest[j] in s[1..];
          var i :| 0 <= i < |s[1..]| && s[1..][i] == rest[j];
          assert s[i + 1] == rest[j];
        }
      }
      assert r == [s[0]] + rest;
    }
  }

  lemma {:induction false} InsertBeforeGroups<T>(s: seq<T>, key: T -> string, x: T, k: string)
    ensures WithKey(InsertBefore(s, key, x), key, k) == (if key(x) == k then [x] else []) + WithKey(s, key, k)
  {
    var own := if key(x) == k then [x] else [];
    if s == [] || LexLe(key(x), key(s[0])) {
      var r := [x] + s;
      assert r[0] == x && r[1..] == s;
    } else {
      var rest := InsertBefore(s[1..], key, x);
      var r := [s[0]] + rest;
      var head := if key(s[0]) == k then [s[0]] else [];
      assert r[0] == s[0] && r[1..] == rest;
      assert WithKey(r, key, k) == head + WithKey(rest, key, k);
      InsertBeforeGroups(s[1..], key, x, k);
      assert WithKey(rest, key, k) == own + WithKey(s[1..], key, k);
      assert WithKey(s, key, k) == head + WithKey(s[1..], key, k);
      LexLeReflexive(key(x));
      assert own == [] || head == [];
    }
  }

  /** A stable sort of `s` by `key`: equal keys keep their order in `s`. */
  function SortByKey<T>(s: seq<T>, key: T -> string): (r: seq<T>)
    ensures SortedBy(r, key)
    ensures multiset(r) == multiset(s)
    ensures |r| == |s|
    ensures forall k :: WithKey(r, key, k) == WithKey(s, key, k)
  {
    if s == [] then []
    else
      assert s == [s[0]] + s[1..];
      var rest := SortByKey(s[1..], key);
      InsertBeforeSorted(rest, key, s[0]);
      assert forall k :: WithKey(InsertBefore(rest, key, s[0]), key, k) == WithKey(s, key, k) by {
        forall k ensures WithKey(InsertBefore(rest, key, s[0]), key, k) == WithKey(s, key, k) {
          InsertBeforeGroups(rest, key, s[0], k);
        }
      }
      InsertBefore(rest, key, s[0])
  }

  lemma {:induction false} WithKeyEmpty<T>(s: seq<T>, key: T -> string, k: string)
    ensures WithKey(s, key, k) == [] <==> forall j :: 0 <= j < |s| ==> key(s[j]) != k
  {
    if s != [] {
      WithKeyEmpty(s[1..], key, k);
      assert forall j :: 1 <= j < |s| ==> s[j] == s[1..][j - 1];
    }
  }

  /** Two sorted sequences with the same elements per key begin with the same element. */
  lemma SortedGroupsSameHead<T>(a: seq<T>, b: seq<T>, key: T -> string)
    requires a != [] && SortedBy(a, key) && SortedBy(b, key)
    requires forall k :: WithKey(a, key, k) == WithKey(b, key, k)
    ensures b != [] && a[0] == b[0]
  {
    var ka := key(a[0]);
    assert WithKey(a, key, ka) != [];
    assert WithKey(b, key, ka) != [];
    var kb := key(b[0]);
    assert WithKey(b, key, kb) != [];
    assert WithKey(a, key, kb) != [];
    WithKeyEmpty(a, key, kb);
    WithKeyEmpty(b, key, ka);
    var i :| 0 <= i < |a| && key(a[i]) == kb;
    var j :| 0 <= j < |b| && key(b[j]) == ka;
    LexLeReflexive(ka);
    LexLeReflexive(kb);
    assert LexLe(ka, kb) && LexLe(kb, ka);
    LexLeAntisymmetric(ka, kb);
    assert a[0] == WithKey(a, key, ka)[0];
    assert b[0] == WithKey(b, key, ka)[0];
  }

  lemma SameHeadGroupsOfTails<T>(a: seq<T>, b: seq<T>, key: T -> string, k: string)
    requires a != [] && b != [] && a[0] == b[0]
    requires WithKey(a, key, k) == WithKey(b, key, k)
    ensures WithKey(a[1..], key, k) == WithKey(b[1..], key, k)
  {
    var h := if key(a[0]) == k then [a[0]] else [];
    assert WithKey(a, key, k) == h + WithKey(a[1..], key, k);
    assert WithKey(b, key, k) == h + WithKey(b[1..], key, k);
    assert (h + WithKey(a[1..], key, k))[|h|..] == WithKey(a[1..], key, k);
    assert (h + WithKey(b[1..], key, k))[|h|..] == WithKey(b[1..], key, k);
  }

  /** Two sorted sequences with the same elements per key, in the same order, are equal. */
  lemma {:induction false} SortedGroupsDetermine<T>(a: seq<T>, b: seq<T>, key: T -> string)
    requires SortedBy(a, key) && SortedBy(b, key)
    requires forall k :: WithKey(a, key, k) == WithKey(b, key, k)
    ensures a == b
    decreases |a|
  {
    if a != [] {
      SortedGroupsSameHead(a, b, key);
      forall k ensures WithKey(a[1..], key, k) == WithKey(b[1..], key, k) {
        SameHeadGroupsOfTails(a, b, key, k);
      }
      SortedGroupsDetermine(a[1..], b[1..], key);
      assert a == [a[0]] + a[1..] && b == [b[0]] + b[1..];
    } else if b != [] {
      SortedGroupsSameHead(b, a, key);
    }
  }

  /**
   * Any sorted sequence that keeps, for every key, the elements of `s` with
   * that key in their order in `s` is SortByKey(s, key): a stable sort has
   * exactly one possible outcome, whatever algorithm computes it.
   */
  lemma StableSortUnique<T>(r: seq<T>, s: seq<T>, key: T -> string)
    requires SortedBy(r, key)
    requires forall k :: WithKey(r, key, k) == WithKey(s, key, k)
    ensures r == SortByKey(s, key)
  {
    SortedGroupsDetermine(r, SortByKey(s, key), key);
  }

  lemma {:induction false} UniqueHasSmallGroups<T>(s: seq<T>, key: T -> string, k: string)
    requires UniqueBy(s, key)
    ensures |WithKey(s, key, k)| <= 1
  {
    if s != [] {
      assert forall j :: 1 <= j < |s| ==> s[j] == s[1..][j - 1];
      assert UniqueBy(s[1..], key);
      UniqueHasSmallGroups(s[1..], key, k);
      if key(s[0]) == k {
        WithKeyEmpty(s[1..], key, k);
      }
    }
  }

  lemma {:induction false} SmallGroupsAreUnique<T>(s: seq<T>, key: T -> string)
    requires forall k :: |WithKey(s, key, k)| <= 1
    ensures UniqueBy(s, key)
  {
    if s != [] {
      assert forall j :: 1 <= j < |s| ==> s[j] == s[1..][j - 1];
      forall k ensures |WithKey(s[1..], key, k)| <= 1 {
        assert |WithKey(s, key, k)| <= 1;
      }
      SmallGroupsAreUnique(s[1..], key);
      assert |WithKey(s, key, key(s[0]))| <= 1;
      WithKeyEmpty(s[1..], key, key(s[0]));
    }
  }

  /** Sorting keeps keys unique. */
  lemma SortByKeyKeepsUnique<T>(s: seq<T>, key: T -> string)
    requires UniqueBy(s, key)
    ensures UniqueBy(SortByKey(s, key), key)
  {
    var r := SortByKey(s, key);
    forall k ensures |WithKey(r, key, k)| <= 1 {
      UniqueHasSmallGroups(s, key, k);
    }
    SmallGroupsAreUnique(r, key);
  }
}
