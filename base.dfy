/**
 * Small shared vocabulary of the flowchart model: optional values, results,
 * and the stable sort by `order` that the chart uses for its element lists
 * and for exported data.
 */
module Base {

  datatype Option<+T> = None | Some(value: T)

  datatype Result<+T, +E> = Ok(value: T) | Err(error: E)

  /** `s` is ordered by `key`, ties allowed. */
  ghost predicate SortedBy<T>(s: seq<T>, key: T -> int)
  {
    forall i, j :: 0 <= i < j < |s| ==> key(s[i]) <= key(s[j])
  }

  /** The elements of `s` whose key is `k`, in their order in `s`. */
  function WithKey<T>(s: seq<T>, key: T -> int, k: int): (r: seq<T>)
    ensures |r| <= |s|
  {
    if s == [] then []
    else (if key(s[0]) == k then [s[0]] else []) + WithKey(s[1..], key, k)
  }

  /** `t` keeps, for every key value, the elements of `s` carrying it in their order in `s`. */
  ghost predicate StableBy<T>(t: seq<T>, s: seq<T>, key: T -> int)
  {
    forall k :: WithKey(t, key, k) == WithKey(s, key, k)
  }

  /** Puts `x` in front of the first element whose key is not smaller. */
  function InsertBy<T>(x: T, s: seq<T>, key: T -> int): (r: seq<T>)
    ensures |r| == |s| + 1
    ensures multiset(r) == multiset(s) + multiset{x}
  {
    if s == [] || key(x) <= key(s[0]) then [x] + s
    else
      assert s == [s[0]] + s[1..];
      [s[0]] + InsertBy(x, s[1..], key)
  }

  /**
   * Stable sort by an integer key: the comparator `e1.order - e2.order`
   * handed to Array.prototype.sort, which is stable.
   */
  function SortBy<T>(s: seq<T>, key: T -> int): (r: seq<T>)
    ensures |r| == |s|
    ensures multiset(r) == multiset(s)
  {
    if s == [] then []
    else
      assert s == [s[0]] + s[1..];
      InsertBy(s[0], SortBy(s[1..], key), key)
  }

  lemma {:induction false} InsertBySorted<T>(x: T, s: seq<T>, key: T -> int)
    requires SortedBy(s, key)
    ensures SortedBy(InsertBy(x, s, key), key)
  {
    if s == [] || key(x) <= key(s[0]) {
    } else {
      InsertBySorted(x, s[1..], key);
      var t := InsertBy(x, s[1..], key);
      assert multiset(t) == multiset(s[1..]) + multiset{x};
      forall j | 0 <= j < |t| ensures key(s[0]) <= key(t[j]) {
        assert t[j] in multiset(t);
        if t[j] == x {
        } else {
          assert t[j] in multiset(s[1..]);
          var m :| 0 <= m < |s[1..]| && s[1..][m] == t[j];
          assert s[m + 1] == t[j];
        }
      }
    }
  }

  /** The sort yields an ordered permutation of its input. */
  lemma {:induction false} SortBySorted<T>(s: seq<T>, key: T -> int)
    ensures SortedBy(SortBy(s, key), key)
    ensures multiset(SortBy(s, key)) == multiset(s)
  {
    if s != [] {
      SortBySorted(s[1..], key);
      InsertBySorted(s[0], SortBy(s[1..], key), key);
    }
  }

  /** The tail of an ordered sequence is ordered. */
  lemma SortedTail<T>(s: seq<T>, key: T -> int)
    requires SortedBy(s, key) && s != []
    ensures SortedBy(s[1..], key)
  {
    var tail := s[1..];
    forall i, j | 0 <= i < j < |tail| ensures key(tail[i]) <= key(tail[j]) {
      assert tail[i] == s[i + 1] && tail[j] == s[j + 1];
    }
  }

  /** WithKey of a sequence with a given head. */
  lemma WithKeyCons<T>(h: T, t: seq<T>, key: T -> int, k: int)
    ensures WithKey([h] + t, key, k) == (if key(h) == k then [h] else []) + WithKey(t, key, k)
  {
    var r := [h] + t;
    assert r[0] == h && r[1..] == t;
  }

  lemma {:induction false} InsertByWithKey<T>(x: T, s: seq<T>, key: T -> int, k: int)
    requires SortedBy(s, key)
    ensures WithKey(InsertBy(x, s, key), key, k)
         == (if key(x) == k then [x] else []) + WithKey(s, key, k)
  {
    if s == [] || key(x) <= key(s[0]) {
      WithKeyCons(x, s, key, k);
    } else {
      var tail := s[1..];
      SortedTail(s, key);
      InsertByWithKey(x, tail, key, k);
      WithKeyCons(s[0], InsertBy(x, tail, key), key, k);
      WithKeyCons(s[0], tail, key, k);
      assert s == [s[0]] + tail;
      // s[0] sorts strictly before x, so when x carries k, s[0] does not
    }
  }

  /**
   * Stability: for every key value, the elements carrying it appear in the
   * sorted output in exactly the order they had in the input.
   */
  lemma {:induction false} SortByStable<T>(s: seq<T>, key: T -> int, k: int)
    ensures WithKey(SortBy(s, key), key, k) == WithKey(s, key, k)
  {
    if s != [] {
      SortByStable(s[1..], key, k);
      SortBySorted(s[1..], key);
      InsertByWithKey(s[0], SortBy(s[1..], key), key, k);
    }
  }

  /** A sequence is its prefix, one element and its suffix. */
  lemma Around<T>(s: seq<T>, k: nat)
    requires k < |s|
    ensures s == s[..k] + [s[k]] + s[k + 1..]
  {
  }

  /** Position of the first occurrence of `x` in `s`, or -1 (Array.prototype.findIndex). */
  function IndexOf<T(==)>(s: seq<T>, x: T): (r: int)
    ensures -1 <= r < |s|
    ensures r == -1 <==> x !in s
    ensures r >= 0 ==> s[r] == x && forall k :: 0 <= k < r ==> s[k] != x
  {
    if s == [] then -1
    else if s[0] == x then 0
    else var t := IndexOf(s[1..], x); if t == -1 then -1 else t + 1
  }

  /** The first `x` of `a + [x] + b`, when `a` has none, is the one after `a`. */
  lemma IndexOfAfter<T>(a: seq<T>, x: T, b: seq<T>)
    requires x !in a
    ensures IndexOf(a + [x] + b, x) == |a|
  {
    var s := a + [x] + b;
    assert s[|a|] == x;
  }

  /** Removes the element at `i` (Array.prototype.splice(i, 1)). */
  function RemoveAt<T>(s: seq<T>, i: nat): (r: seq<T>)
    requires i < |s|
    ensures |r| == |s| - 1
    ensures forall k :: 0 <= k < i ==> r[k] == s[k]
    ensures forall k :: i <= k < |r| ==> r[k] == s[k + 1]
  {
    s[..i] + s[i + 1..]
  }

  /** The elements of `s` that satisfy `p`, in order (Array.prototype.filter). */
  function Filter<T>(s: seq<T>, p: T -> bool): (r: seq<T>)
    ensures |r| <= |s|
    ensures forall i :: 0 <= i < |r| ==> p(r[i])
    ensures forall i :: 0 <= i < |r| ==> r[i] in s
    ensures forall i :: 0 <= i < |s| && p(s[i]) ==> s[i] in r
  {
    if s == [] then []
    else
      assert s == [s[0]] + s[1..];
      (if p(s[0]) then [s[0]] else []) + Filter(s[1..], p)
  }

  /** Index of the first element satisfying `p`, or -1 (Array.prototype.findIndex). */
  function FirstIndex<T>(s: seq<T>, p: T -> bool): (r: int)
    ensures -1 <= r < |s|
    ensures r >= 0 ==> p(s[r]) && forall k :: 0 <= k < r ==> !p(s[k])
    ensures r == -1 <==> forall k :: 0 <= k < |s| ==> !p(s[k])
  {
    if s == [] then -1
    else if p(s[0]) then 0
    else var t := FirstIndex(s[1..], p); if t == -1 then -1 else t + 1
  }

  lemma FilterMember<T>(s: seq<T>, p: T -> bool, x: T)
    ensures x in Filter(s, p) <==> x in s && p(x)
  {
    var r := Filter(s, p);
    if x in r {
      var i :| 0 <= i < |r| && r[i] == x;
    }
    if x in s && p(x) {
      var i :| 0 <= i < |s| && s[i] == x;
    }
  }

  /** Filtering a sequence extended at the end extends the filtered one. */
  lemma {:induction false} FilterSnoc<T>(s: seq<T>, x: T, p: T -> bool)
    ensures Filter(s + [x], p) == Filter(s, p) + (if p(x) then [x] else [])
  {
    if s == [] {
      assert [] + [x] == [x];
      assert [x][1..] == [];
    } else {
      var t := s + [x];
      assert t[0] == s[0] && t[1..] == s[1..] + [x];
      FilterSnoc(s[1..], x, p);
    }
  }

  /** Two tests that agree on the elements of `s` filter it alike. */
  lemma {:induction false} FilterAgree<T>(s: seq<T>, p: T -> bool, q: T -> bool)
    requires forall i :: 0 <= i < |s| ==> p(s[i]) == q(s[i])
    ensures Filter(s, p) == Filter(s, q)
  {
    if s != [] {
      FilterAgree(s[1..], p, q);
    }
  }

  /** Filtering twice with a narrowing test is filtering once. */
  lemma {:induction false} FilterTwice<T>(s: seq<T>, p: T -> bool, q: T -> bool)
    requires forall i :: 0 <= i < |s| && q(s[i]) ==> p(s[i])
    ensures Filter(Filter(s, p), q) == Filter(s, q)
  {
    if s != [] {
      assert forall i :: 0 <= i < |s[1..]| ==> s[1..][i] == s[i + 1];
      FilterTwice(s[1..], p, q);
      var rest := Filter(s[1..], p);
      assert s == [s[0]] + s[1..];
      assert Filter(s, q) == (if q(s[0]) then [s[0]] else []) + Filter(s[1..], q);
      if p(s[0]) {
        var t := [s[0]] + rest;
        assert Filter(s, p) == t;
        assert t[0] == s[0] && t[1..] == rest;
        assert Filter(t, q) == (if q(s[0]) then [s[0]] else []) + Filter(rest, q);
      } else {
        assert !q(s[0]);
        assert Filter(s, p) == rest;
      }
    }
  }

  ghost predicate NoDuplicates<T>(s: seq<T>)
  {
    forall i, j :: 0 <= i < j < |s| ==> s[i] != s[j]
  }

  /** Filtering keeps elements apart. */
  lemma {:induction false} FilterNoDuplicates<T>(s: seq<T>, p: T -> bool)
    requires NoDuplicates(s)
    ensures NoDuplicates(Filter(s, p))
  {
    if s != [] {
      var tail := s[1..];
      assert NoDuplicates(tail) by {
        forall i, j | 0 <= i < j < |tail| ensures tail[i] != tail[j] {
          assert tail[i] == s[i + 1] && tail[j] == s[j + 1];
        }
      }
      FilterNoDuplicates(tail, p);
      var f := Filter(tail, p);
      assert s[0] !in tail by {
        forall k | 0 <= k < |tail| ensures tail[k] != s[0] {
          assert tail[k] == s[k + 1];
        }
      }
      assert s[0] !in f by {
        FilterMember(tail, p, s[0]);
      }
    }
  }

  /** In a sequence without repeats every value occurs at most once. */
  lemma {:induction false} DistinctCount<T>(s: seq<T>, x: T)
    requires NoDuplicates(s)
    ensures multiset(s)[x] <= 1
  {
    if s != [] {
      var tail := s[1..];
      assert s == [s[0]] + tail;
      assert NoDuplicates(tail) by {
        forall i, j | 0 <= i < j < |tail| ensures tail[i] != tail[j] {
          assert tail[i] == s[i + 1] && tail[j] == s[j + 1];
        }
      }
      DistinctCount(tail, x);
      if x == s[0] {
        assert x !in tail by {
          forall k | 0 <= k < |tail| ensures tail[k] != x {
            assert tail[k] == s[k + 1];
          }
        }
      }
    }
  }

  /** A permutation of a sequence without repeats has none either. */
  lemma PermutationNoDuplicates<T>(a: seq<T>, b: seq<T>)
    requires NoDuplicates(a) && multiset(a) == multiset(b)
    ensures NoDuplicates(b)
  {
    forall i, j | 0 <= i < j < |b| ensures b[i] != b[j] {
      if b[i] == b[j] {
        var x := b[i];
        assert b == b[..j] + b[j..];
        assert x in b[..j] && x in b[j..];
        assert multiset(b)[x] == multiset(b[..j])[x] + multiset(b[j..])[x];
        DistinctCount(a, x);
        assert false;
      }
    }
  }

  /** The next prefix of a sequence is the last one and one more element. */
  lemma PrefixSnoc<T>(s: seq<T>, i: nat)
    requires i < |s|
    ensures s[..i + 1] == s[..i] + [s[i]]
  {
  }

  // ---------------------------------------------------------------------
  // Decimal notation
  // ---------------------------------------------------------------------

  predicate IsDigit(c: char)
  {
    '0' <= c <= '9'
  }

  predicate AllDigits(s: string)
  {
    forall i :: 0 <= i < |s| ==> IsDigit(s[i])
  }

  function DigitChar(d: nat): (c: char)
    requires d < 10
    ensures IsDigit(c)
  {
    "0123456789"[d]
  }

  /** Decimal notation of a natural number, without leading zeros. */
  function Decimal(n: nat): (r: string)
    ensures |r| >= 1 && AllDigits(r)
    ensures |r| > 1 ==> r[0] != '0'
    ensures '*' !in r && '-' !in r
  {
    if n < 10 then [DigitChar(n)] else Decimal(n / 10) + [DigitChar(n % 10)]
  }

  /** String(n) for an integer n. */
  function IntString(n: int): string
  {
    if n < 0 then "-" + Decimal(-n) else Decimal(n)
  }

  /** The value of a string of decimal digits. */
  function DigitsValue(s: string): (n: nat)
    requires AllDigits(s)
  {
    if s == [] then 0 else DigitsValue(s[..|s| - 1]) * 10 + (s[|s| - 1] as int - '0' as int)
  }

  // ---------------------------------------------------------------------
  // Property order of an object
  // ---------------------------------------------------------------------

  /**
   * An array index (section 6.1.7 of ECMA-262): the canonical decimal
   * form of an integer below 2^32 - 1, without a sign or leading zeros.
   */
  predicate IsIndexKey(s: string)
  {
    && |s| >= 1 && AllDigits(s) && (|s| > 1 ==> s[0] != '0')
    && DigitsValue(s) < 0xFFFF_FFFF
  }

  /** The numeric value an index key sorts by. */
  function IndexValue(s: string): int
  {
    if AllDigits(s) then DigitsValue(s) else 0
  }

  /**
   * `s` puts the elements that pass `first` ahead of the others, and those
   * in ascending `key`.
   */
  ghost predicate RankOrdered<T>(s: seq<T>, first: T -> bool, key: T -> int)
  {
    forall i, j :: 0 <= i < j < |s| && first(s[j]) ==> first(s[i]) && key(s[i]) <= key(s[j])
  }

  /**
   * Adds `x` to a sequence ordered by `RankOrdered`: an `x` that passes
   * `first` goes in front of the first element that fails it or has a
   * larger key, any other `x` goes last.
   */
  function InsertRanked<T>(s: seq<T>, x: T, first: T -> bool, key: T -> int): (r: seq<T>)
    ensures multiset(r) == multiset(s) + multiset{x}
  {
    if s == [] then [x]
    else if first(x) && (!first(s[0]) || key(x) < key(s[0])) then [x] + s
    else
      assert s == [s[0]] + s[1..];
      [s[0]] + InsertRanked(s[1..], x, first, key)
  }

  /** The tail of a ranked sequence is ranked. */
  lemma RankedTail<T>(s: seq<T>, first: T -> bool, key: T -> int)
    requires RankOrdered(s, first, key) && s != []
    ensures RankOrdered(s[1..], first, key)
  {
    var tail := s[1..];
    forall i, j | 0 <= i < j < |tail| && first(tail[j]) ensures first(tail[i]) && key(tail[i]) <= key(tail[j]) {
      assert tail[i] == s[i + 1] && tail[j] == s[j + 1];
    }
  }

  /** Inserting keeps the sequence ranked. */
  lemma {:induction false} InsertRankedOrdered<T>(s: seq<T>, x: T, first: T -> bool, key: T -> int)
    requires RankOrdered(s, first, key)
    ensures RankOrdered(InsertRanked(s, x, first, key), first, key)
  {
    var r := InsertRanked(s, x, first, key);
    if s == [] {
    } else if first(x) && (!first(s[0]) || key(x) < key(s[0])) {
      forall i, j | 0 <= i < j < |r| && first(r[j]) ensures first(r[i]) && key(r[i]) <= key(r[j]) {
        assert r[j] == s[j - 1];
        if i > 0 {
          assert r[i] == s[i - 1];
        } else if j > 1 {
          assert first(s[0]) && key(s[0]) <= key(s[j - 1]);
        }
      }
    } else {
      var tail := s[1..];
      RankedTail(s, first, key);
      InsertRankedOrdered(tail, x, first, key);
      var rest := InsertRanked(tail, x, first, key);
      assert r == [s[0]] + rest;
      forall i, j | 0 <= i < j < |r| && first(r[j]) ensures first(r[i]) && key(r[i]) <= key(r[j]) {
        if i > 0 {
          assert r[i] == rest[i - 1] && r[j] == rest[j - 1];
        } else {
          assert r[j] in multiset(rest);
          if r[j] != x {
            assert r[j] in multiset(tail);
            var m :| 0 <= m < |tail| && tail[m] == r[j];
            assert s[m + 1] == r[j];
          }
        }
      }
    }
  }

  /** An element that fails `first` is added last. */
  lemma {:induction false} InsertRankedLast<T>(s: seq<T>, x: T, first: T -> bool, key: T -> int)
    requires !first(x)
    ensures InsertRanked(s, x, first, key) == s + [x]
  {
    if s != [] {
      InsertRankedLast(s[1..], x, first, key);
      assert s == [s[0]] + s[1..];
    }
  }

  /** Filtering a ranked sequence leaves it ranked. */
  lemma FilterRanked<T>(s: seq<T>, p: T -> bool, first: T -> bool, key: T -> int)
    requires RankOrdered(s, first, key)
    ensures RankOrdered(Filter(s, p), first, key)
  {
    var r := Filter(s, p);
    forall i, j | 0 <= i < j < |r| && first(r[j]) ensures first(r[i]) && key(r[i]) <= key(r[j]) {
      var a, b := FilterOrder(s, p, i, j);
    }
  }

  /** Filtering a non-empty sequence: its first element, when it passes, then the filtered rest. */
  lemma FilterCons<T>(s: seq<T>, p: T -> bool)
    requires s != []
    ensures Filter(s, p) == if p(s[0]) then [s[0]] + Filter(s[1..], p) else Filter(s[1..], p)
  {
    assert s == [s[0]] + s[1..];
  }

  /** An entry of a filtered sequence comes from an entry of the input. */
  lemma {:induction false} FilterIndex<T>(s: seq<T>, p: T -> bool, j: nat) returns (b: nat)
    requires j < |Filter(s, p)|
    ensures b < |s| && s[b] == Filter(s, p)[j]
  {
    FilterCons(s, p);
    if p(s[0]) && j == 0 {
      b := 0;
    } else {
      var b' := FilterIndex(s[1..], p, if p(s[0]) then j - 1 else j);
      b := b' + 1;
    }
  }

  /** Two entries of a filtered sequence come from two entries of the input in the same order. */
  lemma {:induction false} FilterOrder<T>(s: seq<T>, p: T -> bool, i: nat, j: nat) returns (a: nat, b: nat)
    requires i < j < |Filter(s, p)|
    ensures a < b < |s| && s[a] == Filter(s, p)[i] && s[b] == Filter(s, p)[j]
  {
    FilterCons(s, p);
    if p(s[0]) && i == 0 {
      var m := FilterIndex(s[1..], p, j - 1);
      a, b := 0, m + 1;
    } else {
      var d := if p(s[0]) then 1 else 0;
      var a', b' := FilterOrder(s[1..], p, i - d, j - d);
      a, b := a' + 1, b' + 1;
    }
  }

  /**
   * Keys in the order an object visits its own keys (OrdinaryOwnPropertyKeys,
   * section 10.1.11.1 of ECMA-262): the array indices first, ascending,
   * then the other keys.
   */
  ghost predicate InKeyOrder(keys: seq<string>)
  {
    RankOrdered(keys, IsIndexKey, IndexValue)
  }

  /**
   * The visiting order after a new key is added to an object: an array
   * index goes among the indices by value, any other key goes last.
   */
  function AddKey(keys: seq<string>, k: string): (r: seq<string>)
    ensures multiset(r) == multiset(keys) + multiset{k}
  {
    InsertRanked(keys, k, IsIndexKey, IndexValue)
  }

  /**
   * Adding a key keeps the keys in visiting order, and a key that is not
   * an array index is visited last.
   */
  lemma AddKeyOrdered(keys: seq<string>, k: string)
    ensures InKeyOrder(keys) ==> InKeyOrder(AddKey(keys, k))
    ensures !IsIndexKey(k) ==> AddKey(keys, k) == keys + [k]
  {
    if InKeyOrder(keys) {
      InsertRankedOrdered(keys, k, IsIndexKey, IndexValue);
    }
    if !IsIndexKey(k) {
      InsertRankedLast(keys, k, IsIndexKey, IndexValue);
    }
  }

  /** A new key joins the keys once. */
  lemma AddKeyMembers(keys: seq<string>, k: string)
    requires NoDuplicates(keys) && k !in keys
    ensures forall x :: x in AddKey(keys, k) <==> x in keys || x == k
    ensures NoDuplicates(AddKey(keys, k))
  {
    InsertRankedMembers(keys, k, IsIndexKey, IndexValue);
  }

  /** Inserting a new element adds it once. */
  lemma InsertRankedMembers<T>(s: seq<T>, x: T, first: T -> bool, key: T -> int)
    requires NoDuplicates(s) && x !in s
    ensures forall y :: y in InsertRanked(s, x, first, key) <==> y in s || y == x
    ensures NoDuplicates(InsertRanked(s, x, first, key))
  {
    var r := InsertRanked(s, x, first, key);
    forall y ensures y in r <==> y in s || y == x {
      assert y in r <==> y in multiset(r);
      assert y in s <==> y in multiset(s);
    }
    assert NoDuplicates(s + [x]);
    assert multiset(r) == multiset(s + [x]);
    PermutationNoDuplicates(s + [x], r);
  }

  /** Removing keys keeps the rest in visiting order. */
  lemma FilterKeyOrdered(keys: seq<string>, p: string -> bool)
    requires InKeyOrder(keys)
    ensures InKeyOrder(Filter(keys, p))
  {
    FilterRanked(keys, p, IsIndexKey, IndexValue);
  }
}
