/**
 * Python's ordering of strings, tuples and lists is lexicographic; every
 * sort key of the program is turned into a sequence of integers (a string
 * into its code points) and compared with LexLe. `sorted(..., key=...)`
 * is stable; SortBy is a stable insertion sort, and the lemmas below show
 * that it is sorted, a permutation of its input, and keeps the input order
 * among elements with equal keys.
 */
module Ordering {

  /** `a <= b` in lexicographic order (a prefix is smaller). */
  predicate LexLe(a: seq<int>, b: seq<int>)
  {
    a == [] || (b != [] && (a[0] < b[0] || (a[0] == b[0] && LexLe(a[1..], b[1..]))))
  }

  lemma {:induction false} LexLeRefl(a: seq<int>)
    ensures LexLe(a, a)
  {
    if a != [] { LexLeRefl(a[1..]); }
  }

  lemma {:induction false} LexLeTotal(a: seq<int>, b: seq<int>)
    ensures LexLe(a, b) || LexLe(b, a)
  {
    if a != [] && b != [] && a[0] == b[0] { LexLeTotal(a[1..], b[1..]); }
  }

  lemma {:induction false} LexLeTrans(a: seq<int>, b: seq<int>, c: seq<int>)
    requires LexLe(a, b) && LexLe(b, c)
    ensures LexLe(a, c)
  {
    if a != [] && b != [] && c != [] && a[0] == b[0] == c[0] {
      LexLeTrans(a[1..], b[1..], c[1..]);
    }
  }

  lemma {:induction false} LexLeAntisym(a: seq<int>, b: seq<int>)
    requires LexLe(a, b) && LexLe(b, a)
    ensures a == b
  {
    if a != [] && b != [] {
      LexLeAntisym(a[1..], b[1..]);
      assert a == [a[0]] + a[1..] && b == [b[0]] + b[1..];
    }
  }

  /** Two sequences with a common prefix compare as their remainders do. */
  lemma {:induction false} LexLeCommonPrefix(p: seq<int>, a: seq<int>, b: seq<int>)
    ensures LexLe(p + a, p + b) <==> LexLe(a, b)
  {
    if p != [] {
      assert (p + a)[0] == p[0] && (p + b)[0] == p[0];
      assert (p + a)[1..] == p[1..] + a && (p + b)[1..] == p[1..] + b;
      LexLeCommonPrefix(p[1..], a, b);
    } else {
      assert p + a == a && p + b == b;
    }
  }

  /** After prefixes of equal length that differ, the rest does not matter. */
  lemma {:induction false} LexLeDifferentPrefix(p: seq<int>, q: seq<int>, a: seq<int>, b: seq<int>)
    requires |p| == |q| && p != q
    ensures LexLe(p + a, q + b) <==> LexLe(p, q)
  {
    assert p != [] && q != [];
    assert (p + a)[0] == p[0] && (q + b)[0] == q[0];
    assert (p + a)[1..] == p[1..] + a && (q + b)[1..] == q[1..] + b;
    if p[0] == q[0] {
      assert p == [p[0]] + p[1..] && q == [q[0]] + q[1..];
      LexLeDifferentPrefix(p[1..], q[1..], a, b);
    }
  }

  /** The code points of a string: Python compares strings by these. */
  function Codes(s: string): (r: seq<int>)
    ensures |r| == |s|
    ensures forall i :: 0 <= i < |s| ==> r[i] == s[i] as int
  {
    seq(|s|, i requires 0 <= i < |s| => s[i] as int)
  }

  lemma CodesInjective(a: string, b: string)
    requires Codes(a) == Codes(b)
    ensures a == b
  {
    assert |a| == |b|;
    forall i | 0 <= i < |a| ensures a[i] == b[i] {
      assert Codes(a)[i] == Codes(b)[i];
    }
  }

  lemma CodesDistinct(a: string, b: string)
    requires a != b
    ensures Codes(a) != Codes(b)
  {
    if |a| == |b| {
      var k :| 0 <= k < |a| && a[k] != b[k];
      assert Codes(a)[k] != Codes(b)[k];
    }
  }

  lemma CodesAppend(a: string, b: string)
    ensures Codes(a + b) == Codes(a) + Codes(b)
  {
  }

  /** Python's `a <= b` on strings. */
  predicate StrLe(a: string, b: string)
  {
    LexLe(Codes(a), Codes(b))
  }

  ghost predicate SortedBy<T>(s: seq<T>, key: T -> seq<int>)
  {
    forall i, j :: 0 <= i < j < |s| ==> LexLe(key(s[i]), key(s[j]))
  }

  /** The elements of `s` whose key is `k`, in their order in `s`. */
  function KeyFilter<T>(s: seq<T>, key: T -> seq<int>, k: seq<int>): seq<T>
  {
    if s == [] then []
    else (if key(s[0]) == k then [s[0]] else []) + KeyFilter(s[1..], key, k)
  }

  /** Puts `x` in front of the first element whose key is not smaller. */
  function Insert<T>(x: T, t: seq<T>, key: T -> seq<int>): (r: seq<T>)
    ensures multiset(r) == multiset(t) + multiset{x}
    ensures |r| == |t| + 1
  {
    if t == [] then [x]
    else if LexLe(key(x), key(t[0])) then [x] + t
    else
      assert t == [t[0]] + t[1..];
      [t[0]] + Insert(x, t[1..], key)
  }

  /** `sorted(s, key=key)`: a stable insertion sort. */
  function SortBy<T>(s: seq<T>, key: T -> seq<int>): (r: seq<T>)
    ensures multiset(r) == multiset(s)
    ensures |r| == |s|
  {
    if s == [] then []
    else
      assert s == [s[0]] + s[1..];
      Insert(s[0], SortBy(s[1..], key), key)
  }

  lemma {:induction false} InsertSorted<T>(x: T, t: seq<T>, key: T -> seq<int>)
    requires SortedBy(t, key)
    ensures SortedBy(Insert(x, t, key), key)
  {
    if t == [] {
    } else if LexLe(key(x), key(t[0])) {
      var r := [x] + t;
      forall i, j | 0 <= i < j < |r| ensures LexLe(key(r[i]), key(r[j])) {
        if i == 0 {
          if j > 1 { LexLeTrans(key(x), key(t[0]), key(t[j - 1])); }
        }
      }
    } else {
      LexLeTotal(key(x), key(t[0]));
      var rest := Insert(x, t[1..], key);
      InsertSorted(x, t[1..], key);
      var r := [t[0]] + rest;
      forall j | 0 <= j < |rest| ensures LexLe(key(t[0]), key(rest[j])) {
        assert rest[j] in multiset(rest);
        assert rest[j] == x || rest[j] in multiset(t[1..]);
        if rest[j] != x {
          var m :| 0 <= m < |t[1..]| && t[1..][m] == rest[j];
          assert t[m + 1] == rest[j];
        }
      }
      forall i, j | 0 <= i < j < |r| ensures LexLe(key(r[i]), key(r[j])) {
        if i == 0 { assert r[j] == rest[j - 1]; }
        else { assert r[i] == rest[i - 1] && r[j] == rest[j - 1]; }
      }
    }
  }

  lemma {:induction false} SortBySorted<T>(s: seq<T>, key: T -> seq<int>)
    ensures SortedBy(SortBy(s, key), key)
  {
    if s != [] {
      SortBySorted(s[1..], key);
      InsertSorted(s[0], SortBy(s[1..], key), key);
    }
  }

  lemma {:induction false} KeyFilterCons<T>(x: T, t: seq<T>, key: T -> seq<int>, k: seq<int>)
    ensures KeyFilter([x] + t, key, k) == (if key(x) == k then [x] else []) + KeyFilter(t, key, k)
  {
    assert ([x] + t)[0] == x && ([x] + t)[1..] == t;
  }

  lemma {:induction false} InsertKeyFilter<T>(x: T, t: seq<T>, key: T -> seq<int>, k: seq<int>)
    ensures KeyFilter(Insert(x, t, key), key, k)
         == (if key(x) == k then [x] else []) + KeyFilter(t, key, k)
  {
    if t == [] {
      KeyFilterCons(x, t, key, k);
    } else if LexLe(key(x), key(t[0])) {
      KeyFilterCons(x, t, key, k);
    } else {
      assert t == [t[0]] + t[1..];
      KeyFilterCons(t[0], Insert(x, t[1..], key), key, k);
      InsertKeyFilter(x, t[1..], key, k);
      KeyFilterCons(t[0], t[1..], key, k);
      if key(x) == k && key(t[0]) == k { LexLeRefl(k); }
    }
  }

  lemma {:induction false} KeyFilterAppend<T>(a: seq<T>, b: seq<T>, key: T -> seq<int>, k: seq<int>)
    ensures KeyFilter(a + b, key, k) == KeyFilter(a, key, k) + KeyFilter(b, key, k)
  {
    if a == [] {
      assert a + b == b;
    } else {
      var head := if key(a[0]) == k then [a[0]] else [];
      assert a + b == [a[0]] + (a[1..] + b);
      KeyFilterCons(a[0], a[1..] + b, key, k);
      KeyFilterAppend(a[1..], b, key, k);
      assert KeyFilter(a, key, k) == head + KeyFilter(a[1..], key, k);
      assert head + (KeyFilter(a[1..], key, k) + KeyFilter(b, key, k))
          == (head + KeyFilter(a[1..], key, k)) + KeyFilter(b, key, k);
    }
  }

  /** Stability: among equal keys the sorted order is the input order. */
  lemma {:induction false} SortByStable<T>(s: seq<T>, key: T -> seq<int>, k: seq<int>)
    ensures KeyFilter(SortBy(s, key), key, k) == KeyFilter(s, key, k)
  {
    if s != [] {
      SortByStable(s[1..], key, k);
      InsertKeyFilter(s[0], SortBy(s[1..], key), key, k);
    }
  }

  /** No two elements of `s` share a key. */
  ghost predicate KeysDistinct<T>(s: seq<T>, key: T -> seq<int>)
  {
    forall i, j :: 0 <= i < j < |s| ==> key(s[i]) != key(s[j])
  }

  /** With distinct keys, sorted order is strictly increasing. */
  lemma SortedDistinctStrict<T>(s: seq<T>, key: T -> seq<int>, i: int, j: int)
    requires SortedBy(s, key) && KeysDistinct(s, key)
    requires 0 <= i < j < |s|
    ensures LexLe(key(s[i]), key(s[j])) && !LexLe(key(s[j]), key(s[i]))
  {
    if LexLe(key(s[j]), key(s[i])) { LexLeAntisym(key(s[i]), key(s[j])); }
  }

  /** No element occurs twice. */
  ghost predicate NoDup<T>(s: seq<T>)
  {
    forall i, j :: 0 <= i < j < |s| ==> s[i] != s[j]
  }

  lemma {:induction false} NoDupMultiset<T>(s: seq<T>, x: T)
    requires NoDup(s)
    ensures multiset(s)[x] <= 1
  {
    if s != [] {
      assert s == [s[0]] + s[1..];
      NoDupMultiset(s[1..], x);
      if s[0] == x {
        assert forall m :: 0 <= m < |s[1..]| ==> s[1..][m] == s[m + 1];
        assert x !in s[1..];
      }
    }
  }

  lemma MultisetNoDup<T>(s: seq<T>)
    requires forall x :: multiset(s)[x] <= 1
    ensures NoDup(s)
  {
    forall i, j | 0 <= i < j < |s| ensures s[i] != s[j] {
      assert s == s[..i] + [s[i]] + s[i + 1..j] + [s[j]] + s[j + 1..];
      assert multiset(s) == multiset(s[..i]) + multiset{s[i]} + multiset(s[i + 1..j])
                          + multiset{s[j]} + multiset(s[j + 1..]);
      assert multiset(s)[s[i]] >= multiset{s[i]}[s[i]] + multiset{s[j]}[s[i]];
      assert multiset(s)[s[i]] <= 1;
    }
  }

  lemma PermutationNoDup<T>(s: seq<T>, t: seq<T>)
    requires NoDup(s) && multiset(s) == multiset(t)
    ensures NoDup(t)
  {
    forall x ensures multiset(t)[x] <= 1 { NoDupMultiset(s, x); }
    MultisetNoDup(t);
  }

  /** A permutation of a sequence with distinct keys has distinct keys. */
  lemma PermutationKeysDistinct<T>(s: seq<T>, t: seq<T>, key: T -> seq<int>)
    requires KeysDistinct(s, key) && multiset(s) == multiset(t)
    ensures KeysDistinct(t, key)
  {
    PermutationNoDup(s, t);
    forall i, j | 0 <= i < j < |t| ensures key(t[i]) != key(t[j]) {
      assert t[i] in multiset(s) && t[j] in multiset(s);
      var a :| 0 <= a < |s| && s[a] == t[i];
      var b :| 0 <= b < |s| && s[b] == t[j];
      if a < b {
        assert key(s[a]) != key(s[b]);
      } else if b < a {
        assert key(s[b]) != key(s[a]);
      }
    }
  }

  /** First-occurrence de-duplication (the order of a Python dict's keys). */
  function Distinct<T(==)>(s: seq<T>): (r: seq<T>)
  {
    if s == [] then []
    else
      var d := Distinct(s[..|s| - 1]);
      if s[|s| - 1] in d then d else d + [s[|s| - 1]]
  }

  /** Distinct keeps exactly the elements of its input, each once. */
  lemma {:induction false} DistinctSpec<T>(s: seq<T>)
    ensures forall x :: x in Distinct(s) <==> x in s
    ensures NoDup(Distinct(s))
  {
    if s != [] {
      var p := s[..|s| - 1];
      DistinctSpec(p);
      assert s == p + [s[|s| - 1]];
    }
  }

  /** `sorted(set(s))` for strings: the distinct elements in ascending order. */
  function SortedSet(s: seq<string>): (r: seq<string>)
  {
    SortBy(Distinct(s), Codes)
  }

  /**
   * `sorted(set(s))` is strictly ascending and holds exactly the elements
   * of `s` — what SensorTypes, the pivot's rows and its columns rely on.
   */
  lemma SortedSetSpec(s: seq<string>)
    ensures var r := SortedSet(s);
      && (forall x :: x in r <==> x in s)
      && NoDup(r)
      && forall i, j :: 0 <= i < j < |r| ==> StrLe(r[i], r[j]) && !StrLe(r[j], r[i])
  {
    var d := Distinct(s);
    var r := SortBy(d, Codes);
    DistinctSpec(s);
    assert forall x :: x in r <==> x in multiset(r);
    assert forall x :: x in d <==> x in multiset(d);
    PermutationNoDup(d, r);
    SortBySorted(d, Codes);
    forall i, j | 0 <= i < j < |r| ensures StrLe(r[i], r[j]) && !StrLe(r[j], r[i]) {
      if StrLe(r[j], r[i]) {
        LexLeAntisym(Codes(r[i]), Codes(r[j]));
        CodesInjective(r[i], r[j]);
      }
    }
  }

  /** `a` is `b` with some elements left out, the rest in order. */
  predicate IsSubsequence<T(==)>(a: seq<T>, b: seq<T>)
  {
    a == [] || (b != [] && (if a[0] == b[0] then IsSubsequence(a[1..], b[1..]) else IsSubsequence(a, b[1..])))
  }

  lemma SubsequenceCons<T>(x: T, a: seq<T>, b: seq<T>)
    requires IsSubsequence(a, b)
    ensures IsSubsequence([x] + a, [x] + b)
  {
    assert ([x] + b)[1..] == b && ([x] + a)[1..] == a;
  }

  lemma {:induction false} SubsequenceOfTail<T>(a: seq<T>, b: seq<T>)
    requires a != [] && IsSubsequence(a, b)
    ensures IsSubsequence(a[1..], b)
    decreases |b|, 0
  {
    assert b == [b[0]] + b[1..];
    if a[0] == b[0] {
      SubsequenceWeaken(a[1..], b[1..], b[0]);
    } else {
      SubsequenceOfTail(a, b[1..]);
      SubsequenceWeaken(a[1..], b[1..], b[0]);
    }
  }

  /** A subsequence of `b` is one of any longer `[x] + b`. */
  lemma {:induction false} SubsequenceWeaken<T>(a: seq<T>, b: seq<T>, x: T)
    requires IsSubsequence(a, b)
    ensures IsSubsequence(a, [x] + b)
    decreases |b|, 1
  {
    assert ([x] + b)[1..] == b;
    if a != [] && a[0] == x {
      SubsequenceOfTail(a, b);
    }
  }

  /** `[f(x) for x in s]` */
  function MapSeq<A, B>(s: seq<A>, f: A -> B): (r: seq<B>)
    ensures |r| == |s|
  {
    seq(|s|, i requires 0 <= i < |s| => f(s[i]))
  }

  lemma MapSeqSnoc<A, B>(s: seq<A>, i: int, f: A -> B)
    requires 0 <= i < |s|
    ensures MapSeq(s[..i + 1], f) == MapSeq(s[..i], f) + [f(s[i])]
  {
    var a := MapSeq(s[..i + 1], f);
    var b := MapSeq(s[..i], f) + [f(s[i])];
    forall k | 0 <= k < |a| ensures a[k] == b[k] {
      if k < i {
        assert s[..i + 1][k] == s[..i][k];
      }
    }
  }
}
