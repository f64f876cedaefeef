/**
 * A Python dict keeps its keys in first-insertion order; assigning to an
 * existing key replaces the value in place. Dict models such a dict with
 * string keys as an association list.
 */
module Dicts {
  import opened Wrappers
  import opened Ordering

  type Dict<V> = seq<(string, V)>

  /** `list(d.keys())` */
  function Keys<V>(d: Dict<V>): (r: seq<string>)
    ensures |r| == |d|
    ensures forall i :: 0 <= i < |d| ==> r[i] == d[i].0
  {
    seq(|d|, i requires 0 <= i < |d| => d[i].0)
  }

  /** `d.get(k)`, None when `k` is absent. */
  function Get<V>(d: Dict<V>, k: string): Option<V>
  {
    if d == [] then None
    else if d[0].0 == k then Some(d[0].1)
    else Get(d[1..], k)
  }

  /** `d[k] = v` */
  function Put<V>(d: Dict<V>, k: string, v: V): Dict<V>
  {
    if d == [] then [(k, v)]
    else if d[0].0 == k then [(k, v)] + d[1..]
    else [d[0]] + Put(d[1..], k, v)
  }

  /** `{k: v for (k, v) in pairs}` */
  function FromPairs<V>(pairs: seq<(string, V)>): Dict<V>
  {
    if pairs == [] then []
    else
      var last := pairs[|pairs| - 1];
      Put(FromPairs(pairs[..|pairs| - 1]), last.0, last.1)
  }

  /** The value of the last pair whose key is `k`. */
  function LastValue<V>(pairs: seq<(string, V)>, k: string): Option<V>
  {
    if pairs == [] then None
    else if pairs[|pairs| - 1].0 == k then Some(pairs[|pairs| - 1].1)
    else LastValue(pairs[..|pairs| - 1], k)
  }

  lemma {:induction false} PutGet<V>(d: Dict<V>, k: string, v: V, k': string)
    ensures Get(Put(d, k, v), k') == if k' == k then Some(v) else Get(d, k')
  {
    if d != [] && d[0].0 != k {
      PutGet(d[1..], k, v, k');
      assert ([d[0]] + Put(d[1..], k, v))[1..] == Put(d[1..], k, v);
    } else if d != [] {
      assert ([(k, v)] + d[1..])[1..] == d[1..];
    }
  }

  lemma KeysCons<V>(x: (string, V), t: Dict<V>)
    ensures Keys([x] + t) == [x.0] + Keys(t)
  {
  }

  lemma KeysSnoc<V>(t: Dict<V>, x: (string, V))
    ensures Keys(t + [x]) == Keys(t) + [x.0]
  {
  }

  lemma {:induction false} PutKeys<V>(d: Dict<V>, k: string, v: V)
    ensures Keys(Put(d, k, v)) == if k in Keys(d) then Keys(d) else Keys(d) + [k]
  {
    if d == [] {
      KeysSnoc(d, (k, v));
    } else {
      KeysCons(d[0], d[1..]);
      assert d == [d[0]] + d[1..];
      if d[0].0 != k {
        PutKeys(d[1..], k, v);
        KeysCons(d[0], Put(d[1..], k, v));
        if k !in Keys(d[1..]) {
          KeysSnoc(d[1..], (k, v));
          assert [d[0].0] + (Keys(d[1..]) + [k]) == ([d[0].0] + Keys(d[1..])) + [k];
        }
      } else {
        KeysCons((k, v), d[1..]);
      }
    }
  }

  /** A repeated key keeps the value of its last pair. */
  lemma {:induction false} FromPairsGet<V>(pairs: seq<(string, V)>, k: string)
    ensures Get(FromPairs(pairs), k) == LastValue(pairs, k)
  {
    if pairs != [] {
      var last := pairs[|pairs| - 1];
      FromPairsGet(pairs[..|pairs| - 1], k);
      PutGet(FromPairs(pairs[..|pairs| - 1]), last.0, last.1, k);
    }
  }

  /** The keys are those of the pairs, in first-occurrence order. */
  lemma {:induction false} FromPairsKeys<V>(pairs: seq<(string, V)>)
    ensures Keys(FromPairs(pairs)) == Distinct(Keys(pairs))
  {
    if pairs != [] {
      var p := pairs[..|pairs| - 1];
      var last := pairs[|pairs| - 1];
      FromPairsKeys(p);
      PutKeys(FromPairs(p), last.0, last.1);
      assert Keys(pairs)[..|pairs| - 1] == Keys(p);
    }
  }

  lemma {:induction false} LastValueNone<V>(pairs: seq<(string, V)>, k: string)
    ensures LastValue(pairs, k) == None <==> k !in Keys(pairs)
  {
    if pairs != [] {
      var p := pairs[..|pairs| - 1];
      LastValueNone(p, k);
      assert Keys(pairs) == Keys(p) + [pairs[|pairs| - 1].0];
    }
  }

  lemma KeysTail<V>(d: Dict<V>)
    requires d != [] && NoDup(Keys(d))
    ensures Keys(d) == [d[0].0] + Keys(d[1..])
    ensures NoDup(Keys(d[1..]))
    ensures forall i :: 0 <= i < |d[1..]| ==> d[1..][i].0 != d[0].0
  {
    assert forall i :: 0 <= i < |d[1..]| ==> Keys(d[1..])[i] == Keys(d)[i + 1];
  }

  /** A key is found exactly when it is one of the keys. */
  lemma {:induction false} GetNone<V>(d: Dict<V>, k: string)
    ensures Get(d, k) == None <==> k !in Keys(d)
  {
    if d != [] {
      assert Keys(d) == [d[0].0] + Keys(d[1..]);
      GetNone(d[1..], k);
    }
  }

  /** With distinct keys, a lookup finds exactly the pairs of the list. */
  lemma {:induction false} GetSome<V>(d: Dict<V>, k: string, v: V)
    requires NoDup(Keys(d))
    ensures Get(d, k) == Some(v) <==> (k, v) in d
  {
    if d != [] {
      KeysTail(d);
      GetSome(d[1..], k, v);
      assert d == [d[0]] + d[1..];
    }
  }

  /** A reordering of a dict with distinct keys still has distinct keys. */
  lemma PermutationKeys<V>(d: Dict<V>, e: Dict<V>)
    requires NoDup(Keys(d)) && multiset(d) == multiset(e)
    ensures NoDup(Keys(e))
  {
    assert NoDup(d) by {
      forall i, j | 0 <= i < j < |d| ensures d[i] != d[j] { assert Keys(d)[i] != Keys(d)[j]; }
    }
    PermutationNoDup(d, e);
    forall i, j | 0 <= i < j < |e| ensures Keys(e)[i] != Keys(e)[j] {
      assert e[i] in multiset(d) && e[j] in multiset(d);
      var a :| 0 <= a < |d| && d[a] == e[i];
      var b :| 0 <= b < |d| && d[b] == e[j];
      assert a != b;
      assert Keys(d)[a] != Keys(d)[b];
    }
  }

  /** ... and the same lookups. */
  lemma PermutationGet<V>(d: Dict<V>, e: Dict<V>, k: string)
    requires NoDup(Keys(d)) && multiset(d) == multiset(e)
    ensures NoDup(Keys(e))
    ensures Get(e, k) == Get(d, k)
  {
    PermutationKeys(d, e);
    GetNone(d, k);
    GetNone(e, k);
    forall v ensures Get(d, k) == Some(v) <==> Get(e, k) == Some(v) {
      GetSome(d, k, v);
      GetSome(e, k, v);
      assert (k, v) in d <==> (k, v) in multiset(d);
      assert (k, v) in e <==> (k, v) in multiset(e);
    }
  }
}
