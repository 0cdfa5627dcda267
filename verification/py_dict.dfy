/** Python's insertion-ordered `dict`, as far as the column bookkeeping
    needs it: a dict is a sequence of (key, value) pairs with distinct keys,
    assignment to an existing key keeps its position, and `a | b` keeps the
    keys of `a` first and takes the value from `b` on shared keys. */
module PyDict {
  import opened Wrappers

  type Dict<V> = seq<(string, V)>

  function Keys<V>(d: Dict<V>): (ks: seq<string>)
    ensures |ks| == |d|
    ensures forall i :: 0 <= i < |d| ==> ks[i] == d[i].0
  {
    if |d| == 0 then [] else Keys(d[..|d| - 1]) + [d[|d| - 1].0]
  }

  predicate Distinct(s: seq<string>) {
    forall i, j :: 0 <= i < j < |s| ==> s[i] != s[j]
  }

  /** No name of `a` is a name of `b`. */
  predicate Disjoint(a: seq<string>, b: seq<string>) {
    forall i, j :: 0 <= i < |a| && 0 <= j < |b| ==> a[i] != b[j]
  }

  /** Two lists of distinct names with no name in common join into a list
      of distinct names. */
  lemma DistinctJoin(a: seq<string>, b: seq<string>)
    requires Distinct(a) && Distinct(b) && Disjoint(a, b)
    ensures Distinct(a + b)
  {
    forall i, j | 0 <= i < j < |a + b|
      ensures (a + b)[i] != (a + b)[j]
    {
      if j < |a| {
        assert a[i] != a[j];
      } else if i < |a| {
        assert a[i] != b[j - |a|];
      } else {
        assert b[i - |a|] != b[j - |a|];
      }
    }
  }

  /** A list is apart from `c` when both of its parts are. */
  lemma DisjointJoin(a: seq<string>, b: seq<string>, c: seq<string>)
    requires Disjoint(a, c) && Disjoint(b, c)
    ensures Disjoint(a + b, c)
  {
    forall i, j | 0 <= i < |a + b| && 0 <= j < |c|
      ensures (a + b)[i] != c[j]
    {
      if i < |a| {
        assert a[i] != c[j];
      } else {
        assert b[i - |a|] != c[j];
      }
    }
  }

  /** The keys of two dicts laid end to end. */
  lemma KeysAppend<V>(a: Dict<V>, b: Dict<V>)
    ensures Keys(a + b) == Keys(a) + Keys(b)
  {
    var l := Keys(a + b);
    var r := Keys(a) + Keys(b);
    forall i | 0 <= i < |l|
      ensures l[i] == r[i]
    {
      if i < |a| {
        assert (a + b)[i] == a[i];
      } else {
        assert (a + b)[i] == b[i - |a|];
      }
    }
  }

  /** `d.get(k)`. */
  function Get<V>(d: Dict<V>, k: string): (r: Option<V>)
    ensures r.None? <==> k !in Keys(d)
    decreases |d|
  {
    if |d| == 0 then None
    else if d[|d| - 1].0 == k then Some(d[|d| - 1].1)
    else Get(d[..|d| - 1], k)
  }

  /** `d[k] = v`: an existing key keeps its position, a new key goes last. */
  function Put<V>(d: Dict<V>, k: string, v: V): (r: Dict<V>)
    requires Distinct(Keys(d))
    ensures Distinct(Keys(r))
    ensures k in Keys(d) ==> Keys(r) == Keys(d)
    ensures k !in Keys(d) ==> Keys(r) == Keys(d) + [k]
    ensures Get(r, k) == Some(v)
    ensures forall k' :: k' != k ==> Get(r, k') == Get(d, k')
  {
    if k in Keys(d) then Replace(d, k, v)
    else
      var r := d + [(k, v)];
      assert r[..|r| - 1] == d;
      r
  }

  /** The in-place half of `d[k] = v`, for a key already present. */
  function Replace<V>(d: Dict<V>, k: string, v: V): (r: Dict<V>)
    requires Distinct(Keys(d))
    requires k in Keys(d)
    ensures Keys(r) == Keys(d)
    ensures Get(r, k) == Some(v)
    ensures forall k' :: k' != k ==> Get(r, k') == Get(d, k')
    decreases |d|
  {
    var front := d[..|d| - 1];
    assert Keys(d) == Keys(front) + [d[|d| - 1].0];
    if d[|d| - 1].0 == k then
      var r := front + [(k, v)];
      assert r[..|r| - 1] == front;
      r
    else
      var r := Replace(front, k, v) + [d[|d| - 1]];
      assert r[..|r| - 1] == Replace(front, k, v);
      r
  }

  /** Every pair of `pairs` assigned in order, starting from `d`: this is
      both a dict comprehension and `d | dict(pairs)`. */
  function PutAll<V>(d: Dict<V>, pairs: seq<(string, V)>): (r: Dict<V>)
    requires Distinct(Keys(d))
    ensures Distinct(Keys(r))
    decreases |pairs|
  {
    if |pairs| == 0 then d
    else
      var last := pairs[|pairs| - 1];
      Put(PutAll(d, pairs[..|pairs| - 1]), last.0, last.1)
  }

  /** The keys of `s` not in `seen`, first occurrences only, in order. */
  function NewKeys(seen: seq<string>, s: seq<string>): (r: seq<string>)
    decreases |s|
  {
    if |s| == 0 then []
    else
      var front := NewKeys(seen, s[..|s| - 1]);
      var k := s[|s| - 1];
      if k in seen || k in front then front else front + [k]
  }

  lemma {:induction false} NewKeysFacts(seen: seq<string>, s: seq<string>)
    requires Distinct(seen)
    ensures Distinct(seen + NewKeys(seen, s))
    ensures forall k :: k in seen + NewKeys(seen, s) <==> k in seen || k in s
    decreases |s|
  {
    if |s| > 0 {
      NewKeysFacts(seen, s[..|s| - 1]);
      var front := NewKeys(seen, s[..|s| - 1]);
      var k := s[|s| - 1];
      if !(k in seen || k in front) {
        assert seen + (front + [k]) == (seen + front) + [k];
      }
      assert s == s[..|s| - 1] + [k];
    }
  }

  /** Assigning a sequence of pairs in order: keys of `d` stay first, new keys
      follow in first-occurrence order, and each key maps to its last value. */
  lemma {:induction false} PutAllKeys<V>(d: Dict<V>, pairs: seq<(string, V)>)
    requires Distinct(Keys(d))
    ensures Keys(PutAll(d, pairs)) == Keys(d) + NewKeys(Keys(d), Keys(pairs))
    decreases |pairs|
  {
    if |pairs| > 0 {
      var front := pairs[..|pairs| - 1];
      PutAllKeys(d, front);
      assert Keys(pairs) == Keys(front) + [pairs[|pairs| - 1].0];
      assert Keys(pairs)[..|pairs| - 1] == Keys(front);
      NewKeysFacts(Keys(d), Keys(front));
    }
  }

  /** The value a key ends with after assigning `pairs` in order: its last
      value in `pairs`, else its value in `d`. */
  function LastValue<V>(d: Dict<V>, pairs: seq<(string, V)>, k: string): Option<V>
    decreases |pairs|
  {
    if |pairs| == 0 then Get(d, k)
    else if pairs[|pairs| - 1].0 == k then Some(pairs[|pairs| - 1].1)
    else LastValue(d, pairs[..|pairs| - 1], k)
  }

  lemma {:induction false} PutAllGet<V>(d: Dict<V>, pairs: seq<(string, V)>, k: string)
    requires Distinct(Keys(d))
    ensures Get(PutAll(d, pairs), k) == LastValue(d, pairs, k)
    decreases |pairs|
  {
    if |pairs| > 0 {
      PutAllGet(d, pairs[..|pairs| - 1], k);
    }
  }

  /** `{k: v for k in ks}` */
  function FromKeys<V>(ks: seq<string>, v: V): (r: Dict<V>)
    ensures Distinct(Keys(r))
  {
    PutAll([], PairsWith(ks, v))
  }

  function PairsWith<V>(ks: seq<string>, v: V): (ps: seq<(string, V)>)
    ensures |ps| == |ks|
    ensures forall i :: 0 <= i < |ks| ==> ps[i] == (ks[i], v)
  {
    if |ks| == 0 then [] else PairsWith(ks[..|ks| - 1], v) + [(ks[|ks| - 1], v)]
  }

  /** `a | b` */
  function Union<V>(a: Dict<V>, b: Dict<V>): (r: Dict<V>)
    requires Distinct(Keys(a))
    ensures Distinct(Keys(r))
  {
    PutAll(a, b)
  }

  /** The keys of `{k: v for k in ks}`: first occurrences, in order. */
  lemma FromKeysKeys<V>(ks: seq<string>, v: V)
    ensures Keys(FromKeys(ks, v)) == NewKeys([], ks)
  {
    PutAllKeys([], PairsWith(ks, v));
    assert Keys(PairsWith(ks, v)) == ks;
  }

  /** Every key of `{k: v for k in ks}` maps to `v`. */
  lemma {:induction false} FromKeysGet<V>(ks: seq<string>, v: V, k: string)
    ensures Get(FromKeys(ks, v), k) == if k in ks then Some(v) else None
  {
    PutAllGet([], PairsWith(ks, v), k);
    LastValuePairsWith(ks, v, k);
  }

  lemma {:induction false} LastValuePairsWith<V>(ks: seq<string>, v: V, k: string)
    ensures LastValue([], PairsWith(ks, v), k) == if k in ks then Some(v) else None
    decreases |ks|
  {
    if |ks| > 0 {
      var n := |ks| - 1;
      assert PairsWith(ks, v)[..n] == PairsWith(ks[..n], v);
      LastValuePairsWith(ks[..n], v, k);
      assert ks == ks[..n] + [ks[n]];
    }
  }

  /** `a | b` takes the value of `b` on its keys and of `a` elsewhere. */
  lemma {:induction false} UnionGet<V>(a: Dict<V>, b: Dict<V>, k: string)
    requires Distinct(Keys(a))
    ensures Get(Union(a, b), k) == if k in Keys(b) then Get(b, k) else Get(a, k)
  {
    PutAllGet(a, b, k);
    LastValueGet(a, b, k);
  }

  lemma {:induction false} LastValueGet<V>(d: Dict<V>, pairs: seq<(string, V)>, k: string)
    ensures LastValue(d, pairs, k) == if k in Keys(pairs) then Get(pairs, k) else Get(d, k)
    decreases |pairs|
  {
    if |pairs| > 0 {
      var n := |pairs| - 1;
      LastValueGet(d, pairs[..n], k);
      assert Keys(pairs) == Keys(pairs[..n]) + [pairs[n].0];
    }
  }
}
