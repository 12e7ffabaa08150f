/** The JavaScript `Map` as the model uses it: a sequence of key/value
    entries in insertion order.  `set` on a key that is already present
    replaces its value where it stands, `set` on a new key appends, and
    `delete` removes the entry.  The map's iteration order is the order of
    this sequence. */
module JsMap {
  import opened Wrappers

  /** The keys, in iteration order. */
  function Keys<K, V>(m: seq<(K, V)>): seq<K> {
    seq(|m|, i requires 0 <= i < |m| => m[i].0)
  }

  /** No key occurs twice: every map built by `Set` keeps this. */
  predicate DistinctKeys<K(==), V>(m: seq<(K, V)>) {
    forall i, j :: 0 <= i < j < |m| ==> m[i].0 != m[j].0
  }

  /** Position of the first entry with key `k` at or after `from`. */
  function FindFrom<K(==,!new), V>(m: seq<(K, V)>, k: K, from: nat): (r: Option<nat>)
    requires from <= |m|
    ensures r.Some? ==> from <= r.value < |m| && m[r.value].0 == k
    ensures r.Some? ==> forall j :: from <= j < r.value ==> m[j].0 != k
    ensures r.None? ==> forall j :: from <= j < |m| ==> m[j].0 != k
    decreases |m| - from
  {
    if from == |m| then None
    else if m[from].0 == k then Some(from)
    else FindFrom(m, k, from + 1)
  }

  /** Position of the entry with key `k`, if there is one. */
  function Find<K(==,!new), V>(m: seq<(K, V)>, k: K): (r: Option<nat>)
    ensures r.Some? ==> r.value < |m| && m[r.value].0 == k
    ensures r.Some? ==> forall j :: 0 <= j < r.value ==> m[j].0 != k
    ensures r.None? <==> k !in Keys(m)
  {
    var r := FindFrom(m, k, 0);
    assert r.Some? ==> Keys(m)[r.value] == k;
    r
  }

  /** `m.get(k)`: `None` stands for `undefined`. */
  function Get<K(==,!new), V>(m: seq<(K, V)>, k: K): (r: Option<V>)
    ensures r.Some? <==> k in Keys(m)
    ensures r.Some? ==> exists i :: 0 <= i < |m| && m[i] == (k, r.value)
  {
    match Find(m, k)
    case None => None
    case Some(i) => Some(m[i].1)
  }

  /** `m.set(k, v)`. */
  function Set<K(==,!new), V>(m: seq<(K, V)>, k: K, v: V): (r: seq<(K, V)>)
    ensures DistinctKeys(m) ==> DistinctKeys(r)
    ensures k in Keys(m) ==> Keys(r) == Keys(m)
    ensures k !in Keys(m) ==> Keys(r) == Keys(m) + [k]
    ensures Get(r, k) == Some(v)
    ensures forall k' :: k' != k ==> Get(r, k') == Get(m, k')
  {
    SetFrame(m, k, v);
    match Find(m, k)
    case None => m + [(k, v)]
    case Some(i) => m[i := (k, v)]
  }

  /** `m.delete(k)`. */
  function Delete<K(==,!new), V>(m: seq<(K, V)>, k: K): (r: seq<(K, V)>)
    ensures DistinctKeys(m) ==> DistinctKeys(r) && Get(r, k) == None
    ensures DistinctKeys(m) ==> forall k' :: k' != k ==> Get(r, k') == Get(m, k')
    ensures k !in Keys(m) ==> r == m
    ensures |r| == if k in Keys(m) then |m| - 1 else |m|
  {
    DeleteFrame(m, k);
    match Find(m, k)
    case None => m
    case Some(i) => m[..i] + m[i + 1..]
  }

  /** The first position holding `k` is what `Find` returns. */
  lemma FindIs<K(!new), V>(m: seq<(K, V)>, k: K, i: nat)
    requires i < |m| && m[i].0 == k
    requires forall j :: 0 <= j < i ==> m[j].0 != k
    ensures Find(m, k) == Some(i)
  {
    assert Keys(m)[i] == k;
    var f := Find(m, k);
  }

  /** Two maps agree on `Find(·, k)` when they agree on `k`'s first position. */
  lemma FindAgree<K(!new), V>(m: seq<(K, V)>, r: seq<(K, V)>, k: K)
    requires forall j :: 0 <= j < |m| && j < |r| ==> (m[j].0 == k <==> r[j].0 == k)
    requires Find(m, k).Some? ==> Find(m, k).value < |r|
    requires Find(m, k).None? ==> k !in Keys(r)
    ensures Find(r, k) == Find(m, k)
  {
    if Find(m, k).Some? {
      var p := Find(m, k).value;
      FindIs(r, k, p);
    }
  }

  lemma SetFrame<K(!new), V>(m: seq<(K, V)>, k: K, v: V)
    ensures Find(m, k).None? ==> forall k' :: k' != k ==> Find(m + [(k, v)], k') == Find(m, k')
    ensures Find(m, k).Some? ==> Keys(m[Find(m, k).value := (k, v)]) == Keys(m)
    ensures Find(m, k).Some? ==> Find(m[Find(m, k).value := (k, v)], k) == Find(m, k)
    ensures Find(m, k).Some? ==> forall k' :: k' != k ==> Find(m[Find(m, k).value := (k, v)], k') == Find(m, k')
  {
    match Find(m, k)
    case None =>
      var r := m + [(k, v)];
      assert Keys(r) == Keys(m) + [k];
      forall k' | k' != k ensures Find(r, k') == Find(m, k') {
        FindAgree(m, r, k');
      }
    case Some(i) =>
      var r := m[i := (k, v)];
      assert Keys(r) == Keys(m);
      FindIs(r, k, i);
      forall k' | k' != k ensures Find(r, k') == Find(m, k') {
        FindAgree(m, r, k');
      }
  }

  lemma DeleteFrame<K(!new), V>(m: seq<(K, V)>, k: K)
    ensures DistinctKeys(m) && Find(m, k).Some? ==>
      var r := m[..Find(m, k).value] + m[Find(m, k).value + 1..];
      k !in Keys(r) && forall k' :: k' != k ==> Get(r, k') == Get(m, k')
  {
    if DistinctKeys(m) && Find(m, k).Some? {
      DeleteFound(m, k);
    }
  }

  lemma DeleteFound<K(!new), V>(m: seq<(K, V)>, k: K)
    requires DistinctKeys(m) && Find(m, k).Some?
    ensures var r := m[..Find(m, k).value] + m[Find(m, k).value + 1..];
      k !in Keys(r) && forall k' :: k' != k ==> Get(r, k') == Get(m, k')
  {
    var i := Find(m, k).value;
    var r := m[..i] + m[i + 1..];
    forall j | 0 <= j < |r| ensures r[j].0 != k {
      if j < i { assert r[j] == m[j]; } else { assert r[j] == m[j + 1]; }
    }
    forall k' | k' != k ensures Get(r, k') == Get(m, k') {
      var fm := Find(m, k');
      if fm.None? {
        forall j | 0 <= j < |r| ensures Keys(r)[j] != k' {
          if j < i { assert r[j] == m[j]; assert Keys(m)[j] != k'; }
          else { assert r[j] == m[j + 1]; assert Keys(m)[j + 1] != k'; }
        }
      } else {
        var p := fm.value;
        assert p != i;
        var q := if p < i then p else p - 1;
        assert r[q] == m[p];
        forall j | 0 <= j < q ensures r[j].0 != k' {
          if j < i { assert r[j] == m[j]; } else { assert r[j] == m[j + 1]; }
        }
        FindIs(r, k', q);
      }
    }
  }

  /** The value of the LAST entry of `es` whose key is `k`. */
  function LastValue<K(==,!new), V>(es: seq<(K, V)>, k: K): Option<V> {
    if es == [] then None
    else if es[|es| - 1].0 == k then Some(es[|es| - 1].1)
    else LastValue(es[..|es| - 1], k)
  }

  /** The keys of `ks` in the order of their first occurrence. */
  function FirstOccurrences<K(==,!new)>(ks: seq<K>): seq<K> {
    if ks == [] then []
    else
      var d := FirstOccurrences(ks[..|ks| - 1]);
      if ks[|ks| - 1] in d then d else d + [ks[|ks| - 1]]
  }

  /** `new Map(es)`: the entries are `set` one after another. A repeated
      key keeps the position of its first occurrence and the value of its
      last. */
  function FromEntries<K(==,!new), V>(es: seq<(K, V)>): (m: seq<(K, V)>)
    ensures DistinctKeys(m)
    ensures forall k :: Get(m, k) == LastValue(es, k)
    ensures Keys(m) == FirstOccurrences(Keys(es))
  {
    if es == [] then []
    else
      var init := es[..|es| - 1];
      assert Keys(init) == Keys(es)[..|es| - 1];
      Set(FromEntries(init), es[|es| - 1].0, es[|es| - 1].1)
  }

  /** Deleting a key and setting it again (the source's demotion) moves the
      entry to the end with the new value; the other entries keep their
      order. */
  lemma DeleteThenSet<K(!new), V>(m: seq<(K, V)>, i: nat, v: V)
    requires DistinctKeys(m) && i < |m|
    ensures Set(Delete(m, m[i].0), m[i].0, v) == m[..i] + m[i + 1..] + [(m[i].0, v)]
    ensures Keys(Set(Delete(m, m[i].0), m[i].0, v)) == Keys(m[..i] + m[i + 1..]) + [m[i].0]
  {
    var k := m[i].0;
    assert Keys(m)[i] == k;
    var f := Find(m, k);
    assert f == Some(i);
    var d := m[..i] + m[i + 1..];
    assert Delete(m, k) == d;
    assert Get(d, k) == None;
    assert Find(d, k) == None;
  }
}
