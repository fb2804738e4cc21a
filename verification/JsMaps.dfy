/**
 The source's `Map`: entries in insertion order. Setting a key that is present keeps its
 place, setting a new one appends it, deleting closes the gap.
 */
module JsMaps {
  import opened Wrappers

  datatype Entry<K, V> = Entry(key: K, value: V)

  type JsMap<K, V> = seq<Entry<K, V>>

  function Keys<K, V>(m: JsMap<K, V>): (r: seq<K>)
    ensures |r| == |m| && forall i | 0 <= i < |m| :: r[i] == m[i].key
  {
    seq(|m|, i requires 0 <= i < |m| => m[i].key)
  }

  function Values<K, V>(m: JsMap<K, V>): (r: seq<V>)
    ensures |r| == |m| && forall i | 0 <= i < |m| :: r[i] == m[i].value
  {
    seq(|m|, i requires 0 <= i < |m| => m[i].value)
  }

  /** No key occurs twice. */
  ghost predicate Distinct<K, V>(m: JsMap<K, V>) {
    forall i, j | 0 <= i < j < |m| :: m[i].key != m[j].key
  }

  function Get<K(==), V>(m: JsMap<K, V>, k: K): (r: Option<V>)
    ensures r.Some? <==> k in Keys(m)
    ensures r.Some? ==> Entry(k, r.value) in m
  {
    if m == [] then None
    else if m[0].key == k then Some(m[0].value)
    else
      var r := Get(m[1..], k);
      assert Keys(m) == [m[0].key] + Keys(m[1..]);
      r
  }

  function Set<K(==), V>(m: JsMap<K, V>, k: K, v: V): (r: JsMap<K, V>)
  {
    if m == [] then [Entry(k, v)]
    else if m[0].key == k then [Entry(k, v)] + m[1..]
    else [m[0]] + Set(m[1..], k, v)
  }

  function Delete<K(==), V>(m: JsMap<K, V>, k: K): (r: JsMap<K, V>)
  {
    if m == [] then []
    else if m[0].key == k then m[1..]
    else [m[0]] + Delete(m[1..], k)
  }

  lemma KeysCons<K, V>(m: JsMap<K, V>)
    requires m != []
    ensures Keys(m) == [m[0].key] + Keys(m[1..])
  {
  }

  /** Setting never reorders keys. */
  lemma {:induction false} SetKeys<K, V>(m: JsMap<K, V>, k: K, v: V)
    ensures Keys(Set(m, k, v)) == if k in Keys(m) then Keys(m) else Keys(m) + [k]
  {
    if m == [] {
    } else {
      KeysCons(m);
      KeysCons(Set(m, k, v));
      if m[0].key == k {
        assert Set(m, k, v)[1..] == m[1..];
      } else {
        SetKeys(m[1..], k, v);
        assert Set(m, k, v)[1..] == Set(m[1..], k, v);
      }
    }
  }

  lemma SetDistinct<K, V>(m: JsMap<K, V>, k: K, v: V)
    requires Distinct(m)
    ensures Distinct(Set(m, k, v))
  {
    SetKeys(m, k, v);
    var r := Set(m, k, v);
    assert forall i, j | 0 <= i < j < |m| :: Keys(m)[i] != Keys(m)[j];
    assert forall i | 0 <= i < |r| :: Keys(r)[i] == r[i].key;
  }

  /** A set value is seen by later lookups of its key and by no other lookup. */
  lemma {:induction false} SetGet<K, V>(m: JsMap<K, V>, k: K, v: V, j: K)
    ensures Get(Set(m, k, v), j) == if j == k then Some(v) else Get(m, j)
  {
    if m == [] {
    } else {
      var r := Set(m, k, v);
      if m[0].key == k {
        assert r[1..] == m[1..];
      } else {
        SetGet(m[1..], k, v, j);
        assert r[1..] == Set(m[1..], k, v);
      }
    }
  }

  lemma {:induction false} SetEntries<K, V>(m: JsMap<K, V>, k: K, v: V)
    ensures forall e | e in Set(m, k, v) :: e == Entry(k, v) || e in m
  {
    if m == [] {
    } else {
      SetEntries(m[1..], k, v);
    }
  }

  lemma {:induction false} DeleteEntries<K, V>(m: JsMap<K, V>, k: K)
    ensures forall e | e in Delete(m, k) :: e in m
  {
    if m == [] {
    } else {
      DeleteEntries(m[1..], k);
    }
  }

  lemma {:induction false} DeleteDistinct<K, V>(m: JsMap<K, V>, k: K)
    requires Distinct(m)
    ensures Distinct(Delete(m, k))
  {
    if m == [] {
    } else {
      DeleteDistinct(m[1..], k);
      DeleteEntries(m[1..], k);
      var t := Delete(m[1..], k);
      assert forall e | e in m[1..] :: e.key != m[0].key;
      assert forall i | 0 <= i < |t| :: t[i] in t;
    }
  }

  /** Deleting removes one key and leaves the others as they were. */
  lemma {:induction false} DeleteGet<K, V>(m: JsMap<K, V>, k: K, j: K)
    requires Distinct(m)
    ensures Get(Delete(m, k), j) == if j == k then None else Get(m, j)
  {
    if m == [] {
    } else {
      if m[0].key == k {
        assert forall i | 0 <= i < |m| - 1 :: Keys(m[1..])[i] == m[i + 1].key;
      } else {
        DeleteGet(m[1..], k, j);
        assert Delete(m, k)[1..] == Delete(m[1..], k);
      }
    }
  }
}
