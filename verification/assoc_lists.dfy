/** A JavaScript plain object used as a dictionary, modelled as an ordered list of
    (key, value) entries. Assigning to an existing key overwrites its value where it
    stands; assigning to a new key appends it, so the key order is insertion order. */
module AssocLists {
  import opened Options
  import opened Seqs

  type Assoc<K, V> = seq<(K, V)>

  /** `Object.keys`: the keys in entry order. */
  function Keys<K, V>(m: Assoc<K, V>): (ks: seq<K>)
    ensures |ks| == |m|
    ensures forall i :: 0 <= i < |m| ==> ks[i] == m[i].0
  {
    if |m| == 0 then [] else [m[0].0] + Keys(m[1..])
  }

  /** `Object.values`: the values in entry order. */
  function Values<K, V>(m: Assoc<K, V>): (vs: seq<V>)
    ensures |vs| == |m|
    ensures forall i :: 0 <= i < |m| ==> vs[i] == m[i].1
  {
    if |m| == 0 then [] else [m[0].1] + Values(m[1..])
  }

  predicate UniqueKeys<K(==), V>(m: Assoc<K, V>) {
    NoDup(Keys(m))
  }

  /** Property read `m[k]`; `None` stands for `undefined`. */
  function Get<K(==), V>(m: Assoc<K, V>, k: K): (r: Option<V>)
    ensures r.Some? <==> k in Keys(m)
    ensures r.Some? ==> (k, r.value) in m && r.value in Values(m)
  {
    if |m| == 0 then None
    else if m[0].0 == k then Some(m[0].1)
    else
      var r := Get(m[1..], k);
      assert Keys(m) == [m[0].0] + Keys(m[1..]);
      assert Values(m) == [m[0].1] + Values(m[1..]);
      r
  }

  /** Property read of a key known to be present. */
  function Lookup<K(==), V>(m: Assoc<K, V>, k: K): (v: V)
    requires k in Keys(m)
    ensures (k, v) in m && v in Values(m)
  {
    Get(m, k).value
  }

  /** Property write `m[k] = v`: an existing key keeps its place, a new one goes last. */
  function Put<K(==,!new), V(!new)>(m: Assoc<K, V>, k: K, v: V): (r: Assoc<K, V>)
    ensures Keys(r) == if k in Keys(m) then Keys(m) else Keys(m) + [k]
    ensures UniqueKeys(m) ==> UniqueKeys(r)
    ensures forall e :: e in r ==> e == (k, v) || e in m
  {
    var r := PutEntry(m, k, v);
    if UniqueKeys(m) && k !in Keys(m) then
      NoDupSnoc(Keys(m), k);
      r
    else
      r
  }

  /** The assignment itself, with the key order it produces. */
  function PutEntry<K(==,!new), V(!new)>(m: Assoc<K, V>, k: K, v: V): (r: Assoc<K, V>)
    ensures Keys(r) == if k in Keys(m) then Keys(m) else Keys(m) + [k]
    ensures forall e :: e in r ==> e == (k, v) || e in m
  {
    if |m| == 0 then [(k, v)]
    else if m[0].0 == k then
      var r := [(k, v)] + m[1..];
      assert Keys(m) == [k] + Keys(m[1..]);
      assert r[1..] == m[1..];
      assert Keys(r) == [k] + Keys(r[1..]);
      r
    else
      var rest := PutEntry(m[1..], k, v);
      var r := [m[0]] + rest;
      assert Keys(m) == [m[0].0] + Keys(m[1..]);
      assert r[1..] == rest;
      assert Keys(r) == [m[0].0] + Keys(rest);
      assert k in Keys(m) <==> k in Keys(m[1..]);
      assert k !in Keys(m) ==> [m[0].0] + (Keys(m[1..]) + [k]) == Keys(m) + [k];
      r
  }

  /** After `m[k] = v`, reading `k` gives `v` and reading any other key is unaffected. */
  lemma {:induction false} PutGet<K(!new), V(!new)>(m: Assoc<K, V>, k: K, v: V, k': K)
    ensures Get(Put(m, k, v), k') == if k' == k then Some(v) else Get(m, k')
  {
    PutEntryGet(m, k, v, k');
  }

  /** `PutGet` for the assignment itself, by induction on the entries. */
  lemma {:induction false} PutEntryGet<K(!new), V(!new)>(m: Assoc<K, V>, k: K, v: V, k': K)
    ensures Get(PutEntry(m, k, v), k') == if k' == k then Some(v) else Get(m, k')
  {
    var r := PutEntry(m, k, v);
    if |m| == 0 {
      assert r == [(k, v)];
      assert Get(r, k') == if k' == k then Some(v) else Get(r[1..], k');
    } else if m[0].0 == k {
      assert r == [(k, v)] + m[1..];
      assert r[0] == (k, v) && r[1..] == m[1..];
      assert Get(r, k') == if k' == k then Some(v) else Get(m[1..], k');
      assert Get(m, k') == if k' == k then Some(m[0].1) else Get(m[1..], k');
    } else {
      PutEntryGet(m[1..], k, v, k');
      var rest := PutEntry(m[1..], k, v);
      assert r == [m[0]] + rest;
      assert r[0] == m[0] && r[1..] == rest;
      assert Get(r, k') == if k' == m[0].0 then Some(m[0].1) else Get(rest, k');
      assert Get(m, k') == if k' == m[0].0 then Some(m[0].1) else Get(m[1..], k');
    }
  }

  /** Assigning a key not yet present appends the entry. */
  lemma {:induction false} PutFresh<K(!new), V(!new)>(m: Assoc<K, V>, k: K, v: V)
    requires k !in Keys(m)
    ensures Put(m, k, v) == m + [(k, v)]
  {
    PutEntryFresh(m, k, v);
  }

  lemma {:induction false} PutEntryFresh<K(!new), V(!new)>(m: Assoc<K, V>, k: K, v: V)
    requires k !in Keys(m)
    ensures PutEntry(m, k, v) == m + [(k, v)]
  {
    if |m| > 0 {
      assert Keys(m) == [m[0].0] + Keys(m[1..]);
      PutEntryFresh(m[1..], k, v);
      assert m + [(k, v)] == [m[0]] + (m[1..] + [(k, v)]);
    }
  }
}
