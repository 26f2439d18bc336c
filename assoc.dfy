/** String-keyed Go maps that the program iterates over (its header maps
    and its variable store), modelled as association lists whose order is
    the order keys were first inserted. Go leaves that iteration order
    unspecified; the model fixes it. */
module Assoc {
  import opened Wrappers

  type Entries<V> = seq<(string, V)>

  function Keys<V>(e: Entries<V>): (r: seq<string>)
    ensures |r| == |e|
    ensures forall i :: 0 <= i < |e| ==> r[i] == e[i].0
  {
    if |e| == 0 then [] else [e[0].0] + Keys(e[1..])
  }

  /** No key occurs twice. */
  predicate Distinct<V>(e: Entries<V>) {
    |e| == 0 || (e[0].0 !in Keys(e[1..]) && Distinct(e[1..]))
  }

  /** The map the list stands for. */
  function ToMap<V>(e: Entries<V>): (m: map<string, V>)
    ensures m.Keys == set k | k in Keys(e)
  {
    if |e| == 0 then map[] else map[e[0].0 := e[0].1] + ToMap(e[1..])
  }

  /** In a list without repeated keys, every entry is what the map holds for
      its key. */
  lemma {:induction false} ToMapAt<V>(e: Entries<V>, i: nat)
    requires Distinct(e) && i < |e|
    ensures e[i].0 in ToMap(e) && ToMap(e)[e[i].0] == e[i].1
  {
    if i > 0 {
      ToMapAt(e[1..], i - 1);
      assert e[i].0 != e[0].0 by {
        assert Keys(e[1..])[i - 1] == e[i].0;
      }
    }
  }

  /** `m[k] = v` on a Go map: the value of an existing key is replaced where
      it stands, a new key is added at the end. */
  function Put<V>(e: Entries<V>, k: string, v: V): (r: Entries<V>)
    ensures Keys(r) == if k in Keys(e) then Keys(e) else Keys(e) + [k]
  {
    if |e| == 0 then [(k, v)]
    else if e[0].0 == k then
      assert Keys([(k, v)] + e[1..]) == [k] + Keys(e[1..]);
      [(k, v)] + e[1..]
    else
      var rest := Put(e[1..], k, v);
      assert Keys([e[0]] + rest) == [e[0].0] + Keys(rest);
      assert Keys(e) == [e[0].0] + Keys(e[1..]);
      [e[0]] + rest
  }

  /** Putting keeps keys distinct. */
  lemma {:induction false} PutDistinct<V>(e: Entries<V>, k: string, v: V)
    requires Distinct(e)
    ensures Distinct(Put(e, k, v))
  {
    if |e| > 0 && e[0].0 != k {
      PutDistinct(e[1..], k, v);
      var r := Put(e, k, v);
      assert r[1..] == Put(e[1..], k, v);
    }
  }

  /** Putting into a list without repeated keys is updating the map. */
  lemma {:induction false} PutToMap<V>(e: Entries<V>, k: string, v: V)
    requires Distinct(e)
    ensures ToMap(Put(e, k, v)) == ToMap(e)[k := v]
  {
    if |e| > 0 {
      var rest := e[1..];
      var head := map[e[0].0 := e[0].1];
      assert ToMap(e) == head + ToMap(rest);
      if e[0].0 == k {
        assert k !in ToMap(rest);
        ConsToMap((k, v), rest);
        OverrideFresh(ToMap(rest), k, e[0].1, v);
      } else {
        PutToMap(rest, k, v);
        assert Put(e, k, v) == [e[0]] + Put(rest, k, v);
        ConsToMap(e[0], Put(rest, k, v));
        UpdateUnder(head, ToMap(rest), k, v);
      }
    }
  }

  /** The map of a list with one more entry in front. */
  lemma {:induction false} ConsToMap<V>(x: (string, V), e: Entries<V>)
    ensures ToMap([x] + e) == map[x.0 := x.1] + ToMap(e)
  {
    assert ([x] + e)[1..] == e;
  }

  /** Updating a key that only the left operand holds. */
  lemma {:induction false} OverrideFresh<V>(m: map<string, V>, k: string, w: V, v: V)
    requires k !in m
    ensures map[k := v] + m == (map[k := w] + m)[k := v]
  {
  }

  /** An update on the right of a union is an update of the union. */
  lemma {:induction false} UpdateUnder<V>(a: map<string, V>, m: map<string, V>, k: string, v: V)
    ensures a + m[k := v] == (a + m)[k := v]
  {
  }

  function Get<V>(e: Entries<V>, k: string): Option<V> {
    var m := ToMap(e);
    if k in m then Some(m[k]) else None
  }

  /** Replacing every value through `f` keeps the keys and their order. */
  function MapValues<V, W>(e: Entries<V>, f: V -> W): (r: Entries<W>)
    ensures |r| == |e|
    ensures forall i :: 0 <= i < |e| ==> r[i] == (e[i].0, f(e[i].1))
  {
    if |e| == 0 then [] else [(e[0].0, f(e[0].1))] + MapValues(e[1..], f)
  }
}
