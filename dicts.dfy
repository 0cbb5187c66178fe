/**
 * Python dictionaries with string keys: a value per key plus the order in which keys were first
 * inserted. Assigning to an existing key replaces its value and keeps its position; `update`
 * assigns the other dictionary's entries one by one in that dictionary's order.
 */
module Dicts {

  datatype Dict<V> = Dict(keys: seq<string>, vals: map<string, V>) {

    /** Keys are listed once each, and exactly the keys that have a value are listed. */
    ghost predicate Valid() {
      && Distinct(keys)
      && (forall k :: k in vals <==> k in keys)
    }

    /** `d[k] = v`. */
    function Put(k: string, v: V): (r: Dict<V>)
      ensures Valid() ==> r.Valid()
      ensures r.vals == vals[k := v]
      ensures keys <= r.keys && (k in keys ==> r.keys == keys)
    {
      Dict(if k in keys then keys else keys + [k], vals[k := v])
    }

    /** `d.update(other)`. */
    function Update(other: Dict<V>): Dict<V> {
      UpdateFrom(this, other.keys, other.vals)
    }
  }

  /** No key is listed twice. */
  ghost predicate Distinct(keys: seq<string>) {
    forall i, j :: 0 <= i < j < |keys| ==> keys[i] != keys[j]
  }

  /** The keys of `ks` that `present` does not list, in their order in `ks`. */
  function Fresh(ks: seq<string>, present: seq<string>): seq<string> {
    if ks == [] then []
    else (if ks[0] in present then [] else [ks[0]]) + Fresh(ks[1..], present)
  }

  function Empty<V>(): (d: Dict<V>)
    ensures d.Valid() && d.vals == map[]
  {
    Dict([], map[])
  }

  /** Assigns `vals[k]` for each listed key `k`, in order. */
  function UpdateFrom<V>(d: Dict<V>, ks: seq<string>, vals: map<string, V>): Dict<V>
    decreases |ks|
  {
    if ks == [] then d
    else UpdateFrom(if ks[0] in vals then d.Put(ks[0], vals[ks[0]]) else d, ks[1..], vals)
  }

  lemma {:induction false} UpdateFromFacts<V>(d: Dict<V>, ks: seq<string>, vals: map<string, V>)
    ensures var r := UpdateFrom(d, ks, vals);
      && r.vals.Keys == d.vals.Keys + (set k | k in ks && k in vals)
      && (forall k :: k in r.vals ==> r.vals[k] == if k in ks && k in vals then vals[k] else d.vals[k])
      && (d.Valid() ==> r.Valid())
      && d.keys <= r.keys
    decreases |ks|
  {
    if ks != [] {
      var d' := if ks[0] in vals then d.Put(ks[0], vals[ks[0]]) else d;
      UpdateFromFacts(d', ks[1..], vals);
      assert forall k :: k in ks <==> k == ks[0] || k in ks[1..];
    }
  }

  /**
   * After `d.update(o)`, the keys are those of both dictionaries, the other dictionary's values
   * win on shared keys, the result is still a dictionary, and the keys of `d` keep their order
   * at the front, followed by the other dictionary's new keys in that dictionary's order.
   */
  lemma UpdateFacts<V>(d: Dict<V>, o: Dict<V>)
    requires o.Valid()
    ensures var r := d.Update(o);
      && r.vals.Keys == d.vals.Keys + o.vals.Keys
      && (forall k :: k in o.vals ==> r.vals[k] == o.vals[k])
      && (forall k :: k in d.vals && k !in o.vals ==> r.vals[k] == d.vals[k])
      && (d.Valid() ==> r.Valid())
      && r.keys == d.keys + Fresh(o.keys, d.keys)
  {
    UpdateFromFacts(d, o.keys, o.vals);
    UpdateFromOrder(d, o.keys, o.vals);
  }

  lemma {:induction false} UpdateFromOrder<V>(d: Dict<V>, ks: seq<string>, vals: map<string, V>)
    requires Distinct(ks) && forall k :: k in ks ==> k in vals
    ensures UpdateFrom(d, ks, vals).keys == d.keys + Fresh(ks, d.keys)
    decreases |ks|
  {
    if ks == [] {
      assert d.keys + [] == d.keys;
    } else {
      var k, rest := ks[0], ks[1..];
      var d' := d.Put(k, vals[k]);
      DistinctTail(ks);
      UpdateFromOrder(d', rest, vals);
      FreshSame(rest, d.keys, d'.keys);
      assert UpdateFrom(d, ks, vals) == UpdateFrom(d', rest, vals);
      assert Fresh(ks, d.keys) == (if k in d.keys then [] else [k]) + Fresh(rest, d.keys);
      AppendFresh(d.keys, k, d'.keys, Fresh(rest, d.keys), Fresh(ks, d.keys));
    }
  }

  lemma AppendFresh(keys: seq<string>, k: string, grown: seq<string>, tail: seq<string>, added: seq<string>)
    requires grown == if k in keys then keys else keys + [k]
    requires added == (if k in keys then [] else [k]) + tail
    ensures grown + tail == keys + added
  {
  }

  lemma DistinctTail(ks: seq<string>)
    requires ks != [] && Distinct(ks)
    ensures Distinct(ks[1..]) && ks[0] !in ks[1..]
  {
    var rest := ks[1..];
    forall i | 0 <= i < |rest| ensures rest[i] == ks[i + 1] {}
  }

  /** `Fresh` depends only on which of the listed keys are present. */
  lemma {:induction false} FreshSame(ks: seq<string>, a: seq<string>, b: seq<string>)
    requires forall k :: k in ks ==> (k in a <==> k in b)
    ensures Fresh(ks, a) == Fresh(ks, b)
    decreases |ks|
  {
    if ks != [] {
      FreshSame(ks[1..], a, b);
    }
  }
}
