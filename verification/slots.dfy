/**
 A Swift dictionary `[K: V]` read and written through its subscript, where
 `m[k]` is a `V?` slot, and SwifterSwift's `??=` applied to such a slot.
 */
module DictionarySlots {
  import opened Optionals

  /** The subscript getter `m[k]`: the stored value, or `nil` for a missing key. */
  function Lookup<K(!new), V>(m: map<K, V>, k: K): (o: Option<V>)
    ensures o.Some? <==> k in m
    ensures o.Some? ==> m[k] == o.value
  {
    if k in m then Some(m[k]) else None
  }

  /** The subscript setter `m[k] = o`: storing a value binds `k`, storing
      `nil` removes `k`; every other key is left as it was. */
  function Store<K(!new), V>(m: map<K, V>, k: K, o: Option<V>): (r: map<K, V>)
    ensures Lookup(r, k) == o
    ensures forall j :: j != k ==> Lookup(r, j) == Lookup(m, j)
    ensures r.Keys == if o.Some? then m.Keys + {k} else m.Keys - {k}
  {
    match o
    case Some(v) => m[k := v]
    case None => m - {k}
  }

  /** The slot-level `lhs ??= rhs`: a `nil` right-hand side leaves the slot
      as it was, and an empty slot takes the right-hand side. Replacing a slot
      that already holds a value is a modelling choice; no contract relies on it. */
  function CoalesceSlot<V>(slot: Option<V>, rhs: Option<V>): (r: Option<V>)
    ensures rhs.None? ==> r == slot
    ensures slot.None? ==> r == rhs
    ensures r.None? <==> slot.None? && rhs.None?
  {
    if rhs.Some? then rhs else slot
  }

  /** `m[k] ??= rhs`. A `nil` right-hand side leaves the dictionary untouched;
      on a missing key a present right-hand side is stored; no other key is
      ever affected. */
  function CoalesceAssign<K(!new), V>(m: map<K, V>, k: K, rhs: Option<V>): (r: map<K, V>)
    ensures rhs.None? ==> r == m
    ensures k !in m ==> Lookup(r, k) == rhs
    ensures forall j :: j != k ==> Lookup(r, j) == Lookup(m, j)
    ensures r.Keys == if rhs.Some? then m.Keys + {k} else m.Keys
  {
    Store(m, k, CoalesceSlot(Lookup(m, k), rhs))
  }

  /** Reading a slot and writing the same value back leaves the dictionary
      unchanged: the getter and setter are inverse. */
  lemma StoreLookup<K(!new), V>(m: map<K, V>, k: K)
    ensures Store(m, k, Lookup(m, k)) == m
  {
  }

  /** On an empty slot `??=` and `?=` coincide: both store the right-hand
      side when it is present and leave the key unset when it is `nil`. */
  lemma CoalesceMatchesConditionalOnEmptySlot<K(!new), V>(m: map<K, V>, k: K, rhs: Option<V>)
    requires k !in m
    ensures CoalesceAssign(m, k, rhs) == Store(m, k, ConditionalAssign(Lookup(m, k), rhs))
  {
  }

  /** Assigning through two different keys commutes: `m[k1] ??= a` and
      `m[k2] ??= b` touch disjoint slots. */
  lemma CoalesceDistinctKeysCommute<K(!new), V>(m: map<K, V>, k1: K, k2: K, a: Option<V>, b: Option<V>)
    requires k1 != k2
    ensures CoalesceAssign(CoalesceAssign(m, k1, a), k2, b)
              == CoalesceAssign(CoalesceAssign(m, k2, b), k1, a)
  {
    var left := CoalesceAssign(CoalesceAssign(m, k1, a), k2, b);
    var right := CoalesceAssign(CoalesceAssign(m, k2, b), k1, a);
    assert forall j :: Lookup(left, j) == Lookup(right, j);
    assert left.Keys == right.Keys;
  }
}
