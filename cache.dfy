/**
 * The in-memory key/value table of package `cache`: a `Cache` object that owns
 * a map from string keys to dynamically typed values, with `New`, `Set`, `Del`
 * and `Get`. The reader/writer lock that guards the map is left out: every
 * operation is modelled as one atomic step.
 */
module Cache {

  /** A Go `interface{}` value as the cache sees it: either the nil interface,
      or some non-nil value the cache never inspects. */
  datatype Value<V> = Nil | Box(payload: V)

  /** What `c.storage[k]` yields on a Go map: the bound value, or the zero
      value of `interface{}` (nil) when `k` has no binding. */
  function Lookup<V>(m: map<string, Value<V>>, k: string): (r: Value<V>)
    ensures k in m ==> r == m[k]
    ensures k !in m ==> r == Nil
  {
    if k in m then m[k] else Nil
  }

  /** The table after `m[k] = v`: `k` is bound to `v`, replacing any earlier
      binding wholesale, and every other key keeps its binding. */
  function Store<V>(m: map<string, Value<V>>, k: string, v: Value<V>): (r: map<string, Value<V>>)
    ensures r.Keys == m.Keys + {k}
    ensures Lookup(r, k) == v
    ensures forall j :: j != k ==> Lookup(r, j) == Lookup(m, j)
  {
    m[k := v]
  }

  /** The table after `delete(m, k)`: `k` has no binding, whether or not it had
      one before, and every other key keeps its binding. */
  function Remove<V>(m: map<string, Value<V>>, k: string): (r: map<string, Value<V>>)
    ensures r.Keys == m.Keys - {k}
    ensures Lookup(r, k) == Nil
    ensures forall j :: j != k ==> Lookup(r, j) == Lookup(m, j)
  {
    m - {k}
  }

  /** A nil result of `Get` means either "no binding" or "bound to nil", and
      nothing else. */
  lemma NilMeansAbsentOrNil<V>(m: map<string, Value<V>>, k: string)
    ensures Lookup(m, k) == Nil <==> (k !in m || m[k] == Nil)
  {
  }

  /** Storing nil under a key and deleting that key cannot be told apart
      through `Get`, although the first leaves a binding and the second does not. */
  lemma StoredNilLooksAbsent<V>(m: map<string, Value<V>>, k: string)
    ensures k in Store(m, k, Nil) && k !in Remove(m, k)
    ensures forall j :: Lookup(Store(m, k, Nil), j) == Lookup(Remove(m, k), j)
  {
  }

  /** `Set` replaces wholesale: the second of two writes to one key decides,
      so writing the same value twice is the same as writing it once (the
      second ensures is the first with `v1 := v2`, stated for idempotence). */
  lemma StoreOverwrites<V>(m: map<string, Value<V>>, k: string, v1: Value<V>, v2: Value<V>)
    ensures Store(Store(m, k, v1), k, v2) == Store(m, k, v2)
    ensures Store(Store(m, k, v2), k, v2) == Store(m, k, v2)
  {
  }

  /** `Del` of an absent key leaves the table as it was, and `Del` is idempotent. */
  lemma RemoveAbsentIsNoop<V>(m: map<string, Value<V>>, k: string)
    ensures k !in m ==> Remove(m, k) == m
    ensures Remove(Remove(m, k), k) == Remove(m, k)
  {
  }

  /** `Set` after `Del` of the same key is just the `Set`; `Del` after `Set`
      of the same key is just the `Del`. */
  lemma LastOperationOnKeyDecides<V>(m: map<string, Value<V>>, k: string, v: Value<V>)
    ensures Store(Remove(m, k), k, v) == Store(m, k, v)
    ensures Remove(Store(m, k, v), k) == Remove(m, k)
  {
  }

  /** Writes to different keys commute, so their order under the lock does
      not matter for the final table. */
  lemma DistinctKeysCommute<V>(m: map<string, Value<V>>, k1: string, k2: string, v1: Value<V>, v2: Value<V>)
    requires k1 != k2
    ensures Store(Store(m, k1, v1), k2, v2) == Store(Store(m, k2, v2), k1, v1)
    ensures Remove(Remove(m, k1), k2) == Remove(Remove(m, k2), k1)
    ensures Remove(Store(m, k1, v1), k2) == Store(Remove(m, k2), k1, v1)
  {
  }

  /** The `Cache` struct: its `storage` map. */
  class Cache<V> {
    var storage: map<string, Value<V>>

    /** `New`: a cache whose table is empty, so every `Get` yields nil. */
    constructor New()
      ensures storage == map[]
      ensures forall k :: Lookup(storage, k) == Nil
    {
      storage := map[];
    }

    /** `Set`: bind `k` to `v`, overwriting; other keys are untouched. */
    method Set(k: string, v: Value<V>)
      modifies this
      ensures storage == Store(old(storage), k, v)
      ensures Lookup(storage, k) == v
    {
      storage := storage[k := v];
    }

    /** `Del`: drop the binding of `k` if there is one; never fails. */
    method Del(k: string)
      modifies this
      ensures storage == Remove(old(storage), k)
      ensures Lookup(storage, k) == Nil
    {
      storage := storage - {k};
    }

    /** `Get`: the bound value, or nil for a missing key. It has no `modifies`
        clause, so the table is the same before and after. */
    method Get(k: string) returns (r: Value<V>)
      ensures r == Lookup(storage, k)
      ensures r == Nil <==> (k !in storage || storage[k] == Nil)
      ensures r != Nil ==> k in storage && storage[k] == r
    {
      if k in storage {
        r := storage[k];
      } else {
        r := Nil;
      }
    }
  }
}
