# go_cache: the in-memory key/value table

Package `cache` provides a `Cache` object: a table from string keys to values
of any type (`interface{}`), guarded by a reader/writer lock. `New` makes an
empty table, `Set` binds or rebinds a key, `Del` removes a key's binding and
`Get` returns a key's value, or nil when the key has no binding.

This project models that table in Dafny.

- `cache.dfy`, module `Cache`: the class `Cache<V>` with the `storage` map
  field and the constructor `New` and the methods `Set`, `Del` and `Get`. The
  values are `Value<V>`, which is either `Nil` (Go's nil interface) or
  `Box(payload)` for a value the cache never inspects. Go's nil is an
  ordinary storable value. A lookup of a missing key also yields `Nil`, so a
  key bound to nil and an absent key look the same through `Get`. The effect of
  each method on the table is stated by the functions `Store`, `Remove` and
  `Lookup`, and the lemmas beside them prove what the methods promise: round
  trip, overwrite, idempotence, no-op delete, frame and commutation.
- `history.dfy`, module `History`: each operation holds the lock for its whole
  duration, so concurrent callers see some sequence of whole operations. This
  module models such a sequence (`Op`, `Apply`) and proves its properties. A
  key ends up holding its last write. Every `Get` sees the last write to its
  key that came before it. `Get`s never change the table.

This model covers `cache.go` only. Other versions of this package add
per-entry time-to-live, a capacity limit, hit/miss counters, `Flush`, a
background sweeper, and a `Del` that returns an error. Those versions are not
part of this model. The `Del` in `cache.go` returns nothing and always deletes.

## Model

| member | source | states |
|---|---|---|
| `Cache.Cache.New` | cache.go:10-15 | a new cache has an empty table, so `Get` of every key yields nil |
| `Cache.Cache.Set` | cache.go:17-21 | the table becomes `Store(old table, k, v)`, and `Get(k)` then yields `v` |
| `Cache.Cache.Del` | cache.go:23-28 | the table becomes `Remove(old table, k)`, and `Get(k)` then yields nil |
| `Cache.Cache.Get` | cache.go:30-34 | returns the bound value, or nil exactly when the key is absent or bound to nil; with no `modifies` clause, it leaves the table unchanged |
| `Cache.Lookup` | cache.go:33 | the map index `c.storage[k]`: the bound value, or nil (Go's zero value for `interface{}`) when the key has no binding |
| `Cache.Store` | cache.go:20 | after `m[k] = v` the keys are the old keys plus `k`, `k` yields `v`, and every other key yields what it yielded before |
| `Cache.Remove` | cache.go:26 | after `delete(m, k)` the keys are the old keys minus `k`, `k` yields nil, and every other key yields what it yielded before |
| `Cache.NilMeansAbsentOrNil` | cache.go:33 | a lookup yields nil if and only if the key is absent or bound to nil |
| `Cache.StoredNilLooksAbsent` | cache.go:33 | storing nil under `k` keeps a binding and deleting `k` does not, yet every lookup gives the same answer in both tables |
| `Cache.StoreOverwrites` | cache.go:20 | the second of two `Set`s of one key replaces the first wholesale, and `Set` is idempotent |
| `Cache.RemoveAbsentIsNoop` | cache.go:26 | `Del` of an absent key leaves the table unchanged, and `Del` is idempotent |
| `Cache.LastOperationOnKeyDecides` | cache.go:17-28 | `Del` then `Set` of one key equals the `Set` alone, and `Set` then `Del` equals the `Del` alone |
| `Cache.DistinctKeysCommute` | cache.go:17-28 | `Set`s and `Del`s of two different keys give the same table in either order |
| `History.Step` | cache.go:17-34 | one call's effect on the table: it touches no key but its own; a `Get` leaves the table unchanged; a `Set` binds its key to its value; a `Del` unbinds its key |
| `History.LastWriteWins` | cache.go:17-34 | after any sequence of calls, a key is bound if and only if its last write was a `Set`, or it was never written and was bound at the start; `Get` then yields that `Set`'s value, or nil after a `Del` |
| `History.UnwrittenKeyUnchanged` | cache.go:17-28 | a key that no call in the sequence writes keeps its binding |
| `History.GetsLeaveTableUnchanged` | cache.go:30-34 | dropping every `Get` from a sequence of calls leaves the final table the same |
| `History.WritesKeepLastWrite` | cache.go:17-28 | dropping the `Get`s from a sequence of calls keeps each key's last write |
| `History.GetSeesLastWrite` | cache.go:30-34 | each `Get` in a sequence returns the value of the last earlier write to its key; on a table fresh from `New`, it returns nil unless that write was a `Set` |
| `History.SetThenGet` | cache.go:17-34 | a `Get(k)` right after `Set(k, v)` returns `v`, whatever the table held before |

## Left out

- The `sync.RWMutex` field and the lock and unlock calls (cache.go:7, 18-19, 24-25, 31-32): they only give mutual exclusion. Each operation is modelled as one atomic step, and `History` covers the interleavings as sequences of whole operations.
- A zero-value `Cache` (`var c cache.Cache`, `new(cache.Cache)` or `&cache.Cache{}`, possible because the type is exported) has a nil `storage` map. `Set` on it panics with "assignment to entry in nil map" (cache.go:20), while `Get` returns nil and `Del` does nothing. Only caches made by `New` are modelled: a Dafny class value exists only through its constructor, and the table here is never nil.
- Go's dynamic typing of `interface{}` values: a value is opaque to the cache, so it is a type parameter `V` boxed in `Value<V>`. Typed nil pointers stored in an interface (non-nil interfaces that hold nil) are just some `Box(payload)`.
- Go's map iteration order, hashing and memory growth: the table is a mathematical `map`.
- Time-to-live, capacity limit, hit/miss counters, `Flush` and the periodic sweeper: `cache.go` has none of them.
