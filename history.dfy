/**
 * Sequential histories of one cache. Every operation takes the cache's lock
 * for its whole duration, so any run of concurrent callers behaves as some
 * sequence of whole operations; this module states what such a sequence
 * leaves in the table.
 */
module History {
  import opened Cache

  /** One call on the cache, with its argument. */
  datatype Op<V> = SetOp(key: string, value: Value<V>) | DelOp(key: string) | GetOp(key: string)

  /** The effect of one call on the table. */
  function Step<V>(m: map<string, Value<V>>, op: Op<V>): (r: map<string, Value<V>>)
    ensures forall j :: j != op.key ==> (j in r <==> j in m) && Lookup(r, j) == Lookup(m, j)
    ensures op.GetOp? ==> r == m
    ensures op.SetOp? ==> op.key in r && Lookup(r, op.key) == op.value
    ensures op.DelOp? ==> op.key !in r
  {
    match op
    case SetOp(k, v) => Store(m, k, v)
    case DelOp(k) => Remove(m, k)
    case GetOp(_) => m
  }

  /** The table after the calls in `ops`, in order, starting from `m`. */
  function Apply<V>(m: map<string, Value<V>>, ops: seq<Op<V>>): map<string, Value<V>>
    decreases |ops|
  {
    if ops == [] then m else Step(Apply(m, ops[..|ops| - 1]), ops[|ops| - 1])
  }

  /** The most recent write to one key in a history. */
  datatype LastWrite<V> = Unwritten | Written(value: Value<V>) | Deleted

  /** The last `Set` or `Del` of `k` in `ops`; `Get`s and calls on other keys
      are skipped. */
  function LastWriteTo<V>(ops: seq<Op<V>>, k: string): LastWrite<V>
    decreases |ops|
  {
    if ops == [] then Unwritten
    else
      match ops[|ops| - 1]
      case SetOp(j, v) => if j == k then Written(v) else LastWriteTo(ops[..|ops| - 1], k)
      case DelOp(j) => if j == k then Deleted else LastWriteTo(ops[..|ops| - 1], k)
      case GetOp(_) => LastWriteTo(ops[..|ops| - 1], k)
  }

  /** The calls of `ops` that write, in their order. */
  function Writes<V>(ops: seq<Op<V>>): (w: seq<Op<V>>)
    ensures |w| <= |ops|
    ensures forall i :: 0 <= i < |w| ==> !w[i].GetOp?
    decreases |ops|
  {
    if ops == [] then []
    else if ops[|ops| - 1].GetOp? then Writes(ops[..|ops| - 1])
    else Writes(ops[..|ops| - 1]) + [ops[|ops| - 1]]
  }

  /** Last write wins: after a history, a key is bound exactly when its last
      write was a `Set` (or it was never written and was bound before), to the
      value of that `Set`; a `Get` of it then yields that value, or nil. */
  lemma {:induction false} LastWriteWins<V>(m: map<string, Value<V>>, ops: seq<Op<V>>, k: string)
    ensures k in Apply(m, ops) <==>
              (LastWriteTo(ops, k).Written? || (LastWriteTo(ops, k).Unwritten? && k in m))
    ensures Lookup(Apply(m, ops), k) ==
              match LastWriteTo(ops, k)
              case Unwritten => Lookup(m, k)
              case Written(v) => v
              case Deleted => Nil
    decreases |ops|
  {
    if ops != [] {
      LastWriteWins(m, ops[..|ops| - 1], k);
    }
  }

  /** A key that the history never writes keeps its binding. */
  lemma UnwrittenKeyUnchanged<V>(m: map<string, Value<V>>, ops: seq<Op<V>>, k: string)
    requires LastWriteTo(ops, k).Unwritten?
    ensures k in Apply(m, ops) <==> k in m
    ensures Lookup(Apply(m, ops), k) == Lookup(m, k)
  {
    LastWriteWins(m, ops, k);
  }

  /** `Get` never changes the table: dropping every `Get` from a history
      leaves the same final table. */
  lemma {:induction false} GetsLeaveTableUnchanged<V>(m: map<string, Value<V>>, ops: seq<Op<V>>)
    ensures Apply(m, Writes(ops)) == Apply(m, ops)
    decreases |ops|
  {
    if ops != [] {
      var init, last := ops[..|ops| - 1], ops[|ops| - 1];
      GetsLeaveTableUnchanged(m, init);
      if !last.GetOp? {
        var w := Writes(init) + [last];
        assert w[..|w| - 1] == Writes(init);
      }
    }
  }

  /** Dropping the `Get`s keeps every write in its order: for each key, the
      last write in `Writes(ops)` is the last write in `ops`. */
  lemma {:induction false} WritesKeepLastWrite<V>(ops: seq<Op<V>>, k: string)
    ensures LastWriteTo(Writes(ops), k) == LastWriteTo(ops, k)
    decreases |ops|
  {
    if ops != [] {
      var init, last := ops[..|ops| - 1], ops[|ops| - 1];
      WritesKeepLastWrite(init, k);
      if !last.GetOp? {
        var w := Writes(init) + [last];
        assert w[..|w| - 1] == Writes(init);
      }
    }
  }

  /** What the `Get` at position `i` of a history returns: a lookup in the
      table left by the calls before it. */
  function Reply<V>(m: map<string, Value<V>>, ops: seq<Op<V>>, i: nat): Value<V>
    requires i < |ops| && ops[i].GetOp?
  {
    Lookup(Apply(m, ops[..i]), ops[i].key)
  }

  /** Every `Get` observes the last write to its key that completed before it,
      and a cache fresh from `New` answers nil to a key not yet written. */
  lemma GetSeesLastWrite<V>(m: map<string, Value<V>>, ops: seq<Op<V>>, i: nat)
    requires i < |ops| && ops[i].GetOp?
    ensures Reply(m, ops, i) ==
              match LastWriteTo(ops[..i], ops[i].key)
              case Unwritten => Lookup(m, ops[i].key)
              case Written(v) => v
              case Deleted => Nil
    ensures m == map[] && !LastWriteTo(ops[..i], ops[i].key).Written? ==> Reply(m, ops, i) == Nil
  {
    LastWriteWins(m, ops[..i], ops[i].key);
  }

  /** The round trip: a `Get` right after `Set(k, v)` returns `v`, from any table. */
  lemma SetThenGet<V>(m: map<string, Value<V>>, k: string, v: Value<V>)
    ensures Reply(m, [SetOp(k, v), GetOp(k)], 1) == v
  {
  }
}
