/**
 datasync/kvdbsync/local/local_bytes_txn.go and db/keyval/redis/bytes_txn_impl.go: the same
 transaction, once as a map in which the last write to a key wins and once as a list of
 operations that is replayed.
 */
module Transactions {
  import opened Wrappers

  type Data = seq<nat>
  type Store = map<string, Data>

  datatype TxnOp = PutOp(key: string, value: Data) | DeleteOp(key: string)

  function Applied(store: Store, op: TxnOp): Store {
    match op
    case PutOp(key, value) => store[key := value]
    case DeleteOp(key) => store - {key}
  }

  /** The store after the operations, one by one. */
  function Replayed(store: Store, ops: seq<TxnOp>): Store {
    if ops == [] then store else Applied(Replayed(store, ops[..|ops| - 1]), ops[|ops| - 1])
  }

  // ---------------------------------------------------------------- the local transaction

  datatype BytesTxnItem = BytesTxnItem(data: Data, delete: bool)

  datatype ChangeValue = ChangeValue(key: string, data: Data, revision: int, delete: bool)

  class LocalTxn {
    var items: map<string, BytesTxnItem>

    constructor ()
      ensures items == map[]
    {
      items := map[];
    }

    /** local_bytes_txn.go:39-46. */
    method Put(key: string, data: Data)
      modifies this
      ensures items == old(items)[key := BytesTxnItem(data, false)]
    {
      items := items[key := BytesTxnItem(data, false)];
    }

    /** local_bytes_txn.go:49-56. */
    method Delete(key: string)
      modifies this
      ensures items == old(items)[key := BytesTxnItem([], true)]
    {
      items := items[key := BytesTxnItem([], true)];
    }

    /** local_bytes_txn.go:59-73: what the commit function is given.  The loop is over a map, in any order. */
    method Commit() returns (kvs: map<string, ChangeValue>)
      ensures kvs == map key | key in items :: ChangeValue(key, items[key].data, 0, items[key].delete)
    {
      kvs := map[];
      var left := items.Keys;
      while left != {}
        invariant left <= items.Keys && kvs.Keys == items.Keys - left
        invariant forall key :: key in kvs ==> kvs[key] == ChangeValue(key, items[key].data, 0, items[key].delete)
      {
        var key :| key in left;
        kvs := kvs[key := ChangeValue(key, items[key].data, 0, items[key].delete)];
        left := left - {key};
      }
    }
  }

  /** Issues the operations and commits. */
  method CommitLocally(ops: seq<TxnOp>) returns (kvs: map<string, ChangeValue>)
    ensures kvs == Changes(ops)
  {
    var txn := new LocalTxn();
    for i := 0 to |ops|
      invariant fresh(txn)
      invariant Changes(ops[..i]) ==
        map key | key in txn.items :: ChangeValue(key, txn.items[key].data, 0, txn.items[key].delete)
    {
      assert ops[..i + 1][..i] == ops[..i];
      match ops[i] {
        case PutOp(key, value) => txn.Put(key, value);
        case DeleteOp(key) => txn.Delete(key);
      }
    }
    assert ops[..|ops|] == ops;
    kvs := txn.Commit();
  }

  /** The last operation on each key. */
  function Changes(ops: seq<TxnOp>): (kvs: map<string, ChangeValue>)
    ensures forall key :: key in kvs ==> kvs[key].key == key
  {
    if ops == [] then map[]
    else
      var op := ops[|ops| - 1];
      Changes(ops[..|ops| - 1])[op.key := ChangeValue(op.key, if op.PutOp? then op.value else [], 0, op.DeleteOp?)]
  }

  // ---------------------------------------------------------------- the Redis transaction

  datatype Op = Op(key: string, value: Data, del: bool)

  function Issued(prefix: Option<string>, op: TxnOp): Op {
    var key := if prefix.Some? then prefix.value + op.key else op.key;
    if op.PutOp? then Op(key, op.value, false) else Op(key, [], true)
  }

  class RedisTxn {
    const prefix: Option<string>  // None is a nil addPrefix
    var ops: seq<Op>

    constructor (prefix: Option<string>)
      ensures ops == [] && this.prefix == prefix
    {
      this.prefix := prefix;
      ops := [];
    }

    /** bytes_txn_impl.go:45-51. */
    method Put(key: string, value: Data)
      modifies this
      ensures ops == old(ops) + [Issued(prefix, PutOp(key, value))]
    {
      var k := key;
      if prefix.Some? {
        k := prefix.value + k;
      }
      ops := ops + [Op(k, value, false)];
    }

    /** bytes_txn_impl.go:55-61. */
    method Delete(key: string)
      modifies this
      ensures ops == old(ops) + [Issued(prefix, DeleteOp(key))]
    {
      var k := key;
      if prefix.Some? {
        k := prefix.value + k;
      }
      ops := ops + [Op(k, [], true)];
    }

    /**
     bytes_txn_impl.go:66-95.  failure is the outcome of the MULTI/EXEC pipeline, which takes effect as
     a whole or not at all.
     */
    method Commit(store: Store, closed: bool, failure: Option<string>) returns (after: Store, err: Option<string>)
      ensures closed ==> err.Some?
      ensures err.Some? ==> after == store
      ensures err == None ==> after == Piped(store, ops)
      ensures !closed ==> (err == None <==> ops == [] || failure == None)
    {
      if closed {
        return store, Some("Commit() called on a closed connection");
      }
      if |ops| == 0 {
        return store, None;
      }
      if failure.Some? {
        return store, failure;
      }
      after := store;
      for i := 0 to |ops|
        invariant after == Piped(store, ops[..i])
      {
        assert ops[..i + 1][..i] == ops[..i];
        if ops[i].del {
          after := after - {ops[i].key};
        } else {
          after := after[ops[i].key := ops[i].value];
        }
      }
      assert ops[..|ops|] == ops;
      return after, None;
    }
  }

  /** The commands of a pipeline, one by one. */
  function Piped(store: Store, ops: seq<Op>): Store {
    if ops == [] then store
    else
      var op, before := ops[|ops| - 1], Piped(store, ops[..|ops| - 1]);
      if op.del then before - {op.key} else before[op.key := op.value]
  }

  function IssuedAll(prefix: Option<string>, ops: seq<TxnOp>): (r: seq<Op>)
    ensures |r| == |ops|
  {
    seq(|ops|, i requires 0 <= i < |ops| => Issued(prefix, ops[i]))
  }

  /** Issues the operations and commits on an open connection. */
  method CommitToRedis(prefix: Option<string>, ops: seq<TxnOp>, store: Store) returns (after: Store)
    ensures after == Piped(store, IssuedAll(prefix, ops))
  {
    var txn := new RedisTxn(prefix);
    for i := 0 to |ops|
      invariant fresh(txn) && txn.prefix == prefix && txn.ops == IssuedAll(prefix, ops[..i])
    {
      match ops[i] {
        case PutOp(key, value) => txn.Put(key, value);
        case DeleteOp(key) => txn.Delete(key);
      }
    }
    assert ops[..|ops|] == ops;
    var err;
    after, err := txn.Commit(store, false, None);
  }

  // ---------------------------------------------------------------- the two agree

  /** The changes of a committed map written to a store in a given order of its keys. */
  function AppliedInOrder(store: Store, kvs: map<string, ChangeValue>, order: seq<string>): Store
    requires forall key :: key in order ==> key in kvs
  {
    if order == [] then store
    else
      var key, before := order[|order| - 1], AppliedInOrder(store, kvs, order[..|order| - 1]);
      if kvs[key].delete then before - {key} else before[key := kvs[key].data]
  }

  /** The value of one key after the changes in order[..]: it depends on the key's own change alone. */
  lemma {:induction false} OrderDoesNotMatter(
      store: Store, kvs: map<string, ChangeValue>, order: seq<string>, k: string)
    requires forall key :: key in order ==> key in kvs
    ensures var after := AppliedInOrder(store, kvs, order);
      if k !in order then (k in after <==> k in store) && (k in store ==> after[k] == store[k])
      else if kvs[k].delete then k !in after
      else k in after && after[k] == kvs[k].data
  {
    if order != [] {
      var before, last := order[..|order| - 1], order[|order| - 1];
      OrderDoesNotMatter(store, kvs, before, k);
      assert k in order <==> k in before || k == last;
    }
  }

  /** The value of one key after a replay: that of the last operation on it. */
  lemma {:induction false} LastWriteWins(store: Store, ops: seq<TxnOp>, k: string)
    ensures var after, kvs := Replayed(store, ops), Changes(ops);
      if k !in kvs then (k in after <==> k in store) && (k in store ==> after[k] == store[k])
      else if kvs[k].delete then k !in after
      else k in after && after[k] == kvs[k].data
  {
    if ops != [] {
      LastWriteWins(store, ops[..|ops| - 1], k);
    }
  }

  /**
   For every sequence of operations and every store, writing the local transaction's map to the
   store, in whatever order its keys come, gives what replaying the operations gives.
   */
  lemma {:induction false} MapEqualsReplay(store: Store, ops: seq<TxnOp>, order: seq<string>)
    requires forall key :: key in order <==> key in Changes(ops)
    ensures AppliedInOrder(store, Changes(ops), order) == Replayed(store, ops)
  {
    var a, b := AppliedInOrder(store, Changes(ops), order), Replayed(store, ops);
    forall k
      ensures k in a <==> k in b
      ensures k in a && k in b ==> a[k] == b[k]
    {
      OrderDoesNotMatter(store, Changes(ops), order, k);
      LastWriteWins(store, ops, k);
    }
  }

  lemma {:induction false} PipedWithoutPrefix(store: Store, ops: seq<TxnOp>)
    ensures Piped(store, IssuedAll(None, ops)) == Replayed(store, ops)
  {
    if ops != [] {
      PipedWithoutPrefix(store, ops[..|ops| - 1]);
      assert IssuedAll(None, ops)[..|ops| - 1] == IssuedAll(None, ops[..|ops| - 1]);
    }
  }

  /** The part of a store under a prefix, keys without the prefix. */
  function Under(prefix: string, store: Store): Store {
    map k | k in (set x | x in store && prefix <= x :: x[|prefix|..]) && prefix + k in store :: store[prefix + k]
  }

  lemma {:induction false} UnderHas(prefix: string, store: Store, k: string)
    ensures k in Under(prefix, store) <==> prefix + k in store
    ensures prefix + k in store ==> Under(prefix, store)[k] == store[prefix + k]
  {
    if prefix + k in store {
      assert (prefix + k)[|prefix|..] == k;
    }
  }

  /**
   With a prefix the Redis transaction does to the part of the store under the prefix what the
   operations say, and leaves every other key alone.
   */
  lemma {:induction false} PrefixConfines(prefix: string, store: Store, ops: seq<TxnOp>, k: string)
    ensures var after := Piped(store, IssuedAll(Some(prefix), ops));
      && (k in Under(prefix, after) <==> k in Replayed(Under(prefix, store), ops))
      && (k in Under(prefix, after) ==> Under(prefix, after)[k] == Replayed(Under(prefix, store), ops)[k])
      && (!(prefix <= k) ==> (k in after <==> k in store) && (k in store ==> after[k] == store[k]))
  {
    if ops != [] {
      var init, op := ops[..|ops| - 1], ops[|ops| - 1];
      PrefixConfines(prefix, store, init, k);
      assert IssuedAll(Some(prefix), ops)[..|init|] == IssuedAll(Some(prefix), init);
      var before := Piped(store, IssuedAll(Some(prefix), init));
      UnderHas(prefix, before, k);
      UnderHas(prefix, Piped(store, IssuedAll(Some(prefix), ops)), k);
      assert prefix + k == prefix + op.key <==> k == op.key by {
        assert (prefix + k)[|prefix|..] == k && (prefix + op.key)[|prefix|..] == op.key;
      }
    }
  }
}
