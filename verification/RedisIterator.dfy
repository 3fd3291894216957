/**
 db/keyval/redis/bytes_broker_impl.go: iterators over the keys and the values of a store that is
 listed page by page with SCAN, where a page may be empty and cursor zero ends the listing.
 */
module RedisIterator {
  import opened Wrappers

  type Cursor = nat
  type Data = Option<seq<nat>>  // nil for a key without a value

  datatype Reply = Page(keys: seq<string>, next: Cursor) | Failed(error: string)

  /** MGET: a value for each of the keys, or an error. */
  datatype Values = Values(of: string -> Data) | ValuesFailed(error: string)

  /** A connection: what SCAN and MGET answer. */
  datatype Connection = Connection(scan: Cursor -> Reply, mget: seq<string> -> Values)

  /**
   The cursors that a listing from cursor on goes through: a finite chain of pages that ends in
   a zero cursor or in a failure.
   */
  predicate Chain(db: Connection, cursor: Cursor, chain: seq<Cursor>)
    decreases |chain|
  {
    chain != [] && chain[0] == cursor &&
    match db.scan(cursor)
    case Failed(_) => |chain| == 1
    case Page(_, next) => if next == 0 then |chain| == 1 else Chain(db, next, chain[1..])
  }

  /** All keys of the pages of a chain, in order. */
  function KeysOf(db: Connection, chain: seq<Cursor>): seq<string> {
    if chain == [] then []
    else match db.scan(chain[0])
      case Failed(_) => []
      case Page(keys, _) => keys + KeysOf(db, chain[1..])
  }

  /** The number of keys on the first p pages. */
  function KeysBefore(db: Connection, chain: seq<Cursor>, p: nat): nat
    requires p <= |chain|
  {
    if p == 0 then 0
    else KeysBefore(db, chain, p - 1) + if db.scan(chain[p - 1]).Page? then |db.scan(chain[p - 1]).keys| else 0
  }

  lemma {:induction false} KeysBeforeShifts(db: Connection, chain: seq<Cursor>, p: nat)
    requires 1 <= p <= |chain| && db.scan(chain[0]).Page?
    ensures KeysBefore(db, chain, p) == |db.scan(chain[0]).keys| + KeysBefore(db, chain[1..], p - 1)
  {
    if p > 1 {
      KeysBeforeShifts(db, chain, p - 1);
    }
  }

  /** The keys of a listing are those of its pages: every key of every page, in its place, and nothing else. */
  lemma {:induction false} KeyOfPage(db: Connection, cursor: Cursor, chain: seq<Cursor>, p: nat, i: nat)
    requires Chain(db, cursor, chain) && p < |chain| && db.scan(chain[p]).Page? && i < |db.scan(chain[p]).keys|
    ensures |KeysOf(db, chain)| == KeysBefore(db, chain, |chain|)
    ensures KeysBefore(db, chain, p) + i < |KeysOf(db, chain)|
    ensures KeysOf(db, chain)[KeysBefore(db, chain, p) + i] == db.scan(chain[p]).keys[i]
    decreases |chain|
  {
    KeysAreCounted(db, cursor, chain);
    if p > 0 {
      KeysBeforeShifts(db, chain, p);
      KeyOfPage(db, db.scan(cursor).next, chain[1..], p - 1, i);
    }
  }

  lemma {:induction false} KeysAreCounted(db: Connection, cursor: Cursor, chain: seq<Cursor>)
    requires Chain(db, cursor, chain)
    ensures |KeysOf(db, chain)| == KeysBefore(db, chain, |chain|)
    decreases |chain|
  {
    if db.scan(cursor).Page? {
      KeysBeforeShifts(db, chain, |chain|);
      if |chain| > 1 {
        KeysAreCounted(db, db.scan(cursor).next, chain[1..]);
      }
    }
  }

  predicate ScanFails(db: Connection, chain: seq<Cursor>) {
    chain != [] && db.scan(chain[|chain| - 1]).Failed?
  }

  // ---------------------------------------------------------------- prefixes

  /** bytes_broker_impl.go:439-441. */
  function AddPrefix(prefix: string, key: string): string {
    prefix + key
  }

  /** bytes_broker_impl.go:443-445; None is a nil function. */
  function Trim(prefix: Option<string>, key: string): string {
    if prefix.Some? && prefix.value <= key then key[|prefix.value|..] else key
  }

  lemma {:induction false} TrimUndoesAdd(prefix: string, key: string)
    ensures Trim(Some(prefix), AddPrefix(prefix, key)) == key
    ensures prefix <= key ==> AddPrefix(prefix, Trim(Some(prefix), key)) == key
    ensures !(prefix <= key) ==> Trim(Some(prefix), key) == key
    ensures Trim(None, key) == key
  {
    assert (prefix + key)[|prefix|..] == key;
  }

  function TrimAll(prefix: Option<string>, keys: seq<string>): (r: seq<string>)
    ensures |r| == |keys|
  {
    seq(|keys|, i requires 0 <= i < |keys| => Trim(prefix, keys[i]))
  }

  lemma {:induction false} TrimAllOfSum(prefix: Option<string>, a: seq<string>, b: seq<string>)
    ensures TrimAll(prefix, a + b) == TrimAll(prefix, a) + TrimAll(prefix, b)
  {
  }

  // ---------------------------------------------------------------- keys with their values

  /** A key with its value; prevValue is the value listed just before it on the same page. */
  datatype KeyVal = KeyVal(key: string, value: Data, prevValue: Data)

  function ValuesOf(of: string -> Data, keys: seq<string>): (r: seq<Data>)
    ensures |r| == |keys|
  {
    seq(|keys|, i requires 0 <= i < |keys| => of(keys[i]))
  }

  function Pairs(prefix: Option<string>, keys: seq<string>, values: seq<Data>): (r: seq<KeyVal>)
    requires |values| == |keys|
    ensures |r| == |keys|
  {
    seq(|keys|, i requires 0 <= i < |keys| =>
      KeyVal(Trim(prefix, keys[i]), values[i], if i > 0 then values[i - 1] else None))
  }

  /** The pairs of all pages of a chain, up to the first page whose values cannot be had. */
  function ItemsOf(db: Connection, prefix: Option<string>, chain: seq<Cursor>): seq<KeyVal>
  {
    if chain == [] then []
    else match db.scan(chain[0])
      case Failed(_) => []
      case Page(keys, _) =>
        if keys == [] then ItemsOf(db, prefix, chain[1..])
        else match db.mget(keys)
          case ValuesFailed(_) => []
          case Values(of) => Pairs(prefix, keys, ValuesOf(of, keys)) + ItemsOf(db, prefix, chain[1..])
  }

  /** Some page of the chain, or the values of some page, cannot be had. */
  predicate ListingFails(db: Connection, chain: seq<Cursor>) {
    chain != [] &&
    match db.scan(chain[0])
    case Failed(_) => true
    case Page(keys, _) => (keys != [] && db.mget(keys).ValuesFailed?) || ListingFails(db, chain[1..])
  }

  // ---------------------------------------------------------------- scanning

  /** The chain without the pages that ScanKeys passes over: empty ones that are not the last. */
  function FirstPage(db: Connection, chain: seq<Cursor>): seq<Cursor> {
    if chain == [] then []
    else match db.scan(chain[0])
      case Failed(_) => chain
      case Page(keys, next) => if keys == [] && next != 0 then FirstPage(db, chain[1..]) else chain
  }

  lemma {:induction false} PassingOverKeepsAll(
      db: Connection, cursor: Cursor, chain: seq<Cursor>, prefix: Option<string>)
    requires Chain(db, cursor, chain)
    ensures var f := FirstPage(db, chain);
      && f != [] && |f| <= |chain| && Chain(db, f[0], f)
      && (db.scan(f[0]).Page? && db.scan(f[0]).keys == [] ==> db.scan(f[0]).next == 0)
      && KeysOf(db, f) == KeysOf(db, chain) && (ScanFails(db, f) <==> ScanFails(db, chain))
      && ItemsOf(db, prefix, f) == ItemsOf(db, prefix, chain) && (ListingFails(db, f) <==> ListingFails(db, chain))
    decreases |chain|
  {
    var reply := db.scan(cursor);
    if reply.Page? && reply.keys == [] && reply.next != 0 {
      PassingOverKeepsAll(db, reply.next, chain[1..], prefix);
      assert KeysOf(db, chain) == [] + KeysOf(db, chain[1..]);
    }
  }

  /** bytes_broker_impl.go:347-365: the first page that is not empty, or the last one. */
  method ScanKeys(db: Connection, cursor0: Cursor, ghost chain0: seq<Cursor>)
    returns (keys: seq<string>, next: Cursor, err: Option<string>, ghost rest: seq<Cursor>)
    requires Chain(db, cursor0, chain0)
    ensures var f := FirstPage(db, chain0);
      && f != [] && Chain(db, f[0], f) && |f| <= |chain0|
      && match db.scan(f[0])
         case Failed(e) => err == Some(e)
         case Page(page, after) => err == None && keys == page && next == after
    ensures err == None ==> rest == FirstPage(db, chain0)[1..]
  {
    var cursor := cursor0;
    rest := chain0;
    while true
      invariant Chain(db, cursor, rest) && |rest| <= |chain0|
      invariant FirstPage(db, rest) == FirstPage(db, chain0)
      decreases |rest|
    {
      match db.scan(cursor) {
        case Failed(e) =>
          return [], 0, Some(e), [];
        case Page(page, after) =>
          keys, next := page, after;
          if |keys| > 0 || next == 0 {
            return keys, next, None, rest[1..];
          }
          rest := rest[1..];
          cursor := next;
      }
    }
  }

  lemma {:induction false} TakeFirst<T>(page: seq<T>, index: nat, later: seq<T>)
    requires index < |page|
    ensures (page[index..] + later)[0] == page[index]
    ensures (page[index..] + later)[1..] == (if index + 1 < |page| then page[index + 1..] else []) + later
  {
  }

  lemma {:induction false} GiveFirst<T>(given: seq<T>, remaining: seq<T>)
    requires remaining != []
    ensures given + remaining == (given + [remaining[0]]) + remaining[1..]
  {
  }

  /** bytes_broker_impl.go:208-236. */
  class BytesKeyIterator {
    const db: Connection
    const trimPrefix: Option<string>
    var index: nat
    var keys: seq<string>
    var cursor: Cursor
    var err: Option<string>
    ghost var rest: seq<Cursor>       // the chain from the current cursor on
    ghost var remaining: seq<string>  // the keys still to come
    ghost var fails: bool             // whether the listing ends in a failure

    ghost predicate Valid()
      reads this
    {
      if err.Some? then fails && remaining == []
      else
        && remaining == OnPage() + TrimAll(trimPrefix, KeysOf(db, rest))
        && (if cursor == 0 then rest == [] else Chain(db, cursor, rest))
        && (fails <==> ScanFails(db, rest))
    }

    /** What is left of the current page. */
    ghost function OnPage(): seq<string>
      reads this
    {
      if index < |keys| then TrimAll(trimPrefix, keys)[index..] else []
    }

    constructor (db: Connection, trimPrefix: Option<string>, keys: seq<string>, cursor: Cursor, ghost rest: seq<Cursor>)
      requires if cursor == 0 then rest == [] else Chain(db, cursor, rest)
      ensures Valid() && this.db == db && this.trimPrefix == trimPrefix
      ensures remaining == TrimAll(trimPrefix, keys + KeysOf(db, rest)) && (fails <==> ScanFails(db, rest))
    {
      this.db, this.trimPrefix, this.keys, this.cursor, this.rest := db, trimPrefix, keys, cursor, rest;
      index, err, fails := 0, None, ScanFails(db, rest);
      remaining := TrimAll(trimPrefix, keys) + TrimAll(trimPrefix, KeysOf(db, rest));
      TrimAllOfSum(trimPrefix, keys, KeysOf(db, rest));
    }

    /**
     The next of the remaining keys, or the end: then nothing remains, every later call says the
     same, and err tells whether the listing had failed.
     */
    method GetNext() returns (key: string, lastReceived: bool)
      requires Valid()
      modifies this
      ensures Valid() && fails == old(fails)
      ensures lastReceived <==> old(remaining) == []
      ensures lastReceived ==> remaining == [] && key == "" && (err.Some? <==> fails)
      ensures !lastReceived ==> key == old(remaining)[0] && remaining == old(remaining)[1..]
    {
      if err.Some? {
        return "", true;
      }
      if index >= |keys| {
        var more := NextPage();
        if !more {
          return "", true;
        }
      }
      key := TakeKey();
      return key, false;
    }

    /** bytes_broker_impl.go:229-235. */
    method TakeKey() returns (key: string)
      requires Valid() && err == None && index < |keys|
      modifies this`index, this`remaining
      ensures Valid()
      ensures old(remaining) != [] && key == old(remaining)[0] && remaining == old(remaining)[1..]
    {
      key := Trim(trimPrefix, keys[index]);
      ghost var page, later := TrimAll(trimPrefix, keys), TrimAll(trimPrefix, KeysOf(db, rest));
      assert remaining == page[index..] + later;
      TakeFirst(page, index, later);
      index := index + 1;
      remaining := (if index < |page| then page[index..] else []) + later;
    }

    /** bytes_broker_impl.go:213-226, with all keys of the current page given out. */
    method NextPage() returns (more: bool)
      requires Valid() && err == None && index >= |keys|
      modifies this
      ensures Valid() && fails == old(fails) && remaining == old(remaining)
      ensures more ==> err == None && index < |keys|
      ensures !more ==> remaining == [] && (err.Some? <==> fails)
    {
      if cursor == 0 {
        return false;
      }
      PassingOverKeepsAll(db, cursor, rest, trimPrefix);
      keys, cursor, err, rest := ScanKeys(db, cursor, rest);
      if err.Some? || |keys| == 0 {
        return false;
      }
      TrimAllOfSum(trimPrefix, keys, KeysOf(db, rest));
      index := 0;
      return true;
    }

    /** bytes_broker_impl.go:179-185, the loop by which Delete collects the keys of a prefix. */
    method Drain() returns (all: seq<string>)
      requires Valid()
      modifies this
      ensures Valid() && remaining == [] && fails == old(fails)
      ensures all == old(remaining)
      ensures err.Some? <==> fails
    {
      all := [];
      while true
        invariant Valid() && fails == old(fails)
        invariant all + remaining == old(remaining)
        decreases |remaining|
      {
        ghost var before := remaining;
        var k, last := GetNext();
        if last {
          return;
        }
        GiveFirst(all, before);
        all := all + [k];
      }
    }
  }

  /** bytes_broker_impl.go:309-329: no iterator if the first SCAN fails. */
  method ListKeys(db: Connection, trimPrefix: Option<string>, ghost chain: seq<Cursor>)
    returns (it: BytesKeyIterator?, err: Option<string>)
    requires Chain(db, 0, chain)
    ensures it == null <==> err.Some?
    ensures it == null ==> ScanFails(db, chain) && KeysOf(db, chain) == []
    ensures it != null ==>
      && fresh(it) && it.Valid() && it.db == db && it.trimPrefix == trimPrefix
      && it.remaining == TrimAll(trimPrefix, KeysOf(db, chain)) && (it.fails <==> ScanFails(db, chain))
  {
    var keys, cursor;
    ghost var rest;
    PassingOverKeepsAll(db, 0, chain, trimPrefix);
    keys, cursor, err, rest := ScanKeys(db, 0, chain);
    if err.Some? {
      return null, err;
    }
    it := new BytesKeyIterator(db, trimPrefix, keys, cursor, rest);
  }

  // ---------------------------------------------------------------- the iterator over values

  /** bytes_broker_impl.go:367-391. */
  method GetValues(db: Connection, keys: seq<string>) returns (values: seq<Data>, err: Option<string>)
    ensures keys == [] ==> values == [] && err == None
    ensures keys != [] ==> match db.mget(keys)
      case Values(of) => values == ValuesOf(of, keys) && err == None
      case ValuesFailed(e) => err == Some(e)
  {
    if |keys| == 0 {
      return [], None;
    }
    match db.mget(keys) {
      case Values(of) => return ValuesOf(of, keys), None;
      case ValuesFailed(e) => return [], Some(e);
    }
  }

  /** bytes_broker_impl.go:245-287. */
  class BytesKeyValIterator {
    const db: Connection
    const trimPrefix: Option<string>
    var index: nat
    var keys: seq<string>
    var values: seq<Data>
    var cursor: Cursor
    var err: Option<string>
    ghost var rest: seq<Cursor>       // the chain from the current cursor on
    ghost var remaining: seq<KeyVal>  // the pairs still to come
    ghost var fails: bool             // whether the listing ends in a failure

    ghost predicate Valid()
      reads this
    {
      if err.Some? then fails && remaining == []
      else
        && (index < |values| ==> |keys| == |values|)
        && remaining == OnPage() + ItemsOf(db, trimPrefix, rest)
        && (if cursor == 0 then rest == [] else Chain(db, cursor, rest))
        && (fails <==> ListingFails(db, rest))
    }

    /** What is left of the current page. */
    ghost function OnPage(): seq<KeyVal>
      reads this
    {
      if index < |values| && |keys| == |values| then Pairs(trimPrefix, keys, values)[index..] else []
    }

    constructor (db: Connection, trimPrefix: Option<string>, keys: seq<string>, values: seq<Data>, cursor: Cursor,
                 ghost rest: seq<Cursor>)
      requires |values| == |keys|
      requires if cursor == 0 then rest == [] else Chain(db, cursor, rest)
      ensures Valid() && this.db == db && this.trimPrefix == trimPrefix
      ensures remaining == Pairs(trimPrefix, keys, values) + ItemsOf(db, trimPrefix, rest)
      ensures fails <==> ListingFails(db, rest)
    {
      this.db, this.trimPrefix, this.keys, this.values := db, trimPrefix, keys, values;
      this.cursor, this.rest := cursor, rest;
      index, err, fails := 0, None, ListingFails(db, rest);
      remaining := Pairs(trimPrefix, keys, values) + ItemsOf(db, trimPrefix, rest);
    }

    /** The next of the remaining pairs, or the end, as for keys. */
    method GetNext() returns (kv: Option<KeyVal>)
      requires Valid()
      modifies this
      ensures Valid() && fails == old(fails)
      ensures kv == None <==> old(remaining) == []
      ensures kv == None ==> remaining == [] && (err.Some? <==> fails)
      ensures kv.Some? ==> kv.value == old(remaining)[0] && remaining == old(remaining)[1..]
    {
      if err.Some? {
        return None;
      }
      if index >= |values| {
        var more := NextPage();
        if !more {
          return None;
        }
      }
      var next := TakePair();
      return Some(next);
    }

    /** bytes_broker_impl.go:272-284. */
    method TakePair() returns (kv: KeyVal)
      requires Valid() && err == None && index < |values|
      modifies this`index, this`remaining
      ensures Valid()
      ensures old(remaining) != [] && kv == old(remaining)[0] && remaining == old(remaining)[1..]
    {
      var key := Trim(trimPrefix, keys[index]);
      var value := values[index];
      var prevValue := None;
      if index > 0 {
        prevValue := values[index - 1];
      }
      kv := KeyVal(key, value, prevValue);
      assert kv == Pairs(trimPrefix, keys, values)[index];
      TakeFirst(Pairs(trimPrefix, keys, values), index, ItemsOf(db, trimPrefix, rest));
      index := index + 1;
      remaining := remaining[1..];
    }

    /** bytes_broker_impl.go:250-269, with all pairs of the current page given out. */
    method NextPage() returns (more: bool)
      requires Valid() && err == None && index >= |values|
      modifies this
      ensures Valid() && fails == old(fails) && remaining == old(remaining)
      ensures more ==> err == None && index < |values|
      ensures !more ==> remaining == [] && (err.Some? <==> fails)
    {
      if cursor == 0 {
        return false;
      }
      PassingOverKeepsAll(db, cursor, rest, trimPrefix);
      keys, cursor, err, rest := ScanKeys(db, cursor, rest);
      if err.Some? || |keys| == 0 {
        return false;
      }
      var vs;
      vs, err := GetValues(db, keys);
      if err.Some? {
        return false;
      }
      values := vs;
      index := 0;
      return true;
    }

    /** The loop of a caller that reads the iterator to its end. */
    method Drain() returns (all: seq<KeyVal>)
      requires Valid()
      modifies this
      ensures Valid() && remaining == [] && fails == old(fails)
      ensures all == old(remaining)
      ensures err.Some? <==> fails
    {
      all := [];
      while true
        invariant Valid() && fails == old(fails)
        invariant all + remaining == old(remaining)
        decreases |remaining|
      {
        ghost var before := remaining;
        var kv := GetNext();
        if kv == None {
          return;
        }
        GiveFirst(all, before);
        all := all + [kv.value];
      }
    }
  }

  /** bytes_broker_impl.go:331-345: no iterator if the first page or its values cannot be had. */
  method ListValues(db: Connection, trimPrefix: Option<string>, ghost chain: seq<Cursor>)
    returns (it: BytesKeyValIterator?, err: Option<string>)
    requires Chain(db, 0, chain)
    ensures it == null <==> err.Some?
    ensures it == null ==> ListingFails(db, chain) && ItemsOf(db, trimPrefix, chain) == []
    ensures it != null ==>
      && fresh(it) && it.Valid() && it.db == db && it.trimPrefix == trimPrefix
      && it.remaining == ItemsOf(db, trimPrefix, chain) && (it.fails <==> ListingFails(db, chain))
  {
    var keys, cursor;
    ghost var rest;
    PassingOverKeepsAll(db, 0, chain, trimPrefix);
    keys, cursor, err, rest := ScanKeys(db, 0, chain);
    if err.Some? {
      return null, err;
    }
    var values;
    values, err := GetValues(db, keys);
    if err.Some? {
      return null, err;
    }
    it := new BytesKeyValIterator(db, trimPrefix, keys, values, cursor, rest);
  }

  // ---------------------------------------------------------------- what draining gives

  /** MGET answers from one store throughout the listing. */
  ghost predicate AnswersFrom(db: Connection, store: string -> Data) {
    forall keys :: db.mget(keys) == Values(store)
  }

  /** Over an unchanging store, a listing pairs every key of every page, in order, with the value stored under it. */
  lemma {:induction false} ItemsPairKeysWithValues(
      db: Connection, prefix: Option<string>, store: string -> Data, cursor: Cursor, chain: seq<Cursor>)
    requires Chain(db, cursor, chain) && AnswersFrom(db, store)
    ensures ListingFails(db, chain) <==> ScanFails(db, chain)
    ensures var items, keys := ItemsOf(db, prefix, chain), KeysOf(db, chain);
      |items| == |keys| &&
      forall i :: 0 <= i < |keys| ==> items[i].key == Trim(prefix, keys[i]) && items[i].value == store(keys[i])
    decreases |chain|
  {
    var reply := db.scan(cursor);
    if reply.Page? && reply.next != 0 {
      ItemsPairKeysWithValues(db, prefix, store, reply.next, chain[1..]);
    }
  }

  // ---------------------------------------------------------------- the previous value

  /** Item k of the listing is the first on its page. */
  predicate FirstOnPage(db: Connection, chain: seq<Cursor>, k: nat) {
    if chain == [] then false
    else match db.scan(chain[0])
      case Failed(_) => false
      case Page(keys, _) => if k < |keys| then k == 0 else FirstOnPage(db, chain[1..], k - |keys|)
  }

  lemma {:induction false} FirstIsFirst(db: Connection, cursor: Cursor, chain: seq<Cursor>)
    requires Chain(db, cursor, chain) && KeysOf(db, chain) != []
    ensures FirstOnPage(db, chain, 0)
    decreases |chain|
  {
    var reply := db.scan(cursor);
    if reply.Page? && reply.keys == [] && reply.next != 0 {
      assert KeysOf(db, chain) == [] + KeysOf(db, chain[1..]);
      FirstIsFirst(db, reply.next, chain[1..]);
    }
  }

  /**
   The previous value of a pair is not one the key had before, of which the store knows nothing, but the
   value of the key listed before it.  It is absent, as it should be, exactly for the first pair of a page
   and for a pair after one without a value.
   */
  lemma {:induction false} PrevValueIsOfNeighbour(
      db: Connection, prefix: Option<string>, store: string -> Data, cursor: Cursor, chain: seq<Cursor>, k: nat)
    requires Chain(db, cursor, chain) && AnswersFrom(db, store) && k < |KeysOf(db, chain)|
    ensures |ItemsOf(db, prefix, chain)| == |KeysOf(db, chain)|
    ensures k == 0 ==> FirstOnPage(db, chain, k)
    ensures ItemsOf(db, prefix, chain)[k].prevValue ==
            if FirstOnPage(db, chain, k) then None else store(KeysOf(db, chain)[k - 1])
    decreases |chain|
  {
    ItemsPairKeysWithValues(db, prefix, store, cursor, chain);
    if k == 0 {
      FirstIsFirst(db, cursor, chain);
    }
    var reply := db.scan(cursor);
    var n := |reply.keys|;
    if k >= n {
      assert KeysOf(db, chain) == reply.keys + KeysOf(db, chain[1..]);
      PrevValueIsOfNeighbour(db, prefix, store, reply.next, chain[1..], k - n);
    }
  }

  /** Two keys on one page: the previous value of the second is the value of the first. */
  lemma {:induction false} PrevValueOfSecond(db: Connection, store: string -> Data, a: string, b: string)
    requires db.scan(0) == Page([a, b], 0) && AnswersFrom(db, store)
    ensures ItemsOf(db, None, [0]) == [KeyVal(a, store(a), None), KeyVal(b, store(b), store(a))]
  {
    assert [0][1..] == [];
    assert Pairs(None, [a, b], ValuesOf(store, [a, b])) == [KeyVal(a, store(a), None), KeyVal(b, store(b), store(a))];
  }
}
