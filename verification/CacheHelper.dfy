/**
 idxmap/mem/cache_helper.go: change and resync events of a remote key-value store, written into
 an indexed mapping under the names the keys parse to.
 */
module CacheHelper {
  import opened Wrappers
  import opened NamedMapping

  /** The result of the injected ParseName. */
  datatype Parsed = Name(name: string) | Unparsable(error: string)

  /** datasync.PutDel is a string: other values than the two constants are possible. */
  datatype ChangeType = PutChange | DeleteChange | OtherChange

  datatype Change<V> = Change(kind: ChangeType, key: string, value: V)

  /** The remote store after a change. */
  function Stored<V>(store: map<string, V>, c: Change<V>): map<string, V> {
    match c.kind
    case PutChange => store[c.key := c.value]
    case DeleteChange => store - {c.key}
    case OtherChange => store
  }

  function Lookup<V>(store: map<string, V>, key: string): Option<V> {
    if key in store then Some(store[key]) else None
  }

  /** What a change does to the names of the cache. */
  function Cached<V>(parse: string -> Parsed, cache: map<string, V>, c: Change<V>): map<string, V> {
    match parse(c.key)
    case Unparsable(_) => cache
    case Name(name) => Stored(cache, c.(key := name))
  }

  /** Snapshot items in order, keys that do not parse left out, later items over earlier ones. */
  function Snapshot<V>(parse: string -> Parsed, items: seq<(string, V)>): map<string, V> {
    if items == [] then map[]
    else
      var (key, value) := items[|items| - 1];
      var before := Snapshot(parse, items[..|items| - 1]);
      if parse(key).Name? then before[parse(key).name := value] else before
  }

  function LastError<V>(parse: string -> Parsed, items: seq<(string, V)>): Option<string> {
    if items == [] then None
    else if parse(items[|items| - 1].0).Unparsable? then Some(parse(items[|items| - 1].0).error)
    else LastError(parse, items[..|items| - 1])
  }

  /** Nil if every key parses, else the error of the last key that does not. */
  ghost predicate IsLastError<V>(parse: string -> Parsed, items: seq<(string, V)>, err: Option<string>) {
    if err == None then forall k :: 0 <= k < |items| ==> parse(items[k].0).Name?
    else exists k :: LastErrorAt(parse, items, err.value, k)
  }

  predicate LastErrorAt<V>(parse: string -> Parsed, items: seq<(string, V)>, error: string, k: int) {
    0 <= k < |items| && parse(items[k].0) == Unparsable(error) &&
    forall j :: k < j < |items| ==> parse(items[j].0).Name?
  }

  lemma {:induction false} LastErrorIsLast<V>(parse: string -> Parsed, items: seq<(string, V)>)
    ensures IsLastError(parse, items, LastError(parse, items))
  {
    if items != [] {
      var n := |items| - 1;
      if parse(items[n].0).Unparsable? {
        assert LastErrorAt(parse, items, parse(items[n].0).error, n);
      } else {
        LastErrorIsLast(parse, items[..n]);
        assert forall j :: 0 <= j < n ==> items[..n][j] == items[j];
        if LastError(parse, items).Some? {
          var e := LastError(parse, items).value;
          var k :| LastErrorAt(parse, items[..n], e, k);
          assert LastErrorAt(parse, items, e, k);
        }
      }
    }
  }

  lemma {:induction false} SnapshotOfNext<V>(
      parse: string -> Parsed, items: seq<(string, V)>, k: nat, cache: map<string, V>)
    requires k < |items|
    ensures var (key, value) := items[k];
      match parse(key)
      case Name(name) =>
        && cache + Snapshot(parse, items[..k + 1]) == (cache + Snapshot(parse, items[..k]))[name := value]
        && LastError(parse, items[..k + 1]) == LastError(parse, items[..k])
      case Unparsable(e) =>
        && Snapshot(parse, items[..k + 1]) == Snapshot(parse, items[..k])
        && LastError(parse, items[..k + 1]) == Some(e)
  {
    assert items[..k + 1][..k] == items[..k];
  }

  class CacheHelper<V(!new)> {
    const idx: MemNamedMapping<V>
    const parseName: string -> Parsed

    constructor (idx: MemNamedMapping<V>, parseName: string -> Parsed)
      ensures this.idx == idx && this.parseName == parseName
    {
      this.idx := idx;
      this.parseName := parseName;
    }

    /**
     cache_helper.go:37-57.  The error of ParseName is assigned to a variable of the inner scope, so
     the outer one, which is returned, stays nil even when the key was not parsed.
     */
    method DoChange(c: Change<V>) returns (err: Option<string>)
      requires idx.Valid()
      modifies idx, idx.sets
      ensures idx.Valid() && fresh(idx.sets - old(idx.sets))
      ensures idx.Contents() == Cached(parseName, old(idx.Contents()), c)
      ensures forall name ::
        Lookup(idx.Contents(), name) ==
        if parseName(c.key) != Name(name) || c.kind == OtherChange then Lookup(old(idx.Contents()), name)
        else if c.kind == PutChange then Some(c.value)
        else None
      ensures err == None
    {
      err := None;
      match c.kind
      case PutChange =>
        var parsed := parseName(c.key);
        if parsed.Name? {
          idx.Put(parsed.name, c.value);
        }
      case DeleteChange =>
        var parsed := parseName(c.key);
        if parsed.Name? {
          var _ := idx.Delete(parsed.name);
        }
      case OtherChange =>
    }

    /** cache_helper.go:74-82: one item of the snapshot. */
    method Fill(key: string, value: V) returns (err: Option<string>)
      requires idx.Valid()
      modifies idx, idx.sets
      ensures idx.Valid() && fresh(idx.sets - old(idx.sets))
      ensures match parseName(key)
        case Name(name) => err == None && idx.Contents() == old(idx.Contents())[name := value]
        case Unparsable(e) => err == Some(e) && idx.Contents() == old(idx.Contents())
    {
      var ifaceName := parseName(key);
      if ifaceName.Unparsable? {
        return Some(ifaceName.error);
      }
      idx.Put(ifaceName.name, value);
      return None;
    }

    /**
     cache_helper.go:62-94.  values is what the event holds under the prefix of the helper, if
     anything.  The snapshot is laid over the old contents; no old name is deleted.
     */
    method DoResync(values: Option<seq<(string, V)>>) returns (wasError: Option<string>)
      requires idx.Valid()
      modifies idx, idx.sets
      ensures idx.Valid() && fresh(idx.sets - old(idx.sets))
      ensures values == None ==> idx.Contents() == old(idx.Contents()) && wasError == None
      ensures values.Some? ==>
        && idx.Contents() == old(idx.Contents()) + Snapshot(parseName, values.value)
        && wasError == LastError(parseName, values.value)
        && IsLastError(parseName, values.value, wasError)
    {
      wasError := None;
      if values.Some? {
        var items := values.value;
        var next := 0;
        while next < |items|
          invariant 0 <= next <= |items|
          invariant idx.Valid() && fresh(idx.sets - old(idx.sets))
          invariant idx.Contents() == old(idx.Contents()) + Snapshot(parseName, items[..next])
          invariant wasError == LastError(parseName, items[..next])
        {
          SnapshotOfNext(parseName, items, next, old(idx.Contents()));
          var err := Fill(items[next].0, items[next].1);
          if err.Some? {
            wasError := err;
          }
          next := next + 1;
        }
        assert items[..|items|] == items;
        LastErrorIsLast(parseName, items);
      }
    }
  }

  // ---------------------------------------------------------------- the cache mirrors the store

  /** Keys that parse to one name are one key. */
  ghost predicate Injective(parse: string -> Parsed) {
    forall k1, k2 :: parse(k1).Name? && parse(k1) == parse(k2) ==> k1 == k2
  }

  /** The cache is the store restricted to the keys that parse, each under its name. */
  ghost predicate Mirrors<V>(parse: string -> Parsed, store: map<string, V>, cache: map<string, V>) {
    && (forall name :: name in cache ==> exists key :: key in store && parse(key) == Name(name))
    && (forall key :: key in store && parse(key).Name? ==>
          parse(key).name in cache && cache[parse(key).name] == store[key])
  }

  function StoreAfter<V>(changes: seq<Change<V>>): map<string, V> {
    if changes == [] then map[] else Stored(StoreAfter(changes[..|changes| - 1]), changes[|changes| - 1])
  }

  /** Change k is the last one that puts or deletes the key. */
  predicate Decides<V>(changes: seq<Change<V>>, k: int, key: string) {
    && 0 <= k < |changes| && changes[k].key == key && changes[k].kind != OtherChange
    && forall j :: k < j < |changes| ==> changes[j].key != key || changes[j].kind == OtherChange
  }

  /** A store has a key exactly if the last put or delete of it is a put, and then with the value of that put. */
  lemma {:induction false} LastChangeDecides<V>(changes: seq<Change<V>>, key: string)
    ensures forall k :: Decides(changes, k, key) ==>
      Lookup(StoreAfter(changes), key) == if changes[k].kind == PutChange then Some(changes[k].value) else None
    ensures (forall k :: !Decides(changes, k, key)) ==> Lookup(StoreAfter(changes), key) == None
  {
    if changes != [] {
      var n := |changes| - 1;
      LastChangeDecides(changes[..n], key);
      if changes[n].key == key && changes[n].kind != OtherChange {
        assert Decides(changes, n, key);
      } else {
        forall k
          ensures Decides(changes, k, key) <==> Decides(changes[..n], k, key)
        {
          DecidesBefore(changes, k, key);
        }
      }
    }
  }

  lemma {:induction false} DecidesBefore<V>(changes: seq<Change<V>>, k: int, key: string)
    requires changes != [] && (changes[|changes| - 1].key != key || changes[|changes| - 1].kind == OtherChange)
    ensures Decides(changes, k, key) <==> Decides(changes[..|changes| - 1], k, key)
  {
    var init := changes[..|changes| - 1];
    assert forall j :: 0 <= j < |init| ==> init[j] == changes[j];
  }

  function CacheAfter<V>(parse: string -> Parsed, changes: seq<Change<V>>): map<string, V> {
    if changes == [] then map[]
    else Cached(parse, CacheAfter(parse, changes[..|changes| - 1]), changes[|changes| - 1])
  }

  /** A helper on an empty mapping that is given a run of changes. */
  method Run<V(!new)>(
      owner: string, indexFunction: Option<V -> Indexed>, parse: string -> Parsed, changes: seq<Change<V>>)
    returns (idx: MemNamedMapping<V>)
    ensures idx.Valid() && idx.createIndexes == indexFunction
    ensures idx.Contents() == CacheAfter(parse, changes)
  {
    idx := new MemNamedMapping(owner, "", indexFunction);
    var helper := new CacheHelper(idx, parse);
    for i := 0 to |changes|
      invariant idx.Valid() && fresh(idx) && fresh(idx.sets)
      invariant idx.Contents() == CacheAfter(parse, changes[..i])
    {
      assert changes[..i + 1][..i] == changes[..i];
      var _ := helper.DoChange(changes[i]);
    }
    assert changes[..|changes|] == changes;
  }

  lemma {:induction false} StepMirrors<V>(
      parse: string -> Parsed, store: map<string, V>, cache: map<string, V>, c: Change<V>)
    requires Injective(parse) && Mirrors(parse, store, cache)
    ensures Mirrors(parse, Stored(store, c), Cached(parse, cache, c))
  {
    var store', cache' := Stored(store, c), Cached(parse, cache, c);
    forall name | name in cache'
      ensures exists key :: key in store' && parse(key) == Name(name)
    {
      if c.kind.PutChange? && parse(c.key) == Name(name) {
        assert c.key in store';
      } else {
        var key :| key in store && parse(key) == Name(name);
        assert key in store';
      }
    }
  }

  lemma {:induction false} InjectiveRunMirrors<V>(parse: string -> Parsed, changes: seq<Change<V>>)
    requires Injective(parse)
    ensures Mirrors(parse, StoreAfter(changes), CacheAfter(parse, changes))
  {
    if changes != [] {
      var before := changes[..|changes| - 1];
      InjectiveRunMirrors(parse, before);
      StepMirrors(parse, StoreAfter(before), CacheAfter(parse, before), changes[|changes| - 1]);
    }
  }

  /** Two keys of one name: deleting the first takes the second out of the cache too. */
  lemma {:induction false} CollisionBreaksMirror<V>(parse: string -> Parsed, k1: string, k2: string, v: V)
    requires k1 != k2 && parse(k1).Name? && parse(k1) == parse(k2)
    ensures var run := [Change(PutChange, k1, v), Change(PutChange, k2, v), Change(DeleteChange, k1, v)];
      !Mirrors(parse, StoreAfter(run), CacheAfter(parse, run))
  {
    var c1, c2, c3 := Change(PutChange, k1, v), Change(PutChange, k2, v), Change(DeleteChange, k1, v);
    var run := [c1, c2, c3];
    assert run[..2] == [c1, c2] && [c1, c2][..1] == [c1] && [c1][..0] == [];
    assert StoreAfter([c1]) == map[k1 := v];
    assert StoreAfter([c1, c2]) == map[k1 := v, k2 := v];
    assert StoreAfter(run) == Stored(StoreAfter([c1, c2]), c3);
    assert CacheAfter(parse, run) == Cached(parse, CacheAfter(parse, [c1, c2]), c3);
    assert k2 in StoreAfter(run);
    assert parse(k2).name !in CacheAfter(parse, run);
  }

  /** After every run of changes the cache mirrors the store, exactly when ParseName is injective on what it accepts. */
  lemma {:induction false} MirrorsIffInjective<V(!new)>(parse: string -> Parsed, v: V)
    ensures (forall changes: seq<Change<V>> :: Mirrors(parse, StoreAfter(changes), CacheAfter(parse, changes)))
      <==> Injective(parse)
  {
    if Injective(parse) {
      forall changes: seq<Change<V>>
        ensures Mirrors(parse, StoreAfter(changes), CacheAfter(parse, changes))
      {
        InjectiveRunMirrors(parse, changes);
      }
    } else {
      var k1, k2 :| parse(k1).Name? && parse(k1) == parse(k2) && k1 != k2;
      CollisionBreaksMirror(parse, k1, k2, v);
    }
  }

  /** The keys of the store whose value an index function lists under a field and value. */
  ghost predicate Selected<V>(parse: string -> Parsed, store: map<string, V>, indexes: V -> Indexed,
                              field: string, value: string, name: string)
  {
    exists key :: key in store && parse(key) == Name(name) && Lists(indexes(store[key]), field, value)
  }

  /** A secondary lookup in a mirroring cache answers as the same lookup in the store would. */
  lemma {:induction false} LookupAnswersForStore<V(!new)>(
      parse: string -> Parsed, store: map<string, V>, idx: MemNamedMapping<V>, field: string, value: string)
    requires idx.createIndexes.Some? && Mirrors(parse, store, idx.Contents())
    ensures forall name ::
      name in idx.Query(idx.Contents(), field, value) <==>
      Selected(parse, store, idx.createIndexes.value, field, value, name)
  {
    var cache := idx.Contents();
    forall name | name in idx.Query(cache, field, value)
      ensures Selected(parse, store, idx.createIndexes.value, field, value, name)
    {
      var key :| key in store && parse(key) == Name(name);
      assert cache[name] == store[key];
    }
  }

  // ---------------------------------------------------------------- runs with resyncs

  /** What the helper is told: a change, or the whole contents of the store. */
  datatype Event<V> = Changed(change: Change<V>) | Resynced(items: seq<(string, V)>)

  /** The store that a snapshot is of. */
  function StoreOf<V>(items: seq<(string, V)>): map<string, V> {
    if items == [] then map[] else StoreOf(items[..|items| - 1])[items[|items| - 1].0 := items[|items| - 1].1]
  }

  function StoreRun<V>(events: seq<Event<V>>): map<string, V> {
    if events == [] then map[]
    else match events[|events| - 1]
      case Changed(change) => Stored(StoreRun(events[..|events| - 1]), change)
      case Resynced(items) => StoreOf(items)
  }

  function CacheRun<V>(parse: string -> Parsed, events: seq<Event<V>>): map<string, V> {
    if events == [] then map[]
    else
      var cache := CacheRun(parse, events[..|events| - 1]);
      match events[|events| - 1]
      case Changed(change) => Cached(parse, cache, change)
      case Resynced(items) => cache + Snapshot(parse, items)
  }

  /** A helper on an empty mapping that is given a run of events. */
  method RunEvents<V(!new)>(
      owner: string, indexFunction: Option<V -> Indexed>, parse: string -> Parsed, events: seq<Event<V>>)
    returns (idx: MemNamedMapping<V>)
    ensures idx.Valid() && idx.createIndexes == indexFunction
    ensures idx.Contents() == CacheRun(parse, events)
  {
    idx := new MemNamedMapping(owner, "", indexFunction);
    var helper := new CacheHelper(idx, parse);
    for i := 0 to |events|
      invariant idx.Valid() && fresh(idx) && fresh(idx.sets)
      invariant idx.Contents() == CacheRun(parse, events[..i])
    {
      assert events[..i + 1][..i] == events[..i];
      match events[i]
      case Changed(change) =>
        var _ := helper.DoChange(change);
      case Resynced(items) =>
        var _ := helper.DoResync(Some(items));
    }
    assert events[..|events|] == events;
  }

  lemma {:induction false} SnapshotMirrors<V>(parse: string -> Parsed, items: seq<(string, V)>)
    requires Injective(parse)
    ensures Mirrors(parse, StoreOf(items), Snapshot(parse, items))
  {
    if items != [] {
      var before, last := items[..|items| - 1], items[|items| - 1];
      SnapshotMirrors(parse, before);
      StepMirrors(parse, StoreOf(before), Snapshot(parse, before), Change(PutChange, last.0, last.1));
    }
  }

  /** Every key of the store that parses is still there in the snapshot. */
  ghost predicate Retains<V>(parse: string -> Parsed, store: map<string, V>, items: seq<(string, V)>) {
    forall key :: key in store && parse(key).Name? ==> key in StoreOf(items)
  }

  /**
   A resync leaves a mirror of the store that its snapshot is of, as its documentation has it, just when
   the snapshot still has every key that parses: a key that went away meanwhile stays in the cache.
   */
  lemma {:induction false} ResyncMirrorsIff<V>(
      parse: string -> Parsed, store: map<string, V>, cache: map<string, V>, items: seq<(string, V)>)
    requires Injective(parse) && Mirrors(parse, store, cache)
    ensures Mirrors(parse, StoreOf(items), cache + Snapshot(parse, items)) <==> Retains(parse, store, items)
  {
    var snapshot := Snapshot(parse, items);
    SnapshotMirrors(parse, items);
    if Retains(parse, store, items) {
      forall name | name in cache
        ensures name in snapshot
      {
        var key :| key in store && parse(key) == Name(name);
        assert key in StoreOf(items);
      }
      assert cache + snapshot == snapshot;
    }
    if Mirrors(parse, StoreOf(items), cache + snapshot) {
      forall key | key in store && parse(key).Name?
        ensures key in StoreOf(items)
      {
        MirroredKeyIsStored(parse, StoreOf(items), cache + snapshot, key);
      }
    }
  }

  lemma {:induction false} MirroredKeyIsStored<V>(
      parse: string -> Parsed, store: map<string, V>, cache: map<string, V>, key: string)
    requires Injective(parse) && Mirrors(parse, store, cache)
    requires parse(key).Name? && parse(key).name in cache
    ensures key in store
  {
    var other :| other in store && parse(other) == Name(parse(key).name);
  }

  /** The cache mirrors the store at the start and after every event of the run. */
  ghost predicate MirrorsThroughout<V>(parse: string -> Parsed, events: seq<Event<V>>) {
    Mirrors(parse, StoreRun(events), CacheRun(parse, events)) &&
    (events == [] || MirrorsThroughout(parse, events[..|events| - 1]))
  }

  /** No key that parses disappears from the store without a delete event. */
  ghost predicate RetainsThroughout<V>(parse: string -> Parsed, events: seq<Event<V>>) {
    events == [] ||
    var before, last := events[..|events| - 1], events[|events| - 1];
    RetainsThroughout(parse, before) && (last.Resynced? ==> Retains(parse, StoreRun(before), last.items))
  }

  /**
   Over every run of changes and resyncs the cache mirrors the store throughout if and only if no resync
   comes with a snapshot from which a key that parses has disappeared.
   */
  lemma {:induction false} MirrorsThroughoutIff<V>(parse: string -> Parsed, events: seq<Event<V>>)
    requires Injective(parse)
    ensures MirrorsThroughout(parse, events) <==> RetainsThroughout(parse, events)
  {
    if events != [] {
      var before, last := events[..|events| - 1], events[|events| - 1];
      MirrorsThroughoutIff(parse, before);
      if MirrorsThroughout(parse, before) {
        match last {
          case Changed(change) => StepMirrors(parse, StoreRun(before), CacheRun(parse, before), change);
          case Resynced(items) => ResyncMirrorsIff(parse, StoreRun(before), CacheRun(parse, before), items);
        }
      }
    }
  }
}
