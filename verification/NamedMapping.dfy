/**
 idxmap/mem/inmemory_name_mapping.go: a map of named items with secondary indexes, kept as a
 heap of mutable name sets, and the subscribers that are told of every change.
 */
module NamedMapping {
  import opened Wrappers

  /** Secondary index fields of an item, each with the values it lists. */
  type Indexed = map<string, seq<string>>

  predicate Lists(indexed: Indexed, field: string, value: string) {
    field in indexed && value in indexed[field]
  }

  /** A sequence holding exactly the members of a set, each once. */
  ghost predicate Enumerates<T(!new)>(s: seq<T>, members: set<T>) {
    && (forall x :: x in s <==> x in members)
    && (forall i, j :: 0 <= i < j < |s| ==> s[i] != s[j])
  }

  /** inmemory_name_mapping.go:266-293. */
  class NameSet {
    var names: set<string>
    ghost const home: (string, string)  // the index field and value the set belongs to

    constructor (ghost home: (string, string))
      ensures names == {} && this.home == home
    {
      names := {};
      this.home := home;
    }

    method Add(val: string)
      modifies this
      ensures names == old(names) + {val}
    {
      names := names + {val};
    }

    method Remove(val: string)
      modifies this
      ensures names == old(names) - {val}
    {
      names := names - {val};
    }

    /** The order is that of a map iteration: any. */
    method Content() returns (res: seq<string>)
      ensures Enumerates(res, names)
    {
      res := [];
      var left := names;
      while left != {}
        invariant left <= names && Enumerates(res, names - left)
      {
        var i :| i in left;
        res := res + [i];
        left := left - {i};
      }
    }
  }

  class MappingItem<V> {
    const name: string
    const value: V
    var indexed: Indexed

    constructor (name: string, value: V, indexed: Indexed)
      ensures this.name == name && this.value == value && this.indexed == indexed
    {
      this.name := name;
      this.value := value;
      this.indexed := indexed;
    }
  }

  datatype Event<V> = Event(owner: string, title: string, name: string, del: bool, value: V)

  /** A subscription: whether its callback is non-nil, and what the callback was called with. */
  datatype Subscriber<V> = Subscriber(callback: bool, received: seq<Event<V>>)

  function Applied<V>(m: map<string, V>, e: Event<V>): map<string, V> {
    if e.del then m - {e.name} else m[e.name := e.value]
  }

  /** The mapping a subscriber rebuilds from the events it received. */
  function Replay<V>(m: map<string, V>, events: seq<Event<V>>): map<string, V> {
    if events == [] then m else Applied(Replay(m, events[..|events| - 1]), events[|events| - 1])
  }

  function Notified<V>(subscribers: map<string, Subscriber<V>>, e: Event<V>): map<string, Subscriber<V>> {
    map s | s in subscribers ::
      if subscribers[s].callback then subscribers[s].(received := subscribers[s].received + [e]) else subscribers[s]
  }

  class MemNamedMapping<V(!new)> {
    var nameToIdx: map<string, MappingItem<V>>
    const createIndexes: Option<V -> Indexed>  // None is a nil function
    var indexes: map<string, map<string, NameSet>>
    var subscribers: map<string, Subscriber<V>>
    const owner: string
    const title: string

    ghost var items: set<MappingItem<V>>
    ghost var sets: set<NameSet>
    ghost var atWatch: map<string, map<string, V>>  // the mapping as each subscriber first saw it

    /** The primary map. */
    ghost function Contents(): map<string, V>
      reads this`nameToIdx
    {
      map name | name in nameToIdx :: nameToIdx[name].value
    }

    ghost function IndexesOf(value: V): Indexed {
      if createIndexes == None then map[] else createIndexes.value(value)
    }

    /** The names a filter over a primary map selects. */
    ghost function Query(m: map<string, V>, field: string, value: string): set<string> {
      set name | name in m && Lists(IndexesOf(m[name]), field, value)
    }

    /** The names posted under a value of an index. */
    ghost function NamesAt(field: string, value: string): set<string>
      reads this`indexes, this`sets, sets
    {
      if field in indexes && value in indexes[field] && indexes[field][value] in sets
        then indexes[field][value].names
        else {}
    }

    /** Every value of every index has a name set of its own. */
    ghost predicate Separate()
      reads this`indexes, this`sets
    {
      forall f, v :: f in indexes && v in indexes[f] ==> indexes[f][v] in sets && indexes[f][v].home == (f, v)
    }

    ghost predicate ItemsOk()
      reads this`nameToIdx, this`items, items
    {
      forall name :: name in nameToIdx ==>
        && nameToIdx[name] in items && nameToIdx[name].name == name
        && nameToIdx[name].indexed == IndexesOf(nameToIdx[name].value)
    }

    /** The secondary indexes agree with a filter over the primary map. */
    ghost predicate Agree()
      reads this`nameToIdx, this`indexes, this`sets, sets
    {
      forall f, v :: NamesAt(f, v) == Query(Contents(), f, v)
    }

    /** Replaying what it received, a subscriber has the current mapping. */
    ghost predicate Informed()
      reads this`nameToIdx, this`subscribers, this`atWatch
    {
      && atWatch.Keys == subscribers.Keys
      && (forall s :: s in subscribers && subscribers[s].callback ==>
            Replay(atWatch[s], subscribers[s].received) == Contents())
    }

    ghost predicate Valid()
      reads this, items, sets
    {
      Separate() && ItemsOk() && Agree() && Informed()
    }

    /** inmemory_name_mapping.go:56-66. */
    constructor (owner: string, title: string, indexFunction: Option<V -> Indexed>)
      ensures Valid() && fresh(items) && fresh(sets)
      ensures Contents() == map[] && subscribers == map[]
      ensures createIndexes == indexFunction && this.owner == owner && this.title == title
    {
      nameToIdx, indexes, subscribers := map[], map[], map[];
      createIndexes := indexFunction;
      this.owner, this.title := owner, title;
      items, sets, atWatch := {}, {}, map[];
    }

    // ---------------------------------------------------------------- index maintenance

    /** inmemory_name_mapping.go:174-187. */
    method RemoveIndexes(item: MappingItem<V>, name: string)
      requires Separate()
      modifies sets
      ensures forall f, v ::
        NamesAt(f, v) == old(NamesAt(f, v)) - (if Lists(item.indexed, f, v) then {name} else {})
    {
      var left := item.indexed.Keys;
      while left != {}
        invariant left <= item.indexed.Keys
        invariant forall f, v ::
          NamesAt(f, v) == old(NamesAt(f, v)) - (if f !in left && Lists(item.indexed, f, v) then {name} else {})
      {
        var key :| key in left;
        if key in indexes {
          RemoveUnder(key, item.indexed[key], name);
        }
        left := left - {key};
      }
    }

    /** inmemory_name_mapping.go:180-185, the inner loop. */
    method RemoveUnder(key: string, vals: seq<string>, name: string)
      requires Separate() && key in indexes
      modifies sets
      ensures forall f, v ::
        NamesAt(f, v) == old(NamesAt(f, v)) - (if f == key && v in vals then {name} else {})
    {
      for i := 0 to |vals|
        invariant forall f, v ::
          NamesAt(f, v) == old(NamesAt(f, v)) - (if f == key && v in vals[..i] then {name} else {})
      {
        if vals[i] in indexes[key] {
          var set_ := indexes[key][vals[i]];
          set_.Remove(name);
        }
      }
    }

    /** inmemory_name_mapping.go:149-172.  The item is a new one, not yet posted anywhere. */
    method UpdateIndexes(item: MappingItem<V>, name: string)
      requires Separate() && item.indexed == map[]
      modifies this`indexes, this`sets, sets, item
      ensures Separate() && fresh(sets - old(sets)) && old(sets) <= sets
      ensures item.indexed == IndexesOf(item.value)
      ensures forall f, v ::
        NamesAt(f, v) == old(NamesAt(f, v)) + (if Lists(IndexesOf(item.value), f, v) then {name} else {})
    {
      if createIndexes == None {
        return;
      }
      RemoveIndexes(item, name);
      item.indexed := createIndexes.value(item.value);
      var left := item.indexed.Keys;
      while left != {}
        invariant left <= item.indexed.Keys && item.indexed == IndexesOf(item.value)
        invariant Separate() && fresh(sets - old(sets)) && old(sets) <= sets
        invariant forall f, v ::
          NamesAt(f, v) == old(NamesAt(f, v)) + (if f !in left && Lists(item.indexed, f, v) then {name} else {})
      {
        var key :| key in left;
        AddUnder(key, item.indexed[key], name);
        left := left - {key};
      }
    }

    /** inmemory_name_mapping.go:163-167: the set of a value, made on demand. */
    method SetUnder(key: string, value: string) returns (nameSet: NameSet)
      requires Separate() && key in indexes
      modifies this`indexes, this`sets
      ensures Separate() && fresh(sets - old(sets)) && old(sets) <= sets
      ensures key in indexes && value in indexes[key] && indexes[key][value] == nameSet
      ensures forall f, v :: NamesAt(f, v) == old(NamesAt(f, v))
    {
      if value !in indexes[key] {
        nameSet := new NameSet((key, value));
        sets := sets + {nameSet};
        indexes := indexes[key := indexes[key][value := nameSet]];
      } else {
        nameSet := indexes[key][value];
      }
    }

    /** inmemory_name_mapping.go:168. */
    method PostOne(key: string, value: string, nameSet: NameSet, name: string)
      requires Separate()
      requires key in indexes && value in indexes[key] && indexes[key][value] == nameSet
      modifies nameSet
      ensures forall f, v ::
        NamesAt(f, v) == old(NamesAt(f, v)) + (if f == key && v == value then {name} else {})
    {
      nameSet.Add(name);
    }

    /** inmemory_name_mapping.go:157-169, the body of the loop over index fields. */
    method AddUnder(key: string, vals: seq<string>, name: string)
      requires Separate()
      modifies this`indexes, this`sets, sets
      ensures Separate() && fresh(sets - old(sets)) && old(sets) <= sets
      ensures forall f, v ::
        NamesAt(f, v) == old(NamesAt(f, v)) + (if f == key && v in vals then {name} else {})
    {
      if key !in indexes {
        indexes := indexes[key := map[]];
      }
      for i := 0 to |vals|
        invariant key in indexes
        invariant Separate() && fresh(sets - old(sets)) && old(sets) <= sets
        invariant forall f, v ::
          NamesAt(f, v) == old(NamesAt(f, v)) + (if f == key && v in vals[..i] then {name} else {})
      {
        var nameSet := SetUnder(key, vals[i]);
        PostOne(key, vals[i], nameSet, name);
      }
    }

    lemma {:induction false} QueryAfterChange(m: map<string, V>, name: string, value: V, field: string, v: string)
      ensures Query(m - {name}, field, v) == Query(m, field, v) - {name}
      ensures Query(m[name := value], field, v) ==
        Query(m, field, v) - {name} + (if Lists(IndexesOf(value), field, v) then {name} else {})
      ensures name !in m || !Lists(IndexesOf(m[name]), field, v) ==> Query(m, field, v) - {name} == Query(m, field, v)
    {
    }

    /** inmemory_name_mapping.go:206-209: a stored item leaves the indexes before it is replaced. */
    method Unpost(name: string)
      requires Separate() && ItemsOk() && Agree()
      modifies sets
      ensures forall f, v :: NamesAt(f, v) == Query(Contents(), f, v) - {name}
    {
      ghost var m := Contents();
      if name in nameToIdx {
        RemoveIndexes(nameToIdx[name], name);
      }
      assert Contents() == m;
      forall f, v
        ensures NamesAt(f, v) == Query(m, f, v) - {name}
      {
        if name in m {
          QueryAfterChange(m, name, m[name], f, v);
        }
      }
    }

    /** inmemory_name_mapping.go:205-214. */
    method PutNameToIdx(name: string, metadata: V)
      requires Separate() && ItemsOk() && Agree()
      modifies this`nameToIdx, this`indexes, this`sets, this`items, sets
      ensures Separate() && ItemsOk() && Agree()
      ensures fresh(sets - old(sets)) && fresh(items - old(items))
      ensures Contents() == old(Contents())[name := metadata]
    {
      Unpost(name);
      var item := new MappingItem(name, metadata, map[]);
      items := items + {item};
      nameToIdx := nameToIdx[name := item];
      ghost var m := old(Contents());
      assert Contents() == m[name := metadata];
      assert forall f, v :: NamesAt(f, v) == Query(m, f, v) - {name};
      UpdateIndexes(item, name);
      forall f, v
        ensures NamesAt(f, v) == Query(m[name := metadata], f, v)
      {
        QueryAfterChange(m, name, metadata, f, v);
      }
    }

    /** inmemory_name_mapping.go:189-197. */
    method RemoveNameIdx(name: string) returns (item: Option<MappingItem<V>>)
      requires Separate() && ItemsOk() && Agree()
      modifies this`nameToIdx, sets
      ensures Separate() && ItemsOk() && Agree()
      ensures Contents() == old(Contents()) - {name}
      ensures item.Some? <==> name in old(Contents())
      ensures item.Some? ==> item.value.value == old(Contents())[name]
    {
      if name in nameToIdx {
        item := Some(nameToIdx[name]);
        nameToIdx := nameToIdx - {name};
        RemoveIndexes(item.value, name);
        forall f, v
          ensures NamesAt(f, v) == Query(Contents(), f, v)
        {
          QueryAfterChange(old(Contents()), name, item.value.value, f, v);
          assert Contents() == old(Contents()) - {name};
        }
      } else {
        item := None;
        assert nameToIdx - {name} == nameToIdx;
      }
    }

    // ---------------------------------------------------------------- events

    /** inmemory_name_mapping.go:223-263: both publish loops, in the order of a map iteration. */
    method Publish(dto: Event<V>)
      modifies this`subscribers
      ensures subscribers == Notified(old(subscribers), dto)
    {
      var left := subscribers.Keys;
      while left != {}
        invariant left <= old(subscribers).Keys == subscribers.Keys
        invariant forall s :: s in subscribers ==>
          subscribers[s] == (if s in left then old(subscribers)[s] else Notified(old(subscribers), dto)[s])
      {
        var s :| s in left;
        if subscribers[s].callback {
          subscribers := subscribers[s := subscribers[s].(received := subscribers[s].received + [dto])];
        }
        left := left - {s};
      }
    }

    lemma {:induction false} StillInformed(subs: map<string, Subscriber<V>>, m: map<string, V>, e: Event<V>)
      requires forall s :: s in subs && subs[s].callback ==> s in atWatch && Replay(atWatch[s], subs[s].received) == m
      ensures forall s :: s in subs && subs[s].callback ==>
        Replay(atWatch[s], Notified(subs, e)[s].received) == Applied(m, e)
    {
      forall s | s in subs && subs[s].callback
        ensures Replay(atWatch[s], Notified(subs, e)[s].received) == Applied(m, e)
      {
        var received := subs[s].received;
        assert (received + [e])[..|received|] == received;
      }
    }

    // ---------------------------------------------------------------- the public methods

    /** inmemory_name_mapping.go:70-75. */
    method Put(name: string, value: V)
      requires Valid()
      modifies this, sets
      ensures Valid() && fresh(sets - old(sets)) && fresh(items - old(items))
      ensures Contents() == old(Contents())[name := value]
      ensures subscribers == Notified(old(subscribers), Event(owner, title, name, false, value))
      ensures atWatch == old(atWatch)
    {
      PutNameToIdx(name, value);
      Publish(Event(owner, title, name, false, value));
      StillInformed(old(subscribers), old(Contents()), Event(owner, title, name, false, value));
    }

    /** inmemory_name_mapping.go:78-85. */
    method Delete(name: string) returns (value: Option<V>)
      requires Valid()
      modifies this, sets
      ensures Valid() && sets == old(sets) && items == old(items)
      ensures Contents() == old(Contents()) - {name}
      ensures value == if name in old(Contents()) then Some(old(Contents())[name]) else None
      ensures subscribers ==
        if value.Some? then Notified(old(subscribers), Event(owner, title, name, true, value.value))
        else old(subscribers)
      ensures atWatch == old(atWatch)
    {
      var item := RemoveNameIdx(name);
      if item.None? {
        return None;
      }
      value := Some(item.value.value);
      Publish(Event(owner, title, name, true, value.value));
      StillInformed(old(subscribers), old(Contents()), Event(owner, title, name, true, value.value));
    }

    /** inmemory_name_mapping.go:93-102. */
    method GetValue(name: string) returns (value: Option<V>)
      requires Valid()
      ensures value == if name in Contents() then Some(Contents()[name]) else None
    {
      value := if name in nameToIdx then Some(nameToIdx[name].value) else None;
    }

    /** inmemory_name_mapping.go:105-116. */
    method ListAllNames() returns (names: seq<string>)
      requires Valid()
      ensures Enumerates(names, Contents().Keys)
    {
      names := [];
      var left := nameToIdx.Keys;
      while left != {}
        invariant left <= nameToIdx.Keys && Enumerates(names, nameToIdx.Keys - left)
      {
        var name :| name in left;
        names := names + [name];
        left := left - {name};
      }
    }

    /** inmemory_name_mapping.go:120-135: the names a filter over the primary map selects, each once. */
    method ListNames(field: string, value: string) returns (names: seq<string>)
      requires Valid()
      ensures Enumerates(names, Query(Contents(), field, value))
    {
      assert NamesAt(field, value) == Query(Contents(), field, value);
      if field !in indexes || value !in indexes[field] {
        return [];
      }
      names := indexes[field][value].Content();
    }

    /** inmemory_name_mapping.go:139-147.  A name that is taken keeps its first callback. */
    method Watch(subscriber: string, callback: bool) returns (ok: bool)
      requires Valid()
      modifies this`subscribers, this`atWatch
      ensures Valid()
      ensures ok <==> subscriber !in old(subscribers)
      ensures subscribers == if ok then old(subscribers)[subscriber := Subscriber(callback, [])] else old(subscribers)
      ensures atWatch == if ok then old(atWatch)[subscriber := Contents()] else old(atWatch)
    {
      if subscriber in subscribers {
        return false;
      }
      subscribers := subscribers[subscriber := Subscriber(callback, [])];
      atWatch := atWatch[subscriber := Contents()];
      assert Contents() == old(Contents());
      return true;
    }
  }
}
