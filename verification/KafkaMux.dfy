/**
 messaging/kafka/mux: the table of topic subscriptions.  Entries are deleted by shifting a slice
 in place while the same slice is ranged over; that is right exactly because the methods that
 add entries keep the table free of duplicates.
 */
module KafkaMux {
  import opened Wrappers

  /** Identifies the function a message is handed to. */
  type Callback = nat

  /** multiplexer.go:53-70. */
  class ConsumerSubscription {
    const manual: bool
    const topic: string
    const partition: int
    const offset: int
    const connectionName: string
    var byteConsMsg: Callback
    var consuming: bool  // partitionConsumer is not nil

    constructor (manual: bool, topic: string, partition: int, offset: int, connectionName: string,
                 byteConsMsg: Callback)
      ensures this.manual == manual && this.topic == topic && this.partition == partition && this.offset == offset
      ensures this.connectionName == connectionName && this.byteConsMsg == byteConsMsg && !consuming
    {
      this.manual, this.topic, this.partition, this.offset := manual, topic, partition, offset;
      this.connectionName, this.byteConsMsg, consuming := connectionName, byteConsMsg, false;
    }
  }

  /** What a subscription is for: a topic, or a topic from an offset of a partition on. */
  datatype Slot = HashSlot(topic: string) | ManualSlot(topic: string, partition: int, offset: int)

  function SlotOf(s: ConsumerSubscription): Slot {
    if s.manual then ManualSlot(s.topic, s.partition, s.offset) else HashSlot(s.topic)
  }

  /** No two entries share a slot. */
  predicate Unique(table: seq<ConsumerSubscription>) {
    forall i, j :: 0 <= i < j < |table| ==> SlotOf(table[i]) != SlotOf(table[j])
  }

  /** The condition in the loops of stopConsuming and stopConsumingPartition. */
  predicate Matches(s: ConsumerSubscription, slot: Slot, name: string) {
    SlotOf(s) == slot && s.connectionName == name
  }

  predicate AnyMatch(t: seq<ConsumerSubscription>, slot: Slot, name: string) {
    exists i :: 0 <= i < |t| && Matches(t[i], slot, name)
  }

  // ---------------------------------------------------------------- deleting while ranging

  /** The entries that do not match, in order. */
  function Kept(t: seq<ConsumerSubscription>, slot: Slot, name: string): seq<ConsumerSubscription> {
    if t == [] then []
    else (if Matches(t[0], slot, name) then [] else [t[0]]) + Kept(t[1..], slot, name)
  }

  /**
   What the loop leaves from position p of table t on, after r deletions.  Each deletion moves the
   next entry to the position just visited, where it is skipped; and the last slot of the backing
   array keeps a copy of the last entry, which is met again.  None is the run-time panic.
   */
  function Sweep(t: seq<ConsumerSubscription>, p: nat, r: nat, slot: Slot, name: string)
    : Option<seq<ConsumerSubscription>>
    decreases |t| + 1 - p
  {
    if p >= |t| then
      if t != [] && p < |t| + r && Matches(t[|t| - 1], slot, name) then None else Some([])
    else if !Matches(t[p], slot, name) then
      Before([t[p]], Sweep(t, p + 1, r, slot, name))
    else if p + 1 < |t| then
      Before([t[p + 1]], Sweep(t, p + 2, r + 1, slot, name))
    else
      Sweep(t, p + 2, r + 1, slot, name)
  }

  function Before(s: seq<ConsumerSubscription>, rest: Option<seq<ConsumerSubscription>>)
    : Option<seq<ConsumerSubscription>>
  {
    if rest.Some? then Some(s + rest.value) else None
  }

  lemma {:induction false} BeforeComposes(
      a: seq<ConsumerSubscription>, b: seq<ConsumerSubscription>, rest: Option<seq<ConsumerSubscription>>)
    ensures Before(a, Before(b, rest)) == Before(a + b, rest)
    ensures Before([], rest) == rest
  {
    if rest.Some? {
      assert a + (b + rest.value) == (a + b) + rest.value;
      assert [] + rest.value == rest.value;
    }
  }

  lemma {:induction false} BeforeCancels(
      x: ConsumerSubscription, rest: Option<seq<ConsumerSubscription>>, s: seq<ConsumerSubscription>)
    ensures Before([x], rest) == Some([x] + s) <==> rest == Some(s)
  {
    if rest.Some? {
      assert ([x] + rest.value)[1..] == rest.value && ([x] + s)[1..] == s;
    }
  }

  /** The backing array with the entries after index moved down by one, the last of them staying behind as well. */
  function Deleted<T>(s: seq<T>, index: nat, count: nat): (r: seq<T>)
    requires index < count <= |s|
    ensures |r| == |s|
  {
    s[..index] + s[index + 1..count] + s[count - 1..]
  }

  /** append(mapping[:index], mapping[index+1:]...) on the backing array. */
  method DeleteAt(arr: array<ConsumerSubscription>, count: nat, index: nat)
    requires index < count <= arr.Length
    modifies arr
    ensures arr[..] == Deleted(old(arr[..]), index, count)
  {
    for k := index to count - 1
      invariant forall i :: 0 <= i < arr.Length ==> arr[i] == if index <= i < k then old(arr[i + 1]) else old(arr[i])
    {
      arr[k] := arr[k + 1];
    }
  }

  /**
   The state of the loop before the turn for index: a is the backing array, t the table at the
   start, count the length of the slice by now.
   */
  ghost predicate Swept(a: seq<ConsumerSubscription>, t: seq<ConsumerSubscription>, index: nat, count: nat,
                        slot: Slot, name: string)
  {
    && index <= |t| <= |a| && count <= |t|
    && var r := |t| - count;
    && (forall k :: index <= k < count ==> a[k] == t[k + r])
    && (r > 0 ==> forall k :: count <= k < |t| ==> a[k] == t[|t| - 1])
    && Sweep(t, 0, 0, slot, name) ==
       Before(a[..if index < count then index else count], Sweep(t, index + r, r, slot, name))
  }

  lemma {:induction false} SweepStarts(
      a: seq<ConsumerSubscription>, t: seq<ConsumerSubscription>, slot: Slot, name: string)
    requires t <= a
    ensures Swept(a, t, 0, |t|, slot, name)
  {
    BeforeComposes([], [], Sweep(t, 0, 0, slot, name));
  }

  lemma {:induction false} KeepStep(
      a: seq<ConsumerSubscription>, t: seq<ConsumerSubscription>, index: nat, count: nat, slot: Slot, name: string)
    requires Swept(a, t, index, count, slot, name) && index < |t| && !Matches(a[index], slot, name)
    ensures Swept(a, t, index + 1, count, slot, name)
  {
    if index < count {
      var r := |t| - count;
      BeforeComposes(a[..index], [a[index]], Sweep(t, index + r + 1, r, slot, name));
      assert a[..index] + [a[index]] == a[..index + 1];
    }
  }

  lemma {:induction false} DeletedAt<T>(s: seq<T>, index: nat, count: nat, k: nat)
    requires index < count <= |s| && k < |s|
    ensures Deleted(s, index, count)[k] == s[if index <= k < count - 1 then k + 1 else k]
  {
  }

  lemma {:induction false} DeleteStep(
      was: seq<ConsumerSubscription>, t: seq<ConsumerSubscription>, index: nat, count: nat, slot: Slot, name: string)
    requires Swept(was, t, index, count, slot, name) && index < count && Matches(was[index], slot, name)
    ensures Swept(Deleted(was, index, count), t, index + 1, count - 1, slot, name)
  {
    var r, now := |t| - count, Deleted(was, index, count);
    forall k | index <= k < |t|
      ensures now[k] == if k < count - 1 then t[k + r + 1] else t[|t| - 1]
    {
      DeletedAt(was, index, count, k);
    }
    if index + 1 < count {
      BeforeComposes(was[..index], [t[index + r + 1]], Sweep(t, index + r + 2, r + 1, slot, name));
      assert now[..index + 1] == was[..index] + [t[index + r + 1]];
    } else {
      assert now[..count - 1] == was[..index];
    }
  }

  /** multiplexer.go:335-338 and 356-359, one turn of the loop: the new length, or None for the panic. */
  method Visit(arr: array<ConsumerSubscription>, ghost t: seq<ConsumerSubscription>, index: nat, count: nat,
               slot: Slot, name: string)
    returns (left: Option<nat>)
    requires index < |t| && Swept(arr[..], t, index, count, slot, name)
    modifies arr
    ensures left == None ==> Sweep(t, 0, 0, slot, name) == None
    ensures left.Some? ==> left.value <= count && Swept(arr[..], t, index + 1, left.value, slot, name)
  {
    ghost var was := arr[..];
    if !Matches(arr[index], slot, name) {
      KeepStep(was, t, index, count, slot, name);
      return Some(count);
    }
    if index + 1 > count {
      return None;
    }
    DeleteAt(arr, count, index);
    DeleteStep(was, t, index, count, slot, name);
    return Some(count - 1);
  }

  /**
   multiplexer.go:333-343 and 354-362, the loop over the entries.  The range clause fixes the
   array and the number of turns; the slice bounds inside are those of the shrunken slice.  The
   result is the length of what is left, or None for the run-time panic.
   */
  method RangeAndDelete(arr: array<ConsumerSubscription>, n: nat, slot: Slot, name: string) returns (left: Option<nat>)
    requires n <= arr.Length
    modifies arr
    ensures left == None <==> Sweep(old(arr[..n]), 0, 0, slot, name) == None
    ensures left.Some? ==> left.value <= n && Some(arr[..left.value]) == Sweep(old(arr[..n]), 0, 0, slot, name)
  {
    ghost var t := arr[..n];
    SweepStarts(arr[..], t, slot, name);
    left := Some(n);
    for index := 0 to n
      invariant left.Some? && Swept(arr[..], t, index, left.value, slot, name)
    {
      left := Visit(arr, t, index, left.value, slot, name);
      if left == None {
        return;
      }
    }
    SweptToTheEnd(arr[..], t, left.value, slot, name);
  }

  lemma {:induction false} SweptToTheEnd(
      a: seq<ConsumerSubscription>, t: seq<ConsumerSubscription>, count: nat, slot: Slot, name: string)
    requires Swept(a, t, |t|, count, slot, name)
    ensures Sweep(t, 0, 0, slot, name) == Some(a[..count])
  {
    assert a[..count] + [] == a[..count];
  }

  /** A sweep that does not panic shortens the table exactly when something matches. */
  lemma {:induction false} SweepShortensIffMatch(t: seq<ConsumerSubscription>, p: nat, r: nat, slot: Slot, name: string)
    requires p <= |t|
    ensures var rest := Sweep(t, p, r, slot, name);
      rest.Some? ==> |rest.value| <= |t| - p && (|rest.value| < |t| - p <==> AnyMatch(t[p..], slot, name))
    decreases |t| - p
  {
    if p < |t| {
      assert t[p..] == [t[p]] + t[p + 1..];
      if !Matches(t[p], slot, name) {
        SweepShortensIffMatch(t, p + 1, r, slot, name);
      } else {
        assert t[p..][0] == t[p];
        if p + 1 < |t| {
          SweepShortensIffMatch(t, p + 2, r + 1, slot, name);
        }
      }
    }
  }

  lemma {:induction false} KeptHasNoMatch(t: seq<ConsumerSubscription>, slot: Slot, name: string)
    ensures !AnyMatch(Kept(t, slot, name), slot, name)
  {
    if t != [] {
      KeptHasNoMatch(t[1..], slot, name);
    }
  }

  lemma {:induction false} MatchIsNotKept(
      x: ConsumerSubscription, rest: Option<seq<ConsumerSubscription>>, s: seq<ConsumerSubscription>, slot: Slot,
      name: string)
    requires Matches(x, slot, name) && !AnyMatch(s, slot, name)
    ensures Before([x], rest) != Some(s)
  {
    assert rest.Some? ==> Matches(([x] + rest.value)[0], slot, name);
  }

  predicate NoNeighbours(t: seq<ConsumerSubscription>, p: nat, slot: Slot, name: string) {
    forall i :: p <= i < |t| - 1 ==> !(Matches(t[i], slot, name) && Matches(t[i + 1], slot, name))
  }

  predicate LastMatches(t: seq<ConsumerSubscription>, slot: Slot, name: string) {
    t != [] && Matches(t[|t| - 1], slot, name)
  }

  predicate MatchBeforeLast(t: seq<ConsumerSubscription>, p: nat, slot: Slot, name: string) {
    exists i :: p <= i < |t| - 1 && Matches(t[i], slot, name)
  }

  /** No two neighbours match, and if the last entry matches no other does. */
  predicate Sparse(t: seq<ConsumerSubscription>, slot: Slot, name: string) {
    NoNeighbours(t, 0, slot, name) && !(LastMatches(t, slot, name) && MatchBeforeLast(t, 0, slot, name))
  }

  /**
   On an arbitrary table the loop removes exactly the matching entries, without a panic, if and
   only if the table is sparse.
   */
  lemma {:induction false} SweepIsRightIffSparse(t: seq<ConsumerSubscription>, slot: Slot, name: string)
    ensures Sweep(t, 0, 0, slot, name) == Some(Kept(t, slot, name)) <==> Sparse(t, slot, name)
  {
    SweepRightFrom(t, 0, 0, slot, name);
    assert t[0..] == t;
  }

  lemma {:induction false} SweepRightFrom(t: seq<ConsumerSubscription>, p: nat, r: nat, slot: Slot, name: string)
    requires p <= |t|
    ensures Sweep(t, p, r, slot, name) == Some(Kept(t[p..], slot, name)) <==>
      && NoNeighbours(t, p, slot, name)
      && (LastMatches(t, slot, name) ==> r == 0 && !MatchBeforeLast(t, p, slot, name))
    decreases |t| - p
  {
    if p < |t| {
      assert t[p..][1..] == t[p + 1..];
      if !Matches(t[p], slot, name) {
        SweepRightFrom(t, p + 1, r, slot, name);
        BeforeCancels(t[p], Sweep(t, p + 1, r, slot, name), Kept(t[p + 1..], slot, name));
        assert NoNeighbours(t, p, slot, name) <==> NoNeighbours(t, p + 1, slot, name);
        assert MatchBeforeLast(t, p, slot, name) <==> MatchBeforeLast(t, p + 1, slot, name);
      } else if p + 1 < |t| {
        assert t[p + 1..][1..] == t[p + 2..];
        if Matches(t[p + 1], slot, name) {
          KeptHasNoMatch(t[p..], slot, name);
          MatchIsNotKept(t[p + 1], Sweep(t, p + 2, r + 1, slot, name), Kept(t[p..], slot, name), slot, name);
        } else {
          SweepRightFrom(t, p + 2, r + 1, slot, name);
          assert Kept(t[p..], slot, name) == Kept(t[p + 1..], slot, name) == [t[p + 1]] + Kept(t[p + 2..], slot, name);
          BeforeCancels(t[p + 1], Sweep(t, p + 2, r + 1, slot, name), Kept(t[p + 2..], slot, name));
          assert NoNeighbours(t, p, slot, name) <==> NoNeighbours(t, p + 2, slot, name);
          assert MatchBeforeLast(t, p, slot, name);
        }
      }
    }
  }

  lemma {:induction false} UniqueIsSparse(t: seq<ConsumerSubscription>, slot: Slot, name: string)
    requires Unique(t)
    ensures Sparse(t, slot, name)
  {
  }

  /** In a table without duplicates at most one entry goes, and the others keep their order. */
  lemma {:induction false} UniqueLosesOne(t: seq<ConsumerSubscription>, slot: Slot, name: string, i: nat)
    requires Unique(t) && i < |t| && Matches(t[i], slot, name)
    ensures Kept(t, slot, name) == t[..i] + t[i + 1..]
  {
    if i == 0 {
      KeptIfNoMatch(t[1..], slot, name);
    } else {
      UniqueLosesOne(t[1..], slot, name, i - 1);
      assert t[..i] + t[i + 1..] == [t[0]] + (t[1..][..i - 1] + t[1..][i..]);
    }
  }

  lemma {:induction false} KeptIfNoMatch(t: seq<ConsumerSubscription>, slot: Slot, name: string)
    requires !AnyMatch(t, slot, name)
    ensures Kept(t, slot, name) == t
  {
    if t != [] {
      assert Matches(t[0], slot, name) ==> AnyMatch(t, slot, name);
      KeptIfNoMatch(t[1..], slot, name);
    }
  }

  // ---------------------------------------------------------------- the multiplexer

  datatype Message = Message(topic: string, partition: int, offset: int)

  /** multiplexer.go:274-287. */
  predicate Receives(s: ConsumerSubscription, msg: Message) {
    msg.topic == s.topic && (s.manual ==> msg.partition == s.partition && msg.offset >= s.offset)
  }

  /** The entries a message goes to, in table order. */
  function Receivers(t: seq<ConsumerSubscription>, msg: Message): seq<ConsumerSubscription> {
    if t == [] then []
    else Receivers(t[..|t| - 1], msg) + if Receives(t[|t| - 1], msg) then [t[|t| - 1]] else []
  }

  function Topics(t: seq<ConsumerSubscription>, manual: bool): seq<string> {
    if t == [] then []
    else Topics(t[..|t| - 1], manual) + if t[|t| - 1].manual == manual then [t[|t| - 1].topic] else []
  }

  /** How many entries are for the hash partitioner. */
  function Hashes(t: seq<ConsumerSubscription>): (n: nat)
    ensures n <= |t|
  {
    if t == [] then 0 else Hashes(t[..|t| - 1]) + if t[|t| - 1].manual then 0 else 1
  }

  /**
   Every entry's topic is there once, and nothing else: those of the hash entries first, in table order,
   then those of the manual ones, in table order.
   */
  ghost predicate TopicsInOrder(topics: seq<string>, t: seq<ConsumerSubscription>) {
    && multiset(topics) == multiset(seq(|t|, k requires 0 <= k < |t| => t[k].topic))
    && |topics| == |t|
    && forall k :: 0 <= k < |t| ==> TopicIsAt(topics, t, k)
  }

  /** The topic of entry k is at the place that the number of hash entries before it gives it. */
  predicate TopicIsAt(topics: seq<string>, t: seq<ConsumerSubscription>, k: nat)
    requires |topics| == |t| && k < |t|
  {
    var before := Hashes(t[..k]);
    var place := if t[k].manual then Hashes(t) + k - before else before;
    0 <= place < |topics| && topics[place] == t[k].topic
  }

  lemma {:induction false} TopicOf(t: seq<ConsumerSubscription>, manual: bool, k: nat)
    requires k < |t| && t[k].manual == manual
    ensures var place := if manual then k - Hashes(t[..k]) else Hashes(t[..k]);
      0 <= place < |Topics(t, manual)| && Topics(t, manual)[place] == t[k].topic
  {
    var n := |t| - 1;
    TopicsCount(t[..n], manual);
    if k < n {
      TopicOf(t[..n], manual, k);
      assert t[..n][..k] == t[..k];
    }
  }

  lemma {:induction false} TopicsCount(t: seq<ConsumerSubscription>, manual: bool)
    ensures |Topics(t, manual)| == if manual then |t| - Hashes(t) else Hashes(t)
  {
    if t != [] {
      TopicsCount(t[..|t| - 1], manual);
    }
  }

  lemma {:induction false} TopicsAreAll(t: seq<ConsumerSubscription>)
    ensures multiset(Topics(t, false) + Topics(t, true)) ==
            multiset(seq(|t|, k requires 0 <= k < |t| => t[k].topic))
  {
    if t != [] {
      var n := |t| - 1;
      var init := t[..n];
      TopicsAreAll(init);
      assert seq(|t|, k requires 0 <= k < |t| => t[k].topic) ==
             seq(n, k requires 0 <= k < n => init[k].topic) + [t[n].topic];
    }
  }

  /** What Start consumes are the topics of the table. */
  lemma {:induction false} TopicsAreThoseOfTable(t: seq<ConsumerSubscription>)
    ensures TopicsInOrder(Topics(t, false) + Topics(t, true), t)
  {
    TopicsAreAll(t);
    TopicsCount(t, false);
    TopicsCount(t, true);
    forall k | 0 <= k < |t|
      ensures TopicIsAt(Topics(t, false) + Topics(t, true), t, k)
    {
      TopicOf(t, t[k].manual, k);
    }
  }

  predicate HasSlot(t: seq<ConsumerSubscription>, slot: Slot) {
    exists i :: 0 <= i < |t| && SlotOf(t[i]) == slot
  }

  /** Another connection has an entry for the slot. */
  predicate HeldByOther(t: seq<ConsumerSubscription>, slot: Slot, name: string) {
    exists i :: 0 <= i < |t| && SlotOf(t[i]) == slot && t[i].connectionName != name
  }

  /** Whether a partition consumer is available at all, and what starting one for a slot gives. */
  datatype Partitions = Partitions(available: bool, outcome: Slot -> Option<string>)

  function PartitionError(s: ConsumerSubscription, partitions: Partitions): Option<string> {
    if partitions.available then partitions.outcome(SlotOf(s))
    else Some("consumer for manual partition is not available")
  }

  /** The first manual entry from i on for which no partition consumer starts, or the number of entries. */
  function FirstFailing(t: seq<ConsumerSubscription>, partitions: Partitions, i: nat): (k: nat)
    requires i <= |t|
    ensures i <= k <= |t| && (k < |t| ==> t[k].manual && PartitionError(t[k], partitions).Some?)
    ensures forall j :: i <= j < k && t[j].manual ==> PartitionError(t[j], partitions) == None
    decreases |t| - i
  {
    if i == |t| || (t[i].manual && PartitionError(t[i], partitions).Some?) then i
    else FirstFailing(t, partitions, i + 1)
  }

  /** An entry that ConsumeTopic adds. */
  predicate Added(s: ConsumerSubscription, msgClb: Callback, topics: seq<string>, name: string)
    reads s
  {
    s.connectionName == name && s.byteConsMsg == msgClb && !s.manual && s.topic in topics
  }

  class Multiplexer {
    var started: bool
    var store: array<ConsumerSubscription>  // the backing array of the slice
    var count: nat                          // its length

    ghost predicate Valid()
      reads this, store
    {
      count <= store.Length && Unique(store[..count])
    }

    ghost function Table(): seq<ConsumerSubscription>
      reads this, store
      requires count <= store.Length
    {
      store[..count]
    }

    /** multiplexer.go:92-111. */
    constructor ()
      ensures Valid() && fresh(store) && Table() == [] && !started
    {
      store, count, started := new ConsumerSubscription[0], 0, false;
    }

    /** append(mapping, subs): in place while there is room, else in a larger array. */
    method Append(subs: ConsumerSubscription)
      requires count <= store.Length
      modifies this`store, this`count, store
      ensures count <= store.Length && Table() == old(Table()) + [subs]
      ensures store == old(store) || fresh(store)
    {
      if count == store.Length {
        var grown := new ConsumerSubscription[2 * store.Length + 1](_ => subs);
        for k := 0 to count
          invariant store == old(store) && count == old(count) && store[..] == old(store[..])
          invariant grown[..k] == store[..k]
        {
          grown[k] := store[k];
        }
        store := grown;
      }
      store[count] := subs;
      count := count + 1;
    }

    /** bytes_connection.go:109-122 and 151-164, proto_connection.go:124-137 and 172-185. */
    method Find(slot: Slot) returns (subs: Option<ConsumerSubscription>)
      requires Valid()
      ensures subs.Some? <==> HasSlot(Table(), slot)
      ensures subs.Some? ==> subs.value in Table() && SlotOf(subs.value) == slot
    {
      for k := 0 to count
        invariant !HasSlot(store[..k], slot)
      {
        if SlotOf(store[k]) == slot {
          assert store[k] == Table()[k];
          return Some(store[k]);
        }
      }
      return None;
    }

    /** The part of ConsumeTopic and ConsumePartition that finds or adds the entry and sets its callback. */
    method Subscribe(slot: Slot, name: string, msgClb: Callback) returns (subs: ConsumerSubscription)
      requires Valid()
      modifies this`store, this`count, store, Table()
      ensures Valid() && (store == old(store) || fresh(store))
      ensures if HasSlot(old(Table()), slot) then Table() == old(Table()) else
        && |Table()| == |old(Table())| + 1 && old(Table()) <= Table()
        && var added := Table()[|old(Table())|];
           fresh(added) && SlotOf(added) == slot && added.connectionName == name && added.byteConsMsg == msgClb
      ensures subs in Table() && SlotOf(subs) == slot
      ensures forall s :: s in old(Table()) ==>
        s.byteConsMsg == (if SlotOf(s) == slot then msgClb else old(s.byteConsMsg)) && s.consuming == old(s.consuming)
    {
      var found := Find(slot);
      if found == None {
        var manual := slot.ManualSlot?;
        var added := new ConsumerSubscription(manual, slot.topic, if manual then slot.partition else 0,
                                              if manual then slot.offset else 0, name, msgClb);
        Append(added);
        found := Some(added);
      }
      subs := found.value;
      SlotIsOneEntry(Table(), subs);
      subs.byteConsMsg := msgClb;
    }

    /**
     bytes_connection.go:99-140 and proto_connection.go:109-155.  Refused once started.  Otherwise every
     topic has one hash entry, which calls msgClb; entries that were there keep their place and owner, so
     the connection can stop exactly those topics that no other one held before.
     */
    method ConsumeTopic(msgClb: Callback, topics: seq<string>, name: string) returns (ok: bool)
      requires Valid()
      modifies this`store, this`count, store, Table()
      ensures Valid() && (store == old(store) || fresh(store))
      ensures ok <==> !started
      ensures old(Table()) <= Table() && (!ok ==> Table() == old(Table()))
      ensures ok ==> forall t :: t in topics ==> HasSlot(Table(), HashSlot(t))
      ensures forall i :: |old(Table())| <= i < |Table()| ==>
        fresh(Table()[i]) && Added(Table()[i], msgClb, topics, name)
      ensures forall s :: s in old(Table()) ==>
        s.byteConsMsg == if ok && !s.manual && s.topic in topics then msgClb else old(s.byteConsMsg)
      ensures ok ==> forall t :: t in topics ==>
        (AnyMatch(Table(), HashSlot(t), name) <==> !HeldByOther(old(Table()), HashSlot(t), name))
    {
      if started {
        return false;
      }
      SubscribeAll(msgClb, topics, name);
      forall t | t in topics
        ensures AnyMatch(Table(), HashSlot(t), name) <==> !HeldByOther(old(Table()), HashSlot(t), name)
      {
        StoppableIff(old(Table()), Table(), HashSlot(t), name);
      }
      return true;
    }

    /** bytes_connection.go:107-137, the loop over the topics. */
    method SubscribeAll(msgClb: Callback, topics: seq<string>, name: string)
      requires Valid()
      modifies this`store, this`count, store, Table()
      ensures Valid() && (store == old(store) || fresh(store))
      ensures old(Table()) <= Table() && forall t :: t in topics ==> HasSlot(Table(), HashSlot(t))
      ensures forall i :: |old(Table())| <= i < |Table()| ==>
        fresh(Table()[i]) && Added(Table()[i], msgClb, topics, name)
      ensures forall s :: s in old(Table()) ==>
        s.byteConsMsg == if !s.manual && s.topic in topics then msgClb else old(s.byteConsMsg)
    {
      for k := 0 to |topics|
        invariant Valid() && (store == old(store) || fresh(store))
        invariant old(Table()) <= Table()
        invariant forall t :: t in topics[..k] ==> HasSlot(Table(), HashSlot(t))
        invariant forall i :: |old(Table())| <= i < |Table()| ==>
          fresh(Table()[i]) && Added(Table()[i], msgClb, topics, name)
        invariant forall s :: s in old(Table()) ==>
          s.byteConsMsg == if !s.manual && s.topic in topics[..k] then msgClb else old(s.byteConsMsg)
      {
        var _ := Subscribe(HashSlot(topics[k]), name, msgClb);
      }
    }

    /**
     bytes_connection.go:145-214 and proto_connection.go:166-241.  Allowed at any time.  On a running
     multiplexer a partition consumer is started, and the entry stays when that fails; one that was there
     then has none left.  Without a client nothing is started, and that is no error.
     */
    method ConsumePartition(msgClb: Callback, topic: string, partition: int, offset: int, name: string,
                            partitions: Partitions)
      returns (err: Option<string>)
      requires Valid()
      modifies this`store, this`count, store, Table()
      ensures Valid() && (store == old(store) || fresh(store))
      ensures var slot := ManualSlot(topic, partition, offset);
        && err == (if started && partitions.available then partitions.outcome(slot) else None)
        && old(Table()) <= Table() && HasSlot(Table(), slot)
        && |Table()| == |old(Table())| + (if HasSlot(old(Table()), slot) then 0 else 1)
        && (|Table()| > |old(Table())| ==>
              var subs := Table()[|old(Table())|];
              && subs.manual && subs.topic == topic && subs.partition == partition && subs.offset == offset
              && subs.connectionName == name && subs.byteConsMsg == msgClb)
        && (forall s :: s in old(Table()) ==>
              s.byteConsMsg == if SlotOf(s) == slot then msgClb else old(s.byteConsMsg))
        && (started ==> forall s :: s in Table() && SlotOf(s) == slot ==>
              s.consuming == (partitions.available && partitions.outcome(slot) == None))
    {
      var slot := ManualSlot(topic, partition, offset);
      var subs := Subscribe(slot, name, msgClb);
      SlotIsOneEntry(Table(), subs);
      err := None;
      if started {
        err := if partitions.available then partitions.outcome(slot) else None;
        subs.consuming := partitions.available && err == None;
      }
    }

    /** The loops of the two methods below on the table of this multiplexer: they cannot panic here. */
    method Remove(slot: Slot, name: string) returns (ok: bool)
      requires Valid()
      modifies this`count, store
      ensures Valid() && store == old(store)
      ensures ok <==> AnyMatch(old(Table()), slot, name)
      ensures Table() == Kept(old(Table()), slot, name)
    {
      ghost var t := Table();
      UniqueIsSparse(t, slot, name);
      SweepIsRightIffSparse(t, slot, name);
      SweepShortensIffMatch(t, 0, 0, slot, name);
      assert t[0..] == t;
      KeptIsUnique(t, slot, name);
      var left := RangeAndDelete(store, count, slot, name);
      ok := left.value < count;
      count := left.value;
    }

    /** multiplexer.go:328-344. */
    method StopConsuming(topic: string, name: string) returns (ok: bool)
      requires Valid()
      modifies this`count, store
      ensures Valid() && store == old(store)
      ensures ok <==> AnyMatch(old(Table()), HashSlot(topic), name)
      ensures Table() == Kept(old(Table()), HashSlot(topic), name)
    {
      ok := Remove(HashSlot(topic), name);
    }

    /**
     multiplexer.go:348-369.  The safeclose.Close at line 361 gets a pointer to an interface, which is no
     closer (utils/safeclose/safeclose.go:38-58): it does nothing, and no partition consumer is closed.
     */
    method StopConsumingPartition(topic: string, partition: int, offset: int, name: string) returns (ok: bool)
      requires Valid()
      modifies this`count, store
      ensures Valid() && store == old(store)
      ensures ok <==> AnyMatch(old(Table()), ManualSlot(topic, partition, offset), name)
      ensures Table() == Kept(old(Table()), ManualSlot(topic, partition, offset), name)
    {
      ok := Remove(ManualSlot(topic, partition, offset), name);
    }

    /**
     multiplexer.go:163-231.  The flag is set first and stays set whatever fails, so that a start cannot be
     repeated; partition consumers are started up to the first that fails.
     */
    method Start(clientErr: Option<string>, partitions: Partitions) returns (err: Option<string>, topics: seq<string>)
      requires Valid()
      modifies this`started, Table()
      ensures started && Valid() && Table() == old(Table())
      ensures forall s :: s in Table() ==> s.byteConsMsg == old(s.byteConsMsg)
      ensures old(started) ==> err.Some? && topics == []
      ensures !old(started) ==> TopicsInOrder(topics, Table())
      ensures !old(started) && clientErr.Some? ==> err == clientErr
      ensures old(started) || clientErr.Some? ==> forall s :: s in Table() ==> s.consuming == old(s.consuming)
      ensures !old(started) && clientErr == None ==>
        (err == None <==> forall s :: s in Table() && s.manual ==>
           partitions.available && partitions.outcome(ManualSlot(s.topic, s.partition, s.offset)) == None)
      ensures !old(started) && clientErr == None ==>
        var t, k := Table(), FirstFailing(Table(), partitions, 0);
        && err == (if k < |t| then PartitionError(t[k], partitions) else None)
        && forall i :: 0 <= i < |t| ==> t[i].consuming == ((t[i].manual && i < k) || old(t[i].consuming))
    {
      if started {
        return Some("multiplexer has been started already"), [];
      }
      started := true;
      topics := TopicsToConsume();
      if clientErr.Some? {
        return clientErr, topics;
      }
      err := StartManual(partitions);
    }

    /** multiplexer.go:175-187. */
    method TopicsToConsume() returns (topics: seq<string>)
      requires Valid()
      ensures TopicsInOrder(topics, Table())
    {
      var hashTopics, manTopics := [], [];
      for k := 0 to count
        invariant hashTopics == Topics(Table()[..k], false) && manTopics == Topics(Table()[..k], true)
      {
        assert Table()[..k + 1][..k] == Table()[..k];
        if store[k].manual {
          manTopics := manTopics + [store[k].topic];
        } else {
          hashTopics := hashTopics + [store[k].topic];
        }
      }
      assert Table()[..count] == Table();
      TopicsAreThoseOfTable(Table());
      topics := hashTopics + manTopics;
    }

    /** multiplexer.go:204-225; without manual topics there is no manual entry either. */
    method StartManual(partitions: Partitions) returns (err: Option<string>)
      requires Valid()
      modifies Table()
      ensures Valid() && Table() == old(Table())
      ensures forall s :: s in Table() ==> s.byteConsMsg == old(s.byteConsMsg)
      ensures var t, k := Table(), FirstFailing(Table(), partitions, 0);
        && err == (if k < |t| then PartitionError(t[k], partitions) else None)
        && forall i :: 0 <= i < |t| ==> t[i].consuming == ((t[i].manual && i < k) || old(t[i].consuming))
    {
      ghost var t := Table();
      for k := 0 to count
        invariant Valid() && Table() == t
        invariant FirstFailing(t, partitions, k) == FirstFailing(t, partitions, 0)
        invariant forall s :: s in t ==> s.byteConsMsg == old(s.byteConsMsg)
        invariant forall i :: 0 <= i < |t| ==> t[i].consuming == ((t[i].manual && i < k) || old(t[i].consuming))
      {
        var sub := store[k];
        assert sub == t[k] && forall i :: 0 <= i < |t| && t[i] == sub ==> i == k;
        if sub.manual {
          var e := PartitionError(sub, partitions);
          if e.Some? {
            return e;
          }
          sub.consuming := true;
        }
      }
      return None;
    }

    /** multiplexer.go:264-290: the entries whose callback is called, in order. */
    method PropagateMessage(msg: Message) returns (called: seq<ConsumerSubscription>)
      requires Valid()
      ensures called == Receivers(Table(), msg)
      ensures forall s :: s in called <==>
        s in Table() && s.topic == msg.topic &&
        (s.manual ==> s.partition == msg.partition && s.offset <= msg.offset)
      ensures forall i, j :: 0 <= i < j < |called| ==> InTableOrder(Table(), called[i], called[j])
    {
      ReceiversInOrder(Table(), msg);
      called := [];
      for k := 0 to count
        invariant called == Receivers(Table()[..k], msg)
      {
        assert Table()[..k + 1][..k] == Table()[..k];
        var subscription := store[k];
        if msg.topic == subscription.topic {
          if subscription.manual {
            if msg.partition == subscription.partition && msg.offset >= subscription.offset {
              called := called + [subscription];
            }
          } else {
            called := called + [subscription];
          }
        }
      }
      assert Table()[..count] == Table();
    }
  }

  /** Of a slot that a connection subscribed to, it can stop what no other one held. */
  lemma {:induction false} StoppableIff(
      before: seq<ConsumerSubscription>, after: seq<ConsumerSubscription>, slot: Slot, name: string)
    requires Unique(after) && before <= after && HasSlot(after, slot)
    requires forall i :: |before| <= i < |after| ==> after[i].connectionName == name
    ensures AnyMatch(after, slot, name) <==> !HeldByOther(before, slot, name)
  {
    var k :| 0 <= k < |after| && SlotOf(after[k]) == slot;
    assert after[k].connectionName == name ==> Matches(after[k], slot, name);
    assert k < |before| ==> before[k] == after[k];
  }

  lemma {:induction false} SlotIsOneEntry(t: seq<ConsumerSubscription>, s: ConsumerSubscription)
    requires Unique(t) && s in t
    ensures forall x :: x in t && SlotOf(x) == SlotOf(s) ==> x == s
  {
  }

  lemma {:induction false} KeptIsUnique(t: seq<ConsumerSubscription>, slot: Slot, name: string)
    requires Unique(t)
    ensures Unique(Kept(t, slot, name))
  {
    if i :| 0 <= i < |t| && Matches(t[i], slot, name) {
      UniqueLosesOne(t, slot, name, i);
    } else {
      KeptIfNoMatch(t, slot, name);
    }
  }

  lemma {:induction false} ReceiverReceives(t: seq<ConsumerSubscription>, msg: Message, i: nat) returns (k: nat)
    requires i < |Receivers(t, msg)|
    ensures k < |t| && t[k] == Receivers(t, msg)[i] && Receives(t[k], msg)
  {
    var before := t[..|t| - 1];
    if i < |Receivers(before, msg)| {
      k := ReceiverReceives(before, msg, i);
    } else {
      k := |t| - 1;
    }
  }

  lemma {:induction false} EveryReceiverIsThere(t: seq<ConsumerSubscription>, msg: Message, k: nat) returns (i: nat)
    requires k < |t| && Receives(t[k], msg)
    ensures i < |Receivers(t, msg)| && Receivers(t, msg)[i] == t[k]
  {
    if k < |t| - 1 {
      i := EveryReceiverIsThere(t[..|t| - 1], msg, k);
    } else {
      i := |Receivers(t[..k], msg)|;
    }
  }

  /** The first entry is before the second in the table. */
  predicate InTableOrder(t: seq<ConsumerSubscription>, a: ConsumerSubscription, b: ConsumerSubscription) {
    exists p, q :: 0 <= p < q < |t| && t[p] == a && t[q] == b
  }

  lemma {:induction false} ReceiversInOrder(t: seq<ConsumerSubscription>, msg: Message)
    ensures forall s :: s in Receivers(t, msg) <==> s in t && Receives(s, msg)
    ensures forall i, j :: 0 <= i < j < |Receivers(t, msg)| ==>
      InTableOrder(t, Receivers(t, msg)[i], Receivers(t, msg)[j])
  {
    if t != [] {
      var before, last := t[..|t| - 1], t[|t| - 1];
      ReceiversInOrder(before, msg);
      forall i, j | 0 <= i < j < |Receivers(t, msg)|
        ensures InTableOrder(t, Receivers(t, msg)[i], Receivers(t, msg)[j])
      {
        if j < |Receivers(before, msg)| {
          var p, q :| 0 <= p < q < |before| && before[p] == Receivers(t, msg)[i] && before[q] == Receivers(t, msg)[j];
          assert t[p] == before[p] && t[q] == before[q];
        } else {
          var p := ReceiverReceives(before, msg, i);
          assert t[p] == before[p];
        }
      }
    }
  }

  lemma {:induction false} ReceiversAreUnique(t: seq<ConsumerSubscription>, msg: Message, i: nat, j: nat)
    requires Unique(t) && i < j < |Receivers(t, msg)|
    ensures SlotOf(Receivers(t, msg)[i]) != SlotOf(Receivers(t, msg)[j])
  {
    var before := t[..|t| - 1];
    if j < |Receivers(before, msg)| {
      ReceiversAreUnique(before, msg, i, j);
    } else {
      var k := ReceiverReceives(before, msg, i);
      assert t[k] == before[k];
    }
  }

  /**
   Of a table without duplicates, a message reaches at most one hash entry, and each manual entry of an
   offset once.
   */
  lemma {:induction false} ReceiversAreDistinct(t: seq<ConsumerSubscription>, msg: Message, i: nat, j: nat)
    requires Unique(t) && i < j < |Receivers(t, msg)|
    ensures var a, b := Receivers(t, msg)[i], Receivers(t, msg)[j];
      && Receives(a, msg) && Receives(b, msg)
      && (a.manual || b.manual)
      && (a.manual && b.manual ==> a.offset != b.offset)
  {
    ReceiversAreUnique(t, msg, i, j);
    var _ := ReceiverReceives(t, msg, i);
    var _ := ReceiverReceives(t, msg, j);
  }
}
