/**
 utils/addrs/ip.go: the difference of two address lists, found by sorting both in place and
 merging them.
 */
module AddrDiff {
  type Bytes = seq<nat>

  /** net.IPNet, compared by its bytes. */
  datatype IPNet = IPNet(ip: Bytes, mask: Bytes)

  // ---------------------------------------------------------------- the order

  /** bytes.Compare: lexicographic, a proper prefix first. */
  function Compare(a: Bytes, b: Bytes): int {
    if a == [] then (if b == [] then 0 else -1)
    else if b == [] then 1
    else if a[0] < b[0] then -1
    else if a[0] > b[0] then 1
    else Compare(a[1..], b[1..])
  }

  lemma {:induction false} CompareIsTotal(a: Bytes, b: Bytes)
    ensures Compare(a, b) == -Compare(b, a)
    ensures Compare(a, b) == 0 <==> a == b
  {
    if a != [] && b != [] && a[0] == b[0] {
      CompareIsTotal(a[1..], b[1..]);
      assert a == [a[0]] + a[1..] && b == [b[0]] + b[1..];
    }
  }

  lemma {:induction false} CompareIsTransitive(a: Bytes, b: Bytes, c: Bytes)
    requires Compare(a, b) < 0 && Compare(b, c) < 0
    ensures Compare(a, c) < 0
  {
    if a != [] && b != [] && c != [] && a[0] == b[0] == c[0] {
      CompareIsTransitive(a[1..], b[1..], c[1..]);
    }
  }

  /** ip.go:33-35. */
  predicate EqAddr(a: IPNet, b: IPNet) {
    a.ip == b.ip && a.mask == b.mask
  }

  /** ip.go:37-43. */
  predicate LessAddr(a: IPNet, b: IPNet) {
    if a.ip == b.ip then Compare(a.mask, b.mask) < 0 else Compare(a.ip, b.ip) < 0
  }

  /** LessAddr is a strict total order whose ties are exactly the equal addresses. */
  lemma {:induction false} LessAddrIsStrictTotalOrder(a: IPNet, b: IPNet, c: IPNet)
    ensures !LessAddr(a, a)
    ensures LessAddr(a, b) && LessAddr(b, c) ==> LessAddr(a, c)
    ensures EqAddr(a, b) <==> !LessAddr(a, b) && !LessAddr(b, a)
    ensures !(LessAddr(a, b) && LessAddr(b, a))
    ensures EqAddr(a, b) <==> a == b
  {
    CompareIsTotal(a.ip, b.ip);
    CompareIsTotal(a.mask, b.mask);
    CompareIsTotal(a.mask, a.mask);
    if LessAddr(a, b) && LessAddr(b, c) {
      CompareIsTotal(b.ip, c.ip);
      CompareIsTotal(b.mask, c.mask);
      CompareIsTotal(a.ip, c.ip);
      if a.ip == b.ip == c.ip {
        CompareIsTransitive(a.mask, b.mask, c.mask);
      } else if a.ip != b.ip && b.ip != c.ip {
        CompareIsTransitive(a.ip, b.ip, c.ip);
      }
    }
  }

  predicate Ordered(s: seq<IPNet>) {
    forall i, j :: 0 <= i < j < |s| ==> !LessAddr(s[j], s[i])
  }

  // ---------------------------------------------------------------- sorting in place

  /** ip.go:22-24. */
  method Swap(arr: array<IPNet>, i: int, j: int)
    requires 0 <= i < arr.Length && 0 <= j < arr.Length
    modifies arr
    ensures arr[..] == old(arr[..])[i := old(arr[j])][j := old(arr[i])]
    ensures multiset(arr[..]) == old(multiset(arr[..]))
  {
    arr[i], arr[j] := arr[j], arr[i];
  }

  /**
   sort.Sort, which reaches the slice through Len, Less and Swap only.  The library's choice of
   algorithm does not show in its result; this is the insertion sort it uses for short slices.
   */
  method Sort(arr: array<IPNet>)
    modifies arr
    ensures Ordered(arr[..])
    ensures multiset(arr[..]) == old(multiset(arr[..]))
  {
    for i := 0 to arr.Length
      invariant Ordered(arr[..i])
      invariant multiset(arr[..]) == old(multiset(arr[..]))
    {
      var j := i;
      while j > 0 && LessAddr(arr[j], arr[j - 1])
        invariant 0 <= j <= i
        invariant OrderedApartFrom(arr[..i + 1], j)
        invariant multiset(arr[..]) == old(multiset(arr[..]))
      {
        SinkKeepsOrder(arr[..i + 1], j);
        ghost var was := arr[..i + 1];
        Swap(arr, j, j - 1);
        assert arr[..i + 1] == was[j := was[j - 1]][j - 1 := was[j]];
        j := j - 1;
      }
      SunkIsOrdered(arr[..i + 1], j);
    }
    assert arr[..arr.Length] == arr[..];
  }

  /** Everything but position k is in order, and what comes after k is not below it. */
  predicate OrderedApartFrom(s: seq<IPNet>, k: nat) {
    && k < |s|
    && (forall i, j :: 0 <= i < j < |s| && i != k && j != k ==> !LessAddr(s[j], s[i]))
    && (forall j :: k < j < |s| ==> !LessAddr(s[j], s[k]))
  }

  lemma {:induction false} SinkKeepsOrder(s: seq<IPNet>, k: nat)
    requires OrderedApartFrom(s, k) && k > 0 && LessAddr(s[k], s[k - 1])
    ensures OrderedApartFrom(s[k := s[k - 1]][k - 1 := s[k]], k - 1)
  {
    LessAddrIsStrictTotalOrder(s[k - 1], s[k], s[k]);
  }

  lemma {:induction false} SunkIsOrdered(s: seq<IPNet>, k: nat)
    requires OrderedApartFrom(s, k)
    requires k == 0 || !LessAddr(s[k], s[k - 1])
    ensures Ordered(s)
  {
    forall i | 0 <= i < k
      ensures !LessAddr(s[k], s[i])
    {
      if i < k - 1 {
        NotBelowChains(s[i], s[k - 1], s[k]);
      }
    }
  }

  lemma {:induction false} NotBelowChains(a: IPNet, b: IPNet, c: IPNet)
    requires !LessAddr(b, a) && !LessAddr(c, b)
    ensures !LessAddr(c, a)
  {
    LessAddrIsStrictTotalOrder(a, b, c);
    LessAddrIsStrictTotalOrder(b, c, a);
    LessAddrIsStrictTotalOrder(c, a, b);
  }

  // ---------------------------------------------------------------- the difference

  datatype Change = Change(del: seq<IPNet>, add: seq<IPNet>)

  /** What remains to be deleted and added once i new and j old addresses are dealt with. */
  function Rest(n: seq<IPNet>, i: nat, o: seq<IPNet>, j: nat): Change
    requires i <= |n| && j <= |o|
    decreases |n| - i + |o| - j
  {
    if i == |n| then Change(o[j..], [])
    else if j == |o| then Change([], n[i..])
    else if EqAddr(n[i], o[j]) then Rest(n, i + 1, o, j + 1)
    else if LessAddr(n[i], o[j]) then
      var r := Rest(n, i + 1, o, j);
      r.(add := [n[i]] + r.add)
    else
      var r := Rest(n, i, o, j + 1);
      r.(del := [o[j]] + r.del)
  }

  /** ip.go:55-82, the merge of the two sorted lists. */
  method Merge(n: seq<IPNet>, o: seq<IPNet>) returns (del: seq<IPNet>, add: seq<IPNet>)
    ensures Change(del, add) == Rest(n, 0, o, 0)
  {
    add, del := [], [];
    var i, j := 0, 0;
    ghost var all := Rest(n, 0, o, 0);
    while i < |n| && j < |o|
      invariant 0 <= i <= |n| && 0 <= j <= |o|
      invariant all.del == del + Rest(n, i, o, j).del && all.add == add + Rest(n, i, o, j).add
    {
      if EqAddr(n[i], o[j]) {
        i := i + 1;
        j := j + 1;
      } else if LessAddr(n[i], o[j]) {
        add := add + [n[i]];
        i := i + 1;
      } else {
        del := del + [o[j]];
        j := j + 1;
      }
    }
    while i < |n|
      invariant 0 <= i <= |n| && 0 <= j <= |o| && (i == |n| || j == |o|)
      invariant all.del == del + Rest(n, i, o, j).del && all.add == add + Rest(n, i, o, j).add
    {
      assert n[i..] == [n[i]] + n[i + 1..];
      add := add + [n[i]];
      i := i + 1;
    }
    while j < |o|
      invariant i == |n| && 0 <= j <= |o|
      invariant all.del == del + Rest(n, i, o, j).del && all.add == add + Rest(n, i, o, j).add
    {
      assert o[j..] == [o[j]] + o[j + 1..];
      del := del + [o[j]];
      j := j + 1;
    }
  }

  /** The change balances the two sides and names no address on both. */
  ghost predicate Settles(n: seq<IPNet>, o: seq<IPNet>, c: Change) {
    && multiset(n) + multiset(c.del) == multiset(o) + multiset(c.add)
    && (forall x :: x in c.del ==> x in o)
    && (forall x :: x in c.add ==> x in n)
    && (forall x :: x in c.add ==> x !in c.del)
  }

  lemma {:induction false} SkipSettles(x: IPNet, n: seq<IPNet>, o: seq<IPNet>, c: Change)
    requires Settles(n, o, c)
    ensures Settles([x] + n, [x] + o, c)
  {
    assert multiset([x] + n) + multiset(c.del) == multiset{x} + (multiset(n) + multiset(c.del));
    assert multiset([x] + o) + multiset(c.add) == multiset{x} + (multiset(o) + multiset(c.add));
  }

  lemma {:induction false} AddSettles(x: IPNet, n: seq<IPNet>, o: seq<IPNet>, c: Change)
    requires Settles(n, o, c) && x !in o
    ensures Settles([x] + n, o, c.(add := [x] + c.add))
  {
    assert multiset([x] + n) + multiset(c.del) == multiset{x} + (multiset(n) + multiset(c.del));
    assert multiset(o) + multiset([x] + c.add) == multiset{x} + (multiset(o) + multiset(c.add));
  }

  lemma {:induction false} DropSettles(x: IPNet, n: seq<IPNet>, o: seq<IPNet>, c: Change)
    requires Settles(n, o, c) && x !in n
    ensures Settles(n, [x] + o, c.(del := [x] + c.del))
  {
    assert multiset([x] + o) + multiset(c.add) == multiset{x} + (multiset(o) + multiset(c.add));
    assert multiset(n) + multiset([x] + c.del) == multiset{x} + (multiset(n) + multiset(c.del));
  }

  lemma {:induction false} NotFurtherOn(x: IPNet, s: seq<IPNet>, k: nat)
    requires k < |s| && Ordered(s) && LessAddr(x, s[k])
    ensures x !in s[k..]
  {
    forall m | k <= m < |s|
      ensures s[m] != x
    {
      LessAddrIsStrictTotalOrder(x, s[k], x);
    }
  }

  lemma {:induction false} RestSettles(n: seq<IPNet>, i: nat, o: seq<IPNet>, j: nat)
    requires i <= |n| && j <= |o| && Ordered(n) && Ordered(o)
    ensures Settles(n[i..], o[j..], Rest(n, i, o, j))
    decreases |n| - i + |o| - j
  {
    if i < |n| && j < |o| {
      assert n[i..] == [n[i]] + n[i + 1..];
      assert o[j..] == [o[j]] + o[j + 1..];
      LessAddrIsStrictTotalOrder(n[i], o[j], n[i]);
      if EqAddr(n[i], o[j]) {
        RestSettles(n, i + 1, o, j + 1);
        SkipSettles(n[i], n[i + 1..], o[j + 1..], Rest(n, i + 1, o, j + 1));
      } else if LessAddr(n[i], o[j]) {
        RestSettles(n, i + 1, o, j);
        NotFurtherOn(n[i], o, j);
        AddSettles(n[i], n[i + 1..], o[j..], Rest(n, i + 1, o, j));
      } else {
        RestSettles(n, i, o, j + 1);
        NotFurtherOn(o[j], n, i);
        DropSettles(o[j], n[i..], o[j + 1..], Rest(n, i, o, j + 1));
      }
    }
  }

  /** On sorted lists the merge is the exact difference, either way round. */
  lemma {:induction false} MergeIsDifference(n: seq<IPNet>, o: seq<IPNet>)
    requires Ordered(n) && Ordered(o)
    ensures multiset(Rest(n, 0, o, 0).add) == multiset(n) - multiset(o)
    ensures multiset(Rest(n, 0, o, 0).del) == multiset(o) - multiset(n)
  {
    RestSettles(n, 0, o, 0);
    assert n[0..] == n && o[0..] == o;
    SettledIsDifference(n, o, Rest(n, 0, o, 0));
  }

  lemma {:induction false} SettledIsDifference(n: seq<IPNet>, o: seq<IPNet>, c: Change)
    requires Settles(n, o, c)
    ensures multiset(c.add) == multiset(n) - multiset(o) && multiset(c.del) == multiset(o) - multiset(n)
  {
    assert forall x :: x in multiset(c.add) ==> x in c.add;
    assert multiset(c.add) !! multiset(c.del);
    DisjointBalanceIsDifference(multiset(n), multiset(o), multiset(c.add), multiset(c.del));
  }

  lemma {:induction false} DisjointBalanceIsDifference(
      n: multiset<IPNet>, o: multiset<IPNet>, add: multiset<IPNet>, del: multiset<IPNet>)
    requires n + del == o + add && add !! del
    ensures add == n - o && del == o - n
  {
    forall x
      ensures add[x] == (n - o)[x] && del[x] == (o - n)[x]
    {
      assert (n + del)[x] == (o + add)[x];
      assert add[x] == 0 || del[x] == 0;
    }
  }

  /**
   ip.go:47-82.  As multisets of addresses, exactly the new without the old is to be added and the
   old without the new is to be deleted.  Both lists of the caller end up sorted; they may be one.
   */
  method DiffAddr(newConfig: array<IPNet>, oldConfig: array<IPNet>)
    returns (toBeDeleted: seq<IPNet>, toBeAdded: seq<IPNet>)
    modifies newConfig, oldConfig
    ensures multiset(toBeAdded) == old(multiset(newConfig[..])) - old(multiset(oldConfig[..]))
    ensures multiset(toBeDeleted) == old(multiset(oldConfig[..])) - old(multiset(newConfig[..]))
    ensures Ordered(newConfig[..]) && multiset(newConfig[..]) == old(multiset(newConfig[..]))
    ensures Ordered(oldConfig[..]) && multiset(oldConfig[..]) == old(multiset(oldConfig[..]))
  {
    Sort(newConfig);
    Sort(oldConfig);
    toBeDeleted, toBeAdded := Merge(newConfig[..], oldConfig[..]);
    MergeIsDifference(newConfig[..], oldConfig[..]);
  }

  /**
   What an exact difference means to the caller: deleting and adding turns the old configuration
   into the new one, nothing is both deleted and added, and every other change that leads from the
   old configuration to the new one contains this one.
   */
  lemma {:induction false} DifferenceIsMinimalChange(
      n: multiset<IPNet>, o: multiset<IPNet>, add: multiset<IPNet>, del: multiset<IPNet>)
    requires del <= o
    ensures (n - o) !! (o - n) && o - n <= o && o - (o - n) + (n - o) == n
    ensures o - del + add == n ==> n - o <= add && o - n <= del
    ensures o - del + add == n && add !! del ==> add == n - o && del == o - n
  {
    if o - del + add == n {
      forall x
        ensures (n - o)[x] <= add[x] && (o - n)[x] <= del[x]
      {
        assert (o - del + add)[x] == o[x] - del[x] + add[x];
      }
      if add !! del {
        assert n + del == o + add;
        DisjointBalanceIsDifference(n, o, add, del);
      }
    }
  }
}
