/**
 utils/structs/structs_reflection.go and the field filters of db/sql/cassandra/query.go: listing the
 fields of a structure with different filter chains, and why the chains select the same columns in the
 same order.
 */
module StructFields {
  import opened Wrappers
  import opened SqlExpression
  import opened CqlVisitor

  type Filter = FieldDesc -> bool

  /** query.go:173-185. */
  predicate FilterOutPK(field: FieldDesc) {
    field.pk == ""
  }

  predicate Passes(field: FieldDesc, predicates: seq<Filter>) {
    NameExported(field.name) && forall i :: 0 <= i < |predicates| ==> predicates[i](field)
  }

  /** structs_reflection.go:74-88. */
  method FieldExported(field: FieldDesc, predicates: seq<Filter>) returns (exported: bool)
    ensures exported <==> Passes(field, predicates)
  {
    if NameExported(field.name) {
      for i := 0 to |predicates|
        invariant forall k :: 0 <= k < i ==> predicates[k](field)
      {
        if !predicates[i](field) {
          return false;
        }
      }
      return true;
    }
    return false;
  }

  /** The fields that pass, in order. */
  function Kept(fields: seq<FieldDesc>, predicates: seq<Filter>): seq<FieldDesc> {
    if fields == [] then []
    else
      var last := fields[|fields| - 1];
      Kept(fields[..|fields| - 1], predicates) + if Passes(last, predicates) then [last] else []
  }

  /** What is bound for a field, or scanned into. */
  function Target(field: FieldDesc): Value {
    match field.kind
    case Plain => field.pointer
    case Collection => if field.isNil then field.pointer else field.content
    case Reference => if field.isNil then field.spare else field.content
    case Interface(_) => if field.isNil then field.spare else field.content
  }

  function Targets(fields: seq<FieldDesc>): (r: seq<Value>)
    ensures |r| == |fields| && forall i :: 0 <= i < |r| ==> r[i] == Target(fields[i])
  {
    if fields == [] then [] else Targets(fields[..|fields| - 1]) + [Target(fields[|fields| - 1])]
  }

  /** structs_reflection.go:55-68. */
  method ListExportedFields(fields: seq<FieldDesc>, predicates: seq<Filter>) returns (ret: seq<FieldDesc>)
    ensures ret == Kept(fields, predicates)
  {
    ret := [];
    for i := 0 to |fields|
      invariant ret == Kept(fields[..i], predicates)
    {
      assert fields[..i + 1][..i] == fields[..i];
      var exported := FieldExported(fields[i], predicates);
      if exported {
        ret := ret + [fields[i]];
      }
    }
    assert fields[..|fields|] == fields;
  }

  // ---------------------------------------------------------------- listing pointers

  /** What Go exports: names that start with an upper-case letter. */
  predicate GoExported(name: string) {
    name != "" && 'A' <= name[0] <= 'Z'
  }

  /**
   A field that passes panics if Go does not export it, because reflect then neither hands out nor sets its
   value, and if it is a nil interface, because that has no element type.
   */
  predicate Panics(field: FieldDesc) {
    !GoExported(field.name) || (field.kind.Interface? && field.isNil)
  }

  /** The first field from i on that passes and panics, or the number of fields. */
  function PanicAt(fields: seq<FieldDesc>, predicates: seq<Filter>, i: nat): (k: nat)
    requires i <= |fields|
    ensures i <= k <= |fields|
    decreases |fields| - i
  {
    if i == |fields| || (Passes(fields[i], predicates) && Panics(fields[i])) then i
    else PanicAt(fields, predicates, i + 1)
  }

  /** A nil pointer field that passes is set to a new value. */
  function Allocated(field: FieldDesc, predicates: seq<Filter>): FieldDesc {
    if Passes(field, predicates) && field.kind.Reference? && field.isNil then
      field.(isNil := false, content := field.spare)
    else field
  }

  function AllAllocated(fields: seq<FieldDesc>, predicates: seq<Filter>): (r: seq<FieldDesc>)
    ensures |r| == |fields|
  {
    if fields == [] then []
    else AllAllocated(fields[..|fields| - 1], predicates) + [Allocated(fields[|fields| - 1], predicates)]
  }

  /** The fields when the listing has reached field k. */
  function AllocatedUpTo(fields: seq<FieldDesc>, predicates: seq<Filter>, k: nat): (r: seq<FieldDesc>)
    requires k <= |fields|
    ensures |r| == |fields|
  {
    AllAllocated(fields[..k], predicates) + fields[k..]
  }

  lemma {:induction false} AllocatedNext(fields: seq<FieldDesc>, predicates: seq<Filter>, k: nat)
    requires k < |fields|
    ensures var was := AllocatedUpTo(fields, predicates, k);
      was[k] == fields[k] &&
      AllocatedUpTo(fields, predicates, k + 1) == was[k := Allocated(fields[k], predicates)]
  {
    assert fields[..k + 1][..k] == fields[..k];
    assert fields[k..] == [fields[k]] + fields[k + 1..];
  }

  /** A structure, whose fields the listing may set. */
  class Struct {
    const table: string
    var fields: seq<FieldDesc>

    constructor (entity: Entity)
      ensures AsEntity() == entity
    {
      table, fields := entity.table, entity.fields;
    }

    function AsEntity(): Entity
      reads this
    {
      Entity(table, fields)
    }
  }

  // ---------------------------------------------------------------- what is listed, field by field

  /** No two fields have the same address. */
  predicate Distinct(fields: seq<FieldDesc>) {
    forall i, j :: 0 <= i < j < |fields| ==> fields[i].pointer != fields[j].pointer
  }

  /**
   The value leads to field i: it is the address of the field, by which the field is found; or it is what the
   field holds, from now on if the field was a nil pointer.
   */
  predicate LeadsTo(v: Value, i: nat, was: seq<FieldDesc>, now: seq<FieldDesc>)
    requires i < |was| == |now|
  {
    if was[i].kind.Plain? || (was[i].kind.Collection? && was[i].isNil) then
      && now[i] == was[i]
      && v == was[i].pointer
      && (Distinct(was) ==> FindField(v, was) == Some(was[i]))
    else
      && now[i] == was[i].(isNil := false, content := v)
      && (!was[i].isNil ==> now[i] == was[i])
  }

  predicate Ascending(at: seq<nat>, n: nat) {
    (forall k :: 0 <= k < |at| ==> at[k] < n) && forall j, k :: 0 <= j < k < |at| ==> at[j] < at[k]
  }

  /** The values lead to the fields at the positions; all other fields stay as they are. */
  ghost predicate ValuesLeadTo(valPtrs: seq<Value>, at: seq<nat>, was: seq<FieldDesc>, now: seq<FieldDesc>) {
    && |valPtrs| == |at| && |now| == |was|
    && (forall k :: 0 <= k < |at| ==> at[k] < |was| && LeadsTo(valPtrs[k], at[k], was, now))
    && (forall i :: 0 <= i < |was| && i !in at ==> now[i] == was[i])
  }

  function KeptAt(fields: seq<FieldDesc>, predicates: seq<Filter>): (r: seq<nat>)
    ensures |r| == |Kept(fields, predicates)|
  {
    if fields == [] then []
    else
      var n := |fields| - 1;
      KeptAt(fields[..n], predicates) + if Passes(fields[n], predicates) then [n] else []
  }

  /** The fields that are kept are those that pass, in the order in which they are declared. */
  lemma {:induction false} KeptInOrder(fields: seq<FieldDesc>, predicates: seq<Filter>)
    ensures var at := KeptAt(fields, predicates);
      && Ascending(at, |fields|)
      && (forall i :: 0 <= i < |fields| ==> (i in at <==> Passes(fields[i], predicates)))
      && forall k :: 0 <= k < |at| ==> Kept(fields, predicates)[k] == fields[at[k]]
  {
    KeptAscends(fields, predicates);
    forall i | 0 <= i < |fields|
      ensures i in KeptAt(fields, predicates) <==> Passes(fields[i], predicates)
    {
      KeptIffPasses(fields, predicates, i);
    }
    forall k | 0 <= k < |KeptAt(fields, predicates)|
      ensures Kept(fields, predicates)[k] == fields[KeptAt(fields, predicates)[k]]
    {
      KeptIsThere(fields, predicates, k);
    }
  }

  lemma {:induction false} KeptAscends(fields: seq<FieldDesc>, predicates: seq<Filter>)
    ensures Ascending(KeptAt(fields, predicates), |fields|)
  {
    if fields != [] {
      KeptAscends(fields[..|fields| - 1], predicates);
    }
  }

  lemma {:induction false} KeptIffPasses(fields: seq<FieldDesc>, predicates: seq<Filter>, i: nat)
    requires i < |fields|
    ensures i in KeptAt(fields, predicates) <==> Passes(fields[i], predicates)
  {
    var n := |fields| - 1;
    if i < n {
      KeptIffPasses(fields[..n], predicates, i);
    } else {
      KeptAscends(fields[..n], predicates);
    }
  }

  lemma {:induction false} KeptIsThere(fields: seq<FieldDesc>, predicates: seq<Filter>, k: nat)
    requires k < |KeptAt(fields, predicates)|
    ensures KeptAt(fields, predicates)[k] < |fields|
    ensures Kept(fields, predicates)[k] == fields[KeptAt(fields, predicates)[k]]
  {
    var n := |fields| - 1;
    if k < |KeptAt(fields[..n], predicates)| {
      KeptIsThere(fields[..n], predicates, k);
    }
  }

  lemma {:induction false} AllocatedEach(fields: seq<FieldDesc>, predicates: seq<Filter>, i: nat)
    requires i < |fields|
    ensures AllAllocated(fields, predicates)[i] == Allocated(fields[i], predicates)
  {
    if i < |fields| - 1 {
      AllocatedEach(fields[..|fields| - 1], predicates, i);
    }
  }

  lemma {:induction false} FoundByAddress(fields: seq<FieldDesc>, i: nat)
    requires Distinct(fields) && i < |fields| && Addressed(fields[i])
    ensures FindField(fields[i].pointer, fields) == Some(fields[i])
  {
    if i > 0 {
      FoundByAddress(fields[1..], i - 1);
    }
  }

  lemma {:induction false} TargetLeadsTo(fields: seq<FieldDesc>, predicates: seq<Filter>, i: nat)
    requires i < |fields| && Passes(fields[i], predicates) && !Panics(fields[i])
    ensures LeadsTo(Target(fields[i]), i, fields, AllAllocated(fields, predicates))
  {
    AllocatedEach(fields, predicates, i);
    if Distinct(fields) && Addressed(fields[i]) {
      FoundByAddress(fields, i);
    }
  }

  /** What is listed leads to the fields that pass, one by one. */
  lemma {:induction false} TargetsLeadToFields(fields: seq<FieldDesc>, predicates: seq<Filter>)
    requires forall f :: f in Kept(fields, predicates) ==> !Panics(f)
    ensures ValuesLeadTo(Targets(Kept(fields, predicates)), KeptAt(fields, predicates),
                         fields, AllAllocated(fields, predicates))
  {
    KeptInOrder(fields, predicates);
    var at, kept := KeptAt(fields, predicates), Kept(fields, predicates);
    forall k | 0 <= k < |at|
      ensures LeadsTo(Targets(kept)[k], at[k], fields, AllAllocated(fields, predicates))
    {
      assert kept[k] in kept && at[k] in at;
      TargetLeadsTo(fields, predicates, at[k]);
    }
    forall i | 0 <= i < |fields| && i !in at
      ensures AllAllocated(fields, predicates)[i] == fields[i]
    {
      AllocatedEach(fields, predicates, i);
    }
  }

  datatype Listing = Listing(fields: seq<FieldDesc>, valPtrs: seq<Value>)

  /** The listing has the fields that pass, in order, and its values lead to them. */
  ghost predicate ListsFields(listing: Listing, was: seq<FieldDesc>, now: seq<FieldDesc>, predicates: seq<Filter>) {
    exists at :: ListsFieldsAt(listing, at, was, now, predicates)
  }

  ghost predicate ListsFieldsAt(listing: Listing, at: seq<nat>, was: seq<FieldDesc>, now: seq<FieldDesc>,
                                predicates: seq<Filter>)
  {
    && Ascending(at, |was|)
    && (forall i :: 0 <= i < |was| ==> (i in at <==> Passes(was[i], predicates)))
    && |listing.fields| == |at|
    && (forall k :: 0 <= k < |at| ==> listing.fields[k] == was[at[k]])
    && ValuesLeadTo(listing.valPtrs, at, was, now)
  }

  lemma {:induction false} ListingLeadsToFields(was: seq<FieldDesc>, predicates: seq<Filter>)
    requires PanicAt(was, predicates, 0) == |was|
    ensures ListsFields(Listing(Kept(was, predicates), Targets(Kept(was, predicates))), was,
                        AllocatedUpTo(was, predicates, |was|), predicates)
  {
    var kept := Kept(was, predicates);
    PanicsIff(was, predicates, 0);
    KeptInOrder(was, predicates);
    forall k | 0 <= k < |kept|
      ensures !Panics(kept[k])
    {
      assert KeptAt(was, predicates)[k] in KeptAt(was, predicates);
    }
    TargetsLeadToFields(was, predicates);
    assert was[..|was|] == was;
    assert AllocatedUpTo(was, predicates, |was|) == AllAllocated(was, predicates);
    assert ListsFieldsAt(Listing(kept, Targets(kept)), KeptAt(was, predicates), was,
                         AllocatedUpTo(was, predicates, |was|), predicates);
  }

  /** structs_reflection.go:104-129, one field that passes and does not panic. */
  method TargetOf(val: Struct, i: nat, ghost predicates: seq<Filter>) returns (valPtr: Value)
    requires i < |val.fields| && Passes(val.fields[i], predicates) && !Panics(val.fields[i])
    modifies val
    ensures val.fields == old(val.fields)[i := Allocated(old(val.fields[i]), predicates)]
    ensures valPtr == Target(old(val.fields[i]))
    ensures LeadsTo(valPtr, i, old(val.fields), val.fields)
  {
    if Distinct(val.fields) && Addressed(val.fields[i]) {
      FoundByAddress(val.fields, i);
    }
    var field := val.fields[i];
    if field.kind.Reference? && field.isNil {
      val.fields := val.fields[i := field.(isNil := false, content := field.spare)];
      return field.spare;
    } else if field.kind.Plain? || field.isNil {
      return field.pointer;
    } else {
      return field.content;
    }
  }

  /** The state of the listing before field i. */
  ghost predicate Listed(now: seq<FieldDesc>, listing: Listing, was: seq<FieldDesc>, predicates: seq<Filter>, i: nat) {
    && i <= |was|
    && now == AllocatedUpTo(was, predicates, i)
    && PanicAt(was, predicates, i) == PanicAt(was, predicates, 0)
    && listing.fields == Kept(was[..i], predicates)
    && listing.valPtrs == Targets(listing.fields)
  }

  lemma {:induction false} ListedStarts(was: seq<FieldDesc>, predicates: seq<Filter>)
    ensures Listed(was, Listing([], []), was, predicates, 0)
  {
    assert AllocatedUpTo(was, predicates, 0) == was;
  }

  lemma {:induction false} ListedSkips(
      now: seq<FieldDesc>, listing: Listing, was: seq<FieldDesc>, predicates: seq<Filter>, i: nat)
    requires Listed(now, listing, was, predicates, i) && i < |was| && !Passes(was[i], predicates)
    ensures Listed(now, listing, was, predicates, i + 1)
  {
    AllocatedNext(was, predicates, i);
    assert now[i := was[i]] == now;
    assert was[..i + 1][..i] == was[..i];
    TargetsOfSnoc(listing.fields, was[i]);
  }

  lemma {:induction false} ListedTakes(
      now: seq<FieldDesc>, listing: Listing, was: seq<FieldDesc>, predicates: seq<Filter>, i: nat)
    requires Listed(now, listing, was, predicates, i) && i < |was| && Passes(was[i], predicates) && !Panics(was[i])
    ensures Listed(now[i := Allocated(was[i], predicates)],
                   Listing(listing.fields + [was[i]], listing.valPtrs + [Target(was[i])]), was, predicates, i + 1)
  {
    AllocatedNext(was, predicates, i);
    assert was[..i + 1][..i] == was[..i];
    TargetsOfSnoc(listing.fields, was[i]);
  }

  /** structs_reflection.go:91-136.  None is the run-time panic, which leaves the fields before it set. */
  method ListExportedFieldsPtrs(val: Struct, predicates: seq<Filter>) returns (listing: Option<Listing>)
    modifies val
    ensures var was := old(val.fields);
      && val.fields == AllocatedUpTo(was, predicates, PanicAt(was, predicates, 0))
      && listing == if PanicAt(was, predicates, 0) < |was| then None
                    else Some(Listing(Kept(was, predicates), Targets(Kept(was, predicates))))
    ensures listing.Some? ==> ListsFields(listing.value, old(val.fields), val.fields, predicates)
  {
    ghost var was := val.fields;
    var fields: seq<FieldDesc>, valPtrs: seq<Value> := [], [];
    var n := |val.fields|;
    ListedStarts(was, predicates);
    for i := 0 to n
      invariant Listed(val.fields, Listing(fields, valPtrs), was, predicates, i)
    {
      AllocatedAt(was, predicates, i);
      var structField := val.fields[i];
      var exported := FieldExported(structField, predicates);
      if !exported {
        ListedSkips(val.fields, Listing(fields, valPtrs), was, predicates, i);
        continue;
      }
      if Panics(structField) {
        return None;
      }
      ListedTakes(val.fields, Listing(fields, valPtrs), was, predicates, i);
      var valPtr := TargetOf(val, i, predicates);
      valPtrs := valPtrs + [valPtr];
      fields := fields + [structField];
    }
    assert was[..n] == was;
    ListingLeadsToFields(was, predicates);
    return Some(Listing(fields, valPtrs));
  }

  lemma {:induction false} AllocatedAt(fields: seq<FieldDesc>, predicates: seq<Filter>, k: nat)
    requires k < |fields|
    ensures AllocatedUpTo(fields, predicates, k)[k] == fields[k]
  {
  }

  /** The listing panics if and only if some nil interface field passes. */
  lemma {:induction false} PanicsIff(fields: seq<FieldDesc>, predicates: seq<Filter>, i: nat)
    requires i <= |fields|
    ensures PanicAt(fields, predicates, i) < |fields| <==>
      exists j :: i <= j < |fields| && Passes(fields[j], predicates) && Panics(fields[j])
    decreases |fields| - i
  {
    if i < |fields| {
      PanicsIff(fields, predicates, i + 1);
    }
  }

  /** Filters that look at the tags of a field alone do not notice the allocation. */
  ghost predicate OnTags(predicates: seq<Filter>) {
    forall f: FieldDesc, content :: Passes(f.(isNil := false, content := content), predicates) == Passes(f, predicates)
  }

  /** Listing a second time gives the same values: what was allocated once is bound from then on. */
  lemma {:induction false} ListingAgain(fields: seq<FieldDesc>, predicates: seq<Filter>)
    requires OnTags(predicates)
    ensures var after := AllAllocated(fields, predicates);
      Targets(Kept(after, predicates)) == Targets(Kept(fields, predicates)) &&
      AllAllocated(after, predicates) == after
  {
    if fields != [] {
      var init, last := fields[..|fields| - 1], fields[|fields| - 1];
      var before, field := AllAllocated(init, predicates), Allocated(last, predicates);
      ListingAgain(init, predicates);
      assert (before + [field])[..|before|] == before;
      TargetsOfSnoc(Kept(init, predicates), last);
      TargetsOfSnoc(Kept(before, predicates), field);
    }
  }

  lemma {:induction false} TargetsOfSnoc(fields: seq<FieldDesc>, field: FieldDesc)
    ensures Targets(fields + [field]) == Targets(fields) + [Target(field)]
    ensures fields + [] == fields
  {
    assert (fields + [field])[..|fields|] == fields;
  }

  /** Both filter chains of the statements are of that kind. */
  lemma {:induction false} ListingAgainInStatements(fields: seq<FieldDesc>)
    ensures var update, select := [CqlExported, FilterOutPK], [CqlExported];
      && Targets(Kept(AllAllocated(fields, update), update)) == Targets(Kept(fields, update))
      && Targets(Kept(AllAllocated(fields, select), select)) == Targets(Kept(fields, select))
      && AllAllocated(AllAllocated(fields, update), update) == AllAllocated(fields, update)
      && AllAllocated(AllAllocated(fields, select), select) == AllAllocated(fields, select)
  {
    TagFilters();
    ListingAgain(fields, [CqlExported, FilterOutPK]);
    ListingAgain(fields, [CqlExported]);
  }

  /** The columns of the fields that have one, in order. */
  function Columns(fields: seq<FieldDesc>): seq<string> {
    if fields == [] then []
    else
      var last := fields[|fields| - 1];
      Columns(fields[..|fields| - 1]) + if Column(last).Some? then [Column(last).value] else []
  }

  method ColumnsOf(fields: seq<FieldDesc>) returns (names: seq<string>)
    ensures names == Columns(fields)
  {
    names := [];
    for i := 0 to |fields|
      invariant names == Columns(fields[..i])
    {
      assert fields[..i + 1][..i] == fields[..i];
      if Column(fields[i]).Some? {
        names := names + [Column(fields[i]).value];
      }
    }
    assert fields[..|fields|] == fields;
  }

  /** query.go:219-230. */
  method SliceOfFieldNames(val: seq<FieldDesc>) returns (fieldNames: seq<string>)
    ensures fieldNames == Columns(Kept(val, [FilterOutPK]))
  {
    var fields := ListExportedFields(val, [FilterOutPK]);
    fieldNames := ColumnsOf(fields);
  }

  // ---------------------------------------------------------------- the chains agree

  /** The fields a statement sets: those with a column that are no part of the primary key. */
  predicate IsSet(field: FieldDesc) {
    Column(field).Some? && field.pk == ""
  }

  /** Exactly the fields that pass are kept, each as often as it is there. */
  lemma {:induction false} KeptExactly(fields: seq<FieldDesc>, predicates: seq<Filter>, field: FieldDesc)
    ensures multiset(Kept(fields, predicates))[field] ==
            if Passes(field, predicates) then multiset(fields)[field] else 0
  {
    if fields != [] {
      assert fields == fields[..|fields| - 1] + [fields[|fields| - 1]];
      KeptExactly(fields[..|fields| - 1], predicates, field);
    }
  }

  lemma {:induction false} TagFilters()
    ensures OnTags([CqlExported, FilterOutPK]) && OnTags([CqlExported])
  {
    forall f: FieldDesc, content
      ensures var g := f.(isNil := false, content := content);
        && Passes(g, [CqlExported, FilterOutPK]) == Passes(f, [CqlExported, FilterOutPK])
        && Passes(g, [CqlExported]) == Passes(f, [CqlExported])
    {
      PassesBoth(f);
      PassesBoth(f.(isNil := false, content := content));
    }
  }

  /** A name that starts with an underscore passes for exported, and the listing panics on its field. */
  lemma {:induction false} UnderscorePanics(field: FieldDesc)
    requires field.name != "" && field.name[0] == '_' && field.cql != "-" && field.pk == ""
    ensures IsSet(field)
    ensures PanicAt([field], [CqlExported, FilterOutPK], 0) == 0
  {
    PassesBoth(field);
  }

  lemma {:induction false} PassesBoth(field: FieldDesc)
    ensures Passes(field, [CqlExported, FilterOutPK]) <==> IsSet(field)
    ensures Passes(field, [FilterOutPK]) <==> NameExported(field.name) && field.pk == ""
    ensures Passes(field, [CqlExported]) <==> Column(field).Some?
  {
    var both, pk, cql := [CqlExported, FilterOutPK], [FilterOutPK], [CqlExported];
    assert both[0](field) == CqlExported(field) && both[1](field) == FilterOutPK(field);
    assert pk[0](field) == FilterOutPK(field) && cql[0](field) == CqlExported(field);
  }

  /**
   The names written to SET come from one filter chain and the values bound to them from another: the
   k-th name is the column of the k-th value's field all the same, and there are as many.
   */
  lemma {:induction false} ChainsAgree(fields: seq<FieldDesc>)
    ensures Columns(Kept(fields, [FilterOutPK])) == Columns(Kept(fields, [CqlExported, FilterOutPK]))
    ensures forall f :: f in Kept(fields, [CqlExported, FilterOutPK]) ==> IsSet(f)
  {
    if fields != [] {
      var init, last := fields[..|fields| - 1], fields[|fields| - 1];
      ChainsAgree(init);
      PassesBoth(last);
      ColumnsOfSnoc(Kept(init, [FilterOutPK]), last);
      ColumnsOfSnoc(Kept(init, [CqlExported, FilterOutPK]), last);
    }
  }

  lemma {:induction false} ColumnsOfSnoc(fields: seq<FieldDesc>, field: FieldDesc)
    ensures Columns(fields + [field]) == Columns(fields) + if Column(field).Some? then [Column(field).value] else []
    ensures fields + [] == fields
  {
    assert (fields + [field])[..|fields|] == fields;
  }

  lemma {:induction false} ColumnAt(fields: seq<FieldDesc>, k: nat)
    requires k < |fields| && forall f :: f in fields ==> Column(f).Some?
    ensures |Columns(fields)| == |fields| && Columns(fields)[k] == Column(fields[k]).value
  {
    var n := |fields| - 1;
    if n > 0 {
      ColumnAt(fields[..n], if k < n then k else 0);
    }
  }

  /** A row is scanned into the fields whose columns were selected, position by position. */
  lemma {:induction false} ScanTargetsMatchColumns(fields: seq<FieldDesc>, k: nat) returns (i: nat)
    requires k < |Kept(fields, [CqlExported])|
    ensures var kept := Kept(fields, [CqlExported]);
      && |Columns(kept)| == |Targets(kept)| == |kept|
      && i < |fields| && Column(fields[i]) == Some(Columns(kept)[k])
      && (!Panics(fields[i]) ==> LeadsTo(Targets(kept)[k], i, fields, AllAllocated(fields, [CqlExported])))
  {
    KeptHaveColumns(fields);
    ColumnAt(Kept(fields, [CqlExported]), k);
    KeptIsThere(fields, [CqlExported], k);
    i := KeptAt(fields, [CqlExported])[k];
    assert i in KeptAt(fields, [CqlExported]);
    KeptIffPasses(fields, [CqlExported], i);
    if !Panics(fields[i]) {
      TargetLeadsTo(fields, [CqlExported], i);
    }
  }

  /** A row can be scanned into the target of the field: it is a pointer. */
  predicate TakesRow(field: FieldDesc) {
    match field.kind
    case Plain => true
    case Reference => true
    case Interface(holdsPointer) => holdsPointer
    case Collection => field.isNil
  }

  /** The field after a row; missing says whether the row had no value for it. */
  function Scanned(field: FieldDesc, missing: bool): FieldDesc {
    if field.kind.Collection? then field.(isNil := missing) else field
  }

  /**
   A structure that takes one row takes the next one as well if and only if none of its slices and maps
   got a value from the first: once they have one, it is listed instead of a pointer to the field.
   */
  lemma {:induction false} ReusableIff(fields: seq<FieldDesc>, missing: FieldDesc -> bool)
    requires forall f :: f in Kept(fields, [CqlExported]) ==> TakesRow(f)
    ensures (forall f :: f in Kept(fields, [CqlExported]) ==> TakesRow(Scanned(f, missing(f)))) <==>
            (forall f :: f in Kept(fields, [CqlExported]) && f.kind.Collection? ==> missing(f))
  {
    forall f | f in Kept(fields, [CqlExported])
      ensures TakesRow(Scanned(f, missing(f))) <==> (f.kind.Collection? ==> missing(f))
    {
    }
  }

  lemma {:induction false} KeptHaveColumns(fields: seq<FieldDesc>)
    ensures forall f :: f in Kept(fields, [CqlExported]) ==> Column(f).Some?
  {
    if fields != [] {
      PassesBoth(fields[|fields| - 1]);
      KeptHaveColumns(fields[..|fields| - 1]);
    }
  }
}
