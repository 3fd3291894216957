/**
 core/list_flavor_plugin.go: a flavor is a structure of plugins and further flavors; listing its plugins walks it
 in field order and keeps each plugin once.  The walk is proved to give the first occurrences of a flat traversal;
 what first occurrences keep, in which order, and where in the flavor they are, is proved of the traversal.
 */
module Flavors {
  import opened Wrappers

  /** Identity of a plugin value. */
  type PluginId = nat

  datatype NamedPlugin = NamedPlugin(name: string, plugin: PluginId)

  datatype Flavor = Flavor(fields: seq<Field>)

  datatype Field = Field(name: string, exported: bool, content: Content)

  /** What a field holds: a plugin or a flavor, either possibly nil, or something that is neither. */
  datatype Content = PluginField(plugin: Option<PluginId>) | FlavorField(flavor: Option<Flavor>) | OtherField

  /** The non-nil plugins of all exported fields in preorder, with repetitions. */
  function Flat(fields: seq<Field>): seq<NamedPlugin> {
    if fields == [] then [] else Flat(fields[..|fields| - 1]) + FlatField(fields[|fields| - 1])
  }

  function FlatField(field: Field): seq<NamedPlugin> {
    if !field.exported then []
    else match field.content
      case PluginField(Some(p)) => [NamedPlugin(field.name, p)]
      case FlavorField(Some(sub)) => Flat(sub.fields)
      case _ => []
  }

  function FlatContent(flavor: Content): seq<NamedPlugin> {
    if flavor.FlavorField? && flavor.flavor.Some? then Flat(flavor.flavor.value.fields) else []
  }

  // ---------------------------------------------------------------- first occurrences

  /** What two entries are compared by: the plugin itself or its name. */
  datatype Key = Id(plugin: PluginId) | Name(name: string)

  function KeyOf(p: NamedPlugin, byName: bool): Key {
    if byName then Name(p.name) else Id(p.plugin)
  }

  function Keys(s: seq<NamedPlugin>, byName: bool): set<Key> {
    if s == [] then {} else Keys(s[..|s| - 1], byName) + {KeyOf(s[|s| - 1], byName)}
  }

  /** The entries whose key is not among the given ones nor that of an earlier entry. */
  function First(s: seq<NamedPlugin>, byName: bool, seen: set<Key>): seq<NamedPlugin> {
    if s == [] then []
    else
      var before, last := s[..|s| - 1], s[|s| - 1];
      First(before, byName, seen) + if KeyOf(last, byName) in seen + Keys(before, byName) then [] else [last]
  }

  lemma {:induction false} FirstOfSum(a: seq<NamedPlugin>, b: seq<NamedPlugin>, byName: bool, seen: set<Key>)
    ensures First(a + b, byName, seen) == First(a, byName, seen) + First(b, byName, seen + Keys(a, byName))
    ensures Keys(a + b, byName) == Keys(a, byName) + Keys(b, byName)
  {
    if b == [] {
      assert a + b == a;
    } else {
      var b' := b[..|b| - 1];
      FirstOfSum(a, b', byName, seen);
      assert (a + b)[..|a + b| - 1] == a + b';
      assert seen + Keys(a + b', byName) == seen + Keys(a, byName) + Keys(b', byName);
    }
  }

  lemma {:induction false} KeysOfNext(s: seq<NamedPlugin>, p: NamedPlugin, byName: bool)
    ensures Keys(s + [p], byName) == Keys(s, byName) + {KeyOf(p, byName)}
  {
    assert (s + [p])[..|s|] == s;
  }

  /** No key is lost. */
  lemma {:induction false} FirstKeepsKeys(s: seq<NamedPlugin>, byName: bool)
    ensures Keys(First(s, byName, {}), byName) == Keys(s, byName)
  {
    if s != [] {
      var before, last := s[..|s| - 1], s[|s| - 1];
      FirstKeepsKeys(before, byName);
      assert {} + Keys(before, byName) == Keys(before, byName);
      if KeyOf(last, byName) in Keys(before, byName) {
        assert First(s, byName, {}) == First(before, byName, {});
      } else {
        KeysOfNext(First(before, byName, {}), last, byName);
      }
    }
  }

  /** No key is kept twice. */
  lemma {:induction false} FirstKeepsOnce(s: seq<NamedPlugin>, byName: bool, i: nat, j: nat)
    requires i < j < |First(s, byName, {})|
    ensures KeyOf(First(s, byName, {})[i], byName) != KeyOf(First(s, byName, {})[j], byName)
  {
    var before := s[..|s| - 1];
    var r := First(before, byName, {});
    if j < |r| {
      FirstKeepsOnce(before, byName, i, j);
    } else {
      FirstKeepsKeys(before, byName);
      KeyOfMember(r, byName, i);
    }
  }

  lemma {:induction false} KeyOfMember(s: seq<NamedPlugin>, byName: bool, i: nat)
    requires i < |s|
    ensures KeyOf(s[i], byName) in Keys(s, byName)
  {
    if i < |s| - 1 {
      KeyOfMember(s[..|s| - 1], byName, i);
    }
  }

  /** The kept entry of a key is the first one with it. */
  lemma {:induction false} FirstKeepsFirst(s: seq<NamedPlugin>, byName: bool, i: nat)
    requires i < |s| && KeyOf(s[i], byName) !in Keys(s[..i], byName)
    ensures s[i] in First(s, byName, {})
  {
    var before := s[..|s| - 1];
    if i < |before| {
      assert s[..i] == before[..i];
      FirstKeepsFirst(before, byName, i);
    } else {
      assert {} + Keys(before, byName) == Keys(before, byName);
    }
  }

  // ---------------------------------------------------------------- the walk

  /** The map shared by all levels of the walk. */
  class Uniqueness {
    var seen: set<Key>

    constructor ()
      ensures seen == {}
    {
      seen := {};
    }
  }

  /**
   list_flavor_plugin.go:71-143.  A nil flavor has no plugins; a value that is neither a plugin nor
   a flavor is an error, which the caller on the level above logs and passes over.
   */
  method ListPluginsInFlavor(flavor: Content, uniqueness: Uniqueness) returns (res: seq<NamedPlugin>, ok: bool)
    modifies uniqueness
    decreases flavor, 1
    ensures ok <==> flavor.FlavorField?
    ensures res == First(FlatContent(flavor), false, old(uniqueness.seen))
    ensures uniqueness.seen == old(uniqueness.seen) + Keys(FlatContent(flavor), false)
  {
    res := [];
    if !flavor.FlavorField? {
      return [], false;
    }
    if flavor.flavor == None {
      return [], true;
    }
    var fields := flavor.flavor.value.fields;
    for i := 0 to |fields|
      invariant res == First(Flat(fields[..i]), false, old(uniqueness.seen))
      invariant uniqueness.seen == old(uniqueness.seen) + Keys(Flat(fields[..i]), false)
    {
      assert fields[..i + 1][..i] == fields[..i];
      FirstOfSum(Flat(fields[..i]), FlatField(fields[i]), false, old(uniqueness.seen));
      var l := ListField(fields[i], uniqueness);
      res := res + l;
    }
    assert fields[..|fields|] == fields;
    return res, true;
  }

  /** list_flavor_plugin.go:99-139, one field. */
  method ListField(field: Field, uniqueness: Uniqueness) returns (res: seq<NamedPlugin>)
    modifies uniqueness
    decreases field
    ensures res == First(FlatField(field), false, old(uniqueness.seen))
    ensures uniqueness.seen == old(uniqueness.seen) + Keys(FlatField(field), false)
  {
    res := [];
    if !field.exported {
      return;
    }
    if field.content.PluginField? {
      if field.content.plugin.Some? {
        var found := NamedPlugin(field.name, field.content.plugin.value);
        assert [found][..0] == [];
        if Id(found.plugin) !in uniqueness.seen {
          uniqueness.seen := uniqueness.seen + {Id(found.plugin)};
          res := [found];
        }
      }
    } else {
      var l, ok := ListPluginsInFlavor(field.content, uniqueness);
      if ok {
        res := l;
      }
    }
  }

  /** list_flavor_plugin.go:52-59: each plugin of the flat traversal once, where and as it is named first. */
  method ListPlugins(flavor: Content) returns (plugins: seq<NamedPlugin>)
    ensures plugins == First(FlatContent(flavor), false, {})
  {
    var uniqueness := new Uniqueness();
    var ok;
    plugins, ok := ListPluginsInFlavor(flavor, uniqueness);
  }

  // ---------------------------------------------------------------- the aggregator

  /** list_flavor_plugin.go:222-228. */
  method IsAmong(newPlugin: NamedPlugin, existing: seq<NamedPlugin>) returns (found: bool)
    ensures found <==> Name(newPlugin.name) in Keys(existing, true)
  {
    for j := 0 to |existing|
      invariant Name(newPlugin.name) !in Keys(existing[..j], true)
    {
      assert existing[..j + 1][..j] == existing[..j];
      if newPlugin.name == existing[j].name {
        KeyOfMember(existing, true, j);
        return true;
      }
    }
    assert existing[..|existing|] == existing;
    return false;
  }

  /** list_flavor_plugin.go:219-234. */
  method AppendDiff(existing0: seq<NamedPlugin>, new_: seq<NamedPlugin>) returns (existing: seq<NamedPlugin>)
    ensures existing == existing0 + First(new_, true, Keys(existing0, true))
    ensures Keys(existing, true) == Keys(existing0, true) + Keys(new_, true)
  {
    existing := existing0;
    for i := 0 to |new_|
      invariant existing == existing0 + First(new_[..i], true, Keys(existing0, true))
      invariant Keys(existing, true) == Keys(existing0, true) + Keys(new_[..i], true)
    {
      assert new_[..i + 1][..i] == new_[..i];
      var exists_ := IsAmong(new_[i], existing);
      if !exists_ {
        assert (existing + [new_[i]])[..|existing|] == existing;
        existing := existing + [new_[i]];
      }
    }
    assert new_[..|new_|] == new_;
  }

  function Concat(lists: seq<seq<NamedPlugin>>): seq<NamedPlugin> {
    if lists == [] then [] else Concat(lists[..|lists| - 1]) + lists[|lists| - 1]
  }

  /** list_flavor_plugin.go:192-198; the flavors are given by what their Plugins methods return. */
  method AggregatedPlugins(flavors: seq<seq<NamedPlugin>>) returns (ret: seq<NamedPlugin>)
    ensures ret == First(Concat(flavors), true, {})
  {
    ret := [];
    for i := 0 to |flavors|
      invariant ret == First(Concat(flavors[..i]), true, {})
      invariant Keys(ret, true) == Keys(Concat(flavors[..i]), true)
    {
      assert flavors[..i + 1][..i] == flavors[..i];
      FirstOfSum(Concat(flavors[..i]), flavors[i], true, {});
      assert {} + Keys(ret, true) == Keys(ret, true);
      ret := AppendDiff(ret, flavors[i]);
    }
    assert flavors[..|flavors|] == flavors;
  }

  /**
   list_flavor_plugin.go:201-207.  firstRun[i] is what Inject of flavor i returns when it is called;
   called is how many of them are, in order.  The operator || stops calling after the first true.
   */
  method AggregatedInject(firstRun: seq<bool>) returns (ret: bool, called: nat)
    ensures ret <==> true in firstRun
    ensures called <= |firstRun| && true !in firstRun[..if called > 0 then called - 1 else 0]
    ensures called < |firstRun| ==> called > 0 && firstRun[called - 1]
  {
    ret, called := false, 0;
    for i := 0 to |firstRun|
      invariant ret <==> true in firstRun[..i]
      invariant called <= i && true !in firstRun[..if called > 0 then called - 1 else 0]
      invariant if ret then called > 0 && firstRun[called - 1] else called == i
    {
      assert firstRun[..i + 1] == firstRun[..i] + [firstRun[i]];
      if !ret {
        ret := firstRun[i];
        called := called + 1;
      }
    }
    assert firstRun[..|firstRun|] == firstRun;
  }

  /**
   Every flavor gets injected, as the aggregator promises, exactly when none before the last runs for the
   first time.
   */
  lemma {:induction false} AllInjectedIffOnlyLastFirst(firstRun: seq<bool>, called: nat)
    requires called <= |firstRun| && true !in firstRun[..if called > 0 then called - 1 else 0]
    requires called < |firstRun| ==> called > 0 && firstRun[called - 1]
    ensures called == |firstRun| <==> forall i :: 0 <= i < |firstRun| - 1 ==> !firstRun[i]
  {
    if called == |firstRun| {
      forall i | 0 <= i < |firstRun| - 1
        ensures !firstRun[i]
      {
        assert firstRun[..called - 1][i] == firstRun[i];
      }
    }
  }
}
