/**
 core/list_flavor_plugin.go, once more by paths: where in a flavor the listed plugins are, that none is
 passed over, under which name each is listed, and in which order.
 */
module FlavorPaths {
  import opened Wrappers
  import opened Flavors

  /** Field positions, from the outermost flavor inwards. */
  type Path = seq<nat>

  /** Following the path through exported fields leads to the plugin, in a field of that name. */
  predicate PluginAt(flavor: Content, path: Path, p: NamedPlugin)
    decreases |path|
  {
    path != [] && flavor.FlavorField? && flavor.flavor.Some? &&
    var fields := flavor.flavor.value.fields;
    path[0] < |fields| && fields[path[0]].exported &&
    if |path| == 1 then
      fields[path[0]].content == PluginField(Some(p.plugin)) && fields[path[0]].name == p.name
    else PluginAt(fields[path[0]].content, path[1..], p)
  }

  /** The lexicographic order. */
  predicate Less(a: Path, b: Path) {
    if a == [] then b != []
    else b != [] && (a[0] < b[0] || (a[0] == b[0] && Less(a[1..], b[1..])))
  }

  /**
   The plugins are at the paths, in the order of the paths, no plugin twice; and for every plugin anywhere
   in the flavor the path with which it is listed is its least.
   */
  ghost predicate ListedAt(flavor: Content, plugins: seq<NamedPlugin>, paths: seq<Path>) {
    && |paths| == |plugins|
    && (forall k :: 0 <= k < |plugins| ==> PluginAt(flavor, paths[k], plugins[k]))
    && (forall i, j :: 0 <= i < j < |paths| ==> Less(paths[i], paths[j]))
    && (forall i, j :: 0 <= i < j < |plugins| ==> plugins[i].plugin != plugins[j].plugin)
    && (forall path, p :: PluginAt(flavor, path, p) ==> ListedBefore(plugins, paths, path, p.plugin))
  }

  /** The plugin is listed, and with a path that is not greater. */
  predicate ListedBefore(plugins: seq<NamedPlugin>, paths: seq<Path>, path: Path, plugin: PluginId)
    requires |paths| == |plugins|
  {
    exists k :: 0 <= k < |plugins| && plugins[k].plugin == plugin && (paths[k] == path || Less(paths[k], path))
  }

  // ---------------------------------------------------------------- the paths of the flat traversal

  function Prefixed(i: nat, paths: seq<Path>): (r: seq<Path>)
    ensures |r| == |paths|
  {
    seq(|paths|, k requires 0 <= k < |paths| => [i] + paths[k])
  }

  function Paths(fields: seq<Field>): (r: seq<Path>)
    ensures |r| == |Flat(fields)|
  {
    if fields == [] then []
    else
      var n := |fields| - 1;
      Paths(fields[..n]) + Prefixed(n, PathsIn(fields[n]))
  }

  function PathsIn(field: Field): (r: seq<Path>)
    ensures |r| == |FlatField(field)|
  {
    if !field.exported then []
    else match field.content
      case PluginField(Some(_)) => [[]]
      case FlavorField(Some(sub)) => Paths(sub.fields)
      case _ => []
  }

  /** Below a field: the field itself holds the plugin, or a flavor in which it is. */
  predicate PluginIn(field: Field, path: Path, p: NamedPlugin) {
    field.exported &&
    if path == [] then field.content == PluginField(Some(p.plugin)) && field.name == p.name
    else PluginAt(field.content, path, p)
  }

  function Whole(fields: seq<Field>): Content {
    FlavorField(Some(Flavor(fields)))
  }

  lemma {:induction false} AtField(fields: seq<Field>, path: Path, p: NamedPlugin)
    ensures PluginAt(Whole(fields), path, p) <==>
            path != [] && path[0] < |fields| && PluginIn(fields[path[0]], path[1..], p)
  {
  }

  /** The paths of a first part stay what they are, and those of the last field get its position in front. */
  lemma {:induction false} PathsOfParts(fields: seq<Field>, k: nat)
    requires fields != [] && k < |Flat(fields)|
    ensures var n := |fields| - 1;
            var m := |Flat(fields[..n])|;
            if k < m then
              Flat(fields)[k] == Flat(fields[..n])[k] && Paths(fields)[k] == Paths(fields[..n])[k]
            else
              && k - m < |FlatField(fields[n])|
              && Flat(fields)[k] == FlatField(fields[n])[k - m]
              && Paths(fields)[k] == [n] + PathsIn(fields[n])[k - m]
  {
  }

  lemma {:induction false} FlatIsAtPaths(fields: seq<Field>, k: nat)
    requires k < |Flat(fields)|
    ensures PluginAt(Whole(fields), Paths(fields)[k], Flat(fields)[k])
    ensures Paths(fields)[k] != [] && Paths(fields)[k][0] < |fields|
    decreases fields, 1
  {
    var n := |fields| - 1;
    var init, m := fields[..n], |Flat(fields[..n])|;
    PathsOfParts(fields, k);
    if k < m {
      FlatIsAtPaths(init, k);
      AtField(init, Paths(fields)[k], Flat(fields)[k]);
    } else {
      FieldIsAtPaths(fields[n], k - m);
      assert Paths(fields)[k][1..] == PathsIn(fields[n])[k - m];
    }
    AtField(fields, Paths(fields)[k], Flat(fields)[k]);
  }

  lemma {:induction false} FieldIsAtPaths(field: Field, k: nat)
    requires k < |FlatField(field)|
    ensures PluginIn(field, PathsIn(field)[k], FlatField(field)[k])
    decreases field, 0
  {
    if field.content.FlavorField? {
      FlatIsAtPaths(field.content.flavor.value.fields, k);
    }
  }

  lemma {:induction false} PathsAscend(fields: seq<Field>, i: nat, j: nat)
    requires i < j < |Paths(fields)|
    ensures Less(Paths(fields)[i], Paths(fields)[j])
    decreases fields, 1
  {
    var n := |fields| - 1;
    var init, last, m := fields[..n], fields[n], |Paths(fields[..n])|;
    if j < m {
      PathsAscend(init, i, j);
    } else if i < m {
      FlatIsAtPaths(init, i);
    } else {
      PathsInAscend(last, i - m, j - m);
      assert ([n] + PathsIn(last)[i - m])[1..] == PathsIn(last)[i - m];
      assert ([n] + PathsIn(last)[j - m])[1..] == PathsIn(last)[j - m];
    }
  }

  lemma {:induction false} PathsInAscend(field: Field, i: nat, j: nat)
    requires i < j < |PathsIn(field)|
    ensures Less(PathsIn(field)[i], PathsIn(field)[j])
    decreases field, 0
  {
    PathsAscend(field.content.flavor.value.fields, i, j);
  }

  /** Nothing is passed over. */
  lemma {:induction false} EveryPathIsThere(fields: seq<Field>, path: Path, p: NamedPlugin) returns (k: nat)
    requires PluginAt(Whole(fields), path, p)
    ensures k < |Flat(fields)| && Paths(fields)[k] == path && Flat(fields)[k] == p
    decreases fields, 1
  {
    var n := |fields| - 1;
    var init, last := fields[..n], fields[n];
    AtField(fields, path, p);
    if path[0] < n {
      AtField(init, path, p);
      k := EveryPathIsThere(init, path, p);
    } else {
      var i := EveryPathInIsThere(last, path[1..], p);
      k := |Flat(init)| + i;
      assert path == [n] + path[1..];
    }
  }

  lemma {:induction false} EveryPathInIsThere(field: Field, path: Path, p: NamedPlugin) returns (k: nat)
    requires PluginIn(field, path, p)
    ensures k < |FlatField(field)| && PathsIn(field)[k] == path && FlatField(field)[k] == p
    decreases field, 0
  {
    if path == [] {
      k := 0;
    } else {
      k := EveryPathIsThere(field.content.flavor.value.fields, path, p);
    }
  }

  // ---------------------------------------------------------------- first occurrences

  /** Where the first occurrences are. */
  function Kept(s: seq<NamedPlugin>, byName: bool): (r: seq<nat>)
    ensures |r| == |First(s, byName, {})|
  {
    if s == [] then []
    else
      var before, last := s[..|s| - 1], s[|s| - 1];
      Kept(before, byName) + if KeyOf(last, byName) in {} + Keys(before, byName) then [] else [|s| - 1]
  }

  lemma {:induction false} KeptAscends(s: seq<NamedPlugin>, byName: bool)
    ensures forall k :: 0 <= k < |Kept(s, byName)| ==>
      Kept(s, byName)[k] < |s| && s[Kept(s, byName)[k]] == First(s, byName, {})[k]
    ensures forall i, j :: 0 <= i < j < |Kept(s, byName)| ==> Kept(s, byName)[i] < Kept(s, byName)[j]
  {
    if s != [] {
      KeptAscends(s[..|s| - 1], byName);
    }
  }

  lemma {:induction false} IndexOfKey(s: seq<NamedPlugin>, byName: bool, key: Key) returns (i: nat)
    requires key in Keys(s, byName)
    ensures i < |s| && KeyOf(s[i], byName) == key
  {
    if KeyOf(s[|s| - 1], byName) == key {
      i := |s| - 1;
    } else {
      i := IndexOfKey(s[..|s| - 1], byName, key);
    }
  }

  lemma {:induction false} KeptNotLater(s: seq<NamedPlugin>, byName: bool, i: nat) returns (k: nat)
    requires i < |s|
    ensures k < |Kept(s, byName)| && Kept(s, byName)[k] <= i
    ensures KeyOf(s[i], byName) == KeyOf(First(s, byName, {})[k], byName)
  {
    var before, last := s[..|s| - 1], s[|s| - 1];
    if i < |before| {
      k := KeptNotLater(before, byName, i);
    } else if KeyOf(last, byName) in {} + Keys(before, byName) {
      var j := IndexOfKey(before, byName, KeyOf(last, byName));
      k := KeptNotLater(before, byName, j);
    } else {
      k := |Kept(before, byName)|;
    }
  }

  // ---------------------------------------------------------------- the result

  /** The paths of the plugins that are kept. */
  function PathsKept(fields: seq<Field>): (r: seq<Path>)
    ensures |r| == |First(Flat(fields), false, {})|
  {
    KeptAscends(Flat(fields), false);
    var kept := Kept(Flat(fields), false);
    seq(|kept|, k requires 0 <= k < |kept| => Paths(fields)[kept[k]])
  }

  lemma {:induction false} KeptIsAtPath(fields: seq<Field>, k: nat)
    requires k < |PathsKept(fields)|
    ensures PluginAt(Whole(fields), PathsKept(fields)[k], First(Flat(fields), false, {})[k])
  {
    KeptAscends(Flat(fields), false);
    FlatIsAtPaths(fields, Kept(Flat(fields), false)[k]);
  }

  lemma {:induction false} KeptPathsAscend(fields: seq<Field>, i: nat, j: nat)
    requires i < j < |PathsKept(fields)|
    ensures Less(PathsKept(fields)[i], PathsKept(fields)[j])
    ensures First(Flat(fields), false, {})[i].plugin != First(Flat(fields), false, {})[j].plugin
  {
    KeptAscends(Flat(fields), false);
    PathsAscend(fields, Kept(Flat(fields), false)[i], Kept(Flat(fields), false)[j]);
    FirstKeepsOnce(Flat(fields), false, i, j);
  }

  lemma {:induction false} KeptIsLeast(fields: seq<Field>, path: Path, p: NamedPlugin)
    requires PluginAt(Whole(fields), path, p)
    ensures ListedBefore(First(Flat(fields), false, {}), PathsKept(fields), path, p.plugin)
  {
    var i := EveryPathIsThere(fields, path, p);
    var k := KeptNotLater(Flat(fields), false, i);
    KeptAscends(Flat(fields), false);
    if Kept(Flat(fields), false)[k] < i {
      PathsAscend(fields, Kept(Flat(fields), false)[k], i);
    }
    assert PathsKept(fields)[k] == path || Less(PathsKept(fields)[k], path);
  }

  /** What ListPlugins returns is listed along paths. */
  lemma {:induction false} ListingIsAlongPaths(flavor: Content) returns (paths: seq<Path>)
    ensures ListedAt(flavor, First(FlatContent(flavor), false, {}), paths)
  {
    if !flavor.FlavorField? || flavor.flavor == None {
      paths := [];
    } else {
      var fields := flavor.flavor.value.fields;
      var plugins := First(Flat(fields), false, {});
      paths := PathsKept(fields);
      assert flavor == Whole(fields);
      forall k | 0 <= k < |plugins|
        ensures PluginAt(flavor, paths[k], plugins[k])
      {
        KeptIsAtPath(fields, k);
      }
      forall i, j | 0 <= i < j < |paths|
        ensures Less(paths[i], paths[j]) && plugins[i].plugin != plugins[j].plugin
      {
        KeptPathsAscend(fields, i, j);
      }
      forall path, p | PluginAt(flavor, path, p)
        ensures ListedBefore(plugins, paths, path, p.plugin)
      {
        KeptIsLeast(fields, path, p);
      }
    }
  }

  /** Only one list is listed along paths: plugins, names and order are determined. */
  lemma {:induction false} ListingIsDetermined(
      flavor: Content, a: seq<NamedPlugin>, ps: seq<Path>, b: seq<NamedPlugin>, qs: seq<Path>, k: nat)
    requires ListedAt(flavor, a, ps) && ListedAt(flavor, b, qs) && k < |a|
    ensures exists j :: 0 <= j < |b| && b[j] == a[k] && qs[j] == ps[k]
  {
    var j := PositionOf(flavor, b, qs, ps[k], a[k]);
    var i := PositionOf(flavor, a, ps, qs[j], b[j]);
    assert i == k;
    LessIsAntisymmetric(ps[k], qs[j]);
    SamePath(flavor, ps[k], a[k], b[j]);
  }

  lemma {:induction false} PositionOf(
      flavor: Content, plugins: seq<NamedPlugin>, paths: seq<Path>, path: Path, p: NamedPlugin)
    returns (j: nat)
    requires ListedAt(flavor, plugins, paths) && PluginAt(flavor, path, p)
    ensures j < |plugins| && plugins[j].plugin == p.plugin && (paths[j] == path || Less(paths[j], path))
  {
    assert ListedBefore(plugins, paths, path, p.plugin);
    j :| 0 <= j < |plugins| && plugins[j].plugin == p.plugin && (paths[j] == path || Less(paths[j], path));
  }

  lemma {:induction false} LessIsAntisymmetric(a: Path, b: Path)
    ensures !(Less(a, b) && Less(b, a)) && !Less(a, a)
  {
    if a != [] {
      LessIsAntisymmetric(a[1..], if b != [] then b[1..] else []);
    }
  }

  lemma {:induction false} SamePath(flavor: Content, path: Path, p: NamedPlugin, q: NamedPlugin)
    requires PluginAt(flavor, path, p) && PluginAt(flavor, path, q)
    ensures p == q
    decreases |path|
  {
    if |path| > 1 {
      SamePath(flavor.flavor.value.fields[path[0]].content, path[1..], p, q);
    }
  }

  /** Listing the plugins of a flavor, by its result. */
  method ListPluginsAlongPaths(flavor: Content) returns (plugins: seq<NamedPlugin>)
    ensures exists paths :: ListedAt(flavor, plugins, paths)
  {
    plugins := ListPlugins(flavor);
    ghost var paths := ListingIsAlongPaths(flavor);
  }

  // ---------------------------------------------------------------- the aggregator

  /** A flavor and a position among its plugins. */
  datatype Place = Place(flavor: nat, position: nat)

  predicate Precedes(a: Place, b: Place) {
    a.flavor < b.flavor || (a.flavor == b.flavor && a.position < b.position)
  }

  predicate IsPlace(lists: seq<seq<NamedPlugin>>, p: Place) {
    p.flavor < |lists| && p.position < |lists[p.flavor]|
  }

  /**
   The plugins are at the places, in the order of the places, no name twice; and for every plugin of every
   flavor its name is listed with a place that is not later.
   */
  ghost predicate AggregatedAt(lists: seq<seq<NamedPlugin>>, plugins: seq<NamedPlugin>, places: seq<Place>) {
    && |places| == |plugins|
    && (forall k :: 0 <= k < |plugins| ==>
          IsPlace(lists, places[k]) && lists[places[k].flavor][places[k].position] == plugins[k])
    && (forall i, j :: 0 <= i < j < |places| ==> Precedes(places[i], places[j]))
    && (forall i, j :: 0 <= i < j < |plugins| ==> plugins[i].name != plugins[j].name)
    && (forall p :: IsPlace(lists, p) ==> NamedBefore(plugins, places, p, lists[p.flavor][p.position].name))
  }

  predicate NamedBefore(plugins: seq<NamedPlugin>, places: seq<Place>, p: Place, name: string)
    requires |places| == |plugins|
  {
    exists k :: 0 <= k < |plugins| && plugins[k].name == name && (places[k] == p || Precedes(places[k], p))
  }

  /** Where the plugins of all flavors come from. */
  function Places(lists: seq<seq<NamedPlugin>>): (r: seq<Place>)
    ensures |r| == |Concat(lists)|
  {
    if lists == [] then []
    else
      var n := |lists| - 1;
      Places(lists[..n]) + seq(|lists[n]|, k requires 0 <= k < |lists[n]| => Place(n, k))
  }

  lemma {:induction false} ConcatIsAtPlaces(lists: seq<seq<NamedPlugin>>, k: nat)
    requires k < |Concat(lists)|
    ensures IsPlace(lists, Places(lists)[k])
    ensures lists[Places(lists)[k].flavor][Places(lists)[k].position] == Concat(lists)[k]
  {
    var n := |lists| - 1;
    if k < |Concat(lists[..n])| {
      ConcatIsAtPlaces(lists[..n], k);
    }
  }

  lemma {:induction false} PlacesAscend(lists: seq<seq<NamedPlugin>>, i: nat, j: nat)
    requires i < j < |Places(lists)|
    ensures Precedes(Places(lists)[i], Places(lists)[j])
  {
    var n := |lists| - 1;
    if j < |Places(lists[..n])| {
      PlacesAscend(lists[..n], i, j);
    } else if i < |Places(lists[..n])| {
      ConcatIsAtPlaces(lists[..n], i);
    }
  }

  lemma {:induction false} EveryPlaceIsThere(lists: seq<seq<NamedPlugin>>, p: Place) returns (k: nat)
    requires IsPlace(lists, p)
    ensures k < |Concat(lists)| && Places(lists)[k] == p
  {
    var n := |lists| - 1;
    if p.flavor < n {
      k := EveryPlaceIsThere(lists[..n], p);
    } else {
      k := |Places(lists[..n])| + p.position;
    }
  }

  function PlacesKept(lists: seq<seq<NamedPlugin>>): (r: seq<Place>)
    ensures |r| == |First(Concat(lists), true, {})|
  {
    KeptAscends(Concat(lists), true);
    var kept := Kept(Concat(lists), true);
    seq(|kept|, k requires 0 <= k < |kept| => Places(lists)[kept[k]])
  }

  lemma {:induction false} KeptPlacesAscend(lists: seq<seq<NamedPlugin>>, i: nat, j: nat)
    requires i < j < |PlacesKept(lists)|
    ensures Precedes(PlacesKept(lists)[i], PlacesKept(lists)[j])
    ensures First(Concat(lists), true, {})[i].name != First(Concat(lists), true, {})[j].name
  {
    KeptAscends(Concat(lists), true);
    PlacesAscend(lists, Kept(Concat(lists), true)[i], Kept(Concat(lists), true)[j]);
    FirstKeepsOnce(Concat(lists), true, i, j);
  }

  lemma {:induction false} KeptPlaceIsFirst(lists: seq<seq<NamedPlugin>>, p: Place)
    requires IsPlace(lists, p)
    ensures NamedBefore(First(Concat(lists), true, {}), PlacesKept(lists), p, lists[p.flavor][p.position].name)
  {
    var i := EveryPlaceIsThere(lists, p);
    ConcatIsAtPlaces(lists, i);
    var k := KeptNotLater(Concat(lists), true, i);
    KeptAscends(Concat(lists), true);
    if Kept(Concat(lists), true)[k] < i {
      PlacesAscend(lists, Kept(Concat(lists), true)[k], i);
    }
    assert PlacesKept(lists)[k] == p || Precedes(PlacesKept(lists)[k], p);
  }

  /** What the aggregator returns: every name once, for the plugin that has it first. */
  lemma {:induction false} AggregateIsInOrder(lists: seq<seq<NamedPlugin>>)
    ensures AggregatedAt(lists, First(Concat(lists), true, {}), PlacesKept(lists))
  {
    var plugins, places := First(Concat(lists), true, {}), PlacesKept(lists);
    forall k | 0 <= k < |plugins|
      ensures IsPlace(lists, places[k]) && lists[places[k].flavor][places[k].position] == plugins[k]
    {
      KeptAscends(Concat(lists), true);
      ConcatIsAtPlaces(lists, Kept(Concat(lists), true)[k]);
    }
    forall i, j | 0 <= i < j < |places|
      ensures Precedes(places[i], places[j]) && plugins[i].name != plugins[j].name
    {
      KeptPlacesAscend(lists, i, j);
    }
    forall p | IsPlace(lists, p)
      ensures NamedBefore(plugins, places, p, lists[p.flavor][p.position].name)
    {
      KeptPlaceIsFirst(lists, p);
    }
  }

  /** The plugins of an aggregated flavor, by the result. */
  method AggregatedPluginsInOrder(lists: seq<seq<NamedPlugin>>) returns (plugins: seq<NamedPlugin>)
    ensures exists places :: AggregatedAt(lists, plugins, places)
  {
    plugins := AggregatedPlugins(lists);
    AggregateIsInOrder(lists);
  }
}
