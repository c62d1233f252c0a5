/**
 * The web administration module: collecting the admin panels of all
 * providers, choosing the panel a request shows, and the plugin panel's
 * base-path search, component and plugin ordering, component enablement
 * update and plugin upload name checks.
 */
module AdminWebUi {
  import opened Wrappers
  import opened Strings

  // ---------------------------------------------------------------------------
  // Admin panels

  /** An admin panel: category id and label, panel id and label. */
  datatype Panel = Panel(category: string, categoryLabel: string, id: string, panelLabel: string)

  /** Panels are looked up by category id and panel id. */
  function Key(p: Panel): (string, string) {
    (p.category, p.id)
  }

  /** The keys of a list of panels. */
  function Keys(ps: seq<Panel>): set<(string, string)> {
    set p | p in ps :: Key(p)
  }

  /** The panels of all providers, in provider order. */
  function Flatten(providers: seq<seq<Panel>>): seq<Panel> {
    if providers == [] then [] else Flatten(providers[..|providers| - 1]) + providers[|providers| - 1]
  }

  lemma KeysAppend(a: seq<Panel>, b: seq<Panel>)
    ensures Keys(a + b) == Keys(a) + Keys(b)
  {
    assert forall p :: p in a + b <==> p in a || p in b;
  }

  /** The provider index that owns each panel key: the last one to offer it. */
  ghost predicate LastOwner(providers: seq<seq<Panel>>, owner: map<(string, string), nat>, n: int)
    requires 0 <= n <= |providers|
  {
    forall k :: k in owner ==>
      owner[k] < n && k in Keys(providers[owner[k]]) && forall j :: owner[k] < j < n ==> k !in Keys(providers[j])
  }

  /**
   * `_get_panels`: the panels of every provider, concatenated, and the map
   * from each panel key to the provider that offers it, a later provider
   * replacing an earlier one. Providers are numbered by their position.
   */
  method GetPanels(providers: seq<seq<Panel>>) returns (panels: seq<Panel>, owner: map<(string, string), nat>)
    ensures panels == Flatten(providers)
    ensures owner.Keys == Keys(panels)
    ensures LastOwner(providers, owner, |providers|)
  {
    panels := [];
    owner := map[];
    for i := 0 to |providers|
      invariant panels == Flatten(providers[..i])
      invariant owner.Keys == Keys(panels)
      invariant LastOwner(providers, owner, i)
    {
      var p := providers[i];
      ghost var before := owner;
      owner := Claim(owner, p, i);
      OwnerStep(providers, before, owner, i);
      KeysAppend(panels, p);
      assert providers[..i + 1][..i] == providers[..i];
      panels := panels + p;
    }
    assert providers[..|providers|] == providers;
  }

  /** `providers[(panel[0], panel[2])] = provider` for each panel of one provider. */
  method Claim(owner: map<(string, string), nat>, p: seq<Panel>, i: nat) returns (owner': map<(string, string), nat>)
    ensures owner'.Keys == owner.Keys + Keys(p)
    ensures forall k :: k in owner' ==> if k in Keys(p) then owner'[k] == i else k in owner && owner'[k] == owner[k]
  {
    owner' := owner;
    for j := 0 to |p|
      invariant owner'.Keys == owner.Keys + Keys(p[..j])
      invariant forall k :: k in owner' ==> if k in Keys(p[..j]) then owner'[k] == i else k in owner && owner'[k] == owner[k]
    {
      assert p[..j + 1] == p[..j] + [p[j]];
      KeysAppend(p[..j], [p[j]]);
      owner' := owner'[Key(p[j]) := i];
    }
    assert p[..|p|] == p;
  }

  /** Giving every key of provider `i` to `i` keeps the last-owner property one provider further. */
  lemma OwnerStep(providers: seq<seq<Panel>>, before: map<(string, string), nat>, after: map<(string, string), nat>, i: int)
    requires 0 <= i < |providers|
    requires LastOwner(providers, before, i)
    requires forall k :: k in after ==> if k in Keys(providers[i]) then after[k] == i else k in before && after[k] == before[k]
    ensures LastOwner(providers, after, i + 1)
  {
    forall k | k in after
      ensures after[k] < i + 1 && k in Keys(providers[after[k]])
      ensures forall j :: after[k] < j < i + 1 ==> k !in Keys(providers[j])
    {
      if k !in Keys(providers[i]) {
        assert after[k] == before[k];
      }
    }
  }

  /** Why a request cannot be shown an admin panel. */
  datatype PanelError =
    | NoPanels              // no provider offers a panel
    | NoPanelInCategory     // no panel has the requested category (an index error in the source)
    | UnknownPanel          // no provider offers the requested panel

  /** The index of the first panel of category `cat`, if any. */
  function FirstInCategory(panels: seq<Panel>, cat: string): (r: Option<nat>)
    ensures r.Some? ==> r.value < |panels| && panels[r.value].category == cat
    ensures r.Some? ==> forall i :: 0 <= i < r.value ==> panels[i].category != cat
    ensures r.None? ==> forall i :: 0 <= i < |panels| ==> panels[i].category != cat
  {
    if panels == [] then None
    else if panels[0].category == cat then Some(0)
    else
      var r := FirstInCategory(panels[1..], cat);
      if r.Some? then Some(r.value + 1) else None
  }

  /**
   * The panel chosen in `process_request`: the requested category, or the
   * first panel's; the requested panel, or the first panel of that
   * category; and the provider that owns the pair.
   */
  function SelectPanel(panels: seq<Panel>, owner: map<(string, string), nat>, catArg: Option<string>, panelArg: Option<string>)
    : (r: Result<(string, string, nat), PanelError>)
    ensures panels == [] <==> r == Err(NoPanels)
    ensures r.Ok? ==> (r.value.0, r.value.1) in owner && r.value.2 == owner[(r.value.0, r.value.1)]
    ensures r.Ok? ==> r.value.0 == if HasText(catArg) then catArg.value else panels[0].category
    ensures r.Ok? && HasText(panelArg) ==> r.value.1 == panelArg.value
    ensures r.Ok? && !HasText(panelArg) ==>
      FirstInCategory(panels, r.value.0).Some? && r.value.1 == panels[FirstInCategory(panels, r.value.0).value].id
  {
    if panels == [] then Err(NoPanels)
    else
      var cat := if HasText(catArg) then catArg.value else panels[0].category;
      var first := FirstInCategory(panels, cat);
      if !HasText(panelArg) && first.None? then Err(NoPanelInCategory)
      else
        var id := if HasText(panelArg) then panelArg.value else panels[first.value].id;
        if (cat, id) in owner then Ok((cat, id, owner[(cat, id)])) else Err(UnknownPanel)
  }

  /** Without a category or panel in the request, the first panel is shown, served by its owner. */
  lemma DefaultPanel(providers: seq<seq<Panel>>, panels: seq<Panel>, owner: map<(string, string), nat>)
    requires panels == Flatten(providers) && owner.Keys == Keys(panels) && panels != []
    ensures SelectPanel(panels, owner, None, None) == Ok((panels[0].category, panels[0].id, owner[Key(panels[0])]))
  {
    assert Key(panels[0]) in Keys(panels);
  }

  /** A requested panel is found exactly when some provider offers it. */
  lemma RequestedPanel(providers: seq<seq<Panel>>, panels: seq<Panel>, owner: map<(string, string), nat>, cat: string, id: string)
    requires panels == Flatten(providers) && owner.Keys == Keys(panels) && panels != []
    requires cat != "" && id != ""
    ensures SelectPanel(panels, owner, Some(cat), Some(id)).Ok? <==> exists i :: 0 <= i < |panels| && Key(panels[i]) == (cat, id)
  {
  }

  /**
   * A category requested without a panel shows the first panel of that
   * category, served by its owner; it fails exactly when no panel has it.
   */
  lemma RequestedCategory(providers: seq<seq<Panel>>, panels: seq<Panel>, owner: map<(string, string), nat>, cat: string)
    requires panels == Flatten(providers) && owner.Keys == Keys(panels) && panels != []
    requires cat != ""
    ensures var first := FirstInCategory(panels, cat);
      first.None? ==> SelectPanel(panels, owner, Some(cat), None) == Err(NoPanelInCategory)
    ensures var first := FirstInCategory(panels, cat);
      first.Some? ==>
        SelectPanel(panels, owner, Some(cat), None) == Ok((cat, panels[first.value].id, owner[Key(panels[first.value])]))
  {
    var first := FirstInCategory(panels, cat);
    if first.Some? {
      assert Key(panels[first.value]) in Keys(panels);
    }
  }

  // ---------------------------------------------------------------------------
  // Base path of a plugin module

  /** `'.'.join(name.split('.')[:-1])`: the dotted name without its last component. */
  function DropLastComponent(name: string): (r: string)
    ensures |r| < |name| || name == []
    ensures StartsWith(name, r)
  {
    var k := RFind(name, '.');
    if k < 0 then [] else name[..k]
  }

  /** The path with '/' (`os.sep`) turned into '.'. */
  function Dotted(path: string): string {
    ReplaceChar(path, '/', '.')
  }

  /** The base path search from `base` while the module name is `name`. */
  function BasePathFrom(base: string, name: string): (r: string)
    decreases |name|
  {
    if EndsWith(Dotted(base), name) then
      var parent := Dirname(base);
      var rest := DropLastComponent(name);
      if rest == [] then parent else BasePathFrom(parent, rest)
    else base
  }

  /** `_find_base_path`: the directory a module's top-level package lives in. */
  function BasePath(path: string, moduleName: string): string {
    BasePathFrom(StripExtension(path), moduleName)
  }

  lemma StartsWithTrans(a: string, b: string, c: string)
    requires StartsWith(a, b) && StartsWith(b, c)
    ensures StartsWith(a, c)
  {
    assert a[..|c|] == a[..|b|][..|c|];
  }

  /** The search only ever drops trailing directories: its result is a prefix of where it starts. */
  lemma {:induction false} BasePathFromPrefix(base: string, name: string)
    ensures StartsWith(base, BasePathFrom(base, name))
    decreases |name|
  {
    if EndsWith(Dotted(base), name) {
      var parent := Dirname(base);
      var rest := DropLastComponent(name);
      if rest != [] {
        BasePathFromPrefix(parent, rest);
        StartsWithTrans(base, parent, BasePathFrom(parent, rest));
      }
    } else {
      assert base[..|base|] == base;
    }
  }

  /** The base path is a prefix of the path without its extension. */
  lemma BasePathPrefix(path: string, moduleName: string)
    ensures StartsWith(StripExtension(path), BasePath(path, moduleName))
  {
    BasePathFromPrefix(StripExtension(path), moduleName);
  }

  /** A module file whose dotted path does not end in the module name stays where it is, without extension. */
  lemma BasePathUnmatched(path: string, moduleName: string)
    requires !EndsWith(Dotted(StripExtension(path)), moduleName)
    ensures BasePath(path, moduleName) == StripExtension(path)
  {
  }

  /** A one-component module whose dotted path ends in its name lives in the parent directory. */
  lemma BasePathTopLevel(path: string, moduleName: string)
    requires '.' !in moduleName && EndsWith(Dotted(StripExtension(path)), moduleName)
    ensures BasePath(path, moduleName) == Dirname(StripExtension(path))
  {
    assert RFind(moduleName, '.') == -1;
  }

  /** `_find_base_path`, the loop as written. */
  method FindBasePath(path: string, moduleName: string) returns (basePath: string)
    ensures basePath == BasePath(path, moduleName)
    ensures StartsWith(StripExtension(path), basePath)
  {
    basePath := StripExtension(path);
    var name := moduleName;
    BasePathFromPrefix(basePath, name);
    while EndsWith(ReplaceChar(basePath, '/', '.'), name)
      invariant BasePathFrom(basePath, name) == BasePath(path, moduleName)
      invariant StartsWith(StripExtension(path), BasePathFrom(basePath, name))
      decreases |name|
    {
      basePath := Dirname(basePath);
      name := DropLastComponent(name);
      if name == [] {
        break;
      }
    }
  }

  // ---------------------------------------------------------------------------
  // Ordering components and plugins

  /** Python 2 `cmp` on strings: lexicographic on code points. */
  function Cmp(a: string, b: string): (c: int)
    ensures -1 <= c <= 1
  {
    if a == [] && b == [] then 0
    else if a == [] then -1
    else if b == [] then 1
    else if a[0] < b[0] then -1
    else if a[0] > b[0] then 1
    else Cmp(a[1..], b[1..])
  }

  lemma {:induction false} CmpAntisymmetric(a: string, b: string)
    ensures Cmp(a, b) == -Cmp(b, a)
    decreases |a|
  {
    if a != [] && b != [] && a[0] == b[0] {
      CmpAntisymmetric(a[1..], b[1..]);
    }
  }

  lemma {:induction false} CmpZero(a: string, b: string)
    ensures Cmp(a, b) == 0 <==> a == b
    decreases |a|
  {
    if a != [] && b != [] && a[0] == b[0] {
      CmpZero(a[1..], b[1..]);
      if a[1..] == b[1..] {
        assert a == [a[0]] + a[1..] && b == [b[0]] + b[1..];
      }
    }
  }

  lemma {:induction false} CmpTransitive(a: string, b: string, c: string)
    requires Cmp(a, b) <= 0 && Cmp(b, c) <= 0
    ensures Cmp(a, c) <= 0
    decreases |a|
  {
    if a != [] && b != [] && c != [] && a[0] == b[0] && b[0] == c[0] {
      CmpTransitive(a[1..], b[1..], c[1..]);
    }
  }

  /** `x.count(c)`. */
  function Count(s: string, c: char): nat {
    if s == [] then 0 else (if s[0] == c then 1 else 0) + Count(s[1..], c)
  }

  /** `len(x.split('.'))`. */
  function ComponentCount(moduleName: string): nat {
    Count(moduleName, '.') + 1
  }

  /** A component as the plugin panel lists it. */
  datatype ComponentInfo = ComponentInfo(name: string, moduleName: string)

  function CmpInt(a: int, b: int): int {
    if a < b then -1 else if a > b then 1 else 0
  }

  /**
   * `component_order`: by the number of module name components, then by the
   * module name ignoring case, then by the component name ignoring case.
   */
  function ComponentOrder(a: ComponentInfo, b: ComponentInfo): (c: int)
    ensures -1 <= c <= 1
    ensures ComponentCount(a.moduleName) < ComponentCount(b.moduleName) ==> c == -1
    ensures ComponentCount(a.moduleName) > ComponentCount(b.moduleName) ==> c == 1
    ensures ComponentCount(a.moduleName) == ComponentCount(b.moduleName) && Lower(a.moduleName) != Lower(b.moduleName) ==>
      c == Cmp(Lower(a.moduleName), Lower(b.moduleName))
    ensures ComponentCount(a.moduleName) == ComponentCount(b.moduleName) && Lower(a.moduleName) == Lower(b.moduleName) ==>
      c == Cmp(Lower(a.name), Lower(b.name))
  {
    var c := CmpInt(ComponentCount(a.moduleName), ComponentCount(b.moduleName));
    if c != 0 then c
    else
      CmpZero(Lower(a.moduleName), Lower(b.moduleName));
      var c' := Cmp(Lower(a.moduleName), Lower(b.moduleName));
      if c' != 0 then c' else Cmp(Lower(a.name), Lower(b.name))
  }

  /** Swapping the two components negates the comparison. */
  lemma ComponentOrderAntisymmetric(a: ComponentInfo, b: ComponentInfo)
    ensures ComponentOrder(a, b) == -ComponentOrder(b, a)
  {
    CmpAntisymmetric(Lower(a.moduleName), Lower(b.moduleName));
    CmpAntisymmetric(Lower(a.name), Lower(b.name));
    CmpZero(Lower(a.moduleName), Lower(b.moduleName));
  }

  /** Two components compare equal exactly when their names and module names agree up to case. */
  lemma ComponentOrderZero(a: ComponentInfo, b: ComponentInfo)
    ensures ComponentOrder(a, b) == 0 <==> Lower(a.moduleName) == Lower(b.moduleName) && Lower(a.name) == Lower(b.name)
  {
    CmpZero(Lower(a.moduleName), Lower(b.moduleName));
    CmpZero(Lower(a.name), Lower(b.name));
    if Lower(a.moduleName) == Lower(b.moduleName) {
      LowerCount(a.moduleName, b.moduleName);
    }
  }

  /** Lower-casing keeps the dots, so names equal up to case have as many components. */
  lemma {:induction false} LowerCount(a: string, b: string)
    requires Lower(a) == Lower(b)
    ensures Count(a, '.') == Count(b, '.')
    decreases |a|
  {
    if a != [] {
      assert Lower(a)[0] == Lower(b)[0];
      assert Lower(a[1..]) == Lower(a)[1..] && Lower(b[1..]) == Lower(b)[1..];
      LowerCount(a[1..], b[1..]);
    }
  }

  /** The comparison is transitive, so sorting by it is well defined. */
  lemma ComponentOrderTransitive(a: ComponentInfo, b: ComponentInfo, c: ComponentInfo)
    requires ComponentOrder(a, b) <= 0 && ComponentOrder(b, c) <= 0
    ensures ComponentOrder(a, c) <= 0
  {
    var am, bm, cm := Lower(a.moduleName), Lower(b.moduleName), Lower(c.moduleName);
    CmpZero(am, bm);
    CmpZero(bm, cm);
    CmpZero(am, cm);
    if ComponentCount(a.moduleName) == ComponentCount(b.moduleName) == ComponentCount(c.moduleName) {
      CmpTransitive(am, bm, cm);
      if am == bm && bm == cm {
        CmpTransitive(Lower(a.name), Lower(b.name), Lower(c.name));
      } else if am == cm {
        CmpAntisymmetric(am, bm);
        CmpAntisymmetric(bm, cm);
      }
    }
  }

  /** Every name of `s` compares at most 0 with every later one. */
  ghost predicate SortedNames(s: seq<string>) {
    forall i, j :: 0 <= i < j < |s| ==> Cmp(s[i], s[j]) <= 0
  }

  /** `x` placed before the first name it does not follow. */
  function Insert(x: string, s: seq<string>): (r: seq<string>)
    ensures multiset(r) == multiset(s) + multiset{x}
  {
    if s == [] then [x]
    else if Cmp(x, s[0]) <= 0 then [x] + s
    else
      assert s == [s[0]] + s[1..];
      [s[0]] + Insert(x, s[1..])
  }

  /** A name that compares at most 0 with every name of a sorted list can go in front of it. */
  lemma ConsSorted(y: string, rest: seq<string>)
    requires SortedNames(rest)
    requires forall z :: z in multiset(rest) ==> Cmp(y, z) <= 0
    ensures SortedNames([y] + rest)
  {
    assert forall j :: 0 <= j < |rest| ==> rest[j] in multiset(rest);
  }

  /** Inserting into a sorted list keeps it sorted. */
  lemma {:induction false} InsertSorted(x: string, s: seq<string>)
    requires SortedNames(s)
    ensures SortedNames(Insert(x, s))
    decreases |s|
  {
    if s == [] {
    } else if Cmp(x, s[0]) <= 0 {
      forall z | z in multiset(s)
        ensures Cmp(x, z) <= 0
      {
        var j :| 0 <= j < |s| && s[j] == z;
        if j > 0 {
          CmpTransitive(x, s[0], s[j]);
        }
      }
      ConsSorted(x, s);
    } else {
      var tail := s[1..];
      InsertSorted(x, tail);
      CmpAntisymmetric(x, s[0]);
      forall z | z in multiset(Insert(x, tail))
        ensures Cmp(s[0], z) <= 0
      {
        if z != x {
          assert z in multiset(tail);
          var j :| 0 <= j < |tail| && tail[j] == z;
          assert s[j + 1] == z;
        }
      }
      ConsSorted(s[0], Insert(x, tail));
    }
  }

  /** `names.sort()`: the names in order. */
  function Sort(names: seq<string>): (r: seq<string>)
    ensures multiset(r) == multiset(names)
    ensures SortedNames(r)
  {
    if names == [] then []
    else
      assert names == [names[0]] + names[1..];
      InsertSorted(names[0], Sort(names[1..]));
      Insert(names[0], Sort(names[1..]))
  }

  /** The names other than 'Trac', in their order. */
  function Addons(keys: seq<string>): (r: seq<string>)
    ensures multiset(r) == multiset(keys)[("Trac") := 0]
  {
    if keys == [] then []
    else
      var rest := Addons(keys[1..]);
      assert keys == [keys[0]] + keys[1..];
      if keys[0] == "Trac" then rest else [keys[0]] + rest
  }

  /** The plugin list of the plugin panel: 'Trac' first, then the other plugins in name order; none without 'Trac'. */
  function PluginOrder(keys: seq<string>): (r: Option<seq<string>>)
    ensures r.Some? <==> "Trac" in keys
  {
    if "Trac" in keys then Some(["Trac"] + Sort(Addons(keys))) else None
  }

  /** With each project name once, the list starts with 'Trac' and names every plugin exactly once, the others sorted. */
  lemma PluginOrderSpec(keys: seq<string>)
    requires forall i, j :: 0 <= i < j < |keys| ==> keys[i] != keys[j]
    requires "Trac" in keys
    ensures var r := PluginOrder(keys).value;
      && r[0] == "Trac"
      && multiset(r) == multiset(keys)
      && (forall i :: 1 <= i < |r| ==> r[i] != "Trac")
      && SortedNames(r[1..])
  {
    var rest := Sort(Addons(keys));
    var r := ["Trac"] + rest;
    assert r[1..] == rest;
    OnceEach(keys, "Trac");
    assert multiset(r) == multiset{"Trac"} + multiset(rest);
    assert multiset(keys) == multiset(keys)[("Trac") := 0] + multiset{"Trac"};
    forall i | 1 <= i < |r|
      ensures r[i] != "Trac"
    {
      assert r[i] in multiset(rest);
    }
  }

  /** In a list without repeats, a present name occurs once. */
  lemma {:induction false} OnceEach(keys: seq<string>, x: string)
    requires forall i, j :: 0 <= i < j < |keys| ==> keys[i] != keys[j]
    requires x in keys
    ensures multiset(keys)[x] == 1
    decreases |keys|
  {
    assert keys == [keys[0]] + keys[1..];
    if keys[0] == x {
      assert x !in keys[1..];
    } else {
      OnceEach(keys[1..], x);
    }
  }

  // ---------------------------------------------------------------------------
  // Component enablement

  /** The settings `_do_update` writes: each listed component whose enablement differs from the request is switched. */
  function Toggles(components: seq<string>, enabled: seq<string>, isEnabled: string -> bool): map<string, string> {
    if components == [] then map[]
    else
      var init := Toggles(components[..|components| - 1], enabled, isEnabled);
      var c := components[|components| - 1];
      if isEnabled(c) != (c in enabled) then init[c := if isEnabled(c) then "disabled" else "enabled"] else init
  }

  /**
   * A component is switched exactly when it is listed and its enablement
   * differs from the request, and afterwards its setting says what the
   * request asked for.
   */
  lemma {:induction false} TogglesSpec(components: seq<string>, enabled: seq<string>, isEnabled: string -> bool)
    ensures forall c :: c in Toggles(components, enabled, isEnabled) <==> c in components && isEnabled(c) != (c in enabled)
    ensures forall c :: c in Toggles(components, enabled, isEnabled) ==>
      Toggles(components, enabled, isEnabled)[c] == (if c in enabled then "enabled" else "disabled")
    decreases |components|
  {
    if components != [] {
      var init := components[..|components| - 1];
      TogglesSpec(init, enabled, isEnabled);
      assert components == init + [components[|components| - 1]];
    }
  }

  /** Writing a key after a union is writing it in the right-hand map. */
  lemma UpdateUnion(a: map<string, string>, b: map<string, string>, k: string, v: string)
    ensures (a + b)[k := v] == a + b[k := v]
  {
  }

  /** The `[components]` section of the configuration and how often it was saved. */
  class ComponentConfig {
    var settings: map<string, string>
    var saves: nat

    constructor(settings: map<string, string>)
      ensures this.settings == settings && saves == 0
    {
      this.settings := settings;
      saves := 0;
    }

    /**
     * `_do_update`: switch every listed component whose enablement differs
     * from the request, then save once if anything was switched.
     */
    method DoUpdate(components: seq<string>, enabled: seq<string>, isEnabled: string -> bool)
      modifies this
      ensures settings == old(settings) + Toggles(components, enabled, isEnabled)
      ensures saves == old(saves) + (if Toggles(components, enabled, isEnabled) == map[] then 0 else 1)
    {
      var changes := false;
      for i := 0 to |components|
        invariant settings == old(settings) + Toggles(components[..i], enabled, isEnabled)
        invariant changes <==> Toggles(components[..i], enabled, isEnabled) != map[]
        invariant saves == old(saves)
      {
        var component := components[i];
        assert components[..i + 1][..i] == components[..i];
        var isOn := isEnabled(component);
        assert Toggles(components[..i + 1], enabled, isEnabled)
          == if isOn != (component in enabled)
             then Toggles(components[..i], enabled, isEnabled)[component := if isOn then "disabled" else "enabled"]
             else Toggles(components[..i], enabled, isEnabled);
        if isOn != (component in enabled) {
          var value := if isOn then "disabled" else "enabled";
          UpdateUnion(old(settings), Toggles(components[..i], enabled, isEnabled), component, value);
          settings := settings[component := value];
          changes := true;
          assert component in Toggles(components[..i + 1], enabled, isEnabled);
        }
      }
      assert components[..|components|] == components;
      if changes {
        saves := saves + 1;
      }
    }
  }

  // ---------------------------------------------------------------------------
  // Plugin upload

  /** The uploaded `plugin_file` field, with the browser's file name. */
  datatype Upload = Upload(filename: Option<string>)

  datatype InstallError = NoFileUploaded | NotPythonSourceOrEgg | AlreadyInstalled(name: string)

  /** A plugin file name that may be installed. */
  predicate AcceptedName(n: string, installed: set<string>) {
    n != "" && (EndsWith(n, ".egg") || EndsWith(n, ".py")) && n !in installed
  }

  /**
   * The checks of `_do_install`: a file must have been uploaded, its base
   * name must not be empty and must end in '.egg' or '.py', and no plugin of
   * that name may be installed (`installed` stands for the plugins directory).
   */
  function InstallName(upload: Option<Upload>, installed: set<string>): (r: Result<string, InstallError>)
    ensures r.Ok? ==> r.value != "" && (EndsWith(r.value, ".egg") || EndsWith(r.value, ".py")) && r.value !in installed
    ensures r.Ok? ==> forall i :: 0 <= i < |r.value| ==> r.value[i] !in "/\\:"
    ensures r.Ok? <==>
      upload.Some? && HasText(upload.value.filename) && AcceptedName(UploadBasename(upload.value.filename.value), installed)
  {
    if upload.None? || !HasText(upload.value.filename) then Err(NoFileUploaded)
    else
      var name := UploadBasename(upload.value.filename.value);
      if name == [] then Err(NoFileUploaded)
      else if !EndsWith(name, ".egg") && !EndsWith(name, ".py") then Err(NotPythonSourceOrEgg)
      else if name in installed then Err(AlreadyInstalled(name))
      else Ok(name)
  }

  /** A Windows path `dir\file` is reduced to its file name. */
  lemma InstallFromWindowsPath(dir: string, file: string, installed: set<string>)
    requires forall i :: 0 <= i < |file| ==> file[i] !in "/\\:"
    requires AcceptedName(file, installed)
    ensures InstallName(Some(Upload(Some(dir + "\\" + file))), installed) == Ok(file)
  {
    assert dir + "\\" + file == dir + ['\\'] + file;
    BasenameAfterSeparator(dir, '\\', file);
  }

  /** An upload whose name ends in neither '.egg' nor '.py' is refused. */
  lemma InstallRefusesOtherFiles(name: string, installed: set<string>)
    requires forall i :: 0 <= i < |name| ==> name[i] !in "/\\:"
    requires name != "" && !EndsWith(name, ".egg") && !EndsWith(name, ".py")
    ensures InstallName(Some(Upload(Some(name))), installed) == Err(NotPythonSourceOrEgg)
  {
    PlainBasename(name);
  }
}
