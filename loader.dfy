/** The `AppLoader` object of flask_apploader/__init__.py: its configuration, the
    discovery walk that builds `grouped_module_paths`, group loading and callbacks. */
module Loader {
  import opened Util
  import opened Paths
  import opened PathFacts
  import opened Classify
  import opened Host
  import opened Loading
  import opened LoadingFacts

  /** A Flask application, seen through the walk of its root directory. */
  datatype App = App(walk: seq<WalkEntry>)

  /** The groups used when none are configured. */
  const DefaultGroups: seq<Group> := [Group("models", ["*model*"]), Group("views", ["*view*"])]

  /** The groups loaded by `init_app` when none are configured. */
  const DefaultLoadOnInit: seq<string> := ["models"]

  /** Python's `value or default` on an optional collection: a missing or an empty
      value gives the default. */
  function OrDefault<T>(value: Option<seq<T>>, default: seq<T>): seq<T> {
    if value.Some? && value.value != [] then value.value else default
  }

  class AppLoader {
    /** `self.groups`, in the dictionary's order. */
    const groups: seq<Group>
    /** `self.callbacks`: per group, one callback or a collection of them. */
    const callbacks: map<string, PyValue<Callback>>
    /** `self.load_on_init`. */
    const loadOnInit: seq<string>
    /** `self.app`, absent until `init_app`. */
    var app: Option<App>
    /** `self.grouped_module_paths`, absent until `find_modules`. */
    var index: Option<map<string, seq<string>>>

    /** Group names are unique (they are dictionary keys), the configuration is never
        empty, and the index has exactly one key per group. */
    predicate Valid()
      reads this
    {
      UniqueNames(groups) && groups != [] && loadOnInit != [] &&
      (index.Some? ==> index.value.Keys == Names(groups))
    }

    /** `AppLoader(groups=..., callbacks=..., load_on_init=...)` without an app: a missing
        or empty configuration value falls back to its default. */
    constructor (groups: Option<seq<Group>>, callbacks: Option<map<string, PyValue<Callback>>>,
                 loadOnInit: Option<seq<string>>)
      requires groups.Some? ==> UniqueNames(groups.value)
      ensures this.groups == (if groups.Some? && groups.value != [] then groups.value else DefaultGroups)
      ensures this.callbacks == (if callbacks.Some? then callbacks.value else map[])
      ensures this.loadOnInit == (if loadOnInit.Some? && loadOnInit.value != [] then loadOnInit.value else DefaultLoadOnInit)
      ensures app == None && index == None
      ensures Valid()
    {
      this.groups := OrDefault(groups, DefaultGroups);
      this.callbacks := if callbacks.Some? then callbacks.value else map[];
      this.loadOnInit := OrDefault(loadOnInit, DefaultLoadOnInit);
      this.app := None;
      this.index := None;
    }

    /** `find_modules`: resets the index to one empty list per group, then files every
        module path of the app's walk with each group one of whose patterns matches it.
        Without an app the reset happens and reading `self.app` then fails. */
    method FindModules() returns (out: Outcome<()>)
      requires Valid()
      modifies this
      ensures Valid() && app == old(app)
      ensures app.None? ==> out == Fail(AttributeError("app")) && index == Some(Grouped(groups, []))
      ensures app.Some? ==> out == Ok(()) && index == Some(Index(groups, app.value.walk))
    {
      var grouped: map<string, seq<string>> := map n | n in Names(groups) :: [];
      NothingGrouped(groups);
      index := Some(grouped);
      if app.None? {
        return Fail(AttributeError("app"));
      }
      var walk := app.value.walk;
      var d := 0;
      ghost var acc: seq<string> := [];
      while d < |walk|
        invariant 0 <= d <= |walk| && app == old(app)
        invariant acc == Discovered(walk[..d])
        invariant grouped == Grouped(groups, acc)
      {
        var entry := walk[d];
        assert walk[..d + 1] == walk[..d] + [entry];
        DiscoveredSnoc(walk[..d], entry);
        grouped := FileDirectory(entry, grouped, acc);
        acc := acc + DirPaths(entry);
        d := d + 1;
      }
      assert walk[..|walk|] == walk;
      IndexIsGrouped(groups, walk);
      index := Some(grouped);
      return Ok(());
    }

    /** One turn of the walk in `find_modules`: unless the directory is a bytecode cache,
        the module path of each of its source files is filed with the groups. */
    method FileDirectory(entry: WalkEntry, grouped: map<string, seq<string>>, ghost seen: seq<string>)
      returns (r: map<string, seq<string>>)
      requires UniqueNames(groups) && grouped == Grouped(groups, seen)
      ensures r == Grouped(groups, seen + DirPaths(entry))
    {
      r := grouped;
      var relDir := ReplaceChar(entry.relDir, '\\', '/');
      if EndsWith(relDir, CacheDir) {
        assert DirPaths(entry) == [];
        assert seen + [] == seen;
        return;
      }
      var base := Strip(ReplaceChar(relDir, '/', '.'), '.');
      assert base == ModuleBase(entry.relDir);
      var files := entry.filenames;
      var f := 0;
      ghost var acc := seen;
      assert seen + FilePaths(base, files[..0]) == seen;
      while f < |files|
        invariant 0 <= f <= |files|
        invariant acc == seen + FilePaths(base, files[..f])
        invariant r == Grouped(groups, acc)
      {
        var v := files[f];
        FilePathsSnoc(base, files, f);
        if EndsWith(v, SourceSuffix) {
          var name := v[..|v| - 3];
          if name == PackageInit {
            name := "";
          }
          var path := Strip(base + "." + name, '.');
          assert path == ModulePath(base, Stem(v));
          r := FileModule(path, r, acc);
          acc := acc + [path];
        }
        f := f + 1;
      }
      assert files[..|files|] == files;
      assert DirPaths(entry) == FilePaths(base, files);
    }

    /** The innermost loop of `find_modules`: the module path `path` is appended to the
        list of every group one of whose patterns matches it, in the groups' order. */
    method FileModule(path: string, grouped: map<string, seq<string>>, ghost seen: seq<string>)
      returns (r: map<string, seq<string>>)
      requires UniqueNames(groups) && grouped == Grouped(groups, seen)
      ensures r == Grouped(groups, seen + [path])
    {
      r := grouped;
      var k := 0;
      while k < |groups|
        invariant 0 <= k <= |groups|
        invariant r == FiledUpTo(groups, grouped, path, k) && r.Keys == grouped.Keys
      {
        GroupNameIsKey(groups, seen, k);
        if AnyMatch(path, groups[k].patterns) {
          r := r[groups[k].name := r[groups[k].name] + [path]];
        }
        k := k + 1;
      }
      FiledAll(groups, seen, path);
    }

    /** `_execute_callbacks(group, modules)`: every callback of the group, in order, once,
        with the whole module list. */
    method ExecuteCallbacks(group: string, modules: seq<Module>, rt: Runtime)
      modifies rt
      ensures rt.State() == old(rt.State()).(calls := old(rt.calls) + CallsFor(GroupCallbacks(callbacks, group), group, modules))
    {
      var cbs := EnsureIterable(if group in callbacks then callbacks[group] else Iterable([])).items;
      var i := 0;
      while i < |cbs|
        invariant 0 <= i <= |cbs|
        invariant rt.State() == old(rt.State()).(calls := old(rt.calls) + CallsFor(cbs[..i], group, modules))
      {
        rt.Invoke(cbs[i], group, modules);
        assert CallsFor(cbs[..i + 1], group, modules) == CallsFor(cbs[..i], group, modules) + [Call(cbs[i], group, modules)];
        i := i + 1;
      }
      assert cbs[..|cbs|] == cbs;
    }

    /** `load_group(group)`: imports the group's missing modules in order, collects one
        registry entry per stored path, then runs the group's callbacks with that list.
        A failing import ends the load before any callback; an index that was never
        built is a missing attribute. */
    method LoadGroup(group: string, rt: Runtime) returns (out: Outcome<seq<Module>>)
      requires Valid()
      modifies rt
      ensures index.None? ==> out == Fail(AttributeError("grouped_module_paths")) && rt.State() == old(rt.State())
      ensures index.Some? ==>
                var r := GroupLoad(old(rt.State()), rt.importer, GroupPaths(index.value, group),
                                   GroupCallbacks(callbacks, group), group);
                rt.State() == r.state && out == r.outcome
    {
      if index.None? {
        return Fail(AttributeError("grouped_module_paths"));
      }
      var modules: seq<Module> := [];
      var paths := if group in index.value then index.value[group] else [];
      ghost var st0 := rt.State();
      LoadStart(st0, rt.importer, paths);
      var i := 0;
      while i < |paths|
        invariant 0 <= i <= |paths|
        invariant LoadedUpTo(st0, rt.State(), rt.importer, paths, i)
        invariant modules == ModulesOf(rt.modules, paths[..i])
      {
        var p := paths[i];
        if p !in rt.modules {
          ghost var before := rt.State();
          var ok := rt.Import(p);
          if !ok {
            LoadStepFailed(st0, before, rt.importer, paths, GroupCallbacks(callbacks, group), group, i);
            return Fail(ImportError(p));
          }
          LoadStepImported(st0, before, rt.importer, paths, i);
        } else {
          LoadStepPresent(st0, rt.State(), rt.importer, paths, i);
        }
        modules := modules + [rt.modules[p]];
        i := i + 1;
      }
      assert paths[..|paths|] == paths;
      assert paths == GroupPaths(index.value, group);
      LoadEnd(st0, rt.State(), rt.importer, paths, GroupCallbacks(callbacks, group), group);
      ExecuteCallbacks(group, modules, rt);
      return Ok(modules);
    }

    /** `init_app(app)`: records the app, builds the index, then loads the groups of
        `load_on_init` in order; the first failing load ends it. */
    method InitApp(app: App, rt: Runtime) returns (out: Outcome<()>)
      requires Valid()
      modifies this, rt
      ensures Valid() && this.app == Some(app) && index == Some(Index(groups, app.walk))
      ensures (rt.State(), out) == InitLoads(old(rt.State()), rt.importer, Index(groups, app.walk), callbacks, loadOnInit)
    {
      this.app := Some(app);
      var found := FindModules();
      var k := 0;
      while k < |loadOnInit|
        invariant 0 <= k <= |loadOnInit|
        invariant Valid() && this.app == Some(app) && index == Some(Index(groups, app.walk))
        invariant InitLoads(old(rt.State()), rt.importer, Index(groups, app.walk), callbacks, loadOnInit)
                  == InitLoads(rt.State(), rt.importer, Index(groups, app.walk), callbacks, loadOnInit[k..])
      {
        var r := LoadGroup(loadOnInit[k], rt);
        if r.Fail? {
          return Fail(r.error);
        }
        assert loadOnInit[k..][1..] == loadOnInit[k + 1..];
        k := k + 1;
      }
      return Ok(());
    }
  }

  /** `AppLoader(app, groups, callbacks, load_on_init)`: the configuration with its
      defaults, then `init_app` when an app is given. */
  method NewAppLoader(app: Option<App>, groups: Option<seq<Group>>, callbacks: Option<map<string, PyValue<Callback>>>,
                      loadOnInit: Option<seq<string>>, rt: Runtime) returns (loader: AppLoader, out: Outcome<()>)
    requires groups.Some? ==> UniqueNames(groups.value)
    modifies rt
    ensures fresh(loader) && loader.Valid()
    ensures loader.groups == OrDefault(groups, DefaultGroups) && loader.loadOnInit == OrDefault(loadOnInit, DefaultLoadOnInit)
    ensures loader.callbacks == if callbacks.Some? then callbacks.value else map[]
    ensures app.None? ==> loader.app == None && loader.index == None && out == Ok(()) && rt.State() == old(rt.State())
    ensures app.Some? ==>
              loader.app == app && loader.index == Some(Index(loader.groups, app.value.walk)) &&
              (rt.State(), out) == InitLoads(old(rt.State()), rt.importer, Index(loader.groups, app.value.walk),
                                             loader.callbacks, loader.loadOnInit)
  {
    loader := new AppLoader(groups, callbacks, loadOnInit);
    out := Ok(());
    if app.Some? {
      out := loader.InitApp(app.value, rt);
    }
  }
}
