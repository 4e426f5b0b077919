/** The group-load protocol of `AppLoader.load_group` and `_execute_callbacks`, stated on
    pure host states: import what is missing, collect the registry entries, then call
    every callback of the group once with the whole list. */
module Loading {
  import opened Host
  import opened Util

  /** Where resolving a group's module paths got to: the registry, the module paths
      whose import ran, and the path whose import failed, if one did. */
  datatype Resolution = Resolution(registry: map<string, Module>, imported: seq<string>, failed: Option<string>)

  /** The import loop of `load_group`: each path, in order, is imported only when it is
      missing from the registry; a failing import ends the loop. */
  function Resolve(registry: map<string, Module>, importer: string -> ImportOutcome, paths: seq<string>): Resolution
  {
    if paths == [] then Resolution(registry, [], None)
    else ResolveStep(Resolve(registry, importer, paths[..|paths| - 1]), importer, paths[|paths| - 1])
  }

  /** One turn of the import loop, for the path `p`. */
  function ResolveStep(prev: Resolution, importer: string -> ImportOutcome, p: string): Resolution {
    if prev.failed.Some? || p in prev.registry then prev
    else
      var outcome := importer(p);
      Resolution(AfterImport(prev.registry, p, outcome), prev.imported + [p],
                 if outcome.Loaded? then None else Some(p))
  }

  predicate AllPresent(registry: map<string, Module>, paths: seq<string>) {
    forall p :: p in paths ==> p in registry
  }

  predicate NoDuplicates(s: seq<string>) {
    forall i, j :: 0 <= i < j < |s| ==> s[i] != s[j]
  }

  /** The registry entries of `paths`, one per path, in order. */
  function ModulesOf(registry: map<string, Module>, paths: seq<string>): seq<Module>
    requires AllPresent(registry, paths)
  {
    seq(|paths|, i requires 0 <= i < |paths| => registry[paths[i]])
  }

  /** One call per callback, each with the whole module list. */
  function CallsFor(callbacks: seq<Callback>, group: string, mods: seq<Module>): seq<Call> {
    seq(|callbacks|, i requires 0 <= i < |callbacks| => Call(callbacks[i], group, mods))
  }

  datatype LoadResult = LoadResult(state: HostState, outcome: Outcome<seq<Module>>)

  /** `load_group` for a group whose stored module paths are `paths` and whose
      callbacks are `callbacks`. */
  function GroupLoad(st: HostState, importer: string -> ImportOutcome, paths: seq<string>,
                     callbacks: seq<Callback>, group: string): LoadResult
  {
    var res := Resolve(st.modules, importer, paths);
    var st' := st.(modules := res.registry, imported := st.imported + res.imported);
    if res.failed.Some? then LoadResult(st', Fail(ImportError(res.failed.value)))
    else
      ResolveFacts(st.modules, importer, paths);
      var mods := ModulesOf(res.registry, paths);
      LoadResult(st'.(calls := st.calls + CallsFor(callbacks, group, mods)), Ok(mods))
  }

  /** `self.grouped_module_paths.get(group, [])`. */
  function GroupPaths(index: map<string, seq<string>>, group: string): seq<string> {
    if group in index then index[group] else []
  }

  /** `ensure_iterable(self.callbacks.get(group, []))`. */
  function GroupCallbacks(callbacks: map<string, PyValue<Callback>>, group: string): seq<Callback> {
    EnsureIterable(if group in callbacks then callbacks[group] else Iterable([])).items
  }

  /** The loads of `init_app`: each named group in order; the first failure ends them. */
  function InitLoads(st: HostState, importer: string -> ImportOutcome, index: map<string, seq<string>>,
                     callbacks: map<string, PyValue<Callback>>, names: seq<string>): (HostState, Outcome<()>)
    decreases |names|
  {
    if names == [] then (st, Ok(()))
    else
      var r := GroupLoad(st, importer, GroupPaths(index, names[0]), GroupCallbacks(callbacks, names[0]), names[0]);
      if r.outcome.Fail? then (r.state, Fail(r.outcome.error))
      else InitLoads(r.state, importer, index, callbacks, names[1..])
  }

  /** Entries already registered are never replaced by resolving. */
  lemma {:induction false} ResolveKeepsEntries(registry: map<string, Module>, importer: string -> ImportOutcome, paths: seq<string>)
    ensures var res := Resolve(registry, importer, paths);
            forall k :: k in registry ==> k in res.registry && res.registry[k] == registry[k]
    decreases |paths|
  {
    if paths != [] {
      ResolveKeepsEntries(registry, importer, paths[..|paths| - 1]);
    }
  }

  /** The bookkeeping that holds after every turn of the import loop, for the paths
      seen so far. */
  predicate Consistent(res: Resolution, registry: map<string, Module>, importer: string -> ImportOutcome, paths: seq<string>) {
    (forall q :: q in res.imported ==> q in paths && q !in registry) &&
    NoDuplicates(res.imported) &&
    (res.failed.None? ==> AllPresent(res.registry, paths)) &&
    (res.failed.None? ==> forall q :: q in res.imported ==> q in res.registry) &&
    (res.failed.Some? ==>
       var q := res.failed.value;
       q in paths && q !in res.registry && importer(q).Failed? &&
       res.imported != [] && res.imported[|res.imported| - 1] == q)
  }

  lemma StepConsistent(prev: Resolution, registry: map<string, Module>, importer: string -> ImportOutcome,
                       init: seq<string>, p: string)
    requires Consistent(prev, registry, importer, init)
    requires forall k :: k in registry ==> k in prev.registry
    ensures Consistent(ResolveStep(prev, importer, p), registry, importer, init + [p])
  {
    var res := ResolveStep(prev, importer, p);
    var paths := init + [p];
    assert forall q :: q in init ==> q in paths;
    if prev.failed.None? && p !in prev.registry {
      assert res.imported == prev.imported + [p];
      assert p !in prev.imported;
    }
  }

  /** What resolving guarantees: only missing paths of the group are imported, each at
      most once; a completed resolution leaves every path registered; a failed one
      names a path of the group whose import raised, the last one imported, and leaves
      it unregistered. */
  lemma {:induction false} ResolveFacts(registry: map<string, Module>, importer: string -> ImportOutcome, paths: seq<string>)
    ensures Consistent(Resolve(registry, importer, paths), registry, importer, paths)
    ensures var res := Resolve(registry, importer, paths);
            forall k :: k in registry ==> k in res.registry && res.registry[k] == registry[k]
    decreases |paths|
  {
    ResolveKeepsEntries(registry, importer, paths);
    if paths != [] {
      var init := paths[..|paths| - 1];
      ResolveFacts(registry, importer, init);
      ResolveKeepsEntries(registry, importer, init);
      StepConsistent(Resolve(registry, importer, init), registry, importer, init, paths[|paths| - 1]);
      assert init + [paths[|paths| - 1]] == paths;
    }
  }

  /** Once a resolution has failed, the remaining paths are not looked at. */
  lemma {:induction false} ResolveStopsAtFailure(registry: map<string, Module>, importer: string -> ImportOutcome,
                                                  paths: seq<string>, i: nat)
    requires i <= |paths| && Resolve(registry, importer, paths[..i]).failed.Some?
    ensures Resolve(registry, importer, paths) == Resolve(registry, importer, paths[..i])
    decreases |paths| - i
  {
    if i < |paths| {
      assert paths[..i + 1][..i] == paths[..i];
      ResolveStopsAtFailure(registry, importer, paths, i + 1);
    } else {
      assert paths[..i] == paths;
    }
  }

  /** When every path is already registered, resolving imports nothing and changes
      nothing. */
  lemma {:induction false} ResolveWhenAllPresent(registry: map<string, Module>, importer: string -> ImportOutcome,
                                                  paths: seq<string>)
    requires AllPresent(registry, paths)
    ensures Resolve(registry, importer, paths) == Resolution(registry, [], None)
  {
    if paths != [] {
      var init := paths[..|paths| - 1];
      assert AllPresent(registry, init) by {
        forall q | q in init ensures q in registry { assert q in paths; }
      }
      ResolveWhenAllPresent(registry, importer, init);
      assert paths[|paths| - 1] in paths;
    }
  }

  /** The state of a load after the first `i` stored paths were handled without a
      failure: everything they needed is imported and registered. */
  predicate LoadedUpTo(st0: HostState, st: HostState, importer: string -> ImportOutcome, paths: seq<string>, i: nat) {
    i <= |paths| &&
    var res := Resolve(st0.modules, importer, paths[..i]);
    res.failed.None? && st == st0.(modules := res.registry, imported := st0.imported + res.imported) &&
    AllPresent(st.modules, paths[..i])
  }
}

module LoadingFacts {
  import opened Host
  import opened Util
  import opened Loading

  /** Growing the registry without replacing entries does not change the module
      objects found for paths already present. */
  lemma ModulesOfStable(r1: map<string, Module>, r2: map<string, Module>, paths: seq<string>)
    requires AllPresent(r1, paths)
    requires forall k :: k in r1 ==> k in r2 && r2[k] == r1[k]
    ensures AllPresent(r2, paths) && ModulesOf(r2, paths) == ModulesOf(r1, paths)
  {
  }

  /** Every callback appears in the calls of one load exactly as often as in the
      group's callback list, each time with that group and the whole module list. */
  lemma {:induction false} CallsForCounts(callbacks: seq<Callback>, group: string, mods: seq<Module>, c: Callback)
    ensures multiset(CallsFor(callbacks, group, mods))[Call(c, group, mods)] == multiset(callbacks)[c]
    decreases |callbacks|
  {
    var calls := CallsFor(callbacks, group, mods);
    if callbacks != [] {
      var init, last := callbacks[..|callbacks| - 1], callbacks[|callbacks| - 1];
      CallsForCounts(init, group, mods, c);
      assert calls == CallsFor(init, group, mods) + [Call(last, group, mods)];
      assert callbacks == init + [last];
      assert Call(last, group, mods) == Call(c, group, mods) <==> last == c;
    }
  }

  /** The calls of one load follow the callback list's order, and none of them gets
      another group or another module list. */
  lemma CallsForOrder(callbacks: seq<Callback>, group: string, mods: seq<Module>)
    ensures |CallsFor(callbacks, group, mods)| == |callbacks|
    ensures forall k :: 0 <= k < |callbacks| ==> CallsFor(callbacks, group, mods)[k].callback == callbacks[k]
    ensures forall x :: x in CallsFor(callbacks, group, mods) ==> x.group == group && x.modules == mods
  {
  }

  /** A load that succeeds returns one registry entry per stored path, in order, leaves
      every path registered and every earlier entry as it was, imports only paths that
      were missing, each once, and then calls each callback with the returned list.
      A load that fails reports an import error for one of its paths and calls no
      callback. */
  lemma GroupLoadFacts(st: HostState, importer: string -> ImportOutcome, paths: seq<string>,
                       callbacks: seq<Callback>, group: string)
    ensures var r := GroupLoad(st, importer, paths, callbacks, group);
            (forall k :: k in st.modules ==> k in r.state.modules && r.state.modules[k] == st.modules[k]) &&
            |r.state.imported| >= |st.imported| && r.state.imported[..|st.imported|] == st.imported &&
            (forall q :: q in r.state.imported[|st.imported|..] ==> q in paths && q !in st.modules) &&
            NoDuplicates(r.state.imported[|st.imported|..])
    ensures var r := GroupLoad(st, importer, paths, callbacks, group);
            r.outcome.Ok? ==>
              AllPresent(r.state.modules, paths) &&
              |r.outcome.value| == |paths| &&
              (forall i :: 0 <= i < |paths| ==> r.outcome.value[i] == r.state.modules[paths[i]]) &&
              r.state.calls == st.calls + CallsFor(callbacks, group, r.outcome.value)
    ensures var r := GroupLoad(st, importer, paths, callbacks, group);
            r.outcome.Fail? ==>
              r.outcome.error.ImportError? && r.outcome.error.path in paths &&
              r.outcome.error.path !in r.state.modules &&
              r.state.calls == st.calls
  {
    ResolveFacts(st.modules, importer, paths);
    var res := Resolve(st.modules, importer, paths);
    assert (st.imported + res.imported)[|st.imported|..] == res.imported;
  }

  /** Loading a group a second time after a successful load imports nothing, returns
      the very same module objects and calls the callbacks again. */
  lemma {:induction false} SecondLoadImportsNothing(st: HostState, importer: string -> ImportOutcome, paths: seq<string>,
                                                    callbacks: seq<Callback>, group: string)
    requires GroupLoad(st, importer, paths, callbacks, group).outcome.Ok?
    ensures var r1 := GroupLoad(st, importer, paths, callbacks, group);
            var r2 := GroupLoad(r1.state, importer, paths, callbacks, group);
            r2.outcome == r1.outcome &&
            r2.state == r1.state.(calls := r1.state.calls + CallsFor(callbacks, group, r1.outcome.value))
  {
    var r1 := GroupLoad(st, importer, paths, callbacks, group);
    ResolveFacts(st.modules, importer, paths);
    ResolveWhenAllPresent(r1.state.modules, importer, paths);
    assert r1.state.imported + [] == r1.state.imported;
  }

  /** A group with no stored paths, an unknown group in particular, loads nothing and
      still calls every callback once, with the empty list. */
  lemma UnknownGroupLoadsNothing(st: HostState, importer: string -> ImportOutcome, index: map<string, seq<string>>,
                                 callbacks: seq<Callback>, group: string)
    requires group !in index
    ensures GroupPaths(index, group) == []
    ensures GroupLoad(st, importer, GroupPaths(index, group), callbacks, group)
            == LoadResult(st.(calls := st.calls + CallsFor(callbacks, group, [])), Ok([]))
  {
    assert st.imported + [] == st.imported;
    assert ModulesOf(st.modules, []) == [];
  }

  /** The callbacks of a group: none when the group has no entry, a single callback
      as the only one, a collection of callbacks as it stands. */
  lemma GroupCallbacksCases(callbacks: map<string, PyValue<Callback>>, group: string)
    ensures group !in callbacks ==> GroupCallbacks(callbacks, group) == []
    ensures group in callbacks && callbacks[group].Plain? ==> GroupCallbacks(callbacks, group) == [callbacks[group].item]
    ensures group in callbacks && callbacks[group].Iterable? ==> GroupCallbacks(callbacks, group) == callbacks[group].items
  {
  }

  /** When the loads of `init_app` all succeed, every module path of every group named
      is registered, and no entry that existed before was replaced. */
  lemma {:induction false} InitLoadsRegistersAll(st: HostState, importer: string -> ImportOutcome, index: map<string, seq<string>>,
                                                 callbacks: map<string, PyValue<Callback>>, names: seq<string>)
    ensures var (st', out) := InitLoads(st, importer, index, callbacks, names);
            (forall k :: k in st.modules ==> k in st'.modules && st'.modules[k] == st.modules[k]) &&
            (out.Ok? ==> forall n :: n in names ==> AllPresent(st'.modules, GroupPaths(index, n)))
    decreases |names|
  {
    if names != [] {
      var r := GroupLoad(st, importer, GroupPaths(index, names[0]), GroupCallbacks(callbacks, names[0]), names[0]);
      GroupLoadFacts(st, importer, GroupPaths(index, names[0]), GroupCallbacks(callbacks, names[0]), names[0]);
      if r.outcome.Ok? {
        InitLoadsRegistersAll(r.state, importer, index, callbacks, names[1..]);
        var (st', out) := InitLoads(r.state, importer, index, callbacks, names[1..]);
        if out.Ok? {
          forall n | n in names ensures AllPresent(st'.modules, GroupPaths(index, n)) {
            if n != names[0] { assert n in names[1..]; }
          }
        }
      }
    }
  }

  lemma LoadStart(st0: HostState, importer: string -> ImportOutcome, paths: seq<string>)
    ensures LoadedUpTo(st0, st0, importer, paths, 0) && ModulesOf(st0.modules, paths[..0]) == []
  {
    assert paths[..0] == [];
    assert st0.imported + [] == st0.imported;
  }

  /** A path already registered is taken as it is. */
  lemma LoadStepPresent(st0: HostState, st: HostState, importer: string -> ImportOutcome, paths: seq<string>, i: nat)
    requires LoadedUpTo(st0, st, importer, paths, i) && i < |paths| && paths[i] in st.modules
    ensures LoadedUpTo(st0, st, importer, paths, i + 1)
    ensures ModulesOf(st.modules, paths[..i + 1]) == ModulesOf(st.modules, paths[..i]) + [st.modules[paths[i]]]
  {
    assert paths[..i + 1] == paths[..i] + [paths[i]];
  }

  /** A missing path whose import succeeds is registered, and the entries collected so
      far are unchanged. */
  lemma LoadStepImported(st0: HostState, st: HostState, importer: string -> ImportOutcome, paths: seq<string>, i: nat)
    requires LoadedUpTo(st0, st, importer, paths, i) && i < |paths| && paths[i] !in st.modules
    requires importer(paths[i]).Loaded?
    ensures var st' := st.(modules := AfterImport(st.modules, paths[i], importer(paths[i])), imported := st.imported + [paths[i]]);
            LoadedUpTo(st0, st', importer, paths, i + 1) &&
            ModulesOf(st'.modules, paths[..i + 1]) == ModulesOf(st.modules, paths[..i]) + [st'.modules[paths[i]]]
  {
    var p := paths[i];
    var st' := st.(modules := AfterImport(st.modules, p, importer(p)), imported := st.imported + [p]);
    assert paths[..i + 1] == paths[..i] + [p];
    assert paths[..i + 1][..i] == paths[..i];
    ModulesOfStable(st.modules, st'.modules, paths[..i]);
  }

  /** A missing path whose import fails ends the load with that import's error. */
  lemma LoadStepFailed(st0: HostState, st: HostState, importer: string -> ImportOutcome, paths: seq<string>,
                       callbacks: seq<Callback>, group: string, i: nat)
    requires LoadedUpTo(st0, st, importer, paths, i) && i < |paths| && paths[i] !in st.modules
    requires importer(paths[i]).Failed?
    ensures GroupLoad(st0, importer, paths, callbacks, group)
            == LoadResult(st.(modules := AfterImport(st.modules, paths[i], importer(paths[i])), imported := st.imported + [paths[i]]),
                          Fail(ImportError(paths[i])))
  {
    assert paths[..i + 1][..i] == paths[..i];
    ResolveStopsAtFailure(st0.modules, importer, paths, i + 1);
  }

  /** Once every path was handled, what is left of the load is calling the callbacks. */
  lemma LoadEnd(st0: HostState, st: HostState, importer: string -> ImportOutcome, paths: seq<string>,
                callbacks: seq<Callback>, group: string)
    requires LoadedUpTo(st0, st, importer, paths, |paths|)
    ensures AllPresent(st.modules, paths)
    ensures GroupLoad(st0, importer, paths, callbacks, group)
            == LoadResult(st.(calls := st.calls + CallsFor(callbacks, group, ModulesOf(st.modules, paths))),
                          Ok(ModulesOf(st.modules, paths)))
  {
    assert paths[..|paths|] == paths;
  }
}
