/** The host runtime that `AppLoader` relies on but does not own: the module registry
    (`sys.modules`), the import machinery (`__import__`), and the host functions registered
    as callbacks. The import machinery is an oracle fixed when the runtime is made. */
module Host {

  datatype Option<T> = None | Some(value: T)

  /** A loaded module object; `instance` tells two objects for one name apart. */
  datatype Module = Module(name: string, instance: nat)

  /** What running the import machinery on a missing module path does. */
  datatype ImportOutcome =
      /** The module was loaded; `alsoLoaded` holds what was imported on the way (its
          parent packages, the modules its own code imports). */
    | Loaded(loaded: Module, alsoLoaded: map<string, Module>)
      /** The module's code raised; `partial` holds what was imported before it did. */
    | Failed(partial: map<string, Module>)

  /** The exceptions the modelled code lets through. */
  datatype Error =
    | AttributeError(attribute: string)
    | ImportError(path: string)

  datatype Outcome<T> = Ok(value: T) | Fail(error: Error)

  /** A host function, known by its identity only. */
  type Callback = string

  /** One invocation of a callback with the module list of a group load. */
  datatype Call = Call(callback: Callback, group: string, modules: seq<Module>)

  /** What the runtime records: the registry, the module paths whose import machinery
      ran (in order), and the callback invocations (in order). */
  datatype HostState = HostState(modules: map<string, Module>, imported: seq<string>, calls: seq<Call>)

  /** The registry after importing the missing `path`: new entries are added, entries
      already present are kept as they are, and a module whose code raised is not
      registered. */
  function AfterImport(registry: map<string, Module>, path: string, outcome: ImportOutcome): (r: map<string, Module>)
    requires path !in registry
    ensures forall k :: k in registry ==> k in r && r[k] == registry[k]
    ensures path in r <==> outcome.Loaded?
    ensures outcome.Loaded? ==> r[path] == outcome.loaded
  {
    match outcome
    case Loaded(m, extra) => (extra + registry)[path := m]
    case Failed(partial) => (partial - {path}) + registry
  }

  class Runtime {
    /** `sys.modules`. */
    var modules: map<string, Module>
    /** The module paths whose import machinery ran, in order. */
    var imported: seq<string>
    /** The callback invocations, in order. */
    var calls: seq<Call>
    /** What importing each module path does. */
    const importer: string -> ImportOutcome

    function State(): HostState
      reads this
    {
      HostState(modules, imported, calls)
    }

    constructor (modules: map<string, Module>, importer: string -> ImportOutcome)
      ensures State() == HostState(modules, [], []) && this.importer == importer
    {
      this.modules := modules;
      this.imported := [];
      this.calls := [];
      this.importer := importer;
    }

    /** `__import__(path)`: a registered module is returned as it is; a missing one is
        imported, which registers it (or, when its code raises, fails). */
    method Import(path: string) returns (ok: bool)
      modifies this
      ensures path in old(modules) ==> ok && State() == old(State())
      ensures path !in old(modules) ==>
                ok == importer(path).Loaded? &&
                modules == AfterImport(old(modules), path, importer(path)) &&
                imported == old(imported) + [path] && calls == old(calls)
    {
      if path in modules {
        return true;
      }
      var outcome := importer(path);
      modules := AfterImport(modules, path, outcome);
      imported := imported + [path];
      ok := outcome.Loaded?;
    }

    /** Calling a host callback with a group's module list. */
    method Invoke(callback: Callback, group: string, mods: seq<Module>)
      modifies this
      ensures State() == old(State()).(calls := old(calls) + [Call(callback, group, mods)])
    {
      calls := calls + [Call(callback, group, mods)];
    }
  }
}
