# flask_apploader in Dafny

A model of `AppLoader`, the one class of flask_apploader, and of its helper `ensure_iterable`.
An `AppLoader` holds three settings: named groups of shell-style patterns, callbacks per group, and
the groups to load when an application is attached. `init_app(app)` does three things:

1. It records the application.
2. It walks the application's root directory and turns every `.py` file into a dotted module path,
   with the root directory's own name as the first segment. It files each path under every group
   one of whose patterns matches it. The result is `grouped_module_paths`.
3. It loads the configured groups. Loading a group imports each of its module paths that is not
   yet in the module registry (`sys.modules`). It collects the registry entry of every path, in
   stored order and with repeats kept, then calls each callback of the group once with that list.

The model is split by concern:

- `Util` (util.py): `EnsureIterable` over a value that is either plain or iterable.
- `Glob`: `fnmatch`'s matching (`*`, `?`, `[...]`, `[!...]`, whole-name match, no case folding),
  with reference lemmas for plain and `*w*` patterns.
- `Paths` and `PathFacts`: the string arithmetic of `find_modules`.
  - `ReplaceChar` models `replace`, and `LStrip`, `RStrip` and `Strip` model `strip`.
  - `SlashPath`, `IsBytecodeCache`, `ModuleBase`, `Stem` and `ModulePath` are the module-path
    steps.
  - `DirPaths` gives one directory's module paths, and `Discovered` gives the whole walk's.
- `Classify`: `Index`, the reference definition of `grouped_module_paths`, with its lemmas.
  `Grouped`/`FiledUpTo` specify the loops that build it.
- `Host`: the runtime `AppLoader` only uses.
  - `Runtime` is a class holding the registry, the log of imports and the log of callback calls.
  - The import machinery is a fixed function `importer` that says, per module path, whether
    importing succeeds and what it registers on the way.
- `Loading` and `LoadingFacts`: `GroupLoad` and `InitLoads`, the pure specification of
  `load_group` and `init_app` on host states, with their lemmas.
- `Loader`: `class AppLoader` with the constructor and the methods `FindModules`
  (`find_modules`), `LoadGroup` (`load_group`), `ExecuteCallbacks` (`_execute_callbacks`) and
  `InitApp` (`init_app`).
  - Each loop is implemented as in the source and proved against the functions above.
  - `NewAppLoader` is `AppLoader(app, ...)` with an app given.
- `Scenario`: the three-file example application indexed with the default groups.

Behaviour of the code that the model keeps:

- **Empty settings use the defaults.** `groups or {...}`, `callbacks or {}` and
  `load_on_init or ['models']` treat an empty mapping or list as missing.
- **Missing attributes.**
  - `find_modules` without an app first resets the index, then fails reading `self.app`.
  - `load_group` before any `find_modules` fails on the missing `grouped_module_paths`.
  - Both cases are the error outcome `AttributeError`.
- **Only the cache directory itself is skipped.** A directory is skipped when its relative path
  ends with `__pycache__` (line 90). Directories below it are still walked, and their files
  still count (`PathFacts.BelowBytecodeCacheNotSkipped`).
- **Failed imports.**
  - A failing import propagates out of `load_group`. No callback runs, and the loads of
    `init_app` that come after it do not run.
  - The registry keeps whatever the failed import registered before it raised, but not the
    failing module itself.
  - Entries already in the registry are never replaced.
- **Unknown groups.** A group name that is not in the index loads nothing and still calls its
  callbacks, with the empty list.

## Model

| member | source | states |
|---|---|---|
| `Util.EnsureIterable` | flask_apploader/util.py:4-8 | The result can always be iterated; a value that can already be iterated comes back unchanged; a plain value becomes the one-element list holding it; either way the items are what the caller meant |
| `Util.EnsureIterableIdempotent` | flask_apploader/util.py:4-8 | Normalising an already normalised value changes nothing |
| `Util.EnsureIterablePreservesMeaning` | flask_apploader/util.py:4-8 | A value and its normal form are iterated alike |
| `Glob.PlainPatternMatchesItself` | flask_apploader/__init__.py:102 | A pattern without `*`, `?` or `[` matches exactly the one name equal to it: the match is on the whole name, not a substring |
| `Glob.StarPatternMatchesEverything` | flask_apploader/__init__.py:102 | The pattern `*` matches every module path, dots included |
| `Glob.SubstringPattern` | flask_apploader/__init__.py:102 | For a plain word `w`, the pattern `*w*` matches a module path if and only if `w` occurs in it |
| `Classify.AnyMatchMeansSomePattern` | flask_apploader/__init__.py:102 | A group takes a path if and only if at least one of its patterns matches the path |
| `PathFacts.StripFacts` | flask_apploader/__init__.py:93 | `strip('.')` removes exactly the leading and trailing dots: the result is a contiguous part of the input, only dots lie around it, and it neither starts nor ends with a dot |
| `PathFacts.ModuleBaseShape` | flask_apploader/__init__.py:87-93 | Every directory's module base contains no `/` and no `\` and has no dot at either end |
| `PathFacts.ModulePathShape` | flask_apploader/__init__.py:98 | No module path has a dot at either end, and it has no separator unless its base or file stem had one |
| `PathFacts.ModuleBaseOfPosixPath` | flask_apploader/__init__.py:87-93 | For a relative directory without backslashes and without outer dots or slashes, the module base is that path with each `/` turned into `.` |
| `PathFacts.InitFileIsPackage` | flask_apploader/__init__.py:96-98 | The file `__init__.py` yields the directory's own module base, with no trailing `.__init__` |
| `PathFacts.ModuleInPackage` | flask_apploader/__init__.py:98 | In a directory with a non-empty base, the file `stem.py` (an ordinary stem) yields `base.stem` |
| `PathFacts.ModuleAtTop` | flask_apploader/__init__.py:98 | With an empty base the module path is the stem itself, without a leading dot |
| `PathFacts.FilePathsContents` | flask_apploader/__init__.py:95-98 | A directory contributes a module path exactly for each of its files that ends in `.py`, each path built from that file's stem; other files contribute nothing |
| `PathFacts.CacheTestOnPosixPath` | flask_apploader/__init__.py:87-90 | For a path without backslashes, the skip test is a plain test for the suffix `__pycache__` |
| `PathFacts.BytecodeCacheIgnored` | flask_apploader/__init__.py:90-91 | Inserting a `__pycache__` directory anywhere in the walk changes nothing about the discovered module paths |
| `PathFacts.BelowBytecodeCacheNotSkipped` | flask_apploader/__init__.py:90-91 | A directory whose own name does not end in `__pycache__` is not skipped, whatever directory (a cache directory included) it lies in |
| `PathFacts.DiscoveredAppend` | flask_apploader/__init__.py:85 | The walk's module paths are the paths of its parts, concatenated in walk order |
| `PathFacts.TopLevelModule` | flask_apploader/__init__.py:85-98 | The root directory `top` holding `stem.py` contributes exactly the module path `top.stem` |
| `PathFacts.NestedModule` | flask_apploader/__init__.py:85-98 | A subdirectory `top/sub`, not a cache, holding `stem.py` contributes exactly the module path `top.sub.stem` |
| `PathFacts.DocumentedExample` | flask_apploader/__init__.py:22-23 | `myapp/models/foo.py` gives the module path `myapp.models.foo` |
| `Classify.Index` | flask_apploader/__init__.py:83 | The index has exactly one key per configured group name |
| `Classify.IndexAt` | flask_apploader/__init__.py:101-103 | A group's list holds the discovered module paths that match one of its patterns |
| `Classify.IndexMembership` | flask_apploader/__init__.py:101-103 | A path is in a group's list if and only if it was discovered and one of that group's patterns matches it; so a path matched by one group and not another is in the first list only |
| `Classify.UnmatchedGroupIsEmpty` | flask_apploader/__init__.py:83-103 | A group whose patterns match no discovered path still has a key, mapped to the empty list |
| `Classify.SelectCounts` | flask_apploader/__init__.py:101-103 | A matching path appears in a group's list as many times as it was discovered; a non-matching one never appears |
| `Classify.SelectKeepsOrder` | flask_apploader/__init__.py:101-103 | A group's list is a subsequence of the discovery order |
| `Classify.HoldsIsGrouped` | flask_apploader/__init__.py:83-103 | The per-group description of the index (the right keys, and each group's list the matching paths in order) determines the dictionary uniquely |
| `Classify.FiledUpToFacts` | flask_apploader/__init__.py:101-103 | After the first `k` groups have been tested, the path is appended to each of those groups that matches it, in order; the other groups and the key set are unchanged |
| `Classify.FiledAll` | flask_apploader/__init__.py:101-103 | One pass over all groups adds a newly discovered path to the lists exactly as discovering it adds it to the index |
| `Loader.AppLoader.constructor` | flask_apploader/__init__.py:33-50 | A missing or empty `groups` or `load_on_init` falls back to its default; missing callbacks become the empty mapping; no app and no index yet |
| `Loader.NewAppLoader` | flask_apploader/__init__.py:33-53 | The defaults are applied; without an app nothing else happens; with an app the end state is that of `init_app` |
| `Loader.AppLoader.FindModules` | flask_apploader/__init__.py:78-103 | Without an app: the index is reset to one empty list per group, then `AttributeError('app')`. With an app: the index is `Index` of the groups and the app's walk. The settings and the app are unchanged |
| `Loader.AppLoader.FileDirectory` | flask_apploader/__init__.py:86-103 | One walked directory extends the partial index exactly by the module paths that directory contributes |
| `Loader.AppLoader.FileModule` | flask_apploader/__init__.py:101-103 | Testing each group's patterns against one path extends the partial index exactly as discovering that path does |
| `Loader.AppLoader.ExecuteCallbacks` | flask_apploader/__init__.py:74-76 | The group's callbacks are called in order, once each, each with the whole module list; nothing else in the runtime changes |
| `Loader.AppLoader.LoadGroup` | flask_apploader/__init__.py:61-72 | Without an index: `AttributeError('grouped_module_paths')` and nothing changes. Otherwise the runtime's new state and the outcome are those of `GroupLoad` on the group's stored paths, or on `[]` for an unknown group |
| `Loader.AppLoader.InitApp` | flask_apploader/__init__.py:55-59 | The app is recorded and the index built; then the groups of `load_on_init` are loaded in order, and the first failure ends the run. State and outcome are those of `InitLoads` |
| `Host.AfterImport` | flask_apploader/__init__.py:66-68 | Importing a missing path keeps every registry entry that existed; the path becomes registered if and only if its import succeeded, and then with the imported module |
| `Host.Runtime.Import` | flask_apploader/__init__.py:66-68 | A registered path is not imported again and nothing changes; a missing one runs the import machinery once and is logged |
| `Host.Runtime.Invoke` | flask_apploader/__init__.py:76 | A callback call is appended to the log; the registry is untouched |
| `Loading.ResolveKeepsEntries` | flask_apploader/__init__.py:65-69 | Resolving a group's paths never replaces an entry that was already in the registry |
| `Loading.ResolveFacts` | flask_apploader/__init__.py:65-69 | Only missing paths of the group are imported, each at most once. A completed resolution leaves every path registered. A failed one names the last path imported, whose import raised, and leaves it unregistered |
| `Loading.ResolveStopsAtFailure` | flask_apploader/__init__.py:65-68 | After a failing import the remaining paths of the group are not looked at |
| `Loading.ResolveWhenAllPresent` | flask_apploader/__init__.py:65-68 | When every path is already registered, nothing is imported and the registry is unchanged |
| `LoadingFacts.GroupLoadFacts` | flask_apploader/__init__.py:61-72 | Earlier entries are kept as they were. Only missing paths of the group are imported, without repeats. On success there is one registry entry per stored path, in order, every path is registered, and the callbacks are called with that list. On failure an `ImportError` names an unregistered path of the group, and no callback is called |
| `LoadingFacts.SecondLoadImportsNothing` | flask_apploader/__init__.py:61-72 | Loading a group again after a successful load imports nothing, returns the same module objects, and calls the callbacks once more |
| `LoadingFacts.UnknownGroupLoadsNothing` | flask_apploader/__init__.py:64-72 | A group that is not in the index has no paths; loading it changes nothing but still calls each callback once with the empty list |
| `LoadingFacts.CallsForCounts` | flask_apploader/__init__.py:74-76 | Each callback is called with the group's whole module list exactly as often as it occurs in the group's callback list |
| `LoadingFacts.CallsForOrder` | flask_apploader/__init__.py:74-76 | The calls follow the callback list's order, and no call gets another group or another module list |
| `LoadingFacts.GroupCallbacksCases` | flask_apploader/__init__.py:75 | A group without an entry has no callbacks; a single callback is the only one; a collection of callbacks is taken as it stands |
| `LoadingFacts.InitLoadsRegistersAll` | flask_apploader/__init__.py:55-59 | The loads of `init_app` never replace a registry entry; when they all succeed, every path of every group named in `load_on_init` is registered |
| `LoadingFacts.LoadStepFailed` | flask_apploader/__init__.py:66-68 | A missing path whose import raises ends the whole load with that path's `ImportError`, keeping the registry as the failed import left it |
| `Scenario.ModelsSelection` | flask_apploader/__init__.py:47 | `*model*` takes `app.models.user` and neither `app.utils` nor `app.views.home` |
| `Scenario.ViewsSelection` | flask_apploader/__init__.py:48 | `*view*` takes `app.views.home` and neither `app.utils` nor `app.models.user` |
| `Scenario.EndToEnd` | flask_apploader/__init__.py:46-48 | With the default groups, the walk of `app` holding `utils.py`, `models/user.py` and `views/home.py` gives the index `models` = [`app.models.user`] and `views` = [`app.views.home`]; `app.utils` is in neither |

## Left out

- `os.walk` and `os.path.relpath` are filesystem I/O. The walk is an input: the directories in
  walk order, each with its path relative to the root's parent (`relpath` with `..` already
  resolved) and its file names. Traversal order, symbolic links and errors during the walk are
  the operating system's business. `os.walk` drops unreadable directories silently, and the
  model raises no filesystem error either.
- `__import__` is the host interpreter's import machinery. It appears only as the fixed function
  `importer` from module path to outcome, and the code run by a module at import time is not
  modelled beyond what it registers.
- `logger.debug` in `load_group`, the `six.iteritems` indirection and `from __future__` imports
  do not affect behaviour and are left out.
- Callbacks are opaque: calling one is logged as a `Call` with the module list. A callback that
  raises, changes the registry or mutates the list it was given is not modelled. The code hands
  the same list object to every callback; the model hands over the same value, so aliasing is
  not captured.
- `fnmatch.fnmatch` applies `os.path.normcase` first, which folds case on Windows. The model
  matches case-sensitively, as on POSIX.
- A range `[z-a]` with its ends in the wrong order is modelled as an empty range, as current
  Python treats it. Old Python versions raise `re.error` there instead.
- `Loader.AppLoader.constructor`: group patterns are a sequence of strings. A group configured
  with a bare string pattern is iterated by the code character by character, since
  `find_modules` does not pass patterns through `ensure_iterable`; the model does not represent
  that configuration. Repeated group names cannot occur in a Python dictionary, so they are
  required away.
- `Util.EnsureIterable`: `hasattr(v, '__iter__')` is modelled by the two shapes of `PyValue`.
  A string callback value is not represented, though on Python 3 it would count as iterable.
- Dictionaries (`groups`, `callbacks`, `grouped_module_paths`) are modelled in their iteration
  order as a sequence of groups and as maps. The order of the groups decides only the order of
  the appends in `find_modules`, which no caller can observe.
- The packaging metadata (setup.py) is not part of this model.
