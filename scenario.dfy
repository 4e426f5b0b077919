/** The end-to-end example of the loader's documentation, with the default groups: an
    application directory `app` holding `utils.py`, `models/user.py` and
    `views/home.py` is indexed as `models` = [`app.models.user`] and
    `views` = [`app.views.home`]; `app.utils` lands in neither group.

    The names are passed as parameters fixed by `requires`, and the module paths are
    written as the concatenations they are, so that no proof has to compare long
    string literals character by character. */
module Scenario {
  import opened Glob
  import opened Paths
  import opened PathFacts
  import opened Classify
  import opened Loader

  /** The directory names of the example are plain segments, none a bytecode cache. */
  lemma ExampleDirectories(app: string, models: string, views: string)
    requires app == "app" && models == "models" && views == "views"
    ensures Segment(app) && Segment(models) && Segment(views)
    ensures !EndsWith(app, CacheDir) && !EndsWith(models, CacheDir) && !EndsWith(views, CacheDir)
  {
  }

  /** The file stems of the example are ordinary module names. */
  lemma ExampleStems(utils: string, user: string, home: string)
    requires utils == "utils" && user == "user" && home == "home"
    ensures utils != [] && NoOuterDots(utils) && utils != PackageInit
    ensures user != [] && NoOuterDots(user) && user != PackageInit
    ensures home != [] && NoOuterDots(home) && home != PackageInit
  {
  }

  /** Three directories, each contributing one module path, discover those paths in
      walk order. */
  lemma ThreeDirectories(a: WalkEntry, b: WalkEntry, c: WalkEntry, pa: string, pb: string, pc: string)
    requires DirPaths(a) == [pa] && DirPaths(b) == [pb] && DirPaths(c) == [pc]
    ensures Discovered([a, b, c]) == [pa, pb, pc]
  {
    DiscoveredSnoc([], a);
    assert [] + [a] == [a];
    DiscoveredSnoc([a], b);
    assert [a] + [b] == [a, b];
    DiscoveredSnoc([a, b], c);
    assert [a, b] + [c] == [a, b, c];
  }

  /** Of three paths only the middle one is selected when only it matches. */
  lemma SelectMiddle(u: string, m: string, v: string, patterns: seq<string>)
    requires !AnyMatch(u, patterns) && AnyMatch(m, patterns) && !AnyMatch(v, patterns)
    ensures Select([u, m, v], patterns) == [m]
  {
    var ps := [u, m, v];
    assert ps[..2] == [u, m] && [u, m][..1] == [u] && [u][..0] == [];
    assert Select([u], patterns) == [];
    assert Select([u, m], patterns) == [m];
  }

  /** Of three paths only the last one is selected when only it matches. */
  lemma SelectLast(u: string, m: string, v: string, patterns: seq<string>)
    requires !AnyMatch(u, patterns) && !AnyMatch(m, patterns) && AnyMatch(v, patterns)
    ensures Select([u, m, v], patterns) == [v]
  {
    var ps := [u, m, v];
    assert ps[..2] == [u, m] && [u, m][..1] == [u] && [u][..0] == [];
    assert Select([u], patterns) == [];
    assert Select([u, m], patterns) == [];
  }

  /** A default pattern `*w*` (with `w` ordinary) selects the paths containing `w`. */
  lemma DefaultPatternMatch(p: string, w: string)
    requires Plain(w)
    ensures AnyMatch(p, ["*" + w + "*"]) <==> Contains(p, w)
  {
    var ps := ["*" + w + "*"];
    assert ps[1..] == [];
    SubstringPattern(p, w);
  }

  lemma ModelPattern(w: string, pattern: string)
    requires w == "model" && pattern == "*model*"
    ensures Plain(w) && pattern == "*" + w + "*" && w[2] == 'd'
  {
  }

  lemma ViewPattern(w: string, pattern: string)
    requires w == "view" && pattern == "*view*"
    ensures Plain(w) && pattern == "*" + w + "*" && w[3] == 'w'
  {
  }

  /** `*model*` takes `app.models.user` only: the other two paths have no `d`. */
  lemma ModelsSelection(app: string, utils: string, models: string, user: string, views: string, home: string,
                        w: string, pattern: string)
    requires app == "app" && utils == "utils" && models == "models" && user == "user"
    requires views == "views" && home == "home"
    requires w == "model" && pattern == "*model*"
    ensures var u, m, v := app + "." + utils, app + "." + models + "." + user, app + "." + views + "." + home;
            Select([u, m, v], [pattern]) == [m]
  {
    var u, m, v := app + "." + utils, app + "." + models + "." + user, app + "." + views + "." + home;
    ModelPattern(w, pattern);
    assert 'd' !in app && 'd' !in "." && 'd' !in utils && 'd' !in views && 'd' !in home;
    DefaultPatternMatch(u, w);
    DefaultPatternMatch(m, w);
    DefaultPatternMatch(v, w);
    ContainsNeedsChar(u, w, 'd');
    assert models == w + "s";
    assert m == (app + ".") + w + ("s" + "." + user);
    ContainsInside(app + ".", w, "s" + "." + user);
    ContainsNeedsChar(v, w, 'd');
    SelectMiddle(u, m, v, [pattern]);
  }

  /** `*view*` takes `app.views.home` only: the other two paths have no `w`. */
  lemma ViewsSelection(app: string, utils: string, models: string, user: string, views: string, home: string,
                       w: string, pattern: string)
    requires app == "app" && utils == "utils" && models == "models" && user == "user"
    requires views == "views" && home == "home"
    requires w == "view" && pattern == "*view*"
    ensures var u, m, v := app + "." + utils, app + "." + models + "." + user, app + "." + views + "." + home;
            Select([u, m, v], [pattern]) == [v]
  {
    var u, m, v := app + "." + utils, app + "." + models + "." + user, app + "." + views + "." + home;
    ViewPattern(w, pattern);
    assert 'w' !in app && 'w' !in "." && 'w' !in utils && 'w' !in models && 'w' !in user;
    DefaultPatternMatch(u, w);
    DefaultPatternMatch(m, w);
    DefaultPatternMatch(v, w);
    ContainsNeedsChar(u, w, 'w');
    ContainsNeedsChar(m, w, 'w');
    assert views == w + "s";
    assert v == (app + ".") + w + ("s" + "." + home);
    ContainsInside(app + ".", w, "s" + "." + home);
    SelectLast(u, m, v, [pattern]);
  }

  /** The index of two uniquely named groups, given what each selects. */
  lemma TwoGroupIndex(groups: seq<Group>, walk: seq<WalkEntry>, first: seq<string>, second: seq<string>)
    requires |groups| == 2 && UniqueNames(groups)
    requires Select(Discovered(walk), groups[0].patterns) == first
    requires Select(Discovered(walk), groups[1].patterns) == second
    ensures Index(groups, walk) == map[groups[0].name := first, groups[1].name := second]
  {
    IndexAt(groups, walk, 0);
    IndexAt(groups, walk, 1);
    assert groups == [groups[0], groups[1]];
    assert Names(groups) == {groups[0].name, groups[1].name};
  }

  lemma DefaultGroupsShape(models: string, views: string, modelPattern: string, viewPattern: string)
    requires models == "models" && views == "views" && modelPattern == "*model*" && viewPattern == "*view*"
    ensures DefaultGroups == [Group(models, [modelPattern]), Group(views, [viewPattern])]
    ensures UniqueNames(DefaultGroups)
  {
  }

  /** The whole example: the walk of `app` indexed with the default groups. */
  lemma EndToEnd(app: string, utils: string, models: string, user: string, views: string, home: string)
    requires app == "app" && utils == "utils" && models == "models" && user == "user"
    requires views == "views" && home == "home"
    ensures var walk := [WalkEntry(app, [utils + SourceSuffix]),
                         WalkEntry(app + "/" + models, [user + SourceSuffix]),
                         WalkEntry(app + "/" + views, [home + SourceSuffix])];
            Index(DefaultGroups, walk) == map[models := [app + "." + models + "." + user],
                                              views := [app + "." + views + "." + home]]
  {
    var a, b, c := WalkEntry(app, [utils + SourceSuffix]),
                   WalkEntry(app + "/" + models, [user + SourceSuffix]),
                   WalkEntry(app + "/" + views, [home + SourceSuffix]);
    var u, m, v := app + "." + utils, app + "." + models + "." + user, app + "." + views + "." + home;
    ExampleDirectories(app, models, views);
    ExampleStems(utils, user, home);
    TopLevelModule(app, utils);
    NestedModule(app, models, user);
    NestedModule(app, views, home);
    ThreeDirectories(a, b, c, u, m, v);
    var mp, vp := "*model*", "*view*";
    DefaultGroupsShape(models, views, mp, vp);
    ModelsSelection(app, utils, models, user, views, home, "model", mp);
    ViewsSelection(app, utils, models, user, views, home, "view", vp);
    TwoGroupIndex(DefaultGroups, [a, b, c], [m], [v]);
  }
}
