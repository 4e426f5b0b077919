/** Classification of discovered module paths into named groups of glob patterns: the
    index that `AppLoader.find_modules` builds in `grouped_module_paths`. */
module Classify {
  import opened Glob
  import opened Paths

  /** One entry of the `groups` configuration: a name and its glob patterns. */
  datatype Group = Group(name: string, patterns: seq<string>)

  /** Python's `any(fnmatch.fnmatch(name, x) for x in patterns)`. */
  predicate AnyMatch(name: string, patterns: seq<string>)
    decreases |patterns|
  {
    patterns != [] && (Matches(name, patterns[0]) || AnyMatch(name, patterns[1..]))
  }

  /** The paths, in order and with repeats, that some pattern matches. */
  function Select(paths: seq<string>, patterns: seq<string>): (r: seq<string>)
    ensures |r| <= |paths|
  {
    if paths == [] then []
    else
      var p := paths[|paths| - 1];
      Select(paths[..|paths| - 1], patterns) + (if AnyMatch(p, patterns) then [p] else [])
  }

  /** The group names, which a dictionary keeps unique. */
  function Names(groups: seq<Group>): set<string> {
    set g | g in groups :: g.name
  }

  predicate UniqueNames(groups: seq<Group>) {
    forall i, j :: 0 <= i < |groups| && 0 <= j < |groups| && groups[i].name == groups[j].name ==> i == j
  }

  /** The patterns of the (first) group called `name`. */
  function PatternsOf(groups: seq<Group>, name: string): seq<string>
    requires name in Names(groups)
  {
    if groups[0].name == name then groups[0].patterns else PatternsOf(groups[1..], name)
  }

  /** The index that discovery over `walk` produces: one key per group, holding the
      discovered module paths that one of the group's patterns matches. */
  function Index(groups: seq<Group>, walk: seq<WalkEntry>): (idx: map<string, seq<string>>)
    ensures idx.Keys == Names(groups)
  {
    map n | n in Names(groups) :: Select(Discovered(walk), PatternsOf(groups, n))
  }

  /** `a` is `b` with some elements left out, the rest in their order. */
  predicate IsSubsequence(a: seq<string>, b: seq<string>)
    decreases |b|
  {
    if a == [] then true
    else if b == [] then false
    else if a[|a| - 1] == b[|b| - 1] then IsSubsequence(a[..|a| - 1], b[..|b| - 1])
    else IsSubsequence(a, b[..|b| - 1])
  }

  /** `any` over the patterns: some pattern of the list matches. */
  lemma {:induction false} AnyMatchMeansSomePattern(name: string, patterns: seq<string>)
    ensures AnyMatch(name, patterns) <==> exists i :: 0 <= i < |patterns| && Matches(name, patterns[i])
    decreases |patterns|
  {
    if patterns != [] {
      AnyMatchMeansSomePattern(name, patterns[1..]);
      if AnyMatch(name, patterns[1..]) {
        var i :| 0 <= i < |patterns[1..]| && Matches(name, patterns[1..][i]);
        assert Matches(name, patterns[i + 1]);
      }
      if exists i :: 0 <= i < |patterns| && Matches(name, patterns[i]) {
        var i :| 0 <= i < |patterns| && Matches(name, patterns[i]);
        if i > 0 {
          assert patterns[1..][i - 1] == patterns[i];
        }
      }
    }
  }

  /** Nothing is de-duplicated and nothing unmatched slips in: a matched path occurs in
      the selection exactly as often as among the discovered paths, an unmatched one not
      at all. */
  lemma {:induction false} SelectCounts(paths: seq<string>, patterns: seq<string>, p: string)
    ensures multiset(Select(paths, patterns))[p] == if AnyMatch(p, patterns) then multiset(paths)[p] else 0
  {
    if paths != [] {
      var init, last := paths[..|paths| - 1], paths[|paths| - 1];
      SelectCounts(init, patterns, p);
      assert paths == init + [last];
      assert multiset(paths) == multiset(init) + multiset{last};
    }
  }

  /** The selection keeps discovery order. */
  lemma {:induction false} SelectKeepsOrder(paths: seq<string>, patterns: seq<string>)
    ensures IsSubsequence(Select(paths, patterns), paths)
  {
    if paths != [] {
      var init, last := paths[..|paths| - 1], paths[|paths| - 1];
      SelectKeepsOrder(init, patterns);
      var r := Select(paths, patterns);
      if AnyMatch(last, patterns) {
        assert r[..|r| - 1] == Select(init, patterns);
      } else {
        assert r == Select(init, patterns);
        assert paths == init + [last];
        SubsequenceOfLonger(r, init, last);
      }
    }
  }

  /** A subsequence of `b` is a subsequence of `b` extended. */
  lemma {:induction false} SubsequenceOfLonger(a: seq<string>, b: seq<string>, x: string)
    requires IsSubsequence(a, b)
    ensures IsSubsequence(a, b + [x])
    decreases |b|, 1
  {
    var bx := b + [x];
    assert bx[..|bx| - 1] == b;
    if a != [] && a[|a| - 1] == x {
      SubsequencePrefix(a, b);
    }
  }

  /** Dropping the last element of a subsequence keeps it a subsequence. */
  lemma {:induction false} SubsequencePrefix(a: seq<string>, b: seq<string>)
    requires a != [] && IsSubsequence(a, b)
    ensures IsSubsequence(a[..|a| - 1], b)
    decreases |b|, 0
  {
    var a', b', y := a[..|a| - 1], b[..|b| - 1], b[|b| - 1];
    assert b == b' + [y];
    if a[|a| - 1] == y {
      SubsequenceOfLonger(a', b', y);
    } else {
      SubsequencePrefix(a, b');
      SubsequenceOfLonger(a', b', y);
    }
  }

  /** With unique names, a group's own patterns are the ones its name looks up. */
  lemma {:induction false} PatternsOfAt(groups: seq<Group>, k: nat)
    requires UniqueNames(groups) && k < |groups|
    ensures groups[k].name in Names(groups)
    ensures PatternsOf(groups, groups[k].name) == groups[k].patterns
  {
    assert groups[k] in groups;
    if k > 0 {
      var rest := groups[1..];
      assert rest[k - 1] == groups[k];
      assert groups[0].name != groups[k].name;
      assert UniqueNames(rest) by {
        forall i, j | 0 <= i < |rest| && 0 <= j < |rest| && rest[i].name == rest[j].name ensures i == j {
          assert groups[i + 1].name == groups[j + 1].name;
        }
      }
      PatternsOfAt(rest, k - 1);
    }
  }

  /** Each group's list holds the discovered paths its patterns select. */
  lemma IndexAt(groups: seq<Group>, walk: seq<WalkEntry>, k: nat)
    requires UniqueNames(groups) && k < |groups|
    ensures groups[k].name in Index(groups, walk)
    ensures Index(groups, walk)[groups[k].name] == Select(Discovered(walk), groups[k].patterns)
  {
    PatternsOfAt(groups, k);
  }

  /** A module path is in group `n` exactly when it was discovered and some pattern of
      `n` matches it; a path can so land in several groups. */
  lemma IndexMembership(groups: seq<Group>, walk: seq<WalkEntry>, n: string, p: string)
    requires n in Names(groups)
    ensures p in Index(groups, walk)[n] <==> p in Discovered(walk) && AnyMatch(p, PatternsOf(groups, n))
  {
    SelectCounts(Discovered(walk), PatternsOf(groups, n), p);
  }

  /** A group whose patterns match nothing discovered still has its key, with an empty list. */
  lemma UnmatchedGroupIsEmpty(groups: seq<Group>, walk: seq<WalkEntry>, n: string)
    requires n in Names(groups)
    requires forall p :: p in Discovered(walk) ==> !AnyMatch(p, PatternsOf(groups, n))
    ensures n in Index(groups, walk) && Index(groups, walk)[n] == []
  {
    SelectNothing(Discovered(walk), PatternsOf(groups, n));
  }

  lemma {:induction false} SelectNothing(paths: seq<string>, patterns: seq<string>)
    requires forall p :: p in paths ==> !AnyMatch(p, patterns)
    ensures Select(paths, patterns) == []
  {
    if paths != [] {
      assert paths[|paths| - 1] in paths;
      SelectNothing(paths[..|paths| - 1], patterns);
    }
  }

  /** The index for an already discovered list of module paths. */
  function Grouped(groups: seq<Group>, paths: seq<string>): map<string, seq<string>> {
    map n | n in Names(groups) :: Select(paths, PatternsOf(groups, n))
  }

  /** Before any path is filed, every group's list is empty. */
  lemma NothingGrouped(groups: seq<Group>)
    ensures (map n | n in Names(groups) :: []) == Grouped(groups, [])
  {
  }

  lemma GroupNameIsKey(groups: seq<Group>, paths: seq<string>, k: nat)
    requires k < |groups|
    ensures groups[k].name in Grouped(groups, paths)
  {
    assert groups[k] in groups;
  }

  /** `m` holds, under each group's name, the paths that group's patterns select. */
  predicate Holds(m: map<string, seq<string>>, groups: seq<Group>, paths: seq<string>) {
    m.Keys == Names(groups) &&
    forall i :: 0 <= i < |groups| ==> groups[i].name in m && m[groups[i].name] == Select(paths, groups[i].patterns)
  }

  lemma IndexIsGrouped(groups: seq<Group>, walk: seq<WalkEntry>)
    ensures Index(groups, walk) == Grouped(groups, Discovered(walk))
  {
  }

  /** With unique names, holding each group's selection is being the index. */
  lemma HoldsIsGrouped(m: map<string, seq<string>>, groups: seq<Group>, paths: seq<string>)
    requires UniqueNames(groups)
    ensures Holds(m, groups, paths) <==> m == Grouped(groups, paths)
  {
    var g := Grouped(groups, paths);
    forall i | 0 <= i < |groups| ensures groups[i].name in g && g[groups[i].name] == Select(paths, groups[i].patterns) {
      PatternsOfAt(groups, i);
    }
    if Holds(m, groups, paths) {
      forall n | n in m ensures m[n] == g[n] {
        var h :| h in groups && h.name == n;
        var i :| 0 <= i < |groups| && groups[i] == h;
      }
    }
  }

  lemma SelectSnoc(paths: seq<string>, p: string, patterns: seq<string>)
    ensures Select(paths + [p], patterns) == Select(paths, patterns) + (if AnyMatch(p, patterns) then [p] else [])
  {
    var ps := paths + [p];
    assert ps[..|ps| - 1] == paths;
  }

  /** The index after the groups before position `k` were offered the path `p`: each of
      them whose patterns match `p` has it appended. */
  function FiledUpTo(groups: seq<Group>, m: map<string, seq<string>>, p: string, k: nat): map<string, seq<string>>
    requires k <= |groups|
  {
    if k == 0 then m
    else
      var prev := FiledUpTo(groups, m, p, k - 1);
      var g := groups[k - 1];
      if AnyMatch(p, g.patterns) && g.name in prev then prev[g.name := prev[g.name] + [p]] else prev
  }

  lemma {:induction false} FiledUpToKeys(groups: seq<Group>, m: map<string, seq<string>>, p: string, k: nat)
    requires k <= |groups| && forall i :: 0 <= i < |groups| ==> groups[i].name in m
    ensures FiledUpTo(groups, m, p, k).Keys == m.Keys
  {
    if k > 0 {
      FiledUpToKeys(groups, m, p, k - 1);
    }
  }

  lemma {:induction false} FiledUpToFacts(groups: seq<Group>, m: map<string, seq<string>>, p: string, k: nat)
    requires UniqueNames(groups) && k <= |groups|
    requires forall i :: 0 <= i < |groups| ==> groups[i].name in m
    ensures var r := FiledUpTo(groups, m, p, k);
            r.Keys == m.Keys &&
            (forall i :: 0 <= i < k ==> r[groups[i].name] == m[groups[i].name] + (if AnyMatch(p, groups[i].patterns) then [p] else [])) &&
            (forall i :: k <= i < |groups| ==> r[groups[i].name] == m[groups[i].name])
  {
    if k > 0 {
      FiledUpToFacts(groups, m, p, k - 1);
    }
  }

  /** Offering `p` to every group turns the index of `paths` into the index of `paths`
      with `p` appended. */
  lemma FiledAll(groups: seq<Group>, paths: seq<string>, p: string)
    requires UniqueNames(groups)
    ensures FiledUpTo(groups, Grouped(groups, paths), p, |groups|) == Grouped(groups, paths + [p])
  {
    var m := Grouped(groups, paths);
    HoldsIsGrouped(m, groups, paths);
    FiledUpToFacts(groups, m, p, |groups|);
    var r := FiledUpTo(groups, m, p, |groups|);
    forall i | 0 <= i < |groups| ensures r[groups[i].name] == Select(paths + [p], groups[i].patterns) {
      SelectSnoc(paths, p, groups[i].patterns);
    }
    HoldsIsGrouped(r, groups, paths + [p]);
  }
}
