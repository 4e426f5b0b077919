/** What the path arithmetic of `find_modules` guarantees: the shape of module bases and
    module paths, the package-init rule, and how discovery follows the walk. */
module PathFacts {
  import opened Paths

  /** `c` is the only character of `s`. */
  predicate AllChar(s: string, c: char) {
    forall i :: 0 <= i < |s| ==> s[i] == c
  }

  /** A module path (or base) carries no outer dots. */
  predicate NoOuterDots(s: string) {
    s == [] || (s[0] != '.' && s[|s| - 1] != '.')
  }

  /** `r` is the part of `s` from position `i` on, and what lies before and after it
      consists of `c` only. */
  predicate StrippedFrom(s: string, c: char, i: int, r: string) {
    0 <= i <= |s| - |r| && r == s[i..i + |r|] && AllChar(s[..i], c) && AllChar(s[i + |r|..], c)
  }

  /** Position by position, `ReplaceChar` turns `a` into `b` and keeps everything else. */
  lemma {:induction false} ReplaceCharAt(s: string, a: char, b: char)
    ensures forall i :: 0 <= i < |s| ==> ReplaceChar(s, a, b)[i] == if s[i] == a then b else s[i]
  {
    if s != [] {
      ReplaceCharAt(s[1..], a, b);
      var r := ReplaceChar(s, a, b);
      assert r == [if s[0] == a then b else s[0]] + ReplaceChar(s[1..], a, b);
      forall i | 0 < i < |s| ensures r[i] == ReplaceChar(s[1..], a, b)[i - 1] {}
    }
  }

  /** No `a` survives the replacement, and nothing but `b` is new. */
  lemma ReplaceCharRemoves(s: string, a: char, b: char)
    requires a != b
    ensures a !in ReplaceChar(s, a, b)
    ensures forall x :: x in ReplaceChar(s, a, b) && x != b ==> x in s
  {
    ReplaceCharAt(s, a, b);
  }

  /** `lstrip` removes exactly the leading run of `c`. */
  lemma {:induction false} LStripFacts(s: string, c: char)
    ensures var r := LStrip(s, c); r == s[|s| - |r|..] && AllChar(s[..|s| - |r|], c) && (r == [] || r[0] != c)
  {
    if s != [] && s[0] == c {
      LStripFacts(s[1..], c);
      var r := LStrip(s[1..], c);
      assert s[1..][|s| - 1 - |r|..] == s[|s| - |r|..];
      assert forall i :: 1 <= i < |s| - |r| ==> s[i] == s[1..][..|s| - 1 - |r|][i - 1];
    }
  }

  /** `rstrip` removes exactly the trailing run of `c`. */
  lemma {:induction false} RStripFacts(s: string, c: char)
    ensures var r := RStrip(s, c); r == s[..|r|] && AllChar(s[|r|..], c) && (r == [] || r[|r| - 1] != c)
  {
    if s != [] && s[|s| - 1] == c {
      var s' := s[..|s| - 1];
      RStripFacts(s', c);
      var r := RStrip(s', c);
      assert s'[..|r|] == s[..|r|];
      assert forall i :: |r| <= i < |s| - 1 ==> s[i] == s'[|r|..][i - |r|];
    }
  }

  /** `strip` removes the leading and the trailing run of `c` and nothing else. */
  lemma StripFacts(s: string, c: char)
    ensures var r := Strip(s, c);
            (r == [] || (r[0] != c && r[|r| - 1] != c)) && StrippedFrom(s, c, |s| - |LStrip(s, c)|, r)
  {
    var l := LStrip(s, c);
    var r := RStrip(l, c);
    LStripFacts(s, c);
    RStripFacts(l, c);
    var i := |s| - |l|;
    assert r != [] ==> r[0] == l[0];
    assert r == s[i..i + |r|];
    assert l[|r|..] == s[i + |r|..];
  }

  /** Stripping has one possible outcome: any stripped part of `s` without outer `c`
      is the one. */
  lemma StrippedUnique(s: string, c: char, i: int, r: string, i': int, r': string)
    requires StrippedFrom(s, c, i, r) && (r == [] || (r[0] != c && r[|r| - 1] != c))
    requires StrippedFrom(s, c, i', r') && (r' == [] || (r'[0] != c && r'[|r'| - 1] != c))
    ensures r == r'
  {
  }

  /** Stripping `pre + x + post`, where `pre` and `post` are runs of `c` and `x` has no
      outer `c`, gives `x`. */
  lemma StripSurrounded(pre: string, x: string, post: string, c: char)
    requires AllChar(pre, c) && AllChar(post, c)
    requires x == [] || (x[0] != c && x[|x| - 1] != c)
    ensures Strip(pre + x + post, c) == x
  {
    var s := pre + x + post;
    assert s[..|pre|] == pre;
    assert s[|pre|..|pre| + |x|] == x;
    assert s[|pre| + |x|..] == post;
    StripFacts(s, c);
    StrippedUnique(s, c, |pre|, x, |s| - |LStrip(s, c)|, Strip(s, c));
  }

  /** A module base contains no path separator and has no outer dots. */
  lemma ModuleBaseShape(relDir: string)
    ensures var r := ModuleBase(relDir); '/' !in r && '\\' !in r && NoOuterDots(r)
  {
    var slashed := SlashPath(relDir);
    var dotted := ReplaceChar(slashed, '/', '.');
    ReplaceCharRemoves(relDir, '\\', '/');
    ReplaceCharRemoves(slashed, '/', '.');
    StripFacts(dotted, '.');
    var r := Strip(dotted, '.');
    var i := |dotted| - |LStrip(dotted, '.')|;
    assert forall k :: 0 <= k < |r| ==> r[k] == dotted[i + k];
  }

  /** A module path has no outer dots, and contains a separator only if its directory
      base or its file stem does. */
  lemma ModulePathShape(base: string, stem: string)
    ensures var r := ModulePath(base, stem);
            NoOuterDots(r) &&
            ('/' !in base && '/' !in stem ==> '/' !in r) &&
            ('\\' !in base && '\\' !in stem ==> '\\' !in r)
  {
    var name := if stem == PackageInit then "" else stem;
    var joined := base + "." + name;
    StripFacts(joined, '.');
    var r := Strip(joined, '.');
    var i := |joined| - |LStrip(joined, '.')|;
    assert forall k :: 0 <= k < |r| ==> r[k] == joined[i + k];
  }

  /** `__init__.py` stands for its package: its module path is the directory's base. */
  lemma InitFileIsPackage(base: string)
    requires NoOuterDots(base)
    ensures ModulePath(base, PackageInit) == base
  {
    assert base + "." + "" == [] + base + ".";
    StripSurrounded([], base, ".", '.');
  }

  /** Any other stem is joined to a non-empty base by one dot. */
  lemma ModuleInPackage(base: string, stem: string)
    requires base != [] && NoOuterDots(base)
    requires stem != [] && NoOuterDots(stem) && stem != PackageInit
    ensures ModulePath(base, stem) == base + "." + stem
  {
    assert base + "." + stem == [] + (base + "." + stem) + [];
    StripSurrounded([], base + "." + stem, [], '.');
  }

  /** With an empty base the dot is dropped and the stem alone is the module path. */
  lemma ModuleAtTop(stem: string)
    requires stem != [] && NoOuterDots(stem) && stem != PackageInit
    ensures ModulePath([], stem) == stem
  {
    assert [] + "." + stem == "." + stem + [];
    StripSurrounded(".", stem, [], '.');
  }

  /** The source files of a directory and its module paths correspond: every module path
      comes from a source file, every source file gives one. */
  lemma {:induction false} FilePathsContents(base: string, files: seq<string>)
    ensures forall p :: p in FilePaths(base, files) ==>
              exists f :: f in files && IsSource(f) && p == ModulePath(base, Stem(f))
    ensures forall f :: f in files && IsSource(f) ==> ModulePath(base, Stem(f)) in FilePaths(base, files)
  {
    if files != [] {
      var init := files[..|files| - 1];
      FilePathsContents(base, init);
      assert files == init + [files[|files| - 1]];
    }
  }

  /** Replacing a character that does not occur changes nothing. */
  lemma {:induction false} ReplaceAbsent(s: string, a: char, b: char)
    requires a !in s
    ensures ReplaceChar(s, a, b) == s
  {
    if s != [] {
      assert s[1..] == s[1..] && a !in s[1..];
      ReplaceAbsent(s[1..], a, b);
    }
  }

  /** `ReplaceChar` works piecewise on a concatenation. */
  lemma {:induction false} ReplaceCharAppend(s: string, t: string, a: char, b: char)
    ensures ReplaceChar(s + t, a, b) == ReplaceChar(s, a, b) + ReplaceChar(t, a, b)
  {
    if s == [] {
      assert s + t == t;
    } else {
      assert (s + t)[0] == s[0] && (s + t)[1..] == s[1..] + t;
      ReplaceCharAppend(s[1..], t, a, b);
    }
  }

  /** For a path without backslashes and without outer dots or slashes, the module base
      is the path with every `/` read as `.`. */
  lemma ModuleBaseOfPosixPath(relDir: string)
    requires '\\' !in relDir
    requires relDir != [] && relDir[0] != '.' && relDir[0] != '/'
    requires relDir[|relDir| - 1] != '.' && relDir[|relDir| - 1] != '/'
    ensures ModuleBase(relDir) == ReplaceChar(relDir, '/', '.')
  {
    ReplaceAbsent(relDir, '\\', '/');
    var dotted := ReplaceChar(relDir, '/', '.');
    ReplaceCharAt(relDir, '/', '.');
    assert [] + dotted + [] == dotted;
    StripSurrounded([], dotted, [], '.');
  }

  /** A directory given by a POSIX-style relative path, neither starting nor ending
      with a dot or a slash and not a bytecode cache, holding the single source file
      `stem.py`, contributes the one module path `<dir with dots>.<stem>`. */
  lemma SingleFileDirectory(dir: string, stem: string)
    requires '\\' !in dir && dir != []
    requires dir[0] != '.' && dir[0] != '/' && dir[|dir| - 1] != '.' && dir[|dir| - 1] != '/'
    requires !EndsWith(dir, CacheDir)
    requires stem != [] && NoOuterDots(stem) && stem != PackageInit
    ensures DirPaths(WalkEntry(dir, [stem + SourceSuffix])) == [ReplaceChar(dir, '/', '.') + "." + stem]
  {
    ModuleBaseOfPosixPath(dir);
    ReplaceCharAt(dir, '/', '.');
    var base := ReplaceChar(dir, '/', '.');
    CacheTestOnPosixPath(dir);
    var file := stem + SourceSuffix;
    assert Stem(file) == stem;
    ModuleInPackage(base, stem);
    var files := [file];
    assert files[..0] == [];
    assert FilePaths(base, files) == [ModulePath(base, stem)];
  }

  /** Two path segments joined by `/` become the same segments joined by `.`. */
  lemma JoinSegments(a: string, b: string)
    requires '/' !in a && '/' !in b
    ensures ReplaceChar(a + "/" + b, '/', '.') == a + "." + b
  {
    ReplaceCharAppend(a + "/", b, '/', '.');
    ReplaceCharAppend(a, "/", '/', '.');
    ReplaceAbsent(a, '/', '.');
    ReplaceAbsent(b, '/', '.');
  }

  /** A directory name of its own: not empty, no separator, no dot at either end. */
  predicate Segment(x: string) {
    x != [] && NoOuterDots(x) && '/' !in x && '\\' !in x
  }

  /** A top-level directory `top` (not a bytecode cache) holding the single source
      file `stem.py` contributes the one module path `top.stem`. */
  lemma TopLevelModule(top: string, stem: string)
    requires Segment(top) && !EndsWith(top, CacheDir)
    requires stem != [] && NoOuterDots(stem) && stem != PackageInit
    ensures DirPaths(WalkEntry(top, [stem + SourceSuffix])) == [top + "." + stem]
  {
    SingleFileDirectory(top, stem);
    ReplaceAbsent(top, '/', '.');
  }

  /** A sub-directory `top/sub` (not a bytecode cache) holding the single source file
      `stem.py` contributes the one module path `top.sub.stem`. */
  lemma NestedModule(top: string, sub: string, stem: string)
    requires Segment(top) && Segment(sub) && !EndsWith(sub, CacheDir)
    requires stem != [] && NoOuterDots(stem) && stem != PackageInit
    ensures DirPaths(WalkEntry(top + "/" + sub, [stem + SourceSuffix])) == [top + "." + sub + "." + stem]
  {
    var dir := top + "/" + sub;
    assert dir == top + ("/" + sub);
    assert dir[0] == top[0] && dir[|dir| - 1] == sub[|sub| - 1];
    assert '/' !in CacheDir;
    SuffixAfterSeparator(top, sub, CacheDir);
    SingleFileDirectory(dir, stem);
    JoinSegments(top, sub);
  }

  /** The documented example: `myapp/models/foo.py` is the module `myapp.models.foo`. */
  lemma DocumentedExample(top: string, sub: string, stem: string)
    requires top == "myapp" && sub == "models" && stem == "foo"
    ensures DirPaths(WalkEntry(top + "/" + sub, [stem + SourceSuffix])) == [top + "." + sub + "." + stem]
  {
    NestedModule(top, sub, stem);
  }

  lemma FlatMapSnoc<T>(xs: seq<T>, x: T, f: T -> seq<string>)
    ensures FlatMap(xs + [x], f) == FlatMap(xs, f) + f(x)
  {
    var xsx := xs + [x];
    assert xsx[..|xsx| - 1] == xs && xsx[|xsx| - 1] == x;
  }

  lemma {:induction false} FlatMapAppend<T>(xs: seq<T>, ys: seq<T>, f: T -> seq<string>)
    ensures FlatMap(xs + ys, f) == FlatMap(xs, f) + FlatMap(ys, f)
    decreases |ys|
  {
    if ys == [] {
      assert xs + ys == xs;
    } else {
      var ys', y := ys[..|ys| - 1], ys[|ys| - 1];
      assert ys == ys' + [y];
      var front := xs + ys';
      calc {
        FlatMap(xs + ys, f);
        { assert xs + ys == front + [y]; }
        FlatMap(front + [y], f);
        { FlatMapSnoc(front, y, f); }
        FlatMap(front, f) + f(y);
        { FlatMapAppend(xs, ys', f); }
        FlatMap(xs, f) + FlatMap(ys', f) + f(y);
        { FlatMapSnoc(ys', y, f); }
        FlatMap(xs, f) + FlatMap(ys, f);
      }
    }
  }

  /** One more directory at the end of the walk adds its own module paths at the end. */
  lemma DiscoveredSnoc(w: seq<WalkEntry>, e: WalkEntry)
    ensures Discovered(w + [e]) == Discovered(w) + DirPaths(e)
  {
    FlatMapSnoc(w, e, DirPaths);
  }

  /** Discovery over two consecutive parts of a walk is the concatenation. */
  lemma DiscoveredAppend(a: seq<WalkEntry>, b: seq<WalkEntry>)
    ensures Discovered(a + b) == Discovered(a) + Discovered(b)
  {
    FlatMapAppend(a, b, DirPaths);
  }

  /** A bytecode-cache directory adds nothing: the walk with it discovers exactly what
      the walk without it discovers. */
  lemma BytecodeCacheIgnored(pre: seq<WalkEntry>, e: WalkEntry, post: seq<WalkEntry>)
    requires IsBytecodeCache(e.relDir)
    ensures Discovered(pre + [e] + post) == Discovered(pre + post)
  {
    DiscoveredAppend(pre + [e], post);
    DiscoveredSnoc(pre, e);
    DiscoveredAppend(pre, post);
  }

  /** For a path without backslashes the cache test is a plain suffix test. */
  lemma CacheTestOnPosixPath(relDir: string)
    requires '\\' !in relDir
    ensures IsBytecodeCache(relDir) <==> EndsWith(relDir, CacheDir)
  {
    ReplaceAbsent(relDir, '\\', '/');
  }

  /** A name that comes after a `/` ends with a slash-free word only if that name itself
      does. */
  lemma SuffixAfterSeparator(x: string, t: string, w: string)
    requires '/' !in w
    requires !EndsWith(t, w)
    ensures !EndsWith(x + "/" + t, w)
  {
    var s := x + "/" + t;
    if |w| <= |s| {
      if |t| >= |w| {
        assert s[|s| - |w|..] == t[|t| - |w|..];
      } else {
        var k := |w| - 1 - |t|;
        assert s[|s| - |w|..][k] == s[|s| - 1 - |t|] == '/';
      }
    }
  }

  /** Only the cache directory itself is skipped, not what lies below it: a directory
      inside any directory (a cache directory included) is walked as any other unless its
      own name ends with `__pycache__`. */
  lemma BelowBytecodeCacheNotSkipped(parent: string, name: string)
    requires !EndsWith(SlashPath(name), CacheDir)
    ensures !IsBytecodeCache(parent + "/" + name)
  {
    ReplaceCharAppend(parent + "/", name, '\\', '/');
    ReplaceCharAppend(parent, "/", '\\', '/');
    assert SlashPath("/") == "/";
    assert '/' !in CacheDir;
    SuffixAfterSeparator(SlashPath(parent), SlashPath(name), CacheDir);
  }

  /** The paths of one more file of a directory. */
  lemma FilePathsSnoc(base: string, files: seq<string>, f: nat)
    requires f < |files|
    ensures FilePaths(base, files[..f + 1])
            == FilePaths(base, files[..f]) + (if IsSource(files[f]) then [ModulePath(base, Stem(files[f]))] else [])
  {
    assert files[..f + 1][..f] == files[..f];
  }
}
