/** The string arithmetic of `AppLoader.find_modules` (flask_apploader/__init__.py): how a
    walked directory and a file name in it become a dotted module path. The definitions
    are kept free of quantified postconditions; what they guarantee is proved in
    PathFacts. */
module Paths {

  /** The name of the bytecode-cache directories that discovery passes over. */
  const CacheDir: string := "__pycache__"

  /** The file-name suffix of a source file. */
  const SourceSuffix: string := ".py"

  /** The stem of a package's own module file. */
  const PackageInit: string := "__init__"

  /** One step of the directory walk: a directory, given by its path relative to the
      parent of the application's root directory, and the names of the files directly
      in it, in the walk's order. */
  datatype WalkEntry = WalkEntry(relDir: string, filenames: seq<string>)

  /** Every character `a` of `s` replaced by `b` (Python's `str.replace` on one character). */
  function ReplaceChar(s: string, a: char, b: char): (r: string)
    ensures |r| == |s|
  {
    if s == [] then [] else [if s[0] == a then b else s[0]] + ReplaceChar(s[1..], a, b)
  }

  /** Python's `s.lstrip(c)`. */
  function LStrip(s: string, c: char): (r: string)
    ensures |r| <= |s|
  {
    if s != [] && s[0] == c then LStrip(s[1..], c) else s
  }

  /** Python's `s.rstrip(c)`. */
  function RStrip(s: string, c: char): (r: string)
    ensures |r| <= |s|
  {
    if s != [] && s[|s| - 1] == c then RStrip(s[..|s| - 1], c) else s
  }

  /** Python's `s.strip(c)`. */
  function Strip(s: string, c: char): string {
    RStrip(LStrip(s, c), c)
  }

  predicate EndsWith(s: string, suffix: string) {
    |suffix| <= |s| && s[|s| - |suffix|..] == suffix
  }

  /** The directory's relative path with `\` turned into `/`. */
  function SlashPath(relDir: string): string {
    ReplaceChar(relDir, '\\', '/')
  }

  /** A bytecode-cache directory: its whole relative path ends with `__pycache__`. */
  predicate IsBytecodeCache(relDir: string) {
    EndsWith(SlashPath(relDir), CacheDir)
  }

  /** The module base of a directory: separators become dots, outer dots are stripped. */
  function ModuleBase(relDir: string): string {
    Strip(ReplaceChar(SlashPath(relDir), '/', '.'), '.')
  }

  /** A file name that counts as a source file. */
  predicate IsSource(filename: string) {
    EndsWith(filename, SourceSuffix)
  }

  /** The name of a source file without its last three characters. */
  function Stem(filename: string): (r: string)
    requires IsSource(filename)
    ensures filename == r + SourceSuffix
  {
    filename[..|filename| - 3]
  }

  /** `base.stem` with outer dots stripped; the package-init stem `__init__` stands for
      the directory itself. */
  function ModulePath(base: string, stem: string): string {
    var name := if stem == PackageInit then "" else stem;
    Strip(base + "." + name, '.')
  }

  /** The module paths of the source files among `files`, in their order. */
  function FilePaths(base: string, files: seq<string>): (r: seq<string>)
    ensures |r| <= |files|
  {
    if files == [] then []
    else
      var f := files[|files| - 1];
      var rest := FilePaths(base, files[..|files| - 1]);
      if IsSource(f) then rest + [ModulePath(base, Stem(f))] else rest
  }

  /** What one directory of the walk contributes. */
  function DirPaths(e: WalkEntry): seq<string> {
    if IsBytecodeCache(e.relDir) then [] else FilePaths(ModuleBase(e.relDir), e.filenames)
  }

  /** The lists `f(x)` of the elements `x` of `xs`, concatenated in order. */
  function FlatMap<T>(xs: seq<T>, f: T -> seq<string>): seq<string> {
    if xs == [] then [] else FlatMap(xs[..|xs| - 1], f) + f(xs[|xs| - 1])
  }

  /** Every module path the walk discovers, in discovery order, repeats kept. */
  function Discovered(walk: seq<WalkEntry>): seq<string> {
    FlatMap(walk, DirPaths)
  }
}
