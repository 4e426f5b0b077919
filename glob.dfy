/** Shell-style pattern matching as `fnmatch.fnmatchcase` performs it (POSIX, no case
    folding): the pattern is translated to a sequence of tokens that must match the
    WHOLE name. `*` matches any run of characters (dots included), `?` any one character,
    `[...]` one character of a set, `[!...]` one character outside it, anything else
    itself. A `[` without a closing `]` is an ordinary character. */
module Glob {

  datatype Token =
    | Star
    | AnyChar
    | CharSet(negated: bool, items: string)
    | Literal(c: char)

  /** The first `]` at or after position `j`, or |p| when there is none. */
  function FindClose(p: string, j: nat): (k: nat)
    requires j <= |p|
    ensures j <= k <= |p|
    ensures k < |p| ==> p[k] == ']'
    ensures forall i :: j <= i < k ==> p[i] != ']'
    decreases |p| - j
  {
    if j == |p| || p[j] == ']' then j else FindClose(p, j + 1)
  }

  /** Where the set opened by the `[` at p[0] closes: a `!` right after the `[` and a `]`
      right after that belong to the set, so the closing `]` is searched for after them.
      |p| means the set is not closed. */
  function SetEnd(p: string): (j: nat)
    requires |p| > 0 && p[0] == '['
    ensures j <= |p|
    ensures j < |p| ==> 2 <= j && p[j] == ']'
    ensures j < |p| && p[1] == '!' ==> 3 <= j
  {
    var j0 := if 1 < |p| && p[1] == '!' then 2 else 1;
    var j1 := if j0 < |p| && p[j0] == ']' then j0 + 1 else j0;
    FindClose(p, j1)
  }

  /** The token sequence a pattern translates to. */
  function Tokens(p: string): seq<Token>
    decreases |p|
  {
    if p == [] then []
    else if p[0] == '*' then [Star] + Tokens(p[1..])
    else if p[0] == '?' then [AnyChar] + Tokens(p[1..])
    else if p[0] == '[' && SetEnd(p) < |p| then
      var j := SetEnd(p);
      var body := p[1..j];
      var t := if body[0] == '!' then CharSet(true, body[1..]) else CharSet(false, body);
      [t] + Tokens(p[j + 1..])
    else [Literal(p[0])] + Tokens(p[1..])
  }

  /** Membership in the body of a set: `a-z` is the range from `a` to `z` (empty when
      `a` > `z`); a `-` first or last stands for itself. */
  predicate InSet(items: string, c: char)
    decreases |items|
  {
    if items == [] then false
    else if |items| >= 3 && items[1] == '-' then
      (items[0] <= c <= items[2]) || InSet(items[3..], c)
    else items[0] == c || InSet(items[1..], c)
  }

  /** The tokens match the whole of `s`. */
  predicate MatchTokens(ts: seq<Token>, s: string)
    decreases |ts|, |s|
  {
    if ts == [] then s == []
    else match ts[0]
      case Star => MatchTokens(ts[1..], s) || (s != [] && MatchTokens(ts, s[1..]))
      case AnyChar => s != [] && MatchTokens(ts[1..], s[1..])
      case CharSet(neg, items) => s != [] && InSet(items, s[0]) != neg && MatchTokens(ts[1..], s[1..])
      case Literal(c) => s != [] && s[0] == c && MatchTokens(ts[1..], s[1..])
  }

  /** `fnmatch.fnmatch(name, pattern)` on a case-sensitive platform. */
  predicate Matches(name: string, pattern: string) {
    MatchTokens(Tokens(pattern), name)
  }

  /** The characters that have a meaning in a pattern. */
  predicate IsMeta(c: char) {
    c == '*' || c == '?' || c == '['
  }

  /** A pattern made of ordinary characters only. */
  predicate Plain(w: string) {
    forall i :: 0 <= i < |w| ==> !IsMeta(w[i])
  }

  /** One literal token per character. */
  function Literals(w: string): (ts: seq<Token>)
    ensures |ts| == |w|
    ensures forall i :: 0 <= i < |w| ==> ts[i] == Literal(w[i])
  {
    if w == [] then [] else [Literal(w[0])] + Literals(w[1..])
  }

  /** Reference definition: `w` occurs somewhere in `s` as a contiguous substring. */
  predicate Contains(s: string, w: string)
    decreases |s|
  {
    w <= s || (s != [] && Contains(s[1..], w))
  }

  /** An ordinary prefix of a pattern translates character by character. */
  lemma {:induction false} TokensOfPlainPrefix(w: string, rest: string)
    requires Plain(w)
    ensures Tokens(w + rest) == Literals(w) + Tokens(rest)
  {
    if w != [] {
      var p := w + rest;
      assert p[0] == w[0] && !IsMeta(w[0]);
      assert p[1..] == w[1..] + rest;
      assert Tokens(p) == [Literal(w[0])] + Tokens(p[1..]);
      assert Plain(w[1..]) by {
        forall i | 0 <= i < |w[1..]| ensures !IsMeta(w[1..][i]) {
          assert w[1..][i] == w[i + 1];
        }
      }
      TokensOfPlainPrefix(w[1..], rest);
      assert Literals(w) == [Literal(w[0])] + Literals(w[1..]);
    } else {
      assert w + rest == rest;
    }
  }

  /** A trailing `*` token matches any remainder. */
  lemma {:induction false} StarMatchesAnything(s: string)
    ensures MatchTokens([Star], s)
    decreases |s|
  {
    if s != [] {
      StarMatchesAnything(s[1..]);
    }
  }

  /** The pattern `*` matches every name. */
  lemma StarPatternMatchesEverything(name: string)
    ensures Matches(name, "*")
  {
    var p := "*";
    assert p[0] == '*' && p[1..] == [];
    assert Tokens(p) == [Star];
    StarMatchesAnything(name);
  }

  lemma {:induction false} LiteralsMatchExactly(w: string, s: string)
    ensures MatchTokens(Literals(w), s) <==> s == w
    decreases |w|
  {
    if w != [] {
      assert Literals(w)[1..] == Literals(w[1..]);
      LiteralsMatchExactly(w[1..], if s == [] then s else s[1..]);
      if s != [] && s[0] == w[0] && s[1..] == w[1..] {
        assert s == [s[0]] + s[1..];
        assert w == [w[0]] + w[1..];
      }
    }
  }

  /** A pattern without `*`, `?` or `[` matches exactly the name equal to it. */
  lemma PlainPatternMatchesItself(name: string, pattern: string)
    requires Plain(pattern)
    ensures Matches(name, pattern) <==> name == pattern
  {
    TokensOfPlainPrefix(pattern, []);
    assert pattern + [] == pattern;
    assert Literals(pattern) + [] == Literals(pattern);
    LiteralsMatchExactly(pattern, name);
  }

  lemma {:induction false} LiteralsThenStar(w: string, t: string)
    ensures MatchTokens(Literals(w) + [Star], t) <==> w <= t
    decreases |w|
  {
    if w == [] {
      assert Literals(w) + [Star] == [Star];
      StarMatchesAnything(t);
    } else {
      var ts := Literals(w) + [Star];
      assert ts[0] == Literal(w[0]);
      assert ts[1..] == Literals(w[1..]) + [Star];
      if t != [] {
        LiteralsThenStar(w[1..], t[1..]);
        assert w <= t <==> (t[0] == w[0] && w[1..] <= t[1..]);
      }
    }
  }

  lemma {:induction false} StarLiteralsStar(w: string, s: string)
    ensures MatchTokens([Star] + (Literals(w) + [Star]), s) <==> Contains(s, w)
    decreases |s|
  {
    var ts := [Star] + (Literals(w) + [Star]);
    assert ts[1..] == Literals(w) + [Star];
    LiteralsThenStar(w, s);
    if s != [] {
      StarLiteralsStar(w, s[1..]);
    }
  }

  /** `*w*` with an ordinary `w` (as in the default patterns `*model*` and `*view*`)
      matches exactly the names that contain `w`. */
  lemma SubstringPattern(name: string, w: string)
    requires Plain(w)
    ensures Matches(name, "*" + w + "*") <==> Contains(name, w)
  {
    var p := "*" + w + "*";
    assert p[0] == '*' && p[1..] == w + "*";
    TokensOfPlainPrefix(w, "*");
    var star := "*";
    assert star[0] == '*' && star[1..] == [];
    assert Tokens(star) == [Star];
    assert Tokens(p) == [Star] + (Literals(w) + [Star]);
    StarLiteralsStar(w, name);
  }

  /** Contains agrees with the usual "at some offset" reading. */
  lemma {:induction false} ContainsAt(s: string, w: string, i: nat)
    requires i + |w| <= |s| && s[i..i + |w|] == w
    ensures Contains(s, w)
    decreases i
  {
    if i == 0 {
      assert s[..|w|] == w;
    } else {
      assert s[1..][i - 1..i - 1 + |w|] == s[i..i + |w|];
      ContainsAt(s[1..], w, i - 1);
    }
  }

  /** A word occurs in any string that has it in the middle. */
  lemma ContainsInside(a: string, w: string, c: string)
    ensures Contains(a + w + c, w)
  {
    var s := a + w + c;
    assert s[|a|..|a| + |w|] == w;
    ContainsAt(s, w, |a|);
  }

  /** A substring cannot occur where one of its characters is missing. */
  lemma {:induction false} ContainsNeedsChar(s: string, w: string, c: char)
    requires c in w && c !in s
    ensures !Contains(s, w)
    decreases |s|
  {
    var i :| 0 <= i < |w| && w[i] == c;
    assert i < |s| ==> s[i] != c;
    if s != [] {
      assert c !in s[1..] by {
        assert forall k :: 0 <= k < |s[1..]| ==> s[1..][k] == s[k + 1];
      }
      ContainsNeedsChar(s[1..], w, c);
    }
  }
}
