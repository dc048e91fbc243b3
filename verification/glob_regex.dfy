/** `toRegexList` of src/FilesList.cpp: each exclude pattern is trimmed and
    rewritten, character by character, into the text of an anchored,
    case-insensitive regular expression. The regex engine itself is replaced
    by a reader for exactly the regex forms the rewriting can emit, which hands
    the result to the glob matcher. */
module GlobRegex {
  import opened Options
  import opened Text
  import opened Glob

  /** The characters the translator protects with a backslash. */
  const Escaped: string := "[](){}.+^$|\\"

  /** The regex text one pattern character turns into. */
  function CharRegex(c: char): string {
    if c == '*' then ".*"
    else if c == '?' then "."
    else if c in Escaped then ['\\', c]
    else [c]
  }

  /** The regex text of a whole (already trimmed) pattern. */
  function RegexBody(p: string): (r: string)
    ensures |r| >= |p|
  {
    if p == [] then [] else CharRegex(p[0]) + RegexBody(p[1..])
  }

  /** The glob token one pattern character stands for. */
  function TokenOf(c: char): Token {
    if c == '*' then Star else if c == '?' then AnyChar else Lit(c)
  }

  function GlobOf(p: string): (g: seq<Token>)
    ensures |g| == |p|
    ensures forall i :: 0 <= i < |p| ==> g[i] == TokenOf(p[i])
  {
    seq(|p|, i requires 0 <= i < |p| => TokenOf(p[i]))
  }

  /** What QRegularExpression receives: the pattern text and the
      case-insensitivity option. */
  datatype Regex = Regex(source: string, caseInsensitive: bool)

  function Cons(t: Token, rest: Option<seq<Token>>): Option<seq<Token>> {
    match rest
    case Some(g) => Some([t] + g)
    case None => None
  }

  /** Reads regex text built from `.*`, `.`, backslash-escaped metacharacters
      and plain characters; anything else is outside this subset. */
  function ParseBody(r: string): Option<seq<Token>>
    decreases |r|
  {
    if r == [] then Some([])
    else if r[0] == '.' && |r| >= 2 && r[1] == '*' then Cons(Star, ParseBody(r[2..]))
    else if r[0] == '.' then Cons(AnyChar, ParseBody(r[1..]))
    else if r[0] == '\\' then
      if |r| >= 2 && r[1] in Escaped then Cons(Lit(r[1]), ParseBody(r[2..])) else None
    else if r[0] in Escaped || r[0] == '*' || r[0] == '?' then None
    else Cons(Lit(r[0]), ParseBody(r[1..]))
  }

  /** Reads a regex anchored with `^` at the front and `$` at the back. */
  function Parse(source: string): Option<seq<Token>> {
    if |source| >= 2 && source[0] == '^' && source[|source| - 1] == '$'
    then ParseBody(source[1..|source| - 1])
    else None
  }

  /** Whether the regex accepts `s` (QRegularExpression::match(..).hasMatch()). */
  predicate RegexMatch(rx: Regex, s: string) {
    match Parse(rx.source)
    case Some(g) => Matches(g, s, rx.caseInsensitive)
    case None => false
  }

  /** The translation of one pattern: nothing when it trims to nothing,
      otherwise the anchored, case-insensitive expression. */
  function ToRegex(pattern: string): (r: Option<Regex>)
    ensures r.None? <==> Trim(pattern) == []
    ensures r.Some? ==> r.value.caseInsensitive
    ensures r.Some? ==> StartsWith(r.value.source, "^") && EndsWith(r.value.source, "$")
  {
    var body := RegexBody(Trim(pattern));
    if body == [] then None else Some(Regex("^" + body + "$", true))
  }

  /** toRegexList: the translations of the patterns that are not blank, in order. */
  function ToRegexList(patterns: seq<string>): (rs: seq<Regex>)
    ensures |rs| <= |patterns|
    ensures forall k :: 0 <= k < |rs| ==> rs[k].caseInsensitive
  {
    if patterns == [] then []
    else
      match ToRegex(patterns[0])
      case None => ToRegexList(patterns[1..])
      case Some(rx) => [rx] + ToRegexList(patterns[1..])
  }

  /** Every expression in the list is the translation of some pattern. */
  lemma {:induction false} ToRegexListSound(patterns: seq<string>, x: Regex)
    requires x in ToRegexList(patterns)
    ensures exists p :: p in patterns && ToRegex(p) == Some(x)
  {
    var head := patterns[0];
    if ToRegex(head) == Some(x) {
      assert head in patterns;
    } else {
      var tail := patterns[1..];
      assert x in ToRegexList(tail);
      ToRegexListSound(tail, x);
      var p :| p in tail && ToRegex(p) == Some(x);
      assert p in patterns;
    }
  }

  /** Every pattern that is not blank contributes its translation. */
  lemma {:induction false} ToRegexListComplete(patterns: seq<string>, p: string)
    requires p in patterns && ToRegex(p).Some?
    ensures ToRegex(p).value in ToRegexList(patterns)
  {
    var head := patterns[0];
    var tail := patterns[1..];
    if p != head {
      assert patterns == [head] + tail;
      assert p in tail;
      ToRegexListComplete(tail, p);
    }
  }

  /** An expression is in the list exactly when some pattern translates to it. */
  lemma ToRegexListMembership(patterns: seq<string>, x: Regex)
    ensures x in ToRegexList(patterns) <==> exists p :: p in patterns && ToRegex(p) == Some(x)
  {
    if x in ToRegexList(patterns) {
      ToRegexListSound(patterns, x);
    }
    if exists p :: p in patterns && ToRegex(p) == Some(x) {
      var p :| p in patterns && ToRegex(p) == Some(x);
      ToRegexListComplete(patterns, p);
    }
  }

  /** The translation is applied pattern by pattern, so it keeps their order. */
  lemma {:induction false} ToRegexListConcat(a: seq<string>, b: seq<string>)
    ensures ToRegexList(a + b) == ToRegexList(a) + ToRegexList(b)
  {
    if a == [] {
      assert a + b == b;
    } else {
      assert (a + b)[0] == a[0];
      assert (a + b)[1..] == a[1..] + b;
      ToRegexListConcat(a[1..], b);
    }
  }

  lemma {:induction false} RegexBodyConcat(a: string, b: string)
    ensures RegexBody(a + b) == RegexBody(a) + RegexBody(b)
  {
    if a == [] {
      assert a + b == b;
    } else {
      assert (a + b)[0] == a[0];
      assert (a + b)[1..] == a[1..] + b;
      RegexBodyConcat(a[1..], b);
    }
  }

  /** A pattern with no wildcard and no metacharacter is copied unchanged. */
  lemma {:induction false} RegexBodyPlain(p: string)
    requires forall i :: 0 <= i < |p| ==> p[i] != '*' && p[i] != '?' && p[i] !in Escaped
    ensures RegexBody(p) == p
  {
    if p != [] {
      RegexBodyPlain(p[1..]);
      assert [p[0]] + p[1..] == p;
    }
  }

  /** Reading back the emitted text recovers one token per pattern character:
      `*` is any run, `?` any one character, everything else itself. */
  lemma {:induction false} ParseRegexBody(p: string)
    ensures ParseBody(RegexBody(p)) == Some(GlobOf(p))
  {
    if p != [] {
      var c := p[0];
      var rest := RegexBody(p[1..]);
      ParseRegexBody(p[1..]);
      assert GlobOf(p) == [TokenOf(c)] + GlobOf(p[1..]);
      var r := CharRegex(c) + rest;
      if c == '*' {
        assert r[2..] == rest;
      } else if c == '?' {
        assert r[1..] == rest;
      } else if c in Escaped {
        assert r[2..] == rest;
      } else {
        assert r[1..] == rest;
      }
    }
  }

  /** An emitted expression accepts a string exactly when the trimmed pattern,
      read as a glob, matches the whole string ignoring case. */
  lemma RegexMatchIffGlob(pattern: string, s: string)
    requires ToRegex(pattern).Some?
    ensures RegexMatch(ToRegex(pattern).value, s) <==> Matches(GlobOf(Trim(pattern)), s, true)
  {
    var body := RegexBody(Trim(pattern));
    var source := "^" + body + "$";
    assert source[1..|source| - 1] == body;
    ParseRegexBody(Trim(pattern));
  }
}
