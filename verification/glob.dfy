/** Glob patterns as token lists, with a backtracking matcher and an
    independent, declarative meaning the matcher is proved to agree with. */
module Glob {
  import opened Text

  /** `*` (any run of characters), `?` (any one character) or a literal. */
  datatype Token = Star | AnyChar | Lit(c: char)

  predicate SameChar(a: char, b: char, ignoreCase: bool) {
    if ignoreCase then LowerChar(a) == LowerChar(b) else a == b
  }

  /** Does the glob `g` match the WHOLE of `s`? */
  predicate Matches(g: seq<Token>, s: string, ignoreCase: bool)
    decreases |g| + |s|
  {
    if g == [] then s == []
    else match g[0]
      case Star => Matches(g[1..], s, ignoreCase) || (s != [] && Matches(g, s[1..], ignoreCase))
      case AnyChar => s != [] && Matches(g[1..], s[1..], ignoreCase)
      case Lit(c) => s != [] && SameChar(s[0], c, ignoreCase) && Matches(g[1..], s[1..], ignoreCase)
  }

  /** The strings a single token stands for. */
  ghost predicate TokenDenotes(t: Token, w: string, ignoreCase: bool) {
    match t
    case Star => true
    case AnyChar => |w| == 1
    case Lit(c) => |w| == 1 && SameChar(w[0], c, ignoreCase)
  }

  /** Reference meaning: `s` cuts into consecutive pieces, one per token,
      each piece standing for its token. */
  ghost predicate Denotes(g: seq<Token>, s: string, ignoreCase: bool)
    decreases |g|
  {
    if g == [] then s == []
    else exists i :: 0 <= i <= |s| && TokenDenotes(g[0], s[..i], ignoreCase) && Denotes(g[1..], s[i..], ignoreCase)
  }

  /** The matcher accepts exactly the strings the glob denotes. */
  lemma {:induction false} MatchesIffDenotes(g: seq<Token>, s: string, ignoreCase: bool)
    ensures Matches(g, s, ignoreCase) <==> Denotes(g, s, ignoreCase)
    decreases |g| + |s|
  {
    if g != [] {
      var rest := g[1..];
      match g[0]
      case Star =>
        MatchesIffDenotes(rest, s, ignoreCase);
        if s != [] {
          MatchesIffDenotes(g, s[1..], ignoreCase);
        }
        if Matches(g, s, ignoreCase) {
          if Matches(rest, s, ignoreCase) {
            assert s[..0] == [] && s[0..] == s;
            assert TokenDenotes(Star, s[..0], ignoreCase) && Denotes(rest, s[0..], ignoreCase);
          } else {
            var j :| 0 <= j <= |s[1..]| && TokenDenotes(Star, s[1..][..j], ignoreCase) && Denotes(rest, s[1..][j..], ignoreCase);
            assert s[1..][j..] == s[j + 1..];
            assert TokenDenotes(Star, s[..j + 1], ignoreCase) && Denotes(rest, s[j + 1..], ignoreCase);
          }
        }
        if Denotes(g, s, ignoreCase) {
          var i :| 0 <= i <= |s| && TokenDenotes(Star, s[..i], ignoreCase) && Denotes(rest, s[i..], ignoreCase);
          if i == 0 {
            assert s[0..] == s;
          } else {
            assert s[1..][i - 1..] == s[i..];
            assert TokenDenotes(Star, s[1..][..i - 1], ignoreCase) && Denotes(rest, s[1..][i - 1..], ignoreCase);
          }
        }
      case AnyChar =>
        if s != [] {
          MatchesIffDenotes(rest, s[1..], ignoreCase);
          if Matches(g, s, ignoreCase) {
            assert TokenDenotes(AnyChar, s[..1], ignoreCase) && Denotes(rest, s[1..], ignoreCase);
          }
        }
      case Lit(c) =>
        if s != [] {
          MatchesIffDenotes(rest, s[1..], ignoreCase);
          if Matches(g, s, ignoreCase) {
            assert TokenDenotes(Lit(c), s[..1], ignoreCase) && Denotes(rest, s[1..], ignoreCase);
          }
          if Denotes(g, s, ignoreCase) {
            var i :| 0 <= i <= |s| && TokenDenotes(Lit(c), s[..i], ignoreCase) && Denotes(rest, s[i..], ignoreCase);
            assert i == 1;
          }
        }
    }
  }

  /** A lone `*` matches every string, the empty one included. */
  lemma {:induction false} StarMatchesAll(s: string, ignoreCase: bool)
    ensures Matches([Star], s, ignoreCase)
    decreases |s|
  {
    var g := [Star];
    assert g[1..] == [];
    if s != [] {
      StarMatchesAll(s[1..], ignoreCase);
    }
  }

  /** A glob of literals followed by `*` matches exactly the strings that
      start with those literals (ignoring case when asked). */
  lemma {:induction false} LiteralPrefixThenStar(lits: string, s: string)
    ensures Matches(seq(|lits|, i requires 0 <= i < |lits| => Lit(lits[i])) + [Star], s, true)
        <==> (|lits| <= |s| && Lower(s[..|lits|]) == Lower(lits))
  {
    var g := seq(|lits|, i requires 0 <= i < |lits| => Lit(lits[i])) + [Star];
    if lits == [] {
      assert g == [Star];
      StarMatchesAll(s, true);
    } else {
      var gTail := seq(|lits| - 1, i requires 0 <= i < |lits| - 1 => Lit(lits[1..][i])) + [Star];
      assert g[1..] == gTail;
      if s != [] {
        LiteralPrefixThenStar(lits[1..], s[1..]);
        if |lits| <= |s| {
          assert s[..|lits|] == [s[0]] + s[1..][..|lits| - 1];
          assert lits == [lits[0]] + lits[1..];
          LowerConcat([s[0]], s[1..][..|lits| - 1]);
          LowerConcat([lits[0]], lits[1..]);
          if Lower(s[..|lits|]) == Lower(lits) {
            assert Lower(s[..|lits|])[0] == Lower(lits)[0];
            assert Lower(s[1..][..|lits| - 1]) == Lower(s[..|lits|])[1..];
          }
        }
      }
    }
  }
}
