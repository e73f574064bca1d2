/**
 * The key pattern matcher shared by `Store::matchesPattern` and
 * `SessionScope::matchesPattern`: the empty pattern matches nothing, a pattern
 * without any of `* ? [ ]` matches only itself, and any other pattern is a
 * shell glob (`fnmatch` without flags) in which `*` matches any run of
 * characters, `?` exactly one, and `\` makes the character after it literal.
 */
module Glob {
  import opened Php

  /**
   * A character `fnmatch` reads as more than itself: the two wildcards, the
   * escape and the bracket-class delimiters.
   */
  predicate IsMeta(c: char) {
    c in {'*', '?', '[', ']', '\\'}
  }

  /** `strpbrk($pattern, '*?[]') !== false`. */
  predicate HasSpecial(p: string) {
    exists i :: 0 <= i < |p| && p[i] in {'*', '?', '[', ']'}
  }

  /** A pattern every character of which `fnmatch` reads literally. */
  predicate Plain(p: string) {
    forall i :: 0 <= i < |p| ==> !IsMeta(p[i])
  }

  /**
   * Shell-glob matching of `s` against `p` with `*`, `?` and the `\\` escape; a
   * backslash at the very end of the pattern matches nothing. Every other
   * character is literal.
   */
  predicate Glob(s: string, p: string)
    decreases |s| + |p|
  {
    if p == [] then s == []
    else if p[0] == '*' then Glob(s, p[1..]) || (s != [] && Glob(s[1..], p))
    else if p[0] == '\\' then |p| >= 2 && s != [] && s[0] == p[1] && Glob(s[1..], p[2..])
    else s != [] && (p[0] == '?' || p[0] == s[0]) && Glob(s[1..], p[1..])
  }

  /** `matchesPattern($key, $pattern)`. */
  predicate MatchesPattern(key: string, pattern: string) {
    if pattern == [] then false
    else if !HasSpecial(pattern) then key == pattern
    else Glob(key, pattern)
  }

  /** A plain pattern matches exactly itself. */
  lemma {:induction false} GlobLiteral(s: string, p: string)
    requires Plain(p)
    ensures Glob(s, p) <==> s == p
    decreases |p|
  {
    if p != [] && s != [] {
      GlobLiteral(s[1..], p[1..]);
      if Glob(s, p) {
        assert s == [s[0]] + s[1..];
      }
      if s == p {
        assert s[1..] == p[1..];
      }
    }
  }

  /**
   * The fast path of `MatchesPattern` agrees with the glob when the pattern has
   * no special character and no backslash: both compare for equality.
   */
  lemma FastPathAgreesWithGlob(key: string, pattern: string)
    requires pattern != [] && !HasSpecial(pattern) && '\\' !in pattern
    ensures MatchesPattern(key, pattern) <==> Glob(key, pattern)
  {
    assert Plain(pattern) by {
      forall i | 0 <= i < |pattern| ensures !IsMeta(pattern[i]) {
        assert pattern[i] !in {'*', '?', '[', ']'} && pattern[i] != '\\';
      }
    }
    GlobLiteral(key, pattern);
  }

  /**
   * A backslash is an escape only once `fnmatch` sees the pattern: `a\\b` has no
   * special character and so matches only itself, although the glob would read
   * it as `ab`; and in `a\\*` the star is literal.
   */
  lemma EscapeExamples()
    ensures MatchesPattern("a\\b", "a\\b") && !Glob("a\\b", "a\\b") && Glob("ab", "a\\b")
    ensures MatchesPattern("a*", "a\\*") && !MatchesPattern("a\\zz", "a\\*")
  {
    assert !HasSpecial("a\\b") by {
      forall i | 0 <= i < 3 ensures "a\\b"[i] !in {'*', '?', '[', ']'} {
      }
    }
    assert "a\\*"[2] == '*';
    assert Glob("", "");
    assert Glob("a*", "a\\*") by {
      assert Glob("*", "\\*") by {
        assert "\\*"[2..] == [];
      }
    }
  }

  /** Matching a plain prefix `q` consumes exactly `q` from the front of the key. */
  lemma {:induction false} GlobLiteralPrefix(s: string, q: string, p: string)
    requires Plain(q)
    ensures Glob(s, q + p) <==> StartsWith(s, q) && Glob(s[|q|..], p)
    decreases |q|
  {
    if q != [] {
      assert (q + p)[0] == q[0];
      assert (q + p)[1..] == q[1..] + p;
      if s != [] {
        GlobLiteralPrefix(s[1..], q[1..], p);
        if |q| <= |s| {
          assert s[1..][|q| - 1..] == s[|q|..];
        }
        if StartsWith(s, q) {
          assert s[0] == q[0];
          assert s[1..][..|q| - 1] == q[1..];
        }
        if Glob(s, q + p) {
          assert s[..|q|] == [s[0]] + s[1..][..|q| - 1];
        }
      }
    } else {
      assert q + p == p;
    }
  }

  /** A key matches `q + "*"` exactly when it starts with the plain `q`. */
  lemma GlobPrefixStar(s: string, q: string)
    requires Plain(q)
    ensures Glob(s, q + "*") <==> StartsWith(s, q)
  {
    GlobLiteralPrefix(s, q, "*");
    if StartsWith(s, q) {
      StarMatchesAll(s[|q|..]);
    }
  }

  lemma {:induction false} StarMatchesAll(s: string)
    ensures Glob(s, "*")
    decreases |s|
  {
    if s != [] {
      StarMatchesAll(s[1..]);
    }
  }

  /**
   * Prepending one plain prefix to both key and pattern does not change
   * the verdict, unless the pattern is empty (the prefix alone then matches the bare prefix).
   */
  lemma PrefixedMatch(q: string, key: string, pattern: string)
    requires Plain(q)
    requires pattern != []
    ensures MatchesPattern(q + key, q + pattern) <==> MatchesPattern(key, pattern)
  {
    GlobLiteralPrefix(q + key, q, pattern);
    assert StartsWith(q + key, q) && (q + key)[|q|..] == key;
    if HasSpecial(pattern) {
      var i :| 0 <= i < |pattern| && pattern[i] in {'*', '?', '[', ']'};
      assert (q + pattern)[|q| + i] == pattern[i];
    } else {
      assert !HasSpecial(q + pattern) by {
        forall i | 0 <= i < |q + pattern| ensures (q + pattern)[i] !in {'*', '?', '[', ']'} {
          if i < |q| {
            assert (q + pattern)[i] == q[i] && !IsMeta(q[i]);
          } else {
            assert (q + pattern)[i] == pattern[i - |q|];
          }
        }
      }
      if q + key == q + pattern {
        assert key == (q + key)[|q|..];
      }
    }
  }

  /** Every key that matches `q + pattern` for a plain `q` starts with `q`. */
  lemma PrefixedMatchStartsWith(q: string, key: string, pattern: string)
    requires Plain(q)
    requires MatchesPattern(key, q + pattern)
    ensures StartsWith(key, q)
  {
    if HasSpecial(q + pattern) {
      GlobLiteralPrefix(key, q, pattern);
    } else {
      assert key[..|q|] == (q + pattern)[..|q|];
    }
  }
}
