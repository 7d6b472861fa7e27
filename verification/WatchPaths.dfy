/**
 Which changed paths trigger a deploy (src/utils/watch_paths.rs).

 `GlobMatch` is the recursive matcher of the source. `MatchesExactly` states its meaning through
 the split definition of `Globs`, and `MatchersAgree` relates it to the container name filter.
 */
module WatchPaths {
  import opened Globs
  import Filter

  // ---------- the matcher ----------

  function WithoutSlash(pattern: seq<Byte>): seq<Byte> {
    if pattern != [] && pattern[0] == SLASH then pattern[1..] else pattern
  }

  predicate StartsDeep(pattern: seq<Byte>) {
    |pattern| >= 2 && pattern[0] == STAR && pattern[1] == STAR
  }

  predicate GlobMatch(pattern: seq<Byte>, path: seq<Byte>)
    decreases |pattern| + |path|
  {
    if pattern == [] then
      path == []
    else if StartsDeep(pattern) then
      GlobMatch(WithoutSlash(pattern[2..]), path) || (path != [] && GlobMatch(pattern, path[1..]))
    else if pattern[0] == STAR then
      GlobMatch(pattern[1..], path) || (path != [] && path[0] != SLASH && GlobMatch(pattern, path[1..]))
    else
      path != [] && path[0] == pattern[0] && GlobMatch(pattern[1..], path[1..])
  }

  /** `**` with one slash behind it is one token for any text, `*` stays inside a segment. */
  function Compile(pattern: seq<Byte>): seq<Token>
    decreases |pattern|
  {
    if pattern == [] then []
    else if StartsDeep(pattern) then [AnyText] + Compile(WithoutSlash(pattern[2..]))
    else if pattern[0] == STAR then [Segment] + Compile(pattern[1..])
    else [Literal(pattern[0])] + Compile(pattern[1..])
  }

  lemma {:induction false} MatchesExactly(pattern: seq<Byte>, path: seq<Byte>)
    ensures GlobMatch(pattern, path) <==> Matches(Compile(pattern), path)
    decreases |pattern| + |path|
  {
    var tokens := Compile(pattern);
    if pattern == [] {
      MatchesNothing(path);
    } else if pattern[0] == STAR {
      var rest := if StartsDeep(pattern) then WithoutSlash(pattern[2..]) else pattern[1..];
      assert tokens[1..] == Compile(rest);
      MatchesExactly(rest, path);
      if path != [] {
        MatchesExactly(pattern, path[1..]);
      }
      MatchesWildcard(tokens, path);
    } else {
      assert tokens[1..] == Compile(pattern[1..]);
      if path != [] {
        MatchesExactly(pattern[1..], path[1..]);
      }
      MatchesLiteral(tokens, path);
    }
  }

  // ---------- the matcher by the form of the pattern ----------

  /** Text without a star stands for itself. */
  lemma {:induction false} LiteralRule(text: seq<Byte>, rest: seq<Byte>, path: seq<Byte>)
    requires STAR !in text
    ensures GlobMatch(text + rest, path) <==> text <= path && GlobMatch(rest, path[|text|..])
  {
    if text == [] {
      assert text + rest == rest && path[0..] == path;
    } else {
      assert (text + rest)[1..] == text[1..] + rest;
      if path != [] && path[0] == text[0] {
        LiteralRule(text[1..], rest, path[1..]);
        assert text == [text[0]] + text[1..] && path == [path[0]] + path[1..];
        assert text[1..] <= path[1..] ==> path[1..][|text| - 1..] == path[|text|..];
      }
    }
  }

  /** `*` stands for any text within a segment. */
  lemma {:induction false} SegmentRule(rest: seq<Byte>, path: seq<Byte>)
    requires rest == [] || rest[0] != STAR
    ensures GlobMatch([STAR] + rest, path) <==>
            exists k :: 0 <= k <= |path| && SLASH !in path[..k] && GlobMatch(rest, path[k..])
    decreases |path|
  {
    var pattern := [STAR] + rest;
    assert pattern[1..] == rest && path[0..] == path;
    if path != [] && path[0] != SLASH {
      SegmentRule(rest, path[1..]);
      if k :| 0 <= k <= |path[1..]| && SLASH !in path[1..][..k] && GlobMatch(rest, path[1..][k..]) {
        assert path[1..][k..] == path[k + 1..] && path[..k + 1] == [path[0]] + path[1..][..k];
      }
    }
    if k :| 0 < k <= |path| && SLASH !in path[..k] && GlobMatch(rest, path[k..]) {
      assert path[0] == path[..k][0];
      assert path[1..][k - 1..] == path[k..] && path[..k] == [path[0]] + path[1..][..k - 1];
    }
  }

  /** `deep` is `**` as it stands before `rest`: any text, and then the rest. */
  lemma {:induction false} DeepTail(deep: seq<Byte>, rest: seq<Byte>, path: seq<Byte>)
    requires StartsDeep(deep) && WithoutSlash(deep[2..]) == rest
    ensures GlobMatch(deep, path) <==> exists k :: 0 <= k <= |path| && GlobMatch(rest, path[k..])
    decreases |path|
  {
    assert path[0..] == path;
    if path != [] {
      DeepTail(deep, rest, path[1..]);
      if k :| 0 <= k <= |path[1..]| && GlobMatch(rest, path[1..][k..]) {
        assert path[1..][k..] == path[k + 1..];
      }
      if k :| 0 < k <= |path| && GlobMatch(rest, path[k..]) {
        assert path[1..][k - 1..] == path[k..];
      }
    }
  }

  /** `**` that no slash follows stands for any text. */
  lemma DeepRule(rest: seq<Byte>, path: seq<Byte>)
    requires rest == [] || rest[0] != SLASH
    ensures GlobMatch([STAR, STAR] + rest, path) <==> exists k :: 0 <= k <= |path| && GlobMatch(rest, path[k..])
  {
    assert ([STAR, STAR] + rest)[2..] == rest;
    DeepTail([STAR, STAR] + rest, rest, path);
  }

  /** `**` with a slash behind it stands for any directories, and for none: the slash goes with it. */
  lemma DirectoriesRule(rest: seq<Byte>, path: seq<Byte>)
    ensures GlobMatch([STAR, STAR, SLASH] + rest, path) <==> exists k :: 0 <= k <= |path| && GlobMatch(rest, path[k..])
  {
    var deep := [STAR, STAR, SLASH] + rest;
    assert deep[2..] == [SLASH] + rest && ([SLASH] + rest)[1..] == rest;
    DeepTail(deep, rest, path);
  }

  /** The same behind a fixed directory, as in `packages/` and what is anywhere below it. */
  lemma BelowDirectory(text: seq<Byte>, rest: seq<Byte>, path: seq<Byte>)
    requires STAR !in text
    ensures MatchesPattern(text + [STAR, STAR, SLASH] + rest, path) <==>
            text <= path && exists k :: |text| <= k <= |path| && GlobMatch(rest, path[k..])
  {
    var pattern := text + [STAR, STAR, SLASH] + rest;
    assert pattern == text + ([STAR, STAR, SLASH] + rest) && pattern[|text|] == STAR;
    LiteralRule(text, [STAR, STAR, SLASH] + rest, path);
    if text <= path {
      var tail := path[|text|..];
      DirectoriesRule(rest, tail);
      if k :| 0 <= k <= |tail| && GlobMatch(rest, tail[k..]) {
        assert tail[k..] == path[|text| + k..];
      }
      if k :| |text| <= k <= |path| && GlobMatch(rest, path[k..]) {
        assert tail[k - |text|..] == path[k..];
      }
    }
  }

  /** A rule with a star anywhere is a pattern for the whole path. */
  lemma StarRuleIsPattern(pattern: seq<Byte>, path: seq<Byte>)
    requires STAR in pattern
    ensures MatchesPattern(pattern, path) <==> Matches(Compile(pattern), path)
  {
    MatchesExactly(pattern, path);
  }

  // ---------- agreement with the container name filter ----------

  /** Without slashes in the text, one `AnyText`, two of them and a `Segment` cover the same. */
  lemma WildcardsCoincide(wild: Token, one: seq<Token>, two: seq<Token>, text: seq<Byte>)
    requires !wild.Literal? && SLASH !in text
    requires forall k :: 0 <= k <= |text| ==> (Matches(one, text[k..]) <==> Matches(two, text[k..]))
    ensures Matches([wild] + one, text) <==> Matches([AnyText] + two, text)
    ensures Matches([wild] + one, text) <==> Matches([AnyText, AnyText] + two, text)
  {
    var w, a, aa := [wild] + one, [AnyText] + two, [AnyText, AnyText] + two;
    assert w[1..] == one && a[1..] == two && aa[1..] == a;
    MatchesCons(w, text);
    MatchesAnyText(a, text);
    MatchesAnyText(aa, text);
    forall k | 0 <= k <= |text| ensures Covers(wild, text[..k]) {}
    forall k | 0 <= k <= |text| && Matches(a, text[k..])
      ensures Matches(a, text)
    {
      MatchesAnyText(a, text[k..]);
      var j :| 0 <= j <= |text[k..]| && Matches(two, text[k..][j..]);
      assert text[k..][j..] == text[k + j..];
    }
    assert text[0..] == text;
  }

  lemma {:induction false} CompilationsAgree(pattern: seq<Byte>, text: seq<Byte>)
    requires SLASH !in pattern && SLASH !in text
    ensures Matches(Compile(pattern), text) <==> Matches(Filter.Compile(pattern), text)
    decreases |pattern|
  {
    if pattern == [] {
      assert Filter.Compile(pattern) == [];
    } else if pattern[0] == STAR {
      var n := if StartsDeep(pattern) then 2 else 1;
      var rest := pattern[n..];
      forall k | 0 <= k <= |text|
        ensures Matches(Compile(rest), text[k..]) <==> Matches(Filter.Compile(rest), text[k..])
      {
        CompilationsAgree(rest, text[k..]);
      }
      WildcardsCoincide(Compile(pattern)[0], Compile(rest), Filter.Compile(rest), text);
      if n == 2 {
        assert Filter.Compile(pattern) == [AnyText, AnyText] + Filter.Compile(rest);
      } else {
        assert Filter.Compile(pattern) == [AnyText] + Filter.Compile(rest);
      }
    } else {
      assert Filter.Compile(pattern)[1..] == Filter.Compile(pattern[1..]);
      MatchesLiteral(Compile(pattern), text);
      MatchesLiteral(Filter.Compile(pattern), text);
      if text != [] {
        CompilationsAgree(pattern[1..], text[1..]);
      }
    }
  }

  /** The two matchers of the system give the same answer wherever both are meant to be used. */
  lemma MatchersAgree(pattern: seq<Byte>, text: seq<Byte>)
    requires SLASH !in pattern && SLASH !in text && Filter.StarOnlyLast(text)
    ensures GlobMatch(pattern, text) <==> Filter.Accepts(pattern, text)
  {
    MatchesExactly(pattern, text);
    Filter.AcceptsExactly(pattern, text);
    CompilationsAgree(pattern, text);
  }

  // ---------- rules ----------

  datatype Rule = Rule(pattern: seq<Byte>, exclude: bool)

  /** A rule without a star names a file or a directory with everything below it. */
  predicate MatchesPattern(pattern: seq<Byte>, path: seq<Byte>) {
    if STAR !in pattern then path == pattern || pattern + [SLASH] <= path
    else GlobMatch(pattern, path)
  }

  // A star-free rule covers itself and exactly what it covers with a slash and `**` added.
  lemma {:induction false} PlainRuleIsDeepRule(pattern: seq<Byte>, path: seq<Byte>)
    requires STAR !in pattern
    ensures MatchesPattern(pattern, path) <==>
            path == pattern || GlobMatch(pattern + [SLASH, STAR, STAR], path)
    decreases |pattern|
  {
    var deep := pattern + [SLASH, STAR, STAR];
    if pattern == [] {
      assert deep[1..] == [STAR, STAR];
      if path != [] {
        DeepCoversAll(path[1..]);
      }
    } else {
      assert deep[1..] == pattern[1..] + [SLASH, STAR, STAR];
      assert [pattern[0]] + pattern[1..] == pattern;
      if path != [] && path[0] == pattern[0] {
        assert path == [path[0]] + path[1..];
        PlainRuleIsDeepRule(pattern[1..], path[1..]);
        assert pattern + [SLASH] == [pattern[0]] + (pattern[1..] + [SLASH]);
      }
    }
  }

  lemma {:induction false} DeepCoversAll(path: seq<Byte>)
    ensures GlobMatch([STAR, STAR], path)
    decreases |path|
  {
    assert WithoutSlash([STAR, STAR][2..]) == [];
    if path != [] {
      DeepCoversAll(path[1..]);
    }
  }

  /** The last rule that matches decides; no matching rule means not included. */
  predicate LastRuleIncludes(rules: seq<Rule>, path: seq<Byte>) {
    exists i :: 0 <= i < |rules| && !rules[i].exclude && MatchesPattern(rules[i].pattern, path)
                && forall j :: i < j < |rules| ==> !MatchesPattern(rules[j].pattern, path)
  }

  method ShouldDeploy(rules: seq<Rule>, paths: seq<seq<Byte>>) returns (deploy: bool)
    ensures deploy <==>
            || rules == [] || paths == []
            || exists k :: 0 <= k < |paths| && LastRuleIncludes(rules, paths[k])
  {
    if rules == [] || paths == [] {
      return true;
    }
    for k := 0 to |paths|
      invariant forall h :: 0 <= h < k ==> !LastRuleIncludes(rules, paths[h])
    {
      var path := paths[k];
      var included := false;
      for i := 0 to |rules|
        invariant included <==> LastRuleIncludes(rules[..i], path)
      {
        var seen, more := rules[..i], rules[..i + 1];
        assert more == seen + [rules[i]];
        if MatchesPattern(rules[i].pattern, path) {
          included := !rules[i].exclude;
          assert more[i] == rules[i];
          assert included ==> LastRuleIncludes(more, path);
        } else {
          AddUnmatched(seen, rules[i], path);
        }
      }
      assert rules[..|rules|] == rules;
      if included {
        return true;
      }
    }
    return false;
  }

  lemma AddUnmatched(rules: seq<Rule>, rule: Rule, path: seq<Byte>)
    requires !MatchesPattern(rule.pattern, path)
    ensures LastRuleIncludes(rules + [rule], path) <==> LastRuleIncludes(rules, path)
  {
    var more := rules + [rule];
    if i :| 0 <= i < |rules| && !rules[i].exclude && MatchesPattern(rules[i].pattern, path)
            && forall j :: i < j < |rules| ==> !MatchesPattern(rules[j].pattern, path) {
      assert more[i] == rules[i];
    }
    if i :| 0 <= i < |more| && !more[i].exclude && MatchesPattern(more[i].pattern, path)
            && forall j :: i < j < |more| ==> !MatchesPattern(more[j].pattern, path) {
      assert more[i] == rules[i];
      forall j | i < j < |rules| ensures !MatchesPattern(rules[j].pattern, path) {
        assert more[j] == rules[j];
      }
    }
  }
}
