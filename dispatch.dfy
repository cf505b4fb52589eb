/** parseScopesWrapper (main.go:843-864): the explicit-level policy that turns a scope line
    into a call of parseScopes in one of the three modes, or into nothing. */
module Dispatch {
  import opened Text
  import opened Matching

  /** The -e explicit level: 1 wildcard-everything, 2 wildcards as written, 3 exact only. */
  type Level = x: int | 1 <= x <= 3 witness 2

  datatype Route = Skip | Run(scope: string, mode: Mode)

  function RouteOf(scope: string, level: Level): Route {
    if HasPrefix(scope, "*.") then
      if level != 3 && CountChar(scope, '*') == 1 then Run(ReplaceAll(scope, "*.", ""), Wildcard)
      else Skip
    else if '*' in scope then Run(scope, Regex)
    else if level == 1 then Run(scope, Wildcard)
    else Run(scope, Exact)
  }

  /** Removing "*." from a rule with a single `*` leaves the text after its prefix. */
  lemma StripWildcard(scope: string)
    requires HasPrefix(scope, "*.") && CountChar(scope, '*') == 1
    ensures ReplaceAll(scope, "*.", "") == scope[2..]
  {
    var rest := scope[2..];
    assert scope[0] == '*' && scope[1] == '.';
    assert scope[1..][1..] == rest;
    assert CountChar(scope, '*') == 1 + CountChar(rest, '*');
    CountCharZero(rest, '*');
    ReplaceAllAbsent(rest, "*.", "");
  }

  /** The route depends on the shape of the rule: a `*.` rule with one `*` is a suffix test
      on the rest below level 3 and nothing otherwise, any other rule with a `*` is a
      pattern, and a rule without `*` is a suffix test at level 1 and an equality above. */
  lemma DispatchByShape(scope: string, level: Level)
    ensures HasPrefix(scope, "*.") && CountChar(scope, '*') == 1 && level != 3 ==>
      RouteOf(scope, level) == Run(scope[2..], Wildcard)
    ensures HasPrefix(scope, "*.") && (CountChar(scope, '*') != 1 || level == 3) ==>
      RouteOf(scope, level) == Skip
    ensures !HasPrefix(scope, "*.") && '*' in scope ==> RouteOf(scope, level) == Run(scope, Regex)
    ensures '*' !in scope ==>
      RouteOf(scope, level) == Run(scope, if level == 1 then Wildcard else Exact)
  {
    if HasPrefix(scope, "*.") && CountChar(scope, '*') == 1 {
      StripWildcard(scope);
    }
    if '*' !in scope && |scope| >= 2 {
      assert scope[..2] != "*." by { assert scope[0] != '*'; }
    }
  }

  /** A rule is matched as a pattern only when it holds a `*`, and never at level 3 when it
      starts with "*.". */
  lemma RegexOnlyForStars(scope: string, level: Level)
    ensures RouteOf(scope, level).Run? && RouteOf(scope, level).mode == Regex ==>
      '*' in scope && !HasPrefix(scope, "*.")
    ensures level == 3 && HasPrefix(scope, "*.") ==> RouteOf(scope, level) == Skip
  {
  }

  /** The empty line is matched as the empty wildcard host at level 1. */
  lemma EmptyScopeAtLevelOne()
    ensures RouteOf("", 1) == Run("", Wildcard)
  {
  }
}
