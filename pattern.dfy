/** Rules with a `*` that is not a single leading `*.` are matched as regular expressions:
    every `.` is escaped and every `*` becomes `.*` (main.go:671-672, 980-981), the result is
    compiled with regexp.Compile and searched, unanchored, in the target host. The model
    covers the fragment of RE2 that such a rewrite produces from a rule whose only
    metacharacters are `.` and `*`. */
module Pattern {
  import opened Wrappers
  import opened Text

  /** A compiled pattern: literal characters and `.*` runs. */
  datatype Token = Lit(c: char) | AnyRun

  type Glob = seq<Token>

  /** The characters regexp.QuoteMeta escapes. */
  predicate IsMeta(c: char) {
    c in "\\.+*?()|[]{}^$"
  }

  /** A rule whose only regular-expression metacharacters are `.` and `*`. */
  predicate Plain(rule: string) {
    forall c :: c in rule ==> c == '.' || c == '*' || !IsMeta(c)
  }

  /** The rewrite the code applies before compiling (main.go:671-672, 980-981). */
  function Rewrite(rule: string): string {
    ReplaceAll(ReplaceAll(rule, ".", "\\."), "*", ".*")
  }

  /** regexp.Compile on the fragment: `\.` is a literal dot, `.*` a run of any characters
      but newline, any other non-metacharacter itself. None stands for a compile failure;
      patterns outside the fragment are reported as failures too. */
  function Compile(p: string): Option<Glob>
    decreases |p|
  {
    if p == [] then Some([])
    else if |p| >= 2 && p[0] == '\\' && p[1] == '.' then Prepend(Lit('.'), Compile(p[2..]))
    else if |p| >= 2 && p[0] == '.' && p[1] == '*' then Prepend(AnyRun, Compile(p[2..]))
    else if IsMeta(p[0]) then None
    else Prepend(Lit(p[0]), Compile(p[1..]))
  }

  function Prepend(t: Token, g: Option<Glob>): Option<Glob> {
    match g
    case None => None
    case Some(rest) => Some([t] + rest)
  }

  /** The pattern a rule denotes: each `*` a run, every other character itself. */
  function GlobOf(rule: string): Glob {
    seq(|rule|, i requires 0 <= i < |rule| => if rule[i] == '*' then AnyRun else Lit(rule[i]))
  }

  /** Some prefix of `s` matches `g` (the regexp engine run from one start position). */
  predicate MatchesAt(g: Glob, s: string)
    decreases |g|, |s|
  {
    if g == [] then true
    else match g[0]
      case Lit(c) => |s| > 0 && s[0] == c && MatchesAt(g[1..], s[1..])
      case AnyRun => MatchesAt(g[1..], s) || (|s| > 0 && s[0] != '\n' && MatchesAt(g, s[1..]))
  }

  /** (*regexp.Regexp).MatchString: unanchored search from every start position. */
  predicate Search(g: Glob, s: string)
    decreases |s|
  {
    MatchesAt(g, s) || (|s| > 0 && Search(g, s[1..]))
  }

  /** Reference semantics: `w` as a whole is in the language of `g`. */
  ghost predicate Full(g: Glob, w: string)
    decreases |g|
  {
    if g == [] then w == []
    else match g[0]
      case Lit(c) => |w| > 0 && w[0] == c && Full(g[1..], w[1..])
      case AnyRun => exists k :: 0 <= k <= |w| && '\n' !in w[..k] && Full(g[1..], w[k..])
  }

  /** The number of literal characters in a pattern, a lower bound on any match. */
  function LitCount(g: Glob): nat {
    if g == [] then 0 else (if g[0].Lit? then 1 else 0) + LitCount(g[1..])
  }

  // ---------------------------------------------------------------------------
  // Rewrite then Compile yields the pattern the rule denotes.

  function Esc(c: char): string {
    if c == '.' then "\\." else if c == '*' then ".*" else [c]
  }

  lemma RewriteCons(rule: string)
    requires rule != []
    ensures Rewrite(rule) == Esc(rule[0]) + Rewrite(rule[1..])
  {
    var first := if rule[0] == '.' then "\\." else [rule[0]];
    ReplaceCharCons(rule, '.', "\\.");
    assert ReplaceAll(rule, ".", "\\.") == first + ReplaceAll(rule[1..], ".", "\\.");
    ReplaceCharConcat(first, ReplaceAll(rule[1..], ".", "\\."), '*', ".*");
    if rule[0] == '.' {
      ReplaceCharCons("\\.", '*', ".*");
      ReplaceCharCons(".", '*', ".*");
      assert ReplaceAll([], "*", ".*") == [];
    } else {
      ReplaceCharCons([rule[0]], '*', ".*");
      assert [rule[0]][1..] == [];
    }
  }

  lemma {:induction false} CompileRewrite(rule: string)
    requires Plain(rule)
    ensures Compile(Rewrite(rule)) == Some(GlobOf(rule))
    decreases |rule|
  {
    if rule == [] {
      assert Rewrite(rule) == [] by {
        assert ReplaceAll(rule, ".", "\\.") == [];
      }
    } else {
      var c := rule[0];
      var rest := Rewrite(rule[1..]);
      RewriteCons(rule);
      assert Plain(rule[1..]) by {
        forall x | x in rule[1..] ensures x == '.' || x == '*' || !IsMeta(x) {
          assert x in rule;
        }
      }
      CompileRewrite(rule[1..]);
      assert c in rule;
      var p := Esc(c) + rest;
      if c == '.' {
        assert p[2..] == rest;
      } else if c == '*' {
        assert p[2..] == rest;
      } else {
        assert p[1..] == rest;
        assert !(p[0] == '\\' || p[0] == '.');
      }
      assert GlobOf(rule) == [GlobOf(rule)[0]] + GlobOf(rule[1..]);
    }
  }

  // ---------------------------------------------------------------------------
  // The search agrees with the reference semantics.

  lemma {:induction false} MatchesAtSound(g: Glob, s: string)
    requires MatchesAt(g, s)
    ensures exists j :: 0 <= j <= |s| && Full(g, s[..j])
    decreases |g|, |s|
  {
    if g == [] {
      assert Full(g, s[..0]);
    } else {
      match g[0]
      case Lit(c) =>
        MatchesAtSound(g[1..], s[1..]);
        var j :| 0 <= j <= |s[1..]| && Full(g[1..], s[1..][..j]);
        assert s[..j + 1][1..] == s[1..][..j];
        assert Full(g, s[..j + 1]);
      case AnyRun =>
        if MatchesAt(g[1..], s) {
          MatchesAtSound(g[1..], s);
          var j :| 0 <= j <= |s| && Full(g[1..], s[..j]);
          assert s[..j][..0] == [] && s[..j][0..] == s[..j];
          assert Full(g, s[..j]);
        } else {
          MatchesAtSound(g, s[1..]);
          var j :| 0 <= j <= |s[1..]| && Full(g, s[1..][..j]);
          var w' := s[1..][..j];
          var k' :| 0 <= k' <= |w'| && '\n' !in w'[..k'] && Full(g[1..], w'[k'..]);
          var w := s[..j + 1];
          assert w[..k' + 1] == [s[0]] + w'[..k'];
          SliceShift(s, j, k');
          assert Full(g, w);
        }
    }
  }

  /** Dropping the first character commutes with taking a window of `s`. */
  lemma SliceShift(s: string, j: nat, k: nat)
    requires j < |s| && k <= j
    ensures s[..j + 1][k + 1..] == s[1..][..j][k..]
  {
    var l, r := s[..j + 1][k + 1..], s[1..][..j][k..];
    assert |l| == |r| == j - k;
    forall i | 0 <= i < |l|
      ensures l[i] == r[i]
    {
      assert l[i] == s[k + 1 + i] && r[i] == s[k + 1 + i];
    }
  }

  lemma {:induction false} RunWalk(g: Glob, s: string, k: nat)
    requires g != [] && g[0] == AnyRun
    requires k <= |s| && '\n' !in s[..k] && MatchesAt(g[1..], s[k..])
    ensures MatchesAt(g, s)
    decreases k
  {
    if k > 0 {
      assert s[0] == s[..k][0];
      assert s[1..][..k - 1] == s[..k][1..];
      assert s[1..][k - 1..] == s[k..];
      RunWalk(g, s[1..], k - 1);
    }
  }

  lemma {:induction false} MatchesAtComplete(g: Glob, s: string, j: nat)
    requires j <= |s| && Full(g, s[..j])
    ensures MatchesAt(g, s)
    decreases |g|, |s|
  {
    if g != [] {
      match g[0]
      case Lit(c) =>
        assert s[1..][..j - 1] == s[..j][1..];
        MatchesAtComplete(g[1..], s[1..], j - 1);
      case AnyRun =>
        var w := s[..j];
        var k :| 0 <= k <= |w| && '\n' !in w[..k] && Full(g[1..], w[k..]);
        assert w[..k] == s[..k];
        assert w[k..] == s[k..][..j - k];
        MatchesAtComplete(g[1..], s[k..], j - k);
        RunWalk(g, s, k);
    }
  }

  lemma {:induction false} SearchStarts(g: Glob, s: string)
    ensures Search(g, s) <==> exists i :: 0 <= i <= |s| && MatchesAt(g, s[i..])
    decreases |s|
  {
    if s != [] {
      SearchStarts(g, s[1..]);
      assert forall i :: 1 <= i <= |s| ==> s[i..] == s[1..][i - 1..];
      if Search(g, s[1..]) {
        var i :| 0 <= i <= |s[1..]| && MatchesAt(g, s[1..][i..]);
        assert MatchesAt(g, s[i + 1..]);
      }
      if exists i :: 0 <= i <= |s| && MatchesAt(g, s[i..]) {
        var i :| 0 <= i <= |s| && MatchesAt(g, s[i..]);
        if i > 0 {
          assert MatchesAt(g, s[1..][i - 1..]);
        } else {
          assert s[0..] == s;
        }
      }
    } else {
      assert s[0..] == s;
      if MatchesAt(g, s) {
        assert MatchesAt(g, s[0..]);
      }
    }
  }

  /** MatchString finds `g` iff some substring of `s` is in the language of `g`. */
  lemma SearchIsSubstringMatch(g: Glob, s: string)
    ensures Search(g, s) <==> exists i, j :: 0 <= i <= j <= |s| && Full(g, s[i..j])
  {
    SearchStarts(g, s);
    if Search(g, s) {
      var i :| 0 <= i <= |s| && MatchesAt(g, s[i..]);
      SearchFindsSubstring(g, s, i);
    }
    if exists i, j :: 0 <= i <= j <= |s| && Full(g, s[i..j]) {
      var i, j :| 0 <= i <= j <= |s| && Full(g, s[i..j]);
      SubstringIsFound(g, s, i, j);
    }
  }

  lemma SearchFindsSubstring(g: Glob, s: string, i: nat)
    requires i <= |s| && MatchesAt(g, s[i..])
    ensures exists i', j :: 0 <= i' <= j <= |s| && Full(g, s[i'..j])
  {
    MatchesAtSound(g, s[i..]);
    var j :| 0 <= j <= |s[i..]| && Full(g, s[i..][..j]);
    assert s[i..][..j] == s[i..i + j];
  }

  lemma SubstringIsFound(g: Glob, s: string, i: nat, j: nat)
    requires i <= j <= |s| && Full(g, s[i..j])
    ensures exists i' :: 0 <= i' <= |s| && MatchesAt(g, s[i'..])
  {
    assert s[i..][..j - i] == s[i..j];
    MatchesAtComplete(g, s[i..], j - i);
  }

  /** Every literal of the pattern consumes one character of the subject. */
  lemma {:induction false} MatchNeedsLiterals(g: Glob, s: string)
    requires MatchesAt(g, s)
    ensures |s| >= LitCount(g)
    decreases |g|, |s|
  {
    if g != [] {
      match g[0]
      case Lit(c) => MatchNeedsLiterals(g[1..], s[1..]);
      case AnyRun =>
        if MatchesAt(g[1..], s) { MatchNeedsLiterals(g[1..], s); }
        else { MatchNeedsLiterals(g, s[1..]); }
    }
  }

  lemma {:induction false} SearchNeedsLiterals(g: Glob, s: string)
    requires Search(g, s)
    ensures |s| >= LitCount(g)
    decreases |s|
  {
    if MatchesAt(g, s) { MatchNeedsLiterals(g, s); }
    else { SearchNeedsLiterals(g, s[1..]); }
  }

  // ---------------------------------------------------------------------------
  // Globs of concrete rules.

  lemma {:induction false} LitCountConcat(g: Glob, h: Glob)
    ensures LitCount(g + h) == LitCount(g) + LitCount(h)
    decreases |g|
  {
    if g != [] {
      assert (g + h)[1..] == g[1..] + h;
      LitCountConcat(g[1..], h);
    } else {
      assert g + h == h;
    }
  }

  lemma {:induction false} NoStarLitCount(a: string)
    requires '*' !in a
    ensures LitCount(GlobOf(a)) == |a|
    decreases |a|
  {
    if a != [] {
      assert GlobOf(a)[1..] == GlobOf(a[1..]);
      NoStarLitCount(a[1..]);
    }
  }

  /** The glob of `a*c` is the literals of `a`, one run, the literals of `c`. */
  lemma StarGlob(a: string, c: string)
    requires '*' !in a && '*' !in c
    ensures GlobOf(a + "*" + c) == GlobOf(a) + [AnyRun] + GlobOf(c)
    ensures LitCount(GlobOf(a + "*" + c)) == |a| + |c|
  {
    var ga, gc := GlobOf(a), GlobOf(c);
    assert GlobOf(a + "*" + c) == ga + [AnyRun] + gc;
    assert ga + [AnyRun] + gc == ga + ([AnyRun] + gc);
    LitCountConcat(ga, [AnyRun] + gc);
    LitCountConcat([AnyRun], gc);
    assert LitCount([AnyRun]) == 0 by { assert [AnyRun][1..] == []; }
    NoStarLitCount(a);
    NoStarLitCount(c);
  }

  /** A star-free prefix of a rule matches itself. */
  lemma {:induction false} LiteralPrefix(a: string, rest: Glob, s: string)
    requires '*' !in a && MatchesAt(rest, s)
    ensures MatchesAt(GlobOf(a) + rest, a + s)
    decreases |a|
  {
    if a != [] {
      assert (GlobOf(a) + rest)[0] == Lit(a[0]);
      assert (GlobOf(a) + rest)[1..] == GlobOf(a[1..]) + rest;
      assert (a + s)[1..] == a[1..] + s;
      LiteralPrefix(a[1..], rest, s);
    } else {
      assert GlobOf(a) + rest == rest && a + s == s;
    }
  }

  /** `a*c` finds `a b c` for any newline-free `b`. */
  lemma StarMatches(a: string, b: string, c: string)
    requires '*' !in a && '*' !in c && '\n' !in b
    ensures Search(GlobOf(a + "*" + c), a + b + c)
  {
    var tail := GlobOf(c);
    var run := [AnyRun] + tail;
    assert MatchesAt(run, b + c) by {
      assert MatchesAt(tail, c) by {
        LiteralPrefix(c, [], []);
        assert tail + [] == tail && c + [] == c;
      }
      assert run[1..] == tail;
      assert (b + c)[|b|..] == c && (b + c)[..|b|] == b;
      RunWalk(run, b + c, |b|);
    }
    LiteralPrefix(a, run, b + c);
    assert GlobOf(a + "*" + c) == GlobOf(a) + run by {
      StarGlob(a, c);
    }
    assert a + b + c == a + (b + c);
  }
}
