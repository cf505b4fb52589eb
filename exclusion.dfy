/** The exclusion veto: parseOutOfScopes (main.go:953-1019) and isOutOfScope
    (main.go:893-951). Exclusions are always read with explicit-level 2 semantics. */
module Exclusion {
  import opened Wrappers
  import opened Text
  import opened Net
  import opened Pattern
  import opened Targets

  /** A scope object of the rule database (main.go:33-36). */
  datatype ScopeEntry = ScopeEntry(scope: string, scopeType: string)

  /** Only non-empty web_application entries are used (main.go:933, 1097). */
  predicate Counts(e: ScopeEntry) {
    e.scopeType == "web_application" && e.scope != ""
  }

  /** The scope strings of the entries that count, in order. */
  function CountedScopes(es: seq<ScopeEntry>): (r: seq<string>)
    ensures |r| <= |es|
    ensures forall x :: x in r ==> x != "" && exists e :: e in es && Counts(e) && e.scope == x
    ensures forall e :: e in es && Counts(e) ==> e.scope in r
  {
    if es == [] then []
    else (if Counts(es[0]) then [es[0].scope] else []) + CountedScopes(es[1..])
  }

  /** Where exclusions come from: the lines of an out-of-scope file (given with -oos, or a
      .noscope file), or else the out-of-scope entries of the chosen program (possibly none). */
  datatype Exclusions = ExclusionLines(lines: seq<string>) | ProgramExclusions(entries: seq<ScopeEntry>)

  function ExclusionRules(x: Exclusions): seq<string> {
    match x
    case ExclusionLines(lines) => lines
    case ProgramExclusions(entries) => CountedScopes(entries)
  }

  /** The target as isOutOfScope receives it: a URL (domain and pattern rules) or an IP
      (address rules), the other one nil. */
  datatype Probe = Probe(url: Option<Url>, ip: Option<Ip>)

  /** parseOutOfScopes: does one exclusion rule fire for the target? A rule that cannot be
      parsed as a URL never fires; one whose pattern does not compile aborts the run. */
  function ParseOutOfScopes(lib: NetLib, probe: Probe, rule: string): (r: Result<bool, Fatal>)
    ensures probe.url.None? ==> r.Ok?
    ensures probe.url.None? && probe.ip.None? ==> r == Ok(false)
    ensures probe.url.None? ==>
      r == Ok(lib.parseIp(rule).Some? && IpString(probe.ip) == lib.parseIp(rule).value.text)
    ensures probe.url.Some? && '*' !in rule ==>
      r == Ok(lib.parseUrl("https://" + rule).Some?
              && RemovePortFromHost(probe.url.value) == lib.parseUrl("https://" + rule).value.host)
  {
    match probe.url
    case Some(u) =>
      var host := RemovePortFromHost(u);
      if HasPrefix(rule, "*.") && CountChar(rule, '*') == 1 then
        // the "*." is not stripped: the host parsed from "https://*.x" keeps it
        (match lib.parseUrl("https://" + rule)
         case None => Ok(false)
         case Some(ru) => Ok(HasSuffix(host, ru.host)))
      else if '*' in rule then
        var pattern := Rewrite(rule);
        (match Compile(pattern)
         case None => Err(BadPattern(pattern))
         case Some(g) => Ok(Search(g, host)))
      else
        (match lib.parseUrl("https://" + rule)
         case None => Ok(false)
         case Some(ru) => Ok(host == ru.host))
    case None =>
      match lib.parseIp(rule)
      case None => Ok(false)
      case Some(a) => Ok(IpString(probe.ip) == a.text)
  }

  /** The loop of isOutOfScope: the first rule that fires excludes the target; a failing
      rule is only reached when no earlier rule fired. */
  function ExcludedBy(lib: NetLib, probe: Probe, rules: seq<string>): Result<bool, Fatal> {
    if rules == [] then Ok(false)
    else match ParseOutOfScopes(lib, probe, rules[0])
      case Err(e) => Err(e)
      case Ok(true) => Ok(true)
      case Ok(false) => ExcludedBy(lib, probe, rules[1..])
  }

  lemma ExcludedByCons(lib: NetLib, probe: Probe, rule: string, rest: seq<string>)
    ensures ExcludedBy(lib, probe, [rule] + rest) ==
      (var fired := ParseOutOfScopes(lib, probe, rule);
       if fired.Err? || fired.value then fired else ExcludedBy(lib, probe, rest))
  {
    assert ([rule] + rest)[0] == rule;
    assert ([rule] + rest)[1..] == rest;
  }

  lemma CountedScopesCons(es: seq<ScopeEntry>)
    requires es != []
    ensures CountedScopes(es) == (if Counts(es[0]) then [es[0].scope] else []) + CountedScopes(es[1..])
  {
  }

  /** isOutOfScope, for either source of exclusions. */
  method IsOutOfScope(lib: NetLib, probe: Probe, excl: Exclusions) returns (r: Result<bool, Fatal>)
    ensures r == ExcludedBy(lib, probe, ExclusionRules(excl))
  {
    match excl
    case ExclusionLines(lines) =>
      var i := 0;
      while i < |lines|
        invariant 0 <= i <= |lines|
        invariant ExcludedBy(lib, probe, lines[i..]) == ExcludedBy(lib, probe, lines)
      {
        assert lines[i..][1..] == lines[i + 1..];
        var fired := ParseOutOfScopes(lib, probe, lines[i]);
        if fired.Err? || fired.value {
          return fired;
        }
        i := i + 1;
      }
      return Ok(false);
    case ProgramExclusions(entries) =>
      var i := 0;
      while i < |entries|
        invariant 0 <= i <= |entries|
        invariant ExcludedBy(lib, probe, CountedScopes(entries[i..])) == ExcludedBy(lib, probe, CountedScopes(entries))
      {
        assert entries[i..][1..] == entries[i + 1..];
        CountedScopesCons(entries[i..]);
        if Counts(entries[i]) {
          ExcludedByCons(lib, probe, entries[i].scope, CountedScopes(entries[i + 1..]));
          var fired := ParseOutOfScopes(lib, probe, entries[i].scope);
          if fired.Err? || fired.value {
            return fired;
          }
          assert ExcludedBy(lib, probe, CountedScopes(entries[i..])) == ExcludedBy(lib, probe, CountedScopes(entries[i + 1..]));
        } else {
          assert CountedScopes(entries[i..]) == CountedScopes(entries[i + 1..]);
        }
        i := i + 1;
      }
      return Ok(false);
  }

  // ---------------------------------------------------------------------------
  // What the veto means.

  /** When no rule aborts, the veto answers whether some rule fires. */
  lemma {:induction false} ExcludedWhenSomeRuleFires(lib: NetLib, probe: Probe, rules: seq<string>)
    requires forall i :: 0 <= i < |rules| ==> ParseOutOfScopes(lib, probe, rules[i]).Ok?
    ensures ExcludedBy(lib, probe, rules) == Ok(exists i :: 0 <= i < |rules| && ParseOutOfScopes(lib, probe, rules[i]) == Ok(true))
    decreases |rules|
  {
    if rules != [] {
      var fired := ParseOutOfScopes(lib, probe, rules[0]);
      assert forall i :: 0 <= i < |rules[1..]| ==> rules[1..][i] == rules[i + 1];
      ExcludedWhenSomeRuleFires(lib, probe, rules[1..]);
      if fired == Ok(false) {
        if exists i :: 0 <= i < |rules| && ParseOutOfScopes(lib, probe, rules[i]) == Ok(true) {
          var i :| 0 <= i < |rules| && ParseOutOfScopes(lib, probe, rules[i]) == Ok(true);
          assert rules[1..][i - 1] == rules[i];
        }
      }
    }
  }

  /** An abort of the veto is the abort of one of its rules. */
  lemma {:induction false} ExcludedFailsAtSomeRule(lib: NetLib, probe: Probe, rules: seq<string>)
    ensures ExcludedBy(lib, probe, rules).Err? ==>
      exists i :: 0 <= i < |rules| && ParseOutOfScopes(lib, probe, rules[i]) == Err(ExcludedBy(lib, probe, rules).error)
    decreases |rules|
  {
    if rules != [] {
      var fired := ParseOutOfScopes(lib, probe, rules[0]);
      if fired == Ok(false) {
        ExcludedFailsAtSomeRule(lib, probe, rules[1..]);
        if ExcludedBy(lib, probe, rules).Err? {
          var i :| 0 <= i < |rules[1..]| && ParseOutOfScopes(lib, probe, rules[1..][i]) == Err(ExcludedBy(lib, probe, rules).error);
          assert rules[1..][i] == rules[i + 1];
        }
      }
    }
  }

  /** A target is excluded iff some rule fires, as long as no rule aborts; an abort comes
      from a rule whose pattern does not compile. */
  lemma ExcludedIffSomeRuleFires(lib: NetLib, probe: Probe, rules: seq<string>)
    ensures (forall i :: 0 <= i < |rules| ==> ParseOutOfScopes(lib, probe, rules[i]).Ok?) ==>
      ExcludedBy(lib, probe, rules) == Ok(exists i :: 0 <= i < |rules| && ParseOutOfScopes(lib, probe, rules[i]) == Ok(true))
    ensures ExcludedBy(lib, probe, rules).Err? ==>
      exists i :: 0 <= i < |rules| && ParseOutOfScopes(lib, probe, rules[i]) == Err(ExcludedBy(lib, probe, rules).error)
  {
    if forall i :: 0 <= i < |rules| ==> ParseOutOfScopes(lib, probe, rules[i]).Ok? {
      ExcludedWhenSomeRuleFires(lib, probe, rules);
    }
    ExcludedFailsAtSomeRule(lib, probe, rules);
  }

  /** A rule whose only metacharacters are `.` and `*` never aborts the run. */
  lemma PlainExclusionNeverFails(lib: NetLib, probe: Probe, rule: string)
    requires Plain(rule)
    ensures ParseOutOfScopes(lib, probe, rule).Ok?
  {
    CompileRewrite(rule);
  }

  /** With no URL and no IP (main_test.go:96-102) no list of rules excludes anything. */
  lemma {:induction false} NilProbeNeverExcluded(lib: NetLib, rules: seq<string>)
    ensures ExcludedBy(lib, Probe(None, None), rules) == Ok(false)
    decreases |rules|
  {
    if rules != [] {
      NilProbeNeverExcluded(lib, rules[1..]);
    }
  }

  /** With a URL the IP is ignored (main_test.go:88-94). */
  lemma UrlProbeIgnoresIp(lib: NetLib, u: Url, ip: Option<Ip>, rule: string)
    ensures ParseOutOfScopes(lib, Probe(Some(u), ip), rule) == ParseOutOfScopes(lib, Probe(Some(u), None), rule)
  {
  }

  /** A `*.domain` exclusion keeps its `*` in the host it compares, so it excludes no
      target whose host has no `*`. */
  lemma WildcardExclusionKeepsStar(lib: NetLib, u: Url, rule: string, ru: Url)
    requires HasPrefix(rule, "*.") && CountChar(rule, '*') == 1
    requires lib.parseUrl("https://" + rule) == Some(ru) && '*' in ru.host
    requires '*' !in RemovePortFromHost(u)
    ensures ParseOutOfScopes(lib, Probe(Some(u), None), rule) == Ok(false)
  {
  }

  /** A rule with a `*` that is not a lone leading `*.` is a search for its glob. */
  lemma StarRuleSearches(lib: NetLib, u: Url, ip: Option<Ip>, rule: string)
    requires !(HasPrefix(rule, "*.") && CountChar(rule, '*') == 1) && '*' in rule && Plain(rule)
    ensures ParseOutOfScopes(lib, Probe(Some(u), ip), rule) == Ok(Search(GlobOf(rule), RemovePortFromHost(u)))
  {
    CompileRewrite(rule);
  }

  lemma ZendeskRule(rule: string)
    requires rule == "zendesk*.example.com"
    ensures rule == "zendesk" + "*" + ".example.com"
    ensures '*' !in "zendesk" && '*' !in ".example.com" && |"zendesk"| + |".example.com"| == 19
    ensures !HasPrefix(rule, "*.") && Plain(rule)
  {
    assert rule[..2] != "*." by { assert rule[0] == 'z'; }
    assert rule[7] == '*';
    forall x | x in rule
      ensures x == '.' || x == '*' || !IsMeta(x)
    {
      var k :| 0 <= k < |rule| && rule[k] == x;
    }
  }

  /** A pattern exclusion `a*c` needs the host to hold every literal of `a` and `c`... */
  lemma StarRuleNeedsLength(lib: NetLib, u: Url, ip: Option<Ip>, a: string, c: string)
    requires '*' !in a && '*' !in c && !HasPrefix(a + "*" + c, "*.") && Plain(a + "*" + c)
    requires |RemovePortFromHost(u)| < |a| + |c|
    ensures ParseOutOfScopes(lib, Probe(Some(u), ip), a + "*" + c) == Ok(false)
  {
    var rule := a + "*" + c;
    assert rule[|a|] == '*';
    StarRuleSearches(lib, u, ip, rule);
    StarGlob(a, c);
    if Search(GlobOf(rule), RemovePortFromHost(u)) {
      SearchNeedsLiterals(GlobOf(rule), RemovePortFromHost(u));
    }
  }

  /** ... and excludes every host `a b c` with a newline-free `b`. */
  lemma StarRuleExcludes(lib: NetLib, u: Url, ip: Option<Ip>, a: string, b: string, c: string)
    requires '*' !in a && '*' !in c && !HasPrefix(a + "*" + c, "*.") && Plain(a + "*" + c)
    requires '\n' !in b && RemovePortFromHost(u) == a + b + c
    ensures ParseOutOfScopes(lib, Probe(Some(u), ip), a + "*" + c) == Ok(true)
  {
    var rule := a + "*" + c;
    assert rule[|a|] == '*';
    StarRuleSearches(lib, u, ip, rule);
    StarMatches(a, b, c);
  }

  lemma PlainHost(u: Url)
    requires u.port == "" && ':' !in u.host
    ensures RemovePortFromHost(u) == u.host
  {
    RemovePortKeepsPlainHost(u.host, u.hostname);
  }

  /** The regex exclusion of main_test.go:51-56 does not exclude its bare domain. */
  lemma ZendeskPatternSparesDomain(lib: NetLib, ip: Option<Ip>, rule: string, u: Url)
    requires rule == "zendesk*.example.com" && u == Url("example.com", "", "example.com")
    ensures ParseOutOfScopes(lib, Probe(Some(u), ip), rule) == Ok(false)
  {
    ZendeskRule(rule);
    PlainHost(u);
    assert |u.host| == 11;
    StarRuleNeedsLength(lib, u, ip, "zendesk", ".example.com");
  }

  /** The regex exclusion of main_test.go:57-62 excludes a host with text in place of the `*`. */
  lemma ZendeskPatternExcludesSubdomain(lib: NetLib, ip: Option<Ip>, rule: string, u: Url)
    requires rule == "zendesk*.example.com"
    requires u.port == "" && u.host == "zendesk" + ".internal" + ".example.com"
    ensures ParseOutOfScopes(lib, Probe(Some(u), ip), rule) == Ok(true)
  {
    ZendeskRule(rule);
    assert ':' !in u.host by {
      assert ':' !in "zendesk" && ':' !in ".internal" && ':' !in ".example.com";
    }
    PlainHost(u);
    StarRuleExcludes(lib, u, ip, "zendesk", ".internal", ".example.com");
  }

  // ---------------------------------------------------------------------------
  // The firebounty loop as written (main.go:931-946) also runs a warning check that
  // slices outOfScope[0:4], which panics on a counted scope shorter than four bytes
  // (Go measures strings in bytes of their UTF-8 encoding, hence Utf8Len).

  function ProgramExclusionsAsWritten(lib: NetLib, probe: Probe, entries: seq<ScopeEntry>, chainMode: bool): Result<bool, Fatal> {
    if entries == [] then Ok(false)
    else if !Counts(entries[0]) then ProgramExclusionsAsWritten(lib, probe, entries[1..], chainMode)
    else if !chainMode && Utf8Len(entries[0].scope) < 4 then Err(ShortExclusion(entries[0].scope))
    else match ParseOutOfScopes(lib, probe, entries[0].scope)
      case Err(e) => Err(e)
      case Ok(true) => Ok(true)
      case Ok(false) => ProgramExclusionsAsWritten(lib, probe, entries[1..], chainMode)
  }

  /** The panic: a counted exclusion "N/A" aborts the run outside chain mode, while the
      corrected loop reads it like any other rule without a `*`. net/url parses
      "https://N/A" as host "N" with path "/A", so the rule excludes exactly the targets
      whose port-stripped host is "N". */
  lemma ShortExclusionPanics(lib: NetLib, u: Url, ru: Url)
    requires lib.parseUrl("https://N/A") == Some(ru) && ru.host == "N"
    ensures ProgramExclusionsAsWritten(lib, Probe(Some(u), None), [ScopeEntry("N/A", "web_application")], false) == Err(ShortExclusion("N/A"))
    ensures ExcludedBy(lib, Probe(Some(u), None), ExclusionRules(ProgramExclusions([ScopeEntry("N/A", "web_application")])))
            == Ok(RemovePortFromHost(u) == "N")
  {
    var es := [ScopeEntry("N/A", "web_application")];
    assert Counts(es[0]);
    assert es[1..] == [];
    assert CountedScopes(es) == ["N/A"];
    assert Utf8Len("N/A") == 3 by {
      assert "N/A"[1..] == "/A" && "/A"[1..] == "A" && "A"[1..] == [];
    }
    assert '*' !in "N/A";
    assert "https://" + "N/A" == "https://N/A";
    CountedScopesCons(es);
    ExcludedByCons(lib, Probe(Some(u), None), "N/A", []);
  }

  /** Where the as-written loop does not panic it agrees with the corrected one: in chain
      mode, or when every counted scope is at least four bytes long. */
  lemma {:induction false} AsWrittenAgreesWithoutShortScopes(lib: NetLib, probe: Probe, entries: seq<ScopeEntry>, chainMode: bool)
    requires chainMode || forall e :: e in entries && Counts(e) ==> Utf8Len(e.scope) >= 4
    ensures ProgramExclusionsAsWritten(lib, probe, entries, chainMode) == ExcludedBy(lib, probe, CountedScopes(entries))
    decreases |entries|
  {
    if entries != [] {
      assert forall e :: e in entries[1..] ==> e in entries;
      AsWrittenAgreesWithoutShortScopes(lib, probe, entries[1..], chainMode);
      CountedScopesCons(entries);
      if Counts(entries[0]) {
        assert entries[0] in entries;
        ExcludedByCons(lib, probe, entries[0].scope, CountedScopes(entries[1..]));
      } else {
        assert CountedScopes(entries) == CountedScopes(entries[1..]);
      }
    }
  }
}
