/** One scope rule against one target: the classification at the top of parseScopes
    (main.go:645-673) and the body of its scanner loop (main.go:686-835). */
module Matching {
  import opened Wrappers
  import opened Text
  import opened Net
  import opened Pattern
  import opened Targets
  import opened Exclusion

  /** How parseScopesWrapper asks for a rule to be matched: the isWilcard and
      parseScopeAsRegex arguments of parseScopes (regex mode always comes with isWilcard). */
  datatype Mode = Wildcard | Exact | Regex

  /** The rule as parseScopes classifies it. */
  datatype Rule =
    | AddressRule(cidr: Option<Cidr>)          // parseAsIP: an IP address or a CIDR range
    | HostRule(host: string, wildcard: bool)   // the Host of "http://" + scope
    | PatternRule(pattern: string)             // the rewritten regular expression

  /** The global switches the loop reads: -iu, -ho hostnames only, -ch. */
  datatype Flags = Flags(includeUnsure: bool, hostnamesOnly: bool, chainMode: bool)

  /** Classify a scope; None is the unparsable scope parseScopes warns about and gives up on. */
  function ClassifyRule(lib: NetLib, scope: string, mode: Mode): (r: Option<Rule>)
    ensures r.None? <==> mode != Regex && lib.parseIp(scope).None? && lib.parseCidr(scope).None?
                         && lib.parseUrl("http://" + scope).None?
    ensures r.Some? && r.value.PatternRule? <==> mode == Regex
    ensures mode != Regex && (lib.parseIp(scope).Some? || lib.parseCidr(scope).Some?) ==>
      r == Some(AddressRule(lib.parseCidr(scope)))
  {
    if mode == Regex then Some(PatternRule(Rewrite(scope)))
    else if lib.parseIp(scope).Some? || lib.parseCidr(scope).Some? then Some(AddressRule(lib.parseCidr(scope)))
    else match lib.parseUrl("http://" + scope)
      case None => None
      case Some(su) => Some(HostRule(su.host, mode == Wildcard))
  }

  /** What one branch of the loop makes of a target before the exclusion veto: whether it
      matched, whether a miss may still be logged as unsure, what isOutOfScope is asked
      about, and the string that would be logged. */
  datatype Judgement = Judgement(matched: bool, unsureAllowed: bool, probe: Probe, entry: string)

  /** Logged for domain and pattern rules: Hostname() with -ho, else the raw line. */
  function UrlEntry(t: Target, flags: Flags): string {
    if flags.hostnamesOnly then t.url.hostname else t.line
  }

  /** Logged for address rules: the target's IP String() with -ho, else the raw line. */
  function IpEntry(t: Target, flags: Flags): string {
    if flags.hostnamesOnly then IpString(t.ip) else t.line
  }

  /** The branch for one admitted target. The test `targetIp.String() != ""` of the code is
      always true (a nil IP prints "<nil>"), so the branch depends on the rule alone. */
  function Judge(rule: Rule, t: Target, flags: Flags): Result<Judgement, Fatal> {
    match rule
    case PatternRule(p) =>
      (match Compile(p)
       case None => Err(BadPattern(p))
       case Some(g) => Ok(Judgement(Search(g, t.portless), flags.includeUnsure, Probe(Some(t.url), None), UrlEntry(t, flags))))
    case AddressRule(None) =>
      // the scopeIP compared here is the outer, never assigned, nil one
      Ok(Judgement(IpString(t.ip) == IpString(None), flags.includeUnsure, Probe(None, t.ip), IpEntry(t, flags)))
    case AddressRule(Some(c)) =>
      Ok(Judgement(CidrContains(c, t.ip), flags.includeUnsure && IpString(t.ip) != "<nil>", Probe(None, t.ip), IpEntry(t, flags)))
    case HostRule(h, wildcard) =>
      var hit := if wildcard then HasSuffix(t.portless, h) else t.portless == h;
      Ok(Judgement(hit, flags.includeUnsure, Probe(Some(t.url), None), UrlEntry(t, flags)))
  }

  /** What happens to a target: logged in scope, logged unsure, or nothing. */
  datatype Verdict = InScope(entry: string) | Unsure(entry: string) | Dropped

  /** The veto applied to a judgement that would be logged, given isOutOfScope's answer. */
  function Settle(j: Judgement, excluded: Result<bool, Fatal>): Result<Verdict, Fatal> {
    match excluded
    case Err(e) => Err(e)
    case Ok(true) => Ok(Dropped)
    case Ok(false) => Ok(if j.matched then InScope(j.entry) else Unsure(j.entry))
  }

  /** isOutOfScope is consulted only for a target about to be logged. */
  function Decide(lib: NetLib, excl: Exclusions, j: Judgement): Result<Verdict, Fatal> {
    if !j.matched && !j.unsureAllowed then Ok(Dropped)
    else Settle(j, ExcludedBy(lib, j.probe, ExclusionRules(excl)))
  }

  /** One iteration of the scanner loop, with a failed second URL parse skipped like an
      unparsable line (see TargetStepAsWritten). */
  function TargetStep(lib: NetLib, rule: Rule, flags: Flags, excl: Exclusions, line: string): Result<Verdict, Fatal> {
    match ParseTarget(lib, line)
    case None => Ok(Dropped)
    case Some(u) =>
      if u.host == "" && !flags.chainMode then Ok(Dropped)
      else match Judge(rule, MakeTarget(lib, line, u), flags)
        case Err(e) => Err(e)
        case Ok(j) => Decide(lib, excl, j)
  }

  /** The iteration as written: removePortFromHost runs on the nil URL of a failed second
      parse before the failure is looked at (main.go:692-695). */
  function TargetStepAsWritten(lib: NetLib, rule: Rule, flags: Flags, excl: Exclusions, line: string): Result<Verdict, Fatal> {
    if ParseTarget(lib, line).None? then Err(NilTargetUrl(line))
    else TargetStep(lib, rule, flags, excl, line)
  }

  // ---------------------------------------------------------------------------
  // The veto and the unsure switch.

  /** A target is logged iff it is admitted, it matched or may be logged unsure, and no
      exclusion rule fires. */
  lemma StepLogsIffNotExcluded(lib: NetLib, rule: Rule, flags: Flags, excl: Exclusions, line: string)
    ensures var v := TargetStep(lib, rule, flags, excl, line);
      (v.Ok? && !v.value.Dropped?) <==>
        (var pt := ParseTarget(lib, line);
         pt.Some? && (pt.value.host != "" || flags.chainMode)
         && var jr := Judge(rule, MakeTarget(lib, line, pt.value), flags);
            jr.Ok? && (jr.value.matched || jr.value.unsureAllowed)
            && ExcludedBy(lib, jr.value.probe, ExclusionRules(excl)) == Ok(false))
  {
  }

  /** A target is logged unsure only with -iu, and logged in scope only when it matched. */
  lemma StepUnsureNeedsFlag(lib: NetLib, rule: Rule, flags: Flags, excl: Exclusions, line: string)
    ensures var v := TargetStep(lib, rule, flags, excl, line);
      v.Ok? && v.value.Unsure? ==> flags.includeUnsure
    ensures var v := TargetStep(lib, rule, flags, excl, line);
      v.Ok? && v.value.InScope? ==>
        var u := ParseTarget(lib, line).value;
        Judge(rule, MakeTarget(lib, line, u), flags).value.matched
  {
  }

  /** The only abort is a pattern that does not compile, the rule's own or an exclusion's. */
  lemma StepAbortsOnlyOnBadPattern(lib: NetLib, rule: Rule, flags: Flags, excl: Exclusions, line: string)
    ensures var v := TargetStep(lib, rule, flags, excl, line);
      v.Err? ==>
        v.error.BadPattern?
        && ((rule.PatternRule? && Compile(rule.pattern).None? && v.error.pattern == rule.pattern)
            || exists i :: 0 <= i < |ExclusionRules(excl)| && '*' in ExclusionRules(excl)[i]
                 && v.error.pattern == Rewrite(ExclusionRules(excl)[i]))
  {
    var v := TargetStep(lib, rule, flags, excl, line);
    if v.Err? && ParseTarget(lib, line).Some? {
      var u := ParseTarget(lib, line).value;
      var jr := Judge(rule, MakeTarget(lib, line, u), flags);
      if jr.Ok? {
        ExcludedIffSomeRuleFires(lib, jr.value.probe, ExclusionRules(excl));
        var i :| 0 <= i < |ExclusionRules(excl)| && ParseOutOfScopes(lib, jr.value.probe, ExclusionRules(excl)[i]) == Err(v.error);
      }
    }
  }

  // ---------------------------------------------------------------------------
  // Domain rules.

  /** A scope that is neither an address nor a CIDR range is compared through the Host of
      "http://" + scope, as a suffix in wildcard mode and for equality in exact mode. */
  lemma DomainRuleCompares(lib: NetLib, scope: string, mode: Mode, su: Url, flags: Flags, t: Target)
    requires mode != Regex && lib.parseIp(scope).None? && lib.parseCidr(scope).None?
    requires lib.parseUrl("http://" + scope) == Some(su)
    ensures ClassifyRule(lib, scope, mode) == Some(HostRule(su.host, mode == Wildcard))
    ensures var jr := Judge(ClassifyRule(lib, scope, mode).value, t, flags);
      jr.Ok? && jr.value.probe == Probe(Some(t.url), None) && jr.value.entry == UrlEntry(t, flags)
      && (mode == Wildcard ==> (jr.value.matched <==> HasSuffix(t.portless, su.host)))
      && (mode == Exact ==> (jr.value.matched <==> t.portless == su.host))
  {
  }

  /** Exclusion precedence: a target whose port-stripped host is the host of an exclusion
      rule without `*` is dropped by a domain rule, whether the rule matched it or not. */
  lemma ExclusionTakesPrecedence(lib: NetLib, host: string, wildcard: bool, flags: Flags, e: string, line: string, u: Url, ru: Url)
    requires ParseTarget(lib, line) == Some(u)
    requires '*' !in e && lib.parseUrl("https://" + e) == Some(ru) && ru.host == RemovePortFromHost(u)
    ensures TargetStep(lib, HostRule(host, wildcard), flags, ExclusionLines([e]), line) == Ok(Dropped)
  {
    assert [e] + [] == [e];
    ExcludedByCons(lib, Probe(Some(u), None), e, []);
  }

  /** The wildcard test has no label boundary: `evilexample.com` is inside `example.com`,
      while the exact test keeps it out. */
  lemma WildcardHasNoLabelBoundary(t: Target, flags: Flags)
    requires t.portless == "evil" + "example.com"
    ensures Judge(HostRule("example.com", true), t, flags).value.matched
    ensures !Judge(HostRule("example.com", false), t, flags).value.matched
  {
    var p := t.portless;
    assert p[|p| - |"example.com"|..] == "example.com";
    assert |p| != |"example.com"|;
  }

  /** An empty wildcard host, which the empty scope line gives at level 1, matches every
      target. */
  lemma EmptyWildcardHostMatchesAll(lib: NetLib, su: Url, flags: Flags, t: Target)
    requires lib.parseIp("").None? && lib.parseCidr("").None?
    requires lib.parseUrl("http://" + "") == Some(su) && su.host == ""
    ensures ClassifyRule(lib, "", Wildcard) == Some(HostRule("", true))
    ensures Judge(HostRule("", true), t, flags).value.matched
  {
    assert t.portless[|t.portless|..] == [];
  }

  // ---------------------------------------------------------------------------
  // Pattern rules.

  /** A rule in regex mode whose only metacharacters are `.` and `*` never aborts, and a
      target matches iff some substring of its port-stripped host is in the language of
      the rule (each `*` a run of characters other than newline, the rest literal). */
  lemma PatternRuleMatchesSubstring(lib: NetLib, scope: string, flags: Flags, t: Target)
    requires Plain(scope)
    ensures ClassifyRule(lib, scope, Regex) == Some(PatternRule(Rewrite(scope)))
    ensures var jr := Judge(PatternRule(Rewrite(scope)), t, flags);
      jr.Ok? && jr.value.probe == Probe(Some(t.url), None) && jr.value.entry == UrlEntry(t, flags)
      && (jr.value.matched <==> exists i, j :: 0 <= i <= j <= |t.portless| && Full(GlobOf(scope), t.portless[i..j]))
  {
    CompileRewrite(scope);
    SearchIsSubstringMatch(GlobOf(scope), t.portless);
  }

  /** A pattern that does not compile aborts the run at the first target that reaches it. */
  lemma BadPatternAborts(lib: NetLib, p: string, flags: Flags, excl: Exclusions, line: string, u: Url)
    requires Compile(p).None?
    requires ParseTarget(lib, line) == Some(u) && (u.host != "" || flags.chainMode)
    ensures TargetStep(lib, PatternRule(p), flags, excl, line) == Err(BadPattern(p))
  {
  }

  // ---------------------------------------------------------------------------
  // Address rules.

  /** A CIDR rule matches exactly the targets it contains, and a target that is not an IP
      literal is never logged by it, in scope or unsure, whatever the exclusions. */
  lemma CidrRuleMatchesContained(lib: NetLib, c: Cidr, flags: Flags, excl: Exclusions, line: string, u: Url)
    requires ParseTarget(lib, line) == Some(u) && (u.host != "" || flags.chainMode)
    ensures var t := MakeTarget(lib, line, u);
      Judge(AddressRule(Some(c)), t, flags).value.matched <==> CidrContains(c, t.ip)
    ensures lib.parseIp(RemovePortFromHost(u)).None? ==>
      TargetStep(lib, AddressRule(Some(c)), flags, excl, line) == Ok(Dropped)
  {
  }

  /** A scope that parses as a CIDR range logs, in scope, every admitted target whose host
      is an address in the range and that no exclusion removes: its line, or with -ho the
      address. */
  lemma CidrScopeLogsContained(lib: NetLib, scope: string, mode: Mode, c: Cidr, flags: Flags, excl: Exclusions, line: string, u: Url, ip: Ip)
    requires mode != Regex && lib.parseCidr(scope) == Some(c)
    requires ParseTarget(lib, line) == Some(u) && (u.host != "" || flags.chainMode)
    requires lib.parseIp(RemovePortFromHost(u)) == Some(ip) && CidrContains(c, Some(ip))
    requires ExcludedBy(lib, Probe(None, Some(ip)), ExclusionRules(excl)) == Ok(false)
    ensures ClassifyRule(lib, scope, mode) == Some(AddressRule(Some(c)))
    ensures TargetStep(lib, AddressRule(Some(c)), flags, excl, line)
            == Ok(InScope(if flags.hostnamesOnly then ip.text else line))
  {
  }

  /** A scope that is an IP address but not a CIDR range ends up compared with the nil
      address: the address itself plays no part, every target that is not an IP literal
      matches and no exclusion can remove it, and an IP target never matches. */
  lemma BareIpRuleIgnoresAddress(lib: NetLib, scope: string, mode: Mode, flags: Flags, excl: Exclusions, line: string, u: Url)
    requires mode != Regex && lib.parseIp(scope).Some? && lib.parseCidr(scope).None?
    requires ParseTarget(lib, line) == Some(u) && (u.host != "" || flags.chainMode)
    ensures ClassifyRule(lib, scope, mode) == Some(AddressRule(None))
    ensures lib.parseIp(RemovePortFromHost(u)).None? ==>
      TargetStep(lib, AddressRule(None), flags, excl, line) == Ok(InScope(if flags.hostnamesOnly then "<nil>" else line))
    ensures lib.parseIp(RemovePortFromHost(u)).Some? ==>
      var v := TargetStep(lib, AddressRule(None), flags, excl, line);
      v.Ok? && !v.value.InScope?
  {
    NilProbeNeverExcluded(lib, ExclusionRules(excl));
    if lib.parseIp(RemovePortFromHost(u)).Some? {
      var t := MakeTarget(lib, line, u);
      ExcludedIffSomeRuleFires(lib, Probe(None, t.ip), ExclusionRules(excl));
      assert forall r :: ParseOutOfScopes(lib, Probe(None, t.ip), r).Ok?;
    }
  }

  // ---------------------------------------------------------------------------
  // Admission of target lines.

  /** A line whose URL has no host is dropped outside chain mode and judged in chain mode. */
  lemma EmptyHostAdmittedOnlyInChainMode(lib: NetLib, rule: Rule, flags: Flags, excl: Exclusions, line: string, u: Url)
    requires ParseTarget(lib, line) == Some(u) && u.host == ""
    ensures !flags.chainMode ==> TargetStep(lib, rule, flags, excl, line) == Ok(Dropped)
    ensures flags.chainMode ==>
      TargetStep(lib, rule, flags, excl, line) ==
      (match Judge(rule, MakeTarget(lib, line, u), flags)
       case Err(e) => Err(e)
       case Ok(j) => Decide(lib, excl, j))
  {
  }

  /** The two iterations differ only on a line whose second parse fails: the code as
      written dereferences the nil URL, the corrected one skips the line. */
  lemma NilTargetPanics(lib: NetLib, rule: Rule, flags: Flags, excl: Exclusions, line: string)
    ensures ParseTarget(lib, line).None? ==>
      TargetStepAsWritten(lib, rule, flags, excl, line) == Err(NilTargetUrl(line))
      && TargetStep(lib, rule, flags, excl, line) == Ok(Dropped)
    ensures ParseTarget(lib, line).Some? ==>
      TargetStepAsWritten(lib, rule, flags, excl, line) == TargetStep(lib, rule, flags, excl, line)
  {
  }

  /** "a b" parses as a path with no host, and "https://a b" not at all (a space in a host
      name): the run as written panics on it. */
  lemma NilTargetExample(lib: NetLib, rule: Rule, flags: Flags, excl: Exclusions, line: string)
    requires line == "a b"
    requires lib.parseUrl(line).Some? && lib.parseUrl(line).value.host == ""
    requires lib.parseUrl("https://" + line).None?
    ensures TargetStepAsWritten(lib, rule, flags, excl, line) == Err(NilTargetUrl(line))
  {
  }
}
