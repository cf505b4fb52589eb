/** A whole run: the scanner loop of parseScopes (main.go:644-841) over the global
    accumulators (logInScope/logUnsure, main.go:1059-1065), the loops that feed it scope
    rules (main.go:456-458, 1094-1124) and the post-processing of main (main.go:474-491). */
module Scoper {
  import opened Wrappers
  import opened Text
  import opened Net
  import opened Targets
  import opened Exclusion
  import opened Matching
  import opened Dispatch
  import opened Dedup
  import opened Sorting
  import opened PostProcess
  import opened Company

  /** logInScope appends to inscopeURLs; logUnsure sets unsureURLs to inscopeURLs plus
      the entry (main.go:1064 appends to the wrong slice). */
  function Record(log: Log, v: Verdict): Log {
    match v
    case InScope(e) => Log(log.inscope + [e], log.unsure)
    case Unsure(e) => Log(log.inscope, log.inscope + [e])
    case Dropped => log
  }

  /** The scanner loop over the target lines, from the accumulators `log`. */
  function ScanTargets(lib: NetLib, rule: Rule, flags: Flags, excl: Exclusions, lines: seq<string>, log: Log): Result<Log, Fatal>
    decreases |lines|
  {
    if lines == [] then Ok(log)
    else match TargetStep(lib, rule, flags, excl, lines[0])
      case Err(e) => Err(e)
      case Ok(v) => ScanTargets(lib, rule, flags, excl, lines[1..], Record(log, v))
  }

  /** parseScopes: an unparsable scope is given up on; otherwise every target is scanned. */
  function ParseScopesRun(lib: NetLib, scope: string, mode: Mode, flags: Flags, excl: Exclusions, targets: seq<string>, log: Log): Result<Log, Fatal> {
    match ClassifyRule(lib, scope, mode)
    case None => Ok(log)
    case Some(rule) => ScanTargets(lib, rule, flags, excl, targets, log)
  }

  /** parseScopesWrapper. */
  function WrapperRun(lib: NetLib, scope: string, level: Level, flags: Flags, excl: Exclusions, targets: seq<string>, log: Log): Result<Log, Fatal> {
    match RouteOf(scope, level)
    case Skip => Ok(log)
    case Run(s, mode) => ParseScopesRun(lib, s, mode, flags, excl, targets, log)
  }

  /** Every scope rule in turn against all targets. */
  function ScopesRun(lib: NetLib, scopes: seq<string>, level: Level, flags: Flags, excl: Exclusions, targets: seq<string>, log: Log): Result<Log, Fatal>
    decreases |scopes|
  {
    if scopes == [] then Ok(log)
    else match WrapperRun(lib, scopes[0], level, flags, excl, targets, log)
      case Err(e) => Err(e)
      case Ok(l) => ScopesRun(lib, scopes[1..], level, flags, excl, targets, l)
  }

  /** The exclusions of a run: the out-of-scope file when one is given or found, else the
      out-of-scope entries handed to parseScopesWrapper. */
  function ExclusionsFor(oosFile: Option<seq<string>>, fallback: seq<ScopeEntry>): Exclusions {
    match oosFile
    case Some(lines) => ExclusionLines(lines)
    case None => ProgramExclusions(fallback)
  }

  /** parseCompany: the program's counted in-scope entries as rules. */
  function CompanyRun(lib: NetLib, program: Program, level: Level, flags: Flags, oosFile: Option<seq<string>>, targets: seq<string>, log: Log): Result<Log, Fatal> {
    ScopesRun(lib, CountedScopes(program.inScopes), level, flags, ExclusionsFor(oosFile, program.outOfScopes), targets, log)
  }

  function Finish(r: Result<Log, Fatal>, includeUnsure: bool): Result<Log, Fatal> {
    match r
    case Err(e) => Err(e)
    case Ok(l) => Ok(PostProcessed(l, includeUnsure))
  }

  /** The run with a scope list file: no program out-of-scopes are passed on. */
  function ScopeListRun(lib: NetLib, scopes: seq<string>, level: Level, flags: Flags, oosFile: Option<seq<string>>, targets: seq<string>): Result<Log, Fatal> {
    Finish(ScopesRun(lib, scopes, level, flags, ExclusionsFor(oosFile, []), targets, Log([], [])), flags.includeUnsure)
  }

  /** The run with a single matching firebounty program. */
  function ProgramRun(lib: NetLib, program: Program, level: Level, flags: Flags, oosFile: Option<seq<string>>, targets: seq<string>): Result<Log, Fatal> {
    Finish(CompanyRun(lib, program, level, flags, oosFile, targets, Log([], [])), flags.includeUnsure)
  }

  // ---------------------------------------------------------------------------
  // What a run keeps and what it prints.

  /** Recording a verdict keeps the unsure list in the shape logUnsure gives it. */
  lemma RecordKeepsShape(log: Log, v: Verdict)
    requires UnsureShape(log)
    ensures UnsureShape(Record(log, v))
  {
    var r := Record(log, v);
    if v.InScope? && log.unsure != [] {
      var k :| 0 <= k <= |log.inscope| && log.unsure == log.inscope[..k] + [log.unsure[|log.unsure| - 1]];
      assert r.inscope[..k] == log.inscope[..k];
    } else if v.Unsure? {
      assert r.unsure == r.inscope[..|r.inscope|] + [r.unsure[|r.unsure| - 1]];
    }
  }

  lemma {:induction false} ScanKeepsShape(lib: NetLib, rule: Rule, flags: Flags, excl: Exclusions, lines: seq<string>, log: Log)
    requires UnsureShape(log)
    ensures var r := ScanTargets(lib, rule, flags, excl, lines, log); r.Ok? ==> UnsureShape(r.value)
    decreases |lines|
  {
    if lines != [] {
      var v := TargetStep(lib, rule, flags, excl, lines[0]);
      if v.Ok? {
        RecordKeepsShape(log, v.value);
        ScanKeepsShape(lib, rule, flags, excl, lines[1..], Record(log, v.value));
      }
    }
  }

  lemma {:induction false} ScopesKeepShape(lib: NetLib, scopes: seq<string>, level: Level, flags: Flags, excl: Exclusions, targets: seq<string>, log: Log)
    requires UnsureShape(log)
    ensures var r := ScopesRun(lib, scopes, level, flags, excl, targets, log); r.Ok? ==> UnsureShape(r.value)
    decreases |scopes|
  {
    if scopes != [] {
      var w := WrapperRun(lib, scopes[0], level, flags, excl, targets, log);
      match RouteOf(scopes[0], level) {
        case Skip =>
        case Run(sc, mode) =>
          match ClassifyRule(lib, sc, mode) {
            case None =>
            case Some(rule) => ScanKeepsShape(lib, rule, flags, excl, targets, log);
          }
      }
      if w.Ok? {
        ScopesKeepShape(lib, scopes[1..], level, flags, excl, targets, w.value);
      }
    }
  }

  /** Because logUnsure copies the in-scope list, a run prints at most one unsure entry. */
  lemma RunPrintsAtMostOneUnsure(lib: NetLib, scopes: seq<string>, level: Level, flags: Flags, oosFile: Option<seq<string>>, targets: seq<string>)
    requires flags.includeUnsure
    ensures var r := ScopeListRun(lib, scopes, level, flags, oosFile, targets); r.Ok? ==> |r.value.unsure| <= 1
  {
    ScopesKeepShape(lib, scopes, level, flags, ExclusionsFor(oosFile, []), targets, Log([], []));
    var raw := ScopesRun(lib, scopes, level, flags, ExclusionsFor(oosFile, []), targets, Log([], []));
    if raw.Ok? {
      AtMostOneUnsure(raw.value);
    }
  }

  lemma ProgramPrintsAtMostOneUnsure(lib: NetLib, program: Program, level: Level, flags: Flags, oosFile: Option<seq<string>>, targets: seq<string>)
    requires flags.includeUnsure
    ensures var r := ProgramRun(lib, program, level, flags, oosFile, targets); r.Ok? ==> |r.value.unsure| <= 1
  {
    var excl := ExclusionsFor(oosFile, program.outOfScopes);
    ScopesKeepShape(lib, CountedScopes(program.inScopes), level, flags, excl, targets, Log([], []));
    var raw := CompanyRun(lib, program, level, flags, oosFile, targets, Log([], []));
    if raw.Ok? {
      AtMostOneUnsure(raw.value);
    }
  }

  /** Without -iu nothing is logged unsure. */
  lemma {:induction false} ScanWithoutUnsureFlag(lib: NetLib, rule: Rule, flags: Flags, excl: Exclusions, lines: seq<string>, log: Log)
    requires !flags.includeUnsure
    ensures var r := ScanTargets(lib, rule, flags, excl, lines, log); r.Ok? ==> r.value.unsure == log.unsure
    decreases |lines|
  {
    if lines != [] {
      StepUnsureNeedsFlag(lib, rule, flags, excl, lines[0]);
      var v := TargetStep(lib, rule, flags, excl, lines[0]);
      if v.Ok? {
        ScanWithoutUnsureFlag(lib, rule, flags, excl, lines[1..], Record(log, v.value));
      }
    }
  }

  /** Every entry a scan adds to the in-scope list is the in-scope verdict of one of its
      target lines, so it matched and no exclusion removed it (StepLogsIffNotExcluded). */
  lemma {:induction false} ScanInScopeFromSteps(lib: NetLib, rule: Rule, flags: Flags, excl: Exclusions, lines: seq<string>, log: Log)
    ensures var r := ScanTargets(lib, rule, flags, excl, lines, log);
      r.Ok? ==>
        |log.inscope| <= |r.value.inscope| && r.value.inscope[..|log.inscope|] == log.inscope
        && forall k :: |log.inscope| <= k < |r.value.inscope| ==>
             exists i :: 0 <= i < |lines| && TargetStep(lib, rule, flags, excl, lines[i]) == Ok(InScope(r.value.inscope[k]))
    decreases |lines|
  {
    if lines != [] {
      var v := TargetStep(lib, rule, flags, excl, lines[0]);
      if v.Ok? {
        var next := Record(log, v.value);
        ScanInScopeFromSteps(lib, rule, flags, excl, lines[1..], next);
        var r := ScanTargets(lib, rule, flags, excl, lines, log);
        assert r == ScanTargets(lib, rule, flags, excl, lines[1..], next);
        if r.Ok? {
          var fin := r.value.inscope;
          assert fin[..|next.inscope|] == next.inscope;
          assert fin[..|log.inscope|] == next.inscope[..|log.inscope|];
          forall k | |log.inscope| <= k < |fin|
            ensures exists i :: 0 <= i < |lines| && TargetStep(lib, rule, flags, excl, lines[i]) == Ok(InScope(fin[k]))
          {
            if k < |next.inscope| {
              assert v.value.InScope? && fin[k] == next.inscope[k] == v.value.entry;
              assert TargetStep(lib, rule, flags, excl, lines[0]) == Ok(InScope(fin[k]));
            } else {
              var i :| 0 <= i < |lines[1..]| && TargetStep(lib, rule, flags, excl, lines[1..][i]) == Ok(InScope(fin[k]));
              assert lines[1..][i] == lines[i + 1];
            }
          }
        }
      }
    }
  }

  /** A rule that the wrapper drops, or that parseScopes cannot parse, changes nothing. */
  lemma IgnoredRuleChangesNothing(lib: NetLib, scope: string, level: Level, flags: Flags, excl: Exclusions, targets: seq<string>, log: Log)
    requires RouteOf(scope, level) == Skip
      || (RouteOf(scope, level).Run? && ClassifyRule(lib, RouteOf(scope, level).scope, RouteOf(scope, level).mode).None?)
    ensures WrapperRun(lib, scope, level, flags, excl, targets, log) == Ok(log)
  {
  }

  /** The printed lists are sorted and free of duplicates; with -iu they are disjoint and
      every printed unsure entry is what some scope rule logs unsure for some target line;
      without it nothing is printed unsure. */
  lemma RunOutput(lib: NetLib, scopes: seq<string>, level: Level, flags: Flags, oosFile: Option<seq<string>>, targets: seq<string>)
    ensures var r := ScopeListRun(lib, scopes, level, flags, oosFile, targets);
      r.Ok? ==>
        Sorted(r.value.inscope) && Distinct(r.value.inscope)
        && (flags.includeUnsure ==>
              Sorted(r.value.unsure) && Distinct(r.value.unsure)
              && (forall x :: x in r.value.unsure ==> x !in r.value.inscope)
              && forall x :: x in r.value.unsure ==> LoggedUnsureBy(lib, scopes, level, flags, ExclusionsFor(oosFile, []), targets, x))
        && (!flags.includeUnsure ==> r.value.unsure == [])
  {
    var excl := ExclusionsFor(oosFile, []);
    var raw := ScopesRun(lib, scopes, level, flags, excl, targets, Log([], []));
    PrintedUnsureLogged(lib, scopes, level, flags, excl, targets, raw);
    if raw.Ok? {
      PostProcessedMeaning(raw.value, flags.includeUnsure);
      if !flags.includeUnsure {
        ScopesWithoutUnsureFlag(lib, scopes, level, flags, excl, targets, Log([], []));
      }
    }
  }

  /** Scope `scope`, dispatched at `level` and classified, puts `x` in scope for target `line`. */
  predicate RuleLogs(lib: NetLib, scope: string, level: Level, flags: Flags, excl: Exclusions, line: string, x: string) {
    match RouteOf(scope, level)
    case Skip => false
    case Run(sc, mode) =>
      (match ClassifyRule(lib, sc, mode)
       case None => false
       case Some(rule) => TargetStep(lib, rule, flags, excl, line) == Ok(InScope(x)))
  }

  ghost predicate LoggedBy(lib: NetLib, scopes: seq<string>, level: Level, flags: Flags, excl: Exclusions, targets: seq<string>, x: string) {
    exists scope, line :: scope in scopes && line in targets && RuleLogs(lib, scope, level, flags, excl, line, x)
  }

  lemma WrapperInScopeFromSteps(lib: NetLib, scope: string, level: Level, flags: Flags, excl: Exclusions, targets: seq<string>, log: Log)
    ensures var w := WrapperRun(lib, scope, level, flags, excl, targets, log);
      w.Ok? ==> forall x :: x in w.value.inscope ==>
        x in log.inscope || exists line :: line in targets && RuleLogs(lib, scope, level, flags, excl, line, x)
  {
    var w := WrapperRun(lib, scope, level, flags, excl, targets, log);
    match RouteOf(scope, level) {
      case Skip =>
      case Run(sc, mode) =>
        match ClassifyRule(lib, sc, mode) {
          case None =>
          case Some(rule) =>
            ScanInScopeFromSteps(lib, rule, flags, excl, targets, log);
            if w.Ok? {
              var fin := w.value.inscope;
              forall x | x in fin
                ensures x in log.inscope || exists line :: line in targets && RuleLogs(lib, scope, level, flags, excl, line, x)
              {
                var k :| 0 <= k < |fin| && fin[k] == x;
                if k < |log.inscope| {
                  assert x == fin[..|log.inscope|][k];
                } else {
                  var i :| 0 <= i < |targets| && TargetStep(lib, rule, flags, excl, targets[i]) == Ok(InScope(x));
                  assert RuleLogs(lib, scope, level, flags, excl, targets[i], x);
                }
              }
            }
        }
    }
  }

  lemma {:induction false} ScopesInScopeFromSteps(lib: NetLib, scopes: seq<string>, level: Level, flags: Flags, excl: Exclusions, targets: seq<string>, log: Log)
    ensures var r := ScopesRun(lib, scopes, level, flags, excl, targets, log);
      r.Ok? ==> forall x :: x in r.value.inscope ==> x in log.inscope || LoggedBy(lib, scopes, level, flags, excl, targets, x)
    decreases |scopes|
  {
    if scopes != [] {
      var w := WrapperRun(lib, scopes[0], level, flags, excl, targets, log);
      if w.Ok? {
        WrapperInScopeFromSteps(lib, scopes[0], level, flags, excl, targets, log);
        ScopesInScopeFromSteps(lib, scopes[1..], level, flags, excl, targets, w.value);
        var r := ScopesRun(lib, scopes, level, flags, excl, targets, log);
        if r.Ok? {
          forall x | x in r.value.inscope
            ensures x in log.inscope || LoggedBy(lib, scopes, level, flags, excl, targets, x)
          {
            if !LoggedBy(lib, scopes[1..], level, flags, excl, targets, x) {
              if x !in log.inscope {
                var line :| line in targets && RuleLogs(lib, scopes[0], level, flags, excl, line, x);
                assert scopes[0] in scopes;
              }
            } else {
              var scope, line :| scope in scopes[1..] && line in targets && RuleLogs(lib, scope, level, flags, excl, line, x);
              assert scope in scopes;
            }
          }
        }
      }
    }
  }

  /** Scope `scope`, dispatched at `level` and classified, logs `x` unsure for target `line`. */
  predicate RuleLogsUnsure(lib: NetLib, scope: string, level: Level, flags: Flags, excl: Exclusions, line: string, x: string) {
    match RouteOf(scope, level)
    case Skip => false
    case Run(sc, mode) =>
      (match ClassifyRule(lib, sc, mode)
       case None => false
       case Some(rule) => TargetStep(lib, rule, flags, excl, line) == Ok(Unsure(x)))
  }

  ghost predicate LoggedUnsureBy(lib: NetLib, scopes: seq<string>, level: Level, flags: Flags, excl: Exclusions, targets: seq<string>, x: string) {
    exists scope, line :: scope in scopes && line in targets && RuleLogsUnsure(lib, scope, level, flags, excl, line, x)
  }

  /** The unsure list `u` ends with the unsure verdict of one of the target lines. */
  ghost predicate EndsWithUnsureStep(lib: NetLib, rule: Rule, flags: Flags, excl: Exclusions, lines: seq<string>, u: seq<string>) {
    u != [] && exists i :: 0 <= i < |lines| && TargetStep(lib, rule, flags, excl, lines[i]) == Ok(Unsure(u[|u| - 1]))
  }

  /** A scan leaves the unsure list alone, or ends it with the unsure verdict of one of
      its target lines (each logUnsure call overwrites the list). */
  lemma {:induction false} ScanUnsureFromSteps(lib: NetLib, rule: Rule, flags: Flags, excl: Exclusions, lines: seq<string>, log: Log)
    ensures var r := ScanTargets(lib, rule, flags, excl, lines, log);
      r.Ok? ==> r.value.unsure == log.unsure || EndsWithUnsureStep(lib, rule, flags, excl, lines, r.value.unsure)
    decreases |lines|
  {
    if lines != [] {
      var v := TargetStep(lib, rule, flags, excl, lines[0]);
      if v.Ok? {
        var next := Record(log, v.value);
        ScanUnsureFromSteps(lib, rule, flags, excl, lines[1..], next);
        var r := ScanTargets(lib, rule, flags, excl, lines, log);
        assert r == ScanTargets(lib, rule, flags, excl, lines[1..], next);
        if r.Ok? {
          var fin := r.value.unsure;
          if EndsWithUnsureStep(lib, rule, flags, excl, lines[1..], fin) {
            var i :| 0 <= i < |lines[1..]| && TargetStep(lib, rule, flags, excl, lines[1..][i]) == Ok(Unsure(fin[|fin| - 1]));
            assert lines[1..][i] == lines[i + 1];
            assert EndsWithUnsureStep(lib, rule, flags, excl, lines, fin);
          } else if v.value.Unsure? {
            assert fin == next.unsure && fin[|fin| - 1] == v.value.entry;
            assert TargetStep(lib, rule, flags, excl, lines[0]) == Ok(Unsure(fin[|fin| - 1]));
            assert EndsWithUnsureStep(lib, rule, flags, excl, lines, fin);
          } else {
            assert fin == next.unsure == log.unsure;
          }
        }
      }
    }
  }

  /** The wrapper leaves the unsure list alone, or ends it with what its scope rule logs
      unsure for one of the targets. */
  lemma WrapperUnsureFromSteps(lib: NetLib, scope: string, level: Level, flags: Flags, excl: Exclusions, targets: seq<string>, log: Log)
    ensures var w := WrapperRun(lib, scope, level, flags, excl, targets, log);
      w.Ok? ==>
        w.value.unsure == log.unsure
        || (w.value.unsure != []
            && exists line :: line in targets && RuleLogsUnsure(lib, scope, level, flags, excl, line, w.value.unsure[|w.value.unsure| - 1]))
  {
    match RouteOf(scope, level) {
      case Skip =>
      case Run(sc, mode) =>
        match ClassifyRule(lib, sc, mode) {
          case None =>
          case Some(rule) =>
            ScanUnsureFromSteps(lib, rule, flags, excl, targets, log);
            var r := ScanTargets(lib, rule, flags, excl, targets, log);
            assert WrapperRun(lib, scope, level, flags, excl, targets, log) == r;
            if r.Ok? {
              if r.value.unsure != log.unsure {
                assert EndsWithUnsureStep(lib, rule, flags, excl, targets, r.value.unsure);
                var x := r.value.unsure[|r.value.unsure| - 1];
                var i :| 0 <= i < |targets| && TargetStep(lib, rule, flags, excl, targets[i]) == Ok(Unsure(x));
                assert targets[i] in targets && RuleLogsUnsure(lib, scope, level, flags, excl, targets[i], x);
              } else {
                assert r.value.unsure == log.unsure;
              }
            }
        }
    }
  }

  /** Running the scope rules in turn leaves the unsure list alone, or ends it with what
      one of the rules logs unsure for one of the targets. */
  lemma {:induction false} ScopesUnsureFromSteps(lib: NetLib, scopes: seq<string>, level: Level, flags: Flags, excl: Exclusions, targets: seq<string>, log: Log)
    ensures var r := ScopesRun(lib, scopes, level, flags, excl, targets, log);
      r.Ok? ==>
        r.value.unsure == log.unsure
        || (r.value.unsure != [] && LoggedUnsureBy(lib, scopes, level, flags, excl, targets, r.value.unsure[|r.value.unsure| - 1]))
    decreases |scopes|
  {
    if scopes != [] {
      var w := WrapperRun(lib, scopes[0], level, flags, excl, targets, log);
      if w.Ok? {
        WrapperUnsureFromSteps(lib, scopes[0], level, flags, excl, targets, log);
        ScopesUnsureFromSteps(lib, scopes[1..], level, flags, excl, targets, w.value);
        var r := ScopesRun(lib, scopes, level, flags, excl, targets, log);
        assert r == ScopesRun(lib, scopes[1..], level, flags, excl, targets, w.value);
        if r.Ok? && r.value.unsure != log.unsure {
          var x := r.value.unsure[|r.value.unsure| - 1];
          if r.value.unsure == w.value.unsure {
            var line :| line in targets && RuleLogsUnsure(lib, scopes[0], level, flags, excl, line, x);
            assert scopes[0] in scopes && line in targets && RuleLogsUnsure(lib, scopes[0], level, flags, excl, line, x);
          } else {
            var scope, line :| scope in scopes[1..] && line in targets && RuleLogsUnsure(lib, scope, level, flags, excl, line, x);
            assert scope in scopes && line in targets && RuleLogsUnsure(lib, scope, level, flags, excl, line, x);
          }
        }
      }
    }
  }

  /** Every printed unsure entry of a run from empty accumulators is what some scope rule
      logs unsure for some target line: with StepLogsIffNotExcluded, a target the rule
      allowed unsure and that no exclusion vetoed. */
  lemma PrintedUnsureLogged(lib: NetLib, scopes: seq<string>, level: Level, flags: Flags, excl: Exclusions, targets: seq<string>, raw: Result<Log, Fatal>)
    requires raw == ScopesRun(lib, scopes, level, flags, excl, targets, Log([], []))
    ensures var r := Finish(raw, flags.includeUnsure);
      r.Ok? ==> forall x :: x in r.value.unsure ==> LoggedUnsureBy(lib, scopes, level, flags, excl, targets, x)
  {
    if raw.Ok? {
      ScopesKeepShape(lib, scopes, level, flags, excl, targets, Log([], []));
      ScopesUnsureFromSteps(lib, scopes, level, flags, excl, targets, Log([], []));
      PostProcessedMeaning(raw.value, flags.includeUnsure);
      if flags.includeUnsure {
        forall x | x in PostProcessed(raw.value, true).unsure
          ensures LoggedUnsureBy(lib, scopes, level, flags, excl, targets, x)
        {
          ShapedUnsureOutsideInScope(raw.value, x);
        }
      } else {
        ScopesWithoutUnsureFlag(lib, scopes, level, flags, excl, targets, Log([], []));
      }
    }
  }

  /** A scan keeps every entry already in scope, and puts in scope the entry of every
      target line whose step says in scope. */
  lemma {:induction false} ScanComplete(lib: NetLib, rule: Rule, flags: Flags, excl: Exclusions, lines: seq<string>, log: Log)
    ensures var r := ScanTargets(lib, rule, flags, excl, lines, log);
      r.Ok? ==>
        (forall x :: x in log.inscope ==> x in r.value.inscope)
        && forall i :: 0 <= i < |lines| ==>
             (TargetStep(lib, rule, flags, excl, lines[i]).Ok? && TargetStep(lib, rule, flags, excl, lines[i]).value.InScope?
              ==> TargetStep(lib, rule, flags, excl, lines[i]).value.entry in r.value.inscope)
    decreases |lines|
  {
    if lines != [] {
      var v := TargetStep(lib, rule, flags, excl, lines[0]);
      if v.Ok? {
        var next := Record(log, v.value);
        ScanComplete(lib, rule, flags, excl, lines[1..], next);
        var r := ScanTargets(lib, rule, flags, excl, lines, log);
        assert r == ScanTargets(lib, rule, flags, excl, lines[1..], next);
        if r.Ok? {
          assert forall x :: x in log.inscope ==> x in next.inscope;
          forall i | 0 <= i < |lines| && TargetStep(lib, rule, flags, excl, lines[i]).Ok?
            && TargetStep(lib, rule, flags, excl, lines[i]).value.InScope?
            ensures TargetStep(lib, rule, flags, excl, lines[i]).value.entry in r.value.inscope
          {
            if i == 0 {
              assert v.value.entry in next.inscope;
            } else {
              assert lines[1..][i - 1] == lines[i];
            }
          }
        }
      }
    }
  }

  /** The wrapper keeps every entry already in scope, and puts in scope everything its
      scope rule logs for one of the targets. */
  lemma WrapperComplete(lib: NetLib, scope: string, level: Level, flags: Flags, excl: Exclusions, targets: seq<string>, log: Log)
    ensures var w := WrapperRun(lib, scope, level, flags, excl, targets, log);
      w.Ok? ==>
        (forall x :: x in log.inscope ==> x in w.value.inscope)
        && forall line, x :: line in targets && RuleLogs(lib, scope, level, flags, excl, line, x) ==> x in w.value.inscope
  {
    var w := WrapperRun(lib, scope, level, flags, excl, targets, log);
    match RouteOf(scope, level) {
      case Skip =>
      case Run(sc, mode) =>
        match ClassifyRule(lib, sc, mode) {
          case None =>
          case Some(rule) =>
            ScanComplete(lib, rule, flags, excl, targets, log);
            if w.Ok? {
              forall line, x | line in targets && RuleLogs(lib, scope, level, flags, excl, line, x)
                ensures x in w.value.inscope
              {
                var i :| 0 <= i < |targets| && targets[i] == line;
                assert TargetStep(lib, rule, flags, excl, targets[i]) == Ok(InScope(x));
              }
            }
        }
    }
  }

  /** What a list of scope rules logs, its first rule logs or the rest do. */
  lemma LoggedBySplit(lib: NetLib, scopes: seq<string>, level: Level, flags: Flags, excl: Exclusions, targets: seq<string>, x: string)
    requires scopes != []
    ensures LoggedBy(lib, scopes, level, flags, excl, targets, x) ==>
      (exists line :: line in targets && RuleLogs(lib, scopes[0], level, flags, excl, line, x))
      || LoggedBy(lib, scopes[1..], level, flags, excl, targets, x)
  {
    if LoggedBy(lib, scopes, level, flags, excl, targets, x) {
      var scope, line :| scope in scopes && line in targets && RuleLogs(lib, scope, level, flags, excl, line, x);
      if scope != scopes[0] {
        var k :| 0 <= k < |scopes| && scopes[k] == scope;
        assert scopes[1..][k - 1] == scope;
      }
    }
  }

  /** Running the scope rules in turn keeps every entry already in scope and logs
      everything one of the rules logs for one of the targets. */
  lemma {:induction false} ScopesComplete(lib: NetLib, scopes: seq<string>, level: Level, flags: Flags, excl: Exclusions, targets: seq<string>, log: Log)
    ensures var r := ScopesRun(lib, scopes, level, flags, excl, targets, log);
      r.Ok? ==>
        (forall x :: x in log.inscope ==> x in r.value.inscope)
        && forall x :: LoggedBy(lib, scopes, level, flags, excl, targets, x) ==> x in r.value.inscope
    decreases |scopes|
  {
    if scopes != [] {
      var w := WrapperRun(lib, scopes[0], level, flags, excl, targets, log);
      if w.Ok? {
        WrapperComplete(lib, scopes[0], level, flags, excl, targets, log);
        ScopesComplete(lib, scopes[1..], level, flags, excl, targets, w.value);
        var r := ScopesRun(lib, scopes, level, flags, excl, targets, log);
        assert r == ScopesRun(lib, scopes[1..], level, flags, excl, targets, w.value);
        forall x | LoggedBy(lib, scopes, level, flags, excl, targets, x)
          ensures r.Ok? ==> x in r.value.inscope
        {
          LoggedBySplit(lib, scopes, level, flags, excl, targets, x);
        }
      }
    }
  }

  /** A finished run prints in scope exactly what some scope rule logs in scope for some
      target line; with StepLogsIffNotExcluded, exactly the targets that matched one of
      the rules and that no exclusion vetoed. */
  lemma RunInScopeExact(lib: NetLib, scopes: seq<string>, level: Level, flags: Flags, oosFile: Option<seq<string>>, targets: seq<string>)
    ensures var r := ScopeListRun(lib, scopes, level, flags, oosFile, targets);
      r.Ok? ==> forall x :: x in r.value.inscope <==> LoggedBy(lib, scopes, level, flags, ExclusionsFor(oosFile, []), targets, x)
  {
    var raw := ScopesRun(lib, scopes, level, flags, ExclusionsFor(oosFile, []), targets, Log([], []));
    ScopesInScopeFromSteps(lib, scopes, level, flags, ExclusionsFor(oosFile, []), targets, Log([], []));
    ScopesComplete(lib, scopes, level, flags, ExclusionsFor(oosFile, []), targets, Log([], []));
    if raw.Ok? {
      PostProcessedMeaning(raw.value, flags.includeUnsure);
    }
  }

  /** End to end: a rule without `*` that parses as a CIDR range prints, when the run
      completes, every listed target whose host is an address in the range and that no
      exclusion removes. */
  lemma CidrTargetPrinted(lib: NetLib, scopes: seq<string>, scope: string, c: Cidr, level: Level, flags: Flags,
                          oosFile: Option<seq<string>>, targets: seq<string>, line: string, u: Url, ip: Ip)
    requires scope in scopes && '*' !in scope && lib.parseCidr(scope) == Some(c)
    requires line in targets && ParseTarget(lib, line) == Some(u) && (u.host != "" || flags.chainMode)
    requires lib.parseIp(RemovePortFromHost(u)) == Some(ip) && CidrContains(c, Some(ip))
    requires ExcludedBy(lib, Probe(None, Some(ip)), ExclusionRules(ExclusionsFor(oosFile, []))) == Ok(false)
    ensures var r := ScopeListRun(lib, scopes, level, flags, oosFile, targets);
      r.Ok? ==> (if flags.hostnamesOnly then ip.text else line) in r.value.inscope
  {
    var mode := if level == 1 then Wildcard else Exact;
    var excl := ExclusionsFor(oosFile, []);
    DispatchByShape(scope, level);
    CidrScopeLogsContained(lib, scope, mode, c, flags, excl, line, u, ip);
    var x := if flags.hostnamesOnly then ip.text else line;
    assert RuleLogs(lib, scope, level, flags, excl, line, x);
    assert LoggedBy(lib, scopes, level, flags, excl, targets, x);
    RunInScopeExact(lib, scopes, level, flags, oosFile, targets);
  }

  /** One rule and one target line that the rule's step drops leave the accumulators as
      they were. */
  lemma SingleDroppedTarget(lib: NetLib, scope: string, level: Level, rule: Rule, flags: Flags, excl: Exclusions, line: string, log: Log)
    requires RouteOf(scope, level).Run?
    requires ClassifyRule(lib, RouteOf(scope, level).scope, RouteOf(scope, level).mode) == Some(rule)
    requires TargetStep(lib, rule, flags, excl, line) == Ok(Dropped)
    ensures ScopesRun(lib, [scope], level, flags, excl, [line], log) == Ok(log)
  {
    assert [line][1..] == [];
    assert [scope][1..] == [];
    assert ScanTargets(lib, rule, flags, excl, [line], log) == Ok(log);
  }

  /** The rule `*.example.com` is the wildcard suffix test on `example.com` below level 3. */
  lemma ExampleComRoute(domain: string, level: Level)
    requires domain == "example.com" && level != 3
    ensures RouteOf("*." + domain, level) == Run(domain, Wildcard)
  {
    var scope := "*." + domain;
    assert scope[2..] == domain;
    assert HasPrefix(scope, "*.");
    assert CountChar(scope, '*') == 1 by {
      assert scope[1..] == "." + domain && '*' !in scope[1..];
      CountCharZero(scope[1..], '*');
    }
    DispatchByShape(scope, level);
  }

  /** Exclusion precedence over a whole run: a target inside a wildcard domain rule whose
      port-stripped host is also the host of an exclusion rule without `*` is printed in
      neither list. */
  lemma ExcludedTargetNotPrinted(lib: NetLib, scope: string, domain: string, level: Level, flags: Flags, su: Url,
                                 e: string, line: string, u: Url, ru: Url)
    requires RouteOf(scope, level) == Run(domain, Wildcard)
    requires lib.parseIp(domain).None? && lib.parseCidr(domain).None? && lib.parseUrl("http://" + domain) == Some(su)
    requires ParseTarget(lib, line) == Some(u) && u.host != "" && HasSuffix(RemovePortFromHost(u), su.host)
    requires '*' !in e && lib.parseUrl("https://" + e) == Some(ru) && ru.host == RemovePortFromHost(u)
    ensures Judge(HostRule(su.host, true), MakeTarget(lib, line, u), flags).value.matched
    ensures ScopeListRun(lib, [scope], level, flags, Some([e]), [line]) == Ok(Log([], []))
  {
    var t := MakeTarget(lib, line, u);
    DomainRuleCompares(lib, domain, Wildcard, su, flags, t);
    ExclusionTakesPrecedence(lib, su.host, true, flags, e, line, u, ru);
    SingleDroppedTarget(lib, scope, level, HostRule(su.host, true), flags, ExclusionLines([e]), line, Log([], []));
  }

  /** The host `jira.example.com` has neither a port separator nor a `*`. */
  lemma JiraHostChars(domain: string)
    requires domain == "example.com"
    ensures ':' !in "jira." + domain && '*' !in "jira." + domain
  {
    assert ':' !in "jira." && '*' !in "jira.";
  }

  /** The target `https://jira.example.com` is inside the rule `*.example.com`, but the
      exclusion `jira.example.com` keeps it out of both printed lists. */
  lemma JiraExample(lib: NetLib, level: Level, flags: Flags, domain: string, su: Url, line: string, u: Url, ru: Url)
    requires level != 3 && domain == "example.com"
    requires lib.parseIp(domain).None? && lib.parseCidr(domain).None?
    requires lib.parseUrl("http://" + domain) == Some(su) && su.host == domain
    requires ParseTarget(lib, line) == Some(u) && u.host == "jira." + domain && u.port == ""
    requires lib.parseUrl("https://" + u.host) == Some(ru) && ru.host == u.host
    ensures Judge(HostRule(domain, true), MakeTarget(lib, line, u), flags).value.matched
    ensures ScopeListRun(lib, ["*." + domain], level, flags, Some([u.host]), [line]) == Ok(Log([], []))
  {
    ExampleComRoute(domain, level);
    JiraHostChars(domain);
    PlainHost(u);
    SuffixOfConcat("jira.", domain);
    ExcludedTargetNotPrinted(lib, "*." + domain, domain, level, flags, su, u.host, line, u, ru);
  }

  /** The same output guarantees for the run over one firebounty program, whose rules are
      its counted in-scope entries and whose exclusions default to its out-of-scopes. */
  lemma ProgramOutput(lib: NetLib, program: Program, level: Level, flags: Flags, oosFile: Option<seq<string>>, targets: seq<string>)
    ensures var r := ProgramRun(lib, program, level, flags, oosFile, targets);
      r.Ok? ==>
        Sorted(r.value.inscope) && Distinct(r.value.inscope)
        && (forall x :: x in r.value.inscope <==>
              LoggedBy(lib, CountedScopes(program.inScopes), level, flags, ExclusionsFor(oosFile, program.outOfScopes), targets, x))
        && (flags.includeUnsure ==>
              Sorted(r.value.unsure) && Distinct(r.value.unsure)
              && (forall x :: x in r.value.unsure ==> x !in r.value.inscope)
              && forall x :: x in r.value.unsure ==>
                   LoggedUnsureBy(lib, CountedScopes(program.inScopes), level, flags, ExclusionsFor(oosFile, program.outOfScopes), targets, x))
        && (!flags.includeUnsure ==> r.value.unsure == [])
  {
    var scopes := CountedScopes(program.inScopes);
    var excl := ExclusionsFor(oosFile, program.outOfScopes);
    var raw := ScopesRun(lib, scopes, level, flags, excl, targets, Log([], []));
    PrintedUnsureLogged(lib, scopes, level, flags, excl, targets, raw);
    ScopesInScopeFromSteps(lib, scopes, level, flags, excl, targets, Log([], []));
    ScopesComplete(lib, scopes, level, flags, excl, targets, Log([], []));
    if raw.Ok? {
      PostProcessedMeaning(raw.value, flags.includeUnsure);
      if !flags.includeUnsure {
        ScopesWithoutUnsureFlag(lib, scopes, level, flags, excl, targets, Log([], []));
      }
    }
  }

  lemma {:induction false} ScopesWithoutUnsureFlag(lib: NetLib, scopes: seq<string>, level: Level, flags: Flags, excl: Exclusions, targets: seq<string>, log: Log)
    requires !flags.includeUnsure
    ensures var r := ScopesRun(lib, scopes, level, flags, excl, targets, log); r.Ok? ==> r.value.unsure == log.unsure
    decreases |scopes|
  {
    if scopes != [] {
      var w := WrapperRun(lib, scopes[0], level, flags, excl, targets, log);
      match RouteOf(scopes[0], level) {
        case Skip =>
        case Run(sc, mode) =>
          match ClassifyRule(lib, sc, mode) {
            case None =>
            case Some(rule) => ScanWithoutUnsureFlag(lib, rule, flags, excl, targets, log);
          }
      }
      if w.Ok? {
        ScopesWithoutUnsureFlag(lib, scopes[1..], level, flags, excl, targets, w.value);
      }
    }
  }

  /** The two accumulators as an object whose methods update them in place. */
  class Scoper {
    var inscope: seq<string>
    var unsure: seq<string>

    function State(): Log
      reads this
    {
      Log(inscope, unsure)
    }

    constructor ()
      ensures inscope == [] && unsure == []
    {
      inscope := [];
      unsure := [];
    }

    method LogInScope(url: string)
      modifies this
      ensures inscope == old(inscope) + [url] && unsure == old(unsure)
    {
      inscope := inscope + [url];
    }

    method LogUnsure(url: string)
      modifies this
      ensures unsure == old(inscope) + [url] && inscope == old(inscope)
    {
      unsure := inscope + [url];
    }

    /** parseScopes; a crash is returned instead of exiting. */
    method ParseScopes(lib: NetLib, scope: string, mode: Mode, flags: Flags, excl: Exclusions, targets: seq<string>) returns (crash: Option<Fatal>)
      modifies this
      ensures match ParseScopesRun(lib, scope, mode, flags, excl, targets, old(State()))
        case Ok(l) => crash == None && State() == l
        case Err(e) => crash == Some(e)
    {
      var rule := ClassifyRule(lib, scope, mode);
      if rule.None? {
        return None;
      }
      ghost var goal := ParseScopesRun(lib, scope, mode, flags, excl, targets, old(State()));
      var i := 0;
      while i < |targets|
        invariant 0 <= i <= |targets|
        invariant ScanTargets(lib, rule.value, flags, excl, targets[i..], State()) == goal
      {
        assert targets[i..][1..] == targets[i + 1..];
        var line := targets[i];
        var u := ParseTarget(lib, line);
        if u.Some? && (u.value.host != "" || flags.chainMode) {
          var t := MakeTarget(lib, line, u.value);
          var j := Judge(rule.value, t, flags);
          if j.Err? {
            return Some(j.error);
          }
          if j.value.matched || j.value.unsureAllowed {
            var excluded := IsOutOfScope(lib, j.value.probe, excl);
            if excluded.Err? {
              return Some(excluded.error);
            }
            if !excluded.value {
              if j.value.matched {
                LogInScope(j.value.entry);
              } else {
                LogUnsure(j.value.entry);
              }
            }
          }
        }
        i := i + 1;
      }
      assert targets[i..] == [];
      return None;
    }

    /** parseScopesWrapper. */
    method ParseScopesWrapper(lib: NetLib, scope: string, level: Level, flags: Flags, excl: Exclusions, targets: seq<string>) returns (crash: Option<Fatal>)
      modifies this
      ensures match WrapperRun(lib, scope, level, flags, excl, targets, old(State()))
        case Ok(l) => crash == None && State() == l
        case Err(e) => crash == Some(e)
    {
      match RouteOf(scope, level)
      case Skip =>
        crash := None;
      case Run(s, mode) =>
        crash := ParseScopes(lib, s, mode, flags, excl, targets);
    }

    /** The scope rules one after the other, stopping at a crash. */
    method ParseScopeList(lib: NetLib, scopes: seq<string>, level: Level, flags: Flags, excl: Exclusions, targets: seq<string>) returns (crash: Option<Fatal>)
      modifies this
      ensures match ScopesRun(lib, scopes, level, flags, excl, targets, old(State()))
        case Ok(l) => crash == None && State() == l
        case Err(e) => crash == Some(e)
    {
      ghost var goal := ScopesRun(lib, scopes, level, flags, excl, targets, old(State()));
      var i := 0;
      while i < |scopes|
        invariant 0 <= i <= |scopes|
        invariant ScopesRun(lib, scopes[i..], level, flags, excl, targets, State()) == goal
      {
        assert scopes[i..][1..] == scopes[i + 1..];
        crash := ParseScopesWrapper(lib, scopes[i], level, flags, excl, targets);
        if crash.Some? {
          return;
        }
        i := i + 1;
      }
      return None;
    }

    /** parseCompany: the counted in-scope entries of the program through the wrapper. */
    method ParseCompany(lib: NetLib, program: Program, level: Level, flags: Flags, oosFile: Option<seq<string>>, targets: seq<string>) returns (crash: Option<Fatal>)
      modifies this
      ensures match CompanyRun(lib, program, level, flags, oosFile, targets, old(State()))
        case Ok(l) => crash == None && State() == l
        case Err(e) => crash == Some(e)
    {
      var excl := ExclusionsFor(oosFile, program.outOfScopes);
      var entries := program.inScopes;
      ghost var goal := CompanyRun(lib, program, level, flags, oosFile, targets, old(State()));
      var scopeCounter := 0;
      while scopeCounter < |entries|
        invariant 0 <= scopeCounter <= |entries|
        invariant ScopesRun(lib, CountedScopes(entries[scopeCounter..]), level, flags, excl, targets, State()) == goal
      {
        assert entries[scopeCounter..][1..] == entries[scopeCounter + 1..];
        CountedScopesCons(entries[scopeCounter..]);
        var e := entries[scopeCounter];
        if Counts(e) {
          ghost var rest := CountedScopes(entries[scopeCounter + 1..]);
          assert ([e.scope] + rest)[0] == e.scope && ([e.scope] + rest)[1..] == rest;
          crash := ParseScopesWrapper(lib, e.scope, level, flags, excl, targets);
          if crash.Some? {
            return;
          }
        } else {
          assert CountedScopes(entries[scopeCounter..]) == CountedScopes(entries[scopeCounter + 1..]);
        }
        scopeCounter := scopeCounter + 1;
      }
      return None;
    }

    /** The goto-restart loop: remove an unsure entry found in scope and start over. */
    method DropInScopeFromUnsure()
      modifies this
      ensures inscope == old(inscope)
      ensures unsure == Without(old(unsure), inscope)
    {
      var urls, keep := unsure, inscope;
      var i := 0;
      while i < |urls|
        invariant 0 <= i <= |urls| && inscope == keep == old(inscope)
        invariant Without(urls, keep) == Without(old(unsure), keep)
        invariant forall k :: 0 <= k < i ==> urls[k] !in keep
        decreases |urls|, |urls| - i
      {
        var url := urls[i];
        var found := false;
        var j := 0;
        while j < |keep|
          invariant 0 <= j <= |keep| && inscope == keep
          invariant found ==> url in keep
          invariant !found ==> url !in keep[..j]
        {
          if url == keep[j] {
            found := true;
            break;
          }
          assert keep[..j + 1] == keep[..j] + [keep[j]];
          j := j + 1;
        }
        if found {
          WithoutDelete(urls, i, keep);
          urls := urls[..i] + urls[i + 1..];
          i := 0;
        } else {
          assert keep[..j] == keep;
          i := i + 1;
        }
      }
      WithoutNothing(urls, keep);
      unsure := urls;
    }

    /** main.go:474-491. */
    method PostProcess(includeUnsure: bool)
      modifies this
      ensures State() == PostProcessed(old(State()), includeUnsure)
    {
      inscope := RemoveDuplicateStr(inscope);
      inscope := SortStrings(inscope);
      if includeUnsure {
        unsure := RemoveDuplicateStr(unsure);
        unsure := SortStrings(unsure);
        DropInScopeFromUnsure();
      }
    }
  }

  /** A run over a scope list file, from empty accumulators to the printed lists. */
  method RunScopeList(lib: NetLib, scopes: seq<string>, level: Level, flags: Flags, oosFile: Option<seq<string>>, targets: seq<string>) returns (r: Result<Log, Fatal>)
    ensures r == ScopeListRun(lib, scopes, level, flags, oosFile, targets)
  {
    var s := new Scoper();
    var crash := s.ParseScopeList(lib, scopes, level, flags, ExclusionsFor(oosFile, []), targets);
    if crash.Some? {
      return Err(crash.value);
    }
    s.PostProcess(flags.includeUnsure);
    return Ok(s.State());
  }

  /** A run with one firebounty program. */
  method RunProgram(lib: NetLib, program: Program, level: Level, flags: Flags, oosFile: Option<seq<string>>, targets: seq<string>) returns (r: Result<Log, Fatal>)
    ensures r == ProgramRun(lib, program, level, flags, oosFile, targets)
  {
    var s := new Scoper();
    var crash := s.ParseCompany(lib, program, level, flags, oosFile, targets);
    if crash.Some? {
      return Err(crash.value);
    }
    s.PostProcess(flags.includeUnsure);
    return Ok(s.State());
  }
}
