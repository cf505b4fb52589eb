# hacker-scoper scope engine in Dafny

hacker-scoper filters a list of targets (URLs, hosts, IP addresses) against the scope of a bug
bounty program. A scope rule comes from a scope list file or from a firebounty program's in-scope
entries. This project models the engine of `main.go` that decides, for every rule and every target
line, one of three outcomes:

- the target is logged in scope;
- it is logged "unsure" (only with `-iu`);
- it is dropped.

It also models the post-processing `main` applies to the two output lists.

The model follows the code's own structure:

- `Dispatch` is `parseScopesWrapper`. The explicit level (1 to 3) and the rule's shape choose
  wildcard-suffix, exact or regular-expression matching, or drop the rule.
- `Matching` covers how `parseScopes` classifies a rule and its verdict on one target line. A rule
  is an IP/CIDR rule, a domain rule or a pattern rule.
- `Targets` is the parse of a target line and `removePortFromHost`.
- `Pattern` is the regular-expression rewrite and the unanchored search, for rules whose only
  metacharacters are `.` and `*`.
- `Exclusion` is the veto: `isOutOfScope` and `parseOutOfScopes`. Exclusions are always read with
  level-2 semantics.
- `Dedup` is `removeDuplicateStr`, `Sorting` is `sort.Strings`, and `PostProcess` is the
  de-duplicate / sort / goto-restart block of `main`.
- `Company` is the company search over firebounty programs and the in-scope rule filter of
  `parseCompany`.
- `Scoper` is the imperative layer. The class `Scoper` holds the global accumulators
  `inscopeURLs`/`unsureURLs` as fields. Its methods are the scanner loop, the wrapper, the loops
  over scope rules and the post-processing. Each method is proved against a specification
  function (`ScanTargets`, `ScopesRun`, `ScopeListRun`, `ProgramRun`), and the run-level lemmas
  are stated about those functions.

The Go library parsers (`url.Parse`, `net.ParseIP`, `net.ParseCIDR`) are given as the parameter
`lib: NetLib`, a record of three total functions. Every lemma holds for every such parser. Only
the fields the engine reads (`Host`, `Port()`, `Hostname()`, `IP.String()`, the address bits)
are modelled. A `crash` of the program (a regular expression that does not compile) becomes an
`Err(BadPattern(..))` result that ends the run.

Matching and the veto are modelled as the code has them, including these behaviours:

- **Bare-IP rule.** The IP of a bare-IP rule is shadowed (main.go:651 and 656), so the rule is
  compared against `"<nil>"`. It therefore puts every non-IP target in scope and no IP target.
- **`String() != ""`.** The test `targetIp.String() != ""` is always true.
- **Wildcard exclusions.** A `*.` exclusion keeps its leading `*.` in the compared host.
- **Chain mode.** In chain mode, targets with an empty host reach matching.
- **`logUnsure`.** It sets the unsure list to the in-scope list plus the entry, so a run with
  `-iu` prints at most one unsure entry.
- **`removePortFromHost`.** It deletes the first occurrence of the port digits, wherever they
  occur.
- **Wildcard matching.** It is a plain suffix test with no label boundary.

The run itself is modelled as the program corrected for the two panics listed under Findings. The
run-level functions and methods (`ScanTargets`, `ScopesRun`, `ScopeListRun`, `ProgramRun`,
`RunScopeList`, `RunProgram`) use the corrected step `Matching.TargetStep`, which skips a target
line whose `https://` re-parse fails, and the corrected veto `Exclusion.ExcludedBy`, which reads
a program exclusion shorter than four bytes like any other rule. The code as written is modelled
per step only: `Matching.TargetStepAsWritten` and `Exclusion.ProgramExclusionsAsWritten`, with
lemmas saying exactly when each differs from its corrected twin.

Where the tests in `main_test.go` disagree with `main.go`, this model follows the code:

- **main_test.go:64-86.** These tests expect scheme-qualified out-of-scope strings to match.
  main.go:992 puts a second `https://` in front of such a string, so these cases are not claimed.
- **main_test.go:105-118.** This test expects a warning whose text differs from main.go:963.
  Warnings are not modelled.

## Model

| member | source | states |
|---|---|---|
| Net.IpString | main.go:745 | an address prints as `"<nil>"` exactly when it is nil |
| Text.Index | main.go:886 | strings.Index: -1 iff absent, otherwise the position of the first occurrence |
| Text.ToLower | main.go:375 | strings.ToLower on ASCII letters: length kept, no capital left, each capital becomes the same letter in lower case, every other character kept |
| Text.ToLowerIdempotent | main.go:375 | lowering twice is lowering once |
| Text.Utf8Len | main.go:937 | Go's byte length of a string: between one and four bytes per character |
| Text.Utf8LenAscii | main.go:937 | an ASCII string has as many bytes as characters |
| Text.TwoWideCharsAreFourBytes | main.go:937 | two characters outside ASCII already make four bytes, so slicing `[0:4]` does not panic on them |
| Targets.RemovePortFromHost | main.go:884-890 | removePortFromHost never lengthens the host; its effect on hosts with and without ports is stated by the four lemmas below |
| Targets.ParseTarget | main.go:687-692 | the line as a URL, re-parsed behind `https://` when the first parse fails or has no host; no contract of its own, used by the step lemmas below |
| Targets.RemovePortStripsPort | main.go:884-890 | `name:port` becomes `name` when the port is non-empty, occurs nowhere in `name`, and neither part holds a colon |
| Targets.RemovePortKeepsPlainHost | main.go:884-890 | a host without a port and without `:` is returned unchanged |
| Targets.RemovePortExample | main_test.go:148-153 | the host `example.com` + `:` + `8080` becomes `example.com` |
| Targets.RemovePortHitsLeadingDigits | main.go:886 | when the port digits also start the host, those are deleted, not the port, and the port digits remain at the end |
| Targets.RemovePortHitsHostDigits | main.go:886 | `8080.example.com:8080` becomes `.example.com8080` |
| Dispatch.RouteOf | main.go:843-864 | parseScopesWrapper's choice of mode; no contract of its own, specified by DispatchByShape and RegexOnlyForStars |
| Dispatch.StripWildcard | main.go:850 | removing every `*.` from a rule with one `*` and a `*.` prefix drops just the prefix |
| Dispatch.DispatchByShape | main.go:843-864 | `*.` with one `*` and level other than 3 gives wildcard mode on the rest; other `*.` rules are dropped; other rules with `*` give regex mode; `*`-free rules give wildcard at level 1 and exact otherwise |
| Dispatch.RegexOnlyForStars | main.go:846-856 | regex mode only for rules containing `*` but not starting with `*.`; level 3 drops every `*.` rule |
| Dispatch.EmptyScopeAtLevelOne | main.go:857-859 | an empty scope line at level 1 is matched in wildcard mode |
| Matching.ClassifyRule | main.go:645-673 | in regex mode, always a pattern rule; otherwise no rule exactly when the IP, CIDR and URL parses all fail, and an address or CIDR scope gives the address rule carrying the CIDR parse (none for a bare address) |
| Matching.Judge | main.go:706-831 | one branch of the loop body per rule kind; no contract of its own, specified by DomainRuleCompares, PatternRuleMatchesSubstring, CidrRuleMatchesContained and BareIpRuleIgnoresAddress |
| Matching.Settle | main.go:718-732 | the veto on a target about to be logged; no contract of its own, specified by StepLogsIffNotExcluded |
| Matching.Decide | main.go:717-733 | isOutOfScope is asked only about a target that matched or may be logged unsure; no contract of its own, specified by StepLogsIffNotExcluded |
| Matching.TargetStep | main.go:686-835 | one corrected iteration of the scanner loop; no contract of its own, specified by the step lemmas below |
| Matching.TargetStepAsWritten | main.go:692-695 | the iteration as written; no contract of its own, compared with TargetStep by NilTargetPanics |
| Matching.StepLogsIffNotExcluded | main.go:706-831 | a target is logged iff it parsed (with a non-empty host, or in chain mode), it matched or may be logged unsure, and isOutOfScope answered false |
| Matching.StepUnsureNeedsFlag | main.go:726-733 | an unsure verdict needs `-iu`; an in-scope verdict needs a match |
| Matching.StepAbortsOnlyOnBadPattern | main.go:711-714 | the only way a step aborts is a pattern that does not compile: the rule's own, or a rewritten exclusion rule containing `*` |
| Matching.DomainRuleCompares | main.go:786-829 | a domain rule compares the port-stripped target host with the rule's `http://` host: suffix in wildcard mode, equality in exact mode; the exclusion probe is the target URL |
| Matching.WildcardHasNoLabelBoundary | main.go:789-792 | `evilexample.com` is matched by wildcard `example.com` but not by exact `example.com` |
| Matching.EmptyWildcardHostMatchesAll | main.go:792 | a wildcard rule with an empty host matches every target |
| Matching.PatternRuleMatchesSubstring | main.go:708-734 | a `*` rule is matched iff some substring of the port-stripped host fully matches its glob |
| Matching.BadPatternAborts | main.go:711-714 | a pattern that does not compile aborts at the first parsed target |
| Matching.CidrRuleMatchesContained | main.go:763-780 | a CIDR rule matches iff the range contains the target IP; a non-IP target is dropped |
| Matching.CidrScopeLogsContained | main.go:645-673 | a scope that parses as a CIDR range becomes that CIDR rule, and logs in scope every admitted target whose address is in the range and is not excluded (the line, or the address with `-ho`) |
| Matching.ExclusionTakesPrecedence | main.go:786-829 | a target whose port-stripped host is the host of a `*`-free exclusion is dropped by a domain rule, matched or not |
| Matching.BareIpRuleIgnoresAddress | main.go:743-762 | a bare-IP rule puts every non-IP target in scope, unvetoed because the exclusion probe is nil (entry `"<nil>"` with `-ho`), and never puts an IP target in scope |
| Matching.EmptyHostAdmittedOnlyInChainMode | main.go:698-706 | an empty-host target is dropped outside chain mode and judged like any other in chain mode |
| Matching.NilTargetPanics | main.go:688-695 | as written, an unparsable target panics; the corrected step drops it; otherwise the two agree |
| Matching.NilTargetExample | main.go:692-695 | the line `a b` crashes the code as written |
| Exclusion.CountedScopes | main.go:931-933 | exactly the non-empty `web_application` scopes are kept |
| Exclusion.ParseOutOfScopes | main.go:953-1019 | with no URL it never fails and is true iff the rule parses as an IP whose text equals the target IP's (false for a nil target IP); with a URL, a rule without `*` fires iff `https://` + rule parses and its host equals the port-stripped target host; the `*` branches are stated by the lemmas below |
| Exclusion.ExcludedBy | main.go:910-946 | the early-exit fold of isOutOfScope's loops; no contract of its own, specified by ExcludedIffSomeRuleFires |
| Exclusion.IsOutOfScope | main.go:893-951 | the loop returns the early-exit fold over the rules of the out-of-scope file or of the counted firebounty entries |
| Exclusion.ExcludedIffSomeRuleFires | main.go:910-917 | when no rule fails, isOutOfScope is true iff some rule fires; a failure comes from one of the rules |
| Exclusion.PlainExclusionNeverFails | main.go:977-990 | a rule with only `.` and `*` as metacharacters never aborts |
| Exclusion.NilProbeNeverExcluded | main_test.go:96-102 | with nil URL and nil IP nothing is excluded |
| Exclusion.UrlProbeIgnoresIp | main_test.go:88-94 | with a URL the IP is not consulted |
| Exclusion.WildcardExclusionKeepsStar | main.go:959-974 | a `*.` exclusion whose parsed host keeps the `*` never fires on a star-free host |
| Exclusion.StarRuleSearches | main.go:977-990 | a rule with `*` (not a one-star `*.` rule) fires iff its glob is found in the port-stripped host |
| Exclusion.StarRuleNeedsLength | main.go:977-990 | a one-star rule cannot fire on a host shorter than its literal characters |
| Exclusion.StarRuleExcludes | main.go:977-990 | `a*c` fires on every host of the form `a b c` with no newline in `b` |
| Exclusion.ZendeskPatternSparesDomain | main_test.go:51-56 | `zendesk*.example.com` does not exclude `example.com` |
| Exclusion.ZendeskPatternExcludesSubdomain | main_test.go:58-62 | `zendesk*.example.com` excludes `zendesk.internal.example.com` |
| Exclusion.ProgramExclusionsAsWritten | main.go:931-946 | the firebounty loop as written, with the `[0:4]` slice panicking on fewer than four bytes; no contract of its own, compared with the corrected veto by the next two lemmas |
| Exclusion.ShortExclusionPanics | main.go:935-940 | as written, the counted exclusion `N/A` (three bytes) panics outside chain mode; the corrected veto parses it as host `N` and excludes exactly the targets whose port-stripped host is `N` |
| Exclusion.AsWrittenAgreesWithoutShortScopes | main.go:931-946 | in chain mode, or when every counted exclusion is at least four bytes long, the as-written loop equals the corrected veto |
| Pattern.Rewrite | main.go:671-672 | the quoting rewrite; no contract of its own, specified by CompileRewrite |
| Pattern.Compile | main.go:711 | regexp.Compile on the fragment; no contract of its own, specified by CompileRewrite |
| Pattern.Search | main.go:717 | unanchored MatchString; no contract of its own, specified by SearchIsSubstringMatch and SearchNeedsLiterals |
| Pattern.CompileRewrite | main.go:711 | compiling the rewritten rule always succeeds and yields the rule's glob |
| Pattern.SearchIsSubstringMatch | main.go:717 | unanchored MatchString holds iff some substring fully matches the glob |
| Pattern.SearchNeedsLiterals | main.go:988 | a match needs at least as many characters as the glob has literals |
| Pattern.StarMatches | main.go:988 | `a*c` is found in `a b c` when `b` has no newline |
| Dedup.Unique | main.go:1067-1077 | the result has exactly the input's elements, each once |
| Dedup.RemoveDuplicateStr | main.go:1067-1077 | the map-and-list loop computes Unique |
| Dedup.UniqueKeepsFirstOccurrenceOrder | main.go:1070-1074 | elements appear in the order of their first occurrence |
| Dedup.UniqueOfDistinct | main.go:1067-1077 | a duplicate-free list is returned unchanged |
| Dedup.UniqueIdempotent | main.go:1067-1077 | de-duplicating twice is de-duplicating once |
| Dedup.UniqueSnoc | main.go:1071-1074 | one more item is appended iff it was not seen before |
| Dedup.UniqueExample | main_test.go:155-160 | `[a,b,a,c,b]` becomes `[a,b,c]`, for any three different strings |
| Sorting.LexLeTotal | main.go:475 | the string order is total |
| Sorting.LexLeTrans | main.go:475 | the string order is transitive |
| Sorting.LexLeAntisym | main.go:475 | the string order is antisymmetric |
| Sorting.SortStrings | main.go:475 | the result is sorted and a permutation of the input |
| Sorting.SortSameElements | main.go:475 | sorting keeps exactly the input's elements |
| Sorting.SortedPermutationUnique | main.go:475 | there is one sorted permutation, so the sort result is determined |
| Sorting.SortKeepsDistinct | main.go:479 | sorting a duplicate-free list leaves it duplicate-free |
| PostProcess.PostProcessed | main.go:474-491 | the de-duplicate, sort and restart block on values; no contract of its own, specified by PostProcessedMeaning |
| PostProcess.Without | main.go:481-490 | keeps exactly the elements not in the drop list |
| PostProcess.WithoutDelete | main.go:485 | deleting an element that is in the drop list does not change the final result, so a restart loses nothing |
| PostProcess.WithoutNothing | main.go:482-490 | when no element is in the drop list, the list is unchanged |
| PostProcess.WithoutSorted | main.go:482-490 | removal keeps a sorted list sorted |
| PostProcess.WithoutDistinct | main.go:482-490 | removal keeps a duplicate-free list duplicate-free |
| PostProcess.PostProcessedMeaning | main.go:474-491 | in-scope is sorted, duplicate-free, with the same elements; with `-iu` unsure is sorted, duplicate-free, and holds exactly the unsure entries not in scope; without `-iu` unsure is untouched |
| PostProcess.PostProcessedDisjoint | main.go:481-490 | afterwards no unsure entry is in scope |
| PostProcess.PostProcessedIdempotent | main.go:474-491 | post-processing twice is post-processing once |
| PostProcess.ShapedUnsureOutsideInScope | main.go:1063-1065 | in the shape logUnsure leaves, only the last unsure entry can be outside the in-scope list |
| PostProcess.AtMostOneUnsure | main.go:474-491 | in that shape, at most one unsure entry survives post-processing |
| Company.CompanyMatches | main.go:374-379 | the indices of exactly the programs whose lowercased name contains the query, in increasing order |
| Company.MatchingCompanies | main.go:374-379 | the loop computes CompanyMatches |
| Company.UppercaseQueryMatchesNothing | main.go:375-376 | a query with an upper-case letter matches no program, since only names are lowercased |
| Scoper.ScanTargets | main.go:686-834 | the scanner loop on values; no contract of its own, specified by ScanInScopeFromSteps, ScanComplete, ScanUnsureFromSteps, ScanKeepsShape and ScanWithoutUnsureFlag |
| Scoper.ParseScopesRun | main.go:644-841 | parseScopes on values: an unparsable scope changes nothing, otherwise the scanner loop; no contract of its own |
| Scoper.WrapperRun | main.go:843-864 | parseScopesWrapper on values; no contract of its own, specified by WrapperInScopeFromSteps, WrapperComplete, WrapperUnsureFromSteps and IgnoredRuleChangesNothing |
| Scoper.ScopesRun | main.go:456-458 | the loop over scope lines on values; no contract of its own, specified by ScopesInScopeFromSteps, ScopesComplete and ScopesUnsureFromSteps |
| Scoper.CompanyRun | main.go:1094-1124 | parseCompany on values; no contract of its own |
| Scoper.ScopeListRun | main.go:439-491 | a whole scope-list run; no contract of its own, specified by RunInScopeExact and RunOutput |
| Scoper.ProgramRun | main.go:435 | a whole single-program run; no contract of its own, specified by ProgramOutput |
| Scoper.RecordKeepsShape | main.go:1063-1065 | recording keeps unsure equal to a prefix of in-scope plus one entry |
| Scoper.ScanKeepsShape | main.go:686-834 | the scanner loop keeps that shape |
| Scoper.ScopesKeepShape | main.go:456-458 | the loop over scope rules keeps that shape |
| Scoper.RunPrintsAtMostOneUnsure | main.go:474-491 | a scope-list run with `-iu` prints at most one unsure entry |
| Scoper.ProgramPrintsAtMostOneUnsure | main.go:1094-1124 | a program run with `-iu` prints at most one unsure entry |
| Scoper.ScanWithoutUnsureFlag | main.go:726 | without `-iu` the scanner loop leaves unsure unchanged |
| Scoper.ScopesWithoutUnsureFlag | main.go:456-458 | without `-iu` the loop over rules leaves unsure unchanged |
| Scoper.ScanInScopeFromSteps | main.go:686-834 | the scan only appends to in-scope, and each new entry is the in-scope verdict of one of its lines |
| Scoper.IgnoredRuleChangesNothing | main.go:662-669 | a rule the wrapper drops or parseScopes cannot parse changes nothing |
| Scoper.WrapperInScopeFromSteps | main.go:843-864 | every entry the wrapper adds comes from one target line under that rule |
| Scoper.ScopesInScopeFromSteps | main.go:456-458 | every entry the rule loop adds comes from some rule and some target line |
| Scoper.ScanUnsureFromSteps | main.go:686-834 | the scan leaves the unsure list as it was, or the list's last entry is the unsure verdict of one of its lines |
| Scoper.WrapperUnsureFromSteps | main.go:843-864 | the wrapper leaves the unsure list as it was, or its rule logs the list's last entry unsure for one target line |
| Scoper.ScopesUnsureFromSteps | main.go:456-458 | the loop over rules leaves the unsure list as it was, or some rule logs its last entry unsure for some target line |
| Scoper.PrintedUnsureLogged | main.go:474-491 | after post-processing, every printed unsure entry of a run from empty lists is logged unsure by some rule for some target line |
| Scoper.ScanComplete | main.go:686-834 | the scan keeps every earlier in-scope entry and puts in scope the entry of every line whose step says in scope |
| Scoper.WrapperComplete | main.go:843-864 | the wrapper keeps earlier entries and puts in scope everything its rule logs for some target |
| Scoper.ScopesComplete | main.go:456-458 | the loop over rules keeps earlier entries and puts in scope everything some rule logs for some target |
| Scoper.RunInScopeExact | main.go:439-491 | an entry is printed in scope iff some scope rule, dispatched and classified, logs it in scope for some target line |
| Scoper.CidrTargetPrinted | main.go:763-780 | a `*`-free scope that parses as a CIDR range gets every listed, unexcluded target with an address in the range printed in scope |
| Scoper.ExcludedTargetNotPrinted | main.go:786-829 | in a run of that one wildcard domain rule, that one `*`-free exclusion and that one target line, a target inside the domain whose host is the exclusion is printed in neither list |
| Scoper.JiraExample | main.go:992-1002 | `https://jira.example.com` matches `*.example.com`, but in a run of that rule, the exclusion `jira.example.com` and that line, the exclusion removes it from both lists |
| Scoper.RunOutput | main.go:474-491 | printed lists are sorted and duplicate-free; with `-iu` they are disjoint and every printed unsure entry is what some scope rule, dispatched and classified, logs unsure for some target line; without `-iu` unsure is empty |
| Scoper.ProgramOutput | main.go:1094-1124 | the same for a program run: an entry is printed in scope iff some counted in-scope rule of the program logs it for some target line, and every printed unsure entry is logged unsure by one of those rules for some target line |
| Scoper.Scoper.constructor | main.go:78-79 | both accumulators start empty |
| Scoper.Scoper.LogInScope | main.go:1059-1061 | appends the entry to in-scope, unsure unchanged |
| Scoper.Scoper.LogUnsure | main.go:1063-1065 | sets unsure to the old in-scope list plus the entry |
| Scoper.Scoper.ParseScopes | main.go:644-841 | the scanner loop leaves the state ScanTargets gives, or reports its crash |
| Scoper.Scoper.ParseScopesWrapper | main.go:843-864 | the wrapper leaves the state WrapperRun gives, or reports its crash |
| Scoper.Scoper.ParseScopeList | main.go:456-458 | the loop over scope lines leaves the state ScopesRun gives |
| Scoper.Scoper.ParseCompany | main.go:1094-1124 | the loop over the program's counted in-scope entries leaves the state CompanyRun gives |
| Scoper.Scoper.DropInScopeFromUnsure | main.go:481-490 | the goto-restart loop leaves in-scope unchanged and removes exactly the unsure entries found in scope, keeping order |
| Scoper.Scoper.PostProcess | main.go:474-491 | the block leaves PostProcessed of the old state |
| Scoper.RunScopeList | main.go:439-491 | a scope-list run returns ScopeListRun |
| Scoper.RunProgram | main.go:435 | a single-program run returns ProgramRun |

## Left out

- Command-line parsing, the banner, explicit-level validation and the database paths (main.go:82-247) are argument plumbing. The level is the subset type `Dispatch.Level`.
- The automatic `.inscope`/`.noscope` search and `searchForFileBackwards` (main.go:285-325, 1025-1047) are a filesystem walk. The out-of-scope file is an `Option` of its lines.
- Reading stdin and files is I/O. This covers temporary files, `popLine`, `cleanup`, the crashes on missing or unreadable files, and scanner read errors (main.go:251-280, 552-605, 838-840, 896-927, 1051-1057). Targets, scope lines and exclusion lines are sequences of lines.
- The firebounty download, the 24-hour staleness check and JSON decoding (main.go:328-366, 607-635) are network and I/O. Programs are values of `Company.Program`.
- The interactive company picker and "COMBINE ALL" (main.go:380-432) take user input. Only the search and the single-match run are modelled.
- With `-ch` and no matching program, main.go:433-435 indexes `matchingCompanyList[0]` of an empty list and panics. The model has no run for zero matches; `Scoper.RunProgram` is given the one matching program.
- Coloured output, warnings and writing the output file (main.go:494-546, 866-882) are presentation. So is the verbose JSON dump.
- The `com.`/`org.` warning (main.go:937-939) is presentation. Its slice panic is modelled only in the per-step `Exclusion.ProgramExclusionsAsWritten`; the run uses the corrected veto (see Findings).
- The public-suffix warning in parseCompany (main.go:1101-1119) calls a foreign library and only prints. Outside chain mode, that block also calls removePortFromHost on the result of `url.Parse("https://"+scope)`. That result is nil when the parse fails, so the block panics just as Finding 1 does. It is not part of this model.
- Internals of `url.Parse`, `net.ParseIP`, `net.ParseCIDR` and `IPNet.Contains` are foreign code. They are the parameter `lib` and the bit-prefix test `Net.CidrContains`.
- Pattern.Compile: only rules whose RE2 metacharacters are `.` and `*` are modelled. Any other metacharacter makes Compile report a compile error, where RE2 might accept the pattern.
- Text.ToLower: folds only ASCII letters, while Go's strings.ToLower is Unicode-aware.
- Strings are sequences of Unicode code points, while Go strings are bytes. Only the `[0:4]` slice depends on the difference, and it is modelled with the byte length `Text.Utf8Len`. sort.Strings compares bytes; on UTF-8 that order is the code-point order `Sorting.LexLe` uses. Go strings that are not valid UTF-8 are not modelled.
- Go slice aliasing and capacity effects of `append` in logUnsure are runtime artifacts. Value semantics are used.
- Concurrency does not arise: the code is sequential.

## Findings

| source | as written | input that shows it | evidently intended | confidence | as-written member | corrected member |
|---|---|---|---|---|---|---|
| main.go:692-695 | when the `https://` re-parse of a target fails, removePortFromHost dereferences the nil URL before the parse error is checked, and the program panics | the target line `a b`: `url.Parse("a b")` gives an empty host and `url.Parse("https://a b")` fails (Matching.NilTargetExample) | warn about the line (main.go:698-704) and go on with the next target | not executed | Matching.TargetStepAsWritten | Matching.TargetStep |
| main.go:937 | `outOfScope[0:4]` is taken of every counted firebounty out-of-scope entry outside chain mode, and panics for entries shorter than 4 bytes | a program out-of-scope entry `N/A` of type `web_application`, met by any logged target outside chain mode (Exclusion.ShortExclusionPanics) | test the `com.`/`org.` prefix only on entries that are long enough, and evaluate the entry | not executed | Exclusion.ProgramExclusionsAsWritten | Exclusion.IsOutOfScope |
