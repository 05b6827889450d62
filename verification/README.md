# Halo spider: a verified model of the crawler's core

This project models the parts of the crawler that carry its branching, state and arithmetic, and proves
properties of them that hold for every input, every run or every interleaving.

| file | component |
|---|---|
| `RuleRegex.dfy` | robots.txt patterns: compilation to a regular expression, the prefix fast path, specificity |
| `RobotsParse.dfy`, `RobotsText.dfy` | the robots.txt line parser, its group accumulator, and the text it reads |
| `RobotsVerdict.dfy` | group selection, the most-specific-match decision, site overlays |
| `StandardGrouping.dfy`, `RobotsStandard.dfy`, `RobotsConformance.dfy` | the groups and the verdict of RFC 9309, and when the program's are the same |
| `RobotsDepartures.dfy` | files on which they differ |
| `PolicyCache.dfy` | the policy service: hot cache, backing cache, time to live, retry back-off |
| `PolicyInterleaving.dfy` | the same service as steps between locks, interleaved at will |
| `CrawlDelay.dfy` | the full robots check and the crawl-delay gate |
| `FieldPath.dfy`, `Resolve.dfy` | the validator's path language: parser, printers, breadth-first resolver |
| `TreePaths.dfy` | what a path means, read off the tree of values, and that the resolver finds exactly that |
| `Validate.dfy`, `ListPaths.dfy` | the mutually recursive validators, and how they agree with paths |
| `Acceptance.dfy` | what validators mean, read off the tree of values, and that exactly the items that satisfy them are accepted |
| `Sitemaps.dfy` | the sitemap work list |
| `Dispatch.dfy` | the engine's claim, fill and drain loop |
| `Throttle.dfy` | the auto-throttle controller and rate gate |
| `Metrics.dfy` | Prometheus rendering, a reader for it, and the telemetry window |
| `Slots.dfy` | the concurrency middleware's slots |
| `Prelude.dfy` | options, results and saturating arithmetic |

Objects that the program updates in place are classes (`Accumulator`, `Service`, `Robot`, `AutoThrottle`,
`Collector`, `Concurrency`, `SharedRegistry`, `Dispatcher`); loops over running state are methods with
invariants. Each is proved equal to a function on values, and the theorems are lemmas about those
functions. Clocks, network replies, backend failures, the scheduler and the order of completion are inputs,
so a statement about a run is a statement about every environment. Where clock sampling and the commit under
the lock are separate in the program, they are separate steps in the model.

## What turned out false, and exactly when

* The verdict is not always that of RFC 9309. It is when four things hold (`RobotsConformance.VerdictIsTheStandards`):
  * no line of the file divides a group: no blank line stands between a user-agent or rule line of a group and a later
    line of that group, and no user-agent line follows a crawl delay in force in a group that has no rule yet. This is
    exactly when the program's groups have the agents and rules of the standard's
    (`StandardGrouping.GroupsAreTheStandardsExactlyWhen`; `RobotsDepartures.BlankLineLosesRule` and
    `RobotsDepartures.CrawlDelayLosesAgent` are files on which the verdicts differ);
  * the groups chosen are those the standard chooses: exactly when one names the product token or the most specific
    ones are exactly those for `*` (`RobotsStandard.ChoiceIsTheStandardsExactlyWhen`), which, where groups for `*` name
    no other agent, is exactly when one names the token or no agent but `*` is contained in it
    (`RobotsStandard.ChoiceIsTheStandardsByAgents`; `RobotsDepartures.PartialAgentIsNotTheStandards` is an input);
  * the applicable rules have plain patterns: a rule's specificity is its number of octets if and only if its pattern is
    ASCII without `*` and without a trailing `$` (`RobotsStandard.SpecificityIsOctetsExactlyWhenPlain`). Between one
    Allow and one Disallow the verdicts agree if and only if both lengths put the two in the same order
    (`RobotsStandard.PairAgreesExactlyWhen`; `RobotsDepartures.StarredAllowIsOutweighed` is a file);
  * the path is not that of robots.txt itself, which the standard always allows and the program judges like any other.
* A rule's specificity is the length of the shortest path it matches if and only if the pattern ends in at most
  one `$`, because all trailing `$` are trimmed but only the last one is an anchor
  (`RuleRegex.SpecificityIsShortestMatch`).
* The hot cache is not invisible: it differs from a service without one exactly where a fresh hot entry hides a
  failing backend (`PolicyCache.HotCacheIsTransparent`).
* Interleaved calls do not keep the hot cache in step with the backend. After any interleaving the two are coherent if
  and only if, for every origin, the last entry stored into the hot cache has the time and the parsed policy of the one
  last saved to the backend, or held there from the start
  (`PolicyInterleaving.RunIsCoherentExactlyWhen`); the guard of a single step is exact too
  (`PolicyInterleaving.StepKeepsCoherenceExactlyWhen`). It suffices that no call starts while another for its origin
  is in progress (`PolicyInterleaving.SerializedOriginsStayCoherent`). Under every configuration two first fetches
  that cross, with replies at different times, break coherence (`PolicyInterleaving.CrossedFetchesBreakCoherence`), and so does a store held up past a
  refresh (`PolicyInterleaving.HeldUpStoreBreaksCoherence`).
* Back-off does not survive every clock. After a failed fetch no later call for the origin fetches if and only if none
  of them finds nothing within its time to live while reading a clock at or past the deadline
  (`PolicyCache.BackOffHoldsExactlyWhen`); the first call to fetch is always such a call
  (`PolicyCache.FailedFetchBacksOff`). A clock that runs back after that lets a fetch into the window
  (`PolicyCache.BackwardClockBreaksBackOff`); clocks that step back without having reached the deadline are harmless.
* Retrying after a returned crawl delay succeeds if and only if the delay was not capped at the largest signed
  value (`CrawlDelay.RetryAfterWait`). Capping takes a reading earlier than the last allowed one
  (`CrawlDelay.EarlierReadingFindsCappedWait`); other readings always retry with success
  (`CrawlDelay.LaterReadingRetries`).
* The throttle settles one millisecond below a target approached from below
  (`Throttle.SuccessesConverge`), and a target of zero is a resting point if and only if the start interval is
  at most one or the maximum is zero, because a stored zero is read back as the start interval
  (`Throttle.ZeroTargetRestsOnlyWithoutStart`).
* A list validator and the flattened path do not always agree. For any data: where the list validator accepts, the path
  does too unless the child is required and some list is missing or null, or there is no item at all; where the path
  accepts, the list validator does too unless some item is null (child not required) or the child's path finds nothing
  in some item (child required) (`ListPaths.ListValidatorAgainstPath`).
* The dispatch loop loses leases exactly when the scheduler returns more than it was asked for
  (`Dispatch.LeasesAreConserved`, `Dispatch.SurplusIsLost`).
* A slot counter stops being the number of holders exactly at a harmful step
  (`Slots.StepConservesExactlyWhen`). The commonest is a download that robots.txt refuses or delays after its slot was
  granted: it ends without a release. In every run that is disciplined otherwise a counter is the number of holders plus
  the slots abandoned so far (`Slots.CountIsHoldersAndAbandoned`), and a bucket with as many abandoned slots as its limit
  is blocked for good (`Slots.AbandonedSlotsBlock`, `Slots.RefusedDownloadBlocks`). Others are the release of an inherited
  marker (`Slots.InheritedMarkerOvershoots`) and a second concurrency middleware (`Slots.SharedMarkerLeaks`).

One boundary of the model: `.` in the emitted expression does not match a newline, so the texts on which every pattern
compiles to its reading are exactly those without a newline (`RuleRegex.RegexIsReadingExactlyOnOneLine`). Request paths
are of that kind, and the verdicts are stated for them.

Where the code departs from RFC 9309 the model follows the code: a blank or comment-only line ends a group,
401 and 403 disallow everything, and specificity ignores `*` and trailing `$`.

## Model

| member | source | states |
|---|---|---|
| `Prelude.LowerIgnoresCase` | src/robots.rs:183 | texts agree in lower case exactly when they differ in the case of letters only |
| `RuleRegex.CompileRuleRegex` | src/robots.rs:1158-1175 | the character loop yields no expression for a plain pattern, and otherwise `^`, the escaped body with `.*` for stars, and `$` for a final `$` |
| `RuleRegex.CompileSitePatternRegex` | src/robots.rs:1177-1189 | the loop yields an expression anchored at both ends around the escaped host pattern |
| `RuleRegex.BodyTextTokenizes` | src/robots.rs:1166-1172 | escaping loses nothing: the emitted text is read back token by token to the literals and stars of the pattern |
| `RuleRegex.RegexIsOneLineReading` | src/robots.rs:1158-1175 | for every text the compiled expression matches if and only if newline-free pieces put for the stars make the pattern a prefix of it, or all of it when anchored |
| `RuleRegex.RegexIsReading` | src/robots.rs:1158-1175 | on paths without newlines the compiled expression accepts exactly what RFC 9309 section 2.2.3 reads from the pattern |
| `RuleRegex.RegexIsReadingExactlyOnOneLine` | src/robots.rs:1158-1175 | a text is one on which every pattern's expression agrees with its reading if and only if it holds no newline |
| `RuleRegex.NewlineSeparatesRegexFromReading` | src/robots.rs:1168 | a path with a newline on which expression and reading of one pattern differ |
| `RuleRegex.FastPathAgreesWithRegex` | src/robots.rs:912-914 | for a pattern without expression `starts_with` answers as the expression that was not built would |
| `RuleRegex.MatchLengthReadsThePattern` | src/robots.rs:898-915 | a rule matches, with its specificity, exactly when its pattern is not empty, its host agrees and the pattern reads the path |
| `RuleRegex.SpecificityIsShortestMatch` | src/robots.rs:1195-1201 | specificity is the length of the shortest matching path if and only if at most one `$` trails |
| `RuleRegex.SitePatternIsFilling` | src/robots.rs:1177-1189 | a host pattern matches exactly the hosts that a filling of its stars spells |
| `RobotsParse.Parse` | src/robots.rs:675-756 | the line loop over mutable accumulators computes the fold of the line semantics and closes the last group |
| `RobotsParse.Accumulator.FinalizeGroup` | src/robots.rs:1250-1270 | closing a group moves the open agents, rules and delays into it, or drops rules and delays when no agent is open |
| `RobotsParse.Accumulator.Accept` | src/robots.rs:684-751 | the new accumulator is the specified successor for each kind of line |
| `RobotsParse.ParsingConservesDirectives` | src/robots.rs:675-756 | the agents of all groups are the user-agent lines in order, their rules exactly the allow and disallow lines at which agents were open, and no group lacks agents |
| `RobotsParse.SitemapsAreDeclared` | src/robots.rs:738-742 | a file declares exactly the non-empty URLs of its sitemap lines, each once, in the order of first mention |
| `RobotsParse.GroupsAreBlocks` | src/robots.rs:675-756 | every group is one block of consecutive lines, in order, with the agents, rules and last delays of that block, and the block ends where the next line ends it |
| `RobotsParse.BlankLineJoins` | src/robots.rs:684-693 | parsing two lists of lines with a blank line between them joins their results |
| `RobotsParse.BlankLineJoinsBodies` | src/robots.rs:675-756 | parsing two bodies joined by a blank line gives the groups of the first, then those of the second, and the sitemaps of both without repetition, for all texts |
| `RobotsText.LinesAreSpellings` | src/robots.rs:684-751 | a line is read as a directive if and only if it spells it: optional byte-order mark, any indentation, any case of the name, any space around colon and value, any comment |
| `RobotsText.SpelledLineReads` | src/robots.rs:684-703 | every layout of a name and value is read as that name, lower-cased, and that value |
| `RobotsText.BlankLinesAre` | src/robots.rs:684-685 | a line ends a group if and only if only white space stands in front of its comment |
| `RobotsText.PrintedFileParses` | src/robots.rs:675-756 | a file printed from any list of directives and blank lines parses as that list |
| `RobotsVerdict.MatchingGroups` | src/robots.rs:804-832 | the running best yields, in order, exactly the groups no other group beats |
| `RobotsVerdict.GroupSpecificityIsGreatest` | src/robots.rs:844-857 | no matching agent of a group is more specific than the group |
| `RobotsVerdict.GroupSpecificityIsReached` | src/robots.rs:844-857 | a group's specificity is that of one of its agents |
| `RobotsVerdict.IsAllowed` | src/robots.rs:758-788 | the answer is no if and only if some matching disallow rule of a most specific group is longer than every matching allow rule there |
| `RobotsVerdict.OrderIsIrrelevant` | src/robots.rs:758-832 | files with the same groups and rules in any order give the same verdict |
| `RobotsVerdict.VerdictReadsThePatterns` | src/robots.rs:619-789 | parsing a body, compiling its patterns and deciding gives the verdict read directly off the patterns by the program's own group choice and specificity, with no regular expression in it |
| `RobotsStandard.SpecificityIsOctetsExactlyWhenPlain` | src/robots.rs:1195-1201 | specificity never exceeds the number of octets of the pattern and equals it if and only if the pattern is ASCII, without `*` and without a trailing `$` |
| `RobotsStandard.ChoiceIsTheStandardsExactlyWhen` | src/robots.rs:804-857 | for a product token the most specific groups are those of RFC 9309 section 2.2.1 if and only if some group names the token or they are exactly the groups for `*` |
| `RobotsStandard.ChoiceIsTheStandardsByAgents` | src/robots.rs:844-857 | when groups for `*` name no other agent, the choice is the standard's if and only if some group names the token or no agent but `*` is contained in it |
| `RobotsStandard.OnlyStarsIsTheStandards` | src/robots.rs:844-857 | whatever else groups for `*` name, the choice is the standard's when no agent but `*` is contained in the token |
| `StandardGrouping.GroupsAreTheStandardsExactlyWhen` | src/robots.rs:675-756 | the program's groups have the agents and rules, in order, of the groups RFC 9309 section 2.2 makes of the same lines if and only if no blank line and no crawl delay divides a group |
| `RobotsConformance.VerdictIsTheStandards` | src/robots.rs:619-832 | on files no line of which divides a group, with the standard's choice of groups and plain patterns on the applicable rules, parsing, compiling and deciding gives the verdict of RFC 9309 sections 2.2 to 2.2.2 on the standard's own groups, on every path but that of robots.txt itself |
| `RobotsStandard.PatternsDenyAsTheStandard` | src/robots.rs:758-832 | more generally when specificity and octets put every applicable Allow and Disallow in the same order |
| `RobotsStandard.PairAgreesExactlyWhen` | src/robots.rs:758-788 | between one applicable Allow and one applicable Disallow the verdicts agree if and only if the order is the same |
| `RobotsDepartures.StarredAllowIsOutweighed` | src/robots.rs:1195-1201 | a file with `Allow: /a***` and `Disallow: /ab` for all agents: the program denies `/ab`, which the standard allows |
| `RobotsDepartures.BlankLineLosesRule` | src/robots.rs:685-693 | a file with a blank line between two Disallow lines of a group: the program allows what the second disallows, the standard denies it |
| `RobotsDepartures.CrawlDelayLosesAgent` | src/robots.rs:704-717 | a file with a crawl delay between two user-agent lines of a group: the program leaves the first agent without rules, the standard denies |
| `RobotsDepartures.PartialAgentIsNotTheStandards` | src/robots.rs:844-857 | a group for an agent that is only part of the token is chosen instead of the one for `*` |
| `RobotsVerdict.RequiredDelayIsStrictest` | src/robots.rs:796-802 | the delay is a crawl delay or request interval of some most specific group, and no such group has a larger one of either kind |
| `RobotsVerdict.ResolveSitePolicy` | src/robots.rs:475-512 | access and unavailable policy come from the matching setter of greatest kind, length and index; the delay is the largest over all matches; sitemaps are merged in order |
| `RobotsVerdict.PickIsUnique` | src/robots.rs:191-198 | at most one value is picked, so the overlay is determined by the rules and the URL |
| `RobotsVerdict.PickIsOfTheHighestRank` | src/robots.rs:180-197 | the value picked is that of the one matching rule that outranks all others that set it: an origin beats a host in any case, a host beats a pattern, more literals beat fewer, and otherwise the later rule wins; nothing is picked exactly when no matching rule sets it |
| `RobotsVerdict.SitemapsAreUnion` | src/robots.rs:1228-1236 | site sitemaps are the union over matching rules, without repetition |
| `PolicyCache.Service.FreshHotPolicy` | src/robots.rs:514-522 | a hot policy is returned exactly when one is stored and the clock has not passed its time plus the time to live |
| `PolicyCache.Service.IsUnavailableRetryPending` | src/robots.rs:539-555 | pending exactly before the deadline; an expired deadline is dropped |
| `PolicyCache.Service.RememberUnavailableRetry` | src/robots.rs:557-566 | the deadline noted is the failure time plus the delay, or none without a delay |
| `PolicyCache.Service.RunPolicyFor` | src/robots.rs:393-473 | the method over three mutable maps computes the specified answer, fetch and new state for every combination of cache contents, reply and backend failure |
| `PolicyCache.RunsAreCoherentAndJustified` | src/robots.rs:393-537 | in every sequential run each hot entry is the parsed backing entry with the same time, and each answer is that of an entry whose age is below the time to live, fetched in that call, or given because robots.txt is unavailable |
| `PolicyCache.HotCacheIsTransparent` | src/robots.rs:393-537 | over every run the service fetches, stores and answers as one without a hot cache, except exactly where a fresh hot entry hides a failing backend |
| `PolicyCache.FetchesExactlyWhen` | src/robots.rs:404-436 | in clock arithmetic: a call fetches if and only if the backend can be read, holds no entry fetched less than the time to live before, and the clock has reached any retry deadline |
| `PolicyCache.FailsExactlyWhen` | src/robots.rs:393-473 | a call ends in an error if and only if the backend cannot be read with no usable hot policy, or it fetches and has no client, or the backend does not take what was fetched |
| `PolicyCache.CallSettlesItsOrigin` | src/robots.rs:436-471 | a reply that speaks for itself clears the retry deadline and, once saved, is what the backend holds; any other failed fetch sets the deadline anew and leaves the backend; a call without a fetch changes neither, and other origins are left alone |
| `PolicyCache.BackOffHoldsExactlyWhen` | src/robots.rs:417-471 | after a failed fetch, with no assumption on clocks, no later call for the origin fetches if and only if none reads the backend, finds nothing within its time to live and has a clock at or past the failure plus the delay |
| `PolicyCache.FailedFetchBacksOff` | src/robots.rs:417-471 | a call before which none reached the deadline fetches if and only if it reaches the deadline itself, and otherwise answers with the policy last cached or the unavailable policy that applies |
| `PolicyCache.OrderedClocksBackOff` | src/robots.rs:417-471 | with a clock that never runs back no call inside the window fetches |
| `PolicyCache.BackwardClockBreaksBackOff` | src/robots.rs:539-555 | a clock that runs back over the deadline has the origin fetched again inside the window |
| `PolicyInterleaving.UninterruptedCallIsSequential` | src/robots.rs:393-473 | the steps of a call, run without interruption, have exactly the effect of the sequential call |
| `PolicyInterleaving.HotEntriesWereStored` | src/robots.rs:393-537 | in every interleaving each hot entry is the parsed form of an entry the backend once held for that origin |
| `PolicyInterleaving.AnswersWereStored` | src/robots.rs:393-473 | in every interleaving each answer is an error, the parsed form of an entry the backend once held for the origin asked for, or the unavailable policy that applies to the call |
| `PolicyInterleaving.StepKeepsCoherenceExactlyWhen` | src/robots.rs:404-471 | a step keeps the caches coherent if and only if it does not store what the backend does not hold and does not save beside a different hot entry |
| `PolicyInterleaving.RunIsCoherentExactlyWhen` | src/robots.rs:393-537 | after any interleaving the caches are coherent if and only if, for every origin, the last store carried what the last save wrote |
| `PolicyInterleaving.SerializedOriginsStayCoherent` | src/robots.rs:393-537 | if no call starts while another for its origin is in progress, every hot entry of an origin without a call in progress is the parsed backend entry, however calls of different origins interleave |
| `PolicyInterleaving.HeldUpStoreBreaksCoherence` | src/robots.rs:404-415 | for every backend, a loading call held up while another refreshes the origin leaves the hot cache out of step with the backend |
| `PolicyInterleaving.CrossedFetchesBreakCoherence` | src/robots.rs:436-444 | two first fetches of one origin that cross, with replies at different times, leave both calls ended and the caches out of step, for every configuration |
| `PolicyInterleaving.InterleavingBreaksCoherence` | src/robots.rs:524-529 | under every configuration such an interleaving exists from empty caches |
| `CrawlDelay.Robot.Check` | src/robots.rs:313-367 | the whole decision: overlay, policy, verdict and gate, with the resulting cache and deadlines |
| `CrawlDelay.AskPolicy` | src/robots.rs:636-642 | a policy allows a URL exactly when its rules do not deny it |
| `CrawlDelay.PolicySaysItsEntry` | src/robots.rs:617-642 | a cached entry is obeyed as it was stored: storing a file without groups and sitemaps as a plain permission loses nothing |
| `CrawlDelay.ReplyDecides` | src/robots.rs:929-999 | after a fetch the status decides what is refused: a 2xx body is obeyed, 401 and 403 refuse everything, 404 nothing, and otherwise the entry held before, the site's unavailable policy or the service's applies, in this order |
| `CrawlDelay.OverlayDecidesAccess` | src/robots.rs:331-339 | a request is refused if and only if the site policy disallows it, or sets no access and the robots policy denies it |
| `CrawlDelay.EveryDemandHoldsTheNext` | src/robots.rs:341-366 | behind an allowed request the next delayed one of its origin is allowed if and only if every delay that the site or a most specific group demanded of the first has passed |
| `CrawlDelay.AllowsAreSpaced` | src/robots.rs:355-366 | in every interleaving two requests allowed on an origin were sampled at least the earlier one's delay apart, whatever the clock did |
| `CrawlDelay.RunsSpanDelays` | src/robots.rs:355-366 | the k-th allowed request comes at least k minimum delays after the first |
| `CrawlDelay.RetryAfterWait` | src/robots.rs:359-362 | after a returned wait and no allowed request in between, retrying exactly then is allowed if and only if the wait was not capped |
| `CrawlDelay.LaterReadingRetries` | src/robots.rs:355-366 | it is allowed whenever the first reading was not earlier than the last allowed one |
| `CrawlDelay.EarlierReadingFindsCappedWait` | src/robots.rs:359-362 | a booking and an earlier reading for which retrying exactly then is refused |
| `FieldPath.ParseFieldPath` | src/validator.rs:1409-1492 | the index-driven nested loops compute the recursive grammar, errors included |
| `FieldPath.ParseSelector` | src/validator.rs:1436-1468 | one selector is read or rejected as the grammar says, and the index ends just behind it |
| `FieldPath.ParserAcceptsSpellings` | src/validator.rs:1409-1492 | a text parses to a list of steps if and only if the steps are well formed and the text spells them, with any zeros in front of indices |
| `FieldPath.ErrorsNameTheMistake` | src/validator.rs:1409-1492 | a rejected path holds the mistake its error names: an empty segment, a selector without a field, one that is not closed or holds no index, an index too large, text behind a selector, or a dot at the end |
| `FieldPath.PrintThenParse` | src/validator.rs:1598-1612 | parsing the printed form of any well-formed steps returns them |
| `FieldPath.ParseThenPrint` | src/validator.rs:1409-1612 | printing what was parsed returns the text without the leading zeros of indices |
| `FieldPath.AcceptedPathBeginsWithField` | src/validator.rs:1409-1492 | an accepted non-empty path begins with a field |
| `FieldPath.JoinedPathParses` | src/validator.rs:1614-1624 | joining an accepted path, selectors and another accepted path with a dot joins their steps |
| `Resolve.ApplyFieldPathStep` | src/validator.rs:1494-1596 | the loop over cursors expands each in order and stops at the first fault |
| `Resolve.ResolveFieldValues` | src/validator.rs:1325-1353 | the breadth-first loop computes the specified results and labels |
| `TreePaths.ResultsAreTheTrails` | src/validator.rs:1325-1596 | the results are what stands at the ends of the ways to follow the path through objects and lists, one for each way, in the order of the items, each labelled by its way |
| `TreePaths.ResultsAreWhatTheTreeHolds` | src/validator.rs:1325-1596 | a label and a value are among the results if and only if some way to follow the path is spelled by the label and leads to the value, or to nothing |
| `TreePaths.ResolutionFailsExactlyWhen` | src/validator.rs:1494-1596 | resolution fails if and only if the path does not parse or some way to follow it meets a value that is no object at a field, no list at a selector, and not null; the empty path names the missing value |
| `TreePaths.FaultsNameTheBlock` | src/validator.rs:1494-1596 | the fault of a resolution names a place where the path is blocked, the step that could not be taken there and the kind of value that stands there |
| `Resolve.BreadthFirstIsDepthFirst` | src/validator.rs:1335-1337 | stepping all cursors together succeeds with the same results in the same order as resolving each branch on its own, and fails exactly when some branch fails |
| `Resolve.SelectorAtRootIsUnreachable` | src/validator.rs:1516-1596 | resolution never reports an array selector at the root |
| `Resolve.LabelsResolveToThemselves` | src/validator.rs:1325-1612 | for every tree and path the label of a result resolves from the same root to that result alone, missing values included |
| `Resolve.ResolutionComposes` | src/validator.rs:1355-1392 | resolving `p.q` is resolving `q` behind each result of `p`, labels included: under an object as nested resolution does, behind a null or missing value as one missing value, behind anything else as a fault |
| `Resolve.ObjectResolutionComposes` | src/validator.rs:1355-1392 | when `p` yields objects, resolving `p.q` is nested resolution of `q` under each of them, labels included |
| `Validate.RunFields` | src/validator.rs:519-547 | validators are resolved and validated in order against the item, the first fault ending the run |
| `Validate.RunField` | src/validator.rs:549-587 | conditions, the required check and the loop over resolved values give the specified outcome and first fault |
| `Validate.RunScoped` | src/validator.rs:707-745 | each child is resolved under the scope and validated in order; a value that is no object is a fault |
| `Validate.RunEach` | src/validator.rs:666-705 | every item of a list is validated under its indexed label, in order |
| `Acceptance.AcceptedExactlyWhen` | src/validator.rs:519-745 | an item is accepted if and only if it satisfies every validator, where satisfying is read off the tree: the path can be followed and, unless a condition fails, something is found if it is required, and everything found is absent and not required or passes transforms, type, check and the validators of its members and items |
| `Acceptance.ConditionMeans` | src/validator.rs:824-858 | a condition holds exactly when its path finds some present value, none, the expected one, or some but not the expected one; it is a fault exactly when the path cannot be followed or a comparison has nothing to compare with |
| `Acceptance.FirstUnsatisfiedDecides` | src/validator.rs:519-547 | a rejected item is rejected with the fault of the first validator it does not satisfy |
| `ListPaths.ListValidatorAgainstPath` | src/validator.rs:549-705 | for any data, a list validator with one unconditional child against the child at `list[].child`, whatever is nested in the child: the exact condition under which acceptance by either implies acceptance by the other |
| `ListPaths.ListValidatorAgreesWithPath` | src/validator.rs:549-705 | on present lists of objects, with a child that is not required or whose path holds no `[]`, both accept alike if and only if there is an item or the child is not required |
| `ListPaths.ObjectValidatorAgainstPath` | src/validator.rs:651-664 | the same exact conditions for an object validator and `parent.child` |
| `ListPaths.ObjectValidatorAgreesWithPath` | src/validator.rs:651-664 | on objects, with such a child, both accept alike if and only if there is an object or the child is not required |
| `ListPaths.EachPathIsItems` | src/validator.rs:1556-1594 | `p[]` resolves to the items, with their indexed labels, of the lists `p` resolves to, to one missing item for a missing or null list, and to a fault for anything else |
| `Sitemaps.FirstRequests` | src/engine.rs:590-602 | each origin is represented by the first start request that has it |
| `Sitemaps.SeedSitemaps` | src/engine.rs:604-639 | the initial work list holds every resolvable declared sitemap once |
| `Sitemaps.Discover` | src/engine.rs:678-695 | the links not seen before are queued once each, in order |
| `Sitemaps.OfferPages` | src/engine.rs:697-737 | the resolvable page entries are offered in order, up to the first failure of the scheduler |
| `Sitemaps.LinksAreShown` | src/engine.rs:664-703 | the sitemaps and pages found at a URL are those to which a raw link of its 2xx reply resolves |
| `Sitemaps.OffersAreListedPages` | src/engine.rs:697-737 | a page is offered on behalf of a request if and only if a sitemap fetched for that request lists it |
| `Sitemaps.WalkSitemaps` | src/engine.rs:604-741 | the walk terminates on every finite link graph, fetches no sitemap twice, fetches exactly those reachable through raw links that resolve in 2xx replies, and offers exactly the resolvable pages of those it read; a scheduler failure stops it at a proper prefix |
| `Sitemaps.RoundKeepsWalking` | src/engine.rs:645-738 | one round keeps the walk's invariant and either shrinks the unseen URLs or the queue |
| `Sitemaps.EmptyListMeansDone` | src/engine.rs:645-738 | with nothing pending the fetched sitemaps are exactly the reachable ones |
| `Dispatch.Dispatcher.FillSlots` | src/engine.rs:828-903 | the fill loop with its permits asks the scheduler at most once, for all the free places, and launches what it gets up to that number |
| `Dispatch.Dispatcher.DrainInFlight` | src/engine.rs:810-826 | the drain applies every task in flight, or stops at the first error |
| `Dispatch.Dispatcher.Run` | src/engine.rs:809-928 | after any number of turns the loop is in the specified state, and free permits plus tasks in flight equal the limit |
| `Dispatch.LeasesAreConserved` | src/engine.rs:809-928 | in every state claimed leases are the applied ones plus those in flight, at most the limit are in flight, and the leases handed over are all accounted for if and only if the scheduler kept to the requested sizes |
| `Dispatch.RunningTurnProgresses` | src/engine.rs:828-927 | a turn that neither stops nor fails asks for all the free places, if any, and applies exactly one task that was in flight or newly claimed, unless there is none |
| `Dispatch.EveryTurnCounts` | src/engine.rs:809-928 | as long as the loop runs the tasks applied and the idle turns add up to the turns, and with any room every turn asks the scheduler once |
| `Dispatch.BusyLoopAppliesEveryTurn` | src/engine.rs:809-928 | with a scheduler that always has a task ready and without errors, n turns apply n tasks |
| `Dispatch.ErrorsEndTheRun` | src/engine.rs:843-926 | a run has failed if and only if a request to the scheduler or an application failed, and the error is that of the last one |
| `Dispatch.ShutdownAppliesEverything` | src/engine.rs:810-826 | a run that stopped applied every claimed lease as often as it was claimed, and every lease handed over if and only if the scheduler kept to the requested sizes |
| `Dispatch.ErrorFreeShutdown` | src/engine.rs:810-826 | without errors and with a scheduler that keeps its contract, raising the flag leads in one turn to a stop with nothing in flight and every lease applied |
| `Dispatch.DrainEnds` | src/engine.rs:810-826 | the drain ends, and without errors it ends in a clean stop |
| `Dispatch.SurplusIsLost` | src/engine.rs:849-851 | a scheduler that returns two leases for one place: the second is never claimed nor applied |
| `Throttle.NewConfig` | src/middleware/auto_throttle.rs:74-113 | whatever options are given, construction leaves positive factors and minimum <= start <= maximum |
| `Throttle.RequestOptionsWin` | src/middleware/auto_throttle.rs:126-164 | each setting a request gives replaces the middleware's and no other; only a maximum below the minimum gives way |
| `Throttle.OrderedOptionsAreKept` | src/middleware/auto_throttle.rs:57-113 | options in order are taken as they are, and without options the delay lies between zero and a minute with errors doubling it |
| `Throttle.FirstDelayIsShare` | src/middleware/auto_throttle.rs:193-209 | with no delay so far a success sets the delay to the number between the bounds nearest to latency over target concurrency, halves rounded up, and to no other |
| `Throttle.AutoThrottle.BeforeDownload` | src/middleware/auto_throttle.rs:268-305 | nothing happens while the middleware is dormant or the request skips it; otherwise admission, the returned wait and the new bucket state under the settings of the request |
| `Throttle.AutoThrottle.FinishRequest` | src/middleware/auto_throttle.rs:223-265 | the bucket state after a finished download under the settings of the request; nothing changes while dormant, for a download that was not admitted, or when the bucket does not resolve |
| `Throttle.AutoThrottle.AfterDownload` | src/middleware/auto_throttle.rs:307-337 | statuses 429 and from 500 on count as errors, all others as successes |
| `Throttle.SuccessesHalveTheDistance` | src/middleware/auto_throttle.rs:193-209 | after n successes whose latencies have the same share, at least one, the distance to it is the first distance over 2^n, rounded down from above and up from below, and no sum overflows |
| `Throttle.SuccessesConverge` | src/middleware/auto_throttle.rs:193-209 | when all latencies have the same share, it is reached from above, and one below it from below, in logarithmically many successes |
| `Throttle.ZeroTargetRestsOnlyWithoutStart` | src/middleware/auto_throttle.rs:173-179 | when zero is the share of a latency, it is a resting point if and only if the start interval is at most one or the maximum is zero |
| `Throttle.ErrorsGrowExponentially` | src/middleware/auto_throttle.rs:211-221 | with an integer ratio r, k errors give min(max, r^k * max(delay, min, 1)) |
| `Throttle.ErrorsNeverSpeedUp` | src/middleware/auto_throttle.rs:211-221 | with any ratio of at least one an error never lowers the delay |
| `Throttle.NextAllowedNeverDecreases` | src/middleware/auto_throttle.rs:181-305 | no step of any interleaving moves a bucket's next admission time back |
| `Throttle.AdmissionsAreSpaced` | src/middleware/auto_throttle.rs:223-305 | in every interleaving, whatever settings the requests bring, an admission is sampled at least the delay after an earlier admission or finish of its bucket that set it |
| `Throttle.AdmittedExactlyWhenSpaced` | src/middleware/auto_throttle.rs:181-305 | after any interleaving a request is admitted if and only if its reading lies behind every booking of its bucket |
| `Throttle.RefusedWaitIsExact` | src/middleware/auto_throttle.rs:294-299 | while nothing is booked a refused request is refused until the wait it was told has passed, and admitted from then on |
| `Throttle.StoredDelaysStayInRange` | src/middleware/auto_throttle.rs:181-191 | stored delays stay within any bounds that the settings of all requests respect |
| `Metrics.EscapeIsCharacterwise` | src/telemetry.rs:943-948 | the three replacement passes are one character-wise escape |
| `Metrics.ReadEscaped` | src/telemetry.rs:943-948 | reading a quoted escaped value returns the value and stops at its closing quote, for any text |
| `Metrics.WriteMetricSample` | src/telemetry.rs:928-941 | exactly one sample line is appended |
| `Metrics.SampleReadsBack` | src/telemetry.rs:928-948 | a rendered sample parses to the same name, label list and value, whatever the label values hold |
| `Metrics.SampleIsOneLine` | src/telemetry.rs:928-948 | a rendered sample holds a single newline, at its end |
| `Metrics.RenderScopes` | src/telemetry.rs:834-845 | the loop over scopes appends one line for each non-zero count |
| `Metrics.RenderWorkers` | src/telemetry.rs:847-859 | the loop over workers appends one line for each non-zero count, under the scope if there is one and the worker |
| `Metrics.RenderSchedulerMetrics` | src/telemetry.rs:828-861 | the nested loops append the exposition of the eight metrics, header, total and rows |
| `Metrics.ExpositionReadsBack` | src/telemetry.rs:393-401 | a rendered list of families reads back, line by line, to exactly their headers and samples in order |
| `Metrics.SchedulerMetricsReadBack` | src/telemetry.rs:828-921 | the scheduler metrics under any prefix, for any scopes and worker names, read back, line by line, to exactly the headers and rows of the eight metrics in order |
| `Metrics.FamilyRowsAre` | src/telemetry.rs:828-861 | a metric shows its total, every non-zero count of a scope or worker under its labels, and nothing else |
| `Metrics.NamesShowTheirCounts` | src/telemetry.rs:864-921 | read back from the rendered text, each of the eight names shows exactly its own count of the totals and the non-zero ones of scopes and workers, under their labels |
| `Metrics.HeadersNameTheMetrics` | src/telemetry.rs:864-927 | read back from the rendered text, the comments are a help line and a type line for each of the eight names, saying what it counts and that it is a counter |
| `Metrics.NormalizedPrefixIsName` | src/telemetry.rs:950-975 | a normalized prefix is a metric name, is left alone if and only if it was one, and normalizing again changes nothing; every character that no name may hold becomes an underscore, and one stands in front of a leading digit |
| `Metrics.Collector.Export` | src/telemetry.rs:171-193 | the latest statistics replace the old ones and the bounded window drops from the front |
| `Metrics.WindowIsSuffix` | src/telemetry.rs:172-193 | after any run the window is exactly the last events up to the limit |
| `Slots.Concurrency.BeforeDownload` | src/middleware/concurrency.rs:102-137 | the verdict, the bucket counter and the marker after an admission, a denial, a pass or an error; a request's own concurrency, or else the middleware's, denies it exactly when it is at least one and one more download would exceed it |
| `Slots.Concurrency.ReleaseSlot` | src/middleware/concurrency.rs:59-82 | the marker is always removed; the counter goes down only if the marker said so and the bucket resolves |
| `Slots.SharedRegistry.StoreFor` | src/middleware/concurrency.rs:24-36 | equal options get the same store object and different options different ones |
| `Slots.StepConservesExactlyWhen` | src/middleware/concurrency.rs:59-137 | a step keeps every counter equal to the number of its holders if and only if it takes no second slot, gives back only what it holds under the same key, and does not end while holding |
| `Slots.SlotsAreConserved` | src/middleware/concurrency.rs:59-156 | in every interleaving of disciplined downloads that arrive unmarked, each counter is the number of holders, never above the largest limit used, and a release always finds it positive |
| `Slots.DelayedExactlyWhenFull` | src/middleware/concurrency.rs:121-128 | after such a run a request is delayed if and only if its bucket has as many holders as its limit |
| `Slots.CountIsHoldersAndAbandoned` | src/engine/task.rs:755-807 | in every interleaving in which downloads may also end without a release, each counter is the number of holders plus the abandoned slots |
| `Slots.AbandonedSlotsBlock` | src/middleware/concurrency.rs:123-128 | once a bucket has as many abandoned slots as a limit allows, every later request with that limit is denied, however the run goes on |
| `Slots.RefusedDownloadBlocks` | src/engine/task.rs:768-807 | a granted download that robots.txt refuses or delays leaves a bucket with a limit of one without holder and blocked for good |
| `Slots.FollowInheritsMarker` | src/response/follow.rs:10-34 | a follow request of a response taken under a slot carries the marker unless the caller overwrites it |
| `Slots.InheritedMarkerOvershoots` | src/middleware/concurrency.rs:59-82 | with an inherited marker two downloads hold slots of a bucket whose every limit is one |
| `Slots.SharedMarkerLeaks` | src/middleware/concurrency.rs:59-82 | two concurrency middlewares on one download take two slots and give back one |

## Left out

- The network and the HTTP clients: a fetch of robots.txt or of a sitemap is an input (its status, its body or its failure).
- The `url` crate: origins, hosts, request paths, relative resolution and the splitting of absolute rule targets are parameters.
- The `regex` crate beyond the fragment emitted here (literals, escapes, `.*`, `^`, `$`); an expression too large to compile, for which the code falls back to the prefix test, is not modelled.
- The text forms of crawl delays and request rates: their values are parameters of the parser, being floating-point parsing.
- RobotsConformance.VerdictIsTheStandards: the normalisation of percent-encoded octets that RFC 9309 asks for before comparing paths is absent.
- Bytes against characters: string lengths and indices count characters, and case folding is ASCII.
- Floating-point rounding: throttle ratios, targets and limits are reals; numbers in validated values are compared exactly, so NaN is absent.
- Texts of error messages: faults are structured values that carry the field and the kind.
- Throttle.SuccessesHalveTheDistance: is stated for successive downloads under one configuration; settings that change from request to request are covered by the spacing and range theorems only.
- CrawlDelay.AllowsAreSpaced: assumes clock readings and delays up to the largest signed 64-bit value, beyond which the deadline saturates.
- Resolve.LabelsResolveToThemselves: assumes that list indices fit in a machine word, as they do in the program; a label with a larger index would not parse.
- Validators: leaf checks, transforms, relations between fields and the collector's formatting are abstract or absent; the collector is the fail-fast one.
- The order in which origins are visited for sitemaps (the order of a map's keys) is an input, as are the scheduler's refusals and deduplication of offered pages.
- Dispatch.LeasesAreConserved: per-domain permits, heartbeats, stores, signals and statistics of the run loop are absent; applying a finished task is one step that may fail.
- Slots.StepConservesExactlyWhen: speaks of one store; how a bucket key is spelled from its tokens is a parameter, and lock poisoning is absent.
- The table of engine statistics (unlabelled counters), the file exporter and the OpenTelemetry exporter.
- Scheduler backends, the other middlewares, the browser, settings, builders, signals and tracing.
