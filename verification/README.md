# CiteLadder: verified models

A Dafny model of the parts of CiteLadder whose correctness depends on whole runs, on loops or on exact
arithmetic, with proofs of what those parts promise. `dafny verify dfyconfig.toml` checks everything.

## What is modelled

- **The audit event stream** (`EventLog`, `EventStream`, `EventDelivery`, `EventGuarantees`, `EventRefinement`). The page query over
  the append-only event table, the polling generator behind `GET /audits/{id}/events?stream=true`, and a step
  system in which writers commit, an audit may be deleted, and one client connects, drops and resumes with
  `Last-Event-ID` (section 9.2 of the WHATWG HTML Living Standard), in any interleaving. Loading a page, yielding a
  frame, receiving it and reading the status are separate steps. `EventRefinement` shows that the
  generator's loop, with any writes around its page loads and status reads, is a run of the step system, and carries
  the guarantees over to what the loop sends. The fields `log`, `behind` and `mark` of the state are history only; `LogIsHistory` says what the
  first one records, and no step reads any of them to decide what it does.
- **The complexity policy** (`Complexity`, `PolicyDocument`, `PolicyRatchet`). The worklist measure of a syntax
  tree, policy validation, the limit and stale-exception checks, and the comparison that only lets a policy tighten.
- **Onboarding evaluation** (`CompanyMatching`, `Discrimination`). First-fit matching of company names over a
  relation that is not transitive, and the gold-versus-generated test with its keyed shuffle and score.
- **Visibility scoring** (`Rounding`, `RunAggregation`, `ShareOfVoice`, `CitationShare`, `PromptComposite`,
  `CompositeMeaning`, `PromptRows`, `AggregateMeaning`, `Coverage`, over the executions of `Executions`). Counting folds, partitions by engine and by prompt, the top 25 domains, composites
  rounded at two levels, coverage of the slot grid.
- **Alias matching** (`Normalization`, `EntityAssessment`, `AliasLayout`). The matcher on normalized tokens and the one on the raw
  answer, with the regular expressions as match predicates on ASCII text.
- **Corpus selection** (`CorpusSelection`, `CorpusPicks`, `CorpusTies`). The two-stream greedy selector of site-audit rows.
- **Provisioning** (`Provisioning`, `ProvisioningConvergence`, `ProvisioningOutcomes`). Platform credentials converged in one transaction.
- **Observed competitors** (`ObservedCompetitors`) and **Markdown cells** (`MarkdownCells`).

`Ordering`, `Counting`, `Products`, `Texts` and `Options` hold what these share.

## What the proofs found

- An event committed behind what the client already holds is never delivered, on this connection or after any
  resume. Delivery is exactly once if and only if that does not happen (`ExactlyOnceIff`, `SkippedForever`, and a
  concrete run in `LateCommitIsLost`); commits in key order rule it out (`ExactlyOnce`, `StreamIsExactlyOnce`).
- Apart from events committed behind the reader, the terminal close loses nothing that was committed when a terminal
  status was first counted, exactly when the grace is at least two polls, or the page size is zero, when the stream
  never closes (`LosslessIff`). The shipped grace is two.
- The raw alias matcher finds everything the normalized one finds exactly when the alias neither starts nor ends
  with the word "and" (`RawMatcherCompleteIff`; `MissedAnswer` gives the answer it misses for any other alias).
- The raw alias matcher skips an ampersand between two tokens: it finds "a b" in "a & b", where the normalized matcher
  reads "a and b" and does not (`AmpersandSkipped`). A match spells out exactly the alias's letters and digits, `&` read
  as "and", if and only if no such ampersand was skipped (`MatchSpellsAliasIff`).
- The policy ratchet holds of a base policy, whatever is accepted after it, if and only if no exception of the base
  lies below its default (`RatchetsIff`), which validation ensures. Otherwise removing the exceptions is accepted and
  raises a ceiling (`RemovalRaisesCeiling`).
- Reported complexity scores account for every decision point exactly when no two functions of one qualified name
  in a module both have some; otherwise points are lost, never gained (`ReportedPointsConservedIff`).
- First-fit matching finds at least half of the best one-to-one matching, and half is attained (`HalfIsAttained`).
- `select_rows` documents a final tie-break on row UUID. The sort key has none: rows that tie on score, kind and URL
  rank in input order. The ranking ignores the input order if and only if no two different rows tie in either stream
  (`RankingOrderIndependentIff`); then so does the whole selection (`SelectionOrderIndependent`), and every pair that
  does tie occurs in some rows on which the selection succeeds but differs with their order (`TieShowsInSelection`).
  The script itself never shows it: its query returns one current analysis for a company and URL
  (`migrations/versions/0001_initial.py:2502`), and lists the companies by name
  (`backend/scripts/audit_site_health_50.py:264`).
- A share-of-voice table adds up to the mention volume exactly when no competitor has the brand's name, or the brand
  is never mentioned; otherwise the brand's mentions are missing from it (`MentionsConservedIff`).
- A stored credential that no longer decrypts makes a provisioning run fail, even when the run would replace it
  (`RunAcceptedIff`).
- The quote that neutralizes a formula in a table cell cannot be told from one that was in the text, for formulas and
  for no other text (`QuotePrefixIsAmbiguousIff`); nothing else but line breaks is lost (`CellsDifferWhenTextsDo`).

## Model

| member | source | states |
|---|---|---|
| EventLog.PageSpec | backend/app/api/audits.py:420-468 | a page is ascending by (created_at, id), drawn from this audit's events after the anchor, has the least of page size and what remains, and leaves no gap before its last event; a short page is everything that remained |
| EventLog.RemainingIff | backend/app/api/audits.py:441-464 | what the query leaves after an anchor, row by row: later events of the audit, or as late with a greater id; everything without an anchor, nothing after an anchor that is not an event of this audit |
| EventLog.RefusedCursorReadsNothing | backend/app/api/audits.py:405-417 | a cursor the endpoint refuses names no event of the audit, and the query would answer it with nothing, never with everything |
| EventStream.RunStream | backend/app/api/audits.py:484-521 | the loop over `last_id` and `terminal_polls` sends exactly the frames of the poll-by-poll specification, with its outcome, in as many polls |
| EventStream.YieldPage | backend/app/api/audits.py:508-510 | every frame of the page is sent in order and the cursor ends at the last of them |
| EventStream.RemainingAfterPage | backend/app/api/audits.py:441-467 | a page followed by what remains after its last event is what remained before: keyset paging neither skips nor repeats |
| EventStream.QuietStreamCloses | backend/app/api/audits.py:498-521 | over a quiet terminal audit the stream closes after exactly the backlog's full pages plus what is left of the grace, at least one, having sent the whole backlog in order, and never earlier |
| EventStream.StreamEndsIff | backend/app/api/audits.py:511-520 | for any observations: the stream ends as gone exactly when the last poll found no audit, closes exactly when it found a terminal status behind a page that was not full and the grace was used up, and otherwise is open with every poll used |
| EventStream.RunningStreamStaysOpen | backend/app/api/audits.py:517-521 | while the audit is there and not terminal, the stream stays open, uses every poll and leaves the grace alone, whatever is committed |
| EventStream.GraceCounts | backend/app/api/audits.py:498-520 | the grace counter counts exactly the polls that found a terminal status behind a page that was not full |
| EventStream.QuietStreamTails | backend/app/api/audits.py:500-521 | over a quiet running audit, once the backlog's full pages and one more poll are done, exactly the backlog has been sent in order and the stream is open |
| EventDelivery.StepInv | backend/app/api/audits.py:405-521 | every writer, client and server step keeps the delivery invariant: the pipeline is ascending, every committed event up to the frontier is in it or was committed behind it, and a counted terminal status vouches for what was committed before it |
| EventDelivery.RunInv | backend/app/api/audits.py:405-521 | every state of every interleaving satisfies that invariant |
| EventDelivery.LoadSource | backend/app/api/audits.py:405-418 | with an authorized cursor the next page is drawn from exactly the committed events after the last one read, and from nothing once the audit is gone |
| EventGuarantees.LogIsHistory | backend/app/api/audits.py:420-468 | the recorded log is exactly the set of this audit's events that some earlier table held |
| EventGuarantees.DeliveredInOrder | backend/app/api/audits.py:352-383 | over every run, resumes included, deliveries are strictly increasing, after the initial cursor, and events of this audit |
| EventGuarantees.ExactlyOnceIff | backend/app/api/audits.py:420-521 | the client holds the gap-free, duplicate-free run of the log between its cursors if and only if nothing was committed behind an event it had read |
| EventGuarantees.ExactlyOnce | backend/app/api/audits.py:420-521 | when each commit's events sort after all committed ones, what is delivered is a prefix of the ordered log after the initial cursor, for every page size and every pattern of reconnects |
| EventGuarantees.SkippedForever | backend/app/api/audits.py:447-464 | an event committed behind what the client holds is never delivered later |
| EventGuarantees.LateCommitIsLost | backend/app/api/audits.py:447-464 | for every audit, page size and grace, a run in which a commit with an older key is lost |
| EventGuarantees.GraceTwoIsLossless | backend/app/api/audits.py:511-520 | with a grace of two or more, everything committed when a terminal status is first counted is sent before the terminal close, unless committed behind the reader |
| EventGuarantees.GraceOneLoses | backend/app/api/audits.py:503-520 | with a smaller grace, a run in which an event committed with the terminal status, after the page load, is never sent |
| EventGuarantees.LosslessIff | backend/app/api/audits.py:498-521 | the close is lossless over all runs if and only if the grace is at least two or the page size is zero |
| EventGuarantees.ZeroPageNeverCloses | backend/app/api/audits.py:513-517 | with page size zero every page counts as full and the stream never closes on the status |
| EventRefinement.PollRefines | backend/app/api/audits.py:500-521 | one pass of the loop, with any number of writes before the page load and between the load and the status read, is a run of the step system |
| EventRefinement.StreamRefines | backend/app/api/audits.py:484-521 | the whole loop, under any such writes around each poll, is a run of the step system in which the client receives what the loop sends |
| EventRefinement.Bridge | backend/app/api/audits.py:484-521 | a run of the step system goes on through any steps that can be taken from its end |
| EventRefinement.StreamRuns | backend/app/api/audits.py:373-383 | a connection, from authorization on, is a run from the state the client connects in, so every guarantee over runs is one of what the loop sends |
| EventRefinement.StreamSendsInOrder | backend/app/api/audits.py:484-521 | whatever the writers do, what the loop sends is strictly increasing, after the cursor, and of this audit |
| EventRefinement.StreamIsExactlyOnce | backend/app/api/audits.py:484-521 | with in-order writes, what the loop sends is a prefix of the ordered log after the client's cursor |
| EventRefinement.StreamCloseIsLossless | backend/app/api/audits.py:498-520 | with in-order writes and a grace of two or more, a terminal close comes after everything committed when the loop first counted a terminal status has been sent |
| Normalization.NormalizeIsJoinedTokens | backend/app/analysis/normalization.py:20-29 | the five passes together give the lower-cased words, `&` as the word "and", joined by single spaces |
| Normalization.NormalizeIdempotent | backend/app/analysis/normalization.py:20-29 | normalizing twice is normalizing once |
| Normalization.AliasPresentIff | backend/app/analysis/normalization.py:32-42 | on normalized strings an alias is present if and only if its token list is a non-empty contiguous sublist of the haystack's |
| Normalization.FirstAliasOffsetSpec | backend/app/analysis/normalization.py:45-50 | the offset is that of the first such sublist, and there is none exactly when the alias is absent |
| Normalization.SplitNormalized | backend/app/analysis/entity_assessment.py:28-31 | splitting a normalized alias gives its normalized tokens |
| EntityAssessment.SpansAreTokens | backend/app/analysis/entity_assessment.py:20-32 | reading the raw text span by span gives the tokens of its normalized form |
| EntityAssessment.RawMatcherComplete | backend/app/analysis/entity_assessment.py:20-41 | whenever the normalized matcher finds an alias that neither starts nor ends with "and", the raw pattern matches the raw answer |
| EntityAssessment.RawMatcherCompleteIff | backend/app/analysis/entity_assessment.py:20-41 | off the ambiguous path the raw matcher finds everything the normalized one finds if and only if the alias neither starts nor ends with "and" |
| EntityAssessment.MissedAnswer | backend/app/analysis/entity_assessment.py:20-41 | for any other alias, an ASCII answer the normalized matcher accepts and the raw one misses |
| AliasLayout.AliasMatchIff | backend/app/analysis/entity_assessment.py:11-41 | the raw matcher matches if and only if the alias's tokens lie one after another in the answer, each spelled out up to case or as `&` for "and", with no ASCII letter or digit between them and no word character at either end |
| AliasLayout.MatchSpellsAliasIff | backend/app/analysis/entity_assessment.py:11-32 | a match has exactly the alias's letters and digits, `&` read as "and", if and only if no gap it skips holds an ampersand |
| AliasLayout.RawMatcherSound | backend/app/analysis/entity_assessment.py:20-41 | in an answer without ampersands, a match is a stretch between word boundaries with exactly the alias's letters and digits |
| AliasLayout.AmpersandSkipped | backend/app/analysis/entity_assessment.py:14 | for any two tokens other than "and", the raw matcher finds them across an ampersand and the normalized one does not |
| CompanyMatching.SameCompanyIff | backend/evaluations/onboarding_golden.py:228-245 | two names are one company if and only if they are equal, or their word sets are nested with equal non-empty distinctive cores |
| CompanyMatching.SameCompanySymmetric | backend/evaluations/onboarding_golden.py:228-245 | the relation is symmetric, although the code orders the word sets by size |
| CompanyMatching.SameCompanyNotTransitive | backend/evaluations/onboarding_golden.py:228-245 | and not transitive |
| CompanyMatching.FirstFitIsMatching | backend/evaluations/onboarding_golden.py:181-188 | first fit pairs keys one-to-one, only within one company, and leaves no pair that could be added |
| CompanyMatching.FirstFitIsFirst | backend/evaluations/onboarding_golden.py:181-188 | each expected key in turn gets the first actual key of its company that no earlier one got, and none only if earlier ones got them all |
| CompanyMatching.MaximalIsHalfOptimal | backend/evaluations/onboarding_golden.py:181-188 | any one-to-one matching has at most twice the size of a maximal one |
| CompanyMatching.FirstFitIsHalfOptimal | backend/evaluations/onboarding_golden.py:181-188 | first fit finds at least half of the best one-to-one pairing |
| CompanyMatching.HalfIsAttained | backend/evaluations/onboarding_golden.py:181-188 | two names a side on which first fit finds one pair of the possible two |
| CompanyMatching.FindFree | backend/evaluations/onboarding_golden.py:182-188 | the inner loop returns the first free key of the same company |
| CompanyMatching.MatchCompanies | backend/evaluations/onboarding_golden.py:179-188 | the two sets filled by the nested loops are the two sides of the first-fit matching |
| CompanyMatching.EvaluateCompetitors | backend/evaluations/onboarding_golden.py:165-196 | precision and recall are the size of one matching over each side, and missing and unexpected are the names it leaves out |
| CompanyMatching.DictKeys | backend/evaluations/onboarding_golden.py:177-178 | the keys are exactly the normalized names |
| CompanyMatching.DictNames | backend/evaluations/onboarding_golden.py:177-178 | each key stands for the last name it came from |
| CompanyMatching.DictOrder | backend/evaluations/onboarding_golden.py:177-182 | keys are in the order first met |
| CompanyMatching.NonBlankAre | backend/evaluations/onboarding_golden.py:178 | proposed names of white space only are left out, and no others |
| CompanyMatching.UnmatchedAre | backend/evaluations/onboarding_golden.py:192-195 | the names listed are those of exactly the unmatched keys, in strictly ascending key order |
| Discrimination.DiscriminationItems | backend/evaluations/onboarding_golden.py:611-626 | the items are the capped gold prompts and all generated ones, no more and no fewer, by rising digest, and with equal digests in the order listed |
| Discrimination.InterleavedIs | backend/evaluations/onboarding_golden.py:618-620 | the items are the first gold prompts, at most four more than the generated ones, then every generated prompt, each with its kind |
| Discrimination.RatesMean | backend/evaluations/onboarding_golden.py:652-674 | detection is the share of generated items, and the false-positive rate that of gold items, that some label names by id and calls machine-written in any case; no score without labels or without both kinds |
| Discrimination.ScoreBounds | backend/evaluations/onboarding_golden.py:649-681 | the rates are fractions, the score lies in [0, 100] and is 100 exactly when detection does not exceed false positives, and clamping changes nothing else |
| Discrimination.ScoreIsShuffleIndependent | backend/evaluations/onboarding_golden.py:649-681 | for a judge who only reads the text, every arrangement of the items gives the same rates and score |
| Discrimination.SeedDoesNotMatter | backend/evaluations/onboarding_golden.py:607-626 | in particular for any two shuffle seeds |
| Discrimination.UniformJudgesScoreFull | backend/evaluations/onboarding_golden.py:671-674 | labelling everything machine, or nothing, both score 100 |
| Complexity.CyclomaticComplexity | backend/scripts/check_complexity.py:47-57 | the worklist traversal computes one plus the recursive sum of decision points, for every tree |
| Complexity.PointsAreCounted | backend/scripts/check_complexity.py:50-56 | decision points are the branch nodes, every value of a boolean operation after its first, and every comprehension clause and its conditions |
| Complexity.Measurement.Walk | backend/scripts/check_complexity.py:65-76 | the nested walk records exactly the outermost functions below a node, in traversal order |
| Complexity.OutermostIff | backend/scripts/check_complexity.py:65-76 | a definition is listed if and only if some path of child positions leads to that function with no function above it, its name being the names of the classes on the path, each followed by a dot, and its own |
| Complexity.Measure | backend/scripts/check_complexity.py:60-79 | every function at such a path is reported under that name, with the largest of the scores that share it, and nothing else is |
| Complexity.PointsArePartitioned | backend/scripts/check_complexity.py:65-76 | every decision point lies in exactly one outermost function or outside them all |
| Complexity.ReportedScoresAreLargest | backend/scripts/check_complexity.py:71-73 | each reported score is the largest among the functions of that name |
| Complexity.ReportedPointsConservedIff | backend/scripts/check_complexity.py:47-79 | reported scores never account for more than all decision points, and for all of them if and only if no two functions of one name both have some |
| PolicyDocument.ValidateIff | backend/scripts/check_complexity.py:100-168 | validation accepts exactly the documents that spell out a valid policy, and reads that policy back |
| PolicyRatchet.LimitFailures | backend/scripts/check_complexity.py:182-200 | lists every exceeded ceiling and nothing else |
| PolicyRatchet.FunctionFailures | backend/scripts/check_complexity.py:195-199 | adds exactly the functions of one module above their ceiling |
| PolicyRatchet.StaleModules | backend/scripts/check_complexity.py:203-218 | lists exactly the module exceptions whose module is missing or no longer than the default |
| PolicyRatchet.StaleFunctions | backend/scripts/check_complexity.py:221-237 | lists exactly the function exceptions that, cut at their first separator, name no measured function or one within the default |
| PolicyRatchet.CheckMeasurements | backend/scripts/check_complexity.py:240-269 | both lists are exact, and both are empty exactly when the code passes |
| PolicyRatchet.ExceptionsAreExactlyTheOffenders | backend/scripts/check_complexity.py:182-269 | when the check passes, the exceptions name exactly the code above the defaults |
| PolicyRatchet.PassesIff | backend/scripts/check_complexity.py:182-269 | the check passes if and only if the code is within its limits, the module exceptions are exactly the modules above the default, and every function exception names a function above it |
| PolicyRatchet.ExactExceptionsPass | backend/scripts/check_complexity.py:182-269 | conversely, with paths that do not hold the separator, code within its limits whose exceptions name exactly what is above the defaults passes |
| PolicyRatchet.ComparePolicies | backend/scripts/check_complexity.py:272-302 | lists every relaxation and nothing else |
| PolicyRatchet.AcceptedIsTighter | backend/scripts/check_complexity.py:272-302 | from a base whose exceptions reach its defaults, an accepted revision raises no function or module ceiling, removed exceptions included |
| PolicyRatchet.AcceptsIff | backend/scripts/check_complexity.py:272-302 | between valid policies the comparison accepts exactly the revisions that tighten every ceiling, name no new exception and drop no root |
| PolicyRatchet.AcceptsReflexive | backend/scripts/check_complexity.py:272-302 | a policy accepts itself |
| PolicyRatchet.AcceptsTransitive | backend/scripts/check_complexity.py:272-302 | acceptance chains |
| PolicyRatchet.AcceptsAntisymmetric | backend/scripts/check_complexity.py:272-302 | policies that accept each other differ at most in the order of their roots |
| PolicyRatchet.RatchetHolds | backend/scripts/check_complexity.py:182-302 | after any chain of accepted revisions, code within the last policy's limits is within those of every earlier policy whose exceptions reach its defaults, over that policy's roots |
| PolicyRatchet.RatchetsIff | backend/scripts/check_complexity.py:125-135 | every accepted revision tightens every ceiling of a base if and only if no exception of the base lies below its default |
| PolicyRatchet.RemovalRaisesCeiling | backend/scripts/check_complexity.py:291-302 | for any other base, removing its exceptions is accepted and raises a ceiling |
| CorpusSelection.PickedSpec | backend/scripts/audit_site_health_50.py:91-131 | picks have distinct URLs, come from the pool, and are as many as asked for or as the pool has URLs |
| CorpusPicks.RankMeans | backend/scripts/audit_site_health_50.py:86-97 | a lower score ranks first, a row without one after any score up to a hundred; level scores go by page kind and then URL |
| CorpusPicks.PickIsLowest | backend/scripts/audit_site_health_50.py:110-131 | the i-th pick is the lowest row, in web score for even i and AEO score for odd i, among rows with URLs not picked before, and of those the rows of a page kind not picked before while i is under eight and there are any |
| CorpusPicks.GlobalRowsAreLowest | backend/scripts/audit_site_health_50.py:134-154 | the first global row is the lowest left in web score, the second the lowest in AEO score with another URL, rows of a new page kind first |
| CorpusSelection.SelectCompanyRows | backend/scripts/audit_site_health_50.py:110-131 | exactly the lesser of twelve and the number of distinct URLs is chosen, by web score and AEO score in turn: neither the stream guard nor the pool-size guard ever costs a row |
| CorpusSelection.KindsCovered | backend/scripts/audit_site_health_50.py:100-107 | with unique URLs, each of the first eight picks brings a new page kind while one is missing |
| CorpusSelection.FirstEightCoverMostKinds | backend/scripts/audit_site_health_50.py:100-131 | with unique URLs, the first eight of the twelve cover as many kinds as any eight rows could |
| CorpusSelection.PickedOrderIndependent | backend/scripts/audit_site_health_50.py:91-131 | when no two different rows tie in either stream, the picks and their order do not depend on the input order |
| CorpusSelection.SelectGlobalRows | backend/scripts/audit_site_health_50.py:134-154 | two rows of different URLs are added, or as many as unselected URLs remain, by the two streams in turn |
| CorpusSelection.SelectRows | backend/scripts/audit_site_health_50.py:157-169 | fifty rows, or an error; it succeeds exactly when every company supplies twelve URLs and two unselected ones remain |
| CorpusSelection.SelectionOrderIndependent | backend/scripts/audit_site_health_50.py:157-169 | nor does the whole selection |
| CorpusSelection.EnoughRowsIff | backend/scripts/audit_site_health_50.py:163-168 | with unique URLs, success can be read off the input: twelve URLs a company and fifty in all |
| CorpusSelection.RankingOrderIndependentIff | backend/scripts/audit_site_health_50.py:91-97 | the ranking of what is unselected is the same for every arrangement of the rows if and only if no two different rows tie |
| CorpusSelection.UniqueUrlsNeverTie | backend/scripts/audit_site_health_50.py:96 | rows with different URLs never tie |
| CorpusTies.TieShowsInSelection | backend/scripts/audit_site_health_50.py:157-169 | any two different rows that tie in a stream occur in rows on which the selection succeeds, in either of two orders, with different results |
| CorpusTies.EarlyPicked | backend/scripts/audit_site_health_50.py:118-130 | among rows of one kind, while rows that rank first in both streams remain, only they are picked |
| Rounding.RoundError | backend/app/analysis/scoring.py:381-382 | rounding moves a value by at most half a unit of the last place |
| Rounding.RoundMonotone | backend/app/analysis/scoring.py:381-382 | rounding keeps order |
| Rounding.HalvesGoToEven | backend/app/analysis/scoring.py:381-382 | a tie is rounded to the even neighbour |
| Rounding.RateBounds | backend/app/analysis/scoring.py:381-382 | a rounded rate of a part to a whole is a fraction |
| RunAggregation.HeadlineBounds | backend/app/analysis/scoring.py:450-516 | every headline rate is a fraction, conversion and injection rates with their own denominators included |
| AggregateMeaning.HeadlineMeans | backend/app/analysis/scoring.py:450-516 | each headline rate is, to four places, the share of the executions with the signal it is named after among those it speaks of, and missing where the code says so |
| AggregateMeaning.CompletedAre | backend/app/analysis/scoring.py:389-393 | the rows aggregated are those completed with a score, each as often as it occurs |
| AggregateMeaning.CompetitorsMean | backend/app/analysis/scoring.py:420-447 | a competitor's counts and rates are of the executions whose lists hold its name, the brand's count of those that mention it, and nobody else is listed |
| AggregateMeaning.TokensMean | backend/app/analysis/costs.py:157-173 | tokens are added up over the completed rows with a score and over no others |
| AggregateMeaning.CohortAggregatesRead | backend/app/analysis/service.py:504-546 | a cohort aggregate reads exactly the completed rows of its cohorts, an engine's those of the engine |
| RunAggregation.AggregateTokenUsage | backend/app/analysis/costs.py:157-173 | the accumulated totals are the sums over the executions, and input tokens the sum of both kinds |
| RunAggregation.AggregateIsOrderIndependent | backend/app/analysis/scoring.py:385-516 | permuting the executions changes no rate, mention count, competitor rate or token total |
| RunAggregation.GroupByEngine | backend/app/analysis/service.py:293-311 | appending rows to their engine's list partitions them: each list is that engine's rows in order |
| RunAggregation.EnginesConserveTotals | backend/app/analysis/service.py:504-546 | completed counts and token totals of the engines add up to the organic run's |
| RunAggregation.EnginesConserveMentions | backend/app/analysis/service.py:504-546 | so do mention counts, for every competitor, and for the brand when no competitor has its name |
| ShareOfVoice.MentionsConservedIff | backend/app/analysis/scoring.py:420-447 | the listed counts add up to the mention volume if and only if no competitor has the brand's name or the brand is never mentioned, and otherwise lack the brand's mentions |
| ShareOfVoice.SharesSumToListedPart | backend/app/analysis/scoring.py:441-446 | the rounded shares sum to the listed part of the volume within half a unit per name |
| ShareOfVoice.SharesSumToOne | backend/app/analysis/scoring.py:441-446 | so to one, whenever the listed counts add up to the volume |
| CitationShare.CitationDomainCounts | backend/app/analysis/scoring.py:543-561 | the counter, executions, prompts and URL sets hold exactly the citations, citing executions, citing prompts and cited URLs of each domain |
| CitationShare.CountMeans | backend/app/analysis/scoring.py:548-555 | a domain's count is of citations: an execution adds as many as it holds of it |
| CitationShare.TalliesMean | backend/app/analysis/scoring.py:549-560 | the other tallies of a domain are of the executions that cite it, their prompts, and the non-empty URLs it is cited at |
| CitationShare.CountsConserved | backend/app/analysis/scoring.py:519-523 | shown counts plus "Other" are all citations with a domain, and "Other" appears if and only if more than 25 domains occur |
| CitationShare.ShownAreMostCited | backend/app/analysis/scoring.py:521 | no domain left out is cited more often than one shown |
| CitationShare.ShownInOrder | backend/app/analysis/scoring.py:521 | domains are shown by falling count, with equal counts in the order first cited |
| CitationShare.SharesSumToOne | backend/app/analysis/scoring.py:573-578 | the rounded shares sum to one within 26 half-units of the last place |
| CitationShare.DomainRatesAreFractions | backend/app/analysis/scoring.py:524-540 | execution rate, prompt coverage and unique-URL share of every domain are fractions |
| PromptComposite.CompositeBounds | backend/app/analysis/scoring.py:644-686 | a composite lies in [0, 100], with or without competitors, for any positive weights |
| CompositeMeaning.TalliesAre | backend/app/analysis/scoring.py:646-651 | mentions and qualified owned citations are counted execution by execution, and every rival named counts |
| CompositeMeaning.CompetitiveError | backend/app/analysis/scoring.py:644-686 | with competitors, a composite is within a hundredth of the exact weighted mean of mention rate, owned-citation rate and the brand's share of all mentions |
| CompositeMeaning.CompositeMonotone | backend/app/analysis/scoring.py:644-686 | of two groups of one size, the one with no fewer mentions and owned citations and no more rivals named scores no lower |
| CompositeMeaning.NamingARivalNeverHelps | backend/app/analysis/scoring.py:649-654 | naming one more rival in an execution never raises the score |
| CompositeMeaning.MentionsNeverHurt | backend/app/analysis/scoring.py:646-653 | one more mention, or one more qualified owned citation, never lowers it |
| PromptComposite.CompositeError | backend/app/analysis/scoring.py:644-686 | without competitors, a composite is within a hundredth of the exact weighted mean |
| PromptComposite.ConsistencyBounds | backend/app/analysis/scoring.py:689-703 | engine scores lie in [0, 100] and cross-engine consistency in [0, 1] |
| CompositeMeaning.EngineScoresAre | backend/app/analysis/scoring.py:689-696 | the engines scored are those some execution names, each on exactly its own executions |
| CompositeMeaning.ConsistencyIs | backend/app/analysis/scoring.py:699-703 | consistency is one less the spread between best and worst engine in hundredths, to four places, and zero without engines |
| PromptComposite.PooledNearWeightedMean | backend/app/analysis/scoring.py:644-696 | without competitors, and with an engine on every execution, the pooled composite is within 0.02 of the repetition-weighted mean of the engines' |
| PromptRows.GroupByPrompt | backend/app/analysis/scoring.py:610-612 | the dict filled row by row holds each prompt's executions in order, prompts as first met |
| PromptRows.PerPromptMetrics | backend/app/analysis/scoring.py:607-617 | the loop and the two sorts give the ranked rows of the specification |
| PromptRows.PerPromptSpec | backend/app/analysis/scoring.py:607-641 | one row per executed prompt, scored on exactly that prompt's executions, strictly by falling composite and then prompt |
| PromptRows.RowMeans | backend/app/analysis/scoring.py:620-641 | a row counts the executions and mentions of its prompt, and its composite is within a hundredth of the exact weighted mean over them |
| PromptRows.RowsConserveExecutions | backend/app/analysis/scoring.py:607-641 | the rows' repetitions and mention counts add up to those of the executions |
| PromptRows.RowsAgreeWithRun | backend/app/analysis/scoring.py:385-417 | that is, to the run's completed count and to the brand mentions behind its headline rate and share of voice |
| PromptRows.PerPromptOrderIndependent | backend/app/analysis/scoring.py:607-641 | permuting the executions changes neither rows nor ranking |
| PromptRows.VisibilityScoreBounds | backend/app/analysis/service.py:549-554 | the run's visibility score is a percentage |
| PromptRows.VisibilityScoreMeans | backend/app/analysis/service.py:549-554 | it is the plain mean of the composites, to two places |
| Coverage.SlotsAreDistinct | migrations/versions/0001_initial.py:2582-2588 | unique task slots and one analysis per task give each analysis a slot of its own |
| Coverage.CohortCoverageIsFraction | backend/app/analysis/service.py:482-527 | the analyses of any cohorts are at most the slots requested for them, so coverage never exceeds one |
| Coverage.CoverageMeans | backend/app/analysis/service.py:482-527 | coverage is, to four places, the cohorts' analyses over prompts by engines by repetitions |
| Coverage.PromptEvidenceIsFraction | backend/app/analysis/trend_metrics.py:121-123 | however many of a prompt's analyses were scored, they are at most its slots, so its evidence coverage never exceeds one |
| Coverage.TrendConfidenceIsFraction | backend/app/analysis/trend_metrics.py:75-118 | trend confidence is a fraction, however many of a prompt's analyses were scored, whatever the scores and whatever ran before |
| Coverage.EvidenceMeans | backend/app/analysis/trend_metrics.py:121-123 | evidence coverage is the observed share of a prompt's slots, stability the share of the more frequent answer |
| Coverage.DeclineMeans | backend/app/analysis/trend_metrics.py:14-24 | the declining engines are those in both runs that fell by the material amount or more, their share is of the engines in both |
| Coverage.ConfidenceMeans | backend/app/analysis/trend_metrics.py:105-107 | confidence is the mean of the three, to four places |
| Coverage.SharedSlotOvercounts | migrations/versions/0001_initial.py:3611 | without unique slots, one analysis per task is not enough: coverage can be any number above one |
| Provisioning.Session.UpsertOneConnection | backend/scripts/provision_platform_provider_connections.py:96-144 | only this transport's row is written: created, only enabled when it holds the secret, or else the same row with its key replaced and its pause cleared; refused, and nothing written, exactly when the stored key does not decrypt |
| Provisioning.Session.UpsertAllRoutes | backend/scripts/provision_platform_provider_connections.py:147-170 | the loop leaves the rows of upserting each of the transport's engines in turn |
| Provisioning.Session.ProvisionTransports | backend/scripts/provision_platform_provider_connections.py:204-230 | the loop over transports reports and stores what the run function does, and stops at the first refusal |
| Provisioning.Session.ProvisionConnections | backend/scripts/provision_platform_provider_connections.py:173-235 | a refusal or a dry run leaves what is stored as it was, a dry run reports what the real one would, and a real run stores all of it |
| ProvisioningConvergence.SecondRunChangesNothing | backend/scripts/provision_platform_provider_connections.py:180-190 | a second run with the same secrets, sealed anew, reports the same ids all unchanged and leaves every row equal |
| ProvisioningConvergence.RunReplacesOnlySecrets | backend/scripts/provision_platform_provider_connections.py:104-144 | each supplied transport ends created, or kept and enabled, or with only its key replaced and its pause cleared, on the row it had; reports follow |
| ProvisioningOutcomes.RunRoutesEnd | backend/scripts/provision_platform_provider_connections.py:147-170 | for every supplied transport, each of its engines ends with the row it had, only the measured model set and enabled as the default, or with a new row of just that; other engines' routes are as before |
| ProvisioningConvergence.RunLeavesOthersAlone | backend/scripts/provision_platform_provider_connections.py:173-235 | connections and routes of anything else are as before, every new row belongs to a supplied transport, and uniqueness of rows is kept |
| ProvisioningConvergence.RunAcceptedIff | backend/scripts/provision_platform_provider_connections.py:191-209 | a run is accepted if and only if encryption is configured, all transports are known, no secret is blank and every stored key of a supplied transport decrypts |
| ProvisioningOutcomes.RefusalIs | backend/scripts/provision_platform_provider_connections.py:191-209 | a refused run names the missing key first, then all unknown transports in order, then what is wrong with the first transport in order that cannot be provisioned |
| ProvisioningOutcomes.BlankIff | backend/scripts/provision_platform_provider_connections.py:206-209 | a credential counts as empty exactly when it is all white space |
| ProvisioningConvergence.RunSettles | backend/scripts/provision_platform_provider_connections.py:204-230 | after the loop every supplied transport holds its secret, is enabled, and has a settled default route for each of its engines |
| ObservedCompetitors.GroupCitations | backend/app/analysis/observed_competitors.py:42-64 | each domain's evidence holds exactly the prompts, engines, analyses and artifacts of the citations that count for it |
| ObservedCompetitors.PersistObservedCompetitors | backend/app/analysis/observed_competitors.py:108-141 | the candidates are the kept domains in order, with true distinct counts and sorted, distinct provenance |
| ObservedCompetitors.KeptSpec | backend/app/analysis/observed_competitors.py:67-83 | kept domains qualify and are strictly ranked by prompts, engines and name; at most twenty, all twenty if any qualifying domain is left out, and each such domain ranks after every kept one |
| ObservedCompetitors.NothingExcludedIsKept | backend/app/analysis/observed_competitors.py:24-25 | no kept domain is an excluded one or a subdomain of one |
| ObservedCompetitors.CountsIff | backend/app/analysis/observed_competitors.py:47-57 | a citation counts exactly when it has a domain neither excluded nor below an excluded one and comes from a known analysis of a core prompt |
| ObservedCompetitors.CleanIs | backend/app/analysis/observed_competitors.py:48 | domains are read in lower case and without one leading `www.` |
| ObservedCompetitors.SuggestionsAre | backend/app/analysis/observed_competitors.py:108-141 | a suggestion is cited by at least two core prompts and two engines, there are at most twenty, and none is, or is below, a research site or an owned, unintended or tracked domain |
| ObservedCompetitors.KeptOrderIndependent | backend/app/analysis/observed_competitors.py:42-83 | neither the order of citations nor repeats change the candidates |
| MarkdownCells.ReplacementsAreOnePass | backend/app/analysis/csv_cells.py:57-73 | the four chained replacements equal a one-pass escape of the neutralized text |
| MarkdownCells.CellRoundTrip | backend/app/analysis/csv_cells.py:57-73 | unescaping a cell left to right gives the neutralized text with line breaks as spaces |
| MarkdownCells.CellsDifferWhenTextsDo | backend/app/analysis/csv_cells.py:57-73 | two texts render alike exactly when they are shown alike |
| MarkdownCells.QuotePrefixIsAmbiguousIff | backend/app/analysis/csv_cells.py:64-67 | a text renders like its quoted self if and only if it would start a formula |
| MarkdownCells.NeutralizedIsNoFormula | backend/app/analysis/csv_cells.py:45-54 | a neutralized text never starts a formula |
| MarkdownCells.HasFormulaTriggerIff | backend/app/analysis/csv_cells.py:30-42 | a text starts a formula if and only if it starts with a tab or line break, or one of `=`, `+`, `-`, `@` comes after nothing but white space |
| MarkdownCells.CellIsSafe | backend/app/analysis/csv_cells.py:30-42 | nor does a rendered cell, and it never breaks its line |
| MarkdownCells.JoinThenSplit | backend/app/analysis/csv_cells.py:57-73 | cells joined by bare pipes and cut at unescaped pipes are the same cells |
| MarkdownCells.RowParts | backend/app/analysis/opportunities/exports.py:64-66 | cut at its unescaped pipes, a rendered line is its cells with one space around each |
| MarkdownCells.RowRoundTrip | backend/app/analysis/opportunities/exports.py:64-66 | read as a table row (section 4.10 of the GitHub Flavored Markdown Spec: white space around cell content does not count), a rendered line gives as many texts as it was made from, each neutralized, trimmed and on one line |
| MarkdownCells.TableRoundTrip | backend/app/analysis/opportunities/exports.py:64-68 | so does a whole table body, row by row |

## Left out

- Unicode: text is ASCII; NFKC, casefolding and word classes beyond ASCII are not modelled, and a character beyond ASCII counts as punctuation.
- Floating point: `round` is exact rounding of reals, ties to even; error of binary fractions is not modelled.
- Ambiguous aliases: the qualified and case-sensitive patterns for the alias "target", and the recommended and hedged phrase lists.
- EntityAssessment.RawMatcherComplete: the converse does not hold and is not claimed, because gaps may be empty or hold an ampersand (`AmpersandSkipped`); `AliasMatchIff` says what does hold.
- Event payloads, frame text, timestamps as dates, and the pause between polls; an audit's other endpoints. The JSON page endpoint uses the same page query.
- Several clients of one stream: clients do not affect each other or the table, so one is modelled.
- PolicyRatchet.RatchetHolds: covers limit failures only, because newer code can make an old exception stale without being worse.
- PolicyDocument.ValidateIff: versions that Python finds equal to 1, such as `True` and `1.0`, are accepted as the code accepts them; the text of error messages is left out.
- Complexity.Measure: parsing source text into a tree and listing files; the tree is given, and a root's files are those whose path starts with it.
- CitationShare.CitationDomainCounts: resolving a citation's domain and URL, including redirects; both are given. Ties within the top 25 keep first-seen order and no order independence is claimed for that list.
- RunAggregation.AggregateIsOrderIndependent: counts of prompt classes and cost estimates are not in the aggregate; the estimates are single expressions over the totals that are.
- PromptRows.PerPromptSpec: prompt text and theme, the stability rates and the owned-citation count are not in the row.
- Coverage.TrendConfidenceIsFraction: which of a prompt's analyses the reported cohort scores is any number up to all of them; the confirmed-decline flag, the rolling window and previous snapshots' deltas.
- Discrimination.DiscriminationItems: the digest is any function of the text; the judge call and the parsing of its reply are given.
- CompanyMatching.EvaluateCompetitors: the portfolio and research evaluations of the same file.
- CorpusSelection.SelectRows: fetching, freezing and replaying the selected pages; scores are exact numbers.
- ProvisioningConvergence.SecondRunChangesNothing: assumes at most one platform connection per transport and one route per connection and engine, as the program maintains; where the table holds several, the query's choice is unspecified. Labels, timestamps, telemetry and the reading of the environment file are left out, and encryption is an abstract pair in which decryption undoes encryption.
- ObservedCompetitors.PersistObservedCompetitors: a candidate's display name and fixed wording; the query that selects third-party citations is given by its result.
- MarkdownCells.TableRoundTrip: the title, header and separator lines, and turning values other than text into text.
- Billing, migrations as such, seeding, provider calls and the frontend.
