# Verified model of the retention agent's core

A Dafny model of the parts of the repository whose correctness is hardest to see from
the code, with proofs of what they keep:

- **Results summary** (`Relations`, `Periods`, `Results`, `Performance`,
  `PerformanceLaws`, `PerformanceRuns`, `PerformanceRows`): fixed periods counted from an anchor, the
  five-table join behind each measured message, the tally loop, and the rebuild of one
  slice of the summary table.
- **Versioned action catalogue** (`Validity`, `Catalogue`, `CatalogueLaws`,
  `CatalogueEdits`, `CatalogueMigration`): validation, the append-only store with validity windows, mix
  changes, and the catalogue step of one migration with its undo.
- **Rule sets v3 to v9** (`Rules`, `RuleSets`, `RuleAnswers`, `Coverage`, `RuleWindows`,
  `Renames`): the first-match engine, what each shipped set did to the one before it, the reachability
  test, the windows the migrations leave, and the value renames.
- **Action run** (`Choosing`, `ChoosingCalls`, `Checking`, `Decisions`, `ActionRun`,
  `ActionRunSteps`, `ActionRunLaws`, `ActionRunFindings`): the conversation that picks a response, the checks on every
  client, the five transactions, and any number of runs interleaved.
- **Retention** (`Retention`, `RetentionRuns`): pruning by rank, and what is left over
  whole runs of the pull worker.
- **Settings** (`Settings`, `SettingsThreads`, `Text`, `Roster`): the override cache, one
  caller at a time and with threads interleaved, and the small text parsers.

Code that changes state is a class or a method here, proved against a function of the old
state; the laws are lemmas about those functions. Dates are day numbers and instants are
integers, so the floor divisions are Dafny's (the divisor is positive). Money and rates
are exact reals. A SQL table is the sequence of its rows. Database sequences, the clock,
the environment, the model's replies, failures and what other tables say are arguments.

## What turned out otherwise than described

- A back-dated save does not always take over, although the catalogue says the closed and
  the new window never overlap: `TakesOverExactly` says when it does, `BackDatedSaveLoses`
  is an example. A version still open when a save closes it comes into force on some date
  exactly when it starts before that save (`ScheduledOnSave`, `ScheduledVersionExactly`):
  one scheduled for later is cancelled for good.
- Version 8 of the rules is never served: version 9 starts on the same day
  (`ServedExactly`, `ShippedTimeline`).
- The rename between v3 and v4 keeps a client's angle exactly when the client did not
  already hold the new value in a way some rule reads (`RenameKeepsAngleExactly`). Data
  written before the rename has no such client.
- The reachability test on rule sets compares pairs, so a rule covered only by several
  earlier ones together passes it (`PassesYetUnreachable`). `ReachableExactly` says when a
  rule can be the answer, as a finite check on the list; the pairwise test decides it for
  a rule that allows one value in each clause (`PairwiseDecides`).
- The write that completes an action run stands outside the handler that fails it, so a
  run can be left running: exactly when the write that ends it is lost
  (`LeftRunningExactly`); the next start late enough fails it (`NextStartSweeps`).
- A finding can be worked twice (`OverlapIsReached`): exactly when a propose step commits
  for a finding that has a proposal, because that step does not look again
  (`TwiceOnStepExactly`, `WorkedTwiceExactly`). It never happens while no run reads a finding
  that another has read and yet to propose for (`ReadingAloneMeansOnce`); runs may start
  together, since the read looks again.
- The tool that records a choice is described as never raising, but a reason that is not
  text does raise, out of the whole step (`ReasonNotTextRaises`); `AttemptRaisesExactly`
  says when an attempt raises, for every model.
- A pull that failed, was pruned as older than a completed one and is then resumed goes on
  from its cursor without its first pages (`ResumedPullLosesAPage`,
  `PruneThenResumeExactly`).
- With threads, the settings cache can keep a merge made before the overrides were loaded,
  and keep answering with it (`OutdatedExactly`, `OutdatedIsReached`, `OutdatedStays`). It
  cannot while no override change falls between a thread's reading of the overrides and its
  store (`CalmStaysCurrent`).

## Model

| member | source | states |
|---|---|---|
| Periods.IndexOfSpec | src/app/agents/action_performance.py:50-54 | a moment, before or after the anchor, falls in the period its index names and in no other |
| Periods.CompleteIsExact | src/app/agents/action_performance.py:45-48 | a period is at most the last complete one exactly when its end plus the window has come |
| Periods.CutOffIsExact | src/app/agents/action_performance.py:124-125 | the one comparison of the query includes a message exactly when its own period's end plus the window is no later than the clock |
| Periods.CoarserComplete | src/app/agents/action_performance.py:45-54 | a complete long period consists of complete short ones |
| Relations.InnerJoinKeyed | src/app/agents/action_performance.py:198-199 | against a keyed table where every row has a partner an inner join keeps each row exactly once |
| Relations.LeftJoinKeyed | src/app/agents/action_performance.py:200-215 | against a keyed table an outer join keeps each row exactly once |
| Results.OneRowPerResult | src/app/agents/action_performance.py:160-217 | under the schema's keys the query yields one row for each eligible result, never none and never two, and it is the row fetching by key describes |
| Results.LatestSnapshotIsNewest | src/app/agents/action_performance.py:161-171 | the band comes from a snapshot taken by the send, none of which is newer |
| Results.LaterSnapshotsUnseen | src/app/agents/action_performance.py:166 | snapshots taken after a send do not change the band it is counted under |
| Results.SplitClientLabels | src/app/agents/action_performance.py:182-196 | a client on a side of a split proposal carries that side's angle and mix, a null mix reading "none" and not the proposal's |
| Results.UnsplitClientLabels | src/app/agents/action_performance.py:182-196 | a client on no side carries the proposal's own action code, angle, mix and variant |
| Results.MissingSideLabels | src/app/agents/action_performance.py:182-196 | a client on a side with no row of its own keeps the side's name beside the proposal's angle and mix |
| Results.ActionCodeLabel | src/app/agents/action_performance.py:181 | every row carries its proposal's action code, split or not |
| Results.TierLabel | src/app/agents/action_performance.py:185 | the tier is that of the message's generation run, or reads "unknown" |
| Results.BandLabel | src/app/agents/action_performance.py:186 | the band is that of a snapshot taken by the send and none newer, or reads "unknown" when there is none |
| Performance.CellsExact | src/app/agents/action_performance.py:139-150 | a cell exists exactly when some message falls in it, and once |
| Performance.TallyBounded | src/app/agents/action_performance.py:150-156 | no counter passes the number sent, and money never falls |
| Performance.TallyResults | src/app/agents/action_performance.py:138-157 | the loop's dictionary has exactly the cells of the rows, each with the count of the rows in it |
| Performance.ActionPerformanceTable.RebuildWindow | src/app/agents/action_performance.py:123-135 | one slice is replaced by the rows its results give, and their number returned |
| Performance.ActionPerformanceTable.Build | src/app/agents/action_performance.py:77-115 | the windows are rebuilt in turn, each reported with its row count |
| PerformanceLaws.RowsExact | src/app/agents/action_performance.py:123-157 | a slice has a row for a cell exactly when some measured result falls in it, with the counts of those results |
| PerformanceLaws.SentIsConserved | src/app/agents/action_performance.py:123-157 | the sent counts of a slice add up to the results of its window sent before the cut-off |
| PerformanceLaws.CoarseRowIsSumOfFineRows | src/app/agents/action_performance.py:45-54 | each row built with a period k times as long equals the sum, counts and money, of the rows built over its k sub-periods with its labels |
| PerformanceLaws.FineRowHasCoarseRow | src/app/agents/action_performance.py:45-54 | and every short row whose long period is complete lies in a long row of its labels |
| PerformanceRuns.EarlierRowsReproduced | src/app/agents/action_performance.py:123-135 | moving the clock forward while any of the tables grow, with results sent and snapshots taken no earlier than the old cut-off and nothing new about what was already stored, reproduces every earlier row and adds none to its periods |
| PerformanceRuns.FetchedLater | src/app/agents/action_performance.py:198-215 | a stored result is joined to the same rows after every table has so grown |
| PerformanceRuns.TotalsIgnoreSnapshots | src/app/retention.py:80-83 | deleting risk snapshots leaves the totals summed over the risk band unchanged |
| PerformanceRuns.RebuildReplacesOneSlice | src/app/agents/action_performance.py:127-134 | a rebuild replaces its own slice and leaves every other one alone |
| PerformanceRuns.SliceIsItsLastBuild | src/app/agents/action_performance.py:90-99 | after any run of builds a slice holds what its own last build computes from the results, whatever else was built in whatever order |
| PerformanceRuns.RunsKeepTableOk | migrations/versions/e4a7c2b9d513_action_performance.py:39-55 | no run of builds violates the unique key or a check, divides by zero or stores a rate outside zero to one |
| PerformanceRows.CutOffInMicroseconds | src/app/agents/action_performance.py:45-54 | a message is counted exactly when the end of its period plus the window's days of 86,400,000,000 microseconds is no later than the clock |
| PerformanceRows.RowPeriod | src/app/agents/action_performance.py:220-244 | a stored row is for one period counted from the anchor, whose window has passed, with the slice's own hours, window and time |
| PerformanceRows.RowSaysItsResults | src/app/agents/action_performance.py:138-157 | a row's counters count, flag by flag, the results sent in its period that carry its labels, and add up their deposits |
| PerformanceRows.RowRates | src/app/agents/action_performance.py:220-244 | each rate times the number sent is the counter it is named for |
| PerformanceRows.EveryResultInOneRow | src/app/agents/action_performance.py:123-157 | every measured result whose window has passed is counted in one row and no other |
| PerformanceRows.ReportsEachWindow | src/app/agents/action_performance.py:90-115 | a build reports its windows in order with the number of rows of each |
| Validity.FirstRankedExact | src/app/agents/action_catalog.py:165-175 | the query answers with a window in force that no other one in force outranks |
| Validity.ActiveVersionIs | src/app/agents/action_catalog.py:165-175 | a version is the answer exactly when one of its windows is in force and outranks those of all others in force |
| Catalogue.ValidateExact | src/app/agents/action_catalog.py:59-97 | validation passes exactly the well-formed catalogues |
| Catalogue.ActionCatalogue.SaveVersion | src/app/agents/action_catalog.py:100-162 | a refused save changes nothing; an accepted one closes and appends as specified |
| Catalogue.ActionCatalogue.SetActionContentMix | src/app/agents/action_catalog.py:227-264 | the refusals, the unchanged case and the version saved by a mix change |
| CatalogueLaws.HistoryIsAppendOnly | src/app/agents/action_catalog.py:100-162 | over any run of edits no field of a written row changes but an open end, filled in at most once |
| CatalogueLaws.RunKeepsThePast | src/app/agents/action_catalog.py:100-188 | what was offered on a date before every later save's start never changes, back-dated and overlapping saves included |
| CatalogueLaws.TakesOverExactly | src/app/agents/action_catalog.py:109-131 | an open save is in force from its start on exactly when no stored window it leaves standing rivals it |
| CatalogueLaws.BackDatedSaveLoses | src/app/agents/action_catalog.py:109-131 | after saves from day 10, 20 and 5 the first still answers on days 10 to 19 |
| CatalogueLaws.ScheduledOnSave | src/app/agents/action_catalog.py:122-131 | after a closing save a stored window is in force on some date exactly when the save does not close it at its start or before |
| CatalogueLaws.ScheduledVersionExactly | src/app/agents/action_catalog.py:122-131 | and once it has an end this stays so after any further edits |
| CatalogueLaws.WindowsAreContiguous | src/app/agents/action_catalog.py:122-131 | after orderly saves the table is contiguous disjoint windows, only the last one open |
| CatalogueLaws.ExactlyOneInForce | src/app/agents/action_catalog.py:165-175 | on each date from the first start the stored rows in force are exactly those of one version, that of the last save started, and there are some |
| CatalogueLaws.ReaderSeesLastStarted | src/app/agents/action_catalog.py:165-188 | after orderly saves a reader gets the last saved version whose start has come |
| CatalogueLaws.RunKeepsSound | src/app/agents/action_catalog.py:115-155 | every run of edits keeps the unique key and every stored action valid |
| CatalogueLaws.MixChangesOneField | src/app/agents/action_catalog.py:227-264 | a mix change differs from what was offered on the start date in one field of one action, even with later versions scheduled, and cannot fail on a sound table |
| CatalogueLaws.MixKeepsChoicesAndSettles | src/app/agents/action_catalog.py:206-208 | the selectable actions stay the same, and asking again writes nothing |
| CatalogueLaws.PausedExactly | src/app/agents/action_catalog.py:196-208 | an action counts as paused exactly when it is not among the selectable ones, whether its row says so or there is none |
| CatalogueEdits.SaveWritesExactly | src/app/agents/action_catalog.py:115-162 | an accepted save ends the published open rows of lower versions at its start, only when told to, leaves every other row, and adds its actions under its own window |
| CatalogueEdits.SaveRefusedExactly | src/app/agents/action_catalog.py:109-120 | a save is refused exactly for malformed actions or a number in use, and then writes nothing |
| CatalogueEdits.FaultNamed | src/app/agents/action_catalog.py:65-97 | each fault of an action has its own error, the earlier check's first |
| CatalogueEdits.CatalogueFaultNamed | src/app/agents/action_catalog.py:59-97 | an empty catalogue, a repeated code and then the first faulty action are what is reported, in that order |
| CatalogueEdits.NextVersionExactly | src/app/agents/action_catalog.py:249 | the next number is one above the highest stored, or 1 |
| CatalogueEdits.MixRefusedExactly | src/app/agents/action_catalog.py:227-264 | a change is refused exactly for an unknown mix or an action not in force, answers with the version in force when nothing changes, and writes nothing in either case |
| CatalogueEdits.MixWritesExactly | src/app/agents/action_catalog.py:243-264 | a mix change ends every published open row on its start, leaves every other stored row, and adds the offered actions with that one mix replaced |
| CatalogueMigration.Upgrade | migrations/versions/b2d5f8a1c4e7_remaining_actions_on.py:274-276 | the step saves the changed actions under the next version from the latest stored start |
| CatalogueMigration.StepTakesOver | migrations/versions/b2d5f8a1c4e7_remaining_actions_on.py:201-203 | the step takes over on every date from its start and touches no earlier one |
| CatalogueMigration.StartDateExactly | migrations/versions/b2d5f8a1c4e7_remaining_actions_on.py:201-203 | the step starts on the lower bound or on a stored start, and no stored start is later |
| CatalogueMigration.StepOffersChanged | migrations/versions/b2d5f8a1c4e7_remaining_actions_on.py:234-256 | from its start each named action is offered unpaused, with its own angle, suggest-only, and the mix and evidence given for it; every other action and field is as before |
| CatalogueMigration.StepCloses | migrations/versions/b2d5f8a1c4e7_remaining_actions_on.py:274-276 | every published row still open ends on the step's start, and no other stored row moves |
| CatalogueMigration.UndoVersion | migrations/versions/b2d5f8a1c4e7_remaining_actions_on.py:292-312 | the version is deleted and the windows of the one before it that it had closed reopen |
| CatalogueMigration.UndoWritesExactly | migrations/versions/b2d5f8a1c4e7_remaining_actions_on.py:292-312 | for any stored rows, undoing a version deletes exactly its rows and reopens, of the highest version below, those that ended on its earliest start |
| CatalogueMigration.UndoIsInverseExactly | migrations/versions/b2d5f8a1c4e7_remaining_actions_on.py:292-312 | undoing the step restores the window table exactly when the highest version was the only one with windows to close |
| Rules.ResolveExact | src/app/rules/engine.py:59-77 | the answer is the matching rule of least priority, in whatever order the rows come, and depends on listed features only |
| Rules.RenamingKeepsWinner | migrations/versions/209a9c997624_business_rules_v4_hold_band_rename_.py:42-155 | on any rule list, renaming values alike in rules and client, injectively, keeps the winner |
| Rules.GuardingExact | migrations/versions/c5d8a3f1e7b9_business_rules_v9_gate_exit_angles_on_zero_balance.py:32-194 | on any rule list, a guard that holds changes no winner and one that does not deletes the rules |
| Rules.RetieringKeepsWinner | migrations/versions/ee3c3e393606_business_rules_v6_withdrawal_cluster_.py:28-150 | on any rule list, changing the tier keeps which rule wins |
| Rules.FirstMatchConcat | migrations/versions/b4e8f2a6c9d1_business_rules_v5_sitting_still.py:28-150 | the first match of two lists in a row is the first list's, or else the second's |
| RuleSets.V4IsV3Renamed | migrations/versions/209a9c997624_business_rules_v4_hold_band_rename_.py:42-155 | v4 is v3 with one value of the hold band renamed |
| RuleSets.ExitRulesTraced | migrations/versions/a7f3d9c2e5b8_business_rules_v8_grow_back_former_high_value.py:29-178 | the eleven exit rules of v8 are v4's with their tier changed, and v9's other rules are v8's |
| RuleSets.RenameKeepsAngleExactly | migrations/versions/8cd654fa2267_rename_hold_band_parked_briefly_to_.py:31-34 | v4 on the renamed client gives v3's angle exactly when the rename is safe for that client |
| RuleSets.V9FollowsV4 | migrations/versions/c5d8a3f1e7b9_business_rules_v9_gate_exit_angles_on_zero_balance.py:32-194 | every client gets one angle from v9, with the variant of the same name, given by the angle v4 gave |
| RuleSets.WholeChain | migrations/versions/f8b2e4a7c1d9_business_rules_v3_twelve_angles.py:25-138 | every client for whom the rename is safe is told by v9 what v3's angle before the rename determines |
| RuleSets.MeaningKeptExactly | migrations/versions/c5d8a3f1e7b9_business_rules_v9_gate_exit_angles_on_zero_balance.py:32-194 | a funded, sold-out client off automatic check-in, given more than v3's catch-all, keeps its angle in v9 exactly when the rename is safe |
| RuleSets.GuardOnlySkipsExits | migrations/versions/c5d8a3f1e7b9_business_rules_v9_gate_exit_angles_on_zero_balance.py:32-194 | at zero balance v9 gives what v8 gives; otherwise what v8 gives without its exit rules |
| RuleSets.HoldingBalanceFiveAngles | migrations/versions/c5d8a3f1e7b9_business_rules_v9_gate_exit_angles_on_zero_balance.py:32-194 | a client not known to have no balance gets one of five angles |
| RuleAnswers.V4Says | migrations/versions/209a9c997624_business_rules_v4_hold_band_rename_.py:42-155 | v4's answer for every client is that of one cascade of questions about the client |
| RuleAnswers.V9Says | migrations/versions/c5d8a3f1e7b9_business_rules_v9_gate_exit_angles_on_zero_balance.py:32-194 | so is v9's, with the urgency, the tier and the variant that go with each angle |
| RuleAnswers.V3Says | migrations/versions/f8b2e4a7c1d9_business_rules_v3_twelve_angles.py:25-138 | and v3's, for a client that does not hold the new band, from the renamed client |
| Coverage.CoversExact | src/app/rules/store.py:108-114 | the cover test holds exactly when every client the later rule matches is matched by the earlier |
| Coverage.CoveredNeverWins | src/app/rules/store.py:152-158 | a rule covered by an earlier one is the answer for no client |
| Coverage.ReachableExactly | src/app/rules/store.py:152-158 | a rule is the answer for some client exactly when one of finitely many clients read off its clauses is matched by no rule before it |
| Coverage.PairwiseDecides | src/app/rules/store.py:152-158 | for a rule with one value in each clause that is exactly when no rule before it covers it |
| Coverage.PassedIsReachable | src/app/rules/store.py:152-158 | so in a set that passes the test every such rule is the answer for some client |
| Coverage.PassesYetUnreachable | src/app/rules/store.py:152-158 | a rule covered only by two earlier ones together passes the test and never wins |
| RuleWindows.RuleTable.Upgrade | migrations/versions/c5d8a3f1e7b9_business_rules_v9_gate_exit_angles_on_zero_balance.py:203-209 | a version already there is refused; otherwise its rows are added and the version before it ends, whatever end it had |
| RuleWindows.RuleTable.Downgrade | migrations/versions/c5d8a3f1e7b9_business_rules_v9_gate_exit_angles_on_zero_balance.py:212-214 | the version before reopens and the version's rows go |
| RuleWindows.DowngradeRestoresExactly | migrations/versions/a7f3d9c2e5b8_business_rules_v8_grow_back_former_high_value.py:187-198 | a downgrade undoes its upgrade exactly when no row of the version before had an end |
| RuleWindows.UncorrectedExactly | migrations/versions/fa894fc0413a_close_v1_and_v2_rule_set_windows_.py:43-64 | undoing the correction of v1 to v3 restores the windows exactly when v1 and v2 were open and v3 had its provisional start |
| RuleWindows.RuleTable.Correct | migrations/versions/fa894fc0413a_close_v1_and_v2_rule_set_windows_.py:43-54 | v1 and v2 get their ends and v3 its new start, and nothing else changes |
| RuleWindows.ReaderGetsLastStarted | src/app/rules/store.py:205-229 | after any orderly run of upgrades the reader gets the last started version's rules, by priority |
| RuleWindows.ServedExactly | src/app/rules/store.py:205-223 | a version is served on some date exactly when its successor does not start on the same day |
| RuleWindows.ShippedTimeline | migrations/versions/fa894fc0413a_close_v1_and_v2_rule_set_windows_.py:43-54 | the shipped migrations serve one version on every date, without a gap, and v8 never |
| Renames.InTurnIsAtOnce | migrations/versions/ece296116d34_active_client_risk_system_terminology_.py:136-141 | with clean names the updates in turn do what all renames at once would |
| Renames.ColumnRestoredExactly | migrations/versions/ece296116d34_active_client_risk_system_terminology_.py:170-180 | upgrade then downgrade restores a column exactly when no row held a new name |
| Renames.RekeyRestoresExactly | migrations/versions/ece296116d34_active_client_risk_system_terminology_.py:105-106 | rekeying a stored map and back restores it exactly when no key was a new name, in whatever order it is walked |
| Renames.Column.UpdateAll | migrations/versions/ece296116d34_active_client_risk_system_terminology_.py:136-146 | the loop of updates leaves every row with its value renamed in turn |
| Renames.ShippedRenamesAreClean | migrations/versions/ece296116d34_active_client_risk_system_terminology_.py:72-82 | the lists of route and weight renames, and the two single ones, have distinct old names, distinct new names and none that is both |
| Renames.ThresholdRenamesAreClean | migrations/versions/ece296116d34_active_client_risk_system_terminology_.py:62-70 | and so does the list of threshold keys |
| Choosing.Recorder.ChooseResponse | src/app/agents/action_agent.py:282-313 | what one call of the tool records, refuses or raises, whatever JSON it is given |
| Choosing.Choose | src/app/agents/action_agent.py:411-476 | the loop over attempts yields what the specification gives for the same model |
| Choosing.ChoiceIsSound | src/app/agents/action_agent.py:282-315 | for every model, the choice is none or is on the menu with exactly its angle and a reason that is not blank |
| Choosing.AttemptExactly | src/app/privacy/boundary.py:271-287 | an attempt answered in time records the last accepted call of the turns before the answer |
| Choosing.RecordsLastAccepted | src/app/agents/action_agent.py:282-313 | a list of calls raises exactly when one of them does, and otherwise records the last accepted one |
| Choosing.AttemptRaisesExactly | src/app/agents/tool_runtime.py:190-207 | for every model an attempt raises exactly when a turn it reaches does, or a call made before the last turn allowed |
| Choosing.ReasonNotTextRaises | src/app/agents/action_agent.py:300-303 | a menu action with its own angle and a reason that is not text raises out of the step |
| Choosing.FirstFruitfulAttempt | src/app/agents/action_agent.py:435-474 | the choice is that of the first attempt not to come to nothing |
| Choosing.AllFruitless | src/app/agents/action_agent.py:435-474 | the step goes on with nothing exactly when every attempt came to nothing |
| ChoosingCalls.RightCallRecorded | src/app/agents/action_agent.py:305-307 | a call on the menu with the action's own angle and a reason is recorded as made, whatever was recorded before |
| ChoosingCalls.RefusedExactly | src/app/agents/action_agent.py:286-303 | each wrong call has its own refusal, for the first thing wrong, and keeps what was recorded |
| ChoosingCalls.RightCallIsChosen | src/app/agents/action_agent.py:435-476 | if the first attempt not to come to nothing ends with a right call, the step goes on with that choice |
| ChoosingCalls.CallThenAnswer | src/app/agents/action_agent.py:435-476 | a model that makes a right call and then answers has its choice returned |
| ChoosingCalls.RunsOutExactly | src/app/privacy/boundary.py:271-287 | a conversation runs out exactly when all six turns call tools and nothing raises, and the sixth turn's calls are not made |
| ChoosingCalls.AnswersExactly | src/app/privacy/boundary.py:271-287 | it ends with an answer exactly when one of the six turns calls nothing after turns that did and raised nothing |
| Checking.OneVerdictEach | src/app/agents/action_agent.py:543-563 | with distinct members and no refusal each gets one verdict, those in and out make up all, and the reported counts are right |
| Checking.NobodyMeansNothing | src/app/agents/action_agent.py:527-563 | the action is the one chosen or doing nothing, and doing nothing when nobody is included |
| Checking.IncludedExactly | src/app/agents/propose.py:226-268 | a member is in exactly when the response reaches no client or every check on it is clear |
| Checking.RaisesExactly | src/app/agents/propose.py:192-203 | the step raises exactly when an action it needs is not in the live catalogue |
| Checking.RowPerMember | src/app/agents/insight_proposal.py:155-165 | each member judged gets one row saying what was decided, and the unique key holds exactly when no member occurs twice |
| Decisions.ReasonExactly | src/app/agents/propose.py:226-268 | a client is left out for a reason exactly when that check stops it and none before it does |
| Decisions.NothingChosenSays | src/app/agents/action_agent.py:527-534 | with nothing chosen every client is left out as not chosen for, under the do-nothing action and its reason |
| Decisions.RefusalSays | src/app/agents/action_agent.py:535-542 | when the members cannot be worked out the refusal is the reason and nobody is judged |
| Decisions.ChoiceSays | src/app/agents/action_agent.py:543-563 | otherwise the choice's reason and angle are carried, with the chosen action while somebody is in and doing nothing when nobody is |
| Decisions.MissingActionNamed | src/app/agents/propose.py:192-203 | when the step raises, its error names the missing action, the chosen one first |
| Decisions.MoneyAddsUp | src/app/agents/insight_proposal.py:126 | the total counts each member's balance once, wherever it stands |
| ActionRun.StartActionRun | src/app/agents/action_agent.py:688-712 | a refused start changes nothing; an accepted one fails stale runs and adds a running one |
| ActionRun.FailStaleRuns | src/app/agents/agent_loop.py:967-991 | exactly the running runs started before the cut-off are failed, with the reason |
| ActionRun.ProposeStep | src/app/agents/action_agent.py:590-621 | wherever it raises, the step commits the whole proposal or nothing |
| ActionRun.ExecuteActionRun | src/app/agents/action_agent.py:715-808 | the five steps, the failing handler and the closing write leave the tables the specification gives for the same failures |
| ActionRunSteps.StartsExactly | src/app/agents/action_agent.py:688-712 | a start is accepted exactly for a stored, accepted finding that is no pattern and no change of label; each refusal has its own cause |
| ActionRunSteps.StartWritesExactly | src/app/agents/agent_loop.py:967-1035 | a start fails the running runs started before the cut-off, leaves every other run and table as it is, and adds its own running run |
| ActionRunSteps.NeverOnPatterns | src/app/agents/action_agent.py:699-711 | over every history no run is for a pattern or a change of label |
| ActionRunSteps.ReadExactly | src/app/agents/action_agent.py:360-409 | the read step raises exactly when the finding is not accepted, and hands on every unpaused live action and nothing else as the menu |
| ActionRunSteps.ProposeWritesExactly | src/app/agents/insight_proposal.py:110-174 | a committed proposal adds its row and its client rows and moves its accepted finding, and no other, to acted on; one that does not commit writes nothing |
| ActionRunSteps.OtherStepsWriteExactly | src/app/agents/action_agent.py:623-669 | the report writes its run's summary and nothing else, and the first three steps write nothing |
| ActionRunSteps.EndingWritesExactly | src/app/agents/action_agent.py:774-805 | the write that ends a run sets its state, and the reason of a failed one, and nothing else |
| ActionRunSteps.CompletesExactly | src/app/agents/action_agent.py:715-808 | a run nothing interrupts leaves exactly: itself completed with its summary, its finding acted on, and the proposal and client rows of what it chose and decided |
| ActionRunLaws.EveryRunWellFormed | src/app/agents/action_agent.py:727-733 | in every interleaving a completed run wrote exactly one whole proposal, any other none or one whole one, and a failed run says why |
| ActionRunLaws.ProposalTraced | src/app/agents/insight_proposal.py:110-174 | every stored proposal goes back to one run and names a live action; its reason is the choice's, the refusal or that nothing was chosen; its total is that of those left in; and it has one row per member with the verdict, or none after a refusal |
| ActionRunLaws.EndsExactly | src/app/agents/action_agent.py:774-805 | wherever the steps raise, a run ends completed, or failed with the first error, unless the write that says so is lost |
| ActionRunLaws.LeftRunningExactly | src/app/agents/action_agent.py:798-801 | a run is left running exactly when the write that ends it is lost |
| ActionRunLaws.FinishKeepsRun | src/app/agents/action_agent.py:774-805 | a run executed to its end alone keeps the conditions above |
| ActionRunFindings.TwiceOnStepExactly | src/app/agents/action_agent.py:590-621 | the one move that gives a finding its second proposal is a propose step that commits while it has its first |
| ActionRunFindings.WorkedTwiceExactly | src/app/agents/insight_proposal.py:119-174 | over any history some finding has two proposals exactly when such a move was made |
| ActionRunFindings.ReadingAloneMeansOnce | src/app/agents/action_agent.py:360-372 | if no run reads a finding while another past its read has yet to propose, a finding gets at most one proposal and is not started on again |
| ActionRunFindings.OverlapProposesTwice | src/app/agents/action_agent.py:590-602 | two runs that both reach the propose step for one finding both propose |
| ActionRunFindings.OverlapIsReached | src/app/agents/action_agent.py:688-712 | there is a history that gives one finding two proposals |
| Retention.StaleExactly | src/app/retention.py:20-43 | exactly the completed runs with `keep` newer ones of their endpoint, and the failed ones older than some completed one, are stale |
| Retention.PrunesCompose | src/app/retention.py:64-69 | pruning with a and then b equals pruning with the smaller |
| Retention.SnapshotPrunesCompose | src/app/retention.py:46-61 | so do the snapshot prunings |
| Retention.RankIsTopK | src/app/retention.py:26-33 | on one feed a completed run is within the ordered query's limit exactly when its row number is at most `keep` |
| Retention.BothFormsAgree | src/app/retention.py:46-61 | the two prunings agree on completed and running runs; the snapshot one always drops failed ones |
| Retention.SnapshotStaleExactly | src/app/retention.py:46-61 | of the snapshot runs exactly the failed ones and the completed ones with `keep` newer completed ones are stale |
| Retention.Store.PruneRawStaging | src/app/retention.py:64-69 | the rows of the stale runs go, nothing else does, and their number is returned |
| Retention.Store.PruneSignalSnapshots | src/app/retention.py:72-77 | the same for the two snapshot tables together |
| Retention.Store.PruneRiskSnapshots | src/app/retention.py:80-83 | the same for the risk snapshots |
| RetentionRuns.RunsKeepRows | src/app/workers/ingestion.py:101-153 | over every run of pulls, resumes and prunes that resumes no outdated failed pull, running pulls and the newest completed pull of each endpoint keep every page |
| RetentionRuns.PruneThenResumeExactly | src/app/workers/ingestion.py:213-221 | a pruned failed pull has its pages on resuming exactly when no newer pull of its endpoint had completed, or it had none |
| RetentionRuns.ResumedPullLosesAPage | src/app/workers/ingestion.py:213-221 | a history in which a resumed pull completes without its first page |
| Settings.SettingsProvider.Get | src/app/config.py:352-362 | a call leaves the cache as specified and answers with the environment under the overrides it holds |
| Settings.SettingsProvider.Reload | src/app/config.py:384-401 | a reload stamps the time, keeps the overrides when the loader raises, and drops the merge when they change |
| Settings.AnswerIsCurrent | src/app/config.py:352-379 | every call is answered with the environment under the overrides last loaded, whatever came before |
| Settings.OverridesWin | src/app/config.py:376-379 | over every run, a name the loader last gave a value is answered with that value whatever the environment says, and every other name as in the environment |
| Settings.AsksExactly | src/app/config.py:381-391 | over every run, a call asks the loader exactly when there is one and the last call to ask ended ten seconds before or more, unless a refresh was forced since |
| Settings.LastLoadedIs | src/app/config.py:384-401 | the overrides in force are those of the last call that asked and got an answer, or none |
| Settings.LoadRate | src/app/config.py:381-391 | the loader runs at most once per ten seconds elapsed plus once per forced refresh, failures included |
| SettingsThreads.EveryInterleavingSafe | src/app/config.py:352-401 | in every interleaving at most one thread reloads and every answer merges overrides that were current at some point |
| SettingsThreads.OutdatedExactly | src/app/config.py:358-361 | the only step that leaves an outdated merge stores one made before the overrides changed |
| SettingsThreads.UpToDateThroughoutExactly | src/app/config.py:358-361 | over every interleaving the stored merge is up to date throughout exactly when no thread makes such a store |
| SettingsThreads.CalmStaysCurrent | src/app/config.py:358-361 | if overrides never change between a thread's reading of them and its store, the stored merge is never outdated, in any interleaving |
| SettingsThreads.OutdatedIsReached | src/app/config.py:358-361 | two first calls at once can leave a merge without the overrides loaded |
| SettingsThreads.OutdatedStays | src/app/config.py:384-392 | such a merge answers all later calls until the overrides change or the cache is cleared |
| SettingsThreads.AloneIsOneCall | src/app/config.py:352-401 | attribute by attribute, a call that no other thread disturbs does and answers what the provider's call does taken as one step |
| Text.ParsePrinted | src/app/config.py:176-180 | parsing a printed number returns it |
| Text.SplitJoined | src/app/config.py:170 | splitting undoes joining with the separator |
| Text.ParseIntExact | src/app/config.py:176-180 | int() takes exactly the texts of blank ends, a sign or none, and digits with single underscores between, for the number they write |
| Roster.ReadRoster | src/app/config.py:161-185 | the loop with its seen set gives the records of the specification |
| Roster.EntryExactly | src/app/config.py:168-184 | an entry of four fields is the record of them stripped, when the first three are not empty and the last is a number above zero, and is skipped otherwise |
| Roster.RosterOk | src/app/config.py:161-185 | ids are unique, capacities positive, and every field stripped and not empty, for any text |
| Roster.RostersJoin | src/app/config.py:161-185 | two rosters joined by a comma hold the first's records and the second's with ids not yet seen |
| Roster.RosterRoundTrip | src/app/config.py:161-185 | reading a printed clean roster returns it |
| Roster.WindowsExact | src/app/config.py:236-239 | the result windows are the positive numbers listed, once each and ascending; refused exactly when a part is neither blank nor a number |
| Roster.ParseHoursExact | src/app/durations.py:5-14 | a text is a duration of so many hours exactly when it fits the pattern with that many, above zero |
| Roster.DurationRoundTrip | src/app/durations.py:9-14 | reading a printed duration returns it |

## Left out

- Prompts, traces, spans, events, audit rows, cost, logging and every call to a model, a network or an email service: the model is an arbitrary sequence of tool calls, the rest is dropped.
- Floating-point rounding: money and rates are exact reals.
- PerformanceRuns.EarlierRowsReproduced: rows already stored are not changed in place between two builds, which a later edit of a proposal or of an assignment would do.
- An action code or angle that is not text: the first is on no menu and the second is no action's angle, so either is refused.
- The shared mutable tally object behind the dictionary: counters are a value in a map that the loop replaces.
- SQL transaction isolation and statement-level races: a step is one transaction; interleaving is between committed steps. A tie SQL leaves open is settled by table order or by the lower id.
- The query's WHERE is applied before the joins, which it can be because it reads one table.
- The time-zone arithmetic that places the anchor: the anchor is an argument.
- The active-configuration pointer that saves and undos also move, and statuses other than published in what is saved.
- The angle catalogue and the situation mapping saved by the same migration; their stored starts enter as a lower bound.
- The contents of rule sets v1 and v2, and rule validation beyond the reachability test.
- Free-text replacement in risk reasons, column renames and the other schema-only migrations.
- Downgrades that reopen windows more widely than their upgrades closed them (8a329564c6d6, c3d4e5f6a7b8, f4d9e1a7c3b5) and the tier contract's.
- How the members of a finding are worked out, permission levels, client counts and evidence texts on a proposal.
- Checking.Load: the error names the missing action and leaves out the date.
- What a failed clear or a change of the process environment does under threads: the interleaved settings model has one environment and no cache_clear.
- Digits outside ASCII and the length limit of int(); white space is Python's.
- The trace rows a tool call writes, and what the read tools answer: any other tool call is one that returns or one that raises.
- Agents other than the action agent, whose runs the sweep also fails.
- Range checks of editable settings, pagination tokens, admin views, scripts and authentication.
- ActionRun.ExecuteActionRun: the rollback happens when a step raises rather than first thing in the handler; nothing runs in between.
