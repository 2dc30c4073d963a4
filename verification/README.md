# Verified model of the rubric grading backend

A Dafny model of the services that decide what a teacher and a student see in the rubric grading
backend, with proofs of what those services are for. Values are datatypes, the objects and rows the
services update in place are classes, and each protocol between requests is a state machine whose
runs are arbitrary interleavings of its steps.

| file | models |
|---|---|
| `Text.dfy` | text normalisation and word counting |
| `Layout.dfy` | which characters and lines normalisation keeps, and how it lays them out |
| `Html.dfy` | the HTML whitelist printer, the stripper, and entity escaping and decoding |
| `Timeline.dfy` | writing sessions, time accounting, paste and rapid-completion events |
| `TimelineEntries.dfy` | parsing and the whole timeline analysis, said of the stored entries |
| `Snapshots.dfy` | autosave, recovery and the lazily cached process signals |
| `Resubmission.dfy` | versioned resubmission under a row lock, with upload and clean-up |
| `Grouping.dfy` | the inverted index of weak skills and the groups built from it |
| `GroupStore.dfy` | locked publication of groups, stability labels, manual edits |
| `Parsing.dfy` | normalising a grading response |
| `GradingRuns.dfy` | grading tasks, retries and the essay status |
| `Grades.dfy` | creating a grade, its edits one at a time, and its audit log |
| `GradeEdits.dfy` | overlapping edits of a grade, and lockers, step by step |
| `GradeListing.dfy` | the audit log in the order in which it is returned |
| `GradeTotals.dfy` | the total under overlapping edits that flush |
| `GradeRuns.dfy` | the results on every run of a grade |
| `GradeSamples.dfy` | runs of a grade that break what one would expect |
| `RateLimit.dfy` | the fixed-window request counter |
| `RefreshTokens.dfy` | refresh-token rotation |
| `Insights.dfy` | class averages, histograms and common issues |
| `ClassResponse.dfy` | the class response, said of the rows |
| `IssueBounds.dfy` | when a common issue is certain to affect somebody |
| `Outcomes.dfy` | `Option` and `Result` |

`dafny verify dfyconfig.toml` checks the whole project.

## Where the code does not do what one would expect

Each of these is proved. Where an "exactly" is given, the condition is proved in both directions.

- **A clean-up can delete a committed file.** When the commit of a resubmission fails, the row lock is
  given up by the rollback before the uploaded object is deleted (`essay.py:1562-1585`), and a key
  depends only on the version number and the sanitised name. Another attempt can commit the same
  version number under the same key in between. All interleavings of a set of attempts are harmless
  exactly when their sanitised names are pairwise distinct (`Resubmission.FilesKeptIffNamesDistinct`).
- **The total lags behind an override.** The comment at `grade.py:354-355` says the total is never
  stale, but the sessions are built with `autoflush=False` (`backend/app/db/session.py:84` and `:95`),
  so the SELECT does not see the pending score. For an override by itself the total is right exactly
  when it repeats the row's current score (`Grades.UnflushedTotal`, `Grades.StaleTotal`). With a flush it is right as
  long as edits do not overlap (`GradeRuns.SeparateEdits`). Overlapping ones keep it right all the way
  exactly when no commit finds that what its SELECT relied on has changed (`GradeTotals.FlushedTotals`);
  `GradeSamples.FlushedButWrong` is a run that ends with a wrong total.
- **An edit can follow the lock, and can be listed after it.** The lock check is not atomic with the
  write (`grade.py:229`, `grade.py:300-301`), and the log is returned by `created_at` (`grade.py:563`),
  which the database sets to the start of the transaction (`backend/app/models/audit_log.py:55-59`).
  When a lock commits, the grade is final from then on exactly when no edit that would pass its other
  checks is in flight. The edits that can ever be listed after the lock are those, recorded or in
  flight, whose transaction began after the locker's, even if nothing is in flight any more
  (`GradeRuns.NoEditAfterLock`, `GradeSamples.EditMayFollowLock`, `GradeSamples.EditListedAfterLock`).
- **Overlapping edits can break the audit log and split a score.** An edit records the values it loaded,
  and writes only the columns it changed. The returned log is faithful all the way, replaying to the
  stored grade with each entry starting where the one before it ended, exactly when every commit is in
  place: it is up to date, or, if an edit that began later has already written the same thing, it
  changes nothing and loaded what the log shows at its own place (`GradeListing.LogFaithful`). Being up
  to date is not enough (`GradeSamples.LogOutOfOrder`); it is exactly what the log in commit order
  needs (`GradeEdits.CommitOrderFaithful`). Each final score is the teacher's if set and the AI's if
  not, all the way, exactly when no commit repeats the AI's score on a row it loaded without a teacher
  score and that has since been given another (`GradeEdits.FinalsFollow`,
  `GradeSamples.OverlapSplitsRow`).
- **A failed model call abandons the essay.** The status `grading` is committed before the call
  (`grading.py:210-212`) and a failure that is to be retried does not take it back; each retry is then
  refused as in progress, which is a conflict (`backend/app/exceptions.py:91`), and conflicts are not
  reverted (`backend/app/tasks/grading.py:285-297`). When no other task can
  touch the essay, it is lost until a resubmission exactly when the task still had a retry
  (`GradingRuns.RetriesNeverGrade`, `GradingRuns.AbandonedExactly`).
- **The claim excludes nobody, and neither does giving up.** Two tasks that both saw the essay queued
  leave it queued although its version has a grade, and so does a task that gives up, reads that the
  essay is being graded, and writes that it is queued after another has saved
  (`GradingRuns.TwoTasksMislay`, `GradingRuns.RequeuedAfterSave`). A graded essay keeps its mark until a
  resubmission exactly when no task saw it queued, is undoing a save, is about to requeue it, or calls
  for a version that has its grade or that another task calls for (`GradingRuns.GradedStaysExactly`).
  One that has lost its mark does not get it back before a resubmission exactly when no task can still
  grade another version (`GradingRuns.MislaidForever`). A resubmission during a run can end up marked
  as graded without a grade; until the next one the mark tells the truth exactly when no run has been
  overtaken (`GradingRuns.SaveIsCurrent`, `GradingRuns.OvertakenRun`). With runs and resubmissions one
  at a time the status is exact (`GradingRuns.OneAtATimeIsOrderly`).
- **A manual group edit can be lost and mislabelled** if it commits between a grouping task's read and
  its delete, because edits do not take the class lock (`GroupStore.PublishesOverPredecessor`,
  `GroupStore.EditBetweenReadAndDelete`).
- **A logout does not stop a refresh in flight**: only a logout that presents the live token ends the
  session (`RefreshTokens.LogoutEndsSession`, `RefreshTokens.LogoutDuringRefresh`).
- **A counter whose EXPIRE is lost never expires**, since only the first hit sends it: a full counter
  ever accepts again exactly when its lifetime is set or still to be set
  (`RateLimit.FullCounterReopens`, `RateLimit.CounterLost`).
- **Rounding hides some issues**: a mean from 0.59995 up to 0.6 is below the threshold but rounds to it
  and is not listed (`Insights.RoundedBelow`, `Insights.RoundedAway`).
- **A common issue may affect nobody** when some rows have no student (`Insights.IssueWithoutStudent`).
  For given owners of the rows and a given scale, every way to score them gives each listed issue an
  affected student exactly when the scores that just keep every student at the threshold are enough to
  keep the class from being listed (`IssueBounds.IssueAlwaysAffects`).
- **The steps of `normalize_text` are documented in another order** than they are applied, and as
  stripping both ends of each line; the code strips line ends only, and before it collapses blank
  lines. The model follows the code.

## Model

| member | source | states |
|---|---|---|
| `Text.NormalizeKeepsWords` | backend/app/services/essay.py:213-237 | what normalisation leaves has exactly the words, in order, of the control-filtered text, so the word count is the same |
| `Text.WordsOfRun` | backend/app/services/essay.py:230-232 | a word is cut exactly at the white space around it |
| `Text.NormalizeFixpoints` | backend/app/services/essay.py:213-227 | a text is left unchanged if and only if it is clean: nothing to filter, no line ending in whitespace, never three newlines in a row, no outer whitespace |
| `Text.NormalizeClean` | backend/app/services/essay.py:213-227 | every normalised text is clean in that sense |
| `Text.NormalizeIdempotent` | backend/app/services/essay.py:213-227 | normalising again changes nothing (the steps after composition) |
| `Layout.SpaceChars` | backend/app/services/essay.py:220-232 | which characters count as white space, and which end a line |
| `Layout.FilterChars` | backend/app/services/essay.py:213-217 | each character is kept or dropped by itself: newlines and tabs stay, other control characters go |
| `Layout.NormalizedLayout` | backend/app/services/essay.py:219-227 | whatever the lines and the breaks between them, what is left is the lines that are not blank, without trailing white space, in order, one below the other, with exactly one blank line wherever there were any in between |
| `Layout.SomeLines` | backend/app/services/essay.py:219-221 | every text consists of such lines and breaks |
| `Html.SafeHtmlFilter.HandleStartTag` | backend/app/services/essay.py:844-846 | a start tag adds itself, bare, when it is one of the nine kept tags and nothing otherwise |
| `Html.SafeHtmlFilter.HandleEndTag` | backend/app/services/essay.py:848-850 | an end tag adds itself when it is one of the nine kept tags and not br, and nothing otherwise |
| `Html.SafeHtmlFilter.HandleStartEndTag` | backend/app/services/essay.py:852-855 | a self-closing tag is printed as a bare start tag |
| `Html.SafeHtmlFilter.HandleData` | backend/app/services/essay.py:857-859 | character data is printed escaped |
| `Html.SafeHtmlFilter.GetOutput` | backend/app/services/essay.py:861-862 | the output is the concatenation of everything appended |
| `Html.SanitizeHtmlContent` | backend/app/services/essay.py:865-881 | the printer run over all events gives their pieces in order, only whitelisted markup, and an output that reads back to what is to be kept |
| `Html.SanitizedIsSafe` | backend/app/services/essay.py:834-881 | whatever the events, every `<` in the output opens a bare whitelisted tag |
| `Html.SanitizedReadsBack` | backend/app/services/essay.py:834-881 | scanning the output for tags gives back, in the order of the events, each kept start and self-closing tag, each kept end tag but br's, and the text with each character escaped, and nothing else |
| `Html.UnescapeEscaped` | backend/app/services/essay.py:816-819 | entity decoding, with its longest-prefix and numeric rules, takes back exactly what escaping wrote, whatever follows |
| `Html.UnescapeDecimal` | backend/app/services/essay.py:817-818 | a decimal reference decodes to its character, and an impossible one to the replacement character |
| `Html.StripUndoesSanitize` | backend/app/services/essay.py:806-881 | stripping the sanitiser's output gives exactly the text of the events, with one newline for each kept br, p or div start and nothing else |
| `Html.StripsAnyTag` | backend/app/services/essay.py:813-816 | from any markup the stripper removes a whole tag, and leaves one newline for it exactly when its text starts with br, p, div, li or h1 to h6, in any case |
| `Html.StripsNoText` | backend/app/services/essay.py:813-816 | it leaves text without an opening angle bracket as it is |
| `Html.WordCountOfSanitized` | backend/app/services/essay.py:1039-1048 | the stored word count is the number of words the parser reported, after composition and filtering |
| `Timeline.SortIsStable` | backend/app/services/composition_timeline.py:151-154 | sorting keeps the order of snapshots with equal times |
| `Timeline.SplitSessions` | backend/app/services/composition_timeline.py:231-245 | the loop returns the sessions of the segmentation |
| `Timeline.SegmentsIsSegmentation` | backend/app/services/composition_timeline.py:237-245 | parts are non-empty, consecutive and cover everything; inner gaps are below the threshold and boundary gaps at or above it |
| `Timeline.SegmentationUnique` | backend/app/services/composition_timeline.py:237-245 | no other partition has those properties |
| `Timeline.AnalysisAccounts` | backend/app/services/composition_timeline.py:234-258 | counts add up to the parsed snapshots, active time plus gaps is the elapsed time, and no `max(0, ...)` takes effect |
| `Timeline.FindReturnsOwnSession` | backend/app/services/composition_timeline.py:176-181 | with a positive threshold sessions are disjoint in time and the scan returns the session that holds the snapshot |
| `Timeline.FindNeedsPositiveGap` | backend/app/services/composition_timeline.py:176-181 | with a threshold of zero or less the scan can return the wrong session: two snapshots at one instant |
| `Timeline.PasteSessionsAreReal` | backend/app/services/composition_timeline.py:263-283 | every paste event names the only session whose interval contains it, so the default of 0 is never used |
| `Timeline.PastesExact` | backend/app/services/composition_timeline.py:263-283 | a snapshot is reported as a paste if and only if its growth meets both thresholds |
| `Timeline.RapidsExact` | backend/app/services/composition_timeline.py:288-304 | a session is reported as a rapid completion if and only if it is short and adds a large enough share |
| `Timeline.PasteBound` | backend/app/services/composition_timeline.py:263-283 | if the count never drops, pasted words sum to at most the final count and paste events number at most 1/fraction, six with the defaults |
| `Timeline.RapidBound` | backend/app/services/composition_timeline.py:288-304 | if the count never drops, rapid completions number at most 1/fraction, so one at most above one half |
| `TimelineEntries.ParseSnapshots` | backend/app/services/composition_timeline.py:133-154 | what is parsed is the readable entries, each once and with its own number, time and floored word count, by time and at one instant in list order |
| `TimelineEntries.ParsedExactly` | backend/app/services/composition_timeline.py:133-154 | the same for every list, whichever way its readable entries are put in time order |
| `TimelineEntries.SomeOrder` | backend/app/services/composition_timeline.py:151-154 | every list has such an order |
| `TimelineEntries.OrdersAgree` | backend/app/services/composition_timeline.py:151-154 | and only one |
| `TimelineEntries.AnalyzeWritingProcess` | backend/app/services/composition_timeline.py:189-315 | the analysis says of the stored entries what it should, also for empty and unusable lists |
| `TimelineEntries.AnalysisFromEntries` | backend/app/services/composition_timeline.py:222-315 | said of the entries in time order: sessions run between exactly the gaps that reach the threshold and have the fields of their first and last entry; gaps and active time make up the elapsed time; a paste is listed, with its entry's number, time and words and the first session that contains it, for exactly the entries that add enough words; a rapid completion for exactly the short sessions that add a large enough share |
| `Snapshots.VersionRow.SaveWritingSnapshot` | backend/app/services/essay.py:1033-1066 | a save appends one snapshot with the next number, the time of the save, the kept markup and its word count, and replaces text and word count, or refuses an uploaded essay and changes nothing |
| `Snapshots.SaveStores` | backend/app/services/essay.py:1033-1066 | the same for every save of a run |
| `Snapshots.VersionRow.GetWritingSnapshots` | backend/app/services/essay.py:1147-1173 | the latest HTML, the stored word count and number, time and word count of every snapshot in order, or a refusal |
| `Snapshots.VersionRow.ReadSignals` | backend/app/services/essay.py:1232-1285 | a cache is used only when it is valid and its count is the current one, and is then the analysis of the current list |
| `Snapshots.VersionRow.GetProcessSignals` | backend/app/services/essay.py:1232-1348 | an undisturbed request answers with a fresh analysis and leaves a valid cache |
| `Snapshots.FreshDescribes` | backend/app/services/essay.py:1289-1348 | a fresh analysis says of the stored snapshots' entries, with the default thresholds, what the timeline analysis should |
| `Snapshots.RunIsSound` | backend/app/services/essay.py:1033-1066 | over every interleaving of autosaves and split signals requests: a cache of count k is the analysis of the first k snapshots, numbers are 1..n, and every answer ever sent is a fresh analysis of the list it read |
| `Snapshots.CountMatchIsFresh` | backend/app/services/essay.py:1285-1287 | a matching count alone guarantees a fresh answer in every reachable state |
| `Snapshots.SlowCommitIsDetected` | backend/app/services/essay.py:1336-1348 | a slow request may overwrite a newer cache, and the next reader then recomputes |
| `Snapshots.RecoveredEditorState` | backend/app/services/essay.py:1152-1173 | the HTML returned for recovery always strips to the stored, graded text |
| `Snapshots.SavedWordCount` | backend/app/services/essay.py:1047-1066 | a saved word count is the number of words typed |
| `Resubmission.SanitizeFixpoints` | backend/app/services/essay.py:102-115 | a file name is kept as it is if and only if it is non-empty, within the length limit and made of safe characters |
| `Resubmission.SanitizedName` | backend/app/services/essay.py:102-115 | the directory part goes, every unsafe character becomes an underscore, what is past 200 characters is cut off, and an empty name is replaced |
| `Resubmission.KeyReads` | backend/app/services/essay.py:1507-1508 | a key is the essay's prefix, v with the decimal number of the version, and the name |
| `Resubmission.KeyInjective` | backend/app/services/essay.py:1507-1511 | keys of different versions or different names never collide |
| `Resubmission.RunKeepsOrder` | backend/app/services/essay.py:1456-1563 | over every interleaving under the row lock versions are 1..n, rows are never changed, and the limit holds |
| `Resubmission.RunLeavesNoOrphans` | backend/app/services/essay.py:1510-1585 | a failed attempt leaves no object behind |
| `Resubmission.RunKeepsFiles` | backend/app/services/essay.py:1510-1585 | committed versions keep their files as long as no attempt starts while another of the same name has yet to clean up |
| `Resubmission.SameNameLosesFile` | backend/app/services/essay.py:1562-1585 | otherwise a late clean-up deletes the file of a committed version |
| `Resubmission.FilesKeptIffNamesDistinct` | backend/app/services/essay.py:1507-1585 | for any finite set of attempts: every interleaving of them keeps the files of committed versions if and only if their sanitised names are pairwise distinct |
| `Resubmission.QuietBucketIsExact` | backend/app/services/essay.py:1510-1585 | with nothing in progress the bucket holds exactly the initial objects and the committed files |
| `Resubmission.EssayStore.ResubmitEssay` | backend/app/services/essay.py:1449-1585 | one call: the exact new row with its key, text and word count, bucket and status on success and on each failure, and by the checks and the outside world which of them it is |
| `Grouping.BuildGroups` | backend/app/services/auto_grouping.py:166-228 | the groups are sorted by key without repeats; each holds exactly the students weak in its key; every key with enough students is there and no other |
| `Grouping.BuildIndex` | backend/app/services/auto_grouping.py:194-206 | the inverted index lists, per key, the weak students in profile order, whatever order skills are met in |
| `Grouping.GroupsInvertProfiles` | backend/app/services/auto_grouping.py:194-228 | a student is in the group of a key if and only if some profile of that student has a number below the threshold under it and enough profiles do |
| `Grouping.GroupsAreOrdered` | backend/app/services/auto_grouping.py:205-228 | keys and students are in string order, a group counts the low profiles and is persistent exactly when its key was there before |
| `Grouping.LessEqIsPrecedes` | backend/app/services/auto_grouping.py:205-214 | string order: a beginning of the other, or the smaller character where they first differ |
| `Grouping.GroupingUnique` | backend/app/services/auto_grouping.py:194-228 | the profiles determine the list of groups |
| `Grouping.GroupingMonotone` | backend/app/services/auto_grouping.py:205-214 | raising the threshold or lowering the minimum size never removes a group or a member |
| `GroupStore.RunsAreSerial` | backend/app/services/auto_grouping.py:292-405 | over every interleaving of tasks and manual edits the unique constraint is never hit, every committed table is the publish of a task's clusters over the keys read under the lock, and all groups ever stored are well formed: exited if and only if empty, true count, no repeated id |
| `GroupStore.PublishesOverPredecessor` | backend/app/services/auto_grouping.py:307-396 | a commit is the publish over the table just before it if and only if no edit since the read changed the active keys |
| `GroupStore.SerialWithoutEdits` | backend/app/services/auto_grouping.py:299-396 | a publish that directly follows another, or comes first, is the publish over it: without edits in between tasks are serialised in lock order |
| `GroupStore.EditBetweenReadAndDelete` | backend/app/services/auto_grouping.py:315-348 | a run in which a manual edit between the read and the delete is lost and mislabelled |
| `GroupStore.PublishedReveals` | backend/app/services/auto_grouping.py:324-394 | the published table determines which keys the run took for active |
| `GroupStore.PublishLabels` | backend/app/services/auto_grouping.py:324-394 | a key becomes persistent, new, exited or disappears exactly according to whether it is clustered and was non-empty before |
| `GroupStore.DedupKeepsOrder` | backend/app/services/auto_grouping.py:587-595 | an edit keeps the order of first occurrence |
| `GroupStore.DedupMembers` | backend/app/services/auto_grouping.py:587-595 | an edit keeps each enrolled id once and nothing else |
| `GroupStore.EditLabels` | backend/app/services/auto_grouping.py:600-610 | an edit exits a group if and only if no enrolled id is left, and re-activates an exited one as persistent |
| `GroupStore.EditHolds` | backend/app/services/auto_grouping.py:587-622 | an edited group holds exactly the enrolled ids sent, each once and in the order sent, with their count and the label that goes with them |
| `GroupStore.RelabelIsGrouping` | backend/app/services/auto_grouping.py:292-333 | tagging stability under the lock gives what grouping with the previous keys would have given |
| `GroupStore.PublishLeaves` | backend/app/services/auto_grouping.py:292-394 | what a publish leaves under each key: the sorted students of the low profiles, persistent or new by whether the key was active, when enough profiles are low in it; an empty exited group when the key was active and no longer is; nothing otherwise |
| `GroupStore.ClassGroups.ComputeAndPersistGroups` | backend/app/services/auto_grouping.py:236-405 | one call: under every key the stored table holds what the profiles and the old table call for, the returned rows are its groups and then the exited ones, and no conflict is raised |
| `GroupStore.ClassGroups.UpdateGroupMembers` | backend/app/services/auto_grouping.py:566-628 | one call: only the named group changes, to the enrolled ids sent, each once and in that order; an unknown group is refused |
| `Parsing.ParseGradingResponse` | backend/app/llm/parsers.py:145-284 | the two loops compute the specified parse, refuse exactly the malformed responses, and say of the response what they should |
| `Parsing.ParseSays` | backend/app/llm/parsers.py:145-284 | which structural error each response gets; for each criterion, from its last entry: a score is read exactly from a bool, an integer, a number, whose fraction is dropped, or a string Python reads, and stored as it is or as the bound it passed; justification, confidence, note, summary and review marks from their own fields, with falsy, short and missing ones replaced |
| `Parsing.ParseCoversRubric` | backend/app/llm/parsers.py:167-273 | one result per criterion in rubric order; missing exactly when the response has no entry for it, otherwise in range |
| `Parsing.EntryKept` | backend/app/llm/parsers.py:190-273 | a result needs review exactly when the score is unreadable or out of range or the justification is short; otherwise the entry is kept, and a score that moves moves to the nearest bound |
| `Parsing.ParseDependsOnLastEntries` | backend/app/llm/parsers.py:160-170 | only the last entry of each expected criterion and the summary matter |
| `Parsing.ExtraEntryIgnored` | backend/app/llm/parsers.py:160-170 | an entry that names nothing, an unexpected criterion, or one named again later can be removed without effect |
| `Parsing.EntryOrderIgnored` | backend/app/llm/parsers.py:160-170 | entries naming different criteria may come in any order |
| `Parsing.ParseRendered` | backend/app/llm/parsers.py:190-284 | parsing a rendered result with no missing criterion gives back every score, justification, confidence, feedback and the summary |
| `Parsing.OverallIsLeast` | backend/app/services/grading.py:56-82 | the overall confidence is the least level present: low exactly when there is a low one or nothing, high exactly when there is something and all of it is high |
| `Parsing.AnomalyMeansLow` | backend/app/services/grading.py:56-82 | one clamped or missing criterion makes the overall confidence low |
| `GradingRuns.OneGradePerVersion` | backend/app/services/grading.py:246-344 | over every interleaving of runs, retries and resubmissions each version gets at most one grade, grades are never lost, and a graded essay has one |
| `GradingRuns.SaveIsCurrent` | backend/app/services/grading.py:282-344 | until a resubmission "graded" goes on meaning that the latest version has a grade if and only if no run under way has been overtaken |
| `GradingRuns.GradedIsCurrent` | backend/app/services/grading.py:160-344 | if no resubmission commits while a run holds its version, "graded" means the latest version has a grade |
| `GradingRuns.OvertakenRun` | backend/app/services/grading.py:160-344 | otherwise a resubmitted essay can be marked graded without a grade of its latest version |
| `GradingRuns.AbandonedForever` | backend/app/services/grading.py:206-212 | an essay marked as being graded by nobody stays so until it is resubmitted |
| `GradingRuns.AbandonedExactly` | backend/app/services/grading.py:206-212 | an essay marked as being graded stays so until a resubmission if and only if no task holds it, is undoing or reverting, or saw it queued |
| `GradingRuns.RetriesNeverGrade` | backend/app/tasks/grading.py:285-320 | after a failed call the essay stays marked as being graded, and gets no grade, until a resubmission if and only if the task has a retry left and no other task can touch the essay |
| `GradingRuns.AbandonedRun` | backend/app/tasks/grading.py:285-309 | one failed call is enough to get there |
| `GradingRuns.MislaidForever` | backend/app/services/grading.py:262-277 | an essay whose latest version has its grade but which is not marked graded is never marked again until a resubmission if and only if no task can still grade another version; then no grade is added either |
| `GradingRuns.GradedStaysExactly` | backend/app/services/grading.py:206-277 | a graded essay keeps its mark until a resubmission if and only if no task saw it queued, is undoing a save, is about to requeue it, or calls for a version that has its grade or that another calls for |
| `GradingRuns.TwoTasksMislay` | backend/app/services/grading.py:206-277 | two tasks that both saw the essay queued lead there |
| `GradingRuns.RequeuedAfterSave` | backend/app/tasks/grading.py:215-231 | a task that gives up reads that the essay is being graded, another saves, and the first writes that it is queued |
| `GradingRuns.OneAtATimeIsOrderly` | backend/app/services/grading.py:206-344 | with runs and resubmissions excluding each other the essay is marked graded if and only if its latest version has a grade |
| `GradingRuns.EssayRow.GradeEssay` | backend/app/services/grading.py:118-344 | one call: which error or success, and the exact status and grades after it |
| `Grades.NewGradeOk` | backend/app/services/grading.py:237-305 | whatever the response, the new grade has one row per criterion, its total is the sum of its scores and lies between 0 and the maximum |
| `Grades.ClampEntriesExact` | backend/app/services/grading.py:307-330 | the new log holds one entry per clamped score, in row order, and nothing else |
| `Grades.NewGradeStores` | backend/app/services/grading.py:282-330 | the new grade holds, in order, each parsed score as AI and final score, 0 for a missing one, nothing of a teacher's, the summary, and one entry for each clamped score |
| `Grades.SumsAdd` | backend/app/services/grading.py:280-305 | total and maximum add up row by row |
| `GradeRuns.EveryGradeIsSound` | backend/app/services/grade.py:202-449 | over every run of overlapping edit requests and lockers: one row per criterion, scores in range, 0 <= total <= maximum, one lock entry exactly when locked |
| `GradeRuns.EveryLogIsSound` | backend/app/services/grade.py:511-566 | from any graded essay and over every run: the returned log is faithful all the way if and only if every commit is in place, the log in commit order if and only if every commit is up to date, final scores follow if and only if no commit splits a row, with a flush the total is right if and only if every commit is undisturbed; edits that do not overlap satisfy all of these |
| `GradeListing.ListedSorts` | backend/app/services/grade.py:553-566 | the returned log is the committed entries, ordered by the start of their transactions |
| `GradeListing.LogFaithful` | backend/app/services/grade.py:553-566 | from any state, the returned log stays faithful all the way if and only if every commit is in place |
| `GradeListing.CommitListed` | backend/app/services/grade.py:232-247 | one commit leaves the returned log faithful if and only if it is up to date, or, behind a later-begun write of the same thing, changes nothing and loaded what the log shows at its place |
| `GradeListing.InsertIntoLog` | backend/app/services/grade.py:553-566 | an entry put into the middle of a log keeps it faithful if and only if it starts from what comes before, what comes after does not rest on it, and the state becomes what the new log says |
| `GradeEdits.CommitOrderFaithful` | backend/app/services/grade.py:227-247 | in commit order the log stays faithful over a run if and only if every request that commits is up to date |
| `GradeEdits.WriteKeepsLog` | backend/app/services/grade.py:232-247 | one write keeps the log in commit order faithful if and only if what it changes is still as the request loaded it |
| `GradeEdits.FinalsFollow` | backend/app/services/grade.py:344-370 | over a run each final score is the teacher's if set and the AI's if not, all the way, if and only if no commit splits a row |
| `GradeEdits.FinalFollowsTeacher` | backend/app/services/grade.py:344-370 | one write leaves the final score apart from the teacher's if and only if it repeats the AI's score on a row loaded without a teacher score whose final score has changed since |
| `GradeTotals.FlushedTotals` | backend/app/services/grade.py:350-361 | over a run in which every request flushes, the total is right all the way if and only if every commit is undisturbed |
| `GradeTotals.FlushedWrite` | backend/app/services/grade.py:350-361 | one flushed write leaves the right total if and only if, when it writes the total, the other rows are worth what its SELECT showed, and, when it does not, the row already holds its score |
| `GradeRuns.SeparateEdits` | backend/app/services/grade.py:292-382 | when edits do not overlap every commit is up to date and in place, and with a flush the total stays the sum of the final scores |
| `GradeRuns.NoEditAfterLock` | backend/app/services/grade.py:420-449 | in every reachable state at a lock's commit, the grade is final if and only if no viable edit is in flight, and the least bound on the edits ever listed after the lock is the number of those begun after the locker, recorded or viable |
| `GradeListing.ListedLate` | backend/app/services/grade.py:553-566 | the edits listed after the lock are those whose transaction began after the locker's |
| `GradeEdits.LockedIsFinal` | backend/app/services/grade.py:397-449 | a locked grade never changes again if and only if no viable edit is in flight |
| `GradeEdits.LockedBound` | backend/app/services/grade.py:227-247 | on a locked grade, recorded edits and viable requests together never grow, whichever requests are counted by their start |
| `GradeEdits.LockedAttained` | backend/app/services/grade.py:227-247 | all viable requests in flight can still be recorded |
| `GradeSamples.EditMayFollowLock` | backend/app/services/grade.py:300-301 | a run over a one-criterion rubric in which a score changes after the grade was locked |
| `GradeSamples.EditListedAfterLock` | backend/app/services/grade.py:553-566 | a run in which an edit is listed after the lock although nothing is in flight when the lock commits |
| `GradeSamples.LogOutOfOrder` | backend/app/services/grade.py:553-566 | two up-to-date edits, one after the other, that are returned the wrong way round, so that the log ends with the overridden score |
| `GradeSamples.OverlapSplitsRow` | backend/app/services/grade.py:350-382 | two overlapping overrides that end with teacher score 3 and final score 5 |
| `GradeSamples.FlushedButWrong` | backend/app/services/grade.py:350-382 | two overlapping overrides of different rows that end with a wrong total in spite of the flush |
| `GradeRuns.ReplayRebuilds` | backend/app/services/grade.py:511-586 | after any run whose commits were in place, replaying the returned log over the AI's scores gives each stored score, comment, edited summary and the lock |
| `Grades.FlushedTotal` | backend/app/services/grade.py:350-361 | with a flush before the SELECT the total stays the sum of the final scores |
| `Grades.UnflushedTotal` | backend/app/services/grade.py:350-361 | without one, a score override leaves the right total if and only if it repeats the row's current score; otherwise it is off by exactly the change |
| `Grades.StaleTotal` | backend/app/services/grade.py:350-361 | a parsed response whose grade shows a wrong total after its first override |
| `Grades.OverrideChain` | backend/app/services/grade.py:344-380 | an override's before-value is the after-value of the row's previous override, or the AI's |
| `Grades.SummaryChain` | backend/app/services/grade.py:232-247 | a summary edit's old text is the new text of the previous one, or the AI's summary |
| `Grades.GradeRecord.constructor` | backend/app/services/grading.py:237-330 | the grading loop writes that grade |
| `Grades.GradeRecord.UpdateGradeFeedback` | backend/app/services/grade.py:227-249 | the summary and its log entry, or a refusal of a locked grade |
| `Grades.GradeRecord.OverrideCriterion` | backend/app/services/grade.py:292-382 | one call passes if and only if a score or a comment is given, the grade is unlocked, the row exists and a given score lies in its criterion's range; it stores what was given in that row and its entry in the log, and leaves everything else; each other call gets the error of the first check it fails and changes nothing |
| `Grades.OverrideVerdict` | backend/app/services/grade.py:292-341 | which requests pass, and which error every other one gets |
| `Grades.OverrideStores` | backend/app/services/grade.py:343-382 | what a request that passes stores, and what it leaves |
| `GradeRuns.PassesExactly` | backend/app/services/grade.py:292-341 | the same two checks as steps of a run: on loading the grade and on loading the row |
| `GradeRuns.CommitStores` | backend/app/services/grade.py:343-382 | in every run, the commit of a request that has read nothing stale stores what was given, and nothing else |
| `Grades.GradeRecord.LockGrade` | backend/app/services/grade.py:420-449 | the conditional update: one entry by whoever performs it, nothing otherwise |
| `RateLimit.LimitHolds` | backend/app/services/auth.py:112-129 | with INCR and EXPIRE as separate steps: at most `max` accepted per counter, and at most `2 * max - 1` in any span of one window |
| `RateLimit.BoundAttained` | backend/app/services/auth.py:125-129 | that bound is reached |
| `RateLimit.ExpiryNeverMoves` | backend/app/services/auth.py:125-129 | over every run, a set expiry never moves and the same counter goes on counting until it comes |
| `RateLimit.FullCounterReopens` | backend/app/services/auth.py:125-129 | a full counter ever accepts again if and only if its lifetime is set or still to be set |
| `RateLimit.LostExpiryBlocks` | backend/app/middleware.py:223-236 | a full counter whose EXPIRE was never sent refuses every later request |
| `RateLimit.CounterLost` | backend/app/services/auth.py:125-129 | a reachable run after which no request is ever accepted again |
| `RateLimit.RateLimiter.CheckRateLimit` | backend/app/services/auth.py:112-129 | one call: the new counter and the verdict, or nothing when limiting is off |
| `RefreshTokens.TokensConserved` | backend/app/services/auth.py:474-513 | over every interleaving each token is accepted at most once, and issued tokens are the disjoint sum of live, consumed, deleted and expired ones |
| `RefreshTokens.ChainsStayLinear` | backend/app/services/auth.py:660-692 | each login has at most one token live or refresh in flight, always for the user who logged in |
| `RefreshTokens.SpentForever` | backend/app/services/auth.py:488-505 | a used, revoked or expired token is refused for ever |
| `RefreshTokens.LogoutEndsSession` | backend/app/services/auth.py:703-732 | a logout ends the session if and only if it presents the live token |
| `RefreshTokens.LogoutDuringRefresh` | backend/app/services/auth.py:703-732 | a run in which a logout falls into a refresh and the session goes on with a new token |
| `RefreshTokens.ClosedForever` | backend/app/services/auth.py:474-513 | a session once ended never comes back |
| `RefreshTokens.TokenStore.RefreshAccessToken` | backend/app/services/auth.py:660-695 | one call: the presented token is spent in every outcome; a new one is stored exactly when the user exists and is verified or the bypass is on |
| `RefreshTokens.TokenStore.ConsumeRefreshToken` | backend/app/services/auth.py:488-505 | the token is removed and its user returned, if it was there |
| `RefreshTokens.TokenStore.DeleteRefreshToken` | backend/app/services/auth.py:508-513 | the token is removed and nothing else changes |
| `Insights.NormalisedScore` | backend/app/services/class_insights.py:114-124 | normalisation is monotone, 0 and 1 exactly at the ends of a proper range, can be undone inside it, and gives full credit on a degenerate one |
| `Insights.BucketIndex` | backend/app/services/class_insights.py:127-134 | the loop finds the bucket that encloses the score |
| `Insights.OneBucket` | backend/app/services/class_insights.py:127-134 | there is exactly one such bucket |
| `Insights.BuildDistribution` | backend/app/services/class_insights.py:137-145 | each count is the number of scores its bucket encloses |
| `Insights.CountsAddUp` | backend/app/services/class_insights.py:137-145 | the five counts sum to the data points |
| `Insights.RoundedBelow` | backend/app/services/class_insights.py:276-286 | a mean is listed after 4-decimal rounding exactly when it is below 0.59995 |
| `Insights.RoundedAway` | backend/app/services/class_insights.py:276-286 | one score of 12000 on a scale of 1 to 20001: the student is below the threshold and the skill is not listed |
| `Insights.LowMeanHasSource` | backend/app/services/class_insights.py:276-292 | a class mean below the threshold forces a student mean, or the mean of the rows without a student, below it |
| `Insights.IssueHasAffectedStudent` | backend/app/services/class_insights.py:285-299 | a common issue has an affected student when every row of the skill has one |
| `Insights.IssueWithoutStudent` | backend/app/services/class_insights.py:262-299 | two rows, one unassigned, that list an issue affecting nobody |
| `IssueBounds.IssueAlwaysAffects` | backend/app/services/class_insights.py:245-299 | for given owners of the rows and a given scale: every scoring gives each listed issue an affected student if and only if what keeps all students at the threshold is at least 0.59995 of the maximum |
| `IssueBounds.NeedByStudent` | backend/app/services/class_insights.py:285-292 | what keeps all students at the threshold is, per student, three fifths of the range times the student's rows, rounded up |
| `IssueBounds.FourAndOne` | backend/app/services/class_insights.py:285-299 | four students and one row without a student, on a scale of 1 to 5: an issue always affects somebody |
| `Insights.Aggregate` | backend/app/services/class_insights.py:245-265 | the single pass collects each skill's scores, each student's scores and the graded essays |
| `Insights.GetClassInsights` | backend/app/services/class_insights.py:245-302 | averages in skill order, one issue per low average and no other, worst first and equal ones in skill order, every skill with a score present |
| `ClassResponse.AverageFromRows` | backend/app/services/class_insights.py:267-283 | in every response an average is the mean of the shares of all rows about its skill, rounded to the nearest ten-thousandth, ties to even, with the number of those rows, of their students, and of the shares in each fifth |
| `ClassResponse.AveragesInOrder` | backend/app/services/class_insights.py:276-283 | of two averages the one with the larger mean is never the lower |
| `ClassResponse.SkillsFromRows` | backend/app/services/class_insights.py:245-275 | a skill is listed exactly when some row is about it |
| `ClassResponse.IssueFromRows` | backend/app/services/class_insights.py:285-299 | an issue is an average shown below 0.6 and counts exactly the students whose own shares have a mean below 0.6 |
| `ClassResponse.ListedInOrder` | backend/app/services/class_insights.py:272-302 | skills in string order; every average shown below 0.6 is an issue, once, the lowest first and equal ones in string order; every graded essay counted once |
| `ClassResponse.PickedOnce` | backend/app/services/class_insights.py:245-265 | the rows about a skill and their shares are determined by the rows |
| `Insights.InsightsAreConsistent` | backend/app/services/class_insights.py:267-302 | in every response histograms account for all data points and issues of fully assigned skills affect somebody, never more than contributed |

## Left out

- Text.NormalizeIdempotent: is about the steps after Unicode composition; composition itself and the
  character categories are parameters, because removing format characters can undo composition.
- Html.StripUndoesSanitize: starts from the events of Python's HTML parser; tokenising a document into
  events is not part of this model, and of the entity tables only the five escapes are fixed.
- TimelineEntries.AnalyzeWritingProcess: times are whole microseconds and fractions exact, so floating-point
  rounding is not modelled; reading a timestamp or an integer is an optional value.
- Resubmission.RunLeavesNoOrphans: assumes deletes succeed, as the code only logs when one fails, and
  that a commit reported as failed was not applied.
- GroupStore.RunsAreSerial: an edit reads and writes its group in one step; group ids, labels and
  computation times are not modelled, a group being its skill key.
- Parsing.ParseGradingResponse: starts from decoded JSON with finite numbers; `str()` of non-strings and
  `int()` of strings are parameters; an infinite score, which the code lets escape as an overflow, is
  outside the model.
- GradeRuns.EveryGradeIsSound: a request begins, loads the grade, loads the row, selects the final scores
  and commits in five steps; the columns of one commit are written together. Transactions have
  different start times, and those that begin before the grade exists are not modelled: the entries
  of clamped scores stand first, which changes nothing, as replaying them has no effect.
- RateLimit.LimitHolds: for limits of at least one, as all configured limits are; a key is dropped at its
  expiry time; the middleware's letting requests through when Redis fails is not modelled.
- RefreshTokens.TokensConserved: a new token is assumed never to have been issued before; expiry may
  happen at any time.
- Insights.GetClassInsights: scores are exact fractions; skill-name normalisation is an arbitrary function.
- Ownership and tenant checks, row-level security and the loading queries: the caller is the owner.
- GradingRuns.OneGradePerVersion: the insert of a grade and the commit that marks the essay are one step; a
  failed commit of a status update, and a task that fails otherwise than in the call of the model, are not
  modelled; the batch and assignment status are not either.
- File type detection and text extraction from PDF and DOCX; passwords, access tokens, email verification.
- Locking a grade also queues background tasks; the tasks themselves (skill profiles, worklist, revision
  comparison, embeddings, integrity reports, exports) are not modelled.
- The parsers of feedback, instruction, revision and copilot responses, and assignment analytics: the
  same patterns as the parts modelled.
