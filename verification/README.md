# vord: guardrails and history mining, modelled and proved in Dafny

vord is a static-analysis tool whose command line also decides whether what an autonomous agent
writes may count. This project models the stateful parts of that command line and proves what they
guarantee over every run, every agent and every input.

| module | models |
|---|---|
| `Holes` | Filling holes test-first: a green suite, a RED run, a red suite, a GREEN run, a green suite. The agent and the suite are arbitrary functions of everything that has happened so far, and each may rewrite the whole tree. A log keeps what was really run, so that the meaning of exit code 0 is stated over the log and not over the code that decides it. |
| `FinalTree` | What that exit code says of the tree left in the end, with and without a test gate: when a filled hole is still filled, when all are. |
| `KeptTests` | What it says of the tests written for the holes: when they are still in the end as they were when they failed. |
| `Guardrail` | The stores of the agent hook (single-use approvals, execution ledger, loop alarm, provenance ledger) as one state machine. Every store is proved equal to a predicate over the sequence of events; the policy may be a different one at every event. |
| `FindingsDiff` | Which findings a write is responsible for: an ordered multiset difference with a second rule for whole-file metrics, done by thinning a list in place. |
| `History`, `NumstatLog` | Churn and co-change counts from a commit log; and what is read back from a log printed by `git log --numstat`. |
| `Blame` | Reading `git blame --porcelain` (the porcelain format of git-blame(1)), and its round trip through a printer. |
| `HookInstall` | Merging hooks into an arbitrary JSON settings value. |
| `AppSpec` | App descriptions printed as `--entity` flags and parsed back. |
| `Correlate` | Mutation sites against a mutation engine's mutants: counters by rule and by file. |
| `Prune` | Removing generated files and their manifest entries. |
| `Defects` | The store of generator defects that hold a task back. |
| `Percentile` | Nearest-rank percentiles. |
| `Wrappers`, `Ordering`, `Sorting`, `Counting`, `Text`, `Json` | Options and results; the string order of sorted maps; a total-order sort; sums over sets; splitting, joining, trimming, decimal numbers; JSON values. |

Where the program changes state step by step the model is a class or a method with a loop, proved
equal to a function of its inputs or of its old state; the properties are then lemmas about that
function.

## What the code does not promise

Some of what the documentation says is not what the code does. The model follows the code, shows
an input on which the two part, and says when they agree.

- `vord agent fill` documents exit code 0 as "every attempted hole is filled". A hole is looked at
  only right after its own run, so a later run may open it again and the exit code is still 0:
  `FinalTree.ExitZeroMayLeaveAHolePending`; and so may the suite, in the check that accepts it:
  `FinalTree.SuiteMayReopenAHole`. The options under which all holes are certain to be filled in the
  end are given by `FinalTree.GuaranteedIff`, the projects by `FinalTree.ExitZeroMeansAllFilledIff`,
  and the single hole by `FinalTree.FilledHoleStaysFilledIff`. What exit code 0 says of the runs, in
  both directions, is `Holes.ExitZeroIffAllTestFirst`.
- Filling is documented to hold what RED wrote fixed. It is held fixed during GREEN only: the test of a
  later hole may overwrite it, `KeptTests.ExitZeroMayLoseATest`, and so may the suite,
  `KeptTests.SuiteMayRewriteATest`. The options under which no test is lost are given by
  `KeptTests.TestsAreKeptIff`, the single file by `KeptTests.TestFileStaysIff`.
- The loop alarm is documented to trip on three identical writes in a row. It counts hook events, and a
  write that lands is put to it before and after:
  `Guardrail.SecondLandedWriteTripsTheAlarm`, with the exact condition in
  `Guardrail.ThresholdIsThreeWritesIff`.
- An approval is documented to let one write through. It is used up by the judgement before the write
  lands, and the judgement after it denies the same write:
  `Guardrail.ApprovedWriteIsDeniedOnceItLanded`, with the exact condition in
  `Guardrail.ApprovalCoversOneJudgement`.
- `vord hook install` checks its `Edit|Write` matcher loosely, to respect a user who narrowed it. Any
  group running the command passes for it, the `Bash` group of `PostToolUse` included, and then
  writes are never judged after the fact: `HookInstall.BashGroupStandsInForEditWrite`, with the
  exact condition in `HookInstall.EditWriteIsWiredIff`.
- `vord prune` documents that it refuses a target that would take filled holes with it. It looks
  only at files the manifest records: `Prune.PruneTakesUnrecordedCode`, with the exact condition in
  `Prune.TakesNoFilledHoleIff`.
- Whole-file rules are documented to report at most one finding per file and rule. The class metrics
  report one per class, and all are dropped for a single one that was there before:
  `FindingsDiff.NewClassOverTheLimitIsDropped`. Which findings of such a rule survive is exactly
  `FindingsDiff.WholeFileRuleIsAllOrNothing`.
- Blame details do not all survive the round trip: `Blame.BlankBeforeTheNameIsLost`, with the exact
  condition in `Blame.RoundTripIff`.
- The execution ledger is described as recording every write that landed on a path that has to be
  proven. A write whose judgement did not complete is not recorded, and `Stop` lets the agent finish:
  `Guardrail.UnjudgedWriteDoesNotBlockStop`, with the exact condition in
  `Guardrail.LandedWriteIsRecordedIff`.

## Model

| member | source | states |
|---|---|---|
| Holes.ExitZeroIffAllTestFirst | bin/cli/src/holes.rs:537-712 | Under a test gate, whatever the agent and the suite do: exit code 0 if and only if the log is, for each selected hole in order and with nothing else in it, a green suite, a run told to write a test that wrote something and left the hole open, a red suite, a run told to make exactly those files pass that closed the hole and left every one of them as it was, and a green suite. The log is a chain: each run started on the tree the one before left |
| Holes.ExitCodeTells | bin/cli/src/holes.rs:537-712 | In both modes, over the log: the exit code is 0 if and only if every selected hole was filled as that mode demands, 1 if and only if an agent run failed, 3 if and only if neither; and a failed run is the last run |
| Holes.RedGreenTells | bin/cli/src/holes.rs:573-670 | One hole: the log grows by the runs made for it, and the attempt says of them what really happened. Each refusal names its own reason: the suite's own output, exactly the files RED wrote, exactly the ones GREEN changed |
| Holes.ExplainsDecides | bin/cli/src/holes.rs:345-349 | An attempt counts as done exactly when its runs fill the hole test-first; otherwise no continuation of them would |
| Holes.GreenPhaseTells | bin/cli/src/holes.rs:635-670 | The same for GREEN, started after any sound RED phase |
| Holes.FillAllTells | bin/cli/src/holes.rs:537-569 | The batch over any list of holes from any state: at most five runs a hole, and exit code 0 exactly when they fill all of them test-first |
| Holes.RunsOfHole | bin/cli/src/holes.rs:573-670 | The i-th hole's runs are the i-th five of such a log |
| Holes.ChangedIsWrote | bin/cli/src/holes.rs:453-459 | A path is reported changed exactly when it is visible afterwards with a fingerprint it did not have before |
| Holes.TouchedIsWhatDiffers | bin/cli/src/holes.rs:646-656 | The RED files held against GREEN are exactly those whose fingerprint differs, removed ones included, and there are none exactly when all were kept |
| Holes.SelectTakesTheFirstWanted | bin/cli/src/holes.rs:518-527 | The selection is what was asked for, in scan order, cut off at the limit |
| Holes.WantedIff | bin/cli/src/holes.rs:521-524 | A hole is asked for by its name, or by what stands after a blank at the end of it |
| Holes.PendingIffListed | bin/cli/src/holes.rs:304-319 | A hole is pending exactly while the scanner of its file, empty if it is not there, or of the Wasp file declaring it, lists one with its file, name and export |
| Holes.AttemptsFollowSelection | bin/cli/src/holes.rs:537-569 | Attempts are a prefix of the selection; only the last one can have failed or found the suite red; if a hole was left out, it did |
| Holes.ExitZeroAttemptsEverything | bin/cli/src/holes.rs:537-569 | Exit code 0: every selected hole was attempted, in order |
| FinalTree.GuaranteedIff | bin/cli/src/holes.rs:698-712 | From the options alone: exit code 0 means that every selected hole is filled in the end, for every project, agent and suite (or every suite that changes nothing), if and only if the limit is zero, or it is one and, under a gate, the suite changes nothing |
| FinalTree.ExitZeroMeansAllFilledIff | bin/cli/src/holes.rs:537-569 | For one project whose selected holes are open and can be opened and filled independently, in both modes: exit code 0 means that all are filled in the end, under every agent and every suite that changes nothing, if and only if at most one is selected |
| FinalTree.FilledHoleStaysFilledIff | bin/cli/src/holes.rs:304-319 | In both modes, for marker and Wasp holes alike: with exit code 0 a selected hole is pending in the end if and only if some run after the one that closed it reopened it and none closed it again |
| FinalTree.LastHoleStaysFilled | bin/cli/src/holes.rs:537-569 | With exit code 0 the last selected hole is filled in the end, under a gate if the suite changes nothing |
| FinalTree.LastSuiteRunIsGreen | bin/cli/src/holes.rs:656-662 | With exit code 0 under a gate the last run of all is a green suite run that left the tree that is left; if the suite changes nothing, it ran on that very tree |
| FinalTree.StrategyLeavesOnlyTheLastFilled | bin/cli/src/holes.rs:537-569 | An agent that fills each hole test-first and reopens the others ends with exit code 0 and only the last hole filled, in any project it can do that in |
| FinalTree.ExitZeroMayLeaveAHolePending | bin/cli/src/holes.rs:698-712 | The input: two holes, an agent that fills the second and reopens the first; exit code 0 and the first is pending, with and without a gate |
| FinalTree.SuiteMayReopenAHole | bin/cli/src/holes.rs:656-662 | The input: one hole, and a suite that reopens it in the check after GREEN; exit code 0 and it is pending |
| FinalTree.TwoHolesAreIndependent | bin/cli/src/holes.rs:304-319 | Two holes in two files can be opened and filled independently |
| KeptTests.TestsAreKeptIff | bin/cli/src/holes.rs:646-656 | From the options alone: exit code 0 under a gate means that everything every RED run wrote is in the end as it was when it failed, for every project, agent and suite (or every suite that changes nothing), if and only if the limit is zero, or it is one and the suite changes nothing |
| KeptTests.TestFileStaysIff | bin/cli/src/holes.rs:646-656 | With exit code 0, a file RED wrote has in the end the fingerprint RED gave it if and only if no run after GREEN changed that for good |
| KeptTests.ExitZeroMayLoseATest | bin/cli/src/holes.rs:606-607 | The input: two holes whose tests go into one file; exit code 0, and the test written for the first is gone |
| KeptTests.SuiteMayRewriteATest | bin/cli/src/holes.rs:656-662 | The input: one hole, and a suite that rewrites its test in the check after GREEN |
| Holes.ExitZeroIffAllFilledUngated | bin/cli/src/holes.rs:543-553 | Without a gate: exit code 0 if and only if the log is one run for each selected hole, which did not fail and closed it |
| Holes.Workspace.FillTestFirst | bin/cli/src/holes.rs:573-670 | The procedure over the changing tree does what the specification does to state, log and result |
| Holes.Workspace.Fill | bin/cli/src/holes.rs:537-569 | The loop over the selection, with its early stop, does what the specification does |
| Guardrail.LetThroughIff | bin/cli/src/hook.rs:1773-1804 | In any run: a judgement lets a write through on a token exactly when some violation escalates and none denies, the token is the one made of them, and that token was approved and no write has been let through on it since |
| Guardrail.WhatIsJudged | bin/cli/src/hook.rs:1714-1768 | In any run, what the policy is given for a judged write: nothing for no text; all findings if there was no text before; otherwise, in order, of each ordinary rule and message the number beyond that in the text before, and of the two whole-file rules all or none; and what the other checks add |
| Guardrail.VerdictWithoutApproval | bin/cli/src/hook.rs:200-208 | In any run, a judgement that used no approval is silent on no violations, a denial with all of them if one denies or escalates, and advice with all of them otherwise |
| Guardrail.HardDenialIsFinal | bin/cli/src/hook.rs:1776-1782 | In any run: a judgement holding a hard denial stays denied with all its violations and uses up no approval |
| Guardrail.ApprovalsAreUnusedApprovals | bin/cli/src/hook.rs:363-394 | A token stands approved exactly when it was approved and not used since |
| Guardrail.ApprovedAgainInBetween | bin/cli/src/hook.rs:386-394 | Between two judgements that let a write through on one token, that token was approved again |
| Guardrail.LetThroughsNeverExceedApprovals | bin/cli/src/hook.rs:386-394 | Judgements that let a write through on a token, plus one if it still stands, never outnumber its approvals |
| Guardrail.ApprovalCoversOneJudgement | bin/cli/src/hook.rs:386-394 | After a write was let through on a token, and until that is approved again, a judgement is a denial exactly when something blocks it, unless escalations alone do and their token is another one that stands approved |
| Guardrail.ApprovedWriteIsDeniedOnceItLanded | bin/cli/src/hook.rs:1783-1804 | The input: a write with one finding under a policy that escalates what is found; approved, let through before it lands, and denied by the hook after it |
| Guardrail.LetThroughLeavesTheWarnings | bin/cli/src/hook.rs:1792-1804 | After an approval is used the verdict is never a denial: it is the warnings alone, or silence |
| Guardrail.TokenIsOfTheEscalatingMultiset | bin/cli/src/hook.rs:343-358 | The token depends on the path and on how often each finding is escalated, and on nothing else |
| Guardrail.TokenIgnoresOthers | bin/cli/src/hook.rs:343-358 | A violation that does not escalate, wherever it stands, makes no difference to the token |
| Guardrail.TokenIgnoresOrder | bin/cli/src/hook.rs:343-358 | The order of the violations makes no difference to the token |
| Guardrail.TokenIffSomethingEscalates | bin/cli/src/hook.rs:343-352 | There is a token exactly when some violation escalates a finding |
| Guardrail.TokensTellFindingsApart | bin/cli/src/hook.rs:343-358 | Under a digest that tells texts apart, findings of one rule have the same token only for the same path, line and message |
| Guardrail.PendingMeansUnproven | bin/cli/src/hook.rs:1410-1481 | With the policy free to change at every event: the ledger holds a path exactly when it was written after the fact while the policy then in force required tests for it, and no crediting test run came since |
| Guardrail.StopBlocksIffSomethingIsUnproven | bin/cli/src/hook.rs:1494-1567 | `Stop` blocks exactly when the policy now in force is enabled and requires tests for some unproven path, and names exactly those paths, each with the pattern and reason that policy has for it |
| Guardrail.LandedWriteIsRecordedIff | bin/cli/src/hook.rs:2090-2097 | In any run, a landed write to a path that has to be proven is in the ledger afterwards exactly when its judgement completed or the path was there already; it completes exactly when every analysis it needs does |
| Guardrail.UnjudgedWriteDoesNotBlockStop | bin/cli/src/hook.rs:2090-2097 | The input: such a write whose content cannot be analysed, and `Stop` after it answers nothing |
| Guardrail.EvidenceIsInPathOrder | bin/cli/src/hook.rs:1509-1510 | Blocked paths are listed in ascending order, none twice |
| Guardrail.FindExitCode | bin/cli/src/hook.rs:1442-1456 | The loop over the keys finds the integer under the first of the six that holds one of 64 bits, and finds none exactly when none does |
| Guardrail.ExitCodeIsReported | bin/cli/src/hook.rs:1442-1456 | The same of the specification, for any response: `exit_code`, `exitCode`, `returncode`, `return_code`, `status`, `code`, in this order |
| Guardrail.FailingRunClearsNothing | bin/cli/src/hook.rs:1432-1481 | In any run, a finished command whose reported code is not 0 leaves the ledger as it was |
| Guardrail.RunsTestsIff | bin/cli/src/hook.rs:1424-1430 | A command is a test run exactly when, in lower case, it contains a pattern that is not empty |
| Guardrail.CountIsTheLongestStreak | bin/cli/src/hook.rs:400-484 | The loop counter is the length of the longest run of equal signatures put to the alarm since the last reset, up to now |
| Guardrail.AlarmTripsOnThreeEqualJudgements | bin/cli/src/hook.rs:421-426 | The alarm trips on a judgement exactly when the last three signatures put to it since the reset are the same |
| Guardrail.SignatureIsOfPathAndContent | bin/cli/src/hook.rs:428-433 | Equal path and text give equal signatures, whatever else differs; under a digest that tells texts apart, nothing else does |
| Guardrail.AlarmTripsOnThreeEqualWrites | bin/cli/src/hook.rs:396-426 | The alarm trips on a judgement when the last three writes put to it since the reset have one path and one text; and, under a digest that tells texts apart, only then |
| Guardrail.LandedWritesCountTwice | bin/cli/src/hook.rs:461-472 | A write that lands is put to the alarm by the hook before and by the hook after it: after n attempts at a write, l of which landed, the counter is n + l |
| Guardrail.ThresholdIsThreeWritesIff | bin/cli/src/hook.rs:400-404 | Counted in attempts at one write, the threshold is three exactly unless there were two and one of them landed |
| Guardrail.SecondLandedWriteTripsTheAlarm | bin/cli/src/hook.rs:2083-2084 | The input: a write that landed, made again; the alarm has tripped before it lands the second time |
| Guardrail.TouchedMeansEverJudged | bin/cli/src/hook.rs:97-144 | The provenance ledger holds exactly the paths of completed judgements, denied or not |
| Guardrail.JudgedAiTouchedIffJudgedBefore | bin/cli/src/hook.rs:1767-1770 | A judgement applies the stricter threshold exactly when an earlier one targeted its path |
| Guardrail.TouchedOnlyGrows | bin/cli/src/hook.rs:135-144 | Nothing leaves the provenance ledger |
| Guardrail.Repository.Judge | bin/cli/src/hook.rs:1707-1804 | The judgement's effect on the ledgers and its verdict are the specification's |
| Guardrail.Repository.ClaudeCodeWrite | bin/cli/src/hook.rs:2063-2100 | Handling a hook event answers as specified and keeps every store equal to its meaning over the history |
| Guardrail.Repository.RunCheck | bin/cli/src/hook.rs:2112-2135 | The same for `hook check` |
| Guardrail.Repository.JudgeAgentWrite | bin/cli/src/agent.rs:56-79 | The same for vord's own agent, which tracks the loop after the judgement |
| Guardrail.Repository.ClaudeCodeBash | bin/cli/src/hook.rs:2021-2031 | The same for a finished command |
| Guardrail.Repository.ClaudeCodeStop | bin/cli/src/hook.rs:1553-1567 | The same for `Stop`, which changes no store |
| Guardrail.Repository.ApproveEscalation | bin/cli/src/hook.rs:389-394 | The same for an approval |
| Guardrail.Repository.ResetLoopGuard | bin/cli/src/hook.rs:477-484 | The same for a reset of the loop alarm |
| FindingsDiff.SurvivorCount | bin/cli/src/hook.rs:1607-1637 | Of an ordinary (rule, message), exactly as many occurrences survive as the new list has beyond the old one |
| FindingsDiff.LaterOccurrencesSurvive | bin/cli/src/hook.rs:1602-1606 | Of one (rule, message), the survivors are the last occurrences |
| FindingsDiff.SurvivorPositions | bin/cli/src/hook.rs:1624-1636 | Survivors are elements of the new list at ascending positions |
| FindingsDiff.NewAtMembers | bin/cli/src/hook.rs:1624-1636 | Those positions are exactly those of findings beyond what the old list accounts for |
| FindingsDiff.WholeFileRuleIsAllOrNothing | bin/cli/src/hook.rs:1625-1627 | A whole-file metric survives entirely if the old list lacks its rule, and not at all otherwise |
| FindingsDiff.SurvivorsAreBeyond | bin/cli/src/hook.rs:1576-1637 | All of this together, by rule and message and with the two whole-file rules named |
| FindingsDiff.NewClassOverTheLimitIsDropped | bin/cli/src/hook.rs:1568-1575 | The input: one class over the metrics limit in the old content, that one and another in the new; nothing is blamed on the write |
| FindingsDiff.DropTwice | bin/cli/src/hook.rs:1607-1637 | Dropping against one list and then another is dropping against both together |
| FindingsDiff.OldListIsAMultisetOfKeys | bin/cli/src/hook.rs:1592-1606 | Only the multiset of (rule, message) pairs of the old list matters: not its order, not its lines |
| FindingsDiff.LinesDoNotMatter | bin/cli/src/hook.rs:1592-1606 | Moving the new findings to other lines changes nothing but the lines |
| FindingsDiff.NothingSurvivesIffCovered | bin/cli/src/hook.rs:1578-1581 | Nothing survives exactly when the old list has every ordinary pair as often and every whole-file rule |
| FindingsDiff.NothingSurvivesAgainstItself | bin/cli/src/hook.rs:1578-1581 | A write that leaves the findings as they were is blamed for none |
| FindingsDiff.MoreHistoryNeverAddsASurvivor | bin/cli/src/hook.rs:1607-1637 | With a longer old list what is left is a subsequence of what was left |
| FindingsDiff.CountKeys | bin/cli/src/hook.rs:1614-1622 | The counter map holds every ordinary pair's number of occurrences |
| FindingsDiff.Consume | bin/cli/src/hook.rs:1624-1636 | One step drops a finding exactly when the old list still accounts for it, and leaves the counters right for the rest |
| FindingsDiff.FindingList.DropPreexisting | bin/cli/src/hook.rs:1607-1637 | Thinning the list in place leaves exactly the survivors, in order |
| NumstatLog.PrintedLogIsMinedExactly | bin/cli/src/history.rs:30-78 | For every list of commits printed with its files and line counts: a file's count is the number of commits that changed it, its churn the lines added and deleted there; a pair's count is the number of commits of at most 30 files that changed both. Binary files count no lines, nor does a number beyond 64 bits; renames count nothing |
| NumstatLog.EntryReads | bin/cli/src/history.rs:43-55 | A printed file line is read as its path and its lines added plus deleted; with `=>` in the path it is skipped |
| NumstatLog.CommitAddsAGroup | bin/cli/src/history.rs:37-57 | A printed commit is read as one more group holding the files it changed |
| History.PairsAreThoseCounted | bin/cli/src/history.rs:60-78 | The recorded pairs are exactly the ordered ones with a positive count |
| History.TogetherAtMostAsOftenAsEither | bin/cli/src/history.rs:60-78 | Two files are together at most as often as either is touched |
| History.FileAtMine | bin/cli/src/history.rs:34-79 | A file has the number of groups listing it, once a group, and its churn; zero if it is not listed |
| History.MineOfConcat | bin/cli/src/history.rs:34-79 | A log followed by one that starts with a commit counts as the sum of the two |
| History.CommitOrderDoesNotMatter | bin/cli/src/history.rs:34-79 | Commits may be listed in any order |
| History.TotalCoChangeWeight | bin/cli/src/history.rs:60-78 | All pair counts together are n(n - 1)/2 for each group of n files, n at most 30 |
| History.Miner.Flush | bin/cli/src/history.rs:60-78 | Flushing counts the group once for each file and each ordered pair, and empties it |
| History.ParseNumstat | bin/cli/src/history.rs:34-79 | The streaming loop over any lines computes those counts |
| History.MarkerIff | bin/cli/src/history.rs:38-41 | Any line is a commit marker exactly when it starts with `@@commit ` |
| History.FileLineReads | bin/cli/src/history.rs:42-55 | Any line of two columns and a path that is no rename is read as that path and the sum of the columns |
| History.OnlyFileLinesTouch | bin/cli/src/history.rs:42-50 | No other line is read as a file |
| Ordering.LessIffFirstDifference | bin/cli/src/history.rs:69-75 | The order of ordered sets and maps of strings: by the first character that differs, a prefix first |
| Blame.RoundTrip | bin/cli/src/blame.rs:74-118 | Printing any attribution, commits interleaved in any order with details only at the first appearance, and reading it gives back one result a line, in order, with each commit's own details |
| Blame.GitsOwnLinesAreIgnorable | bin/cli/src/blame.rs:106-114 | The `filename`, `previous` and `boundary` lines of the porcelain format are read as nothing, so the round trip holds with them |
| Blame.RoundTripIff | bin/cli/src/blame.rs:74-118 | What is read back is the attribution that was printed if and only if every commit in it has a trimmed name and summary and an address with no bracket of its own at its ends |
| Blame.BlankBeforeTheNameIsLost | bin/cli/src/blame.rs:110-112 | The input: an author whose name begins with a blank is read back without it |
| Blame.NormalIsIdentityIff | bin/cli/src/blame.rs:63-68 | Details come back unchanged exactly when name and summary are trimmed and the address has no bracket of its own at its ends |
| Blame.StripAngleBracketsIsInverseIff | bin/cli/src/blame.rs:63-68 | Stripping undoes bracketing exactly for such addresses |
| Blame.HeaderTextReads | bin/cli/src/blame.rs:47-59 | A printed header, with or without a group size, is read as its sha and final line |
| Blame.HeaderIff | bin/cli/src/blame.rs:47-59 | Any line is read as a header of a sha and a number exactly when it starts with those forty hexadecimal digits, one more word and that number of at most 32 bits |
| Text.UnsignedIff | bin/cli/src/blame.rs:54-54 | A number is digits, perhaps after a plus sign, whose value is not beyond the limit |
| Blame.BareHeaderTellsNothing | bin/cli/src/blame.rs:82-92 | A line of a commit no details were given for has empty texts and time 0 |
| Blame.BadTimeIsZero | bin/cli/src/blame.rs:108-109 | A time that is no number is read as 0 |
| Blame.ResultsFollowTheLatestHeader | bin/cli/src/blame.rs:79-94 | On any input each result comes from a content line, in order, and carries the most recent header; there are no more results than content lines |
| Blame.CurrentIsTheLastHeader | bin/cli/src/blame.rs:96-100 | That header is the last header line before it |
| Blame.ParsePorcelainBlame | bin/cli/src/blame.rs:74-118 | The loop over any lines computes those results |
| HookInstall.MergeIsIdempotent | bin/cli/src/hook_install.rs:178-219 | A second merge changes nothing and reports false, for every JSON value and command |
| HookInstall.ChangedIffDifferent | bin/cli/src/hook_install.rs:172-177 | A change is reported exactly when the value differs |
| HookInstall.MergeIsAdditive | bin/cli/src/hook_install.rs:178-219 | Other keys, other events and every group already there, in its place, are kept; every listed event ends with its hook installed |
| HookInstall.MergeByEvent | bin/cli/src/hook_install.rs:165-219 | What each event's groups are afterwards, the two matchers on one event included |
| HookInstall.MergeIntoNothing | bin/cli/src/hook_install.rs:165-216 | Settings without hooks get four groups, each on its event with its matcher and one hook: this command, of type `command`, bounded to 30 seconds |
| HookInstall.NothingToAddIffInstalled | bin/cli/src/hook_install.rs:193-216 | Nothing is added exactly when every listed hook is installed |
| HookInstall.NarrowedHookIsRespected | bin/cli/src/hook_install.rs:225-229 | `PreToolUse` is left as it is if any of its groups runs the command |
| HookInstall.ExactMatchersAreWired | bin/cli/src/hook_install.rs:231-237 | `Bash` and `Stop` always end with a group of exactly their matcher |
| HookInstall.EditWriteIsWiredIff | bin/cli/src/hook_install.rs:238-256 | The matcher for edits and writes ends with a group of its own exactly when it had one or no group of the event ran the command |
| HookInstall.BashGroupStandsInForEditWrite | bin/cli/src/hook_install.rs:238-256 | Settings for which it does not |
| HookInstall.MergeHooks | bin/cli/src/hook_install.rs:178-219 | The mutating loop computes that merge |
| AppSpec.RoundTripIffValid | bin/cli/src/app_spec.rs:43-66 | Printing a description as flags and parsing them gives it back if and only if it is valid |
| AppSpec.AcceptedFlagsNormalise | bin/cli/src/app_spec.rs:43-66 | Whatever flags are accepted, what they were read as is valid, prints and parses back to itself |
| AppSpec.NoProblemIffValid | bin/cli/src/app_spec.rs:76-104 | Validation passes exactly when there is an entity, every entity has a good name and a field, and every field a good name other than `id` and a known type |
| AppSpec.Validate | bin/cli/src/app_spec.rs:76-104 | The nested loops with early exit report the first problem in key order |
| AppSpec.ParseEntityFlags | bin/cli/src/app_spec.rs:45-66 | The loops over flags and pairs compute the specified parse, the first bad flag deciding |
| AppSpec.EntityArguments | bin/cli/src/mcp.rs:250-269 | The loops over entities and fields print the specified flags, each after its option |
| Correlate.SitesAreConserved | scripts/correlate-mutation.py:95-117 | Sites summed by rule, by file and the input agree; matched sites by rule, by file and the list of them agree |
| Correlate.VerdictsAreConserved | scripts/correlate-mutation.py:101-112 | Killed, survived, uncovered and other over all rules are together the number of overlapping pairs in one file |
| Correlate.VerdictsPartitionHits | scripts/correlate-mutation.py:105-112 | Each overlapping mutant has exactly one verdict; a site is matched exactly when it has one |
| Correlate.VerdictsCountStatuses | scripts/correlate-mutation.py:105-112 | Killed counts the statuses `killed` and `timeout`, survived `survived`, uncovered `no-coverage` |
| Correlate.NearIffSomeLine | scripts/correlate-mutation.py:78-102 | A mutant overlaps a site exactly when one of its lines is within the tolerance of the site's |
| Correlate.IndexAgreesWithFullScan | scripts/correlate-mutation.py:85-101 | Looking only at the file's own mutants counts what a scan of all pairs counts |
| Correlate.ToleranceIsMonotone | scripts/correlate-mutation.py:78-99 | A wider tolerance never lowers a count |
| Correlate.IndexByFile | scripts/correlate-mutation.py:85-87 | The index holds each file's mutants, in order |
| Correlate.CorrelateSites | scripts/correlate-mutation.py:82-117 | The nested loops over the index compute the tables of a full scan and the matched sites in order |
| Prune.PruneOnSuccess | bin/cli/src/prune.rs:17-73 | On success manifest, files and directories lose exactly what is at or under a target, the rest unchanged; unforced, no recorded file taken had more holes than were pending in it at the start |
| Prune.ManifestLosesExactlyTheTargets | bin/cli/src/prune.rs:56-58 | The same for the manifest, whatever the files |
| Prune.RefuseNoneIff | bin/cli/src/prune.rs:21-50 | A target is taken exactly when it is inside the project, not vord's own, exists, has recorded files under it and, unless forced, none of them has a filled hole |
| Prune.RefusalTells | bin/cli/src/prune.rs:21-50 | Each refusal stands for its own case, in this order: outside the project, vord's own, missing, nothing recorded, a filled hole in the first file that has one |
| Prune.RelativeIs | bin/cli/src/prune.rs:22-22 | A target is the path without any `./` before it and any slash after it |
| Prune.UnderIff | bin/cli/src/prune.rs:33-33 | A file is under a path that is it, or that it continues after a slash |
| Prune.TakesNoFilledHoleIff | bin/cli/src/prune.rs:14-50 | An unforced prune spares all filled holes exactly when none lies under a target in an unrecorded file |
| Prune.PruneTakesUnrecordedCode | bin/cli/src/prune.rs:14-50 | A prune, not forced, that takes a filled hole with it |
| Prune.LogGainsTheNewPaths | bin/cli/src/prune.rs:61-70 | The log keeps its content, gains exactly the removed paths it lacked, and repeats none of them |
| Prune.Project.PruneTargets | bin/cli/src/prune.rs:17-73 | The loop over targets computes that; on failure earlier targets' files are gone while manifest and log are as they were |
| Defects.ReachableStores | bin/cli/src/generator_defects.rs:54-90 | In every reachable store the i-th defect has id i + 1 and no two open ones are for the same engine, file and reason |
| Defects.ReportIsRecordedOnce | bin/cli/src/generator_defects.rs:54-77 | A report with a reason is answered with an open defect that says it; it is a new one with the next id exactly when none was open already |
| Defects.BlankReportIsRefused | bin/cli/src/generator_defects.rs:54-57 | A report is refused, and changes nothing, exactly when its reason is all blanks |
| Defects.OpenIffReportedNotClosed | bin/cli/src/generator_defects.rs:54-90 | A defect is open exactly when some report was given its id and it was not closed since |
| Defects.BlockedIffSomethingIsUnclosed | bin/cli/src/generator_defects.rs:93-107 | A task is held back exactly while such a defect exists, and is told exactly those |
| Defects.Store.ReportDefect | bin/cli/src/generator_defects.rs:54-77 | The search and the push do that |
| Defects.Store.CloseDefect | bin/cli/src/generator_defects.rs:81-90 | Closing changes the status of the first defect with the id, or reports that there is none |
| Percentile.PercentileSplitsTheSample | benches/src/lib.rs:10-18 | The result is a value of the sample with at least rank + 1 values at or below it and n - rank at or above it; 0 for no sample |
| Percentile.RankIsAPosition | benches/src/lib.rs:10-18 | The rank is at most n - 1, so the clamp does nothing; 0 and 100 are the ends |
| Percentile.RankIsNearest | benches/src/lib.rs:16-16 | The rank is the position nearest to p percent of the way, the upper one of two equally near |
| Percentile.PercentileIgnoresOrder | benches/src/lib.rs:10-18 | The order of the sample does not matter |
| Percentile.PercentileIsMonotone | benches/src/lib.rs:10-18 | A higher percentile is never a smaller value |

## Left out

- Finding holes: the marker and Wasp scanners, the walk of the tree and the file fingerprint are parameters of `Holes`, and nothing is claimed about their insides or about colliding fingerprints.
- Refusal texts: `Holes` has a constructor for each refusal; "suite red before start" is recognised by its constructor where the program compares the start of the text.
- A run that cannot be carried out at all (a process that does not start, a timeout that cannot be enforced) ends a batch with an error and leaves no entry in the log.
- Policy evaluation, glob matching, scenario evidence, the analyzers and the content-pair checks are parameters of `Guardrail`; so are hashing and lower-casing. That tokens or signatures of different writes differ is claimed only for a digest that tells texts apart, which no hash of 64 bits does for all of them.
- Reading and saving the stores: a save is taken to succeed, and a store is never missing, unreadable or edited by hand between events.
- Events are handled one at a time. The program loads, changes and saves its stores without a lock, so of two hooks at once one may lose the other's change; `LetThroughsNeverExceedApprovals` and the other run properties are about events in sequence.
- The circuit breaker, the audit log, and the text and JSON of denials and advisories.
- Paths as given to the hook are already relative to the repository and normalised.
- Counters are unbounded; the `u32` counts of commits, pairs, defect ids and the loop alarm and the `u64` churn would overflow first.
- Splitting a text into lines: `History`, `NumstatLog` and `Blame` start from the lines. Text is a sequence of Unicode characters, never an invalid one.
- `git` itself, its processes and time-outs.
- `Blame.RoundTrip`: entries with a 40-digit hexadecimal sha, a line number that fits 32 bits, a time that fits 64 bits signed, and extra lines that are not themselves detail, header or content lines, which `GitsOwnLinesAreIgnorable` shows of those `git` prints.
- JSON numbers other than integers are only told apart from them; the order of an object's keys is not modelled, so the flags of `AppSpec.EntityArguments` come in key order.
- The command-line parser between the printed `--entity` arguments and the flags it hands on, and the type errors of arguments that are not objects of strings.
- `Sorting.Sort` and `Percentile.Percentile`: the library's in-place sort is a function on sequences; `SortedIsUnique` makes the result the only one possible.
- `Percentile.Percentile` is over reals: rounding of `f64` and values that are no number are not modelled.
- Sets kept in sorted containers are sets, gone through in sorted order.
- `Prune.PruneOnSuccess`: files are leaves of the tree (nothing lies under a file) and every path has one spelling; deleting is taken to succeed. Only the success case has a full property.
- Reading the mutation report and the findings file, and rendering the tables of the correlation script.
- Templates, wizards, the language server, reports, flow and CRAP scoring, and the rest of the analyzer.
