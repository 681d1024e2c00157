/** The guardrail around an agent's writes: single-use approvals, the ledger of writes not
    yet proven by a test run, the loop alarm and the provenance ledger.

    Each store is a summary of what has happened. The functions here say how one event
    changes the stores; the lemmas say what each store means in terms of the events alone. */
module Guardrail {
  import opened Wrappers
  import opened FindingsDiff
  import opened Json
  import Ordering
  import Sorting
  import Text

  // ----- policy and its evaluation -----

  datatype Enforcement = Deny | Warn | Escalate

  datatype Violation = Violation(enforcement: Enforcement, finding: Option<Finding>)

  datatype Provenance = Unestablished | AiTouched

  /** The policy in force at one event. Glob matching and rule evaluation are not looked into. */
  datatype Policy = Policy(
    enabled: bool,
    testRequired: seq<(string, string)>,
    globMatches: (string, string) -> bool,
    testCommandPatterns: seq<string>,
    evaluate: (string, seq<Finding>, Provenance, bool) -> seq<Violation>)

  /** The first `[[test_required]]` (pattern, reason) that covers `path`. */
  function FirstCovering(policy: Policy, requirements: seq<(string, string)>, path: string): Option<(string, string)> {
    if requirements == [] then None
    else if policy.globMatches(requirements[0].0, path) then Some(requirements[0])
    else FirstCovering(policy, requirements[1..], path)
  }

  function TestRequiredReasonFor(policy: Policy, path: string): Option<(string, string)> {
    FirstCovering(policy, policy.testRequired, path)
  }

  /** The policy requires tests for `path`. */
  ghost predicate MustBeProven(policy: Policy, path: string) {
    exists k :: 0 <= k < |policy.testRequired| && policy.globMatches(policy.testRequired[k].0, path)
  }

  /** The k-th requirement is the first one that covers `path`. */
  ghost predicate FirstFor(policy: Policy, path: string, k: nat) {
    && k < |policy.testRequired| && policy.globMatches(policy.testRequired[k].0, path)
    && forall i :: 0 <= i < k ==> !policy.globMatches(policy.testRequired[i].0, path)
  }

  lemma {:induction false} FirstCoveringFinds(policy: Policy, requirements: seq<(string, string)>, path: string)
    returns (k: nat)
    ensures k <= |requirements| && forall i :: 0 <= i < k ==> !policy.globMatches(requirements[i].0, path)
    ensures k < |requirements| ==> policy.globMatches(requirements[k].0, path)
    ensures FirstCovering(policy, requirements, path) == if k < |requirements| then Some(requirements[k]) else None
  {
    if requirements == [] || policy.globMatches(requirements[0].0, path) {
      k := 0;
    } else {
      var rest := FirstCoveringFinds(policy, requirements[1..], path);
      k := rest + 1;
      assert forall i :: 1 <= i < |requirements| ==> requirements[i] == requirements[1..][i - 1];
    }
  }

  lemma RequiredIff(policy: Policy, path: string)
    ensures TestRequiredReasonFor(policy, path).Some? <==> MustBeProven(policy, path)
  {
    hide FirstCovering;
    var k := FirstCoveringFinds(policy, policy.testRequired, path);
  }

  predicate IsDenied(violations: seq<Violation>) {
    exists i :: 0 <= i < |violations| && violations[i].enforcement != Warn
  }

  predicate HasHardDeny(violations: seq<Violation>) {
    exists i :: 0 <= i < |violations| && violations[i].enforcement == Deny
  }

  function WithoutEscalations(violations: seq<Violation>): seq<Violation> {
    if violations == [] then []
    else (if violations[0].enforcement != Escalate then [violations[0]] else []) + WithoutEscalations(violations[1..])
  }

  datatype Verdict =
    | Silent
    | Denied(path: string, violations: seq<Violation>)
    | Advise(path: string, violations: seq<Violation>)

  function VerdictOf(path: string, violations: seq<Violation>): Verdict {
    if violations == [] then Silent
    else if IsDenied(violations) then Denied(path, violations)
    else Advise(path, violations)
  }

  // ----- escalation tokens -----

  /** The two standard-library functions used: the hash of a pair of strings, and lower-casing. */
  datatype Env = Env(digest: (string, string) -> string, lower: string -> string)

  /** The findings a token is made of: those of the escalations. */
  function Escalating(violations: seq<Violation>): seq<Finding> {
    if violations == [] then []
    else (if violations[0].enforcement == Escalate && violations[0].finding.Some?
          then [violations[0].finding.value] else [])
         + Escalating(violations[1..])
  }

  function Describe(f: Finding): string {
    f.rule + ":" + Text.Decimal(f.line) + ":" + f.message
  }

  function DescribeAll(fs: seq<Finding>): seq<string> {
    if fs == [] then [] else [Describe(fs[0])] + DescribeAll(fs[1..])
  }

  predicate AtMost(a: string, b: string) {
    a == b || Ordering.Less(a, b)
  }

  function EscalationToken(env: Env, path: string, violations: seq<Violation>): Option<string> {
    var parts := DescribeAll(Escalating(violations));
    if parts == [] then None
    else Some(env.digest(path, Text.Join(Sorting.Sort(AtMost, parts), '|')))
  }

  // ----- events -----

  /** A write put to the guardrail. `scan` is the analysis of its content and `before` that of the
      content it replaces, each `None` inside when the analysis failed; `extra` is what the
      content-pair checks add. */
  datatype Write = Write(
    path: string,
    content: Option<string>,
    scan: Option<seq<Finding>>,
    before: Option<Option<seq<Finding>>>,
    extra: seq<Finding>,
    hasScenario: bool)

  datatype Event =
    | Approve(token: string)
    | ResetLoopAlarm
    | HookWrite(post: bool, policy: Option<Policy>, write: Write)
    | Check(policy: Option<Policy>, write: Write)
    | AgentWrite(agentPolicy: Policy, write: Write)
    | BashRun(policy: Option<Policy>, command: Option<string>, response: Json)
    | Stop(policy: Option<Policy>)

  /** The findings the policy judges, unless an analysis failed. */
  function JudgedFindings(w: Write): Option<seq<Finding>> {
    if w.content.None? then Some([])
    else if w.scan.None? then None
    else match w.before
      case None => Some(w.scan.value + w.extra)
      case Some(None) => None
      case Some(Some(prior)) => Some(Survivors(w.scan.value, prior) + w.extra)
  }

  /** Every analysis the judgement needs succeeded. */
  predicate JudgementCompletes(w: Write) {
    w.content.Some? ==> w.scan.Some? && w.before != Some(None)
  }

  lemma CompletesIffAnalysed(w: Write)
    ensures JudgementCompletes(w) <==> JudgedFindings(w).Some?
  {
  }

  // ----- the stores and their transitions -----

  datatype Stores = Stores(
    approvals: set<string>,
    pending: set<string>,
    signature: Option<string>,
    count: nat,
    touched: set<string>)

  const EMPTY := Stores({}, {}, None, 0, {})

  const LOOP_TRIP_THRESHOLD := 3

  function WriteSignature(env: Env, w: Write): string {
    env.digest(w.path, if w.content.Some? then w.content.value else "")
  }

  function TrackLoop(env: Env, s: Stores, w: Write): Stores {
    var signature := WriteSignature(env, w);
    s.(signature := Some(signature), count := if s.signature == Some(signature) then s.count + 1 else 1)
  }

  function ProvenanceFor(touched: set<string>, path: string): Provenance {
    if path in touched then AiTouched else Unestablished
  }

  datatype Judgement = Judgement(provenance: Provenance, verdict: Verdict, consumed: Option<string>)

  /** The approval tail of a judgement. */
  function Lift(env: Env, approvals: set<string>, verdict: Verdict): (Verdict, Option<string>) {
    if !verdict.Denied? || HasHardDeny(verdict.violations) then (verdict, None)
    else match EscalationToken(env, verdict.path, verdict.violations)
      case None => (verdict, None)
      case Some(token) =>
        if token in approvals then (VerdictOf(verdict.path, WithoutEscalations(verdict.violations)), Some(token))
        else (verdict, None)
  }

  function JudgeWrite(env: Env, policy: Policy, s: Stores, w: Write): (Stores, Option<Judgement>) {
    var findings := JudgedFindings(w);
    if findings.None? then (s, None)
    else
      var provenance := ProvenanceFor(s.touched, w.path);
      var violations := policy.evaluate(w.path, findings.value, provenance, w.hasScenario);
      var (verdict, consumed) := Lift(env, s.approvals, VerdictOf(w.path, violations));
      (s.(touched := s.touched + {w.path},
          approvals := if consumed.Some? then s.approvals - {consumed.value} else s.approvals),
       Some(Judgement(provenance, verdict, consumed)))
  }

  function RecordExecutionGateWrite(policy: Policy, s: Stores, path: string): Stores {
    if TestRequiredReasonFor(policy, path).None? then s else s.(pending := s.pending + {path})
  }

  predicate MatchesTestPattern(env: Env, command: string, patterns: seq<string>) {
    exists i :: 0 <= i < |patterns| && patterns[i] != "" && Text.Contains(env.lower(command), env.lower(patterns[i]))
  }

  const EXIT_CODE_KEYS: seq<string> := ["exit_code", "exitCode", "returncode", "return_code", "status", "code"]

  function FirstInteger(response: Json, keys: seq<string>): Option<int> {
    if keys == [] then None
    else
      var member := response.Get(keys[0]);
      if member.Some? && AsI64(member.value).Some? then AsI64(member.value)
      else FirstInteger(response, keys[1..])
  }

  function BashExitCode(response: Json): Option<int> {
    FirstInteger(response, EXIT_CODE_KEYS)
  }

  function RecordBashTestRun(env: Env, policy: Policy, s: Stores, command: string, response: Json): Stores {
    if !MatchesTestPattern(env, command, policy.testCommandPatterns) then s
    else
      var code := BashExitCode(response);
      if code.Some? && code.value != 0 then s else s.(pending := {})
  }

  datatype Evidence = Evidence(path: string, pattern: string, reason: string)

  function EvidenceOf(policy: Policy, paths: seq<string>): seq<Evidence> {
    if paths == [] then []
    else
      var rest := EvidenceOf(policy, paths[1..]);
      match TestRequiredReasonFor(policy, paths[0])
      case None => rest
      case Some((pattern, reason)) => [Evidence(paths[0], pattern, reason)] + rest
  }

  function PendingEvidence(policy: Policy, pending: set<string>): seq<Evidence> {
    EvidenceOf(policy, Ordering.SortedSeq(pending))
  }

  datatype Output =
    | Quiet
    | JudgeFailed
    | Judged(judgement: Judgement, streak: nat)
    | Blocked(missing: seq<Evidence>)

  function Step(env: Env, s: Stores, e: Event): (Stores, Output) {
    match e
    case Approve(token) => (s.(approvals := s.approvals + {token}), Quiet)
    case ResetLoopAlarm => (s.(signature := None, count := 0), Quiet)
    case HookWrite(post, policy, w) =>
      if policy.None? || !policy.value.enabled then (s, Quiet)
      else
        var s1 := TrackLoop(env, s, w);
        var (s2, j) := JudgeWrite(env, policy.value, s1, w);
        if j.None? then (s2, JudgeFailed)
        else (if post then RecordExecutionGateWrite(policy.value, s2, w.path) else s2, Judged(j.value, s1.count))
    case Check(policy, w) =>
      if policy.None? || !policy.value.enabled then (s, Quiet)
      else
        var s1 := TrackLoop(env, s, w);
        var (s2, j) := JudgeWrite(env, policy.value, s1, w);
        (s2, if j.None? then JudgeFailed else Judged(j.value, s1.count))
    case AgentWrite(policy, w) =>
      var (s1, j) := JudgeWrite(env, policy, s, w);
      if j.None? then (s1, JudgeFailed)
      else
        var s2 := TrackLoop(env, s1, w);
        (s2, Judged(j.value, s2.count))
    case BashRun(policy, command, response) =>
      if policy.None? || command.None? || !policy.value.enabled then (s, Quiet)
      else (RecordBashTestRun(env, policy.value, s, command.value, response), Quiet)
    case Stop(policy) =>
      if policy.None? || !policy.value.enabled || policy.value.testRequired == [] then (s, Quiet)
      else
        var missing := PendingEvidence(policy.value, s.pending);
        (s, if missing == [] then Quiet else Blocked(missing))
  }

  /** The stores after a whole run from a repository with no recorded state. */
  function Run(env: Env, trace: seq<Event>): Stores {
    if trace == [] then EMPTY
    else Step(env, Run(env, trace[..|trace| - 1]), trace[|trace| - 1]).0
  }

  lemma RunOfAppend(env: Env, trace: seq<Event>, e: Event)
    ensures Run(env, trace + [e]) == Step(env, Run(env, trace), e).0
  {
    assert (trace + [e])[..|trace|] == trace;
  }

  /** What the guardrail answers to the i-th event of a run. */
  function OutputAt(env: Env, trace: seq<Event>, i: nat): Output
    requires i < |trace|
  {
    Step(env, Run(env, trace[..i]), trace[i]).1
  }

  // ----- what the provenance ledger means -----

  /** The event judges a write to `path` to the end, whatever the verdict. */
  predicate Judges(e: Event, path: string) {
    match e
    case HookWrite(_, policy, w) =>
      policy.Some? && policy.value.enabled && w.path == path && JudgementCompletes(w)
    case Check(policy, w) => policy.Some? && policy.value.enabled && w.path == path && JudgementCompletes(w)
    case AgentWrite(_, w) => w.path == path && JudgementCompletes(w)
    case _ => false
  }

  ghost predicate EverJudged(trace: seq<Event>, path: string) {
    exists i :: 0 <= i < |trace| && Judges(trace[i], path)
  }

  lemma TouchedStep(env: Env, s: Stores, e: Event, path: string)
    ensures path in Step(env, s, e).0.touched <==> path in s.touched || Judges(e, path)
  {
    hide Lift, VerdictOf, WriteSignature, PendingEvidence, TestRequiredReasonFor, MatchesTestPattern, BashExitCode;
  }

  lemma {:induction false} TouchedMeansEverJudged(env: Env, trace: seq<Event>, path: string)
    ensures path in Run(env, trace).touched <==> EverJudged(trace, path)
  {
    hide Step, Judges;
    if trace != [] {
      var n := |trace| - 1;
      TouchedMeansEverJudged(env, trace[..n], path);
      TouchedStep(env, Run(env, trace[..n]), trace[n], path);
      if EverJudged(trace[..n], path) {
        var i :| 0 <= i < n && Judges(trace[..n][i], path);
        assert Judges(trace[i], path);
      }
      if EverJudged(trace, path) && !Judges(trace[n], path) {
        var i :| 0 <= i < |trace| && Judges(trace[i], path);
        assert Judges(trace[..n][i], path);
      }
    }
  }

  /** A judgement holds its path to the stricter threshold exactly when an earlier one targeted it. */
  lemma JudgedAiTouchedIffJudgedBefore(env: Env, trace: seq<Event>, i: nat)
    requires i < |trace| && OutputAt(env, trace, i).Judged?
    ensures OutputAt(env, trace, i).judgement.provenance == AiTouched
            <==> EverJudged(trace[..i], trace[i].write.path)
  {
    hide Lift, VerdictOf, WriteSignature, PendingEvidence, TestRequiredReasonFor, MatchesTestPattern, BashExitCode;
    TouchedMeansEverJudged(env, trace[..i], trace[i].write.path);
  }

  /** Nothing ever leaves the provenance ledger. */
  lemma {:induction false} TouchedOnlyGrows(env: Env, trace: seq<Event>, i: nat)
    requires i <= |trace|
    ensures Run(env, trace[..i]).touched <= Run(env, trace).touched
  {
    forall path | path in Run(env, trace[..i]).touched ensures path in Run(env, trace).touched {
      TouchedMeansEverJudged(env, trace[..i], path);
      TouchedMeansEverJudged(env, trace, path);
      var k :| 0 <= k < i && Judges(trace[..i][k], path);
      assert Judges(trace[k], path);
    }
  }

  // ----- what the execution ledger means -----

  /** The event is a landed write to `path` that the policy then in force wanted proven. */
  ghost predicate Owes(e: Event, path: string) {
    e.HookWrite? && e.post && e.policy.Some? && Judges(e, path) && MustBeProven(e.policy.value, path)
  }

  /** The command contains one of the patterns that are not empty, in whatever case. */
  ghost predicate RunsTests(env: Env, command: string, patterns: seq<string>) {
    exists i, before, after :: 0 <= i < |patterns| && patterns[i] != ""
      && env.lower(command) == before + env.lower(patterns[i]) + after
  }

  predicate HoldsCode(response: Json, key: string, code: int) {
    && response.Object? && key in response.fields && response.fields[key] == Integer(code)
    && -0x8000_0000_0000_0000 <= code < 0x8000_0000_0000_0000
  }

  /** The first of the members that can tell an exit code and holds an integer of 64 bits holds `code`. */
  ghost predicate Reports(response: Json, code: int) {
    var keys := ["exit_code", "exitCode", "returncode", "return_code", "status", "code"];
    exists k :: 0 <= k < 6 && HoldsCode(response, keys[k], code)
      && forall j, other :: 0 <= j < k ==> !HoldsCode(response, keys[j], other)
  }

  /** The event is a test run the policy then in force gives credit for: it did not visibly fail. */
  ghost predicate Credits(env: Env, e: Event) {
    && e.BashRun? && e.policy.Some? && e.policy.value.enabled && e.command.Some?
    && RunsTests(env, e.command.value, e.policy.value.testCommandPatterns)
    && forall code :: Reports(e.response, code) ==> code == 0
  }

  lemma RunsTestsIff(env: Env, command: string, patterns: seq<string>)
    ensures MatchesTestPattern(env, command, patterns) <==> RunsTests(env, command, patterns)
  {
    forall i | 0 <= i < |patterns|
      ensures Text.Contains(env.lower(command), env.lower(patterns[i]))
              <==> exists before, after :: env.lower(command) == before + env.lower(patterns[i]) + after
    {
      Text.ContainsIff(env.lower(command), env.lower(patterns[i]));
    }
    hide Text.Contains;
  }

  lemma {:induction false} FirstIntegerFinds(response: Json, keys: seq<string>) returns (k: nat)
    ensures k <= |keys| && forall i, other :: 0 <= i < k ==> !HoldsCode(response, keys[i], other)
    ensures match FirstInteger(response, keys)
      case None => k == |keys|
      case Some(code) => k < |keys| && HoldsCode(response, keys[k], code)
  {
    if keys == [] || (response.Get(keys[0]).Some? && AsI64(response.Get(keys[0]).value).Some?) {
      k := 0;
    } else {
      var rest := FirstIntegerFinds(response, keys[1..]);
      k := rest + 1;
      assert forall i :: 1 <= i < |keys| ==> keys[i] == keys[1..][i - 1];
    }
  }

  /** The exit code is the one reported; there is none exactly when none is reported. */
  lemma ExitCodeIsReported(response: Json, code: int)
    ensures BashExitCode(response) == Some(code) <==> Reports(response, code)
  {
    var keys := ["exit_code", "exitCode", "returncode", "return_code", "status", "code"];
    var k := FirstIntegerFinds(response, EXIT_CODE_KEYS);
    hide HoldsCode;
    assert EXIT_CODE_KEYS == keys;
    OneCodeEach(response);
  }

  lemma OneCodeEach(response: Json)
    ensures forall key, a, b :: HoldsCode(response, key, a) && HoldsCode(response, key, b) ==> a == b
  {
  }

  /** A write to `path` that had to be proven, and no crediting test run since. */
  ghost predicate Unproven(env: Env, trace: seq<Event>, path: string) {
    exists i :: 0 <= i < |trace| && Owes(trace[i], path) && NoCreditAfter(env, trace, i)
  }

  ghost predicate NoCreditAfter(env: Env, trace: seq<Event>, i: nat) {
    forall j :: i < j < |trace| ==> !Credits(env, trace[j])
  }

  /** A finished command is credited exactly when it clears the ledger. */
  lemma CreditedIff(env: Env, e: Event, command: string)
    requires e.BashRun? && e.policy.Some? && e.command == Some(command) && e.policy.value.enabled
    ensures Credits(env, e)
            <==> MatchesTestPattern(env, command, e.policy.value.testCommandPatterns)
                 && (BashExitCode(e.response) == None || BashExitCode(e.response) == Some(0))
  {
    hide MatchesTestPattern, RunsTests, BashExitCode, Reports;
    RunsTestsIff(env, command, e.policy.value.testCommandPatterns);
    forall code ensures BashExitCode(e.response) == Some(code) <==> Reports(e.response, code) {
      ExitCodeIsReported(e.response, code);
    }
    var code := BashExitCode(e.response);
    if code.Some? {
      assert Reports(e.response, code.value);
    }
  }

  lemma PendingStep(env: Env, s: Stores, e: Event, path: string)
    ensures path in Step(env, s, e).0.pending <==> Owes(e, path) || (path in s.pending && !Credits(env, e))
  {
    hide Lift, VerdictOf, WriteSignature, PendingEvidence, TestRequiredReasonFor, MustBeProven, MatchesTestPattern,
      BashExitCode, RunsTests, Reports;
    match e
    case HookWrite(_, policy, w) =>
      if policy.Some? {
        RequiredIff(policy.value, w.path);
      }
    case BashRun(policy, command, _) =>
      if policy.Some? && policy.value.enabled && command.Some? {
        CreditedIff(env, e, command.value);
      }
    case _ =>
  }

  /** The ledger holds exactly the unproven paths, however the policy changed along the way. */
  lemma {:induction false} PendingMeansUnproven(env: Env, trace: seq<Event>, path: string)
    ensures path in Run(env, trace).pending <==> Unproven(env, trace, path)
  {
    hide Step, Owes, Credits;
    if trace != [] {
      var n := |trace| - 1;
      var front := trace[..n];
      PendingMeansUnproven(env, front, path);
      PendingStep(env, Run(env, front), trace[n], path);
      if Unproven(env, front, path) && !Credits(env, trace[n]) {
        var i :| 0 <= i < n && Owes(front[i], path) && NoCreditAfter(env, front, i);
        forall j | i < j < |trace| ensures !Credits(env, trace[j]) {
          assert j < n ==> trace[j] == front[j];
        }
        assert Owes(trace[i], path) && NoCreditAfter(env, trace, i);
      }
      if Owes(trace[n], path) {
        assert NoCreditAfter(env, trace, n);
      }
      if Unproven(env, trace, path) && !Owes(trace[n], path) {
        var i :| 0 <= i < |trace| && Owes(trace[i], path) && NoCreditAfter(env, trace, i);
        assert i < n && Owes(front[i], path);
        assert NoCreditAfter(env, front, i);
        assert !Credits(env, trace[n]);
      }
    }
  }

  /** A write that landed on a path that has to be proven is recorded exactly when its judgement completed,
      unless the path was recorded already. */
  lemma LandedWriteIsRecordedIff(env: Env, trace: seq<Event>, policy: Policy, w: Write)
    requires policy.enabled && MustBeProven(policy, w.path)
    ensures w.path in Run(env, trace + [HookWrite(true, Some(policy), w)]).pending
            <==> w.path in Run(env, trace).pending || JudgementCompletes(w)
  {
    hide Run, Step, MustBeProven, JudgementCompletes;
    var e := HookWrite(true, Some(policy), w);
    RunOfAppend(env, trace, e);
    PendingStep(env, Run(env, trace), e, w.path);
    CompletesIffAnalysed(w);
  }

  /** A write that landed on such a path, with an analysis that failed: `Stop` lets the agent finish. */
  lemma UnjudgedWriteDoesNotBlockStop(env: Env, policy: Policy, w: Write)
    requires policy.enabled && MustBeProven(policy, w.path)
    requires w.content.Some? && w.scan.None?
    ensures OutputAt(env, [HookWrite(true, Some(policy), w), Stop(Some(policy))], 1) == Quiet
  {
    var e := HookWrite(true, Some(policy), w);
    var trace := [e, Stop(Some(policy))];
    assert trace[..1] == [e] == [] + [e] && [e][..0] == [];
    assert Run(env, trace[..1]).pending == {};
    assert Ordering.SortedSeq({}) == [];
  }

  lemma FailingRunIsNoCredit(env: Env, e: Event, code: int)
    requires e.BashRun? && Reports(e.response, code) && code != 0
    ensures !Credits(env, e)
  {
    hide Reports, RunsTests;
  }

  lemma CommandOwesNothing(e: Event, path: string)
    requires e.BashRun?
    ensures !Owes(e, path)
  {
  }

  /** A visibly failing run never clears the ledger. */
  lemma FailingRunClearsNothing(env: Env, trace: seq<Event>, e: Event, code: int)
    requires e.BashRun? && Reports(e.response, code) && code != 0
    ensures Run(env, trace + [e]).pending == Run(env, trace).pending
  {
    FailingRunIsNoCredit(env, e, code);
    hide Run, Step, Credits, Owes, Reports;
    RunOfAppend(env, trace, e);
    forall path ensures path in Run(env, trace + [e]).pending <==> path in Run(env, trace).pending {
      PendingStep(env, Run(env, trace), e, path);
      CommandOwesNothing(e, path);
    }
  }

  ghost predicate Names(missing: seq<Evidence>, path: string) {
    exists k :: 0 <= k < |missing| && missing[k].path == path
  }

  lemma {:induction false} EvidenceMembers(policy: Policy, paths: seq<string>, path: string)
    ensures Names(EvidenceOf(policy, paths), path) <==> path in paths && MustBeProven(policy, path)
  {
    hide TestRequiredReasonFor, MustBeProven;
    if paths != [] {
      EvidenceMembers(policy, paths[1..], path);
      RequiredIff(policy, paths[0]);
      var all, rest := EvidenceOf(policy, paths), EvidenceOf(policy, paths[1..]);
      if TestRequiredReasonFor(policy, paths[0]).Some? {
        assert all == [all[0]] + rest && all[0].path == paths[0];
        if k :| 0 <= k < |rest| && rest[k].path == path {
          assert all[k + 1].path == path;
        }
        if k :| 0 <= k < |all| && all[k].path == path {
          assert k > 0 ==> rest[k - 1].path == path;
        }
      }
    }
  }

  /** The pattern and the reason are those of the first requirement that covers the path. */
  ghost predicate QuotesFirst(e: Evidence, policy: Policy) {
    exists j: nat :: FirstFor(policy, e.path, j) && policy.testRequired[j] == (e.pattern, e.reason)
  }

  lemma {:induction false} EvidenceQuotesThePolicy(policy: Policy, paths: seq<string>, k: nat)
    requires k < |EvidenceOf(policy, paths)|
    ensures QuotesFirst(EvidenceOf(policy, paths)[k], policy)
  {
    hide FirstCovering;
    if TestRequiredReasonFor(policy, paths[0]).None? {
      EvidenceQuotesThePolicy(policy, paths[1..], k);
    } else if k > 0 {
      EvidenceQuotesThePolicy(policy, paths[1..], k - 1);
    } else {
      var j := FirstCoveringFinds(policy, policy.testRequired, paths[0]);
      assert FirstFor(policy, paths[0], j);
    }
  }

  ghost predicate QuotesPolicy(missing: seq<Evidence>, policy: Policy) {
    forall k :: 0 <= k < |missing| ==> QuotesFirst(missing[k], policy)
  }

  /** The path is unproven and the policy wants it proven. */
  ghost predicate IsMissing(env: Env, trace: seq<Event>, policy: Policy, path: string) {
    Unproven(env, trace, path) && MustBeProven(policy, path)
  }

  /** The evidence missing names exactly the unproven paths the policy wants proven. */
  lemma EvidenceIsWhatIsUnproven(env: Env, trace: seq<Event>, policy: Policy)
    ensures var missing := PendingEvidence(policy, Run(env, trace).pending);
      && (forall path :: Names(missing, path) <==> IsMissing(env, trace, policy, path))
      && (missing != [] <==> exists path :: Names(missing, path))
      && QuotesPolicy(missing, policy)
  {
    hide EvidenceOf, Unproven, Run, MustBeProven, QuotesFirst;
    var pending := Run(env, trace).pending;
    var missing := PendingEvidence(policy, pending);
    forall path
      ensures Names(missing, path) <==> IsMissing(env, trace, policy, path)
    {
      EvidenceMembers(policy, Ordering.SortedSeq(pending), path);
      PendingMeansUnproven(env, trace, path);
    }
    forall k | 0 <= k < |missing|
      ensures QuotesFirst(missing[k], policy)
    {
      EvidenceQuotesThePolicy(policy, Ordering.SortedSeq(pending), k);
    }
    if missing != [] {
      assert Names(missing, missing[0].path);
    }
  }

  lemma StopAnswers(env: Env, trace: seq<Event>, i: nat)
    requires i < |trace| && trace[i].Stop?
    ensures var policy := trace[i].policy;
      OutputAt(env, trace, i) ==
        if policy.None? || !policy.value.enabled
          || PendingEvidence(policy.value, Run(env, trace[..i]).pending) == [] then Quiet
        else Blocked(PendingEvidence(policy.value, Run(env, trace[..i]).pending))
  {
    hide Run, PendingEvidence;
    var policy := trace[i].policy;
    if policy.Some? && policy.value.testRequired == [] {
      NothingRequired(policy.value, Run(env, trace[..i]).pending);
    }
  }

  lemma NothingRequired(policy: Policy, pending: set<string>)
    requires policy.testRequired == []
    ensures PendingEvidence(policy, pending) == []
  {
    var paths := Ordering.SortedSeq(pending);
    var missing := EvidenceOf(policy, paths);
    hide EvidenceOf;
    if missing != [] {
      assert Names(missing, missing[0].path);
      EvidenceMembers(policy, paths, missing[0].path);
    }
  }

  /** `Stop` blocks exactly when the policy now in force is enabled and wants some unproven path proven,
      and then it names exactly those paths, with the pattern and reason that policy has for each. */
  lemma StopBlocksIffSomethingIsUnproven(env: Env, trace: seq<Event>, i: nat)
    requires i < |trace| && trace[i].Stop?
    ensures var policy := trace[i].policy;
      var out := OutputAt(env, trace, i);
      && (out.Blocked? <==>
            policy.Some? && policy.value.enabled
            && exists path :: IsMissing(env, trace[..i], policy.value, path))
      && (out.Blocked? ==> forall path ::
            Names(out.missing, path) <==> IsMissing(env, trace[..i], policy.value, path))
      && (out.Blocked? ==> QuotesPolicy(out.missing, policy.value))
  {
    hide OutputAt, Run, PendingEvidence, Unproven, Names, MustBeProven, QuotesPolicy;
    StopAnswers(env, trace, i);
    if trace[i].policy.Some? {
      EvidenceIsWhatIsUnproven(env, trace[..i], trace[i].policy.value);
    }
  }

  /** The blocked paths are listed in ascending order. */
  lemma {:induction false} EvidenceIsInPathOrder(policy: Policy, paths: seq<string>)
    requires Ordering.Ascending(paths)
    ensures var out := EvidenceOf(policy, paths);
      forall i, j :: 0 <= i < j < |out| ==> Ordering.Less(out[i].path, out[j].path)
  {
    hide TestRequiredReasonFor;
    if paths != [] {
      var rest := EvidenceOf(policy, paths[1..]);
      EvidenceIsInPathOrder(policy, paths[1..]);
      forall j | 0 <= j < |rest| ensures Ordering.Less(paths[0], rest[j].path) {
        EvidenceMembers(policy, paths[1..], rest[j].path);
        assert Names(rest, rest[j].path);
        var k :| 1 <= k < |paths| && paths[k] == rest[j].path;
      }
    }
  }

  // ----- what the loop alarm means -----

  /** The write the event puts to the alarm, if it does. */
  function PutToAlarm(e: Event): Option<Write> {
    match e
    case HookWrite(_, policy, w) => if policy.Some? && policy.value.enabled then Some(w) else None
    case Check(policy, w) => if policy.Some? && policy.value.enabled then Some(w) else None
    case AgentWrite(_, w) => if JudgementCompletes(w) then Some(w) else None
    case _ => None
  }

  function Tracked(env: Env, e: Event): Option<string> {
    match PutToAlarm(e)
    case None => None
    case Some(w) => Some(WriteSignature(env, w))
  }

  /** Signatures of the writes put to the alarm since it was last reset. */
  function SignaturesSinceReset(env: Env, trace: seq<Event>): seq<string> {
    if trace == [] then []
    else
      var n := |trace| - 1;
      if trace[n].ResetLoopAlarm? then []
      else if Tracked(env, trace[n]).Some? then SignaturesSinceReset(env, trace[..n]) + [Tracked(env, trace[n]).value]
      else SignaturesSinceReset(env, trace[..n])
  }

  /** The last `n` elements exist and are all the same. */
  ghost predicate EndsInStreak(sigs: seq<string>, n: nat) {
    n <= |sigs| && forall i :: |sigs| - n <= i < |sigs| ==> sigs[i] == sigs[|sigs| - 1]
  }

  lemma LoopStep(env: Env, s: Stores, e: Event)
    ensures var s' := Step(env, s, e).0;
      (s'.signature, s'.count) ==
        if e.ResetLoopAlarm? then (None, 0)
        else match Tracked(env, e)
          case None => (s.signature, s.count)
          case Some(sig) => (Some(sig), if s.signature == Some(sig) then s.count + 1 else 1)
  {
    hide Lift, VerdictOf, WriteSignature, PendingEvidence, TestRequiredReasonFor, MatchesTestPattern, BashExitCode;
  }

  lemma StreakOfAppend(sigs: seq<string>, sig: string, n: nat)
    ensures EndsInStreak(sigs + [sig], n)
            <==> n == 0 || (n - 1 <= |sigs| && (n > 1 ==> sigs[|sigs| - 1] == sig) && EndsInStreak(sigs, n - 1))
  {
    var more := sigs + [sig];
    assert forall i :: 0 <= i < |sigs| ==> more[i] == sigs[i];
    if n > 1 && EndsInStreak(more, n) {
      assert more[|sigs| - 1] == sig;
    }
  }

  /** The counter is the length of the longest run of equal signatures ending the history since the last reset. */
  lemma {:induction false} CountIsTheLongestStreak(env: Env, trace: seq<Event>, n: nat)
    ensures var sigs := SignaturesSinceReset(env, trace);
      && Run(env, trace).signature == (if sigs == [] then None else Some(sigs[|sigs| - 1]))
      && (EndsInStreak(sigs, n) <==> n <= Run(env, trace).count)
  {
    hide Step, Tracked;
    if trace != [] {
      var last := |trace| - 1;
      var front := trace[..last];
      CountIsTheLongestStreak(env, front, n);
      LoopStep(env, Run(env, front), trace[last]);
      var sigs := SignaturesSinceReset(env, front);
      if !trace[last].ResetLoopAlarm? && Tracked(env, trace[last]).Some? {
        StreakOfAppend(sigs, Tracked(env, trace[last]).value, n);
        if n > 0 {
          CountIsTheLongestStreak(env, front, n - 1);
        }
      }
    }
  }

  lemma StreakIsCount(env: Env, trace: seq<Event>, i: nat)
    requires i < |trace| && OutputAt(env, trace, i).Judged?
    ensures OutputAt(env, trace, i).streak == Run(env, trace[..i + 1]).count
  {
    hide Lift, VerdictOf, WriteSignature, PendingEvidence, TestRequiredReasonFor, MatchesTestPattern, BashExitCode;
    assert trace[..i + 1][..i] == trace[..i] && trace[..i + 1][i] == trace[i];
  }

  /** The alarm trips on a judgement exactly when the last three signatures put to it since the reset are
      the same. */
  lemma AlarmTripsOnThreeEqualJudgements(env: Env, trace: seq<Event>, i: nat)
    requires i < |trace| && OutputAt(env, trace, i).Judged?
    ensures var sigs := SignaturesSinceReset(env, trace[..i + 1]);
      OutputAt(env, trace, i).streak >= LOOP_TRIP_THRESHOLD
      <==> |sigs| >= 3 && sigs[|sigs| - 3] == sigs[|sigs| - 2] == sigs[|sigs| - 1]
  {
    hide Run, Step, OutputAt, SignaturesSinceReset;
    StreakIsCount(env, trace, i);
    CountIsTheLongestStreak(env, trace[..i + 1], 3);
  }

  // ----- which writes are the same to the alarm -----

  /** Different paths or texts never have the same digest. */
  ghost predicate TellsApart(env: Env) {
    forall a, b, c, d :: env.digest(a, b) == env.digest(c, d) ==> a == c && b == d
  }

  /** The same path and the same text, a write that deletes counting as one that empties. */
  predicate SameWrite(v: Write, w: Write) {
    && v.path == w.path
    && match (v.content, w.content)
       case (Some(a), Some(b)) => a == b
       case (Some(a), None) => a == ""
       case (None, Some(b)) => b == ""
       case (None, None) => true
  }

  /** The same write has the same signature, whatever else is known of it; and only it has, if the digest
      tells texts apart. */
  lemma SignatureIsOfPathAndContent(env: Env, v: Write, w: Write)
    ensures SameWrite(v, w) ==> WriteSignature(env, v) == WriteSignature(env, w)
    ensures TellsApart(env) && WriteSignature(env, v) == WriteSignature(env, w) ==> SameWrite(v, w)
  {
  }

  /** The writes put to the alarm since it was last reset. */
  function WritesSinceReset(trace: seq<Event>): seq<Write> {
    if trace == [] then []
    else
      var n := |trace| - 1;
      if trace[n].ResetLoopAlarm? then []
      else if PutToAlarm(trace[n]).Some? then WritesSinceReset(trace[..n]) + [PutToAlarm(trace[n]).value]
      else WritesSinceReset(trace[..n])
  }

  lemma {:induction false} SignaturesAreOfWrites(env: Env, trace: seq<Event>)
    ensures var sigs, writes := SignaturesSinceReset(env, trace), WritesSinceReset(trace);
      |sigs| == |writes| && forall k :: 0 <= k < |sigs| ==> sigs[k] == WriteSignature(env, writes[k])
  {
    hide PutToAlarm, WriteSignature;
    if trace != [] {
      SignaturesAreOfWrites(env, trace[..|trace| - 1]);
    }
  }

  /** The last three writes exist and are the same. */
  predicate EndsInThreeEqual(writes: seq<Write>) {
    var n := |writes|;
    n >= 3 && SameWrite(writes[n - 3], writes[n - 2]) && SameWrite(writes[n - 2], writes[n - 1])
  }

  /** The alarm trips on a judgement when the last three writes put to it since the reset are the same write;
      and only then, if the digest tells texts apart. */
  lemma AlarmTripsOnThreeEqualWrites(env: Env, trace: seq<Event>, i: nat)
    requires i < |trace| && OutputAt(env, trace, i).Judged?
    ensures var equal := EndsInThreeEqual(WritesSinceReset(trace[..i + 1]));
      && (equal ==> OutputAt(env, trace, i).streak >= 3)
      && (TellsApart(env) && OutputAt(env, trace, i).streak >= 3 ==> equal)
  {
    hide OutputAt, SignaturesSinceReset, WritesSinceReset, WriteSignature, SameWrite, TellsApart;
    AlarmTripsOnThreeEqualJudgements(env, trace, i);
    SignaturesAreOfWrites(env, trace[..i + 1]);
    var writes := WritesSinceReset(trace[..i + 1]);
    var n := |writes|;
    if n >= 3 {
      SignatureIsOfPathAndContent(env, writes[n - 3], writes[n - 2]);
      SignatureIsOfPathAndContent(env, writes[n - 2], writes[n - 1]);
    }
  }

  // ----- writes and judgements -----

  /** Attempts at one write, in order: `true` is one that landed and was seen before and after, `false` one
      that was seen before and never landed. */
  function Attempts(before: Event, after: Event, landed: seq<bool>): seq<Event> {
    if landed == [] then []
    else Attempts(before, after, landed[..|landed| - 1]) + (if landed[|landed| - 1] then [before, after] else [before])
  }

  function Landings(landed: seq<bool>): nat {
    if landed == [] then 0
    else Landings(landed[..|landed| - 1]) + (if landed[|landed| - 1] then 1 else 0)
  }

  lemma TrackedAgain(env: Env, trace: seq<Event>, e: Event, sig: string)
    requires Tracked(env, e) == Some(sig)
    ensures var s, s' := Run(env, trace), Run(env, trace + [e]);
      s'.signature == Some(sig) && s'.count == (if s.signature == Some(sig) then s.count + 1 else 1)
  {
    hide Step, Run;
    RunOfAppend(env, trace, e);
    LoopStep(env, Run(env, trace), e);
  }

  /** A write that is seen both before and after it lands counts twice: after n attempts at a write new to
      the alarm, l of which landed, the counter is n + l. */
  lemma {:induction false} LandedWritesCountTwice(env: Env, trace: seq<Event>, before: Event, after: Event, sig: string,
                                                  landed: seq<bool>)
    requires Tracked(env, before) == Some(sig) && Tracked(env, after) == Some(sig)
    requires Run(env, trace).signature != Some(sig) && landed != []
    ensures var s := Run(env, trace + Attempts(before, after, landed));
      s.signature == Some(sig) && s.count == |landed| + Landings(landed)
  {
    hide Run, Tracked;
    var n := |landed| - 1;
    var front := trace + Attempts(before, after, landed[..n]);
    if n == 0 {
      assert front == trace;
    } else {
      LandedWritesCountTwice(env, trace, before, after, sig, landed[..n]);
    }
    TrackedAgain(env, front, before, sig);
    if landed[n] {
      TrackedAgain(env, front + [before], after, sig);
      assert trace + Attempts(before, after, landed) == front + [before] + [after];
    } else {
      assert trace + Attempts(before, after, landed) == front + [before];
    }
  }

  /** So the counter is at the threshold from the third attempt on, and not before, unless there were two
      attempts and one of them landed. */
  lemma ThresholdIsThreeWritesIff(env: Env, trace: seq<Event>, before: Event, after: Event,
                                  sig: string, landed: seq<bool>)
    requires Tracked(env, before) == Some(sig) && Tracked(env, after) == Some(sig)
    requires Run(env, trace).signature != Some(sig) && landed != []
    ensures var count := Run(env, trace + Attempts(before, after, landed)).count;
      (count >= LOOP_TRIP_THRESHOLD <==> |landed| >= 3) <==> !(|landed| == 2 && (landed[0] || landed[1]))
  {
    hide Run, Tracked;
    LandedWritesCountTwice(env, trace, before, after, sig, landed);
    LandingsOfTwo(landed);
  }

  lemma LandingsOfTwo(landed: seq<bool>)
    ensures Landings(landed) <= |landed|
    ensures |landed| == 2 ==> (Landings(landed) > 0 <==> landed[0] || landed[1])
  {
  }

  /** The second time a write is put to the guardrail after it landed, the alarm has tripped: the write,
      made twice, has been judged three times. */
  lemma SecondLandedWriteTripsTheAlarm(env: Env, policy: Policy, w: Write)
    requires policy.enabled && JudgementCompletes(w)
    ensures var before, after := HookWrite(false, Some(policy), w), HookWrite(true, Some(policy), w);
      var out := OutputAt(env, [before, after, before], 2);
      out.Judged? && out.streak >= LOOP_TRIP_THRESHOLD
  {
    var before, after := HookWrite(false, Some(policy), w), HookWrite(true, Some(policy), w);
    var trace := [before, after, before];
    WritesAreJudged(env, trace, 2);
    hide Run, Step, OutputAt, Tracked;
    var sig := WriteSignature(env, w);
    assert Tracked(env, before) == Some(sig) == Tracked(env, after) by {
      WritesAreTracked(env, before);
      WritesAreTracked(env, after);
    }
    StreakIsCount(env, trace, 2);
    NothingTrackedYet(env);
    LandedWritesCountTwice(env, [], before, after, sig, [true, false]);
    assert [true, false][..1] == [true] && [true][..0] == [];
    assert Attempts(before, after, [true]) == [before, after];
    assert [] + Attempts(before, after, [true, false]) == trace == trace[..3];
  }

  lemma NothingTrackedYet(env: Env)
    ensures Run(env, []).signature == None
  {
  }

  lemma WritesAreTracked(env: Env, e: Event)
    requires e.HookWrite? && e.policy.Some? && e.policy.value.enabled
    ensures Tracked(env, e) == Some(WriteSignature(env, e.write))
  {
  }

  lemma WritesAreJudged(env: Env, trace: seq<Event>, i: nat)
    requires i < |trace| && trace[i].HookWrite? && trace[i].policy.Some? && trace[i].policy.value.enabled
    ensures OutputAt(env, trace, i).Judged? <==> JudgementCompletes(trace[i].write)
  {
    hide Lift, VerdictOf, WriteSignature, Run, TestRequiredReasonFor;
    CompletesIffAnalysed(trace[i].write);
  }

  // ----- what an approval is worth -----

  /** The i-th event is a judgement that let a write through on the approval of `token`. */
  predicate LetThrough(env: Env, trace: seq<Event>, i: nat, token: string) {
    && i < |trace|
    && OutputAt(env, trace, i).Judged?
    && OutputAt(env, trace, i).judgement.consumed == Some(token)
  }

  /** The i-th event approves `token`, and no write has been let through on it before the k-th. */
  ghost predicate ApprovedAndUnused(env: Env, trace: seq<Event>, i: nat, k: nat, token: string) {
    && i < k <= |trace|
    && trace[i] == Approve(token)
    && forall j :: i < j < k ==> !LetThrough(env, trace, j, token)
  }

  ghost predicate StandsApproved(env: Env, trace: seq<Event>, k: nat, token: string) {
    exists i: nat :: ApprovedAndUnused(env, trace, i, k, token)
  }

  lemma ApprovalStep(env: Env, s: Stores, e: Event, token: string)
    ensures var (s', out) := Step(env, s, e);
      var used := out.Judged? && out.judgement.consumed == Some(token);
      && (token in s'.approvals <==> e == Approve(token) || (token in s.approvals && !used))
      && (used ==> token in s.approvals)
  {
    hide VerdictOf, WriteSignature, PendingEvidence, TestRequiredReasonFor, MatchesTestPattern,
      BashExitCode, EscalationToken;
  }

  lemma LetThroughOfPrefix(env: Env, trace: seq<Event>, n: nat, j: nat, token: string)
    requires j < n <= |trace|
    ensures LetThrough(env, trace[..n], j, token) <==> LetThrough(env, trace, j, token)
  {
    hide OutputAt;
    OutputOfPrefix(env, trace, n, j);
  }

  lemma OutputOfPrefix(env: Env, trace: seq<Event>, n: nat, j: nat)
    requires j < n <= |trace|
    ensures OutputAt(env, trace[..n], j) == OutputAt(env, trace, j)
  {
    assert trace[..n][..j] == trace[..j];
  }

  lemma ApprovedOfPrefix(env: Env, trace: seq<Event>, n: nat, i: nat, token: string)
    requires n <= |trace|
    ensures ApprovedAndUnused(env, trace[..n], i, n, token) <==> ApprovedAndUnused(env, trace, i, n, token)
  {
    hide LetThrough;
    forall j: nat | j < n ensures LetThrough(env, trace[..n], j, token) <==> LetThrough(env, trace, j, token) {
      LetThroughOfPrefix(env, trace, n, j, token);
    }
  }

  /** A token stands approved exactly when it was approved and not used since. */
  lemma {:induction false} ApprovalsAreUnusedApprovals(env: Env, trace: seq<Event>, token: string)
    ensures token in Run(env, trace).approvals <==> StandsApproved(env, trace, |trace|, token)
  {
    hide Step, LetThrough;
    if trace != [] {
      var n := |trace| - 1;
      var front := trace[..n];
      ApprovalsAreUnusedApprovals(env, front, token);
      ApprovalStep(env, Run(env, front), trace[n], token);
      LastLetThrough(env, trace, token);
      forall i: nat | i < n
        ensures ApprovedAndUnused(env, trace, i, |trace|, token)
                <==> ApprovedAndUnused(env, front, i, n, token) && !LetThrough(env, trace, n, token)
      {
        ApprovedOfPrefix(env, trace, n, i, token);
      }
      if trace[n] == Approve(token) {
        assert ApprovedAndUnused(env, trace, n, |trace|, token);
      }
      if token in Run(env, trace).approvals && trace[n] != Approve(token) {
        var i: nat :| ApprovedAndUnused(env, front, i, n, token);
        assert ApprovedAndUnused(env, trace, i, |trace|, token);
      }
    }
  }

  lemma LastLetThrough(env: Env, trace: seq<Event>, token: string)
    requires trace != []
    ensures var out := Step(env, Run(env, trace[..|trace| - 1]), trace[|trace| - 1]).1;
      LetThrough(env, trace, |trace| - 1, token) <==> out.Judged? && out.judgement.consumed == Some(token)
  {
  }

  /** Every judgement that lets a write through on a token uses up an approval of its own. */
  lemma EachLetThroughHasItsOwnApproval(env: Env, trace: seq<Event>, k: nat, token: string)
    requires LetThrough(env, trace, k, token)
    ensures StandsApproved(env, trace, k, token)
  {
    ApprovalStep(env, Run(env, trace[..k]), trace[k], token);
    ApprovalsAreUnusedApprovals(env, trace[..k], token);
    var i: nat :| ApprovedAndUnused(env, trace[..k], i, k, token);
    ApprovedOfPrefix(env, trace, k, i, token);
  }

  lemma ApprovingLetsNothingThrough(env: Env, trace: seq<Event>, i: nat, token: string)
    requires i < |trace| && trace[i].Approve?
    ensures !LetThrough(env, trace, i, token)
  {
  }

  /** Between two judgements that let a write through on one token, that token was approved again. */
  lemma ApprovedAgainInBetween(env: Env, trace: seq<Event>, j: nat, k: nat, token: string)
    requires j < k < |trace|
    ensures LetThrough(env, trace, j, token) && LetThrough(env, trace, k, token) ==>
      exists i :: j < i < k && trace[i] == Approve(token)
  {
    hide LetThrough;
    if LetThrough(env, trace, j, token) && LetThrough(env, trace, k, token) {
      EachLetThroughHasItsOwnApproval(env, trace, k, token);
      var i: nat :| ApprovedAndUnused(env, trace, i, k, token);
      ApprovingLetsNothingThrough(env, trace, i, token);
    }
  }

  function LetThroughs(env: Env, trace: seq<Event>, token: string): nat {
    if trace == [] then 0
    else LetThroughs(env, trace[..|trace| - 1], token) + (if LetThrough(env, trace, |trace| - 1, token) then 1 else 0)
  }

  function Approvals(trace: seq<Event>, token: string): nat {
    if trace == [] then 0
    else Approvals(trace[..|trace| - 1], token) + (if trace[|trace| - 1] == Approve(token) then 1 else 0)
  }

  /** Judgements that let a write through never outnumber approvals, even counting one still standing. */
  lemma {:induction false} LetThroughsNeverExceedApprovals(env: Env, trace: seq<Event>, token: string)
    ensures LetThroughs(env, trace, token) + (if token in Run(env, trace).approvals then 1 else 0)
            <= Approvals(trace, token)
  {
    hide Step, LetThrough;
    if trace != [] {
      var n := |trace| - 1;
      LetThroughsNeverExceedApprovals(env, trace[..n], token);
      ApprovalStep(env, Run(env, trace[..n]), trace[n], token);
      LastLetThrough(env, trace, token);
    }
  }

  function Warnings(violations: seq<Violation>): seq<Violation> {
    if violations == [] then []
    else (if violations[0].enforcement == Warn then [violations[0]] else []) + Warnings(violations[1..])
  }

  lemma {:induction false} OnlyWarningsRemain(violations: seq<Violation>)
    requires !HasHardDeny(violations)
    ensures WithoutEscalations(violations) == Warnings(violations)
    ensures !IsDenied(Warnings(violations))
  {
    if violations != [] {
      var rest := violations[1..];
      forall i | 0 <= i < |rest| ensures rest[i].enforcement != Deny {
        assert rest[i] == violations[i + 1];
      }
      OnlyWarningsRemain(rest);
      assert violations[0].enforcement != Deny;
      var kept := Warnings(violations);
      forall i | 0 <= i < |kept| ensures kept[i].enforcement == Warn {
        if violations[0].enforcement == Warn && i > 0 {
          assert kept[i] == Warnings(rest)[i - 1];
        }
      }
    }
  }

  /** The policy and the violations behind the judgement of the i-th event. */
  function PolicyOf(e: Event): Option<Policy> {
    match e
    case HookWrite(_, policy, _) => policy
    case Check(policy, _) => policy
    case AgentWrite(policy, _) => Some(policy)
    case _ => None
  }

  predicate WasJudged(env: Env, trace: seq<Event>, i: nat) {
    i < |trace| && OutputAt(env, trace, i).Judged?
  }

  function ViolationsAt(env: Env, trace: seq<Event>, i: nat): seq<Violation>
    requires WasJudged(env, trace, i)
  {
    var w := trace[i].write;
    PolicyOf(trace[i]).value.evaluate(w.path, JudgedFindings(w).value,
      OutputAt(env, trace, i).judgement.provenance, w.hasScenario)
  }

  lemma JudgementIsLift(env: Env, trace: seq<Event>, i: nat)
    requires WasJudged(env, trace, i)
    ensures var j := OutputAt(env, trace, i).judgement;
      (j.verdict, j.consumed)
      == Lift(env, Run(env, trace[..i]).approvals, VerdictOf(trace[i].write.path, ViolationsAt(env, trace, i)))
  {
    hide Lift, VerdictOf, WriteSignature, PendingEvidence, TestRequiredReasonFor, MatchesTestPattern, BashExitCode;
  }

  /** What a write is judged on: nothing if it leaves no text; else what `kept` keeps of the findings in its
      text, all of them if there was no text before and otherwise those beyond the ones in the text before,
      and then what the other checks add. */
  lemma WhatIsJudged(env: Env, trace: seq<Event>, i: nat) returns (kept: seq<Finding>)
    requires WasJudged(env, trace, i)
    ensures var w := trace[i].write;
      && ViolationsAt(env, trace, i)
         == PolicyOf(trace[i]).value.evaluate(w.path, if w.content.Some? then kept + w.extra else [],
                                              OutputAt(env, trace, i).judgement.provenance, w.hasScenario)
      && (w.content.Some? ==>
            && w.scan.Some?
            && (w.before == None ==> kept == w.scan.value)
            && (w.before.Some? ==> w.before.value.Some? && IsBeyond(kept, w.scan.value, w.before.value.value)))
  {
    hide Lift, VerdictOf, WriteSignature, Run, TestRequiredReasonFor, IsBeyond, Survivors;
    var w := trace[i].write;
    if w.content.Some? {
      kept := w.scan.value;
      if w.before.Some? {
        kept := Survivors(w.scan.value, w.before.value.value);
        SurvivorsAreBeyond(w.scan.value, w.before.value.value);
      }
    } else {
      kept := [];
    }
  }

  ghost predicate Holds(violations: seq<Violation>, enforcement: Enforcement) {
    exists k :: 0 <= k < |violations| && violations[k].enforcement == enforcement
  }

  lemma DeniedIff(violations: seq<Violation>)
    ensures IsDenied(violations) <==> Holds(violations, Deny) || Holds(violations, Escalate)
    ensures HasHardDeny(violations) <==> Holds(violations, Deny)
    ensures violations == [] ==> !IsDenied(violations)
  {
    if IsDenied(violations) {
      var i :| 0 <= i < |violations| && violations[i].enforcement != Warn;
      assert violations[i].enforcement == Deny || violations[i].enforcement == Escalate;
    }
  }

  /** The verdict of a judgement that used no approval: silence on nothing, a denial if a violation denies or
      escalates, advice if all of them warn; with all violations in it. */
  lemma VerdictWithoutApproval(env: Env, trace: seq<Event>, i: nat)
    requires WasJudged(env, trace, i)
    ensures var violations, path := ViolationsAt(env, trace, i), trace[i].write.path;
      OutputAt(env, trace, i).judgement.consumed == None ==>
        OutputAt(env, trace, i).judgement.verdict ==
          if violations == [] then Silent
          else if Holds(violations, Deny) || Holds(violations, Escalate) then Denied(path, violations)
          else Advise(path, violations)
  {
    var violations := ViolationsAt(env, trace, i);
    JudgementIsLift(env, trace, i);
    DeniedIff(violations);
    hide ViolationsAt, OutputAt, EscalationToken, IsDenied, HasHardDeny, Holds, WithoutEscalations;
  }

  /** A judgement holding a hard denial stays denied and uses up nothing. */
  lemma HardDenialIsFinal(env: Env, trace: seq<Event>, i: nat)
    requires WasJudged(env, trace, i) && Holds(ViolationsAt(env, trace, i), Deny)
    ensures var j := OutputAt(env, trace, i).judgement;
      j.verdict == Denied(trace[i].write.path, ViolationsAt(env, trace, i)) && j.consumed == None
  {
    DeniedIff(ViolationsAt(env, trace, i));
    hide EscalationToken, ViolationsAt, OutputAt, Holds, HasHardDeny, IsDenied;
    JudgementIsLift(env, trace, i);
  }

  /** A judgement lets a write through on `token` exactly when escalations alone block it, `token` is the one
      made of them, and it stands approved. */
  lemma LetThroughIff(env: Env, trace: seq<Event>, i: nat, token: string)
    requires WasJudged(env, trace, i)
    ensures var violations := ViolationsAt(env, trace, i);
      LetThrough(env, trace, i, token)
      <==> Holds(violations, Escalate) && !Holds(violations, Deny)
           && EscalationToken(env, trace[i].write.path, violations) == Some(token)
           && StandsApproved(env, trace, i, token)
  {
    JudgementIsLift(env, trace, i);
    DeniedIff(ViolationsAt(env, trace, i));
    hide EscalationToken, ViolationsAt, OutputAt, Run, Holds, HasHardDeny, IsDenied;
    ApprovalsAreUnusedApprovals(env, trace[..i], token);
    forall a: nat
      ensures ApprovedAndUnused(env, trace[..i], a, i, token) <==> ApprovedAndUnused(env, trace, a, i, token)
    {
      ApprovedOfPrefix(env, trace, i, a, token);
    }
  }

  /** What a judgement that lets a write through answers: the warnings, if there are any. */
  lemma LetThroughLeavesTheWarnings(env: Env, trace: seq<Event>, i: nat)
    requires WasJudged(env, trace, i) && OutputAt(env, trace, i).judgement.consumed.Some?
    ensures var verdict := OutputAt(env, trace, i).judgement.verdict;
      var warnings := Warnings(ViolationsAt(env, trace, i));
      && verdict == (if warnings == [] then Silent else Advise(trace[i].write.path, warnings))
      && !verdict.Denied?
  {
    hide EscalationToken, ViolationsAt, OutputAt;
    JudgementIsLift(env, trace, i);
    OnlyWarningsRemain(ViolationsAt(env, trace, i));
  }

  lemma DeniedUnlessLetThrough(env: Env, trace: seq<Event>, i: nat)
    requires WasJudged(env, trace, i)
    ensures var j := OutputAt(env, trace, i).judgement;
      j.verdict.Denied? <==> IsDenied(ViolationsAt(env, trace, i)) && j.consumed.None?
  {
    var violations := ViolationsAt(env, trace, i);
    JudgementIsLift(env, trace, i);
    if !HasHardDeny(violations) {
      OnlyWarningsRemain(violations);
    }
    hide EscalationToken, ViolationsAt, OutputAt;
  }

  /** An approval is good for one judgement: after a write was let through on `token`, and until that is
      approved again, a judgement is a denial exactly when something blocks it, unless escalations alone do
      and their token is another one that stands approved. */
  lemma ApprovalCoversOneJudgement(env: Env, trace: seq<Event>, i: nat, k: nat, token: string)
    requires i < k && LetThrough(env, trace, i, token) && WasJudged(env, trace, k)
    requires forall j :: i < j < k ==> trace[j] != Approve(token)
    ensures var violations := ViolationsAt(env, trace, k);
      var next := EscalationToken(env, trace[k].write.path, violations);
      OutputAt(env, trace, k).judgement.verdict.Denied?
      <==> (Holds(violations, Deny) || Holds(violations, Escalate))
           && !(!Holds(violations, Deny) && next.Some? && next != Some(token)
                && StandsApproved(env, trace, k, next.value))
  {
    var violations := ViolationsAt(env, trace, k);
    var next := EscalationToken(env, trace[k].write.path, violations);
    var consumed := OutputAt(env, trace, k).judgement.consumed;
    DeniedIff(violations);
    hide Holds, HasHardDeny, IsDenied, EscalationToken, ViolationsAt, OutputAt, LetThrough, StandsApproved;
    DeniedUnlessLetThrough(env, trace, k);
    UsedUp(env, trace, i, k, token);
    if consumed.Some? {
      ConsumedIsLetThrough(env, trace, k);
      LetThroughIff(env, trace, k, consumed.value);
    } else if next.Some? {
      NothingConsumed(env, trace, k, next.value);
      LetThroughIff(env, trace, k, next.value);
    }
  }

  lemma NothingConsumed(env: Env, trace: seq<Event>, i: nat, token: string)
    requires WasJudged(env, trace, i) && OutputAt(env, trace, i).judgement.consumed.None?
    ensures !LetThrough(env, trace, i, token)
  {
  }

  lemma ConsumedIsLetThrough(env: Env, trace: seq<Event>, i: nat)
    requires WasJudged(env, trace, i) && OutputAt(env, trace, i).judgement.consumed.Some?
    ensures LetThrough(env, trace, i, OutputAt(env, trace, i).judgement.consumed.value)
  {
  }

  lemma UsedUp(env: Env, trace: seq<Event>, i: nat, k: nat, token: string)
    requires i < k <= |trace| && LetThrough(env, trace, i, token)
    requires forall j :: i < j < k ==> trace[j] != Approve(token)
    ensures !StandsApproved(env, trace, k, token)
  {
    hide LetThrough;
    if StandsApproved(env, trace, k, token) {
      var a: nat :| ApprovedAndUnused(env, trace, a, k, token);
      if a == i {
        ApprovingLetsNothingThrough(env, trace, i, token);
      }
    }
  }

  function EscalateAll(findings: seq<Finding>): seq<Violation> {
    if findings == [] then []
    else EscalateAll(findings[..|findings| - 1]) + [Violation(Escalate, Some(findings[|findings| - 1]))]
  }

  /** A policy that escalates whatever is found. */
  function EscalatingPolicy(): Policy {
    Policy(true, [], (pattern, path) => false, [],
           (path, findings, provenance, hasScenario) => EscalateAll(findings))
  }

  /** A write with one finding is approved, let through before it lands, and denied once it has. */
  lemma ApprovedWriteIsDeniedOnceItLanded(env: Env, finding: Finding, w: Write)
    requires JudgedFindings(w) == Some([finding])
    ensures var policy, v := EscalatingPolicy(), Violation(Escalate, Some(finding));
      var token := EscalationToken(env, w.path, [v]);
      && token.Some?
      && var trace := [Approve(token.value), HookWrite(false, Some(policy), w), HookWrite(true, Some(policy), w)];
         && LetThrough(env, trace, 1, token.value)
         && WasJudged(env, trace, 2) && OutputAt(env, trace, 2).judgement.verdict == Denied(w.path, [v])
  {
    var policy, v := EscalatingPolicy(), Violation(Escalate, Some(finding));
    assert EscalateAll([finding]) == [v] by { assert [finding][..0] == []; }
    assert Escalating([v]) == [finding] by { assert [v][1..] == []; }
    hide JudgedFindings, EscalateAll;
    var token := EscalationToken(env, w.path, [v]).value;
    var trace := [Approve(token), HookWrite(false, Some(policy), w), HookWrite(true, Some(policy), w)];
  }

  // ----- what a token is made of -----

  lemma {:induction false} DescribeAllAppend(a: seq<Finding>, b: seq<Finding>)
    ensures DescribeAll(a + b) == DescribeAll(a) + DescribeAll(b)
  {
    if a == [] {
      assert a + b == b;
    } else {
      assert (a + b)[1..] == a[1..] + b;
      DescribeAllAppend(a[1..], b);
    }
  }

  lemma DescribeAllAround(before: seq<Finding>, f: Finding, after: seq<Finding>)
    ensures multiset(DescribeAll(before + [f] + after)) == multiset(DescribeAll(before + after)) + multiset{Describe(f)}
  {
    hide Describe;
    DescribeAllAppend(before + [f], after);
    DescribeAllAppend(before, [f]);
    DescribeAllAppend(before, after);
    assert DescribeAll([f]) == [Describe(f)];
  }

  lemma {:induction false} DescribeAllIgnoresOrder(a: seq<Finding>, b: seq<Finding>)
    requires multiset(a) == multiset(b)
    ensures multiset(DescribeAll(a)) == multiset(DescribeAll(b))
  {
    hide DescribeAll;
    if a == [] {
      assert |multiset(b)| == 0;
    } else {
      var rest := a[1..];
      assert a == [] + [a[0]] + rest && [] + rest == rest;
      var before, after := Sorting.TakeOut([], a[0], rest, b);
      DescribeAllIgnoresOrder(rest, before + after);
      DescribeAllAround(before, a[0], after);
      DescribeAllAround([], a[0], rest);
    }
  }

  lemma AtMostIsTotalOrder()
    ensures Sorting.TotalOrder(AtMost)
  {
    forall a, b ensures (AtMost(a, b) || AtMost(b, a)) && (AtMost(a, b) && AtMost(b, a) ==> a == b) {
      Ordering.LessTotal(a, b);
    }
    forall a, b, c | AtMost(a, b) && AtMost(b, c) ensures AtMost(a, c) {
      if a != b && b != c {
        Ordering.LessTransitive(a, b, c);
      }
    }
  }

  lemma EscalatingMultisetIsEnough(env: Env, path: string, a: seq<Violation>, b: seq<Violation>)
    requires multiset(Escalating(a)) == multiset(Escalating(b))
    ensures EscalationToken(env, path, a) == EscalationToken(env, path, b)
  {
    DescribeAllIgnoresOrder(Escalating(a), Escalating(b));
    var x, y := DescribeAll(Escalating(a)), DescribeAll(Escalating(b));
    assert |multiset(x)| == |multiset(y)|;
    AtMostIsTotalOrder();
    Sorting.SortIgnoresOrder(AtMost, x, y);
  }

  /** How many violations escalate this finding. */
  function Escalations(violations: seq<Violation>, finding: Finding): nat {
    if violations == [] then 0
    else Escalations(violations[1..], finding)
         + (if violations[0] == Violation(Escalate, Some(finding)) then 1 else 0)
  }

  lemma {:induction false} EscalatingCounts(violations: seq<Violation>, finding: Finding)
    ensures multiset(Escalating(violations))[finding] == Escalations(violations, finding)
  {
    if violations != [] {
      EscalatingCounts(violations[1..], finding);
    }
  }

  lemma {:induction false} EscalationsOfConcat(a: seq<Violation>, b: seq<Violation>, finding: Finding)
    ensures Escalations(a + b, finding) == Escalations(a, finding) + Escalations(b, finding)
  {
    if a == [] {
      assert a + b == b;
    } else {
      assert (a + b)[1..] == a[1..] + b;
      EscalationsOfConcat(a[1..], b, finding);
    }
  }

  lemma EscalationsAround(before: seq<Violation>, v: Violation, after: seq<Violation>, finding: Finding)
    ensures Escalations(before + [v] + after, finding)
         == Escalations(before + after, finding) + Escalations([v], finding)
  {
    hide Escalations;
    EscalationsOfConcat(before + [v], after, finding);
    EscalationsOfConcat(before, [v], finding);
    EscalationsOfConcat(before, after, finding);
  }

  lemma {:induction false} EscalationsIgnoreOrder(a: seq<Violation>, b: seq<Violation>, finding: Finding)
    requires multiset(a) == multiset(b)
    ensures Escalations(a, finding) == Escalations(b, finding)
  {
    hide Escalations;
    if a == [] {
      assert |multiset(b)| == 0;
    } else {
      var rest := a[1..];
      assert a == [] + [a[0]] + rest && [] + rest == rest;
      var before, after := Sorting.TakeOut([], a[0], rest, b);
      EscalationsIgnoreOrder(rest, before + after, finding);
      EscalationsAround([], a[0], rest, finding);
      EscalationsAround(before, a[0], after, finding);
    }
  }

  /** The token of a write depends on its path and on how often each finding is escalated, and on nothing
      else. */
  lemma TokenIsOfTheEscalatingMultiset(env: Env, path: string, a: seq<Violation>, b: seq<Violation>)
    requires forall finding :: Escalations(a, finding) == Escalations(b, finding)
    ensures EscalationToken(env, path, a) == EscalationToken(env, path, b)
  {
    hide Escalations, EscalationToken, Escalating;
    var x, y := multiset(Escalating(a)), multiset(Escalating(b));
    forall finding ensures x[finding] == y[finding] {
      EscalatingCounts(a, finding);
      EscalatingCounts(b, finding);
    }
    assert x == y;
    EscalatingMultisetIsEnough(env, path, a, b);
  }

  /** So other violations, wherever they stand, make no difference to it. */
  lemma TokenIgnoresOthers(env: Env, path: string, before: seq<Violation>, v: Violation, after: seq<Violation>)
    requires v.enforcement != Escalate
    ensures EscalationToken(env, path, before + [v] + after) == EscalationToken(env, path, before + after)
  {
    hide EscalationToken;
    forall finding ensures Escalations(before + [v] + after, finding) == Escalations(before + after, finding) {
      assert Escalations([v], finding) == 0;
      EscalationsAround(before, v, after, finding);
    }
    TokenIsOfTheEscalatingMultiset(env, path, before + [v] + after, before + after);
  }

  /** Nor does their order. */
  lemma TokenIgnoresOrder(env: Env, path: string, a: seq<Violation>, b: seq<Violation>)
    requires multiset(a) == multiset(b)
    ensures EscalationToken(env, path, a) == EscalationToken(env, path, b)
  {
    hide EscalationToken, Escalations;
    forall finding ensures Escalations(a, finding) == Escalations(b, finding) {
      EscalationsIgnoreOrder(a, b, finding);
    }
    TokenIsOfTheEscalatingMultiset(env, path, a, b);
  }

  /** There is a token exactly when some violation escalates a finding. */
  lemma {:induction false} TokenIffSomethingEscalates(env: Env, path: string, violations: seq<Violation>)
    ensures EscalationToken(env, path, violations).Some?
            <==> exists k :: 0 <= k < |violations|
                   && violations[k].enforcement == Escalate && violations[k].finding.Some?
  {
    if violations != [] {
      TokenIffSomethingEscalates(env, path, violations[1..]);
      assert forall k :: 1 <= k < |violations| ==> violations[k] == violations[1..][k - 1];
      assert forall k :: 0 <= k < |violations| - 1 ==> violations[1..][k] == violations[k + 1];
    }
  }

  lemma DescribesOne(env: Env, path: string, finding: Finding)
    ensures EscalationToken(env, path, [Violation(Escalate, Some(finding))])
         == Some(env.digest(path, Describe(finding)))
  {
    hide Describe;
    var v, d := Violation(Escalate, Some(finding)), Describe(finding);
    assert [v][1..] == [] && Escalating([v]) == [finding];
    assert [finding][1..] == [] && DescribeAll([finding]) == [d];
    assert [d][1..] == [] && Sorting.Sort(AtMost, []) == [] && Sorting.Sort(AtMost, [d]) == [d];
  }

  lemma LineAndMessageReadBack(line: nat, message: string)
    ensures Text.SplitOnce(Text.Decimal(line) + ":" + message, ':') == Some((Text.Decimal(line), message))
  {
    Text.DecimalReads(line);
    hide Text.Decimal, Text.SplitOnce, Text.Value;
    Text.SplitOnceOfConcat(Text.Decimal(line), ':', message);
  }

  lemma DescriptionTellsApart(f: Finding, g: Finding)
    requires f.rule == g.rule && Describe(f) == Describe(g)
    ensures f == g
  {
    hide Text.Decimal, Text.SplitOnce;
    var n := |f.rule| + 1;
    assert Describe(f)[n..] == Text.Decimal(f.line) + ":" + f.message;
    assert Describe(g)[n..] == Text.Decimal(g.line) + ":" + g.message;
    LineAndMessageReadBack(f.line, f.message);
    LineAndMessageReadBack(g.line, g.message);
    assert f.line == g.line by {
      Text.DecimalReads(f.line);
      Text.DecimalReads(g.line);
    }
  }

  /** The tokens of two findings of one rule are the same only for the same path, line and message, if the
      digest tells texts apart. */
  lemma TokensTellFindingsApart(env: Env, p: string, q: string, f: Finding, g: Finding)
    requires TellsApart(env) && f.rule == g.rule
    ensures var escalateF, escalateG := [Violation(Escalate, Some(f))], [Violation(Escalate, Some(g))];
      EscalationToken(env, p, escalateF) == EscalationToken(env, q, escalateG)
      <==> p == q && f.line == g.line && f.message == g.message
  {
    hide EscalationToken, Describe;
    DescribesOne(env, p, f);
    DescribesOne(env, q, g);
    if Describe(f) == Describe(g) {
      DescriptionTellsApart(f, g);
    }
  }

  // ----- the program itself -----

  method FindExitCode(response: Json) returns (code: Option<int>)
    ensures code == BashExitCode(response)
    ensures match code
      case Some(c) => Reports(response, c)
      case None => forall c :: !Reports(response, c)
  {
    forall c ensures BashExitCode(response) == Some(c) <==> Reports(response, c) {
      ExitCodeIsReported(response, c);
    }
    hide Reports;
    for i := 0 to |EXIT_CODE_KEYS|
      invariant FirstInteger(response, EXIT_CODE_KEYS[i..]) == BashExitCode(response)
    {
      var member := response.Get(EXIT_CODE_KEYS[i]);
      if member.Some? && AsI64(member.value).Some? {
        return AsI64(member.value);
      }
      assert EXIT_CODE_KEYS[i..][1..] == EXIT_CODE_KEYS[i + 1..];
    }
    code := None;
  }

  /** A guarded repository: the recorded stores, and what has happened to it. */
  class Repository {
    const env: Env
    var approvals: set<string>
    var pendingPaths: set<string>
    var loopSignature: Option<string>
    var loopCount: nat
    var touched: set<string>
    ghost var trace: seq<Event>

    ghost function Now(): Stores
      reads this
    {
      Stores(approvals, pendingPaths, loopSignature, loopCount, touched)
    }

    ghost predicate Valid()
      reads this
    {
      Now() == Run(env, trace)
    }

    constructor (env: Env)
      ensures Valid() && this.env == env && trace == []
    {
      this.env := env;
      approvals, pendingPaths, loopSignature, loopCount, touched := {}, {}, None, 0, {};
      trace := [];
    }

    /** Adds the event just handled to the history. */
    ghost method Happened(e: Event, before: Stores)
      requires before == Run(env, trace) && Now() == Step(env, before, e).0
      modifies this`trace
      ensures trace == old(trace) + [e] && Valid()
    {
      hide Step;
      trace := trace + [e];
      assert trace[..|trace| - 1] == old(trace);
    }

    method TrackLoopGuard(w: Write) returns (streak: nat)
      modifies this`loopSignature, this`loopCount
      ensures Now() == TrackLoop(env, old(Now()), w) && streak == loopCount
    {
      var signature := WriteSignature(env, w);
      loopCount := if loopSignature == Some(signature) then loopCount + 1 else 1;
      loopSignature := Some(signature);
      streak := loopCount;
    }

    method RecordProvenanceTouch(path: string)
      modifies this`touched
      ensures touched == old(touched) + {path}
    {
      if path !in touched {
        touched := touched + {path};
      }
    }

    method Judge(policy: Policy, w: Write) returns (j: Option<Judgement>)
      modifies this`touched, this`approvals
      ensures (Now(), j) == JudgeWrite(env, policy, old(Now()), w)
    {
      hide IsDenied, HasHardDeny, EscalationToken, WithoutEscalations;
      var findings := JudgedFindings(w);
      if findings.None? {
        return None;
      }
      var provenance := ProvenanceFor(touched, w.path);
      var violations := policy.evaluate(w.path, findings.value, provenance, w.hasScenario);
      RecordProvenanceTouch(w.path);
      var verdict := VerdictOf(w.path, violations);
      if !verdict.Denied? || HasHardDeny(verdict.violations) {
        return Some(Judgement(provenance, verdict, None));
      }
      var token := EscalationToken(env, verdict.path, verdict.violations);
      if token.None? || token.value !in approvals {
        return Some(Judgement(provenance, verdict, None));
      }
      approvals := approvals - {token.value};
      return Some(Judgement(provenance, VerdictOf(verdict.path, WithoutEscalations(verdict.violations)), token));
    }

    method RecordGateWrite(policy: Policy, path: string)
      modifies this`pendingPaths
      ensures Now() == RecordExecutionGateWrite(policy, old(Now()), path)
    {
      if TestRequiredReasonFor(policy, path).Some? {
        pendingPaths := pendingPaths + {path};
      }
    }

    method RecordTestRun(policy: Policy, command: string, response: Json)
      modifies this`pendingPaths
      ensures Now() == RecordBashTestRun(env, policy, old(Now()), command, response)
    {
      if !MatchesTestPattern(env, command, policy.testCommandPatterns) {
        return;
      }
      var code := FindExitCode(response);
      if code.Some? && code.value != 0 {
        return;
      }
      pendingPaths := {};
    }

    method ApproveEscalation(token: string)
      requires Valid()
      modifies this
      ensures Valid() && trace == old(trace) + [Approve(token)]
    {
      ghost var before := Now();
      approvals := approvals + {token};
      Happened(Approve(token), before);
    }

    method ResetLoopGuard()
      requires Valid()
      modifies this
      ensures Valid() && trace == old(trace) + [ResetLoopAlarm]
    {
      ghost var before := Now();
      loopSignature, loopCount := None, 0;
      Happened(ResetLoopAlarm, before);
    }

    method ClaudeCodeWrite(post: bool, policy: Option<Policy>, w: Write) returns (out: Output)
      requires Valid()
      modifies this
      ensures Valid() && trace == old(trace) + [HookWrite(post, policy, w)]
      ensures out == OutputAt(env, trace, |old(trace)|)
    {
      hide JudgeWrite, TrackLoop, Run;
      ghost var e, before := HookWrite(post, policy, w), Now();
      if policy.None? || !policy.value.enabled {
        out := Quiet;
      } else {
        var streak := TrackLoopGuard(w);
        var j := Judge(policy.value, w);
        if j.None? {
          out := JudgeFailed;
        } else {
          if post {
            RecordGateWrite(policy.value, w.path);
          }
          out := Judged(j.value, streak);
        }
      }
      Happened(e, before);
      assert trace[..|old(trace)|] == old(trace);
    }

    method RunCheck(policy: Option<Policy>, w: Write) returns (out: Output)
      requires Valid()
      modifies this
      ensures Valid() && trace == old(trace) + [Check(policy, w)]
      ensures out == OutputAt(env, trace, |old(trace)|)
    {
      hide JudgeWrite, TrackLoop, Run;
      ghost var e, before := Check(policy, w), Now();
      if policy.None? || !policy.value.enabled {
        out := Quiet;
      } else {
        var streak := TrackLoopGuard(w);
        var j := Judge(policy.value, w);
        out := if j.None? then JudgeFailed else Judged(j.value, streak);
      }
      Happened(e, before);
      assert trace[..|old(trace)|] == old(trace);
    }

    method JudgeAgentWrite(policy: Policy, w: Write) returns (out: Output)
      requires Valid()
      modifies this
      ensures Valid() && trace == old(trace) + [AgentWrite(policy, w)]
      ensures out == OutputAt(env, trace, |old(trace)|)
    {
      hide JudgeWrite, TrackLoop, Run;
      ghost var e, before := AgentWrite(policy, w), Now();
      var j := Judge(policy, w);
      if j.None? {
        out := JudgeFailed;
      } else {
        var streak := TrackLoopGuard(w);
        out := Judged(j.value, streak);
      }
      Happened(e, before);
      assert trace[..|old(trace)|] == old(trace);
    }

    method ClaudeCodeBash(policy: Option<Policy>, command: Option<string>, response: Json)
      requires Valid()
      modifies this
      ensures Valid() && trace == old(trace) + [BashRun(policy, command, response)]
    {
      hide RecordBashTestRun, Run;
      ghost var e, before := BashRun(policy, command, response), Now();
      if policy.Some? && command.Some? && policy.value.enabled {
        RecordTestRun(policy.value, command.value, response);
      }
      Happened(e, before);
    }

    method ClaudeCodeStop(policy: Option<Policy>) returns (out: Output)
      requires Valid()
      modifies this
      ensures Valid() && trace == old(trace) + [Stop(policy)]
      ensures out == OutputAt(env, trace, |old(trace)|)
    {
      hide PendingEvidence, Run;
      ghost var e, before := Stop(policy), Now();
      out := Quiet;
      if policy.Some? && policy.value.enabled && policy.value.testRequired != [] {
        var missing := PendingEvidence(policy.value, pendingPaths);
        if missing != [] {
          out := Blocked(missing);
        }
      }
      Happened(e, before);
      assert trace[..|old(trace)|] == old(trace);
    }
  }
}
