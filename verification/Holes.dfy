/** Test-first hole filling against an agent that is not trusted.

    The workspace is a file tree. The agent and the test suite are arbitrary: each is
    a function of everything that has happened so far, and each may rewrite the whole
    tree. A log keeps what was really run and the tree before and after it, so that the
    meaning of exit code 0 can be stated over the log, apart from the code that
    decides it. */
module Holes {
  import opened Wrappers
  import Ordering

  // ----- the workspace -----

  type Tree = map<string, string>
  type Snapshot = map<string, nat>

  datatype Hole = Hole(file: string, name: string, export_: Option<string>, declaredIn: Option<string>)

  /** The scanners and the file fingerprint, none of which this model looks into. */
  datatype Env = Env(
    scan: (Tree, string) -> seq<Hole>,
    markerHoles: (string, string) -> seq<Hole>,
    waspHoles: (Tree, string) -> seq<Hole>,
    visible: (Tree, string) -> bool,
    fingerprint: string -> nat)

  function ContentOrEmpty(t: Tree, path: string): string {
    if path in t then t[path] else ""
  }

  predicate StillPending(env: Env, t: Tree, hole: Hole) {
    var rescanned := match hole.declaredIn
      case Some(wasp) => env.waspHoles(t, wasp)
      case None => env.markerHoles(hole.file, ContentOrEmpty(t, hole.file));
    exists h :: h in rescanned && h.file == hole.file && h.name == hole.name && h.export_ == hole.export_
  }

  /** What the scanner lists now: of the hole's file, empty if it is not there, or of the Wasp file
      declaring the hole. */
  function ListedNow(env: Env, t: Tree, hole: Hole): seq<Hole> {
    match hole.declaredIn
    case Some(wasp) => env.waspHoles(t, wasp)
    case None => env.markerHoles(hole.file, if hole.file in t then t[hole.file] else "")
  }

  predicate IsOther(a: Hole, b: Hole) {
    a.file != b.file || a.name != b.name || a.export_ != b.export_
  }

  /** A hole is pending exactly while it is listed, or one with its file, name and export is. */
  lemma PendingIffListed(env: Env, t: Tree, hole: Hole)
    ensures StillPending(env, t, hole) <==> exists h :: h in ListedNow(env, t, hole) && !IsOther(h, hole)
  {
    if StillPending(env, t, hole) {
      var h :| h in ListedNow(env, t, hole) && h.file == hole.file && h.name == hole.name && h.export_ == hole.export_;
      assert !IsOther(h, hole);
    }
  }

  function TakeSnapshot(env: Env, t: Tree): Snapshot {
    map p | p in t && env.visible(t, p) :: env.fingerprint(t[p])
  }

  function Lookup(s: Snapshot, p: string): Option<nat> {
    if p in s then Some(s[p]) else None
  }

  function Differing(paths: seq<string>, before: Snapshot, after: Snapshot): seq<string> {
    if paths == [] then []
    else (if Lookup(before, paths[0]) != Lookup(after, paths[0]) then [paths[0]] else [])
         + Differing(paths[1..], before, after)
  }

  /** Paths present afterwards whose fingerprint is new or different, in path order. */
  function Changed(before: Snapshot, after: Snapshot): seq<string> {
    Differing(Ordering.SortedSeq(after.Keys), before, after)
  }

  lemma {:induction false} DifferingMembers(paths: seq<string>, before: Snapshot, after: Snapshot, p: string)
    ensures p in Differing(paths, before, after) <==> p in paths && Lookup(before, p) != Lookup(after, p)
  {
    if paths != [] {
      DifferingMembers(paths[1..], before, after, p);
    }
  }

  // ----- what is run, and the record of it -----

  datatype RunOutcome =
    | Completed(turns: nat) | Incomplete | BudgetExhausted | CircuitBreakerTripped | Looping
    | Failed(error: string)

  datatype TestRun = Green | Red(tail: string)

  datatype Task = FillHole(hole: Hole) | WriteTest(hole: Hole) | MakePass(hole: Hole, tests: seq<string>)

  datatype Event =
    | SuiteRan(before: Tree, after: Tree, verdict: TestRun)
    | AgentRan(task: Task, before: Tree, after: Tree, outcome: RunOutcome)

  /** Any agent and any suite: `None` is a run that could not be carried out at all. */
  datatype World = World(
    agent: (seq<Event>, Tree, Task) -> (Tree, Option<RunOutcome>),
    suite: (seq<Event>, Tree) -> (Tree, Option<TestRun>))

  datatype State = State(tree: Tree, log: seq<Event>)

  function RunSuite(w: World, s: State): (State, Option<TestRun>) {
    var (after, verdict) := w.suite(s.log, s.tree);
    (State(after, if verdict.Some? then s.log + [SuiteRan(s.tree, after, verdict.value)] else s.log), verdict)
  }

  function RunAgent(w: World, s: State, task: Task): (State, Option<RunOutcome>) {
    var (after, outcome) := w.agent(s.log, s.tree, task);
    (State(after, if outcome.Some? then s.log + [AgentRan(task, s.tree, after, outcome.value)] else s.log), outcome)
  }

  // ----- attempts -----

  datatype Refusal =
    | RedBefore(tail: string)
    | RedRunFailed
    | FilledBeforeTest
    | NoTestWritten
    | TestsStillPass(tests: seq<string>)
    | ChangedRedTests(touched: seq<string>)
    | TestsStillFail(tail: string)

  datatype Attempt = Attempt(hole: Hole, outcome: RunOutcome, filled: bool, refused: Option<Refusal>) {
    predicate Accepted() {
      filled && refused.None?
    }
  }

  datatype Broken = AgentBroke | SuiteBroke

  function RedGreen(w: World, env: Env, hole: Hole, s: State): (State, Result<Attempt, Broken>) {
    var (s1, before) := RunSuite(w, s);
    if before.None? then (s1, Err(SuiteBroke))
    else if before.value.Red? then
      (s1, Ok(Attempt(hole, Completed(0), false, Some(RedBefore(before.value.tail)))))
    else RedPhase(w, env, hole, s1)
  }

  function RedPhase(w: World, env: Env, hole: Hole, s: State): (State, Result<Attempt, Broken>) {
    var (s2, red) := RunAgent(w, s, WriteTest(hole));
    if red.None? then (s2, Err(AgentBroke))
    else if red.value.Failed? then (s2, Ok(Attempt(hole, red.value, false, Some(RedRunFailed))))
    else
      var afterRed := TakeSnapshot(env, s2.tree);
      var tests := Changed(TakeSnapshot(env, s.tree), afterRed);
      if !StillPending(env, s2.tree, hole) then
        (s2, Ok(Attempt(hole, red.value, true, Some(FilledBeforeTest))))
      else if tests == [] then
        (s2, Ok(Attempt(hole, red.value, false, Some(NoTestWritten))))
      else CheckRed(w, env, hole, tests, afterRed, red.value, s2)
  }

  function CheckRed(w: World, env: Env, hole: Hole, tests: seq<string>, afterRed: Snapshot, red: RunOutcome, s: State)
    : (State, Result<Attempt, Broken>)
  {
    var (s3, mid) := RunSuite(w, s);
    if mid.None? then (s3, Err(SuiteBroke))
    else if mid.value.Green? then (s3, Ok(Attempt(hole, red, false, Some(TestsStillPass(tests)))))
    else GreenPhase(w, env, hole, tests, afterRed, s3)
  }

  function GreenPhase(w: World, env: Env, hole: Hole, tests: seq<string>, afterRed: Snapshot, s: State)
    : (State, Result<Attempt, Broken>)
  {
    var (s4, green) := RunAgent(w, s, MakePass(hole, tests));
    if green.None? then (s4, Err(AgentBroke))
    else
      var filled := !StillPending(env, s4.tree, hole);
      if green.value.Failed? then (s4, Ok(Attempt(hole, green.value, filled, None)))
      else
        var touched := Differing(tests, afterRed, TakeSnapshot(env, s4.tree));
        if touched != [] then
          (s4, Ok(Attempt(hole, green.value, filled, Some(ChangedRedTests(touched)))))
        else if !filled then (s4, Ok(Attempt(hole, green.value, filled, None)))
        else
          var (s5, last) := RunSuite(w, s4);
          if last.None? then (s5, Err(SuiteBroke))
          else if last.value.Red? then
            (s5, Ok(Attempt(hole, green.value, filled, Some(TestsStillFail(last.value.tail)))))
          else (s5, Ok(Attempt(hole, green.value, filled, None)))
  }

  function FillOnce(w: World, env: Env, hole: Hole, s: State): (State, Result<Attempt, Broken>) {
    var (s1, outcome) := RunAgent(w, s, FillHole(hole));
    if outcome.None? then (s1, Err(AgentBroke))
    else (s1, Ok(Attempt(hole, outcome.value, !StillPending(env, s1.tree, hole), None)))
  }

  function AttemptHole(w: World, env: Env, gated: bool, hole: Hole, s: State): (State, Result<Attempt, Broken>) {
    if gated then RedGreen(w, env, hole, s) else FillOnce(w, env, hole, s)
  }

  predicate Stops(a: Attempt) {
    a.outcome.Failed? || (a.refused.Some? && a.refused.value.RedBefore?)
  }

  function Prepend(done: seq<Attempt>, r: Result<seq<Attempt>, Broken>): Result<seq<Attempt>, Broken> {
    match r
    case Ok(rest) => Ok(done + rest)
    case Err(e) => Err(e)
  }

  lemma PrependNothing(r: Result<seq<Attempt>, Broken>)
    ensures Prepend([], r) == r
  {
    if r.Ok? {
      assert [] + r.value == r.value;
    }
  }

  lemma PrependTwice(done: seq<Attempt>, a: Attempt, r: Result<seq<Attempt>, Broken>)
    ensures Prepend(done, Prepend([a], r)) == Prepend(done + [a], r)
  {
    if r.Ok? {
      assert done + ([a] + r.value) == done + [a] + r.value;
    }
  }

  function FillAll(w: World, env: Env, gated: bool, holes: seq<Hole>, s: State)
    : (State, Result<seq<Attempt>, Broken>)
  {
    if holes == [] then (s, Ok([]))
    else
      var (s1, r) := AttemptHole(w, env, gated, holes[0], s);
      if r.Err? then (s1, Err(r.error))
      else if Stops(r.value) then (s1, Ok([r.value]))
      else
        var (s2, rest) := FillAll(w, env, gated, holes[1..], s1);
        (s2, Prepend([r.value], rest))
  }

  // ----- selection and exit code -----

  datatype FillArgs = FillArgs(scope: string, only: Option<string>, limit: nat, gated: bool)

  predicate EndsWith(s: string, suffix: string) {
    |suffix| <= |s| && s[|s| - |suffix|..] == suffix
  }

  predicate Wanted(args: FillArgs, hole: Hole) {
    args.only.None? || hole.name == args.only.value || EndsWith(hole.name, " " + args.only.value)
  }

  /** Asked for by name: the hole's name, or the last word or words of it. */
  lemma WantedIff(args: FillArgs, hole: Hole)
    ensures Wanted(args, hole)
            <==> match args.only
                 case None => true
                 case Some(name) => hole.name == name || exists kind :: hole.name == kind + " " + name
  {
    if args.only.Some? && EndsWith(hole.name, " " + args.only.value) {
      var name := args.only.value;
      assert hole.name == hole.name[..|hole.name| - |name| - 1] + " " + name;
    }
  }

  function SelectFrom(args: FillArgs, holes: seq<Hole>, limit: nat): seq<Hole> {
    if holes == [] || limit == 0 then []
    else if Wanted(args, holes[0]) then [holes[0]] + SelectFrom(args, holes[1..], limit - 1)
    else SelectFrom(args, holes[1..], limit)
  }

  function Select(env: Env, args: FillArgs, t: Tree): seq<Hole> {
    SelectFrom(args, env.scan(t, args.scope), args.limit)
  }

  function AllWanted(args: FillArgs, holes: seq<Hole>): seq<Hole> {
    if holes == [] then []
    else (if Wanted(args, holes[0]) then [holes[0]] else []) + AllWanted(args, holes[1..])
  }

  /** The selection is what was asked for, cut off at the limit. */
  lemma {:induction false} SelectTakesTheFirstWanted(args: FillArgs, holes: seq<Hole>, limit: nat)
    ensures var wanted := AllWanted(args, holes);
      SelectFrom(args, holes, limit) == if limit <= |wanted| then wanted[..limit] else wanted
  {
    hide Wanted;
    if holes != [] && limit != 0 {
      var next := if Wanted(args, holes[0]) then limit - 1 else limit;
      SelectTakesTheFirstWanted(args, holes[1..], next);
    }
  }

  function FillWith(w: World, env: Env, args: FillArgs, t: Tree): (State, Result<seq<Attempt>, Broken>) {
    FillAll(w, env, args.gated, Select(env, args, t), State(t, []))
  }

  function ExitCode(attempts: seq<Attempt>): nat {
    if exists i :: 0 <= i < |attempts| && attempts[i].outcome.Failed? then 1
    else if forall i :: 0 <= i < |attempts| ==> attempts[i].Accepted() then 0
    else 3
  }

  // ----- what a hole filled test-first looks like in the log -----

  function FingerprintOf(env: Env, t: Tree, p: string): Option<nat> {
    if p in t && env.visible(t, p) then Some(env.fingerprint(t[p])) else None
  }

  /** The run left `p` visible with a fingerprint it did not have before. */
  predicate Wrote(env: Env, run: Event, p: string) {
    FingerprintOf(env, run.after, p).Some? && FingerprintOf(env, run.before, p) != FingerprintOf(env, run.after, p)
  }

  ghost predicate WroteSomething(env: Env, run: Event) {
    exists p :: Wrote(env, run, p)
  }

  /** Everything `red` wrote has, in `t`, the fingerprint `red` gave it. */
  ghost predicate KeepsWhatRedWrote(env: Env, red: Event, t: Tree) {
    forall p :: Wrote(env, red, p) ==> FingerprintOf(env, t, p) == FingerprintOf(env, red.after, p)
  }

  predicate RanGreen(run: Event) {
    run.SuiteRan? && run.verdict.Green?
  }

  predicate RanRed(run: Event) {
    run.SuiteRan? && run.verdict.Red?
  }

  /** Five runs that fill `hole` test-first: a green suite; an agent run that wrote something
      and left the hole open; a red suite; an agent run that closed the hole and left
      everything the first one wrote as it was; a green suite. */
  ghost predicate TestFirst(env: Env, hole: Hole, runs: seq<Event>) {
    |runs| == 5 && OnTrack(env, hole, runs)
  }

  /** `runs` is, as far as it goes, hole filling done test-first. */
  ghost predicate OnTrack(env: Env, hole: Hole, runs: seq<Event>) {
    && (|runs| > 0 ==> RanGreen(runs[0]))
    && (|runs| > 1 ==> WritesFailingTest(env, hole, runs[1]))
    && (|runs| > 2 ==> RanRed(runs[2]))
    && (|runs| > 3 ==> FillsHeldToTest(env, hole, runs[1], runs[3]))
    && (|runs| > 4 ==> RanGreen(runs[4]))
  }

  ghost predicate WritesFailingTest(env: Env, hole: Hole, run: Event) {
    && run.AgentRan? && run.task == WriteTest(hole) && !run.outcome.Failed?
    && StillPending(env, run.after, hole) && WroteSomething(env, run)
  }

  /** The task is to fill `hole` and make exactly the files `red` wrote pass. */
  ghost predicate ToldToPass(env: Env, hole: Hole, red: Event, task: Task) {
    task.MakePass? && task.hole == hole && AreWritten(env, red, task.tests)
  }

  ghost predicate FillsHeldToTest(env: Env, hole: Hole, red: Event, run: Event) {
    && run.AgentRan? && ToldToPass(env, hole, red, run.task) && !run.outcome.Failed?
    && !StillPending(env, run.after, hole) && KeepsWhatRedWrote(env, red, run.after)
  }

  /** Each run started on the tree the previous one left. */
  ghost predicate Chained(start: Tree, log: seq<Event>, end: Tree) {
    && (log == [] ==> start == end)
    && (log != [] ==> log[0].before == start && log[|log| - 1].after == end)
    && (forall i :: 0 <= i < |log| - 1 ==> log[i].after == log[i + 1].before)
  }

  lemma LookupIsFingerprint(env: Env, t: Tree, p: string)
    ensures Lookup(TakeSnapshot(env, t), p) == FingerprintOf(env, t, p)
  {
  }

  lemma ChangedIsWrote(env: Env, run: Event, p: string)
    ensures p in Changed(TakeSnapshot(env, run.before), TakeSnapshot(env, run.after)) <==> Wrote(env, run, p)
  {
    var b, a := TakeSnapshot(env, run.before), TakeSnapshot(env, run.after);
    DifferingMembers(Ordering.SortedSeq(a.Keys), b, a, p);
    LookupIsFingerprint(env, run.before, p);
    LookupIsFingerprint(env, run.after, p);
    hide TakeSnapshot, FingerprintOf, Differing;
  }

  lemma NothingChangedIsNothingWrote(env: Env, run: Event)
    ensures Changed(TakeSnapshot(env, run.before), TakeSnapshot(env, run.after)) == [] <==> !WroteSomething(env, run)
  {
    hide Changed, TakeSnapshot, Wrote;
    var tests := Changed(TakeSnapshot(env, run.before), TakeSnapshot(env, run.after));
    forall p ensures p in tests <==> Wrote(env, run, p) {
      ChangedIsWrote(env, run, p);
    }
    if tests != [] {
      assert tests[0] in tests;
    }
  }

  lemma TouchedIsWhatDiffers(env: Env, red: Event, t: Tree)
    ensures var a := TakeSnapshot(env, red.after);
      TouchedIsRecorded(env, red, t, Differing(Changed(TakeSnapshot(env, red.before), a), a, TakeSnapshot(env, t)))
  {
    hide Changed, TakeSnapshot, Wrote, Lookup, FingerprintOf, Differing;
    var a, z := TakeSnapshot(env, red.after), TakeSnapshot(env, t);
    var tests := Changed(TakeSnapshot(env, red.before), a);
    var touched := Differing(tests, a, z);
    forall p
      ensures p in touched <==> Wrote(env, red, p) && FingerprintOf(env, t, p) != FingerprintOf(env, red.after, p)
    {
      ChangedIsWrote(env, red, p);
      DifferingMembers(tests, a, z, p);
      LookupIsFingerprint(env, red.after, p);
      LookupIsFingerprint(env, t, p);
    }
    if touched != [] {
      assert touched[0] in touched;
    }
  }

  // ----- one hole -----

  ghost predicate Sound(r: Result<Attempt, Broken>) {
    r.Ok? && r.value.Accepted() && !r.value.outcome.Failed?
  }

  /** Every path in `paths` was written by `red`, and the other way round. */
  ghost predicate AreWritten(env: Env, red: Event, paths: seq<string>) {
    forall p :: p in paths <==> Wrote(env, red, p)
  }

  /** `paths` are those `red` wrote that have another fingerprint in `t`. */
  ghost predicate AreTouched(env: Env, red: Event, t: Tree, paths: seq<string>) {
    forall p :: p in paths <==> Wrote(env, red, p) && FingerprintOf(env, t, p) != FingerprintOf(env, red.after, p)
  }

  /** What an attempt says of the runs made for it: why it was refused, or else how GREEN ended. */
  ghost predicate Explains(env: Env, hole: Hole, runs: seq<Event>, a: Attempt) {
    && a.hole == hole
    && match a.refused
       case Some(RedBefore(tail)) =>
         |runs| == 1 && runs[0].SuiteRan? && runs[0].verdict == Red(tail)
         && a.outcome == Completed(0) && !a.filled
       case Some(RedRunFailed) =>
         AfterRed(hole, runs, a.outcome) && a.outcome.Failed? && !a.filled
       case Some(FilledBeforeTest) =>
         AfterRed(hole, runs, a.outcome) && !StillPending(env, runs[1].after, hole) && a.filled
       case Some(NoTestWritten) =>
         AfterRed(hole, runs, a.outcome) && !WroteSomething(env, runs[1]) && !a.filled
       case Some(TestsStillPass(tests)) =>
         |runs| == 3 && OnTrack(env, hole, runs[..2]) && RanGreen(runs[2]) && AreWritten(env, runs[1], tests)
         && runs[1].outcome == a.outcome && !a.filled
       case Some(ChangedRedTests(touched)) =>
         AfterGreen(env, hole, runs, a) && !a.outcome.Failed? && touched != []
         && AreTouched(env, runs[1], runs[3].after, touched)
       case Some(TestsStillFail(tail)) =>
         |runs| == 5 && OnTrack(env, hole, runs[..4]) && runs[4].SuiteRan? && runs[4].verdict == Red(tail) && a.filled
         && runs[3].outcome == a.outcome
       case None =>
         if a.filled && !a.outcome.Failed? then TestFirst(env, hole, runs) && runs[3].outcome == a.outcome
         else AfterGreen(env, hole, runs, a)
  }

  /** A green suite, then the RED run, and nothing more. */
  predicate AfterRed(hole: Hole, runs: seq<Event>, outcome: RunOutcome) {
    && |runs| == 2 && RanGreen(runs[0])
    && runs[1].AgentRan? && runs[1].task == WriteTest(hole) && runs[1].outcome == outcome
  }

  /** A sound RED phase, then the GREEN run, and nothing more. */
  ghost predicate AfterGreen(env: Env, hole: Hole, runs: seq<Event>, a: Attempt) {
    && |runs| == 4 && OnTrack(env, hole, runs[..3]) && runs[3].AgentRan? && runs[3].outcome == a.outcome
    && ToldToPass(env, hole, runs[1], runs[3].task)
    && (a.filled <==> !StillPending(env, runs[3].after, hole))
  }

  ghost predicate Tells(env: Env, hole: Hole, runs: seq<Event>, r: Result<Attempt, Broken>) {
    match r
    case Err(_) => |runs| < 5
    case Ok(a) => Explains(env, hole, runs, a)
  }

  /** An attempt is sound exactly when its runs fill the hole test-first; otherwise its runs, however the
      log goes on, are not the start of a hole filled test-first. */
  lemma ExplainsDecides(env: Env, hole: Hole, runs: seq<Event>, a: Attempt)
    requires Explains(env, hole, runs, a)
    ensures |runs| <= 5
    ensures Sound(Ok(a)) <==> TestFirst(env, hole, runs)
    ensures !Sound(Ok(a)) ==> !OnTrack(env, hole, runs)
  {
    hide WroteSomething, StillPending;
    if a.refused.Some? && a.refused.value.ChangedRedTests? {
      var p := a.refused.value.touched[0];
      assert p in a.refused.value.touched;
      assert !KeepsWhatRedWrote(env, runs[1], runs[3].after);
    }
  }

  // ----- one hole, phase by phase -----

  /** `tests` and `afterRed` say what `red` wrote. */
  ghost predicate Records(env: Env, red: Event, tests: seq<string>, afterRed: Snapshot) {
    && AreWritten(env, red, tests)
    && (tests == [] <==> !WroteSomething(env, red))
    && forall t :: TouchedIsRecorded(env, red, t, Differing(tests, afterRed, TakeSnapshot(env, t)))
  }

  ghost predicate TouchedIsRecorded(env: Env, red: Event, t: Tree, touched: seq<string>) {
    AreTouched(env, red, t, touched) && (touched == [] <==> KeepsWhatRedWrote(env, red, t))
  }

  lemma SnapshotsRecordTheRun(env: Env, red: Event)
    ensures Records(env, red, Changed(TakeSnapshot(env, red.before), TakeSnapshot(env, red.after)),
      TakeSnapshot(env, red.after))
  {
    hide Changed, TakeSnapshot, Wrote, FingerprintOf, Differing, Lookup, TouchedIsRecorded, WroteSomething;
    var b, a := TakeSnapshot(env, red.before), TakeSnapshot(env, red.after);
    NothingChangedIsNothingWrote(env, red);
    forall p {
      ChangedIsWrote(env, red, p);
    }
    forall t ensures TouchedIsRecorded(env, red, t, Differing(Changed(b, a), a, TakeSnapshot(env, t))) {
      TouchedIsWhatDiffers(env, red, t);
    }
  }

  /** GREEN, started after a sound RED phase. */
  lemma GreenPhaseTells(w: World, env: Env, hole: Hole, tests: seq<string>, afterRed: Snapshot, s: State,
                        base: seq<Event>, runs: seq<Event>)
    returns (added: seq<Event>)
    requires s.log == base + runs
    requires |runs| == 3 && OnTrack(env, hole, runs)
    requires Records(env, runs[1], tests, afterRed)
    ensures var (s', r) := GreenPhase(w, env, hole, tests, afterRed, s);
      && s'.log == base + (runs + added)
      && Tells(env, hole, runs + added, r)
  {
    hide StillPending, KeepsWhatRedWrote, WroteSomething, WritesFailingTest, AreTouched,
      AreWritten, Differing, TakeSnapshot, Wrote;
    added := [];
    assert runs + added == runs;
    var (s4, green) := RunAgent(w, s, MakePass(hole, tests));
    if green.Some? {
      var e3 := AgentRan(MakePass(hole, tests), s.tree, s4.tree, green.value);
      added := [e3];
      assert base + runs + [e3] == base + (runs + added);
      assert (runs + added)[..3] == runs;
      var touched := Differing(tests, afterRed, TakeSnapshot(env, s4.tree));
      assert TouchedIsRecorded(env, runs[1], s4.tree, touched);
      if FillsHeldToTest(env, hole, runs[1], e3) {
        var (s5, last) := RunSuite(w, s4);
        if last.Some? {
          var e4 := SuiteRan(s4.tree, s5.tree, last.value);
          added := [e3, e4];
          assert base + (runs + [e3]) + [e4] == base + (runs + added);
          assert (runs + added)[..4] == runs + [e3];
        }
      }
    }
  }

  lemma RecordsWritten(env: Env, red: Event, tests: seq<string>, afterRed: Snapshot)
    requires Records(env, red, tests, afterRed)
    ensures AreWritten(env, red, tests)
  {
  }

  /** What the suite run after RED means for the attempt. */
  lemma CheckExplained(env: Env, hole: Hole, e0: Event, e1: Event, e2: Event, tests: seq<string>)
    requires e1.AgentRan? && OnTrack(env, hole, [e0, e1]) && AreWritten(env, e1, tests)
    ensures RanGreen(e2) ==>
      Explains(env, hole, [e0, e1, e2], Attempt(hole, e1.outcome, false, Some(TestsStillPass(tests))))
    ensures RanRed(e2) ==> OnTrack(env, hole, [e0, e1, e2])
  {
    hide AreWritten, WroteSomething, StillPending;
    assert [e0, e1, e2][..2] == [e0, e1];
  }

  /** The suite run that must fail, and GREEN after it. */
  lemma CheckRedTells(w: World, env: Env, hole: Hole, tests: seq<string>, afterRed: Snapshot, s: State,
                      base: seq<Event>, e0: Event, e1: Event)
    returns (added: seq<Event>)
    requires s.log == base + [e0, e1]
    requires e1.AgentRan? && OnTrack(env, hole, [e0, e1])
    requires Records(env, e1, tests, afterRed)
    ensures var (s', r) := CheckRed(w, env, hole, tests, afterRed, e1.outcome, s);
      && s'.log == base + ([e0, e1] + added)
      && Tells(env, hole, [e0, e1] + added, r)
  {
    hide GreenPhase, Explains, OnTrack, Records, AreWritten;
    RecordsWritten(env, e1, tests, afterRed);
    var (s3, mid) := RunSuite(w, s);
    if mid.None? {
      added := [];
      assert [e0, e1] + added == [e0, e1];
      return;
    }
    var e2 := SuiteRan(s.tree, s3.tree, mid.value);
    assert base + [e0, e1] + [e2] == base + [e0, e1, e2];
    CheckExplained(env, hole, e0, e1, e2, tests);
    if mid.value.Green? {
      added := [e2];
      assert [e0, e1] + added == [e0, e1, e2];
      return;
    }
    var more := GreenPhaseTells(w, env, hole, tests, afterRed, s3, base, [e0, e1, e2]);
    added := [e2] + more;
    assert [e0, e1, e2] + more == [e0, e1] + added;
  }

  /** What the RED run means for the attempt. */
  lemma RedExplained(env: Env, hole: Hole, e0: Event, e1: Event)
    requires RanGreen(e0) && e1.AgentRan? && e1.task == WriteTest(hole)
    ensures e1.outcome.Failed? ==>
      Explains(env, hole, [e0, e1], Attempt(hole, e1.outcome, false, Some(RedRunFailed)))
    ensures !StillPending(env, e1.after, hole) ==>
      Explains(env, hole, [e0, e1], Attempt(hole, e1.outcome, true, Some(FilledBeforeTest)))
    ensures !WroteSomething(env, e1) ==>
      Explains(env, hole, [e0, e1], Attempt(hole, e1.outcome, false, Some(NoTestWritten)))
    ensures WritesFailingTest(env, hole, e1) ==> OnTrack(env, hole, [e0, e1])
  {
    hide WroteSomething, StillPending;
  }

  /** RED, started after a green suite run. */
  lemma RedPhaseTells(w: World, env: Env, hole: Hole, s: State, base: seq<Event>, e0: Event)
    returns (added: seq<Event>)
    requires s.log == base + [e0]
    requires RanGreen(e0)
    ensures var (s', r) := RedPhase(w, env, hole, s);
      && s'.log == base + ([e0] + added)
      && Tells(env, hole, [e0] + added, r)
  {
    hide CheckRed, Changed, TakeSnapshot, StillPending, WroteSomething, Records, Explains, OnTrack;
    var (s2, red) := RunAgent(w, s, WriteTest(hole));
    if red.None? {
      added := [];
      assert [e0] + added == [e0];
      return;
    }
    var e1 := AgentRan(WriteTest(hole), s.tree, s2.tree, red.value);
    assert base + [e0] + [e1] == base + [e0, e1];
    assert [e0] + [e1] == [e0, e1];
    RedExplained(env, hole, e0, e1);
    NothingChangedIsNothingWrote(env, e1);
    if !WritesFailingTest(env, hole, e1) {
      added := [e1];
      return;
    }
    SnapshotsRecordTheRun(env, e1);
    var afterRed := TakeSnapshot(env, s2.tree);
    var tests := Changed(TakeSnapshot(env, s.tree), afterRed);
    var more := CheckRedTells(w, env, hole, tests, afterRed, s2, base, e0, e1);
    added := [e1] + more;
    assert [e0, e1] + more == [e0] + added;
  }

  lemma RedGreenTells(w: World, env: Env, hole: Hole, s: State) returns (runs: seq<Event>)
    ensures var (s', r) := RedGreen(w, env, hole, s);
      && s'.log == s.log + runs
      && Tells(env, hole, runs, r)
  {
    hide RedPhase, OnTrack, AreWritten, AreTouched, StillPending, WroteSomething;
    runs := [];
    var (s1, before) := RunSuite(w, s);
    if before.Some? {
      var e0 := SuiteRan(s.tree, s1.tree, before.value);
      runs := [e0];
      if before.value.Green? {
        var added := RedPhaseTells(w, env, hole, s1, s.log, e0);
        runs := [e0] + added;
      }
    }
  }

  // ----- the log is a chain -----

  lemma ChainedOneMore(start: Tree, log: seq<Event>, mid: Tree, e: Event)
    requires Chained(start, log, mid) && e.before == mid
    ensures Chained(start, log + [e], e.after)
  {
    var more := log + [e];
    forall i | 0 <= i < |more| - 1 ensures more[i].after == more[i + 1].before {
      assert i < |log| - 1 ==> more[i] == log[i] && more[i + 1] == log[i + 1];
    }
  }

  /** A suite that leaves every tree as it found it. */
  ghost predicate QuietSuite(w: World) {
    forall log, t :: w.suite(log, t).0 == t
  }

  ghost predicate SuiteRunsChangedNothing(log: seq<Event>) {
    forall i :: 0 <= i < |log| && log[i].SuiteRan? ==> log[i].before == log[i].after
  }

  ghost predicate ChainedState(w: World, start: Tree, s: State) {
    Chained(start, s.log, s.tree) && (QuietSuite(w) ==> SuiteRunsChangedNothing(s.log))
  }

  lemma RunsChain(w: World, s: State, task: Task, start: Tree)
    requires ChainedState(w, start, s)
    ensures RunSuite(w, s).1.Some? ==> ChainedState(w, start, RunSuite(w, s).0)
    ensures RunAgent(w, s, task).1.Some? ==> ChainedState(w, start, RunAgent(w, s, task).0)
  {
    hide Chained;
    var (s1, verdict) := RunSuite(w, s);
    if verdict.Some? {
      ChainedOneMore(start, s.log, s.tree, SuiteRan(s.tree, s1.tree, verdict.value));
    }
    var (s2, outcome) := RunAgent(w, s, task);
    if outcome.Some? {
      ChainedOneMore(start, s.log, s.tree, AgentRan(task, s.tree, s2.tree, outcome.value));
    }
  }

  lemma GreenPhaseChains(w: World, env: Env, hole: Hole, tests: seq<string>, afterRed: Snapshot, s: State, start: Tree)
    requires ChainedState(w, start, s)
    ensures var (s', r) := GreenPhase(w, env, hole, tests, afterRed, s);
      r.Ok? ==> ChainedState(w, start, s')
  {
    hide ChainedState, RunSuite, RunAgent, StillPending, Differing, TakeSnapshot;
    RunsChain(w, s, MakePass(hole, tests), start);
    var (s4, green) := RunAgent(w, s, MakePass(hole, tests));
    if green.Some? {
      RunsChain(w, s4, FillHole(hole), start);
    }
  }

  lemma CheckRedChains(w: World, env: Env, hole: Hole, tests: seq<string>, afterRed: Snapshot,
                       red: RunOutcome, s: State, start: Tree)
    requires ChainedState(w, start, s)
    ensures var (s', r) := CheckRed(w, env, hole, tests, afterRed, red, s);
      r.Ok? ==> ChainedState(w, start, s')
  {
    hide ChainedState, RunSuite, GreenPhase;
    RunsChain(w, s, FillHole(hole), start);
    var (s3, mid) := RunSuite(w, s);
    if mid.Some? {
      GreenPhaseChains(w, env, hole, tests, afterRed, s3, start);
    }
  }

  lemma RedPhaseChains(w: World, env: Env, hole: Hole, s: State, start: Tree)
    requires ChainedState(w, start, s)
    ensures var (s', r) := RedPhase(w, env, hole, s);
      r.Ok? ==> ChainedState(w, start, s')
  {
    hide ChainedState, RunAgent, CheckRed, StillPending, Changed, TakeSnapshot;
    RunsChain(w, s, WriteTest(hole), start);
    var (s2, red) := RunAgent(w, s, WriteTest(hole));
    if red.Some? {
      var afterRed := TakeSnapshot(env, s2.tree);
      CheckRedChains(w, env, hole, Changed(TakeSnapshot(env, s.tree), afterRed), afterRed, red.value, s2, start);
    }
  }

  lemma RedGreenChains(w: World, env: Env, hole: Hole, s: State, start: Tree)
    requires ChainedState(w, start, s)
    ensures var (s', r) := RedGreen(w, env, hole, s);
      r.Ok? ==> ChainedState(w, start, s')
  {
    hide ChainedState, RunSuite, RedPhase;
    RunsChain(w, s, FillHole(hole), start);
    var (s1, before) := RunSuite(w, s);
    if before.Some? {
      RedPhaseChains(w, env, hole, s1, start);
    }
  }

  lemma {:induction false} FillAllChains(w: World, env: Env, gated: bool, holes: seq<Hole>, s: State, start: Tree)
    requires ChainedState(w, start, s)
    ensures var (s', r) := FillAll(w, env, gated, holes, s);
      r.Ok? ==> ChainedState(w, start, s')
  {
    hide ChainedState, RunAgent, RedGreen, StillPending;
    if holes != [] {
      if gated {
        RedGreenChains(w, env, holes[0], s, start);
      } else {
        RunsChain(w, s, FillHole(holes[0]), start);
      }
      var (s1, r) := AttemptHole(w, env, gated, holes[0], s);
      if r.Ok? {
        FillAllChains(w, env, gated, holes[1..], s1, start);
      }
    }
  }

  // ----- all holes -----

  lemma ExitCodeOfCons(a: Attempt, rest: seq<Attempt>)
    ensures ExitCode([a] + rest) == 0 <==> Sound(Ok(a)) && ExitCode(rest) == 0
  {
    var all := [a] + rest;
    assert all[0] == a;
    assert forall i :: 0 <= i < |rest| ==> all[i + 1] == rest[i];
    assert forall i :: 1 <= i < |all| ==> all[i] == rest[i - 1];
  }

  /** The log is five runs for each hole in turn that fill it test-first, and nothing else. */
  ghost predicate AllTestFirst(env: Env, holes: seq<Hole>, log: seq<Event>) {
    if holes == [] then log == []
    else |log| >= 5 && TestFirst(env, holes[0], log[..5]) && AllTestFirst(env, holes[1..], log[5..])
  }

  lemma OnTrackIsPrefixClosed(env: Env, hole: Hole, runs: seq<Event>, more: seq<Event>)
    requires |runs| <= 5 && |runs + more| >= 5 && TestFirst(env, hole, (runs + more)[..5])
    ensures OnTrack(env, hole, runs)
  {
    assert forall i :: 0 <= i < |runs| ==> (runs + more)[..5][i] == runs[i];
  }

  lemma {:induction false} FillAllTells(w: World, env: Env, holes: seq<Hole>, s: State)
    returns (runs: seq<Event>)
    ensures var (s', r) := FillAll(w, env, true, holes, s);
      && s'.log == s.log + runs
      && |runs| <= 5 * |holes|
      && (r.Ok? && ExitCode(r.value) == 0 <==> AllTestFirst(env, holes, runs))
  {
    hide RedGreen, OnTrack, Explains;
    if holes == [] {
      return [];
    }
    var (s1, r) := RedGreen(w, env, holes[0], s);
    runs := RedGreenTells(w, env, holes[0], s);
    if r.Err? {
      return;
    }
    ExplainsDecides(env, holes[0], runs, r.value);
    if Stops(r.value) {
      ExitCodeOfCons(r.value, []);
      if AllTestFirst(env, holes, runs) {
        assert runs + [] == runs;
        OnTrackIsPrefixClosed(env, holes[0], runs, []);
      }
      return;
    }
    var (s2, rest) := FillAll(w, env, true, holes[1..], s1);
    var more := FillAllTells(w, env, holes[1..], s1);
    if rest.Ok? {
      ExitCodeOfCons(r.value, rest.value);
    }
    if Sound(r) {
      assert (runs + more)[..5] == runs && (runs + more)[5..] == more;
    } else if AllTestFirst(env, holes, runs + more) {
      OnTrackIsPrefixClosed(env, holes[0], runs, more);
    }
    assert s.log + runs + more == s.log + (runs + more);
    runs := runs + more;
  }

  /** Exit code 0 under a test gate, whatever the agent and the suite do. */
  lemma ExitZeroIffAllTestFirst(w: World, env: Env, args: FillArgs, t: Tree)
    requires args.gated
    ensures var (s, r) := FillWith(w, env, args, t);
      && (r.Ok? && ExitCode(r.value) == 0 <==> AllTestFirst(env, Select(env, args, t), s.log))
      && (r.Ok? ==> Chained(t, s.log, s.tree))
  {
    var runs := FillAllTells(w, env, Select(env, args, t), State(t, []));
    assert [] + runs == runs;
    FillingChains(w, env, args, t);
  }

  /** Filling leaves a log that is a chain, and that a quiet suite did nothing in. */
  lemma FillingChains(w: World, env: Env, args: FillArgs, t: Tree)
    ensures var (s, r) := FillWith(w, env, args, t);
      r.Ok? ==> ChainedState(w, t, s)
  {
    FillAllChains(w, env, args.gated, Select(env, args, t), State(t, []), t);
  }

  /** The runs of the i-th selected hole are the i-th five of the log. */
  lemma {:induction false} RunsOfHole(env: Env, holes: seq<Hole>, log: seq<Event>, i: nat)
    requires AllTestFirst(env, holes, log) && i < |holes|
    ensures |log| == 5 * |holes|
    ensures TestFirst(env, holes[i], log[5 * i..5 * i + 5])
  {
    hide OnTrack;
    if i == 0 {
      if |holes| > 1 {
        RunsOfHole(env, holes[1..], log[5..], 0);
      }
    } else {
      RunsOfHole(env, holes[1..], log[5..], i - 1);
      assert log[5..][5 * (i - 1)..5 * (i - 1) + 5] == log[5 * i..5 * i + 5];
    }
  }

  lemma AttemptIsForTheHole(w: World, env: Env, gated: bool, hole: Hole, s: State)
    ensures var r := AttemptHole(w, env, gated, hole, s).1;
      r.Ok? ==> r.value.hole == hole
  {
    hide RedGreen, OnTrack, AreWritten, AreTouched;
    if gated {
      var _ := RedGreenTells(w, env, hole, s);
    }
  }

  /** The run failed, or the suite was red before the hole was started. */
  ghost predicate FailedOrFoundRed(a: Attempt) {
    (exists error :: a.outcome == Failed(error)) || (exists tail :: a.refused == Some(RedBefore(tail)))
  }

  lemma StopsIff(a: Attempt)
    ensures Stops(a) <==> FailedOrFoundRed(a)
  {
    if a.outcome.Failed? {
      assert a.outcome == Failed(a.outcome.error);
    }
    if a.refused.Some? && a.refused.value.RedBefore? {
      assert a.refused == Some(RedBefore(a.refused.value.tail));
    }
  }

  /** Attempts follow the selection from its start; only the last may have stopped the batch, and if some
      hole was left out it did. */
  ghost predicate FollowsSelection(attempts: seq<Attempt>, holes: seq<Hole>) {
    && |attempts| <= |holes|
    && (forall i :: 0 <= i < |attempts| ==> attempts[i].hole == holes[i])
    && (forall i :: 0 <= i < |attempts| - 1 ==> !FailedOrFoundRed(attempts[i]))
    && (|attempts| < |holes| ==> attempts != [] && FailedOrFoundRed(attempts[|attempts| - 1]))
  }

  lemma FollowsSelectionOfCons(a: Attempt, attempts: seq<Attempt>, holes: seq<Hole>)
    requires holes != [] && a.hole == holes[0] && !FailedOrFoundRed(a) && FollowsSelection(attempts, holes[1..])
    ensures FollowsSelection([a] + attempts, holes)
  {
    hide Stops;
    var all := [a] + attempts;
    assert forall i :: 1 <= i < |all| ==> all[i] == attempts[i - 1] && holes[i] == holes[1..][i - 1];
  }

  lemma {:induction false} AttemptsFollowSelection(w: World, env: Env, gated: bool, holes: seq<Hole>, s: State)
    ensures var r := FillAll(w, env, gated, holes, s).1;
      r.Ok? ==> FollowsSelection(r.value, holes)
  {
    hide RedGreen, FillOnce, FollowsSelection;
    if holes == [] {
      NoAttemptsFollowNothing();
    } else {
      var (s1, r) := AttemptHole(w, env, gated, holes[0], s);
      AttemptIsForTheHole(w, env, gated, holes[0], s);
      if r.Ok? {
        StopsIff(r.value);
      }
      if r.Ok? && Stops(r.value) {
        OneStoppedAttemptFollows(r.value, holes);
      } else if r.Ok? {
        AttemptsFollowSelection(w, env, gated, holes[1..], s1);
        var rest := FillAll(w, env, gated, holes[1..], s1).1;
        if rest.Ok? {
          FollowsSelectionOfCons(r.value, rest.value, holes);
        }
      }
    }
  }

  lemma NoAttemptsFollowNothing()
    ensures FollowsSelection([], [])
  {
  }

  lemma OneStoppedAttemptFollows(a: Attempt, holes: seq<Hole>)
    requires holes != [] && a.hole == holes[0] && FailedOrFoundRed(a)
    ensures FollowsSelection([a], holes)
  {
  }

  /** With exit code 0 every selected hole was attempted, in order. */
  lemma ExitZeroAttemptsEverything(w: World, env: Env, args: FillArgs, t: Tree)
    ensures var r := FillWith(w, env, args, t).1;
      var holes := Select(env, args, t);
      && (r.Ok? ==> FollowsSelection(r.value, holes))
      && (r.Ok? && ExitCode(r.value) == 0 ==>
            |r.value| == |holes| && forall i :: 0 <= i < |holes| ==> r.value[i].hole == holes[i])
  {
    hide FillAll, Select;
    var r := FillWith(w, env, args, t).1;
    AttemptsFollowSelection(w, env, args.gated, Select(env, args, t), State(t, []));
    if r.Ok? && ExitCode(r.value) == 0 && r.value != [] {
      assert r.value[|r.value| - 1].Accepted() && !r.value[|r.value| - 1].outcome.Failed?;
    }
  }

  lemma GreenRunClosedTheHole(env: Env, holes: seq<Hole>, log: seq<Event>, i: nat)
    requires AllTestFirst(env, holes, log) && i < |holes|
    ensures |log| == 5 * |holes| && 5 * i + 3 < |log|
    ensures !StillPending(env, log[5 * i + 3].after, holes[i])
  {
    hide StillPending, KeepsWhatRedWrote, WroteSomething;
    RunsOfHole(env, holes, log, i);
    assert log[5 * i..5 * i + 5][3] == log[5 * i + 3];
  }

  // ----- without a test gate -----

  ghost predicate FilledInOneRun(env: Env, hole: Hole, run: Event) {
    run.AgentRan? && run.task == FillHole(hole) && !run.outcome.Failed? && !StillPending(env, run.after, hole)
  }

  lemma FillOnceTells(w: World, env: Env, hole: Hole, s: State) returns (runs: seq<Event>)
    ensures var (s', r) := FillOnce(w, env, hole, s);
      && s'.log == s.log + runs
      && |runs| == (if r.Ok? then 1 else 0)
      && (r.Ok? ==> (Sound(r) <==> FilledInOneRun(env, hole, runs[0])) && (Stops(r.value) ==> !Sound(r)))
  {
    hide StillPending;
    var (s1, outcome) := RunAgent(w, s, FillHole(hole));
    runs := if outcome.Some? then [AgentRan(FillHole(hole), s.tree, s1.tree, outcome.value)] else [];
  }

  ghost predicate EachFilledInOneRun(env: Env, holes: seq<Hole>, log: seq<Event>) {
    |log| == |holes| && forall i :: 0 <= i < |holes| ==> FilledInOneRun(env, holes[i], log[i])
  }

  lemma EachFilledOfCons(env: Env, holes: seq<Hole>, run: Event, log: seq<Event>)
    requires holes != []
    ensures EachFilledInOneRun(env, holes, [run] + log)
            <==> FilledInOneRun(env, holes[0], run) && EachFilledInOneRun(env, holes[1..], log)
  {
    hide FilledInOneRun;
    var all := [run] + log;
    assert all[0] == run;
    assert forall i :: 1 <= i < |all| ==> all[i] == log[i - 1];
    assert forall i :: 0 <= i < |log| ==> log[i] == all[i + 1];
    assert forall i :: 0 <= i < |holes| - 1 ==> holes[1..][i] == holes[i + 1];
    assert forall i :: 1 <= i < |holes| ==> holes[i] == holes[1..][i - 1];
  }

  lemma {:induction false} FillAllUngated(w: World, env: Env, holes: seq<Hole>, s: State) returns (runs: seq<Event>)
    ensures var (s', r) := FillAll(w, env, false, holes, s);
      && s'.log == s.log + runs
      && |runs| <= |holes|
      && (r.Ok? && ExitCode(r.value) == 0 <==> EachFilledInOneRun(env, holes, runs))
  {
    hide FillOnce, FilledInOneRun;
    if holes == [] {
      return [];
    }
    var (s1, r) := FillOnce(w, env, holes[0], s);
    runs := FillOnceTells(w, env, holes[0], s);
    if r.Ok? {
      if Stops(r.value) {
        ExitCodeOfCons(r.value, []);
        assert runs == [runs[0]] + [];
        EachFilledOfCons(env, holes, runs[0], []);
      } else {
        var rest := FillAll(w, env, false, holes[1..], s1).1;
        var more := FillAllUngated(w, env, holes[1..], s1);
        if rest.Ok? {
          ExitCodeOfCons(r.value, rest.value);
        }
        EachFilledOfCons(env, holes, runs[0], more);
        assert [runs[0]] + more == runs + more;
        assert s.log + runs + more == s.log + (runs + more);
        runs := runs + more;
      }
    }
  }

  /** Exit code 0 without a test gate: one run for each hole, which closed it. */
  lemma ExitZeroIffAllFilledUngated(w: World, env: Env, args: FillArgs, t: Tree)
    requires !args.gated
    ensures var (s, r) := FillWith(w, env, args, t);
      r.Ok? && ExitCode(r.value) == 0 <==> EachFilledInOneRun(env, Select(env, args, t), s.log)
  {
    var runs := FillAllUngated(w, env, Select(env, args, t), State(t, []));
    assert [] + runs == runs;
  }

  // ----- all exit codes, in both modes -----

  predicate IsFailedRun(run: Event) {
    run.AgentRan? && run.outcome.Failed?
  }

  ghost predicate SomeRunFailed(log: seq<Event>) {
    exists i :: 0 <= i < |log| && IsFailedRun(log[i])
  }

  ghost predicate OnlyLastMayFail(log: seq<Event>) {
    forall i :: 0 <= i < |log| - 1 ==> !IsFailedRun(log[i])
  }

  lemma SomeRunFailedOfConcat(a: seq<Event>, b: seq<Event>)
    ensures SomeRunFailed(a + b) <==> SomeRunFailed(a) || SomeRunFailed(b)
    ensures !SomeRunFailed(a) && OnlyLastMayFail(b) ==> OnlyLastMayFail(a + b)
  {
    hide IsFailedRun;
    assert forall i :: 0 <= i < |a| ==> (a + b)[i] == a[i];
    assert forall i :: 0 <= i < |b| ==> (a + b)[|a| + i] == b[i];
  }

  lemma ExplainsFailure(env: Env, hole: Hole, runs: seq<Event>, a: Attempt)
    requires Explains(env, hole, runs, a)
    ensures a.outcome.Failed? <==> SomeRunFailed(runs)
    ensures OnlyLastMayFail(runs)
  {
    hide WroteSomething, StillPending, AreWritten, AreTouched, KeepsWhatRedWrote;
    assert |runs| <= 5;
    assert forall i :: 0 <= i < |runs| && IsFailedRun(runs[i]) ==> i == 0 || i == 1 || i == 2 || i == 3 || i == 4;
  }

  lemma AttemptFails(w: World, env: Env, gated: bool, hole: Hole, s: State) returns (runs: seq<Event>)
    ensures var (s', r) := AttemptHole(w, env, gated, hole, s);
      && s'.log == s.log + runs
      && (r.Ok? ==> OnlyLastMayFail(runs) && (r.value.outcome.Failed? <==> SomeRunFailed(runs)))
  {
    hide RedGreen, Explains, StillPending, SomeRunFailed;
    if gated {
      var r := RedGreen(w, env, hole, s).1;
      runs := RedGreenTells(w, env, hole, s);
      if r.Ok? {
        ExplainsFailure(env, hole, runs, r.value);
      }
    } else {
      runs := FillOnceFails(w, env, hole, s);
    }
  }

  lemma FillOnceFails(w: World, env: Env, hole: Hole, s: State) returns (runs: seq<Event>)
    ensures var (s', r) := FillOnce(w, env, hole, s);
      && s'.log == s.log + runs
      && (r.Ok? ==> OnlyLastMayFail(runs) && (r.value.outcome.Failed? <==> SomeRunFailed(runs)))
  {
    hide StillPending;
    var (s1, outcome) := RunAgent(w, s, FillHole(hole));
    runs := if outcome.Some? then [AgentRan(FillHole(hole), s.tree, s1.tree, outcome.value)] else [];
    if outcome.Some? && outcome.value.Failed? {
      assert IsFailedRun(runs[0]);
    }
  }

  ghost predicate SomeAttemptFailed(attempts: seq<Attempt>) {
    exists i :: 0 <= i < |attempts| && attempts[i].outcome.Failed?
  }

  lemma SomeAttemptFailedOfCons(a: Attempt, rest: seq<Attempt>)
    ensures SomeAttemptFailed([a] + rest) <==> a.outcome.Failed? || SomeAttemptFailed(rest)
  {
    var all := [a] + rest;
    assert all[0] == a;
    assert forall i :: 0 <= i < |rest| ==> all[i + 1] == rest[i];
    assert forall i :: 1 <= i < |all| ==> all[i] == rest[i - 1];
  }

  lemma {:induction false} FillAllFails(w: World, env: Env, gated: bool, holes: seq<Hole>, s: State)
    returns (runs: seq<Event>)
    ensures var (s', r) := FillAll(w, env, gated, holes, s);
      && s'.log == s.log + runs
      && (r.Ok? ==> OnlyLastMayFail(runs) && (SomeAttemptFailed(r.value) <==> SomeRunFailed(runs)))
  {
    hide AttemptHole, IsFailedRun, SomeRunFailed, SomeAttemptFailed, OnlyLastMayFail;
    if holes == [] {
      NothingFailed();
      return [];
    }
    var (s1, r) := AttemptHole(w, env, gated, holes[0], s);
    runs := AttemptFails(w, env, gated, holes[0], s);
    if r.Err? {
      return;
    }
    if Stops(r.value) {
      SomeAttemptFailedOfCons(r.value, []);
      NothingFailed();
      assert [r.value] + [] == [r.value];
      return;
    }
    var rest := FillAll(w, env, gated, holes[1..], s1).1;
    var more := FillAllFails(w, env, gated, holes[1..], s1);
    if rest.Ok? {
      SomeAttemptFailedOfCons(r.value, rest.value);
      SomeRunFailedOfConcat(runs, more);
    }
    assert s.log + runs + more == s.log + (runs + more);
    runs := runs + more;
  }

  lemma NothingFailed()
    ensures !SomeRunFailed([]) && !SomeAttemptFailed([]) && OnlyLastMayFail([])
  {
  }

  /** The log is what filling all of `holes` in this mode takes. */
  ghost predicate AllFilled(env: Env, gated: bool, holes: seq<Hole>, log: seq<Event>) {
    if gated then AllTestFirst(env, holes, log) else EachFilledInOneRun(env, holes, log)
  }

  /** The exit code over the log, in both modes: 0 when every selected hole was filled as it should be, 1 when
      an agent run failed, 3 otherwise. A failed run is the last run. */
  lemma ExitCodeTells(w: World, env: Env, args: FillArgs, t: Tree)
    ensures var (s, r) := FillWith(w, env, args, t);
      var filled := AllFilled(env, args.gated, Select(env, args, t), s.log);
      r.Ok? ==>
        && (ExitCode(r.value) == 0 <==> filled)
        && (ExitCode(r.value) == 1 <==> SomeRunFailed(s.log))
        && (ExitCode(r.value) == 3 <==> !SomeRunFailed(s.log) && !filled)
        && OnlyLastMayFail(s.log)
  {
    hide FillAll, Select, AllTestFirst, EachFilledInOneRun, SomeRunFailed, OnlyLastMayFail;
    var holes := Select(env, args, t);
    if args.gated {
      ExitZeroIffAllTestFirst(w, env, args, t);
    } else {
      ExitZeroIffAllFilledUngated(w, env, args, t);
    }
    var runs := FillAllFails(w, env, args.gated, holes, State(t, []));
    assert [] + runs == runs;
  }

  // ----- the program itself -----

  /** The repository being filled: the tree every run changes in place, and what has been run. */
  class Workspace {
    const world: World
    const env: Env
    var tree: Tree
    var log: seq<Event>

    constructor (world: World, env: Env, tree: Tree)
      ensures this.world == world && this.env == env
      ensures Now() == State(tree, [])
    {
      this.world, this.env, this.tree, this.log := world, env, tree, [];
    }

    ghost function Now(): State
      reads this
    {
      State(tree, log)
    }

    method RunTests() returns (verdict: Option<TestRun>)
      modifies this
      ensures (Now(), verdict) == RunSuite(world, old(Now()))
    {
      var before := tree;
      var (after, said) := world.suite(log, before);
      tree, verdict := after, said;
      if said.Some? {
        log := log + [SuiteRan(before, after, said.value)];
      }
    }

    method RunModel(task: Task) returns (outcome: Option<RunOutcome>)
      modifies this
      ensures (Now(), outcome) == RunAgent(world, old(Now()), task)
    {
      var before := tree;
      var (after, said) := world.agent(log, before, task);
      tree, outcome := after, said;
      if said.Some? {
        log := log + [AgentRan(task, before, after, said.value)];
      }
    }

    method FillTestFirst(hole: Hole) returns (r: Result<Attempt, Broken>)
      modifies this
      ensures (Now(), r) == RedGreen(world, env, hole, old(Now()))
    {
      hide StillPending, Changed, Differing, TakeSnapshot;
      var verdict := RunTests();
      if verdict.None? {
        return Err(SuiteBroke);
      }
      if verdict.value.Red? {
        return Ok(Attempt(hole, Completed(0), false, Some(RedBefore(verdict.value.tail))));
      }

      var beforeRed := TakeSnapshot(env, tree);
      var outcome := RunModel(WriteTest(hole));
      if outcome.None? {
        return Err(AgentBroke);
      }
      if outcome.value.Failed? {
        return Ok(Attempt(hole, outcome.value, false, Some(RedRunFailed)));
      }
      var afterRed := TakeSnapshot(env, tree);
      var tests := Changed(beforeRed, afterRed);
      if !StillPending(env, tree, hole) {
        return Ok(Attempt(hole, outcome.value, true, Some(FilledBeforeTest)));
      }
      if tests == [] {
        return Ok(Attempt(hole, outcome.value, false, Some(NoTestWritten)));
      }
      verdict := RunTests();
      if verdict.None? {
        return Err(SuiteBroke);
      }
      if verdict.value.Green? {
        return Ok(Attempt(hole, outcome.value, false, Some(TestsStillPass(tests))));
      }

      outcome := RunModel(MakePass(hole, tests));
      if outcome.None? {
        return Err(AgentBroke);
      }
      var filled := !StillPending(env, tree, hole);
      if outcome.value.Failed? {
        return Ok(Attempt(hole, outcome.value, filled, None));
      }
      var touched := Differing(tests, afterRed, TakeSnapshot(env, tree));
      var refused := None;
      if touched != [] {
        refused := Some(ChangedRedTests(touched));
      } else if filled {
        verdict := RunTests();
        if verdict.None? {
          return Err(SuiteBroke);
        }
        if verdict.value.Red? {
          refused := Some(TestsStillFail(verdict.value.tail));
        }
      }
      return Ok(Attempt(hole, outcome.value, filled, refused));
    }

    method Fill(args: FillArgs) returns (r: Result<seq<Attempt>, Broken>)
      modifies this
      ensures (Now(), r) == FillAll(world, env, args.gated, Select(env, args, old(tree)), old(Now()))
    {
      hide RedGreen, Select, StillPending;
      var holes := Select(env, args, tree);
      var attempts: seq<Attempt> := [];
      ghost var start := Now();
      assert holes[0..] == holes;
      PrependNothing(FillAll(world, env, args.gated, holes, start).1);
      for i := 0 to |holes|
        invariant var (end, rest) := FillAll(world, env, args.gated, holes[i..], Now());
          FillAll(world, env, args.gated, holes, start) == (end, Prepend(attempts, rest))
      {
        var attempt;
        if args.gated {
          attempt := FillTestFirst(holes[i]);
        } else {
          var outcome := RunModel(FillHole(holes[i]));
          attempt := if outcome.None? then Err(AgentBroke)
                     else Ok(Attempt(holes[i], outcome.value, !StillPending(env, tree, holes[i]), None));
        }
        assert holes[i..][1..] == holes[i + 1..];
        if attempt.Err? {
          return Err(attempt.error);
        }
        PrependTwice(attempts, attempt.value, FillAll(world, env, args.gated, holes[i + 1..], Now()).1);
        attempts := attempts + [attempt.value];
        if Stops(attempt.value) {
          return Ok(attempts);
        }
      }
      assert holes[|holes|..] == [] && attempts + [] == attempts;
      r := Ok(attempts);
    }
  }
}
