/** What exit code 0 of a fill says about the tree that is left in the end, with and without a
    test gate: when a filled hole is still filled, and when all of them are. */
module FinalTree {
  import opened Wrappers
  import opened Holes

  predicate ExitsZero(w: World, env: Env, args: FillArgs, t: Tree) {
    var r := FillWith(w, env, args, t).1;
    r.Ok? && ExitCode(r.value) == 0
  }

  function LogOf(w: World, env: Env, args: FillArgs, t: Tree): seq<Event> {
    FillWith(w, env, args, t).0.log
  }

  function TreeAtEnd(w: World, env: Env, args: FillArgs, t: Tree): Tree {
    FillWith(w, env, args, t).0.tree
  }

  // ----- one hole -----

  /** The run that has to close the i-th selected hole. */
  function ClosingRun(args: FillArgs, i: nat): nat {
    if args.gated then 5 * i + 3 else i
  }

  lemma ClosedByItsRun(w: World, env: Env, args: FillArgs, t: Tree, i: nat)
    requires ExitsZero(w, env, args, t) && i < |Select(env, args, t)|
    ensures var log, at := LogOf(w, env, args, t), ClosingRun(args, i);
      && at < |log| && !StillPending(env, log[at].after, Select(env, args, t)[i])
      && |log| == (if args.gated then 5 else 1) * |Select(env, args, t)|
      && Chained(t, log, TreeAtEnd(w, env, args, t))
  {
    hide FillAll, Select, ExitCode, StillPending, Chained, AllTestFirst;
    FillingChains(w, env, args, t);
    if args.gated {
      ExitZeroIffAllTestFirst(w, env, args, t);
      GreenRunClosedTheHole(env, Select(env, args, t), LogOf(w, env, args, t), i);
    } else {
      ExitZeroIffAllFilledUngated(w, env, args, t);
    }
  }

  // ----- what later runs do to what a run achieved -----

  /** The k-th run broke what was good, and it was not good again after any later one. */
  ghost predicate BrokenForGoodAt(good: Tree -> bool, log: seq<Event>, k: nat) {
    && k < |log| && good(log[k].before) && !good(log[k].after)
    && forall m :: k < m < |log| ==> !good(log[m].after)
  }

  ghost predicate LeftBroken(good: Tree -> bool, log: seq<Event>, from: nat) {
    exists k: nat :: from <= k && BrokenForGoodAt(good, log, k)
  }

  lemma OneMoreBrokenRun(good: Tree -> bool, log: seq<Event>, k: nat)
    requires log != [] && BrokenForGoodAt(good, log[..|log| - 1], k) && !good(log[|log| - 1].after)
    ensures BrokenForGoodAt(good, log, k)
  {
  }

  lemma {:induction false} GoodAtEndIffNotLeftBroken(good: Tree -> bool, log: seq<Event>, at: nat)
    requires at < |log| && good(log[at].after)
    requires forall i :: 0 <= i < |log| - 1 ==> log[i].after == log[i + 1].before
    ensures good(log[|log| - 1].after) <==> !LeftBroken(good, log, at + 1)
  {
    var n := |log| - 1;
    if !good(log[n].after) {
      assert log[n - 1].after == log[n].before;
      if good(log[n].before) {
        assert BrokenForGoodAt(good, log, n);
      } else {
        GoodAtEndIffNotLeftBroken(good, log[..n], at);
        var k: nat :| at + 1 <= k && BrokenForGoodAt(good, log[..n], k);
        OneMoreBrokenRun(good, log, k);
      }
    }
  }

  function FilledIn(env: Env, hole: Hole): Tree -> bool {
    t => !StillPending(env, t, hole)
  }

  /** With exit code 0, a selected hole is filled in the end exactly unless some run after the one
      that filled it reopened it for good. */
  lemma FilledHoleStaysFilledIff(w: World, env: Env, args: FillArgs, t: Tree, i: nat)
    requires ExitsZero(w, env, args, t) && i < |Select(env, args, t)|
    ensures var hole := Select(env, args, t)[i];
      !StillPending(env, TreeAtEnd(w, env, args, t), hole)
      <==> !LeftBroken(FilledIn(env, hole), LogOf(w, env, args, t), ClosingRun(args, i) + 1)
  {
    hide FillWith, Select, ExitCode, StillPending, LeftBroken;
    ClosedByItsRun(w, env, args, t, i);
    GoodAtEndIffNotLeftBroken(FilledIn(env, Select(env, args, t)[i]), LogOf(w, env, args, t), ClosingRun(args, i));
  }

  // ----- all holes -----

  ghost predicate AllClosed(env: Env, holes: seq<Hole>, t: Tree) {
    forall h :: h in holes ==> !StillPending(env, t, h)
  }

  ghost predicate AllPending(env: Env, holes: seq<Hole>, t: Tree) {
    forall h :: h in holes ==> StillPending(env, t, h)
  }

  /** Exit code 0 means that every selected hole is filled in the end. */
  ghost predicate KeepsItsWord(w: World, env: Env, args: FillArgs, t: Tree) {
    ExitsZero(w, env, args, t) ==> AllClosed(env, Select(env, args, t), TreeAtEnd(w, env, args, t))
  }

  /** With exit code 0 under a gate, the last run of all is a green suite run: it left the tree that is left,
      and if the suite is quiet it ran on that very tree. */
  lemma LastSuiteRunIsGreen(w: World, env: Env, args: FillArgs, t: Tree)
    requires ExitsZero(w, env, args, t) && args.gated && Select(env, args, t) != []
    ensures var log, end := LogOf(w, env, args, t), TreeAtEnd(w, env, args, t);
      && |log| == 5 * |Select(env, args, t)| && RanGreen(log[|log| - 1])
      && log[|log| - 1].after == end && (QuietSuite(w) ==> log[|log| - 1].before == end)
  {
    hide FillAll, Select, ExitCode, AllTestFirst, WritesFailingTest, FillsHeldToTest, QuietSuite;
    var log, n := LogOf(w, env, args, t), |Select(env, args, t)|;
    ExitZeroIffAllTestFirst(w, env, args, t);
    FillingChains(w, env, args, t);
    RunsOfHole(env, Select(env, args, t), log, n - 1);
    assert log[5 * (n - 1)..5 * (n - 1) + 5][4] == log[|log| - 1];
  }

  /** The last selected hole is filled in the end, if the suite that runs after it changes nothing. */
  lemma LastHoleStaysFilled(w: World, env: Env, args: FillArgs, t: Tree)
    requires ExitsZero(w, env, args, t) && (args.gated ==> QuietSuite(w))
    ensures var holes := Select(env, args, t);
      holes != [] ==> !StillPending(env, TreeAtEnd(w, env, args, t), holes[|holes| - 1])
  {
    hide FillAll, Select, ExitCode, StillPending, QuietSuite;
    var holes := Select(env, args, t);
    if holes != [] {
      var log := LogOf(w, env, args, t);
      ClosedByItsRun(w, env, args, t, |holes| - 1);
      if args.gated {
        LastSuiteRunIsGreen(w, env, args, t);
      }
    }
  }

  // ----- an agent that fills one hole and reopens the others -----

  /** How to write the test for a hole and how to fill it, both from the tree before the test; and what
      the suite makes of the tree when it checks a filled hole. */
  datatype Strategy = Strategy(red: (Tree, Hole) -> Tree, green: (Tree, Hole) -> Tree, check: Tree -> Tree)

  function StrategyWorld(st: Strategy): World {
    World(
      (log: seq<Event>, t: Tree, task: Task) =>
        (match task {
           case FillHole(hole) => st.green(t, hole)
           case WriteTest(hole) => st.red(t, hole)
           case MakePass(hole, _) => if |log| >= 2 then st.green(log[|log| - 2].before, hole) else t
         }, Some(Completed(1))),
      (log: seq<Event>, t: Tree) =>
        (if |log| % 5 == 4 then st.check(t) else t, Some(if |log| % 5 == 2 then Red("") else Green)))
  }

  /** `hole` is filled, and every other one of `holes` is open. */
  ghost predicate FilledAlone(env: Env, holes: seq<Hole>, hole: Hole, t: Tree) {
    !StillPending(env, t, hole) && forall k :: k in holes && k != hole ==> StillPending(env, t, k)
  }

  /** From `t`, writing the test leaves `r`, and filling `hole` and opening the others then leaves `g`,
      with what the first step wrote kept. */
  ghost predicate FillsAlone(env: Env, holes: seq<Hole>, hole: Hole, t: Tree, r: Tree, g: Tree) {
    var red := AgentRan(WriteTest(hole), t, r, Completed(1));
    WritesFailingTest(env, hole, red) && KeepsWhatRedWrote(env, red, g) && FilledAlone(env, holes, hole, g)
  }

  ghost predicate Works(env: Env, holes: seq<Hole>, st: Strategy) {
    forall t, h :: h in holes && StillPending(env, t, h) ==> FillsAlone(env, holes, h, t, st.red(t, h), st.green(t, h))
  }

  lemma RecordsTouched(env: Env, red: Event, tests: seq<string>, afterRed: Snapshot, t: Tree)
    requires Records(env, red, tests, afterRed)
    ensures Differing(tests, afterRed, TakeSnapshot(env, t)) == [] <==> KeepsWhatRedWrote(env, red, t)
  {
    hide AreWritten, AreTouched, WroteSomething, KeepsWhatRedWrote;
    assert TouchedIsRecorded(env, red, t, Differing(tests, afterRed, TakeSnapshot(env, t)));
  }

  lemma GreenSucceeds(env: Env, st: Strategy, hole: Hole, t: Tree, red: Event, tests: seq<string>, s: State)
    requires Records(env, red, tests, TakeSnapshot(env, s.tree)) && KeepsWhatRedWrote(env, red, st.green(t, hole))
    requires !StillPending(env, st.green(t, hole), hole)
    requires |s.log| % 5 == 3 && s.log[|s.log| - 2].before == t
    ensures var (s', r) := GreenPhase(StrategyWorld(st), env, hole, tests, TakeSnapshot(env, s.tree), s);
      Sound(r) && |s'.log| == |s.log| + 2 && s'.tree == st.check(st.green(t, hole))
  {
    hide StillPending, TakeSnapshot, Differing, KeepsWhatRedWrote, Records;
    RecordsTouched(env, red, tests, TakeSnapshot(env, s.tree), st.green(t, hole));
  }

  lemma GreenOnlyAdds(w: World, env: Env, hole: Hole, tests: seq<string>, afterRed: Snapshot, s: State)
    ensures s.log <= GreenPhase(w, env, hole, tests, afterRed, s).0.log
  {
    hide StillPending, TakeSnapshot, Differing;
  }

  lemma RedSucceeds(env: Env, holes: seq<Hole>, st: Strategy, hole: Hole, s: State)
    requires FillsAlone(env, holes, hole, s.tree, st.red(s.tree, hole), st.green(s.tree, hole))
    requires |s.log| % 5 == 1
    ensures var (s', r) := RedPhase(StrategyWorld(st), env, hole, s);
      && Sound(r) && |s'.log| == |s.log| + 4 && s'.tree == st.check(st.green(s.tree, hole))
      && s.log + [AgentRan(WriteTest(hole), s.tree, st.red(s.tree, hole), Completed(1))] <= s'.log
  {
    hide StillPending, TakeSnapshot, Changed, WroteSomething, KeepsWhatRedWrote, Records, GreenPhase;
    var r := st.red(s.tree, hole);
    var red := AgentRan(WriteTest(hole), s.tree, r, Completed(1));
    SnapshotsRecordTheRun(env, red);
    NothingChangedIsNothingWrote(env, red);
    var tests := Changed(TakeSnapshot(env, s.tree), TakeSnapshot(env, r));
    var s3 := State(r, s.log + [red] + [SuiteRan(r, r, Red(""))]);
    GreenSucceeds(env, st, hole, s.tree, red, tests, s3);
    GreenOnlyAdds(StrategyWorld(st), env, hole, tests, TakeSnapshot(env, r), s3);
  }

  lemma FillingSucceeds(env: Env, holes: seq<Hole>, st: Strategy, gated: bool, hole: Hole, s: State)
    requires FillsAlone(env, holes, hole, s.tree, st.red(s.tree, hole), st.green(s.tree, hole))
    requires gated ==> |s.log| % 5 == 0
    ensures var (s', r) := AttemptHole(StrategyWorld(st), env, gated, hole, s);
      && Sound(r)
      && (gated ==> |s'.log| == |s.log| + 5
                    && s'.log[|s.log| + 1] == AgentRan(WriteTest(hole), s.tree, st.red(s.tree, hole), Completed(1)))
      && s'.tree == (if gated then st.check(st.green(s.tree, hole)) else st.green(s.tree, hole))
  {
    hide RedPhase, StillPending, WroteSomething, KeepsWhatRedWrote;
    if gated {
      RedSucceeds(env, holes, st, hole, State(s.tree, s.log + [SuiteRan(s.tree, s.tree, Green)]));
    }
  }

  ghost predicate Distinct(holes: seq<Hole>) {
    forall i, j :: 0 <= i < j < |holes| ==> holes[i] != holes[j]
  }

  lemma NothingToFill(w: World, env: Env, gated: bool, s: State)
    ensures FillAll(w, env, gated, [], s) == (s, Ok([])) && ExitCode([]) == 0
  {
  }

  /** Past a sound attempt, a fill ends as it ends for the other holes. */
  lemma FillingGoesOn(w: World, env: Env, gated: bool, holes: seq<Hole>, s: State)
    requires holes != [] && Sound(AttemptHole(w, env, gated, holes[0], s).1)
    ensures var (s1, r) := AttemptHole(w, env, gated, holes[0], s);
      var (s2, rest) := FillAll(w, env, gated, holes[1..], s1);
      var (end, all) := FillAll(w, env, gated, holes, s);
      && end == s2
      && (rest.Ok? && ExitCode(rest.value) == 0 ==> all.Ok? && ExitCode(all.value) == 0)
  {
    hide AttemptHole, ExitCode;
    var (s1, r) := AttemptHole(w, env, gated, holes[0], s);
    var rest := FillAll(w, env, gated, holes[1..], s1).1;
    if rest.Ok? {
      ExitCodeOfCons(r.value, rest.value);
    }
  }

  lemma DistinctTail(holes: seq<Hole>)
    requires Distinct(holes) && |holes| > 1
    ensures var rest := holes[1..];
      Distinct(rest) && rest != [] && rest[0] != holes[0] && rest[|rest| - 1] == holes[|holes| - 1]
    ensures forall h :: h in holes[1..] ==> h in holes
  {
  }

  lemma OneSucceeds(env: Env, all: seq<Hole>, st: Strategy, gated: bool, hole: Hole, s: State)
    requires Works(env, all, st) && forall t :: st.check(t) == t
    requires hole in all && StillPending(env, s.tree, hole) && (gated ==> |s.log| % 5 == 0)
    ensures var (s1, r) := AttemptHole(StrategyWorld(st), env, gated, hole, s);
      Sound(r) && (gated ==> |s1.log| % 5 == 0) && FilledAlone(env, all, hole, s1.tree)
  {
    hide AttemptHole, StillPending, WritesFailingTest, KeepsWhatRedWrote, FilledAlone, StrategyWorld;
    assert FillsAlone(env, all, hole, s.tree, st.red(s.tree, hole), st.green(s.tree, hole));
    FillingSucceeds(env, all, st, gated, hole, s);
  }

  /** The strategy gets through every hole in turn and leaves only the last one filled. */
  lemma {:induction false} AllSucceed(env: Env, all: seq<Hole>, st: Strategy, gated: bool, holes: seq<Hole>, s: State)
    requires Works(env, all, st) && forall t :: st.check(t) == t
    requires holes != [] && Distinct(holes) && (forall h :: h in holes ==> h in all)
    requires StillPending(env, s.tree, holes[0]) && (gated ==> |s.log| % 5 == 0)
    ensures var (s', r) := FillAll(StrategyWorld(st), env, gated, holes, s);
      r.Ok? && ExitCode(r.value) == 0 && FilledAlone(env, all, holes[|holes| - 1], s'.tree)
  {
    hide AttemptHole, FillAll, StillPending, ExitCode, Works, StrategyWorld, Distinct;
    var w := StrategyWorld(st);
    OneSucceeds(env, all, st, gated, holes[0], s);
    var s1 := AttemptHole(w, env, gated, holes[0], s).0;
    FillingGoesOn(w, env, gated, holes, s);
    if |holes| == 1 {
      assert holes[1..] == [];
      NothingToFill(w, env, gated, s1);
    } else {
      DistinctTail(holes);
      AllSucceed(env, all, st, gated, holes[1..], s1);
    }
  }

  /** Under such an agent the fill ends with exit code 0 and all selected holes but the last open. */
  lemma StrategyLeavesOnlyTheLastFilled(env: Env, args: FillArgs, t: Tree, st: Strategy)
    requires var holes := Select(env, args, t);
      holes != [] && Distinct(holes) && AllPending(env, holes, t) && Works(env, holes, st)
    requires forall t' :: st.check(t') == t'
    ensures var w, holes := StrategyWorld(st), Select(env, args, t);
      && ExitsZero(w, env, args, t) && QuietSuite(w)
      && FilledAlone(env, holes, holes[|holes| - 1], TreeAtEnd(w, env, args, t))
  {
    hide FillAll, Select, ExitCode, StillPending, Works, Distinct;
    var holes := Select(env, args, t);
    AllSucceed(env, holes, st, args.gated, holes, State(t, []));
  }

  // ----- when exit code 0 means that all are filled -----

  /** The holes are different ones, and from every tree that has one of them open an agent can fill it
      test-first and leave all others open. */
  ghost predicate Independent(env: Env, holes: seq<Hole>) {
    && Distinct(holes)
    && forall t, h :: h in holes && StillPending(env, t, h) ==> exists r, g :: FillsAlone(env, holes, h, t, r, g)
  }

  ghost function ChosenTrees(env: Env, holes: seq<Hole>, t: Tree, hole: Hole): (Tree, Tree) {
    if exists r, g :: FillsAlone(env, holes, hole, t, r, g) then
      var r, g :| FillsAlone(env, holes, hole, t, r, g);
      (r, g)
    else (t, t)
  }

  ghost function ChosenStrategy(env: Env, holes: seq<Hole>): Strategy {
    Strategy((t, hole) => ChosenTrees(env, holes, t, hole).0, (t, hole) => ChosenTrees(env, holes, t, hole).1, t => t)
  }

  lemma ChosenStrategyWorks(env: Env, holes: seq<Hole>)
    requires Independent(env, holes)
    ensures Works(env, holes, ChosenStrategy(env, holes))
  {
    hide StillPending, FillsAlone;
  }

  /** For a quiet suite and holes that can be opened and filled independently: exit code 0 means that all
      selected holes are filled in the end, whatever the agent does, exactly when at most one is selected. */
  lemma ExitZeroMeansAllFilledIff(env: Env, args: FillArgs, t: Tree)
    requires Independent(env, Select(env, args, t)) && AllPending(env, Select(env, args, t), t)
    ensures (forall w :: QuietSuite(w) ==> KeepsItsWord(w, env, args, t)) <==> |Select(env, args, t)| <= 1
  {
    hide FillWith, Select, ExitCode, StillPending, QuietSuite, FillsAlone;
    var holes := Select(env, args, t);
    if |holes| <= 1 {
      forall w | QuietSuite(w) ensures KeepsItsWord(w, env, args, t) {
        AtMostOneKeepsItsWord(w, env, args, t);
      }
    } else {
      ChosenStrategyWorks(env, holes);
      var st := ChosenStrategy(env, holes);
      StrategyLeavesOnlyTheLastFilled(env, args, t, st);
      assert holes[0] != holes[|holes| - 1] && holes[0] in holes;
      assert !KeepsItsWord(StrategyWorld(st), env, args, t);
    }
  }

  lemma AtMostOneKeepsItsWord(w: World, env: Env, args: FillArgs, t: Tree)
    requires |Select(env, args, t)| <= 1 && (args.gated ==> QuietSuite(w))
    ensures KeepsItsWord(w, env, args, t)
  {
    hide FillWith, Select, ExitCode, StillPending, QuietSuite;
    if ExitsZero(w, env, args, t) {
      LastHoleStaysFilled(w, env, args, t);
    }
  }

  // ----- two holes -----

  function HoleIn(file: string, name: string): Hole {
    Hole(file, name, None, None)
  }

  /** Two files, each one hole of this name, pending while the file says so. */
  function TwoHoles(name: string): Env {
    Env((t, scope) => [HoleIn("a", name), HoleIn("b", name)],
        (file, content) => if content == "open" then [HoleIn(file, name)] else [],
        (t, file) => [],
        (t, p) => true,
        content => |content|)
  }

  function TestText(t: Tree): string {
    if "test" in t && |t["test"]| == 1 then "xx" else "x"
  }

  function WithTest(t: Tree): Tree {
    t["test" := TestText(t)]
  }

  function WithOneFilled(t: Tree, file: string): Tree {
    WithTest(t)["a" := "open"]["b" := "open"][file := "filled"]
  }

  function Reopening(check: Tree -> Tree): Strategy {
    Strategy((t, hole: Hole) => WithTest(t), (t, hole: Hole) => WithOneFilled(t, hole.file), check)
  }

  lemma PendingIffOpen(t: Tree, file: string, name: string)
    ensures StillPending(TwoHoles(name), t, HoleIn(file, name)) <==> ContentOrEmpty(t, file) == "open"
  {
    var rescanned := TwoHoles(name).markerHoles(file, ContentOrEmpty(t, file));
    if ContentOrEmpty(t, file) == "open" {
      assert rescanned[0] == HoleIn(file, name);
    }
  }

  lemma TestIsKept(t: Tree, file: string, name: string)
    requires file == "a" || file == "b"
    ensures var red := AgentRan(WriteTest(HoleIn(file, name)), t, WithTest(t), Completed(1));
      WroteSomething(TwoHoles(name), red) && KeepsWhatRedWrote(TwoHoles(name), red, WithOneFilled(t, file))
  {
    var env, red := TwoHoles(name), AgentRan(WriteTest(HoleIn(file, name)), t, WithTest(t), Completed(1));
    assert |"test"| != |"a"| && |"test"| != |"b"|;
    assert Wrote(env, red, "test");
    forall p | Wrote(env, red, p)
      ensures FingerprintOf(env, WithOneFilled(t, file), p) == FingerprintOf(env, red.after, p)
    {
      assert p == "test";
    }
  }

  lemma OneIsFilledAlone(t: Tree, file: string, name: string, holes: seq<Hole>)
    requires file == "a" || file == "b"
    requires forall h :: h in holes ==> h == HoleIn("a", name) || h == HoleIn("b", name)
    ensures FilledAlone(TwoHoles(name), holes, HoleIn(file, name), WithOneFilled(t, file))
  {
    hide StillPending, TwoHoles;
    var g := WithOneFilled(t, file);
    assert "a"[0] != "b"[0] && |"filled"| != |"open"|;
    PendingIffOpen(g, "a", name);
    PendingIffOpen(g, "b", name);
  }

  lemma ReopeningWorks(name: string, holes: seq<Hole>, check: Tree -> Tree)
    requires forall h :: h in holes ==> h == HoleIn("a", name) || h == HoleIn("b", name)
    ensures Works(TwoHoles(name), holes, Reopening(check))
  {
    hide KeepsWhatRedWrote, WroteSomething, FilledAlone, TwoHoles, WithOneFilled;
    var env, st := TwoHoles(name), Reopening(check);
    forall t, h | h in holes && StillPending(env, t, h)
      ensures FillsAlone(env, holes, h, t, st.red(t, h), st.green(t, h))
    {
      TestIsKept(t, h.file, name);
      OneIsFilledAlone(t, h.file, name, holes);
      StaysOpenUnderTest(t, h.file, name);
    }
  }

  lemma StaysOpenUnderTest(t: Tree, file: string, name: string)
    requires file == "a" || file == "b"
    ensures StillPending(TwoHoles(name), WithTest(t), HoleIn(file, name))
            <==> StillPending(TwoHoles(name), t, HoleIn(file, name))
  {
    hide StillPending, TwoHoles;
    PendingIffOpen(t, file, name);
    PendingIffOpen(WithTest(t), file, name);
    assert |"test"| != |file|;
  }

  /** Such holes are independent. */
  lemma TwoHolesAreIndependent(name: string)
    ensures Independent(TwoHoles(name), [HoleIn("a", name), HoleIn("b", name)])
  {
    hide StillPending, FillsAlone, TwoHoles, WithTest, WithOneFilled;
    var env, holes := TwoHoles(name), [HoleIn("a", name), HoleIn("b", name)];
    var st := Reopening(t => t);
    ReopeningWorks(name, holes, t => t);
    assert "a"[0] != "b"[0];
    forall t, h | h in holes && StillPending(env, t, h) ensures exists r, g :: FillsAlone(env, holes, h, t, r, g) {
      assert FillsAlone(env, holes, h, t, st.red(t, h), st.green(t, h));
    }
  }

  const BOTH_OPEN: Tree := map["a" := "open", "b" := "open"]

  lemma BothAreOpen(name: string)
    ensures AllPending(TwoHoles(name), [HoleIn("a", name), HoleIn("b", name)], BOTH_OPEN)
  {
    hide StillPending, TwoHoles;
    PendingIffOpen(BOTH_OPEN, "a", name);
    PendingIffOpen(BOTH_OPEN, "b", name);
  }

  /** The run that writes the test for the first of the two. */
  function FirstRed(name: string): Event {
    AgentRan(WriteTest(HoleIn("a", name)), BOTH_OPEN, WithTest(BOTH_OPEN), Completed(1))
  }

  /** A name every hole of which is wanted. */
  function NameWanted(args: FillArgs): string {
    if args.only.Some? then args.only.value else "h"
  }

  lemma BothAreSelected(args: FillArgs)
    ensures var name := NameWanted(args);
      var both := [HoleIn("a", name), HoleIn("b", name)];
      Select(TwoHoles(name), args, BOTH_OPEN) == if args.limit >= 2 then both else both[..args.limit]
  {
    var name := NameWanted(args);
    var both := [HoleIn("a", name), HoleIn("b", name)];
    assert both[1..] == [both[1]] && both[1..][1..] == [];
    SelectTakesTheFirstWanted(args, both, args.limit);
    assert AllWanted(args, both[1..]) == [both[1]];
    assert AllWanted(args, both) == both;
  }

  /** With two holes or more to fill, exit code 0 may leave one of them open: the agent fills the second
      and reopens the first. */
  lemma ExitZeroMayLeaveAHolePending(args: FillArgs)
    requires args.limit >= 2
    ensures var w, env := StrategyWorld(Reopening(t => t)), TwoHoles(NameWanted(args));
      && ExitsZero(w, env, args, BOTH_OPEN) && QuietSuite(w)
      && HoleIn("a", NameWanted(args)) in Select(env, args, BOTH_OPEN)
      && StillPending(env, TreeAtEnd(w, env, args, BOTH_OPEN), HoleIn("a", NameWanted(args)))
  {
    hide FillWith, Select, StillPending, StrategyWorld, Works, QuietSuite, TwoHoles, ExitsZero;
    var name := NameWanted(args);
    var holes := [HoleIn("a", name), HoleIn("b", name)];
    BothAreSelected(args);
    BothAreOpen(name);
    ReopeningWorks(name, holes, t => t);
    assert "a"[0] != "b"[0];
    StrategyLeavesOnlyTheLastFilled(TwoHoles(name), args, BOTH_OPEN, Reopening(t => t));
  }

  /** A suite that opens the first hole and rewrites the test. */
  function Meddle(t: Tree): Tree {
    t["a" := "open"]["test" := "none"]
  }

  lemma FirstIsOpen(t: Tree, name: string)
    ensures StillPending(TwoHoles(name), Meddle(t), HoleIn("a", name))
  {
    hide StillPending, TwoHoles;
    assert |"test"| != |"a"|;
    PendingIffOpen(Meddle(t), "a", name);
  }

  lemma FirstIsSelectedAlone(args: FillArgs)
    requires args.limit == 1
    ensures Select(TwoHoles(NameWanted(args)), args, BOTH_OPEN) == [HoleIn("a", NameWanted(args))]
  {
    hide Select, TwoHoles;
    BothAreSelected(args);
  }

  /** The single hole is filled, and the suite meddles with the tree afterwards. */
  lemma MeddlingRun(args: FillArgs)
    requires args.limit == 1 && args.gated
    ensures var w, env := StrategyWorld(Reopening(Meddle)), TwoHoles(NameWanted(args));
      var log := LogOf(w, env, args, BOTH_OPEN);
      && ExitsZero(w, env, args, BOTH_OPEN)
      && |log| == 5 && log[1] == FirstRed(NameWanted(args))
      && TreeAtEnd(w, env, args, BOTH_OPEN) == Meddle(WithOneFilled(BOTH_OPEN, "a"))
  {
    hide Select, StillPending, StrategyWorld, TwoHoles, AttemptHole, FillAll, ExitCode, FillsAlone, WithOneFilled,
      Meddle;
    var name, st, s := NameWanted(args), Reopening(Meddle), State(BOTH_OPEN, []);
    var w, env, hole := StrategyWorld(st), TwoHoles(name), HoleIn("a", name);
    FirstIsSelectedAlone(args);
    ReopeningWorks(name, [hole], Meddle);
    assert StillPending(env, BOTH_OPEN, hole) by {
      PendingIffOpen(BOTH_OPEN, "a", name);
    }
    assert FillsAlone(env, [hole], hole, BOTH_OPEN, st.red(BOTH_OPEN, hole), st.green(BOTH_OPEN, hole));
    FillingSucceeds(env, [hole], st, true, hole, s);
    FillingGoesOn(w, env, true, [hole], s);
    assert [hole][1..] == [];
    NothingToFill(w, env, true, AttemptHole(w, env, true, hole, s).0);
  }

  /** With a single hole, a suite that changes the tree may open it in its last check. */
  lemma SuiteMayReopenAHole(args: FillArgs)
    requires args.limit == 1 && args.gated
    ensures !KeepsItsWord(StrategyWorld(Reopening(Meddle)), TwoHoles(NameWanted(args)), args, BOTH_OPEN)
  {
    hide Select, StillPending, StrategyWorld, TwoHoles, FillWith, ExitCode, WithOneFilled, Meddle, ExitsZero;
    MeddlingRun(args);
    FirstIsSelectedAlone(args);
    FirstIsOpen(WithOneFilled(BOTH_OPEN, "a"), NameWanted(args));
  }

  /** Exit code 0 means that every selected hole is filled in the end, for every project, agent and suite
      (for every quiet suite, if `quiet`). */
  ghost predicate Guaranteed(args: FillArgs, quiet: bool) {
    forall w, env, t :: (quiet ==> QuietSuite(w)) ==> KeepsItsWord(w, env, args, t)
  }

  /** What a caller can count on from the options alone: a limit of one hole, and under a test gate a suite
      that changes nothing. */
  lemma GuaranteedIff(args: FillArgs, quiet: bool)
    ensures Guaranteed(args, quiet) <==> args.limit == 0 || (args.limit == 1 && (args.gated ==> quiet))
  {
    hide FillWith, Select, StillPending, StrategyWorld, QuietSuite, TwoHoles, ExitsZero;
    if args.limit == 0 || (args.limit == 1 && (args.gated ==> quiet)) {
      forall w, env, t | quiet ==> QuietSuite(w) ensures KeepsItsWord(w, env, args, t) {
        SelectionIsLimited(env, args, t);
        if args.limit == 1 {
          AtMostOneKeepsItsWord(w, env, args, t);
        }
      }
    } else if args.limit == 1 {
      SuiteMayReopenAHole(args);
    } else {
      ExitZeroMayLeaveAHolePending(args);
      assert !KeepsItsWord(StrategyWorld(Reopening(t => t)), TwoHoles(NameWanted(args)), args, BOTH_OPEN);
    }
  }

  lemma SelectionIsLimited(env: Env, args: FillArgs, t: Tree)
    ensures |Select(env, args, t)| <= args.limit
  {
    SelectTakesTheFirstWanted(args, env.scan(t, args.scope), args.limit);
  }
}
