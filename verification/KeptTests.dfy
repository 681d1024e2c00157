/** What exit code 0 of a fill under a test gate says about the tests written for the holes: which of
    them are still, in the tree left in the end, as they were when they failed. */
module KeptTests {
  import opened Wrappers
  import opened Holes
  import opened FinalTree

  /** What the RED run of the i-th hole wrote is in `end` as that run left it. */
  ghost predicate TestKept(env: Env, log: seq<Event>, end: Tree, i: nat) {
    5 * i + 1 < |log| ==> KeepsWhatRedWrote(env, log[5 * i + 1], end)
  }

  /** Exit code 0 means that everything each RED run wrote is kept to the end. */
  ghost predicate KeepsTests(w: World, env: Env, args: FillArgs, t: Tree) {
    ExitsZero(w, env, args, t) ==>
      forall i: nat :: TestKept(env, LogOf(w, env, args, t), TreeAtEnd(w, env, args, t), i)
  }

  // ----- one file of one test -----

  lemma KeptByItsGreenRun(w: World, env: Env, args: FillArgs, t: Tree, i: nat)
    requires args.gated && ExitsZero(w, env, args, t) && i < |Select(env, args, t)|
    ensures var log := LogOf(w, env, args, t);
      && |log| == 5 * |Select(env, args, t)| && 5 * i + 3 < |log|
      && KeepsWhatRedWrote(env, log[5 * i + 1], log[5 * i + 3].after)
      && Chained(t, log, TreeAtEnd(w, env, args, t))
  {
    hide FillAll, Select, ExitCode, StillPending, Chained, AllTestFirst, KeepsWhatRedWrote, WroteSomething;
    var log := LogOf(w, env, args, t);
    ExitZeroIffAllTestFirst(w, env, args, t);
    RunsOfHole(env, Select(env, args, t), log, i);
    var runs := log[5 * i..5 * i + 5];
    assert runs[1] == log[5 * i + 1] && runs[3] == log[5 * i + 3];
  }

  function AsWritten(env: Env, red: Event, p: string): Tree -> bool {
    t => FingerprintOf(env, t, p) == FingerprintOf(env, red.after, p)
  }

  /** With exit code 0, a file that RED wrote has in the end the fingerprint RED gave it exactly unless some
      run after GREEN changed that for good. */
  lemma TestFileStaysIff(w: World, env: Env, args: FillArgs, t: Tree, i: nat, p: string)
    requires args.gated && ExitsZero(w, env, args, t) && i < |Select(env, args, t)|
    requires var log := LogOf(w, env, args, t); 5 * i + 1 < |log| && Wrote(env, log[5 * i + 1], p)
    ensures var log := LogOf(w, env, args, t);
      FingerprintOf(env, TreeAtEnd(w, env, args, t), p) == FingerprintOf(env, log[5 * i + 1].after, p)
      <==> !LeftBroken(AsWritten(env, log[5 * i + 1], p), log, 5 * i + 4)
  {
    hide FillWith, Select, ExitCode, LeftBroken, Wrote, FingerprintOf;
    var log := LogOf(w, env, args, t);
    KeptByItsGreenRun(w, env, args, t, i);
    GoodAtEndIffNotLeftBroken(AsWritten(env, log[5 * i + 1], p), log, 5 * i + 3);
  }

  // ----- all tests -----

  lemma LastTestIsKept(w: World, env: Env, args: FillArgs, t: Tree)
    requires args.gated && ExitsZero(w, env, args, t) && Select(env, args, t) != [] && QuietSuite(w)
    ensures TestKept(env, LogOf(w, env, args, t), TreeAtEnd(w, env, args, t), |Select(env, args, t)| - 1)
  {
    hide FillWith, Select, ExitCode, QuietSuite, KeepsWhatRedWrote;
    var log, n := LogOf(w, env, args, t), |Select(env, args, t)|;
    KeptByItsGreenRun(w, env, args, t, n - 1);
    LastSuiteRunIsGreen(w, env, args, t);
    assert log[5 * (n - 1) + 3].after == log[|log| - 1].before;
  }

  lemma NothingSelectedNothingRun(w: World, env: Env, args: FillArgs, t: Tree)
    requires args.gated && Select(env, args, t) == [] && ExitsZero(w, env, args, t)
    ensures LogOf(w, env, args, t) == []
  {
    hide Select;
  }

  lemma AtMostOneKeepsTests(w: World, env: Env, args: FillArgs, t: Tree)
    requires args.gated && |Select(env, args, t)| <= 1
    requires Select(env, args, t) != [] ==> QuietSuite(w)
    ensures KeepsTests(w, env, args, t)
  {
    hide FillWith, Select, ExitCode, QuietSuite, KeepsWhatRedWrote;
    if ExitsZero(w, env, args, t) {
      if Select(env, args, t) == [] {
        NothingSelectedNothingRun(w, env, args, t);
      } else {
        LastTestIsKept(w, env, args, t);
        LastSuiteRunIsGreen(w, env, args, t);
      }
    }
  }

  // ----- two holes with one test file -----

  /** The agent fills both holes in turn, each time writing the test anew. */
  lemma ReopeningRun(args: FillArgs)
    requires args.limit >= 2 && args.gated
    ensures var w, env := StrategyWorld(Reopening(t => t)), TwoHoles(NameWanted(args));
      var log := LogOf(w, env, args, BOTH_OPEN);
      && |log| > 1 && log[1] == FirstRed(NameWanted(args))
      && TreeAtEnd(w, env, args, BOTH_OPEN) == WithOneFilled(WithOneFilled(BOTH_OPEN, "a"), "b")
  {
    hide Select, StillPending, StrategyWorld, TwoHoles, AttemptHole, FillAll, ExitCode, FillsAlone, WithOneFilled;
    var name, st, s := NameWanted(args), Reopening(t => t), State(BOTH_OPEN, []);
    var w, env, first, second := StrategyWorld(st), TwoHoles(name), HoleIn("a", name), HoleIn("b", name);
    var holes := [first, second];
    BothAreSelected(args);
    ReopeningWorks(name, holes, t => t);
    BothStartOpen(name);
    assert FillsAlone(env, holes, first, BOTH_OPEN, st.red(BOTH_OPEN, first), st.green(BOTH_OPEN, first));
    FillingSucceeds(env, holes, st, true, first, s);
    FillingGoesOn(w, env, true, holes, s);
    var s1 := AttemptHole(w, env, true, first, s).0;
    SecondIsOpen(BOTH_OPEN, name);
    assert FillsAlone(env, holes, second, s1.tree, st.red(s1.tree, second), st.green(s1.tree, second));
    FillingSucceeds(env, holes, st, true, second, s1);
    assert holes[1..] == [second] && [second][1..] == [];
    FillingGoesOn(w, env, true, [second], s1);
    NothingToFill(w, env, true, AttemptHole(w, env, true, second, s1).0);
    FillingOnlyAdds(w, env, [second], s1);
  }

  lemma BothStartOpen(name: string)
    ensures StillPending(TwoHoles(name), BOTH_OPEN, HoleIn("a", name))
  {
    hide StillPending, TwoHoles;
    PendingIffOpen(BOTH_OPEN, "a", name);
  }

  lemma SecondIsOpen(t: Tree, name: string)
    ensures StillPending(TwoHoles(name), WithOneFilled(t, "a"), HoleIn("b", name))
  {
    hide StillPending, TwoHoles;
    assert "a"[0] != "b"[0];
    PendingIffOpen(WithOneFilled(t, "a"), "b", name);
  }

  lemma FillingOnlyAdds(w: World, env: Env, holes: seq<Hole>, s: State)
    ensures s.log <= FillAll(w, env, true, holes, s).0.log
  {
    hide FillAll;
    var _ := FillAllTells(w, env, holes, s);
  }

  lemma TestIsWritten(name: string)
    ensures Wrote(TwoHoles(name), FirstRed(name), "test")
    ensures FingerprintOf(TwoHoles(name), WithTest(BOTH_OPEN), "test") == Some(1)
  {
    assert "test"[0] != "a"[0] && "test"[0] != "b"[0];
    assert "test" !in BOTH_OPEN;
  }

  lemma TestIsRewritten(name: string)
    ensures FingerprintOf(TwoHoles(name), WithOneFilled(WithOneFilled(BOTH_OPEN, "a"), "b"), "test") == Some(2)
  {
    assert "test"[0] != "a"[0] && "test"[0] != "b"[0];
    assert "test" !in BOTH_OPEN;
    assert WithTest(BOTH_OPEN)["test"] == "x" == WithOneFilled(BOTH_OPEN, "a")["test"];
  }

  lemma MeddlingRewritesTheTest(t: Tree, name: string)
    ensures FingerprintOf(TwoHoles(name), Meddle(t), "test") == Some(4)
  {
  }

  /** With two holes or more to fill, the test written for one may be overwritten by the test written for
      another, and the exit code is still 0. */
  lemma ExitZeroMayLoseATest(args: FillArgs)
    requires args.limit >= 2 && args.gated
    ensures var w, env := StrategyWorld(Reopening(t => t)), TwoHoles(NameWanted(args));
      var log, end := LogOf(w, env, args, BOTH_OPEN), TreeAtEnd(w, env, args, BOTH_OPEN);
      && ExitsZero(w, env, args, BOTH_OPEN) && QuietSuite(w)
      && |log| > 1 && Wrote(env, log[1], "test")
      && FingerprintOf(env, end, "test") != FingerprintOf(env, log[1].after, "test")
  {
    ExitZeroMayLeaveAHolePending(args);
    hide FillWith, ExitsZero, StrategyWorld, QuietSuite, TwoHoles, WithTest, WithOneFilled, Wrote, FingerprintOf;
    ReopeningRun(args);
    TestIsWritten(NameWanted(args));
    TestIsRewritten(NameWanted(args));
  }

  /** With a single hole, a suite that changes the tree may rewrite its test in the last check. */
  lemma SuiteMayRewriteATest(args: FillArgs)
    requires args.limit == 1 && args.gated
    ensures var w, env := StrategyWorld(Reopening(Meddle)), TwoHoles(NameWanted(args));
      var log, end := LogOf(w, env, args, BOTH_OPEN), TreeAtEnd(w, env, args, BOTH_OPEN);
      && ExitsZero(w, env, args, BOTH_OPEN)
      && |log| > 1 && Wrote(env, log[1], "test")
      && FingerprintOf(env, end, "test") != FingerprintOf(env, log[1].after, "test")
  {
    hide FillWith, ExitsZero, StrategyWorld, TwoHoles, WithTest, WithOneFilled, Wrote, FingerprintOf, Meddle;
    MeddlingRun(args);
    TestIsWritten(NameWanted(args));
    MeddlingRewritesTheTest(WithOneFilled(BOTH_OPEN, "a"), NameWanted(args));
  }

  lemma LostFileIsALostTest(w: World, env: Env, args: FillArgs, t: Tree, p: string)
    requires ExitsZero(w, env, args, t)
    requires var log := LogOf(w, env, args, t);
      && |log| > 1 && Wrote(env, log[1], p)
      && FingerprintOf(env, TreeAtEnd(w, env, args, t), p) != FingerprintOf(env, log[1].after, p)
    ensures !KeepsTests(w, env, args, t)
  {
    hide FillWith, ExitsZero, Wrote, FingerprintOf;
    assert !TestKept(env, LogOf(w, env, args, t), TreeAtEnd(w, env, args, t), 0);
  }

  /** Exit code 0 means that everything each RED run wrote is kept to the end, for every project, agent and
      suite (for every quiet suite, if `quiet`). */
  ghost predicate TestsAreKept(args: FillArgs, quiet: bool) {
    forall w, env, t :: (quiet ==> QuietSuite(w)) ==> KeepsTests(w, env, args, t)
  }

  /** What a caller under a gate can count on from the options alone: a limit of one hole and a suite that
      changes nothing. */
  lemma TestsAreKeptIff(args: FillArgs, quiet: bool)
    requires args.gated
    ensures TestsAreKept(args, quiet) <==> args.limit == 0 || (args.limit == 1 && quiet)
  {
    hide FillWith, Select, StrategyWorld, QuietSuite, TwoHoles, ExitsZero, Wrote, FingerprintOf, KeepsTests;
    var env := TwoHoles(NameWanted(args));
    if args.limit == 0 || (args.limit == 1 && quiet) {
      forall w, env, t | quiet ==> QuietSuite(w) ensures KeepsTests(w, env, args, t) {
        SelectionIsLimited(env, args, t);
        AtMostOneKeepsTests(w, env, args, t);
      }
    } else if args.limit == 1 {
      SuiteMayRewriteATest(args);
      LostFileIsALostTest(StrategyWorld(Reopening(Meddle)), env, args, BOTH_OPEN, "test");
    } else {
      ExitZeroMayLoseATest(args);
      LostFileIsALostTest(StrategyWorld(Reopening(t => t)), env, args, BOTH_OPEN, "test");
    }
  }
}
