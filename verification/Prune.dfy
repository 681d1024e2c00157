/** Removing generated files on purpose: files, manifest entries and the record of what was
    pruned, with hand-written code in filled holes protected unless forced. */
module Prune {
  import opened Wrappers
  import Ordering
  import Text

  /** The hole scanner: files of the pending holes of a tree, and how many holes a text declares. */
  datatype Env = Env(pendingIn: (map<string, string>, set<string>) -> seq<string>, holeCount: string -> nat)

  /** The project: its files and directories by canonical relative path, and the manifest of generated files. */
  datatype State = State(files: map<string, string>, dirs: set<string>, manifest: map<string, string>)

  datatype Refusal =
    | OutsideProject(target: string)
    | OwnState(path: string)
    | Missing(path: string)
    | NothingRecorded(path: string)
    | FilledHoles(file: string)

  // ----- targets -----

  function TrimDotSlash(s: string): string {
    if |s| >= 2 && s[..2] == "./" then TrimDotSlash(s[2..]) else s
  }

  function Relative(target: string): string {
    Text.TrimEndChar(TrimDotSlash(target), '/')
  }

  predicate Under(file: string, relative: string) {
    file == relative || Text.StartsWith(file, relative + "/")
  }

  predicate UnderAny(file: string, removed: seq<string>) {
    exists i :: 0 <= i < |removed| && Under(file, removed[i])
  }

  function Covered(manifest: map<string, string>, relative: string): set<string> {
    set f | f in manifest && Under(f, relative)
  }

  function CountOf(files: seq<string>, file: string): nat {
    if files == [] then 0 else (if files[0] == file then 1 else 0) + CountOf(files[1..], file)
  }

  /** `file` can be read and declares more holes than are still pending in it. */
  predicate HasFilledHole(env: Env, pending: seq<string>, files: map<string, string>, file: string) {
    file in files && env.holeCount(files[file]) > CountOf(pending, file)
  }

  function FirstFilled(env: Env, pending: seq<string>, files: map<string, string>,
                       candidates: seq<string>): Option<string> {
    if candidates == [] then None
    else if HasFilledHole(env, pending, files, candidates[0]) then Some(candidates[0])
    else FirstFilled(env, pending, files, candidates[1..])
  }

  lemma UnderIff(file: string, relative: string)
    ensures Under(file, relative) <==> file == relative || exists rest :: file == relative + "/" + rest
  {
    if Text.StartsWith(file, relative + "/") {
      assert file == relative + "/" + file[|relative| + 1..];
    }
  }

  lemma {:induction false} TrimDotSlashTakes(s: string) returns (n: nat)
    ensures s == Text.Repeat("./", n) + TrimDotSlash(s) && !Text.StartsWith(TrimDotSlash(s), "./")
  {
    if |s| >= 2 && s[..2] == "./" {
      var m := TrimDotSlashTakes(s[2..]);
      n := m + 1;
      assert s == "./" + s[2..];
    } else {
      n := 0;
    }
  }

  /** A target is the path without any `./` before it and any slash after it. */
  lemma RelativeIs(target: string) returns (dots: nat, slashes: nat)
    ensures var relative := Relative(target);
      && target == Text.Repeat("./", dots) + relative + Text.Repeat("/", slashes)
      && !Text.StartsWith(relative, "./") && (relative != "" ==> relative[|relative| - 1] != '/')
  {
    var s := TrimDotSlash(target);
    dots := TrimDotSlashTakes(target);
    slashes := Text.TrimEndCharTakes(s, '/');
    hide Text.TrimEndChar, TrimDotSlash, Text.Repeat;
    assert "/" == ['/'];
  }

  // ----- one target -----

  function Refuse(env: Env, pending: seq<string>, force: bool, s: State, target: string): Option<Refusal> {
    var relative := Relative(target);
    if relative == "" || Text.StartsWith(relative, "..") || Text.StartsWith(relative, "/")
      then Some(OutsideProject(target))
    else if Under(relative, ".vord") then Some(OwnState(relative))
    else if relative !in s.files && relative !in s.dirs then Some(Missing(relative))
    else if Covered(s.manifest, relative) == {} then Some(NothingRecorded(relative))
    else if force then None
    else match FirstFilled(env, pending, s.files, Ordering.SortedSeq(Covered(s.manifest, relative)))
      case None => None
      case Some(file) => Some(FilledHoles(file))
  }

  function Remove(s: State, relative: string): State {
    State(
      if relative in s.dirs then map f | f in s.files && !Under(f, relative) :: s.files[f] else s.files - {relative},
      if relative in s.dirs then set d | d in s.dirs && !Under(d, relative) else s.dirs,
      s.manifest - Covered(s.manifest, relative))
  }

  // ----- all targets -----

  function PruneAll(env: Env, pending: seq<string>, force: bool, s: State, targets: seq<string>)
    : (State, Result<seq<string>, Refusal>)
  {
    if targets == [] then (s, Ok([]))
    else
      var (s1, r) := PruneAll(env, pending, force, s, targets[..|targets| - 1]);
      var target := targets[|targets| - 1];
      if r.Err? then (s1, r)
      else match Refuse(env, pending, force, s1, target)
        case Some(refusal) => (s1, Err(refusal))
        case None => (Remove(s1, Relative(target)), Ok(r.value + [Relative(target)]))
  }

  function AppendNew(log: seq<string>, removed: seq<string>): seq<string> {
    if removed == [] then log
    else
      var front, last := AppendNew(log, removed[..|removed| - 1]), removed[|removed| - 1];
      if last in front then front else front + [last]
  }

  function Prune(env: Env, force: bool, s: State, targets: seq<string>): (State, Result<seq<string>, Refusal>) {
    PruneAll(env, env.pendingIn(s.files, s.dirs), force, s, targets)
  }

  // ----- what success means -----

  /** A file has nothing under it: what any file system guarantees. */
  ghost predicate FilesAreLeaves(s: State) {
    && (forall f :: f in s.files ==> f !in s.dirs)
    && (forall f, g :: f in s.files && g in s.files && Under(g, f) ==> g == f)
    && (forall f, d :: f in s.files && d in s.dirs ==> !Under(d, f))
  }

  lemma UnderAnyOfAppend(file: string, removed: seq<string>, last: string)
    ensures UnderAny(file, removed + [last]) <==> UnderAny(file, removed) || Under(file, last)
  {
    hide Under;
    var all := removed + [last];
    if UnderAny(file, removed) {
      var i :| 0 <= i < |removed| && Under(file, removed[i]);
      assert Under(file, all[i]);
    }
    if Under(file, last) {
      assert Under(file, all[|removed|]);
    }
    if UnderAny(file, all) && !Under(file, last) {
      var i :| 0 <= i < |all| && Under(file, all[i]);
      assert Under(file, removed[i]);
    }
  }

  function Relatives(targets: seq<string>): (out: seq<string>)
    ensures |out| == |targets|
    ensures forall i :: 0 <= i < |targets| ==> out[i] == Relative(targets[i])
  {
    seq(|targets|, i requires 0 <= i < |targets| => Relative(targets[i]))
  }

  /** On success the manifest loses exactly the entries at or under some target and keeps the rest as they were. */
  lemma {:induction false} ManifestLosesExactlyTheTargets(env: Env, pending: seq<string>, force: bool,
                                                          s: State, targets: seq<string>)
    ensures var (s', r) := PruneAll(env, pending, force, s, targets);
      r.Ok? ==>
        && r.value == Relatives(targets)
        && s'.manifest == map f | f in s.manifest && !UnderAny(f, r.value) :: s.manifest[f]
  {
    hide Refuse, UnderAny, Under;
    if targets == [] {
      NotUnderNothing();
    } else {
      var (s1, r) := PruneAll(env, pending, force, s, targets[..|targets| - 1]);
      ManifestLosesExactlyTheTargets(env, pending, force, s, targets[..|targets| - 1]);
      if r.Ok? {
        var last := Relative(targets[|targets| - 1]);
        forall f ensures UnderAny(f, r.value + [last]) <==> UnderAny(f, r.value) || Under(f, last) {
          UnderAnyOfAppend(f, r.value, last);
        }
      }
    }
  }

  lemma NotUnderNothing()
    ensures forall f :: !UnderAny(f, [])
  {
  }

  /** One removal takes away exactly the files at or under the target, when files are leaves. */
  lemma RemoveTakesExactlyTheTarget(s: State, relative: string)
    requires FilesAreLeaves(s) && (relative in s.files || relative in s.dirs)
    ensures Remove(s, relative).files == map f | f in s.files && !Under(f, relative) :: s.files[f]
    ensures Remove(s, relative).dirs == set d | d in s.dirs && !Under(d, relative)
    ensures FilesAreLeaves(Remove(s, relative))
  {
    hide Covered;
  }

  lemma {:induction false} FirstFilledIsNoneIff(env: Env, pending: seq<string>, files: map<string, string>,
                                                candidates: seq<string>)
    ensures FirstFilled(env, pending, files, candidates) == None
            <==> forall f :: f in candidates ==> !HasFilledHole(env, pending, files, f)
  {
    hide HasFilledHole;
    if candidates != [] {
      FirstFilledIsNoneIff(env, pending, files, candidates[1..]);
      assert forall f :: f in candidates <==> f == candidates[0] || f in candidates[1..];
    }
  }

  ghost predicate HoldsRecorded(manifest: map<string, string>, relative: string) {
    exists f :: f in manifest && Under(f, relative)
  }

  /** No recorded file at or under `relative` has a filled hole. */
  ghost predicate NoneFilled(env: Env, pending: seq<string>, s: State, relative: string) {
    forall f :: f in s.manifest && Under(f, relative) ==> !HasFilledHole(env, pending, s.files, f)
  }

  lemma CoveredMeans(env: Env, pending: seq<string>, s: State, relative: string)
    ensures Covered(s.manifest, relative) != {} <==> HoldsRecorded(s.manifest, relative)
    ensures FirstFilled(env, pending, s.files, Ordering.SortedSeq(Covered(s.manifest, relative))) == None
            <==> NoneFilled(env, pending, s, relative)
  {
    hide Under, HasFilledHole, FirstFilled;
    var covered := Covered(s.manifest, relative);
    FirstFilledIsNoneIff(env, pending, s.files, Ordering.SortedSeq(covered));
    if f :| f in s.manifest && Under(f, relative) {
      assert f in covered;
    }
    if covered != {} {
      var f :| f in covered;
      assert f in s.manifest && Under(f, relative);
    }
  }

  /** A target is taken exactly when it is a path inside the project, not vord's own, that exists and has
      recorded files under it; and, unless forced, none of those has a filled hole. */
  lemma RefuseNoneIff(env: Env, pending: seq<string>, force: bool, s: State, target: string)
    ensures var relative := Relative(target);
      Refuse(env, pending, force, s, target) == None
      <==> && relative != "" && !Text.StartsWith(relative, "..") && !Text.StartsWith(relative, "/")
           && !Under(relative, ".vord")
           && (relative in s.files || relative in s.dirs)
           && HoldsRecorded(s.manifest, relative)
           && (!force ==> NoneFilled(env, pending, s, relative))
  {
    hide HoldsRecorded, NoneFilled, Covered, FirstFilled, Relative, Under;
    CoveredMeans(env, pending, s, Relative(target));
  }

  lemma {:induction false} FirstFilledIsFirst(env: Env, pending: seq<string>, files: map<string, string>,
                                              candidates: seq<string>)
    requires Ordering.Ascending(candidates) && FirstFilled(env, pending, files, candidates).Some?
    ensures var file := FirstFilled(env, pending, files, candidates).value;
      && file in candidates && HasFilledHole(env, pending, files, file)
      && forall f :: f in candidates && HasFilledHole(env, pending, files, f) ==> f == file || Ordering.Less(file, f)
  {
    hide HasFilledHole;
    if !HasFilledHole(env, pending, files, candidates[0]) {
      FirstFilledIsFirst(env, pending, files, candidates[1..]);
      assert forall f :: f in candidates <==> f == candidates[0] || f in candidates[1..];
    }
  }

  /** Why a target is refused: each reason stands for its own case, in this order. */
  lemma RefusalTells(env: Env, pending: seq<string>, force: bool, s: State, target: string)
    ensures var relative := Relative(target);
      var outside := relative == "" || ".." <= relative || "/" <= relative;
      var own := Under(relative, ".vord");
      var there := relative in s.files || relative in s.dirs;
      match Refuse(env, pending, force, s, target)
      case None => true
      case Some(OutsideProject(t)) => t == target && outside
      case Some(OwnState(p)) => p == relative && !outside && own
      case Some(Missing(p)) => p == relative && !outside && !own && !there
      case Some(NothingRecorded(p)) =>
        p == relative && !outside && !own && there && !HoldsRecorded(s.manifest, relative)
      case Some(FilledHoles(file)) =>
        && !force && file in s.manifest && Under(file, relative) && HasFilledHole(env, pending, s.files, file)
        && forall f :: f in s.manifest && Under(f, relative) && HasFilledHole(env, pending, s.files, f) ==>
             f == file || Ordering.Less(file, f)
  {
    hide HoldsRecorded, NoneFilled, HasFilledHole, Relative, Under, FirstFilled;
    var covered := Covered(s.manifest, Relative(target));
    CoveredMeans(env, pending, s, Relative(target));
    if FirstFilled(env, pending, s.files, Ordering.SortedSeq(covered)).Some? {
      FirstFilledIsFirst(env, pending, s.files, Ordering.SortedSeq(covered));
    }
  }

  /** On success the files gone are exactly those at or under some target; and unless forced, no manifest
      entry dropped was a file that, as the project stood at the start, had a filled hole. */
  lemma {:induction false} FilesLoseExactlyTheTargets(env: Env, pending: seq<string>, force: bool,
                                                      s: State, targets: seq<string>)
    requires FilesAreLeaves(s)
    ensures var (s', r) := PruneAll(env, pending, force, s, targets);
      r.Ok? ==>
        && FilesAreLeaves(s')
        && s'.files == (map f | f in s.files && !UnderAny(f, r.value) :: s.files[f])
        && s'.dirs == (set d | d in s.dirs && !UnderAny(d, r.value))
        && (!force ==> forall f :: f in s.manifest && UnderAny(f, r.value) ==> !HasFilledHole(env, pending, s.files, f))
  {
    hide Refuse, UnderAny, Under, HasFilledHole, Remove, FilesAreLeaves;
    if targets == [] {
      NotUnderNothing();
    } else {
      var front := targets[..|targets| - 1];
      var (s1, r) := PruneAll(env, pending, force, s, front);
      FilesLoseExactlyTheTargets(env, pending, force, s, front);
      ManifestLosesExactlyTheTargets(env, pending, force, s, front);
      var target := targets[|targets| - 1];
      if r.Ok? && Refuse(env, pending, force, s1, target) == None {
        var last := Relative(target);
        forall f ensures UnderAny(f, r.value + [last]) <==> UnderAny(f, r.value) || Under(f, last) {
          UnderAnyOfAppend(f, r.value, last);
        }
        RefuseNoneIff(env, pending, force, s1, target);
        RemoveTakesExactlyTheTarget(s1, last);
        if !force {
          forall f | f in s.manifest && UnderAny(f, r.value + [last]) ensures !HasFilledHole(env, pending, s.files, f) {
            if !UnderAny(f, r.value) {
              assert f in s1.manifest && Under(f, last);
              SameTextSameHoles(env, pending, s.files, s1.files, f);
            }
          }
        }
      }
    }
  }

  lemma SameTextSameHoles(env: Env, pending: seq<string>, a: map<string, string>, b: map<string, string>, f: string)
    requires (f in a <==> f in b) && (f in a ==> a[f] == b[f])
    ensures HasFilledHole(env, pending, a, f) <==> HasFilledHole(env, pending, b, f)
  {
  }

  lemma {:induction false} CountIsMultiplicity(files: seq<string>, file: string)
    ensures CountOf(files, file) == multiset(files)[file]
  {
    if files != [] {
      CountIsMultiplicity(files[1..], file);
      assert files == [files[0]] + files[1..];
    }
  }

  /** No recorded file at or under one of `paths` declares more holes than are pending in it. */
  ghost predicate NoFilledRecorded(env: Env, s: State, paths: seq<string>) {
    forall f :: f in s.manifest && f in s.files && UnderAny(f, paths) ==>
      env.holeCount(s.files[f]) <= multiset(env.pendingIn(s.files, s.dirs))[f]
  }

  /** What pruning promises on success, from the project's state at the start. */
  lemma PruneOnSuccess(env: Env, force: bool, s: State, targets: seq<string>)
    requires FilesAreLeaves(s)
    ensures var (s', r) := Prune(env, force, s, targets);
      r.Ok? ==>
        && r.value == Relatives(targets)
        && s'.manifest == (map f | f in s.manifest && !UnderAny(f, r.value) :: s.manifest[f])
        && s'.files == (map f | f in s.files && !UnderAny(f, r.value) :: s.files[f])
        && s'.dirs == (set d | d in s.dirs && !UnderAny(d, r.value))
        && (!force ==> NoFilledRecorded(env, s, r.value))
  {
    hide PruneAll, UnderAny;
    var pending := env.pendingIn(s.files, s.dirs);
    ManifestLosesExactlyTheTargets(env, pending, force, s, targets);
    FilesLoseExactlyTheTargets(env, pending, force, s, targets);
    var r := Prune(env, force, s, targets).1;
    if r.Ok? && !force {
      forall f | f in s.manifest && f in s.files && UnderAny(f, r.value)
        ensures env.holeCount(s.files[f]) <= multiset(pending)[f]
      {
        CountIsMultiplicity(pending, f);
        assert !HasFilledHole(env, pending, s.files, f);
      }
    }
  }

  /** An unforced prune takes no filled hole with it exactly when none lies under a target in a file the
      manifest does not record. */
  lemma TakesNoFilledHoleIff(env: Env, s: State, targets: seq<string>)
    requires FilesAreLeaves(s) && Prune(env, false, s, targets).1.Ok?
    ensures var after := Prune(env, false, s, targets).0;
      var pending := env.pendingIn(s.files, s.dirs);
      (forall f :: f in s.files && f !in after.files ==> !HasFilledHole(env, pending, s.files, f))
      <==> (forall f :: f in s.files && f !in s.manifest && UnderAny(f, Relatives(targets)) ==>
              !HasFilledHole(env, pending, s.files, f))
  {
    hide Prune, UnderAny, Relatives, FilesAreLeaves;
    PruneOnSuccess(env, false, s, targets);
    var pending := env.pendingIn(s.files, s.dirs);
    forall f | f in s.manifest && f in s.files && UnderAny(f, Relatives(targets))
      ensures !HasFilledHole(env, pending, s.files, f)
    {
      CountIsMultiplicity(pending, f);
    }
  }

  /** A scanner for which a text that says so holds one hole, open or filled. */
  function OneHole(): Env {
    Env((files, dirs) => if "d/mine" in files && files["d/mine"] == "open" then ["d/mine"] else [],
        content => if content == "open" || content == "filled" then 1 else 0)
  }

  /** Only recorded files are looked at for filled holes: a directory that also holds a file the manifest
      does not know is removed with it, filled holes and all, without being forced. */
  lemma PruneTakesUnrecordedCode()
    ensures var s := State(map["d/mine" := "filled", "d/made" := "made"], {"d"}, map["d/made" := "hash"]);
      var (s', r) := Prune(OneHole(), false, s, ["d"]);
      && HasFilledHole(OneHole(), OneHole().pendingIn(s.files, s.dirs), s.files, "d/mine")
      && r == Ok(["d"]) && "d/mine" !in s'.files
  {
    hide Refuse;
    var s := State(map["d/mine" := "filled", "d/made" := "made"], {"d"}, map["d/made" := "hash"]);
    var env := OneHole();
    assert |"filled"| != |"open"|;
    assert env.pendingIn(s.files, s.dirs) == [];
    assert "d/mine"[2] == "d/made"[2] && "d/mine"[3] != "d/made"[3];
    assert !HasFilledHole(env, [], s.files, "d/made") by {
      assert |"made"| != |"filled"| && "made"[0] != "open"[0];
    }
    assert Relative("d") == "d";
    assert "d/made"[..2] == "d" + "/" == "d/mine"[..2];
    assert Under("d/made", "d") && Under("d/mine", "d");
    assert !Under("d", ".vord");
    assert "d/made" in s.manifest && forall f :: f in s.manifest ==> f == "d/made";
    RefuseNoneIff(env, [], false, s, "d");
    var targets := ["d"];
    assert targets[..0] == [];
    assert PruneAll(env, [], false, s, targets[..0]) == (s, Ok([]));
    assert [] + ["d"] == ["d"];
    assert PruneAll(env, [], false, s, targets) == (Remove(s, "d"), Ok(["d"]));
  }

  // ----- the record of what was pruned -----

  predicate NoRepeats(xs: seq<string>) {
    forall i, j :: 0 <= i < j < |xs| ==> xs[i] != xs[j]
  }

  /** The log keeps its old content, gains exactly the removed paths it lacked, and repeats none of them. */
  lemma {:induction false} LogGainsTheNewPaths(log: seq<string>, removed: seq<string>)
    ensures var after := AppendNew(log, removed);
      && log <= after
      && (forall x :: x in after <==> x in log || x in removed)
      && (forall x :: x in after[|log|..] ==> x !in log)
      && NoRepeats(after[|log|..])
  {
    if removed != [] {
      var front, last := removed[..|removed| - 1], removed[|removed| - 1];
      LogGainsTheNewPaths(log, front);
      var before := AppendNew(log, front);
      assert forall x :: x in removed <==> x in front || x == last;
      if last !in before {
        var after := before + [last];
        assert after[|log|..] == before[|log|..] + [last];
        assert forall x :: x in before[|log|..] ==> x in before;
      }
    }
  }

  // ----- the program itself -----

  class Project {
    const env: Env
    var files: map<string, string>
    var dirs: set<string>
    var manifest: map<string, string>
    var pruned: seq<string>

    ghost function Now(): State
      reads this
    {
      State(files, dirs, manifest)
    }

    constructor (env: Env, start: State, pruned: seq<string>)
      ensures this.env == env && Now() == start && this.pruned == pruned
    {
      this.env, this.pruned := env, pruned;
      files, dirs, manifest := start.files, start.dirs, start.manifest;
    }

    /** On failure the files of earlier targets are gone but manifest and log are as they were. */
    method PruneTargets(targets: seq<string>, force: bool) returns (r: Result<seq<string>, Refusal>)
      modifies this
      ensures var (end, expected) := Prune(env, force, old(Now()), targets);
        && r == expected
        && files == end.files && dirs == end.dirs
        && manifest == (if r.Ok? then end.manifest else old(manifest))
        && pruned == (if r.Ok? then AppendNew(old(pruned), r.value) else old(pruned))
    {
      hide Refuse, Remove;
      var kept := manifest;
      var pending := env.pendingIn(files, dirs);
      ghost var start := Now();
      var removed: seq<string> := [];
      for i := 0 to |targets|
        invariant PruneAll(env, pending, force, start, targets[..i]) == (State(files, dirs, kept), Ok(removed))
        invariant manifest == old(manifest) && pruned == old(pruned)
      {
        var target := targets[i];
        assert targets[..i + 1][..i] == targets[..i];
        var refusal := Refuse(env, pending, force, State(files, dirs, kept), target);
        if refusal.Some? {
          FirstRefusalDecides(env, pending, force, start, targets, i + 1);
          return Err(refusal.value);
        }
        var relative := Relative(target);
        var after := Remove(State(files, dirs, kept), relative);
        files, dirs, kept := after.files, after.dirs, after.manifest;
        removed := removed + [relative];
      }
      assert targets[..|targets|] == targets;
      manifest := kept;
      for i := 0 to |removed|
        invariant pruned == AppendNew(old(pruned), removed[..i])
        invariant State(files, dirs, manifest) == PruneAll(env, pending, force, start, targets).0
      {
        assert removed[..i + 1][..i] == removed[..i];
        if removed[i] !in pruned {
          pruned := pruned + [removed[i]];
        }
      }
      assert removed[..|removed|] == removed;
      r := Ok(removed);
    }
  }

  lemma {:induction false} FirstRefusalDecides(env: Env, pending: seq<string>, force: bool,
                                               s: State, targets: seq<string>, i: nat)
    requires i <= |targets| && PruneAll(env, pending, force, s, targets[..i]).1.Err?
    ensures PruneAll(env, pending, force, s, targets) == PruneAll(env, pending, force, s, targets[..i])
  {
    hide Refuse, Remove;
    if i == |targets| {
      assert targets[..i] == targets;
    } else {
      assert targets[..|targets| - 1][..i] == targets[..i];
      FirstRefusalDecides(env, pending, force, s, targets[..|targets| - 1], i);
    }
  }
}
