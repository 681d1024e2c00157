/** Churn and co-change counts mined from a commit log. */
module History {
  import opened Wrappers
  import opened Ordering
  import Counting
  import Sorting
  import Text

  const COMMIT_MARKER := "@@commit "
  const MAX_FILES_FOR_CO_CHANGE := 30
  const U64_MAX := 0xFFFF_FFFF_FFFF_FFFF

  // ----- lines -----

  /** What a log line is to the miner: the start of a commit, a file the commit touched with the
      lines it added and deleted there, or nothing. */
  datatype Line = Marker | Touch(path: string, churn: nat) | Skip

  function CountOrZero(field: string): nat {
    match Text.ParseUnsigned(field, U64_MAX)
    case Some(n) => n
    case None => 0
  }

  function Classify(line: string): Line {
    if Text.StartsWith(line, COMMIT_MARKER) then Marker
    else match Text.SplitOnce(line, '\t')
      case None => Skip
      case Some((added, rest)) =>
        match Text.SplitOnce(rest, '\t')
        case None => Skip
        case Some((deleted, path)) =>
          if Text.Contains(path, "=>") then Skip
          else Touch(path, CountOrZero(added) + CountOrZero(deleted))
  }

  predicate IsFileLine(line: string, added: string, deleted: string, path: string) {
    && line == added + "\t" + deleted + "\t" + path && '\t' !in added && '\t' !in deleted
    && !("@@commit " <= line) && !Text.Contains(path, "=>")
  }

  /** A line that starts a commit. */
  lemma MarkerIff(line: string)
    ensures Classify(line) == Marker <==> exists sha :: line == "@@commit " + sha
  {
    hide Text.SplitOnce, CountOrZero, Text.Contains;
    if Text.StartsWith(line, COMMIT_MARKER) {
      assert line == "@@commit " + line[|COMMIT_MARKER|..];
    }
  }

  /** Two columns of counts and a path that is no rename. */
  lemma FileLineReads(line: string, added: string, deleted: string, path: string)
    requires IsFileLine(line, added, deleted, path)
    ensures Classify(line) == Touch(path, CountOrZero(added) + CountOrZero(deleted))
  {
    hide Text.SplitOnce, CountOrZero, Text.Contains;
    var rest := deleted + ['\t'] + path;
    Text.SplitOnceOfConcat(added, '\t', rest);
    Text.SplitOnceOfConcat(deleted, '\t', path);
    assert line == added + ['\t'] + rest;
  }

  /** Only such lines are read as files. */
  lemma OnlyFileLinesTouch(line: string) returns (added: string, deleted: string, path: string)
    requires Classify(line).Touch?
    ensures IsFileLine(line, added, deleted, path)
  {
    Text.NothingToSplitOn(line, '\t');
    var (first, rest) := Text.SplitOnce(line, '\t').value;
    Text.NothingToSplitOn(rest, '\t');
    var (second, third) := Text.SplitOnce(rest, '\t').value;
    hide Text.SplitOnce, CountOrZero, Text.Contains;
    added, deleted, path := first, second, third;
    assert line == added + "\t" + deleted + "\t" + path;
  }

  function Lines(text: seq<string>): (ls: seq<Line>)
    ensures |ls| == |text|
  {
    seq(|text|, i requires 0 <= i < |text| => Classify(text[i]))
  }

  // ----- what a log says -----

  /** The sets of files touched between commit markers; the first group is what precedes any marker. */
  function Groups(ls: seq<Line>): (gs: seq<set<string>>)
    ensures |gs| >= 1
  {
    if ls == [] then [{}]
    else
      var gs, last := Groups(ls[..|ls| - 1]), ls[|ls| - 1];
      match last
      case Marker => gs + [{}]
      case Touch(path, _) => gs[..|gs| - 1] + [gs[|gs| - 1] + {path}]
      case Skip => gs
  }

  function Touched(ls: seq<Line>): set<string> {
    set l | l in ls && l.Touch? :: l.path
  }

  function Churn(ls: seq<Line>, path: string): nat {
    if ls == [] then 0
    else
      var last := ls[|ls| - 1];
      Churn(ls[..|ls| - 1], path) + (if last.Touch? && last.path == path then last.churn else 0)
  }

  /** Groups that list `path`. */
  function Commits(gs: seq<set<string>>, path: string): nat {
    if gs == [] then 0
    else Commits(gs[..|gs| - 1], path) + (if path in gs[|gs| - 1] then 1 else 0)
  }

  predicate Paired(g: set<string>, a: string, b: string) {
    |g| <= MAX_FILES_FOR_CO_CHANGE && a in g && b in g
  }

  /** Groups small enough to count that list both files. */
  function CoCommits(gs: seq<set<string>>, a: string, b: string): nat {
    if gs == [] then 0
    else CoCommits(gs[..|gs| - 1], a, b) + (if Paired(gs[|gs| - 1], a, b) then 1 else 0)
  }

  type Pair = (string, string)

  function PairsOf(g: set<string>): set<Pair> {
    set a, b | a in g && b in g && Less(a, b) :: (a, b)
  }

  function CountedPairs(g: set<string>): set<Pair> {
    if |g| <= MAX_FILES_FOR_CO_CHANGE then PairsOf(g) else {}
  }

  function AllPairs(gs: seq<set<string>>): set<Pair> {
    if gs == [] then {} else AllPairs(gs[..|gs| - 1]) + CountedPairs(gs[|gs| - 1])
  }

  datatype FileHistory = FileHistory(commits: nat, churn: nat)

  datatype History = History(files: map<string, FileHistory>, coChanges: map<Pair, nat>)

  function FilesOf(gs: seq<set<string>>, ls: seq<Line>): map<string, FileHistory> {
    map path | path in Touched(ls) :: FileHistory(Commits(gs, path), Churn(ls, path))
  }

  function CoChangesOf(gs: seq<set<string>>): map<Pair, nat> {
    map pair | pair in AllPairs(gs) :: CoCommits(gs, pair.0, pair.1)
  }

  /** The exact counts of a log. */
  function Mine(ls: seq<Line>): History {
    History(FilesOf(Groups(ls), ls), CoChangesOf(Groups(ls)))
  }

  lemma {:induction false} GroupsAreTouched(ls: seq<Line>, i: nat)
    requires i < |Groups(ls)|
    ensures Groups(ls)[i] <= Touched(ls)
  {
    if ls != [] {
      var front, last := ls[..|ls| - 1], ls[|ls| - 1];
      TouchedStep(front, last);
      assert ls == front + [last];
      if i < |Groups(front)| {
        GroupsAreTouched(front, i);
      }
    }
  }

  lemma TouchedStep(front: seq<Line>, last: Line)
    ensures Touched(front + [last]) == Touched(front) + (if last.Touch? then {last.path} else {})
  {
    var ls := front + [last];
    forall path ensures path in Touched(ls) <==> path in Touched(front) || (last.Touch? && path == last.path) {
      if path in Touched(front) {
        var l :| l in front && l.Touch? && l.path == path;
        assert l in ls;
      }
      if last.Touch? && path == last.path {
        assert last in ls;
      }
    }
  }

  lemma {:induction false} NotCommittedUnlessListed(gs: seq<set<string>>, path: string)
    requires forall i :: 0 <= i < |gs| ==> path !in gs[i]
    ensures Commits(gs, path) == 0
  {
    if gs != [] {
      NotCommittedUnlessListed(gs[..|gs| - 1], path);
    }
  }

  /** The pairs recorded are exactly the ordered ones with a positive count. */
  lemma {:induction false} PairsAreThoseCounted(gs: seq<set<string>>, a: string, b: string)
    ensures (a, b) in AllPairs(gs) <==> Less(a, b) && CoCommits(gs, a, b) > 0
  {
    if gs != [] {
      PairsAreThoseCounted(gs[..|gs| - 1], a, b);
    }
  }

  /** Two files are never together more often than either is touched. */
  lemma {:induction false} TogetherAtMostAsOftenAsEither(gs: seq<set<string>>, a: string, b: string)
    ensures CoCommits(gs, a, b) <= Commits(gs, a) && CoCommits(gs, a, b) <= Commits(gs, b)
  {
    if gs != [] {
      TogetherAtMostAsOftenAsEither(gs[..|gs| - 1], a, b);
    }
  }

  // ----- logs put together -----

  function Plus(x: History, y: History): History {
    History(
      map path | path in x.files.Keys + y.files.Keys ::
        FileHistory(FileAt(x, path).commits + FileAt(y, path).commits, FileAt(x, path).churn + FileAt(y, path).churn),
      map pair | pair in x.coChanges.Keys + y.coChanges.Keys :: PairAt(x, pair) + PairAt(y, pair))
  }

  function FileAt(h: History, path: string): FileHistory {
    if path in h.files then h.files[path] else FileHistory(0, 0)
  }

  function PairAt(h: History, pair: Pair): nat {
    if pair in h.coChanges then h.coChanges[pair] else 0
  }

  predicate StartsWithCommit(ls: seq<Line>) {
    ls != [] && ls[0].Marker?
  }

  lemma {:induction false} GroupsOfConcat(x: seq<Line>, y: seq<Line>)
    requires StartsWithCommit(y)
    ensures Groups(y)[0] == {} && Groups(x + y) == Groups(x) + Groups(y)[1..]
  {
    var front, last := y[..|y| - 1], y[|y| - 1];
    assert (x + y)[..|x + y| - 1] == x + front;
    if front == [] {
      assert x + front == x;
      assert Groups(y) == [{}] + [{}];
    } else {
      GroupsOfConcat(x, front);
      var gx, gf := Groups(x), Groups(front);
      if last.Touch? && |gf| == 1 {
        AfterAMarkerThereAreTwoGroups(front);
      }
    }
  }

  lemma {:induction false} AfterAMarkerThereAreTwoGroups(ls: seq<Line>)
    requires StartsWithCommit(ls)
    ensures |Groups(ls)| >= 2
  {
    if |ls| > 1 {
      AfterAMarkerThereAreTwoGroups(ls[..|ls| - 1]);
    }
  }

  lemma {:induction false} CommitsOfConcat(x: seq<set<string>>, y: seq<set<string>>, path: string)
    ensures Commits(x + y, path) == Commits(x, path) + Commits(y, path)
  {
    if y == [] {
      assert x + y == x;
    } else {
      assert (x + y)[..|x + y| - 1] == x + y[..|y| - 1];
      CommitsOfConcat(x, y[..|y| - 1], path);
    }
  }

  lemma {:induction false} CoCommitsOfConcat(x: seq<set<string>>, y: seq<set<string>>, a: string, b: string)
    ensures CoCommits(x + y, a, b) == CoCommits(x, a, b) + CoCommits(y, a, b)
  {
    if y == [] {
      assert x + y == x;
    } else {
      assert (x + y)[..|x + y| - 1] == x + y[..|y| - 1];
      CoCommitsOfConcat(x, y[..|y| - 1], a, b);
    }
  }

  lemma {:induction false} ChurnOfConcat(x: seq<Line>, y: seq<Line>, path: string)
    ensures Churn(x + y, path) == Churn(x, path) + Churn(y, path)
  {
    if y == [] {
      assert x + y == x;
    } else {
      assert (x + y)[..|x + y| - 1] == x + y[..|y| - 1];
      ChurnOfConcat(x, y[..|y| - 1], path);
    }
  }

  lemma TouchedOfConcat(x: seq<Line>, y: seq<Line>)
    ensures Touched(x + y) == Touched(x) + Touched(y)
  {
    forall path | path in Touched(x + y) ensures path in Touched(x) + Touched(y) {
      var l :| l in x + y && l.Touch? && l.path == path;
      assert l in x || l in y;
    }
    forall path | path in Touched(x) + Touched(y) ensures path in Touched(x + y) {
      var l :| (l in x || l in y) && l.Touch? && l.path == path;
      assert l in x + y;
    }
  }

  lemma CountsOfUntouched(ls: seq<Line>, path: string)
    requires path !in Touched(ls)
    ensures Commits(Groups(ls), path) == 0 && Churn(ls, path) == 0
  {
    forall i | 0 <= i < |Groups(ls)| ensures path !in Groups(ls)[i] {
      GroupsAreTouched(ls, i);
    }
    NotCommittedUnlessListed(Groups(ls), path);
    NoChurnUnlessTouched(ls, path);
  }

  lemma {:induction false} NoChurnUnlessTouched(ls: seq<Line>, path: string)
    requires path !in Touched(ls)
    ensures Churn(ls, path) == 0
  {
    if ls != [] {
      var front, last := ls[..|ls| - 1], ls[|ls| - 1];
      assert ls == front + [last];
      TouchedStep(front, last);
      NoChurnUnlessTouched(front, path);
    }
  }

  /** The count a log gives a file, whether or not it lists it. */
  lemma FileAtMine(ls: seq<Line>, path: string)
    ensures FileAt(Mine(ls), path) == FileHistory(Commits(Groups(ls), path), Churn(ls, path))
  {
    if path !in Touched(ls) {
      CountsOfUntouched(ls, path);
    }
  }

  lemma PairAtMine(ls: seq<Line>, pair: Pair)
    requires Less(pair.0, pair.1)
    ensures PairAt(Mine(ls), pair) == CoCommits(Groups(ls), pair.0, pair.1)
  {
    PairsAreThoseCounted(Groups(ls), pair.0, pair.1);
  }

  lemma {:induction false} PairsAreOrdered(gs: seq<set<string>>, pair: Pair)
    requires pair in AllPairs(gs)
    ensures Less(pair.0, pair.1)
  {
    PairsAreThoseCounted(gs, pair.0, pair.1);
  }

  lemma CommitsOfLogs(x: seq<Line>, y: seq<Line>, path: string)
    requires StartsWithCommit(y)
    ensures Commits(Groups(x + y), path) == Commits(Groups(x), path) + Commits(Groups(y), path)
  {
    GroupsOfConcat(x, y);
    CommitsOfConcat(Groups(x), Groups(y)[1..], path);
    CommitsOfConcat([Groups(y)[0]], Groups(y)[1..], path);
    assert Groups(y) == [Groups(y)[0]] + Groups(y)[1..];
    assert Commits([{}], path) == 0;
  }

  lemma CoCommitsOfLogs(x: seq<Line>, y: seq<Line>, a: string, b: string)
    requires StartsWithCommit(y)
    ensures CoCommits(Groups(x + y), a, b) == CoCommits(Groups(x), a, b) + CoCommits(Groups(y), a, b)
  {
    GroupsOfConcat(x, y);
    CoCommitsOfConcat(Groups(x), Groups(y)[1..], a, b);
    CoCommitsOfConcat([Groups(y)[0]], Groups(y)[1..], a, b);
    assert Groups(y) == [Groups(y)[0]] + Groups(y)[1..];
    assert CoCommits([{}], a, b) == 0;
  }

  lemma FilesOfConcat(x: seq<Line>, y: seq<Line>)
    requires StartsWithCommit(y)
    ensures Mine(x + y).files == Plus(Mine(x), Mine(y)).files
  {
    var both, sum := Mine(x + y), Plus(Mine(x), Mine(y));
    hide FileAt, PairAt, Commits, CoCommits, Churn, Groups;
    TouchedOfConcat(x, y);
    assert both.files.Keys == sum.files.Keys;
    forall path | path in both.files ensures both.files[path] == sum.files[path] {
      CommitsOfLogs(x, y, path);
      ChurnOfConcat(x, y, path);
      FileAtMine(x, path);
      FileAtMine(y, path);
    }
  }

  lemma PairsOfConcat(x: seq<Line>, y: seq<Line>)
    requires StartsWithCommit(y)
    ensures Mine(x + y).coChanges == Plus(Mine(x), Mine(y)).coChanges
  {
    var both, sum := Mine(x + y), Plus(Mine(x), Mine(y));
    hide FileAt, PairAt, Commits, CoCommits, Churn, Groups;
    forall pair: Pair
      ensures pair in both.coChanges <==> pair in sum.coChanges
      ensures pair in both.coChanges ==> both.coChanges[pair] == sum.coChanges[pair]
    {
      PairsAreThoseCounted(Groups(x + y), pair.0, pair.1);
      PairsAreThoseCounted(Groups(x), pair.0, pair.1);
      PairsAreThoseCounted(Groups(y), pair.0, pair.1);
      CoCommitsOfLogs(x, y, pair.0, pair.1);
      if Less(pair.0, pair.1) {
        PairAtMine(x, pair);
        PairAtMine(y, pair);
      }
    }
  }

  /** A log followed by one that starts with a commit counts as the two counted apart and added up. */
  lemma MineOfConcat(x: seq<Line>, y: seq<Line>)
    requires StartsWithCommit(y)
    ensures Mine(x + y) == Plus(Mine(x), Mine(y))
  {
    hide Mine, Plus;
    FilesOfConcat(x, y);
    PairsOfConcat(x, y);
  }

  // ----- the order of commits does not matter -----

  function Concat(logs: seq<seq<Line>>): seq<Line> {
    if logs == [] then [] else Concat(logs[..|logs| - 1]) + logs[|logs| - 1]
  }

  const NOTHING := History(map[], map[])

  function MineEach(logs: seq<seq<Line>>): History {
    if logs == [] then NOTHING else Plus(MineEach(logs[..|logs| - 1]), Mine(logs[|logs| - 1]))
  }

  lemma {:induction false} MineOfAll(logs: seq<seq<Line>>)
    requires forall i :: 0 <= i < |logs| ==> StartsWithCommit(logs[i])
    ensures Mine(Concat(logs)) == MineEach(logs)
  {
    if logs == [] {
      assert AllPairs([{}]) == {} && Touched([]) == {};
    } else {
      MineOfAll(logs[..|logs| - 1]);
      MineOfConcat(Concat(logs[..|logs| - 1]), logs[|logs| - 1]);
    }
  }

  lemma FileAtPlus(x: History, y: History, path: string)
    ensures FileAt(Plus(x, y), path) == FileHistory(FileAt(x, path).commits + FileAt(y, path).commits,
                                                    FileAt(x, path).churn + FileAt(y, path).churn)
  {
  }

  lemma PairAtPlus(x: History, y: History, pair: Pair)
    ensures PairAt(Plus(x, y), pair) == PairAt(x, pair) + PairAt(y, pair)
  {
  }

  lemma PlusKeys(x: History, y: History)
    ensures Plus(x, y).files.Keys == x.files.Keys + y.files.Keys
    ensures Plus(x, y).coChanges.Keys == x.coChanges.Keys + y.coChanges.Keys
  {
  }

  /** Histories with the same keys and counts are the same. */
  lemma SameHistory(x: History, y: History)
    requires x.files.Keys == y.files.Keys && x.coChanges.Keys == y.coChanges.Keys
    requires forall path :: FileAt(x, path) == FileAt(y, path)
    requires forall pair :: PairAt(x, pair) == PairAt(y, pair)
    ensures x == y
  {
    forall path | path in x.files ensures x.files[path] == y.files[path] {
      assert FileAt(x, path) == FileAt(y, path);
    }
    assert x.files == y.files;
    forall pair | pair in x.coChanges ensures x.coChanges[pair] == y.coChanges[pair] {
      assert PairAt(x, pair) == PairAt(y, pair);
    }
    assert x.coChanges == y.coChanges;
  }

  lemma PlusSwap(h: History, x: History, y: History)
    ensures Plus(Plus(h, x), y) == Plus(Plus(h, y), x)
  {
    hide Plus, FileAt, PairAt;
    var left, right := Plus(Plus(h, x), y), Plus(Plus(h, y), x);
    PlusKeys(Plus(h, x), y);
    PlusKeys(h, x);
    PlusKeys(Plus(h, y), x);
    PlusKeys(h, y);
    forall path ensures FileAt(left, path) == FileAt(right, path) {
      FileAtPlus(Plus(h, x), y, path);
      FileAtPlus(h, x, path);
      FileAtPlus(Plus(h, y), x, path);
      FileAtPlus(h, y, path);
    }
    forall pair ensures PairAt(left, pair) == PairAt(right, pair) {
      PairAtPlus(Plus(h, x), y, pair);
      PairAtPlus(h, x, pair);
      PairAtPlus(Plus(h, y), x, pair);
      PairAtPlus(h, y, pair);
    }
    SameHistory(left, right);
  }

  /** Counting one log last instead of in its place. */
  lemma {:induction false} CountedLast(before: seq<seq<Line>>, log: seq<Line>, after: seq<seq<Line>>)
    ensures MineEach(before + [log] + after) == Plus(MineEach(before + after), Mine(log))
  {
    hide Plus, Mine;
    var all := before + [log] + after;
    if after == [] {
      assert all[..|all| - 1] == before == before + after;
    } else {
      var last, front := after[|after| - 1], after[..|after| - 1];
      assert all[..|all| - 1] == before + [log] + front;
      assert (before + after)[..|before + after| - 1] == before + front;
      CountedLast(before, log, front);
      PlusSwap(MineEach(before + front), Mine(log), Mine(last));
    }
  }

  lemma {:induction false} MineEachIgnoresOrder(a: seq<seq<Line>>, b: seq<seq<Line>>)
    requires multiset(a) == multiset(b)
    ensures MineEach(a) == MineEach(b)
  {
    hide Plus, Mine;
    if a == [] {
      assert |multiset(b)| == 0;
    } else {
      var front, last := a[..|a| - 1], a[|a| - 1];
      assert a == front + [last] + [] && front + [] == front;
      var before, after := Sorting.TakeOut(front, last, [], b);
      MineEachIgnoresOrder(front, before + after);
      CountedLast(before, last, after);
    }
  }

  /** Commits may be listed in any order. */
  lemma CommitOrderDoesNotMatter(a: seq<seq<Line>>, b: seq<seq<Line>>)
    requires forall i :: 0 <= i < |a| ==> StartsWithCommit(a[i])
    requires multiset(a) == multiset(b)
    ensures Mine(Concat(a)) == Mine(Concat(b))
  {
    forall i | 0 <= i < |b| ensures StartsWithCommit(b[i]) {
      assert b[i] in multiset(a);
    }
    MineOfAll(a);
    MineOfAll(b);
    MineEachIgnoresOrder(a, b);
  }

  // ----- the total weight of co-change -----

  ghost function Weight(h: History): nat {
    Counting.Sum(h.coChanges.Keys, pair => PairAt(h, pair))
  }

  /** Twice the number of pairs within the groups small enough to count. */
  function PairSlots(gs: seq<set<string>>): nat {
    if gs == [] then 0
    else
      var n := |gs[|gs| - 1]|;
      PairSlots(gs[..|gs| - 1]) + (if 0 < n <= 30 then n * (n - 1) else 0)
  }

  lemma {:induction false} PairedWithLeast(x: string, rest: set<string>)
    requires forall y :: y in rest ==> Less(x, y)
    ensures |set y | y in rest :: (x, y)| == |rest|
  {
    if rest != {} {
      var y :| y in rest;
      PairedWithLeast(x, rest - {y});
      assert (set z | z in rest :: (x, z)) == (set z | z in rest - {y} :: (x, z)) + {(x, y)};
    }
  }

  lemma PairsSplitAtLeast(g: set<string>, x: string)
    requires IsLeast(x, g)
    ensures |PairsOf(g)| == |PairsOf(g - {x})| + |g| - 1
  {
    var rest := g - {x};
    PairedWithLeast(x, rest);
    var withX := set y | y in rest :: (x, y);
    forall a, b ensures (a, b) in PairsOf(g) <==> (a, b) in PairsOf(rest) + withX {
      LessTotal(a, b);
    }
    assert PairsOf(g) == PairsOf(rest) + withX;
    assert PairsOf(rest) !! withX;
  }

  lemma {:induction false} PairsOfSize(g: set<string>)
    ensures 2 * |PairsOf(g)| == if g == {} then 0 else |g| * (|g| - 1)
  {
    hide PairsOf;
    if g == {} {
      NoPairsOfNothing();
    } else {
      LeastExists(g);
      var x :| IsLeast(x, g);
      PairsOfSize(g - {x});
      PairsSplitAtLeast(g, x);
      var n := |g - {x}|;
      assert |g| == n + 1;
      assert n * (n - 1) + 2 * n == (n + 1) * n;
    }
  }

  lemma NoPairsOfNothing()
    ensures PairsOf({}) == {}
  {
  }

  ghost function CoCommitSum(s: set<Pair>, gs: seq<set<string>>): nat {
    Counting.Sum(s, (pair: Pair) => CoCommits(gs, pair.0, pair.1))
  }

  lemma SumOverOneMoreGroup(gs: seq<set<string>>, g: set<string>)
    ensures CoCommitSum(AllPairs(gs + [g]), gs + [g]) == CoCommitSum(AllPairs(gs), gs) + |CountedPairs(g)|
  {
    var all := gs + [g];
    assert all[..|all| - 1] == gs;
    var s, counted := AllPairs(all), CountedPairs(g);
    var f := (pair: Pair) => CoCommits(gs, pair.0, pair.1);
    var one := (pair: Pair) => if pair in counted then 1 else 0;
    var h := (pair: Pair) => CoCommits(all, pair.0, pair.1);
    forall pair | pair in s ensures h(pair) == f(pair) + one(pair) {
      PairsAreOrdered(all, pair);
    }
    Counting.SumAdd(s, f, one, h);
    forall pair: Pair | pair in s && pair !in AllPairs(gs) ensures f(pair) == 0 {
      PairsAreOrdered(all, pair);
      PairsAreThoseCounted(gs, pair.0, pair.1);
    }
    Counting.SumSupport(s, AllPairs(gs), f);
    Counting.SumSupport(s, counted, one);
    Counting.SumConstant(counted, one, 1);
  }

  lemma {:induction false} CoCommitTotal(gs: seq<set<string>>)
    ensures 2 * CoCommitSum(AllPairs(gs), gs) == PairSlots(gs)
  {
    if gs != [] {
      var front, last := gs[..|gs| - 1], gs[|gs| - 1];
      assert gs == front + [last];
      CoCommitTotal(front);
      SumOverOneMoreGroup(front, last);
      PairsOfSize(last);
    }
  }

  /** All co-change counts together: n(n - 1)/2 for each group of n files that is small enough. */
  lemma TotalCoChangeWeight(ls: seq<Line>)
    ensures 2 * Weight(Mine(ls)) == PairSlots(Groups(ls))
  {
    var gs, h := Groups(ls), Mine(ls);
    CoCommitTotal(gs);
    Counting.SumExtensional(AllPairs(gs), pair => PairAt(h, pair), (pair: Pair) => CoCommits(gs, pair.0, pair.1));
    assert h.coChanges.Keys == AllPairs(gs);
  }

  // ----- the program itself -----

  function FlushFiles(files: map<string, FileHistory>, commit: set<string>): map<string, FileHistory> {
    map path | path in files ::
      if path in commit then FileHistory(files[path].commits + 1, files[path].churn) else files[path]
  }

  function CountPairs(coChanges: map<Pair, nat>, pairs: set<Pair>): map<Pair, nat> {
    map pair | pair in coChanges.Keys + pairs ::
      (if pair in coChanges then coChanges[pair] else 0) + (if pair in pairs then 1 else 0)
  }

  /** Pairs of positions before (i, j), row by row above the diagonal. */
  ghost function PairsBefore(paths: seq<string>, i: nat, j: nat): set<Pair> {
    set a, b | 0 <= a < b < |paths| && (a < i || (a == i && b < j)) :: (paths[a], paths[b])
  }

  lemma PairsBeforeNext(paths: seq<string>, i: nat, j: nat)
    requires Ascending(paths) && i < j < |paths|
    ensures PairsBefore(paths, i, j + 1) == PairsBefore(paths, i, j) + {(paths[i], paths[j])}
    ensures (paths[i], paths[j]) !in PairsBefore(paths, i, j)
  {
    if (paths[i], paths[j]) in PairsBefore(paths, i, j) {
      var a, b :| 0 <= a < b < |paths| && (a < i || (a == i && b < j)) && (paths[a], paths[b]) == (paths[i], paths[j]);
      AscendingIsInjective(paths, a, i);
      AscendingIsInjective(paths, b, j);
    }
  }

  lemma PairsBeforeRow(paths: seq<string>, i: nat)
    requires i < |paths|
    ensures PairsBefore(paths, i, |paths|) == PairsBefore(paths, i + 1, i + 2)
  {
  }

  lemma NoPairsBefore(paths: seq<string>)
    ensures PairsBefore(paths, 0, 1) == {}
  {
  }

  lemma PairsBeforeEnd(paths: seq<string>, g: set<string>)
    requires Ascending(paths) && forall x :: x in paths <==> x in g
    ensures PairsBefore(paths, |paths|, |paths| + 1) == PairsOf(g)
  {
    forall x, y | (x, y) in PairsOf(g) ensures (x, y) in PairsBefore(paths, |paths|, |paths| + 1) {
      var a :| 0 <= a < |paths| && paths[a] == x;
      var b :| 0 <= b < |paths| && paths[b] == y;
      LessTotal(x, y);
      assert a < b;
    }
  }

  lemma FlushedFiles(gs: seq<set<string>>, ls: seq<Line>)
    requires gs != []
    ensures FlushFiles(FilesOf(gs[..|gs| - 1], ls), gs[|gs| - 1]) == FilesOf(gs, ls)
  {
    hide Touched, Churn;
  }

  lemma FlushedPairs(gs: seq<set<string>>)
    requires gs != []
    ensures CountPairs(CoChangesOf(gs[..|gs| - 1]), CountedPairs(gs[|gs| - 1])) == CoChangesOf(gs)
  {
    var front, last := gs[..|gs| - 1], gs[|gs| - 1];
    var counted := CountPairs(CoChangesOf(front), CountedPairs(last));
    assert counted.Keys == AllPairs(gs);
    forall pair | pair in AllPairs(gs) ensures counted[pair] == CoCommits(gs, pair.0, pair.1) {
      PairsAreOrdered(gs, pair);
      PairsAreThoseCounted(front, pair.0, pair.1);
      assert pair in CountedPairs(last) <==> Paired(last, pair.0, pair.1);
    }
  }

  lemma FilesIgnoreAMarker(gs: seq<set<string>>, ls: seq<Line>)
    ensures FilesOf(gs, ls + [Marker]) == FilesOf(gs, ls)
  {
    hide Commits, Touched;
    assert (ls + [Marker])[..|ls|] == ls;
    TouchedStep(ls, Marker);
  }

  lemma FilesIgnoreASkip(gs: seq<set<string>>, ls: seq<Line>)
    ensures FilesOf(gs, ls + [Skip]) == FilesOf(gs, ls)
  {
    hide Commits, Touched;
    assert (ls + [Skip])[..|ls|] == ls;
    TouchedStep(ls, Skip);
  }

  function AddChurn(files: map<string, FileHistory>, path: string, churn: nat): map<string, FileHistory> {
    var entry := if path in files then files[path] else FileHistory(0, 0);
    files[path := FileHistory(entry.commits, entry.churn + churn)]
  }

  lemma ChurnOfTouch(ls: seq<Line>, path: string, churn: nat, p: string)
    ensures Churn(ls + [Touch(path, churn)], p) == Churn(ls, p) + (if p == path then churn else 0)
  {
    var more := ls + [Touch(path, churn)];
    assert more[..|more| - 1] == ls;
  }

  lemma TouchIsOneMoreFile(gs: seq<set<string>>, ls: seq<Line>, path: string, churn: nat)
    requires path !in Touched(ls) ==> Commits(gs, path) == 0 && Churn(ls, path) == 0
    ensures AddChurn(FilesOf(gs, ls), path, churn) == FilesOf(gs, ls + [Touch(path, churn)])
  {
    hide Touched, Churn, Commits;
    TouchedStep(ls, Touch(path, churn));
    forall p ensures Churn(ls + [Touch(path, churn)], p) == Churn(ls, p) + (if p == path then churn else 0) {
      ChurnOfTouch(ls, path, churn, p);
    }
  }

  lemma UntouchedInAllButLast(ls: seq<Line>, path: string)
    requires path !in Touched(ls)
    ensures Commits(Groups(ls)[..|Groups(ls)| - 1], path) == 0 && Churn(ls, path) == 0
  {
    var gs := Groups(ls);
    CountsOfUntouched(ls, path);
    CommitsOfConcat(gs[..|gs| - 1], [gs[|gs| - 1]], path);
    assert gs == gs[..|gs| - 1] + [gs[|gs| - 1]];
  }

  lemma CountNoPairs(coChanges: map<Pair, nat>)
    ensures CountPairs(coChanges, {}) == coChanges
  {
  }

  lemma CountOneMorePair(coChanges: map<Pair, nat>, pairs: set<Pair>, pair: Pair)
    requires pair !in pairs
    ensures var counted := CountPairs(coChanges, pairs);
      CountPairs(coChanges, pairs + {pair}) == counted[pair := (if pair in counted then counted[pair] else 0) + 1]
  {
  }

  /** The miner: what has been counted, and the files of the commit being read. */
  class Miner {
    var files: map<string, FileHistory>
    var coChanges: map<Pair, nat>
    var commit: set<string>

    constructor ()
      ensures files == map[] && coChanges == map[] && commit == {}
    {
      files, coChanges, commit := map[], map[], {};
    }

    method CountCommit(paths: seq<string>)
      requires Ascending(paths) && forall x :: x in paths <==> x in commit
      modifies this`files
      ensures files == FlushFiles(old(files), commit)
    {
      ghost var before := files;
      for i := 0 to |paths|
        invariant files == FlushFiles(before, set k | 0 <= k < i :: paths[k])
      {
        var path := paths[i];
        assert forall k :: 0 <= k < i ==> paths[k] != path by {
          forall k | 0 <= k < i ensures paths[k] != path {
            LessTotal(paths[k], path);
          }
        }
        if path in files {
          files := files[path := FileHistory(files[path].commits + 1, files[path].churn)];
        }
      }
      assert (set k | 0 <= k < |paths| :: paths[k]) == commit;
    }

    method CountPair(pair: Pair, ghost before: map<Pair, nat>, ghost pairs: set<Pair>)
      requires coChanges == CountPairs(before, pairs) && pair !in pairs
      modifies this`coChanges
      ensures coChanges == CountPairs(before, pairs + {pair})
    {
      CountOneMorePair(before, pairs, pair);
      coChanges := coChanges[pair := (if pair in coChanges then coChanges[pair] else 0) + 1];
    }

    method CountCoChanges(paths: seq<string>)
      requires Ascending(paths)
      modifies this`coChanges
      ensures coChanges == CountPairs(old(coChanges), PairsBefore(paths, |paths|, |paths| + 1))
    {
      hide CountPairs, Ascending, PairsBefore;
      ghost var before := coChanges;
      CountNoPairs(before);
      NoPairsBefore(paths);
      for i := 0 to |paths|
        invariant coChanges == CountPairs(before, PairsBefore(paths, i, i + 1))
      {
        for j := i + 1 to |paths|
          invariant coChanges == CountPairs(before, PairsBefore(paths, i, j))
        {
          PairsBeforeNext(paths, i, j);
          CountPair((paths[i], paths[j]), before, PairsBefore(paths, i, j));
        }
        PairsBeforeRow(paths, i);
      }
    }

    method Flush()
      modifies this
      ensures files == FlushFiles(old(files), old(commit))
      ensures coChanges == CountPairs(old(coChanges), CountedPairs(old(commit)))
      ensures commit == {}
    {
      hide PairsBefore;
      var paths := SortedSeq(commit);
      CountCommit(paths);
      if |commit| <= MAX_FILES_FOR_CO_CHANGE {
        CountCoChanges(paths);
        PairsBeforeEnd(paths, commit);
      } else {
        assert coChanges == CountPairs(coChanges, {});
      }
      commit := {};
    }

    /** What has been counted once `ls` has been read. */
    ghost predicate Counted(ls: seq<Line>)
      reads this
    {
      var gs := Groups(ls);
      var n := |gs| - 1;
      files == FilesOf(gs[..n], ls) && coChanges == CoChangesOf(gs[..n]) && commit == gs[n]
    }

    method ReadMarker(ghost ls: seq<Line>)
      requires Counted(ls)
      modifies this
      ensures Counted(ls + [Marker])
    {
      ghost var gs := Groups(ls);
      GroupsStep(ls, Marker);
      hide Groups, FilesOf, CoChangesOf, FlushFiles, CountPairs, CountedPairs;
      FlushedFiles(gs, ls);
      FlushedPairs(gs);
      FilesIgnoreAMarker(gs, ls);
      Flush();
      assert (gs + [{}])[..|gs|] == gs;
    }

    method ReadTouch(path: string, churn: nat, ghost ls: seq<Line>)
      requires Counted(ls)
      modifies this
      ensures Counted(ls + [Touch(path, churn)])
    {
      ghost var gs := Groups(ls);
      ghost var front, last := gs[..|gs| - 1], gs[|gs| - 1];
      GroupsStep(ls, Touch(path, churn));
      hide Groups, FilesOf, CoChangesOf, Touched, Commits, Churn;
      if path !in Touched(ls) {
        UntouchedInAllButLast(ls, path);
      }
      TouchIsOneMoreFile(front, ls, path, churn);
      files := AddChurn(files, path, churn);
      commit := commit + {path};
      assert (front + [last + {path}])[..|gs| - 1] == front;
    }

    method Read(line: string, ghost ls: seq<Line>)
      requires Counted(ls)
      modifies this
      ensures Counted(ls + [Classify(line)])
    {
      match Classify(line) {
        case Marker => ReadMarker(ls);
        case Touch(path, churn) => ReadTouch(path, churn, ls);
        case Skip =>
          GroupsStep(ls, Skip);
          FilesIgnoreASkip(Groups(ls)[..|Groups(ls)| - 1], ls);
      }
    }
  }

  lemma GroupsStep(ls: seq<Line>, l: Line)
    ensures var gs := Groups(ls);
      Groups(ls + [l]) == match l
        case Marker => gs + [{}]
        case Touch(path, _) => gs[..|gs| - 1] + [gs[|gs| - 1] + {path}]
        case Skip => gs
  {
    assert (ls + [l])[..|ls + [l]| - 1] == ls;
  }

  /** The program's entry point: a log in, its exact counts out. */
  method ParseNumstat(text: seq<string>) returns (history: History)
    ensures history == Mine(Lines(text))
  {
    hide Groups, FilesOf, CoChangesOf, Classify;
    var miner := new Miner();
    MinerStartsEmpty(miner);
    for i := 0 to |text|
      invariant fresh(miner) && miner.Counted(Lines(text)[..i])
    {
      miner.Read(text[i], Lines(text)[..i]);
      assert Lines(text)[..i + 1] == Lines(text)[..i] + [Classify(text[i])];
    }
    var ls := Lines(text);
    assert ls[..|text|] == ls;
    FlushedFiles(Groups(ls), ls);
    FlushedPairs(Groups(ls));
    miner.Flush();
    history := History(miner.files, miner.coChanges);
  }

  lemma MinerStartsEmpty(miner: Miner)
    requires miner.files == map[] && miner.coChanges == map[] && miner.commit == {}
    ensures miner.Counted([])
  {
    assert Groups([])[..0] == [] && Touched([]) == {};
  }
}
