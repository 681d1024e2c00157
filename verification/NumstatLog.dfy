/** A commit log as `git log --numstat` prints it, and what the miner reads back from it. */
module NumstatLog {
  import opened Wrappers
  import opened History
  import Text
  import Ordering

  /** A file in a commit, with the lines added and deleted unless it is binary. */
  datatype Entry = Entry(path: string, lines: Option<(nat, nat)>)

  datatype Commit = Commit(sha: string, entries: seq<Entry>)

  predicate IsRename(e: Entry) {
    Text.Contains(e.path, "=>")
  }

  function CountText(e: Entry): (string, string) {
    if e.lines.Some? then (Text.Decimal(e.lines.value.0), Text.Decimal(e.lines.value.1)) else ("-", "-")
  }

  function EntryText(e: Entry): string {
    CountText(e).0 + "\t" + CountText(e).1 + "\t" + e.path
  }

  function EntryTexts(entries: seq<Entry>): seq<string> {
    if entries == [] then [] else EntryTexts(entries[..|entries| - 1]) + [EntryText(entries[|entries| - 1])]
  }

  /** Each commit: its marker, a blank line and its files. */
  function LogText(commits: seq<Commit>): seq<string> {
    if commits == [] then []
    else
      var last := commits[|commits| - 1];
      LogText(commits[..|commits| - 1]) + ["@@commit " + last.sha, ""] + EntryTexts(last.entries)
  }

  // ----- what the log says, commit by commit -----

  /** A count too large for 64 bits counts as none. */
  function Counted(n: nat): nat {
    if n < 0x1_0000_0000_0000_0000 then n else 0
  }

  function EntryChurn(e: Entry): nat {
    if e.lines.Some? then Counted(e.lines.value.0) + Counted(e.lines.value.1) else 0
  }

  /** The files a commit changed in place. */
  function PathsOf(entries: seq<Entry>): set<string> {
    set e | e in entries && !IsRename(e) :: e.path
  }

  function ChurnIn(entries: seq<Entry>, path: string): nat {
    if entries == [] then 0
    else
      var last := entries[|entries| - 1];
      ChurnIn(entries[..|entries| - 1], path) + (if !IsRename(last) && last.path == path then EntryChurn(last) else 0)
  }

  function TotalChurn(commits: seq<Commit>, path: string): nat {
    if commits == [] then 0
    else TotalChurn(commits[..|commits| - 1], path) + ChurnIn(commits[|commits| - 1].entries, path)
  }

  function CommitsTouching(commits: seq<Commit>, path: string): nat {
    if commits == [] then 0
    else CommitsTouching(commits[..|commits| - 1], path)
         + (if path in PathsOf(commits[|commits| - 1].entries) then 1 else 0)
  }

  function CommitsPairing(commits: seq<Commit>, a: string, b: string): nat {
    if commits == [] then 0
    else CommitsPairing(commits[..|commits| - 1], a, b)
         + (if Together(PathsOf(commits[|commits| - 1].entries), a, b) then 1 else 0)
  }

  /** Both changed in one commit, of at most thirty files. */
  predicate Together(paths: set<string>, a: string, b: string) {
    |paths| <= 30 && a in paths && b in paths
  }

  // ----- how each line is read -----

  function LineOf(e: Entry): Line {
    if IsRename(e) then Skip else Touch(e.path, EntryChurn(e))
  }

  lemma CountReads(n: nat)
    ensures CountOrZero(Text.Decimal(n)) == Counted(n)
    ensures '\t' !in Text.Decimal(n) && Text.Decimal(n) != [] && Text.Decimal(n)[0] != '@'
  {
    Text.DecimalReads(n);
    assert Text.Decimal(n)[0] != '+';
  }

  lemma EntryReads(e: Entry)
    ensures Classify(EntryText(e)) == LineOf(e)
  {
    hide Text.Decimal, Text.SplitOnce, Text.ParseUnsigned, Text.Contains;
    var (added, deleted) := CountText(e);
    if e.lines.Some? {
      CountReads(e.lines.value.0);
      CountReads(e.lines.value.1);
    } else {
      DashIsNoCount();
    }
    var rest := deleted + ['\t'] + e.path;
    assert EntryText(e) == added + ['\t'] + rest;
    Text.SplitOnceOfConcat(added, '\t', rest);
    Text.SplitOnceOfConcat(deleted, '\t', e.path);
    assert EntryText(e)[0] == added[0];
  }

  lemma DashIsNoCount()
    ensures CountOrZero("-") == 0
  {
    assert !Text.IsDigit("-"[0]);
  }

  function AddToLast(gs: seq<set<string>>, paths: set<string>): seq<set<string>>
    requires gs != []
  {
    gs[..|gs| - 1] + [gs[|gs| - 1] + paths]
  }

  lemma AddTwice(gs: seq<set<string>>, a: set<string>, b: set<string>)
    requires gs != []
    ensures AddToLast(AddToLast(gs, a), b) == AddToLast(gs, a + b)
    ensures AddToLast(gs, {}) == gs
    ensures AddToLast(gs + [{}], a) == gs + [a]
  {
    assert gs[|gs| - 1] + a + b == gs[|gs| - 1] + (a + b);
    assert gs[|gs| - 1] + {} == gs[|gs| - 1];
    assert {} + a == a;
  }

  lemma {:induction false} EntriesExtendTheGroup(before: seq<string>, entries: seq<Entry>, path: string)
    ensures Groups(Lines(before + EntryTexts(entries))) == AddToLast(Groups(Lines(before)), PathsOf(entries))
    ensures Churn(Lines(before + EntryTexts(entries)), path) == Churn(Lines(before), path) + ChurnIn(entries, path)
  {
    hide Classify, EntryText, IsRename, EntryChurn, AddToLast, Groups, Churn, Lines, PathsOf;
    var gs := Groups(Lines(before));
    if entries == [] {
      assert before + EntryTexts(entries) == before;
      assert PathsOf([]) == {} by { NoPaths(); }
      AddTwice(gs, {}, {});
    } else {
      var front, last := entries[..|entries| - 1], entries[|entries| - 1];
      EntriesExtendTheGroup(before, front, path);
      EntryReads(last);
      assert before + EntryTexts(entries) == (before + EntryTexts(front)) + [EntryText(last)];
      OneMoreLine(before + EntryTexts(front), EntryText(last), path);
      PathsOfOneMore(front, last);
      assert entries == front + [last];
      AddTwice(gs, PathsOf(front), if IsRename(last) then {} else {last.path});
      AddTwice(AddToLast(gs, PathsOf(front)), {}, {});
    }
  }

  lemma NoPaths()
    ensures PathsOf([]) == {}
  {
  }

  lemma PathsOfOneMore(front: seq<Entry>, last: Entry)
    ensures PathsOf(front + [last]) == PathsOf(front) + (if IsRename(last) then {} else {last.path})
  {
    hide IsRename;
    var entries := front + [last];
    forall path ensures path in PathsOf(entries) <==> path in PathsOf(front) || (!IsRename(last) && path == last.path) {
      if path in PathsOf(front) {
        var e :| e in front && !IsRename(e) && e.path == path;
        assert e in entries;
      }
      if !IsRename(last) && path == last.path {
        assert last in entries;
      }
    }
  }

  lemma OneMoreLine(before: seq<string>, line: string, path: string)
    ensures var gs := Groups(Lines(before));
      Groups(Lines(before + [line])) ==
        match Classify(line)
        case Marker => gs + [{}]
        case Touch(p, _) => AddToLast(gs, {p})
        case Skip => gs
    ensures Churn(Lines(before + [line]), path)
            == Churn(Lines(before), path)
               + (if Classify(line).Touch? && Classify(line).path == path then Classify(line).churn else 0)
  {
    hide Classify;
    var ls := Lines(before + [line]);
    assert ls[..|ls| - 1] == Lines(before) && ls[|ls| - 1] == Classify(line);
  }

  lemma MarkerReads(sha: string)
    ensures Classify("@@commit " + sha) == Marker && Classify("") == Skip
  {
  }

  /** One more printed commit is one more group, with the files it changed. */
  lemma CommitAddsAGroup(before: seq<string>, c: Commit, path: string)
    ensures var after := before + ["@@commit " + c.sha, ""] + EntryTexts(c.entries);
      && Groups(Lines(after)) == Groups(Lines(before)) + [PathsOf(c.entries)]
      && Churn(Lines(after), path) == Churn(Lines(before), path) + ChurnIn(c.entries, path)
  {
    hide Classify, Groups, Churn, EntryTexts, Lines, PathsOf, AddToLast;
    AddTwice(Groups(Lines(before)), PathsOf(c.entries), {});
    var marker := "@@commit " + c.sha;
    MarkerReads(c.sha);
    OneMoreLine(before, marker, path);
    OneMoreLine(before + [marker], "", path);
    assert before + [marker] + [""] == before + [marker, ""];
    EntriesExtendTheGroup(before + [marker, ""], c.entries, path);
  }

  /** The miner reads every printed log exactly: how many commits changed a file, by how many lines,
      and how many small commits changed two files together. */
  lemma {:induction false} PrintedLogIsMinedExactly(commits: seq<Commit>, path: string, other: string)
    ensures var h := Mine(Lines(LogText(commits)));
      && FileAt(h, path) == FileHistory(CommitsTouching(commits, path), TotalChurn(commits, path))
      && PairAt(h, (path, other)) == (if Ordering.Less(path, other) then CommitsPairing(commits, path, other) else 0)
  {
    var ls := Lines(LogText(commits));
    PrintedLogIsGrouped(commits, path, other);
    FileAtMine(ls, path);
    PairsAreThoseCounted(Groups(ls), path, other);
    if Ordering.Less(path, other) {
      PairAtMine(ls, (path, other));
    }
    hide Groups, AllPairs, CoCommits, Commits, Churn;
  }

  lemma {:induction false} PrintedLogIsGrouped(commits: seq<Commit>, path: string, other: string)
    ensures var ls := Lines(LogText(commits));
      && Commits(Groups(ls), path) == CommitsTouching(commits, path)
      && CoCommits(Groups(ls), path, other) == CommitsPairing(commits, path, other)
      && Churn(ls, path) == TotalChurn(commits, path)
  {
    if commits != [] {
      hide Lines, EntryTexts, PathsOf, Groups, Churn, ChurnIn, Commits, CoCommits, Together;
      var front, last := commits[..|commits| - 1], commits[|commits| - 1];
      PrintedLogIsGrouped(front, path, other);
      CommitAddsAGroup(LogText(front), last, path);
      OneMoreGroup(Groups(Lines(LogText(front))), PathsOf(last.entries), path, other);
    } else {
      assert Groups(Lines([]))[..0] == [];
    }
  }

  lemma OneMoreGroup(gs: seq<set<string>>, g: set<string>, a: string, b: string)
    ensures Commits(gs + [g], a) == Commits(gs, a) + (if a in g then 1 else 0)
    ensures CoCommits(gs + [g], a, b) == CoCommits(gs, a, b) + (if Together(g, a, b) then 1 else 0)
  {
    assert (gs + [g])[..|gs|] == gs;
  }
}
