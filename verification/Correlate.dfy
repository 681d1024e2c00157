/** Correlating statically found mutation sites with what a mutation-testing engine reported. */
module Correlate {
  import Counting

  datatype Site = Site(rule: string, file: string, line: int)

  datatype Mutant = Mutant(file: string, status: string, startLine: int, endLine: int)

  datatype Verdict = Killed | Survived | NoCoverage | Other

  function VerdictOf(status: string): Verdict {
    if status == "killed" || status == "timeout" then Killed
    else if status == "survived" then Survived
    else if status == "no-coverage" then NoCoverage
    else Other
  }

  predicate LineOverlap(aStart: int, aEnd: int, bStart: int, bEnd: int) {
    !(aEnd < bStart || bEnd < aStart)
  }

  predicate Near(site: Site, m: Mutant, tolerance: int) {
    LineOverlap(site.line - tolerance, site.line + tolerance, m.startLine, m.endLine)
  }

  predicate IsLineOf(m: Mutant, line: int) {
    m.startLine <= line <= m.endLine
  }

  /** A site and a mutant are near when some line of the mutant is within the tolerance of the site's. */
  lemma NearIffSomeLine(site: Site, m: Mutant, tolerance: int)
    requires tolerance >= 0 && m.startLine <= m.endLine
    ensures Near(site, m, tolerance)
            <==> exists line :: IsLineOf(m, line) && -tolerance <= line - site.line <= tolerance
  {
    if Near(site, m, tolerance) {
      var line := if m.startLine >= site.line - tolerance then m.startLine else site.line - tolerance;
      assert IsLineOf(m, line);
    }
  }

  datatype RuleStats = RuleStats(sites: nat, matched: nat, killed: nat, survived: nat, noCoverage: nat, other: nat)

  datatype FileStats = FileStats(sites: nat, matched: nat)

  // ----- exact counts, by a full scan of all pairs -----

  predicate Hits(site: Site, m: Mutant, tolerance: int) {
    site.file == m.file && Near(site, m, tolerance)
  }

  /** Mutants of this verdict in the site's file that its lines overlap. */
  function HitsOf(site: Site, mutants: seq<Mutant>, tolerance: int, verdict: Verdict): nat {
    if mutants == [] then 0
    else
      var last := mutants[|mutants| - 1];
      HitsOf(site, mutants[..|mutants| - 1], tolerance, verdict)
      + (if Hits(site, last, tolerance) && VerdictOf(last.status) == verdict then 1 else 0)
  }

  predicate Matched(site: Site, mutants: seq<Mutant>, tolerance: int) {
    exists i :: 0 <= i < |mutants| && Hits(site, mutants[i], tolerance)
  }

  function MatchedSites(sites: seq<Site>, mutants: seq<Mutant>, tolerance: int): seq<Site> {
    if sites == [] then []
    else
      var front, last := sites[..|sites| - 1], sites[|sites| - 1];
      if Matched(last, mutants, tolerance) then MatchedSites(front, mutants, tolerance) + [last]
      else MatchedSites(front, mutants, tolerance)
  }

  /** The sum of `weight` over the sites that `keyOf` sends to `key`. */
  function Tally(sites: seq<Site>, keyOf: Site -> string, weight: Site -> nat, key: string): nat {
    if sites == [] then 0
    else
      var last := sites[|sites| - 1];
      Tally(sites[..|sites| - 1], keyOf, weight, key) + (if keyOf(last) == key then weight(last) else 0)
  }

  function Total(sites: seq<Site>, weight: Site -> nat): nat {
    if sites == [] then 0 else Total(sites[..|sites| - 1], weight) + weight(sites[|sites| - 1])
  }

  function KeysBy(sites: seq<Site>, keyOf: Site -> string): set<string> {
    set s | s in sites :: keyOf(s)
  }

  function ByRule(): Site -> string {
    (s: Site) => s.rule
  }

  function ByFile(): Site -> string {
    (s: Site) => s.file
  }

  function One(): Site -> nat {
    (s: Site) => 1
  }

  function IfMatched(mutants: seq<Mutant>, tolerance: int): Site -> nat {
    (s: Site) => if Matched(s, mutants, tolerance) then 1 else 0
  }

  function HitsWith(mutants: seq<Mutant>, tolerance: int, verdict: Verdict): Site -> nat {
    (s: Site) => HitsOf(s, mutants, tolerance, verdict)
  }

  function StatsOfRule(sites: seq<Site>, mutants: seq<Mutant>, tolerance: int, rule: string): RuleStats {
    RuleStats(
      Tally(sites, ByRule(), One(), rule),
      Tally(sites, ByRule(), IfMatched(mutants, tolerance), rule),
      Tally(sites, ByRule(), HitsWith(mutants, tolerance, Killed), rule),
      Tally(sites, ByRule(), HitsWith(mutants, tolerance, Survived), rule),
      Tally(sites, ByRule(), HitsWith(mutants, tolerance, NoCoverage), rule),
      Tally(sites, ByRule(), HitsWith(mutants, tolerance, Other), rule))
  }

  function StatsOfFile(sites: seq<Site>, mutants: seq<Mutant>, tolerance: int, file: string): FileStats {
    FileStats(Tally(sites, ByFile(), One(), file), Tally(sites, ByFile(), IfMatched(mutants, tolerance), file))
  }

  function RuleTable(sites: seq<Site>, mutants: seq<Mutant>, tolerance: int): map<string, RuleStats> {
    map rule | rule in KeysBy(sites, ByRule()) :: StatsOfRule(sites, mutants, tolerance, rule)
  }

  function FileTable(sites: seq<Site>, mutants: seq<Mutant>, tolerance: int): map<string, FileStats> {
    map file | file in KeysBy(sites, ByFile()) :: StatsOfFile(sites, mutants, tolerance, file)
  }

  // ----- conservation -----

  lemma KeysStep(front: seq<Site>, last: Site, keyOf: Site -> string)
    ensures KeysBy(front + [last], keyOf) == KeysBy(front, keyOf) + {keyOf(last)}
  {
    var all := front + [last];
    assert last in all;
    forall s | s in front ensures s in all {
    }
  }

  lemma {:induction false} TallyOfAbsentKey(sites: seq<Site>, keyOf: Site -> string, weight: Site -> nat, key: string)
    requires key !in KeysBy(sites, keyOf)
    ensures Tally(sites, keyOf, weight, key) == 0
  {
    if sites != [] {
      var front, last := sites[..|sites| - 1], sites[|sites| - 1];
      assert sites == front + [last];
      KeysStep(front, last, keyOf);
      TallyOfAbsentKey(front, keyOf, weight, key);
    }
  }

  /** However the sites are grouped, the groups' tallies add up to the total. */
  lemma {:induction false} TalliesAddUp(sites: seq<Site>, keyOf: Site -> string, weight: Site -> nat)
    ensures Counting.Sum(KeysBy(sites, keyOf), key => Tally(sites, keyOf, weight, key)) == Total(sites, weight)
  {
    if sites != [] {
      var front, last := sites[..|sites| - 1], sites[|sites| - 1];
      assert sites == front + [last];
      KeysStep(front, last, keyOf);
      TalliesAddUp(front, keyOf, weight);
      var keys := KeysBy(sites, keyOf);
      var before := key => Tally(front, keyOf, weight, key);
      var added := key => if key == keyOf(last) then weight(last) else 0;
      Counting.SumAdd(keys, before, added, key => Tally(sites, keyOf, weight, key));
      forall key | key in keys && key !in KeysBy(front, keyOf) ensures before(key) == 0 {
        TallyOfAbsentKey(front, keyOf, weight, key);
      }
      Counting.SumSupport(keys, KeysBy(front, keyOf), before);
      Counting.SumSupport(keys, {keyOf(last)}, added);
      Counting.SumRemove({keyOf(last)}, added, keyOf(last));
      assert {keyOf(last)} - {keyOf(last)} == {};
    }
  }

  lemma {:induction false} TotalOfOnes(sites: seq<Site>)
    ensures Total(sites, One()) == |sites|
  {
    if sites != [] {
      TotalOfOnes(sites[..|sites| - 1]);
    }
  }

  lemma {:induction false} TotalOfMatched(sites: seq<Site>, mutants: seq<Mutant>, tolerance: int)
    ensures Total(sites, IfMatched(mutants, tolerance)) == |MatchedSites(sites, mutants, tolerance)|
  {
    hide Matched;
    if sites != [] {
      TotalOfMatched(sites[..|sites| - 1], mutants, tolerance);
    }
  }

  /** Mutants of any verdict that the site hits. */
  function AllHits(site: Site, mutants: seq<Mutant>, tolerance: int): nat {
    if mutants == [] then 0
    else
      var n := |mutants| - 1;
      AllHits(site, mutants[..n], tolerance) + (if Hits(site, mutants[n], tolerance) then 1 else 0)
  }

  lemma {:induction false} VerdictsPartitionHits(site: Site, mutants: seq<Mutant>, tolerance: int)
    ensures AllHits(site, mutants, tolerance)
         == HitsOf(site, mutants, tolerance, Killed) + HitsOf(site, mutants, tolerance, Survived)
            + HitsOf(site, mutants, tolerance, NoCoverage) + HitsOf(site, mutants, tolerance, Other)
    ensures Matched(site, mutants, tolerance) <==> AllHits(site, mutants, tolerance) > 0
  {
    hide Hits;
    if mutants != [] {
      var n := |mutants| - 1;
      VerdictsPartitionHits(site, mutants[..n], tolerance);
      if Matched(site, mutants[..n], tolerance) {
        var i :| 0 <= i < n && Hits(site, mutants[..n][i], tolerance);
        assert Hits(site, mutants[i], tolerance);
      }
      if Matched(site, mutants, tolerance) && !Hits(site, mutants[n], tolerance) {
        var i :| 0 <= i < |mutants| && Hits(site, mutants[i], tolerance);
        assert Hits(site, mutants[..n][i], tolerance);
      }
    }
  }

  /** Overlapping mutants in the site's file that the engine gave this status. */
  function HitsWithStatus(site: Site, mutants: seq<Mutant>, tolerance: int, status: string): nat {
    if mutants == [] then 0
    else
      var last := mutants[|mutants| - 1];
      HitsWithStatus(site, mutants[..|mutants| - 1], tolerance, status)
      + (if Hits(site, last, tolerance) && last.status == status then 1 else 0)
  }

  /** What each verdict counts, in terms of the engine's own statuses; a time-out counts as killed. */
  lemma {:induction false} VerdictsCountStatuses(site: Site, mutants: seq<Mutant>, tolerance: int)
    ensures HitsOf(site, mutants, tolerance, Killed)
         == HitsWithStatus(site, mutants, tolerance, "killed") + HitsWithStatus(site, mutants, tolerance, "timeout")
    ensures HitsOf(site, mutants, tolerance, Survived) == HitsWithStatus(site, mutants, tolerance, "survived")
    ensures HitsOf(site, mutants, tolerance, NoCoverage) == HitsWithStatus(site, mutants, tolerance, "no-coverage")
  {
    if mutants != [] {
      VerdictsCountStatuses(site, mutants[..|mutants| - 1], tolerance);
      assert "killed"[0] != "timeout"[0] && "killed"[0] != "survived"[0] && "killed"[0] != "no-coverage"[0];
      assert "timeout"[0] != "survived"[0] && "timeout"[0] != "no-coverage"[0] && "survived"[0] != "no-coverage"[0];
    }
  }

  /** All overlapping (site, mutant) pairs in one file. */
  function HitPairs(sites: seq<Site>, mutants: seq<Mutant>, tolerance: int): nat {
    if sites == [] then 0
    else HitPairs(sites[..|sites| - 1], mutants, tolerance) + AllHits(sites[|sites| - 1], mutants, tolerance)
  }

  lemma {:induction false} PairsAreTheVerdictsTotals(sites: seq<Site>, mutants: seq<Mutant>, tolerance: int)
    ensures HitPairs(sites, mutants, tolerance)
         == Total(sites, HitsWith(mutants, tolerance, Killed)) + Total(sites, HitsWith(mutants, tolerance, Survived))
            + Total(sites, HitsWith(mutants, tolerance, NoCoverage)) + Total(sites, HitsWith(mutants, tolerance, Other))
  {
    hide HitsOf;
    if sites != [] {
      PairsAreTheVerdictsTotals(sites[..|sites| - 1], mutants, tolerance);
      VerdictsPartitionHits(sites[|sites| - 1], mutants, tolerance);
    }
  }

  ghost function SumOver<T(!new)>(table: map<string, T>, field: T -> nat): nat {
    Counting.Sum(table.Keys, FieldAt(table, field))
  }

  ghost function FieldAt<T(!new)>(table: map<string, T>, field: T -> nat): string -> nat {
    key => if key in table then field(table[key]) else 0
  }

  /** A table whose entries are tallies sums to the total. */
  lemma TableOfTallies<T(!new)>(table: map<string, T>, field: T -> nat,
                                sites: seq<Site>, keyOf: Site -> string, weight: Site -> nat)
    requires table.Keys == KeysBy(sites, keyOf)
    requires forall key :: key in table ==> field(table[key]) == Tally(sites, keyOf, weight, key)
    ensures SumOver(table, field) == Total(sites, weight)
  {
    hide Tally, Total, KeysBy;
    TalliesAddUp(sites, keyOf, weight);
    Counting.SumExtensional(table.Keys, FieldAt(table, field), key => Tally(sites, keyOf, weight, key));
  }

  /** Sites by rule, sites by file and the input agree; so do matched sites and the list of them. */
  lemma SitesAreConserved(sites: seq<Site>, mutants: seq<Mutant>, tolerance: int)
    ensures var rules, files := RuleTable(sites, mutants, tolerance), FileTable(sites, mutants, tolerance);
      && SumOver(rules, (s: RuleStats) => s.sites) == SumOver(files, (s: FileStats) => s.sites) == |sites|
      && SumOver(rules, (s: RuleStats) => s.matched) == SumOver(files, (s: FileStats) => s.matched)
         == |MatchedSites(sites, mutants, tolerance)|
  {
    hide SumOver, Tally, Total, MatchedSites, KeysBy;
    TotalOfOnes(sites);
    TotalOfMatched(sites, mutants, tolerance);
    var rules, files := RuleTable(sites, mutants, tolerance), FileTable(sites, mutants, tolerance);
    TableOfTallies(rules, (s: RuleStats) => s.sites, sites, ByRule(), One());
    TableOfTallies(files, (s: FileStats) => s.sites, sites, ByFile(), One());
    TableOfTallies(rules, (s: RuleStats) => s.matched, sites, ByRule(), IfMatched(mutants, tolerance));
    TableOfTallies(files, (s: FileStats) => s.matched, sites, ByFile(), IfMatched(mutants, tolerance));
  }

  /** Every overlapping pair is counted under exactly one rule and one verdict. */
  lemma VerdictsAreConserved(sites: seq<Site>, mutants: seq<Mutant>, tolerance: int)
    ensures var rules := RuleTable(sites, mutants, tolerance);
      SumOver(rules, (s: RuleStats) => s.killed) + SumOver(rules, (s: RuleStats) => s.survived)
      + SumOver(rules, (s: RuleStats) => s.noCoverage) + SumOver(rules, (s: RuleStats) => s.other)
      == HitPairs(sites, mutants, tolerance)
  {
    hide SumOver, Tally, Total, HitPairs, KeysBy;
    PairsAreTheVerdictsTotals(sites, mutants, tolerance);
    var rules := RuleTable(sites, mutants, tolerance);
    TableOfTallies(rules, (s: RuleStats) => s.killed, sites, ByRule(), HitsWith(mutants, tolerance, Killed));
    TableOfTallies(rules, (s: RuleStats) => s.survived, sites, ByRule(), HitsWith(mutants, tolerance, Survived));
    TableOfTallies(rules, (s: RuleStats) => s.noCoverage, sites, ByRule(), HitsWith(mutants, tolerance, NoCoverage));
    TableOfTallies(rules, (s: RuleStats) => s.other, sites, ByRule(), HitsWith(mutants, tolerance, Other));
  }

  // ----- tolerance -----

  lemma {:induction false} TallyIsMonotone(sites: seq<Site>, keyOf: Site -> string,
                                           w: Site -> nat, w': Site -> nat, key: string)
    requires forall s :: w(s) <= w'(s)
    ensures Tally(sites, keyOf, w, key) <= Tally(sites, keyOf, w', key)
  {
    if sites != [] {
      TallyIsMonotone(sites[..|sites| - 1], keyOf, w, w', key);
    }
  }

  lemma MatchedIsMonotone(site: Site, mutants: seq<Mutant>, tolerance: int, wider: int)
    requires tolerance <= wider && Matched(site, mutants, tolerance)
    ensures Matched(site, mutants, wider)
  {
    var i :| 0 <= i < |mutants| && Hits(site, mutants[i], tolerance);
    assert Hits(site, mutants[i], wider);
  }

  lemma {:induction false} HitsAreMonotone(site: Site, mutants: seq<Mutant>, tolerance: int,
                                           wider: int, verdict: Verdict)
    requires tolerance <= wider
    ensures HitsOf(site, mutants, tolerance, verdict) <= HitsOf(site, mutants, wider, verdict)
  {
    if mutants != [] {
      HitsAreMonotone(site, mutants[..|mutants| - 1], tolerance, wider, verdict);
    }
  }

  /** A wider tolerance never lowers a count of any rule or file. */
  lemma ToleranceIsMonotone(sites: seq<Site>, mutants: seq<Mutant>, tolerance: int, wider: int, key: string)
    requires tolerance <= wider
    ensures var a, b := StatsOfRule(sites, mutants, tolerance, key), StatsOfRule(sites, mutants, wider, key);
      && a.sites == b.sites && a.matched <= b.matched && a.killed <= b.killed
      && a.survived <= b.survived && a.noCoverage <= b.noCoverage && a.other <= b.other
    ensures StatsOfFile(sites, mutants, tolerance, key).matched <= StatsOfFile(sites, mutants, wider, key).matched
  {
    hide Tally, HitsOf, Matched;
    forall s | Matched(s, mutants, tolerance) ensures Matched(s, mutants, wider) {
      MatchedIsMonotone(s, mutants, tolerance, wider);
    }
    TallyIsMonotone(sites, ByRule(), IfMatched(mutants, tolerance), IfMatched(mutants, wider), key);
    TallyIsMonotone(sites, ByFile(), IfMatched(mutants, tolerance), IfMatched(mutants, wider), key);
    forall s, verdict ensures HitsOf(s, mutants, tolerance, verdict) <= HitsOf(s, mutants, wider, verdict) {
      HitsAreMonotone(s, mutants, tolerance, wider, verdict);
    }
    TallyIsMonotone(sites, ByRule(), HitsWith(mutants, tolerance, Killed), HitsWith(mutants, wider, Killed), key);
    TallyIsMonotone(sites, ByRule(), HitsWith(mutants, tolerance, Survived), HitsWith(mutants, wider, Survived), key);
    TallyIsMonotone(sites, ByRule(), HitsWith(mutants, tolerance, NoCoverage),
      HitsWith(mutants, wider, NoCoverage), key);
    TallyIsMonotone(sites, ByRule(), HitsWith(mutants, tolerance, Other), HitsWith(mutants, wider, Other), key);
  }

  // ----- the program itself -----

  function OfFile(mutants: seq<Mutant>, file: string): seq<Mutant> {
    if mutants == [] then []
    else
      var front, last := mutants[..|mutants| - 1], mutants[|mutants| - 1];
      if last.file == file then OfFile(front, file) + [last] else OfFile(front, file)
  }

  lemma {:induction false} OfFileMembers(mutants: seq<Mutant>, file: string)
    ensures forall i :: 0 <= i < |OfFile(mutants, file)| ==> OfFile(mutants, file)[i].file == file
  {
    if mutants != [] {
      OfFileMembers(mutants[..|mutants| - 1], file);
    }
  }

  lemma HitsStep(site: Site, front: seq<Mutant>, last: Mutant, tolerance: int, verdict: Verdict)
    ensures HitsOf(site, front + [last], tolerance, verdict)
         == HitsOf(site, front, tolerance, verdict)
            + (if Hits(site, last, tolerance) && VerdictOf(last.status) == verdict then 1 else 0)
    ensures AllHits(site, front + [last], tolerance)
         == AllHits(site, front, tolerance) + (if Hits(site, last, tolerance) then 1 else 0)
  {
    hide Hits, VerdictOf;
    assert (front + [last])[..|front|] == front;
  }

  /** Looking at the site's own file alone finds the same hits as looking at every mutant. */
  lemma {:induction false} IndexAgreesWithFullScan(site: Site, mutants: seq<Mutant>, tolerance: int, verdict: Verdict)
    ensures HitsOf(site, OfFile(mutants, site.file), tolerance, verdict) == HitsOf(site, mutants, tolerance, verdict)
    ensures AllHits(site, OfFile(mutants, site.file), tolerance) == AllHits(site, mutants, tolerance)
  {
    hide HitsOf, AllHits, Near, VerdictOf;
    if mutants != [] {
      var front, last := mutants[..|mutants| - 1], mutants[|mutants| - 1];
      assert mutants == front + [last];
      IndexAgreesWithFullScan(site, front, tolerance, verdict);
      HitsStep(site, front, last, tolerance, verdict);
      HitsStep(site, OfFile(front, site.file), last, tolerance, verdict);
      assert last.file != site.file ==> !Hits(site, last, tolerance);
    }
  }

  function GetMutants(index: map<string, seq<Mutant>>, file: string): seq<Mutant> {
    if file in index then index[file] else []
  }

  method IndexByFile(mutants: seq<Mutant>) returns (index: map<string, seq<Mutant>>)
    ensures forall file :: GetMutants(index, file) == OfFile(mutants, file)
  {
    index := map[];
    for i := 0 to |mutants|
      invariant forall file :: GetMutants(index, file) == OfFile(mutants[..i], file)
    {
      assert mutants[..i + 1][..i] == mutants[..i];
      var m := mutants[i];
      index := index[m.file := GetMutants(index, m.file) + [m]];
    }
    assert mutants[..|mutants|] == mutants;
  }

  function Plus(stats: RuleStats, site: Site, mutants: seq<Mutant>, tolerance: int): RuleStats {
    stats.(killed := stats.killed + HitsOf(site, mutants, tolerance, Killed),
           survived := stats.survived + HitsOf(site, mutants, tolerance, Survived),
           noCoverage := stats.noCoverage + HitsOf(site, mutants, tolerance, NoCoverage),
           other := stats.other + HitsOf(site, mutants, tolerance, Other))
  }

  /** One site against the mutants of its file. */
  method ScanSite(site: Site, candidates: seq<Mutant>, tolerance: int, before: RuleStats)
    returns (stats: RuleStats, found: bool)
    requires forall i :: 0 <= i < |candidates| ==> candidates[i].file == site.file
    ensures stats == Plus(before, site, candidates, tolerance)
    ensures found <==> AllHits(site, candidates, tolerance) > 0
  {
    hide LineOverlap;
    var lo, hi := site.line - tolerance, site.line + tolerance;
    stats, found := before, false;
    for i := 0 to |candidates|
      invariant stats == Plus(before, site, candidates[..i], tolerance)
      invariant found <==> AllHits(site, candidates[..i], tolerance) > 0
    {
      assert candidates[..i + 1][..i] == candidates[..i];
      var m := candidates[i];
      if LineOverlap(lo, hi, m.startLine, m.endLine) {
        found := true;
        match VerdictOf(m.status)
        case Killed => stats := stats.(killed := stats.killed + 1);
        case Survived => stats := stats.(survived := stats.survived + 1);
        case NoCoverage => stats := stats.(noCoverage := stats.noCoverage + 1);
        case Other => stats := stats.(other := stats.other + 1);
      }
    }
    assert candidates[..|candidates|] == candidates;
  }

  function FileCount(stats: FileStats, found: bool): FileStats {
    FileStats(stats.sites + 1, if found then stats.matched + 1 else stats.matched)
  }

  function RuleOr0(table: map<string, RuleStats>, rule: string): RuleStats {
    if rule in table then table[rule] else RuleStats(0, 0, 0, 0, 0, 0)
  }

  function FileOr0(table: map<string, FileStats>, file: string): FileStats {
    if file in table then table[file] else FileStats(0, 0)
  }

  lemma StatsOfAbsent(sites: seq<Site>, mutants: seq<Mutant>, tolerance: int, key: string)
    ensures key !in KeysBy(sites, ByRule())
      ==> StatsOfRule(sites, mutants, tolerance, key) == RuleStats(0, 0, 0, 0, 0, 0)
    ensures key !in KeysBy(sites, ByFile()) ==> StatsOfFile(sites, mutants, tolerance, key) == FileStats(0, 0)
  {
    hide Tally, KeysBy;
    if key !in KeysBy(sites, ByRule()) {
      TallyOfAbsentKey(sites, ByRule(), One(), key);
      TallyOfAbsentKey(sites, ByRule(), IfMatched(mutants, tolerance), key);
      TallyOfAbsentKey(sites, ByRule(), HitsWith(mutants, tolerance, Killed), key);
      TallyOfAbsentKey(sites, ByRule(), HitsWith(mutants, tolerance, Survived), key);
      TallyOfAbsentKey(sites, ByRule(), HitsWith(mutants, tolerance, NoCoverage), key);
      TallyOfAbsentKey(sites, ByRule(), HitsWith(mutants, tolerance, Other), key);
    }
    if key !in KeysBy(sites, ByFile()) {
      TallyOfAbsentKey(sites, ByFile(), One(), key);
      TallyOfAbsentKey(sites, ByFile(), IfMatched(mutants, tolerance), key);
    }
  }

  lemma TallyStep(front: seq<Site>, last: Site, keyOf: Site -> string, weight: Site -> nat, key: string)
    ensures Tally(front + [last], keyOf, weight, key)
         == Tally(front, keyOf, weight, key) + (if keyOf(last) == key then weight(last) else 0)
  {
    assert (front + [last])[..|front|] == front;
  }

  function CountedSite(stats: RuleStats, site: Site, mutants: seq<Mutant>, tolerance: int): RuleStats {
    var scanned := Plus(stats, site, mutants, tolerance);
    scanned.(sites := stats.sites + 1,
             matched := if Matched(site, mutants, tolerance) then stats.matched + 1 else stats.matched)
  }

  lemma RuleStep(front: seq<Site>, last: Site, mutants: seq<Mutant>, tolerance: int, rule: string)
    ensures var before := StatsOfRule(front, mutants, tolerance, rule);
      StatsOfRule(front + [last], mutants, tolerance, rule)
      == if last.rule == rule then CountedSite(before, last, mutants, tolerance) else before
  {
    hide Tally, Matched, HitsOf;
    TallyStep(front, last, ByRule(), One(), rule);
    TallyStep(front, last, ByRule(), IfMatched(mutants, tolerance), rule);
    TallyStep(front, last, ByRule(), HitsWith(mutants, tolerance, Killed), rule);
    TallyStep(front, last, ByRule(), HitsWith(mutants, tolerance, Survived), rule);
    TallyStep(front, last, ByRule(), HitsWith(mutants, tolerance, NoCoverage), rule);
    TallyStep(front, last, ByRule(), HitsWith(mutants, tolerance, Other), rule);
  }

  lemma FileStep(front: seq<Site>, last: Site, mutants: seq<Mutant>, tolerance: int, file: string)
    ensures var before := StatsOfFile(front, mutants, tolerance, file);
      StatsOfFile(front + [last], mutants, tolerance, file)
      == if last.file == file then FileCount(before, Matched(last, mutants, tolerance)) else before
  {
    hide Tally, Matched;
    TallyStep(front, last, ByFile(), One(), file);
    TallyStep(front, last, ByFile(), IfMatched(mutants, tolerance), file);
  }

  lemma TablesStep(front: seq<Site>, last: Site, mutants: seq<Mutant>, tolerance: int)
    ensures var rules, files := RuleTable(front, mutants, tolerance), FileTable(front, mutants, tolerance);
      && RuleTable(front + [last], mutants, tolerance)
         == rules[last.rule := CountedSite(RuleOr0(rules, last.rule), last, mutants, tolerance)]
      && FileTable(front + [last], mutants, tolerance)
         == files[last.file := FileCount(FileOr0(files, last.file), Matched(last, mutants, tolerance))]
  {
    hide StatsOfRule, StatsOfFile, KeysBy, Matched, CountedSite, FileCount;
    KeysStep(front, last, ByRule());
    KeysStep(front, last, ByFile());
    forall key {
      RuleStep(front, last, mutants, tolerance, key);
    }
    forall key {
      FileStep(front, last, mutants, tolerance, key);
    }
    StatsOfAbsent(front, mutants, tolerance, last.rule);
    StatsOfAbsent(front, mutants, tolerance, last.file);
  }

  lemma EmptyTables(mutants: seq<Mutant>, tolerance: int)
    ensures RuleTable([], mutants, tolerance) == map[] && FileTable([], mutants, tolerance) == map[]
  {
  }

  lemma FullScan(site: Site, mutants: seq<Mutant>, tolerance: int, stats: RuleStats)
    ensures Plus(stats, site, OfFile(mutants, site.file), tolerance) == Plus(stats, site, mutants, tolerance)
    ensures AllHits(site, OfFile(mutants, site.file), tolerance) > 0 <==> Matched(site, mutants, tolerance)
  {
    hide HitsOf, AllHits, OfFile, Matched;
    IndexAgreesWithFullScan(site, mutants, tolerance, Killed);
    IndexAgreesWithFullScan(site, mutants, tolerance, Survived);
    IndexAgreesWithFullScan(site, mutants, tolerance, NoCoverage);
    IndexAgreesWithFullScan(site, mutants, tolerance, Other);
    VerdictsPartitionHits(site, mutants, tolerance);
  }

  method CorrelateSites(sites: seq<Site>, mutants: seq<Mutant>, tolerance: int)
    returns (rules: map<string, RuleStats>, files: map<string, FileStats>, matched: seq<Site>)
    ensures rules == RuleTable(sites, mutants, tolerance)
    ensures files == FileTable(sites, mutants, tolerance)
    ensures matched == MatchedSites(sites, mutants, tolerance)
  {
    hide RuleTable, FileTable, Matched, HitsOf, AllHits, OfFile, KeysBy;
    var index := IndexByFile(mutants);
    rules, files, matched := map[], map[], [];
    EmptyTables(mutants, tolerance);
    for i := 0 to |sites|
      invariant rules == RuleTable(sites[..i], mutants, tolerance)
      invariant files == FileTable(sites[..i], mutants, tolerance)
      invariant matched == MatchedSites(sites[..i], mutants, tolerance)
    {
      var site := sites[i];
      assert sites[..i + 1] == sites[..i] + [site];
      assert sites[..i + 1][..i] == sites[..i];
      TablesStep(sites[..i], site, mutants, tolerance);
      OfFileMembers(mutants, site.file);
      var before := RuleOr0(rules, site.rule);
      var stats, found := ScanSite(site, GetMutants(index, site.file), tolerance, before);
      FullScan(site, mutants, tolerance, before);
      stats := stats.(sites := stats.sites + 1);
      if found {
        stats := stats.(matched := stats.matched + 1);
        matched := matched + [site];
      }
      rules := rules[site.rule := stats];
      files := files[site.file := FileCount(FileOr0(files, site.file), found)];
    }
    assert sites[..|sites|] == sites;
  }
}
