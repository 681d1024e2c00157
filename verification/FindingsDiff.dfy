/** Which findings a write is responsible for: those its content has beyond the ones the
    previous content already had. */
module FindingsDiff {

  datatype Finding = Finding(rule: string, message: string, line: nat)

  /** What two findings must share to be the same one; the line moves under edits elsewhere. */
  type Key = (string, string)

  const WHOLE_FILE_METRIC_RULES: seq<string> := ["smells:maintainability-index", "smells:ck-oo-metrics"]

  predicate WholeFile(f: Finding) {
    f.rule in WHOLE_FILE_METRIC_RULES
  }

  function KeyOf(f: Finding): Key {
    (f.rule, f.message)
  }

  /** Occurrences of an ordinary finding's key. */
  function Count(fs: seq<Finding>, key: Key): nat {
    if fs == [] then 0
    else Count(fs[..|fs| - 1], key)
         + (if !WholeFile(fs[|fs| - 1]) && KeyOf(fs[|fs| - 1]) == key then 1 else 0)
  }

  predicate HasRule(fs: seq<Finding>, rule: string) {
    exists i :: 0 <= i < |fs| && fs[i].rule == rule
  }

  /** Whether `f`, coming after `earlier` in the new list, is beyond what `prior` accounts for. */
  predicate IsNew(earlier: seq<Finding>, f: Finding, prior: seq<Finding>) {
    if WholeFile(f) then !HasRule(prior, f.rule)
    else Count(earlier, KeyOf(f)) >= Count(prior, KeyOf(f))
  }

  /** The new findings, in their order. */
  function Survivors(fs: seq<Finding>, prior: seq<Finding>): seq<Finding> {
    if fs == [] then []
    else
      var front, f := fs[..|fs| - 1], fs[|fs| - 1];
      if IsNew(front, f, prior) then Survivors(front, prior) + [f] else Survivors(front, prior)
  }

  // ----- counting -----

  lemma CountOfPrefixStep(fs: seq<Finding>, i: nat, key: Key)
    requires i < |fs|
    ensures Count(fs[..i + 1], key) == Count(fs[..i], key) + (if !WholeFile(fs[i]) && KeyOf(fs[i]) == key then 1 else 0)
  {
    assert fs[..i + 1][..i] == fs[..i];
  }

  lemma {:induction false} CountOfPrefixGrows(fs: seq<Finding>, i: nat, j: nat, key: Key)
    requires i <= j <= |fs|
    ensures Count(fs[..i], key) <= Count(fs[..j], key)
  {
    hide Count;
    if i < j {
      CountOfPrefixGrows(fs, i, j - 1, key);
      CountOfPrefixStep(fs, j - 1, key);
    }
  }

  lemma {:induction false} CountOfConcat(a: seq<Finding>, b: seq<Finding>, key: Key)
    ensures Count(a + b, key) == Count(a, key) + Count(b, key)
  {
    if b == [] {
      assert a + b == a;
    } else {
      assert (a + b)[..|a + b| - 1] == a + b[..|b| - 1];
      CountOfConcat(a, b[..|b| - 1], key);
    }
  }

  lemma HasRuleOfConcat(a: seq<Finding>, b: seq<Finding>, rule: string)
    ensures HasRule(a + b, rule) <==> HasRule(a, rule) || HasRule(b, rule)
  {
    assert forall i :: 0 <= i < |a| ==> (a + b)[i] == a[i];
    assert forall i :: 0 <= i < |b| ==> (a + b)[|a| + i] == b[i];
  }

  function Keys(fs: seq<Finding>): (keys: seq<Key>)
    ensures |keys| == |fs|
    ensures forall i :: 0 <= i < |fs| ==> keys[i] == KeyOf(fs[i])
  {
    seq(|fs|, i requires 0 <= i < |fs| => KeyOf(fs[i]))
  }

  lemma {:induction false} CountIsMultiplicity(fs: seq<Finding>, key: Key)
    ensures Count(fs, key) == if key.0 in WHOLE_FILE_METRIC_RULES then 0 else multiset(Keys(fs))[key]
  {
    if fs != [] {
      var front := fs[..|fs| - 1];
      CountIsMultiplicity(front, key);
      assert Keys(fs) == Keys(front) + [KeyOf(fs[|fs| - 1])];
    }
  }

  lemma HasRuleIsMembership(fs: seq<Finding>, rule: string)
    ensures HasRule(fs, rule) <==> exists key :: key in multiset(Keys(fs)) && key.0 == rule
  {
    if HasRule(fs, rule) {
      var i :| 0 <= i < |fs| && fs[i].rule == rule;
      assert Keys(fs)[i] in multiset(Keys(fs));
    }
    if key :| key in multiset(Keys(fs)) && key.0 == rule {
      var i :| 0 <= i < |fs| && Keys(fs)[i] == key;
      assert fs[i].rule == rule;
    }
  }

  // ----- an ordered multiset difference -----

  /** Of an ordinary (rule, message), as many occurrences survive as the new list has beyond the old one. */
  lemma {:induction false} SurvivorCount(fs: seq<Finding>, prior: seq<Finding>, key: Key)
    ensures Count(Survivors(fs, prior), key)
         == if Count(fs, key) > Count(prior, key) then Count(fs, key) - Count(prior, key) else 0
  {
    if fs != [] {
      var front, f := fs[..|fs| - 1], fs[|fs| - 1];
      SurvivorCount(front, prior, key);
      if IsNew(front, f, prior) {
        var kept := Survivors(front, prior) + [f];
        assert kept[..|kept| - 1] == Survivors(front, prior);
      }
    }
  }

  /** Positions of the new findings, ascending. */
  function NewAt(fs: seq<Finding>, prior: seq<Finding>): seq<nat> {
    if fs == [] then []
    else
      var front, f := fs[..|fs| - 1], fs[|fs| - 1];
      if IsNew(front, f, prior) then NewAt(front, prior) + [|fs| - 1] else NewAt(front, prior)
  }

  /** The new findings survive, and only they, each in its place among the others. */
  lemma {:induction false} SurvivorPositions(fs: seq<Finding>, prior: seq<Finding>)
    ensures var at := NewAt(fs, prior);
      && |at| == |Survivors(fs, prior)|
      && (forall m :: 0 <= m < |at| ==> at[m] < |fs| && fs[at[m]] == Survivors(fs, prior)[m])
      && (forall m, n :: 0 <= m < n < |at| ==> at[m] < at[n])
  {
    hide IsNew;
    if fs != [] {
      SurvivorPositions(fs[..|fs| - 1], prior);
    }
  }

  lemma {:induction false} NewAtMembers(fs: seq<Finding>, prior: seq<Finding>, i: nat)
    ensures i in NewAt(fs, prior) <==> i < |fs| && IsNew(fs[..i], fs[i], prior)
  {
    hide IsNew;
    if fs != [] {
      var n := |fs| - 1;
      NewAtMembers(fs[..n], prior, i);
      if i < n {
        assert fs[..n][..i] == fs[..i];
      }
    }
  }

  /** The occurrences of one key that survive are its last ones. */
  lemma LaterOccurrencesSurvive(fs: seq<Finding>, prior: seq<Finding>, i: nat, j: nat)
    requires i < j < |fs| && KeyOf(fs[i]) == KeyOf(fs[j])
    requires IsNew(fs[..i], fs[i], prior)
    ensures IsNew(fs[..j], fs[j], prior)
  {
    CountOfPrefixGrows(fs, i, j, KeyOf(fs[i]));
  }

  function OfRule(fs: seq<Finding>, rule: string): seq<Finding> {
    if fs == [] then []
    else
      var front, f := fs[..|fs| - 1], fs[|fs| - 1];
      if f.rule == rule then OfRule(front, rule) + [f] else OfRule(front, rule)
  }

  /** A whole-file metric survives entirely if it is new to the file, and not at all otherwise. */
  lemma {:induction false} WholeFileRuleIsAllOrNothing(fs: seq<Finding>, prior: seq<Finding>, rule: string)
    requires rule in WHOLE_FILE_METRIC_RULES
    ensures OfRule(Survivors(fs, prior), rule) == if HasRule(prior, rule) then [] else OfRule(fs, rule)
  {
    if fs != [] {
      var front, f := fs[..|fs| - 1], fs[|fs| - 1];
      WholeFileRuleIsAllOrNothing(front, prior, rule);
      if IsNew(front, f, prior) {
        var kept := Survivors(front, prior) + [f];
        assert kept[..|kept| - 1] == Survivors(front, prior);
      }
    }
  }

  /** A class over the limit in a file that had another such class already: the rule reports each class,
      and both findings are dropped for the one that was there. */
  lemma NewClassOverTheLimitIsDropped(known: Finding, added: Finding)
    requires known.rule == "smells:ck-oo-metrics" == added.rule && known.message != added.message
    ensures Survivors([known, added], [known]) == []
  {
    var rules := WHOLE_FILE_METRIC_RULES;
    assert rules[1] == "smells:ck-oo-metrics";
    assert [known][0].rule == added.rule;
    assert [known, added][..1] == [known] && [known][..0] == [];
    assert !IsNew([], known, [known]) && !IsNew([known], added, [known]);
    assert Survivors([known], [known]) == [];
  }

  // ----- in terms of rules and messages -----

  predicate IsWholeFileRule(rule: string) {
    rule == "smells:maintainability-index" || rule == "smells:ck-oo-metrics"
  }

  /** How often a message of a rule is found. */
  function Occurrences(fs: seq<Finding>, rule: string, message: string): nat {
    if fs == [] then 0
    else Occurrences(fs[1..], rule, message) + (if fs[0].rule == rule && fs[0].message == message then 1 else 0)
  }

  function Excess(now: nat, before: nat): nat {
    if now > before then now - before else 0
  }

  /** `kept` is taken from `fs` in order. */
  ghost predicate InOrder(kept: seq<Finding>, fs: seq<Finding>, at: seq<nat>) {
    && |at| == |kept|
    && (forall m :: 0 <= m < |at| ==> at[m] < |fs| && fs[at[m]] == kept[m])
    && (forall m, n :: 0 <= m < n < |at| ==> at[m] < at[n])
  }

  /** `kept` is what `fs` has beyond `prior`, in order: of each ordinary rule and message the excess, of a
      whole-file rule all if `prior` lacks the rule and none otherwise. */
  ghost predicate IsBeyond(kept: seq<Finding>, fs: seq<Finding>, prior: seq<Finding>) {
    && (exists at :: InOrder(kept, fs, at))
    && (forall rule, message | !IsWholeFileRule(rule) ::
          Occurrences(kept, rule, message) == Excess(Occurrences(fs, rule, message), Occurrences(prior, rule, message)))
    && (forall rule | IsWholeFileRule(rule) ::
          OfRule(kept, rule) == if HasRule(prior, rule) then [] else OfRule(fs, rule))
  }

  lemma WholeFileRulesAre(rule: string)
    ensures rule in WHOLE_FILE_METRIC_RULES <==> IsWholeFileRule(rule)
  {
    assert WHOLE_FILE_METRIC_RULES[0] == "smells:maintainability-index";
    assert WHOLE_FILE_METRIC_RULES[1] == "smells:ck-oo-metrics";
  }

  lemma {:induction false} OccurrencesOfAppend(fs: seq<Finding>, f: Finding, rule: string, message: string)
    ensures Occurrences(fs + [f], rule, message)
         == Occurrences(fs, rule, message) + (if f.rule == rule && f.message == message then 1 else 0)
  {
    if fs == [] {
      assert [] + [f] == [f] && [f][1..] == [];
    } else {
      assert (fs + [f])[1..] == fs[1..] + [f];
      OccurrencesOfAppend(fs[1..], f, rule, message);
    }
  }

  lemma {:induction false} CountIsOccurrences(fs: seq<Finding>, rule: string, message: string)
    requires !IsWholeFileRule(rule)
    ensures Count(fs, (rule, message)) == Occurrences(fs, rule, message)
  {
    hide Occurrences;
    WholeFileRulesAre(rule);
    if fs == [] {
      assert Occurrences([], rule, message) == 0 by { NoOccurrences(rule, message); }
    } else {
      var front, last := fs[..|fs| - 1], fs[|fs| - 1];
      CountIsOccurrences(front, rule, message);
      OccurrencesOfAppend(front, last, rule, message);
      assert fs == front + [last];
    }
  }

  lemma NoOccurrences(rule: string, message: string)
    ensures Occurrences([], rule, message) == 0
  {
  }

  /** What survives is what the new list has beyond the old one. */
  lemma SurvivorsAreBeyond(fs: seq<Finding>, prior: seq<Finding>)
    ensures IsBeyond(Survivors(fs, prior), fs, prior)
  {
    hide Survivors, Occurrences, Count, OfRule, HasRule, IsWholeFileRule;
    var kept := Survivors(fs, prior);
    SurvivorPositions(fs, prior);
    assert InOrder(kept, fs, NewAt(fs, prior));
    forall rule, message | !IsWholeFileRule(rule)
      ensures Occurrences(kept, rule, message)
           == Excess(Occurrences(fs, rule, message), Occurrences(prior, rule, message))
    {
      CountIsOccurrences(fs, rule, message);
      CountIsOccurrences(prior, rule, message);
      CountIsOccurrences(kept, rule, message);
      SurvivorCount(fs, prior, (rule, message));
    }
    forall rule | IsWholeFileRule(rule)
      ensures OfRule(kept, rule) == if HasRule(prior, rule) then [] else OfRule(fs, rule)
    {
      WholeFileRulesAre(rule);
      WholeFileRuleIsAllOrNothing(fs, prior, rule);
    }
  }

  // ----- its algebra -----

  /** Dropping against one list and then another is dropping against both. */
  lemma {:induction false} DropTwice(fs: seq<Finding>, a: seq<Finding>, b: seq<Finding>)
    ensures Survivors(Survivors(fs, a), b) == Survivors(fs, a + b)
  {
    if fs != [] {
      var front, f := fs[..|fs| - 1], fs[|fs| - 1];
      DropTwice(front, a, b);
      CountOfConcat(a, b, KeyOf(f));
      HasRuleOfConcat(a, b, f.rule);
      SurvivorCount(front, a, KeyOf(f));
      if IsNew(front, f, a) {
        var kept := Survivors(front, a) + [f];
        assert kept[..|kept| - 1] == Survivors(front, a);
      }
    }
  }

  /** Only the multiset of (rule, message) pairs of the old list matters: not its order, not its lines. */
  lemma {:induction false} OldListIsAMultisetOfKeys(fs: seq<Finding>, prior: seq<Finding>, prior': seq<Finding>)
    requires multiset(Keys(prior)) == multiset(Keys(prior'))
    ensures Survivors(fs, prior) == Survivors(fs, prior')
  {
    if fs != [] {
      var front, f := fs[..|fs| - 1], fs[|fs| - 1];
      OldListIsAMultisetOfKeys(front, prior, prior');
      CountIsMultiplicity(prior, KeyOf(f));
      CountIsMultiplicity(prior', KeyOf(f));
      HasRuleIsMembership(prior, f.rule);
      HasRuleIsMembership(prior', f.rule);
    }
  }

  /** Moving the new findings to other lines changes neither which survive nor their order. */
  lemma {:induction false} LinesDoNotMatter(fs: seq<Finding>, fs': seq<Finding>, prior: seq<Finding>)
    requires Keys(fs) == Keys(fs')
    ensures Keys(Survivors(fs, prior)) == Keys(Survivors(fs', prior))
  {
    assert |Keys(fs)| == |fs| && |Keys(fs')| == |fs'|;
    if fs != [] {
      var n := |fs| - 1;
      var front, front' := fs[..n], fs'[..n];
      assert Keys(front) == Keys(fs)[..n] == Keys(front');
      assert KeyOf(fs[n]) == Keys(fs)[n] == KeyOf(fs'[n]);
      LinesDoNotMatter(front, front', prior);
      CountIsMultiplicity(front, KeyOf(fs[n]));
      CountIsMultiplicity(front', KeyOf(fs[n]));
    }
  }

  /** The old list already accounts for everything in the new one. */
  ghost predicate Covers(prior: seq<Finding>, fs: seq<Finding>) {
    && (forall key :: Count(fs, key) <= Count(prior, key))
    && (forall i :: 0 <= i < |fs| && WholeFile(fs[i]) ==> HasRule(prior, fs[i].rule))
  }

  /** Nothing survives exactly when the old list covers the new one. */
  lemma NothingSurvivesIffCovered(fs: seq<Finding>, prior: seq<Finding>)
    ensures Survivors(fs, prior) == [] <==> Covers(prior, fs)
  {
    var at := NewAt(fs, prior);
    SurvivorPositions(fs, prior);
    if Survivors(fs, prior) == [] {
      forall key ensures Count(fs, key) <= Count(prior, key) {
        SurvivorCount(fs, prior, key);
        assert Count([], key) == 0;
      }
      forall i | 0 <= i < |fs| && WholeFile(fs[i]) ensures HasRule(prior, fs[i].rule) {
        NewAtMembers(fs, prior, i);
      }
    } else {
      var i, key := at[0], KeyOf(fs[at[0]]);
      assert i in at;
      NewAtMembers(fs, prior, i);
      CountOfPrefixStep(fs, i, key);
      CountOfPrefixGrows(fs, i + 1, |fs|, key);
      assert fs[..|fs|] == fs;
      assert !WholeFile(fs[i]) ==> Count(fs, key) > Count(prior, key);
    }
  }

  /** A write that leaves the findings as they were introduces none. */
  lemma NothingSurvivesAgainstItself(fs: seq<Finding>)
    ensures Survivors(fs, fs) == []
  {
    NothingSurvivesIffCovered(fs, fs);
  }

  /** A longer old list never adds a survivor: what is left is a subsequence of what was left. */
  lemma MoreHistoryNeverAddsASurvivor(fs: seq<Finding>, prior: seq<Finding>, more: seq<Finding>)
    ensures var at := NewAt(Survivors(fs, prior), more);
      && |at| == |Survivors(fs, prior + more)|
      && (forall m, n :: 0 <= m < n < |at| ==> at[m] < at[n])
      && (forall m :: 0 <= m < |at| ==>
            at[m] < |Survivors(fs, prior)| && Survivors(fs, prior + more)[m] == Survivors(fs, prior)[at[m]])
  {
    DropTwice(fs, prior, more);
    SurvivorPositions(Survivors(fs, prior), more);
  }

  // ----- the program itself -----

  function Tally(remaining: map<Key, nat>, key: Key): nat {
    if key in remaining then remaining[key] else 0
  }

  /** `rules` are the whole-file rules that fired in `fs`. */
  ghost predicate WholeFilePresent(rules: set<string>, fs: seq<Finding>) {
    forall rule :: rule in rules <==> rule in WHOLE_FILE_METRIC_RULES && HasRule(fs, rule)
  }

  function WholeFileRules(fs: seq<Finding>): (rules: set<string>)
    ensures WholeFilePresent(rules, fs)
  {
    set f | f in fs && WholeFile(f) :: f.rule
  }

  /** How often each ordinary key occurs. */
  method CountKeys(fs: seq<Finding>) returns (remaining: map<Key, nat>)
    ensures forall key :: Tally(remaining, key) == Count(fs, key)
  {
    remaining := map[];
    for i := 0 to |fs|
      invariant forall key :: Tally(remaining, key) == Count(fs[..i], key)
    {
      forall key
        ensures Count(fs[..i + 1], key)
          == Count(fs[..i], key) + (if !WholeFile(fs[i]) && KeyOf(fs[i]) == key then 1 else 0)
      {
        CountOfPrefixStep(fs, i, key);
      }
      if !WholeFile(fs[i]) {
        var key := KeyOf(fs[i]);
        var more := remaining[key := Tally(remaining, key) + 1];
        assert forall k :: Tally(more, k) == Tally(remaining, k) + if k == key then 1 else 0;
        remaining := more;
      }
    }
    assert fs[..|fs|] == fs;
  }

  /** What `remaining` should say once `seen` has been gone through. */
  ghost predicate Outstanding(remaining: map<Key, nat>, prior: seq<Finding>, seen: seq<Finding>) {
    forall key :: Tally(remaining, key)
      == if Count(prior, key) > Count(seen, key) then Count(prior, key) - Count(seen, key) else 0
  }

  /** Whether `f` is dropped, and the counts after it. */
  method Consume(remaining: map<Key, nat>, wholeFilePresent: set<string>, f: Finding,
                 ghost prior: seq<Finding>, ghost seen: seq<Finding>)
    returns (drop: bool, left: map<Key, nat>)
    requires Outstanding(remaining, prior, seen)
    requires WholeFilePresent(wholeFilePresent, prior)
    ensures drop <==> !IsNew(seen, f, prior)
    ensures Outstanding(left, prior, seen + [f])
  {
    hide HasRule;
    assert (seen + [f])[..|seen|] == seen;
    left := remaining;
    if WholeFile(f) {
      drop := f.rule in wholeFilePresent;
    } else {
      var key := KeyOf(f);
      drop := Tally(remaining, key) > 0;
      if drop {
        left := remaining[key := remaining[key] - 1];
      }
    }
  }

  /** The list while it is being thinned out: what was kept so far, then what is still to be looked at. */
  function Partly(before: seq<Finding>, seen: nat, prior: seq<Finding>): (r: seq<Finding>)
    requires seen <= |before|
    ensures |r| == |Survivors(before[..seen], prior)| + |before| - seen
  {
    Survivors(before[..seen], prior) + before[seen..]
  }

  lemma PartlyStep(before: seq<Finding>, seen: nat, prior: seq<Finding>)
    requires seen < |before|
    ensures var f, kept := before[seen], |Survivors(before[..seen], prior)|;
      var now, next := Partly(before, seen, prior), Partly(before, seen + 1, prior);
      && before[..seen + 1] == before[..seen] + [f]
      && kept < |now| && now[kept] == f
      && if IsNew(before[..seen], f, prior) then next == now && |Survivors(before[..seen + 1], prior)| == kept + 1
         else next == now[..kept] + now[kept + 1..] && |Survivors(before[..seen + 1], prior)| == kept
  {
    hide IsNew;
    assert before[..seen + 1][..seen] == before[..seen];
    assert before[seen..] == [before[seen]] + before[seen + 1..];
  }

  lemma PartlyEnds(before: seq<Finding>, prior: seq<Finding>)
    ensures Partly(before, 0, prior) == before && Survivors(before[..0], prior) == []
    ensures Partly(before, |before|, prior) == Survivors(before, prior)
  {
    assert before[..|before|] == before;
  }

  /** The list of findings being judged, thinned out in place. */
  class FindingList {
    var items: seq<Finding>

    constructor (items: seq<Finding>)
      ensures this.items == items
    {
      this.items := items;
    }

    /** Findings before position `seen` of the original list have been looked at, and `kept` of them kept. */
    ghost predicate Thinned(before: seq<Finding>, seen: nat, prior: seq<Finding>, kept: nat)
      reads this
    {
      && seen <= |before|
      && items == Partly(before, seen, prior)
      && kept == |Survivors(before[..seen], prior)|
    }

    method KeepOrDrop(drop: bool, kept: nat, ghost before: seq<Finding>, ghost seen: nat, ghost prior: seq<Finding>)
      returns (next: nat)
      requires Thinned(before, seen, prior, kept) && seen < |before|
      requires drop <==> !IsNew(before[..seen], before[seen], prior)
      modifies this
      ensures Thinned(before, seen + 1, prior, next)
    {
      hide IsNew, Survivors, Partly;
      PartlyStep(before, seen, prior);
      if drop {
        items := items[..kept] + items[kept + 1..];
        next := kept;
      } else {
        next := kept + 1;
      }
    }

    lemma ThinnedAtTheEnds(before: seq<Finding>, seen: nat, prior: seq<Finding>, kept: nat)
      ensures items == before ==> Thinned(before, 0, prior, 0)
      ensures Thinned(before, seen, prior, kept) && kept >= |items| ==> items == Survivors(before, prior)
      ensures Thinned(before, seen, prior, kept) && kept < |items| ==> seen < |before| && items[kept] == before[seen]
    {
      hide Survivors;
      PartlyEnds(before, prior);
      if seen < |before| {
        PartlyStep(before, seen, prior);
      }
    }

    method LookAt(kept: nat, remaining: map<Key, nat>, wholeFilePresent: set<string>,
                  ghost before: seq<Finding>, ghost seen: nat, ghost prior: seq<Finding>)
      returns (next: nat, left: map<Key, nat>)
      requires kept < |items| && Thinned(before, seen, prior, kept) && seen < |before|
      requires Outstanding(remaining, prior, before[..seen]) && WholeFilePresent(wholeFilePresent, prior)
      modifies this
      ensures Thinned(before, seen + 1, prior, next) && Outstanding(left, prior, before[..seen + 1])
    {
      hide Thinned, IsNew, Outstanding, WholeFilePresent, Survivors, Partly;
      ThinnedAtTheEnds(before, seen, prior, kept);
      PartlyStep(before, seen, prior);
      var drop;
      drop, left := Consume(remaining, wholeFilePresent, items[kept], prior, before[..seen]);
      next := KeepOrDrop(drop, kept, before, seen, prior);
    }

    method DropPreexisting(prior: seq<Finding>)
      modifies this
      ensures items == Survivors(old(items), prior)
    {
      hide Thinned, Survivors, WholeFilePresent;
      var wholeFilePresent := WholeFileRules(prior);
      var remaining := CountKeys(prior);
      ghost var before, seen := items, 0;
      assert Outstanding(remaining, prior, before[..0]);
      hide Outstanding;
      var kept: nat := 0;
      ThinnedAtTheEnds(before, 0, prior, 0);
      while kept < |items|
        invariant 0 <= seen <= |before|
        invariant Thinned(before, seen, prior, kept)
        invariant Outstanding(remaining, prior, before[..seen])
        decreases |before| - seen
      {
        ThinnedAtTheEnds(before, seen, prior, kept);
        kept, remaining := LookAt(kept, remaining, wholeFilePresent, before, seen, prior);
        seen := seen + 1;
      }
      ThinnedAtTheEnds(before, seen, prior, kept);
    }
  }
}
