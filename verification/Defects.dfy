/** The store of defects in generated code that hold a task back until they are closed. */
module Defects {
  import opened Wrappers
  import Text

  datatype Status = Open | Resolved | Accepted

  datatype Defect = Defect(id: nat, engine: string, file: string, reason: string, status: Status)

  predicate IsOpenFor(d: Defect, engine: string, file: string, reason: string) {
    d.status == Open && d.engine == engine && d.file == file && d.reason == reason
  }

  function FindOpen(store: seq<Defect>, engine: string, file: string, reason: string): Option<Defect> {
    if store == [] then None
    else if IsOpenFor(store[0], engine, file, reason) then Some(store[0])
    else FindOpen(store[1..], engine, file, reason)
  }

  function MaxId(store: seq<Defect>): nat {
    if store == [] then 0
    else
      var rest := MaxId(store[1..]);
      if store[0].id > rest then store[0].id else rest
  }

  function OpenOnes(store: seq<Defect>): seq<Defect> {
    if store == [] then []
    else (if store[0].status == Open then [store[0]] else []) + OpenOnes(store[1..])
  }

  /** The defects a task is told it is held back by, if there are any. */
  function BlockingReason(store: seq<Defect>): Option<seq<Defect>> {
    if OpenOnes(store) == [] then None else Some(OpenOnes(store))
  }

  // ----- the operations -----

  datatype Operation =
    | Report(engine: string, file: string, reason: string)
    | Close(id: nat, accepted: bool)

  datatype Answer = Recorded(defect: Defect) | NoReasonGiven | Closed | NoSuchDefect

  /** The position of the first defect with this id. */
  function Position(store: seq<Defect>, id: nat): Option<nat> {
    if store == [] then None
    else if store[0].id == id then Some(0)
    else match Position(store[1..], id)
      case None => None
      case Some(i) => Some(i + 1)
  }

  lemma {:induction false} PositionIsFirst(store: seq<Defect>, id: nat)
    ensures match Position(store, id)
      case None => forall k :: 0 <= k < |store| ==> store[k].id != id
      case Some(i) => i < |store| && store[i].id == id && forall k :: 0 <= k < i ==> store[k].id != id
  {
    if store != [] {
      PositionIsFirst(store[1..], id);
      assert forall k :: 1 <= k < |store| ==> store[k] == store[1..][k - 1];
    }
  }

  function Apply(store: seq<Defect>, op: Operation): (seq<Defect>, Answer) {
    match op
    case Report(engine, file, reason) =>
      if Text.Trim(reason) == "" then (store, NoReasonGiven)
      else
        var existing := FindOpen(store, engine, file, reason);
        if existing.Some? then (store, Recorded(existing.value))
        else
          var defect := Defect(MaxId(store) + 1, engine, file, reason, Open);
          (store + [defect], Recorded(defect))
    case Close(id, accepted) =>
      var i := Position(store, id);
      if i.None? then (store, NoSuchDefect)
      else
        PositionIsFirst(store, id);
        (store[i.value := store[i.value].(status := if accepted then Accepted else Resolved)], Closed)
  }

  function Run(ops: seq<Operation>): seq<Defect> {
    if ops == [] then [] else Apply(Run(ops[..|ops| - 1]), ops[|ops| - 1]).0
  }

  /** The defect the i-th operation was answered with, if it was a report that was recorded. */
  function RecordedAt(ops: seq<Operation>, i: nat): Option<nat>
    requires i < |ops|
  {
    match Apply(Run(ops[..i]), ops[i]).1
    case Recorded(defect) => Some(defect.id)
    case _ => None
  }

  // ----- what every reachable store satisfies -----

  /** Ids count up from one. */
  ghost predicate NumberedInOrder(store: seq<Defect>) {
    forall i :: 0 <= i < |store| ==> store[i].id == i + 1
  }

  predicate SameReport(a: Defect, b: Defect) {
    a.engine == b.engine && a.file == b.file && a.reason == b.reason
  }

  /** No two open defects for the same engine, file and reason. */
  ghost predicate NoOpenDuplicates(store: seq<Defect>) {
    forall i, j :: 0 <= i < j < |store| ==>
      !(store[i].status == Open && store[j].status == Open && SameReport(store[i], store[j]))
  }

  lemma {:induction false} FindOpenFinds(store: seq<Defect>, engine: string, file: string, reason: string)
    ensures match FindOpen(store, engine, file, reason)
      case None => forall i :: 0 <= i < |store| ==> !IsOpenFor(store[i], engine, file, reason)
      case Some(d) => d in store && IsOpenFor(d, engine, file, reason)
  {
    if store != [] {
      FindOpenFinds(store[1..], engine, file, reason);
      assert forall k :: 1 <= k < |store| ==> store[k] == store[1..][k - 1];
    }
  }

  lemma {:induction false} MaxIdOfNumbered(store: seq<Defect>, first: nat)
    requires forall i :: 0 <= i < |store| ==> store[i].id == first + i
    ensures MaxId(store) == if store == [] then 0 else first + |store| - 1
  {
    if store != [] {
      assert forall i :: 0 <= i < |store| - 1 ==> store[1..][i] == store[i + 1];
      MaxIdOfNumbered(store[1..], first + 1);
    }
  }

  lemma ApplyKeepsTheInvariant(store: seq<Defect>, op: Operation)
    requires NumberedInOrder(store) && NoOpenDuplicates(store)
    ensures NumberedInOrder(Apply(store, op).0) && NoOpenDuplicates(Apply(store, op).0)
    ensures |store| <= |Apply(store, op).0|
  {
    match op
    case Report(engine, file, reason) =>
      FindOpenFinds(store, engine, file, reason);
      MaxIdOfNumbered(store, 1);
    case Close(id, accepted) =>
      PositionIsFirst(store, id);
  }

  /** In every reachable store ids count up from one and no open defect is recorded twice. */
  lemma {:induction false} ReachableStores(ops: seq<Operation>)
    ensures NumberedInOrder(Run(ops)) && NoOpenDuplicates(Run(ops))
  {
    hide Apply;
    if ops != [] {
      ReachableStores(ops[..|ops| - 1]);
      ApplyKeepsTheInvariant(Run(ops[..|ops| - 1]), ops[|ops| - 1]);
    }
  }

  // ----- when a task is held back -----

  predicate HasOpen(store: seq<Defect>, id: nat) {
    exists i :: 0 <= i < |store| && store[i].id == id && store[i].status == Open
  }

  /** `id` was given to some report and has not been closed since. */
  ghost predicate ReportedNotClosed(ops: seq<Operation>, id: nat) {
    exists i :: 0 <= i < |ops| && RecordedAt(ops, i) == Some(id) && NotClosedAfter(ops, i, id)
  }

  ghost predicate NotClosedAfter(ops: seq<Operation>, i: nat, id: nat) {
    forall j :: i < j < |ops| ==> !(ops[j].Close? && ops[j].id == id)
  }

  lemma HasOpenOfAppend(store: seq<Defect>, d: Defect, id: nat)
    ensures HasOpen(store + [d], id) <==> HasOpen(store, id) || (d.id == id && d.status == Open)
  {
    var after := store + [d];
    if HasOpen(store, id) {
      var i :| 0 <= i < |store| && store[i].id == id && store[i].status == Open;
      assert after[i] == store[i];
    }
    if d.id == id && d.status == Open {
      assert after[|store|] == d;
    }
  }

  lemma HasOpenOfClose(store: seq<Defect>, i: nat, status: Status, id: nat)
    requires NumberedInOrder(store) && i < |store| && status != Open
    ensures HasOpen(store[i := store[i].(status := status)], id) <==> HasOpen(store, id) && store[i].id != id
  {
    var after := store[i := store[i].(status := status)];
    if HasOpen(store, id) && store[i].id != id {
      var k :| 0 <= k < |store| && store[k].id == id && store[k].status == Open;
      assert after[k] == store[k];
    }
    if HasOpen(after, id) {
      var k :| 0 <= k < |after| && after[k].id == id && after[k].status == Open;
      assert k != i && after[k] == store[k];
    }
  }

  /** One operation's effect on one id. */
  lemma HasOpenStep(store: seq<Defect>, op: Operation, id: nat)
    requires NumberedInOrder(store)
    ensures var (after, answer) := Apply(store, op);
      HasOpen(after, id)
      <==> (answer.Recorded? && answer.defect.id == id) || (HasOpen(store, id) && !(op.Close? && op.id == id))
  {
    match op
    case Report(engine, file, reason) =>
      FindOpenFinds(store, engine, file, reason);
      var existing := FindOpen(store, engine, file, reason);
      if existing.Some? {
        var i :| 0 <= i < |store| && store[i] == existing.value;
        assert HasOpen(store, store[i].id);
      }
      HasOpenOfAppend(store, Defect(MaxId(store) + 1, engine, file, reason, Open), id);
    case Close(closed, accepted) =>
      PositionIsFirst(store, closed);
      var i := Position(store, closed);
      if i.Some? {
        HasOpenOfClose(store, i.value, if accepted then Accepted else Resolved, id);
      }
  }

  lemma RecordedOfPrefix(ops: seq<Operation>, n: nat, i: nat)
    requires i < n <= |ops|
    ensures RecordedAt(ops[..n], i) == RecordedAt(ops, i)
  {
    assert ops[..n][..i] == ops[..i];
  }

  lemma ReportedNotClosedStep(ops: seq<Operation>, id: nat)
    requires ops != []
    ensures var n := |ops| - 1;
      ReportedNotClosed(ops, id)
      <==> RecordedAt(ops, n) == Some(id) || (ReportedNotClosed(ops[..n], id) && !(ops[n].Close? && ops[n].id == id))
  {
    hide RecordedAt;
    var n := |ops| - 1;
    var front := ops[..n];
    if RecordedAt(ops, n) == Some(id) {
      assert NotClosedAfter(ops, n, id);
    }
    if ReportedNotClosed(front, id) && !(ops[n].Close? && ops[n].id == id) {
      var i :| 0 <= i < n && RecordedAt(front, i) == Some(id) && NotClosedAfter(front, i, id);
      RecordedOfPrefix(ops, n, i);
      forall j | i < j < |ops| ensures !(ops[j].Close? && ops[j].id == id) {
        assert j < n ==> ops[j] == front[j];
      }
      assert NotClosedAfter(ops, i, id);
    }
    if ReportedNotClosed(ops, id) && RecordedAt(ops, n) != Some(id) {
      var i :| 0 <= i < |ops| && RecordedAt(ops, i) == Some(id) && NotClosedAfter(ops, i, id);
      RecordedOfPrefix(ops, n, i);
      assert NotClosedAfter(front, i, id);
    }
  }

  lemma {:induction false} OpenIffReportedNotClosed(ops: seq<Operation>, id: nat)
    ensures HasOpen(Run(ops), id) <==> ReportedNotClosed(ops, id)
  {
    assert !HasOpen([], id);
    hide Apply, HasOpen, NumberedInOrder, NoOpenDuplicates;
    if ops == [] {
      assert !ReportedNotClosed(ops, id);
    } else {
      hide ReportedNotClosed;
      var front := ops[..|ops| - 1];
      OpenIffReportedNotClosed(front, id);
      ReachableStores(front);
      HasOpenStep(Run(front), ops[|ops| - 1], id);
      ReportedNotClosedStep(ops, id);
    }
  }

  lemma {:induction false} OpenOnesHold(store: seq<Defect>, id: nat)
    ensures Lists(OpenOnes(store), id) <==> HasOpen(store, id)
    ensures forall d :: d in OpenOnes(store) ==> d.status == Open && d in store
  {
    if store != [] {
      var rest := store[1..];
      OpenOnesHold(rest, id);
      if HasOpen(rest, id) {
        var i :| 0 <= i < |rest| && rest[i].id == id && rest[i].status == Open;
        assert store[i + 1] == rest[i];
      }
      if HasOpen(store, id) {
        var i :| 0 <= i < |store| && store[i].id == id && store[i].status == Open;
        assert i > 0 ==> rest[i - 1] == store[i];
      }
      if store[0].status == Open {
        assert store[0] in OpenOnes(store);
      }
    }
  }

  ghost predicate Lists(defects: seq<Defect>, id: nat) {
    exists d :: d in defects && d.id == id
  }

  /** A task is held back exactly while some reported defect has not been closed since, and is told
      exactly those defects. */
  lemma BlockedIffSomethingIsUnclosed(ops: seq<Operation>)
    ensures var told := BlockingReason(Run(ops));
      && (told.Some? <==> exists id: nat :: ReportedNotClosed(ops, id))
      && (told.Some? ==> forall id :: Lists(told.value, id) <==> ReportedNotClosed(ops, id))
  {
    hide ReportedNotClosed, HasOpen, Run, OpenOnes;
    var open := OpenOnes(Run(ops));
    forall id: nat ensures Lists(open, id) <==> ReportedNotClosed(ops, id) {
      OpenOnesHold(Run(ops), id);
      OpenIffReportedNotClosed(ops, id);
    }
    if open != [] {
      assert Lists(open, open[0].id);
    }
  }

  /** An open defect with just this engine, file and reason. */
  predicate Says(d: Defect, engine: string, file: string, reason: string) {
    d == Defect(d.id, engine, file, reason, Open)
  }

  /** A report without a reason, that is of blanks only, changes nothing. */
  lemma BlankReportIsRefused(store: seq<Defect>, engine: string, file: string, reason: string)
    ensures Apply(store, Report(engine, file, reason)) == (store, NoReasonGiven) <==> Text.Blank(reason)
  {
    Text.BlankIff(reason);
    hide Text.Blank, Text.Trim;
  }

  /** A report with a reason is answered with an open defect that says what was reported. It is a new one,
      with the next number, exactly when none was open already; nothing recorded before changes. */
  lemma ReportIsRecordedOnce(ops: seq<Operation>, engine: string, file: string, reason: string)
    requires !Text.Blank(reason)
    ensures var store := Run(ops);
      var (after, answer) := Apply(store, Report(engine, file, reason));
      && answer.Recorded? && Says(answer.defect, engine, file, reason)
      && answer.defect in after
      && (after == store <==> exists i :: 0 <= i < |store| && Says(store[i], engine, file, reason))
      && (after != store ==> after == store + [answer.defect] && answer.defect.id == |store| + 1)
  {
    hide Run, Text.Blank, Text.Trim;
    Text.BlankIff(reason);
    ReachableStores(ops);
    FindOpenFinds(Run(ops), engine, file, reason);
    MaxIdOfNumbered(Run(ops), 1);
  }

  // ----- the program itself -----

  class Store {
    var defects: seq<Defect>
    ghost var history: seq<Operation>

    ghost predicate Valid()
      reads this
    {
      defects == Run(history)
    }

    constructor ()
      ensures Valid() && history == []
    {
      defects, history := [], [];
    }

    method ReportDefect(engine: string, file: string, reason: string) returns (answer: Answer)
      requires Valid()
      modifies this
      ensures Valid() && history == old(history) + [Report(engine, file, reason)]
      ensures answer == Apply(old(defects), Report(engine, file, reason)).1
    {
      ghost var before := history;
      history := history + [Report(engine, file, reason)];
      assert history[..|history| - 1] == before;
      if Text.Trim(reason) == "" {
        return NoReasonGiven;
      }
      for i := 0 to |defects|
        invariant FindOpen(defects[i..], engine, file, reason) == FindOpen(defects, engine, file, reason)
        invariant defects == old(defects)
      {
        if IsOpenFor(defects[i], engine, file, reason) {
          return Recorded(defects[i]);
        }
        assert defects[i..][1..] == defects[i + 1..];
      }
      var defect := Defect(MaxId(defects) + 1, engine, file, reason, Open);
      defects := defects + [defect];
      return Recorded(defect);
    }

    method FindPosition(id: nat) returns (i: Option<nat>)
      ensures i == Position(defects, id)
    {
      assert defects[0..] == defects;
      for k := 0 to |defects|
        invariant Position(defects, id) == match Position(defects[k..], id)
          case None => None
          case Some(rest) => Some(k + rest)
      {
        assert defects[k..][1..] == defects[k + 1..];
        if defects[k].id == id {
          return Some(k);
        }
      }
      return None;
    }

    method CloseDefect(id: nat, accepted: bool) returns (answer: Answer)
      requires Valid()
      modifies this
      ensures Valid() && history == old(history) + [Close(id, accepted)]
      ensures answer == Apply(old(defects), Close(id, accepted)).1
    {
      ghost var before := history;
      history := history + [Close(id, accepted)];
      assert history[..|history| - 1] == before;
      var i := FindPosition(id);
      if i.None? {
        return NoSuchDefect;
      }
      PositionIsFirst(defects, id);
      defects := defects[i.value := defects[i.value].(status := if accepted then Accepted else Resolved)];
      return Closed;
    }
  }
}
