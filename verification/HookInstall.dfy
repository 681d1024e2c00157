/** Wiring the guardrail's hooks into a settings file the user owns: an additive merge over any
    JSON value, and what it keeps, adds and never adds twice. */
module HookInstall {
  import opened Wrappers
  import opened Json

  type Fields = map<string, Json>

  /** (event, matcher) pairs, in the order they are installed. */
  const HOOK_MATCHERS: seq<(string, string)> :=
    [("PreToolUse", "Edit|Write"), ("PostToolUse", "Edit|Write"), ("PostToolUse", "Bash"), ("Stop", "")]

  function HookGroup(matcher: string, command: string): Json {
    Object(map[
      "matcher" := String(matcher),
      "hooks" := Array([Object(map[
        "type" := String("command"),
        "command" := String(command),
        "timeout" := Integer(30),
        "statusMessage" := String("vord guardrail")])])])
  }

  predicate RunsCommand(group: Json, command: string) {
    var hooks := group.Get("hooks");
    && hooks.Some? && hooks.value.Array?
    && exists i :: 0 <= i < |hooks.value.items| && hooks.value.items[i].Get("command") == Some(String(command))
  }

  /** The group counts as the installation of `matcher`: for `Edit|Write` any group running the command
      does, for the others only one with that very matcher. */
  predicate Installs(group: Json, matcher: string, command: string) {
    RunsCommand(group, command) && (matcher == "Edit|Write" || group.Get("matcher") == Some(String(matcher)))
  }

  predicate AlreadyInstalled(groups: seq<Json>, matcher: string, command: string) {
    exists i :: 0 <= i < |groups| && Installs(groups[i], matcher, command)
  }

  function FieldsOf(j: Option<Json>): Fields {
    if j.Some? && j.value.Object? then j.value.fields else map[]
  }

  /** The groups an event has; none if it is missing or not an array. */
  function GroupsOf(hooks: Fields, event: string): seq<Json> {
    if event in hooks && hooks[event].Array? then hooks[event].items else []
  }

  function AddHook(hooks: Fields, event: string, matcher: string, command: string): (Fields, bool) {
    var groups := GroupsOf(hooks, event);
    if AlreadyInstalled(groups, matcher, command) then (hooks[event := Array(groups)], false)
    else (hooks[event := Array(groups + [HookGroup(matcher, command)])], true)
  }

  function AddHooks(hooks: Fields, wanted: seq<(string, string)>, command: string): (Fields, bool) {
    if wanted == [] then (hooks, false)
    else
      var (some, changed) := AddHooks(hooks, wanted[..|wanted| - 1], command);
      var (event, matcher) := wanted[|wanted| - 1];
      var (all, more) := AddHook(some, event, matcher, command);
      (all, changed || more)
  }

  function HooksOf(settings: Json): Fields {
    FieldsOf(settings.Get("hooks"))
  }

  function Merge(settings: Json, command: string): (Json, bool) {
    var (hooks, changed) := AddHooks(HooksOf(settings), HOOK_MATCHERS, command);
    (Object(FieldsOf(Some(settings))["hooks" := Object(hooks)]), changed)
  }

  // ----- one hook -----

  lemma NewGroupInstalls(matcher: string, command: string)
    ensures Installs(HookGroup(matcher, command), matcher, command)
  {
    var group := HookGroup(matcher, command);
    var hooks := group.Get("hooks");
    assert hooks.value.items[0].Get("command") == Some(String(command));
  }

  lemma AddHookKeeps(hooks: Fields, event: string, matcher: string, command: string)
    ensures var (after, changed) := AddHook(hooks, event, matcher, command);
      && (forall e :: GroupsOf(hooks, e) <= GroupsOf(after, e))
      && (forall e :: e != event && e in hooks ==> e in after && after[e] == hooks[e])
      && AlreadyInstalled(GroupsOf(after, event), matcher, command)
      && (changed <==> !AlreadyInstalled(GroupsOf(hooks, event), matcher, command))
      && (!changed ==> after == hooks)
      && (changed ==> |GroupsOf(after, event)| == |GroupsOf(hooks, event)| + 1)
  {
    hide Installs, HookGroup;
    NewGroupInstalls(matcher, command);
    var groups := GroupsOf(hooks, event);
    var more := groups + [HookGroup(matcher, command)];
    assert more[|groups|] == HookGroup(matcher, command);
  }

  // ----- all of them -----

  ghost predicate AllInstalled(hooks: Fields, wanted: seq<(string, string)>, command: string) {
    forall i :: 0 <= i < |wanted| ==> AlreadyInstalled(GroupsOf(hooks, wanted[i].0), wanted[i].1, command)
  }

  ghost predicate Wants(wanted: seq<(string, string)>, event: string) {
    exists i :: 0 <= i < |wanted| && wanted[i].0 == event
  }

  lemma StaysInstalled(before: Fields, after: Fields, event: string, matcher: string, command: string)
    requires GroupsOf(before, event) <= GroupsOf(after, event)
    requires AlreadyInstalled(GroupsOf(before, event), matcher, command)
    ensures AlreadyInstalled(GroupsOf(after, event), matcher, command)
  {
    hide Installs;
    var i :| 0 <= i < |GroupsOf(before, event)| && Installs(GroupsOf(before, event)[i], matcher, command);
    assert Installs(GroupsOf(after, event)[i], matcher, command);
  }

  /** Adding hooks only appends groups, leaves other events alone, and leaves everything wanted installed. */
  lemma {:induction false} AddHooksKeeps(hooks: Fields, wanted: seq<(string, string)>, command: string)
    ensures var (after, changed) := AddHooks(hooks, wanted, command);
      && (forall e :: GroupsOf(hooks, e) <= GroupsOf(after, e))
      && (forall e :: e in hooks && !Wants(wanted, e) ==> e in after && after[e] == hooks[e])
      && AllInstalled(after, wanted, command)
      && (!changed ==> after == hooks)
      && (changed ==> exists e :: |GroupsOf(hooks, e)| < |GroupsOf(after, e)|)
  {
    hide AlreadyInstalled, AddHook, GroupsOf;
    if wanted != [] {
      var n := |wanted| - 1;
      var (event, matcher) := wanted[n];
      var (some, changed) := AddHooks(hooks, wanted[..n], command);
      var (after, more) := AddHook(some, event, matcher, command);
      AddHooksKeeps(hooks, wanted[..n], command);
      AddHookKeeps(some, event, matcher, command);
      forall e ensures GroupsOf(hooks, e) <= GroupsOf(after, e) && |GroupsOf(some, e)| <= |GroupsOf(after, e)| {
        assert GroupsOf(hooks, e) <= GroupsOf(some, e) <= GroupsOf(after, e);
      }
      forall i | 0 <= i < n ensures AlreadyInstalled(GroupsOf(after, wanted[i].0), wanted[i].1, command) {
        assert wanted[..n][i] == wanted[i];
        assert GroupsOf(some, wanted[i].0) <= GroupsOf(after, wanted[i].0);
        StaysInstalled(some, after, wanted[i].0, wanted[i].1, command);
      }
      forall e | e in hooks && !Wants(wanted, e) ensures e in after && after[e] == hooks[e] {
        assert !Wants(wanted[..n], e);
        assert wanted[n].0 != e;
      }
      if more {
        assert |GroupsOf(hooks, event)| <= |GroupsOf(some, event)|;
      } else if changed {
        var e :| |GroupsOf(hooks, e)| < |GroupsOf(some, e)|;
        assert |GroupsOf(some, e)| <= |GroupsOf(after, e)|;
      }
    }
  }

  /** Where everything wanted is installed there is nothing to do, and only there. */
  lemma {:induction false} NothingToAddIffInstalled(hooks: Fields, wanted: seq<(string, string)>, command: string)
    ensures !AddHooks(hooks, wanted, command).1 <==> AllInstalled(hooks, wanted, command)
  {
    hide AlreadyInstalled, AddHook, GroupsOf;
    if wanted != [] {
      var n := |wanted| - 1;
      var (event, matcher) := wanted[n];
      var some := AddHooks(hooks, wanted[..n], command).0;
      NothingToAddIffInstalled(hooks, wanted[..n], command);
      AddHooksKeeps(hooks, wanted[..n], command);
      AddHookKeeps(some, event, matcher, command);
      if AllInstalled(hooks, wanted, command) {
        forall i | 0 <= i < n
          ensures AlreadyInstalled(GroupsOf(hooks, wanted[..n][i].0), wanted[..n][i].1, command)
        {
          assert wanted[..n][i] == wanted[i];
        }
      }
      if AllInstalled(hooks, wanted[..n], command) && AlreadyInstalled(GroupsOf(hooks, event), matcher, command) {
        forall i | 0 <= i <= n ensures AlreadyInstalled(GroupsOf(hooks, wanted[i].0), wanted[i].1, command) {
          assert i < n ==> wanted[i] == wanted[..n][i];
        }
      }
    }
  }

  // ----- the merge -----

  /** Merging again changes nothing and says so. */
  lemma MergeIsIdempotent(settings: Json, command: string)
    ensures var merged := Merge(settings, command).0;
      Merge(merged, command) == (merged, false)
  {
    hide AddHooks, AllInstalled;
    AddHooksKeeps(HooksOf(settings), HOOK_MATCHERS, command);
    var merged := Merge(settings, command).0;
    NothingToAddIffInstalled(HooksOf(merged), HOOK_MATCHERS, command);
    AddHooksKeeps(HooksOf(merged), HOOK_MATCHERS, command);
    assert merged.fields["hooks" := Object(HooksOf(merged))] == merged.fields;
  }

  /** It reports a change exactly when there is one. */
  lemma ChangedIffDifferent(settings: Json, command: string)
    ensures var (merged, changed) := Merge(settings, command);
      !changed <==> merged == settings
  {
    hide AddHooks, Installs;
    var hooks := HooksOf(settings);
    var (after, changed) := AddHooks(hooks, HOOK_MATCHERS, command);
    AddHooksKeeps(hooks, HOOK_MATCHERS, command);
    NothingToAddIffInstalled(hooks, HOOK_MATCHERS, command);
    if !changed {
      assert AlreadyInstalled(GroupsOf(hooks, HOOK_MATCHERS[0].0), HOOK_MATCHERS[0].1, command);
      assert hooks != map[];
      assert settings.fields["hooks" := Object(hooks)] == settings.fields;
    } else {
      var e :| |GroupsOf(hooks, e)| < |GroupsOf(after, e)|;
      assert hooks != after;
    }
  }

  /** Keys of the settings other than `hooks`, events not listed, and every group already there, in its
      place, are kept; every listed event ends with its hook installed. */
  lemma MergeIsAdditive(settings: Json, command: string)
    ensures var merged := Merge(settings, command).0;
      && merged.Object? && "hooks" in merged.fields
      && merged.fields - {"hooks"} == (if settings.Object? then settings.fields - {"hooks"} else map[])
      && (forall e :: GroupsOf(HooksOf(settings), e) <= GroupsOf(HooksOf(merged), e))
      && (forall e :: e in HooksOf(settings) && !Wants(HOOK_MATCHERS, e) ==>
            e in HooksOf(merged) && HooksOf(merged)[e] == HooksOf(settings)[e])
      && AllInstalled(HooksOf(merged), HOOK_MATCHERS, command)
  {
    hide AddHooks, AllInstalled, Wants, GroupsOf;
    AddHooksKeeps(HooksOf(settings), HOOK_MATCHERS, command);
  }

  // ----- the result, event by event -----

  function Added(groups: seq<Json>, matcher: string, command: string): seq<Json> {
    if AlreadyInstalled(groups, matcher, command) then groups else groups + [HookGroup(matcher, command)]
  }

  lemma AddHookByEvent(hooks: Fields, event: string, matcher: string, command: string, e: string)
    ensures GroupsOf(AddHook(hooks, event, matcher, command).0, e)
         == if e == event then Added(GroupsOf(hooks, e), matcher, command) else GroupsOf(hooks, e)
  {
    hide AlreadyInstalled, HookGroup;
  }

  lemma MergeByEvent(settings: Json, command: string, e: string)
    ensures var before, after := GroupsOf(HooksOf(settings), e), GroupsOf(HooksOf(Merge(settings, command).0), e);
      after == if e == "PreToolUse" then Added(before, "Edit|Write", command)
               else if e == "PostToolUse" then Added(Added(before, "Edit|Write", command), "Bash", command)
               else if e == "Stop" then Added(before, "", command)
               else before
  {
    hide AddHook, Added, GroupsOf;
    var w := HOOK_MATCHERS;
    assert w[..4] == w && w[..4][..3] == w[..3] && w[..3][..2] == w[..2] && w[..2][..1] == w[..1] && w[..1][..0] == [];
    var h0 := HooksOf(settings);
    var h1 := AddHook(h0, "PreToolUse", "Edit|Write", command).0;
    var h2 := AddHook(h1, "PostToolUse", "Edit|Write", command).0;
    var h3 := AddHook(h2, "PostToolUse", "Bash", command).0;
    var h4 := AddHook(h3, "Stop", "", command).0;
    assert AddHooks(h0, w[..0], command) == (h0, false);
    assert AddHooks(h0, w[..1], command).0 == h1;
    assert AddHooks(h0, w[..2], command).0 == h2;
    assert AddHooks(h0, w[..3], command).0 == h3;
    assert AddHooks(h0, w[..4], command).0 == h4;
    AddHookByEvent(h0, "PreToolUse", "Edit|Write", command, e);
    AddHookByEvent(h1, "PostToolUse", "Edit|Write", command, e);
    AddHookByEvent(h2, "PostToolUse", "Bash", command, e);
    AddHookByEvent(h3, "Stop", "", command, e);
  }

  /** One of the group's hooks, whichever, is this command. */
  ghost predicate HasHook(group: Json, command: string) {
    && group.Object? && "hooks" in group.fields && group.fields["hooks"].Array?
    && exists hook :: hook in group.fields["hooks"].items
         && hook.Object? && "command" in hook.fields && hook.fields["command"] == String(command)
  }

  lemma RunsIff(group: Json, command: string)
    ensures RunsCommand(group, command) <==> HasHook(group, command)
  {
  }

  ghost predicate SomeGroupRuns(groups: seq<Json>, command: string) {
    exists i :: 0 <= i < |groups| && HasHook(groups[i], command)
  }

  /** Some group runs the command for exactly this matcher. */
  ghost predicate WiredFor(groups: seq<Json>, matcher: string, command: string) {
    exists i :: 0 <= i < |groups| && HasHook(groups[i], command)
      && groups[i].Get("matcher") == Some(String(matcher))
  }

  lemma AddedIsWired(groups: seq<Json>, added: string, command: string, matcher: string)
    ensures WiredFor(Added(groups, added, command), matcher, command)
            <==> WiredFor(groups, matcher, command)
                 || (matcher == added && !AlreadyInstalled(groups, added, command))
  {
    var more := groups + [HookGroup(added, command)];
    NewGroupInstalls(added, command);
    assert HookGroup(added, command).Get("matcher") == Some(String(added));
    RunsIff(HookGroup(added, command), command);
    hide HasHook, RunsCommand, HookGroup;
    assert more[|groups|] == HookGroup(added, command);
    if WiredFor(groups, matcher, command) {
      var i :| 0 <= i < |groups| && HasHook(groups[i], command)
        && groups[i].Get("matcher") == Some(String(matcher));
      assert more[i] == groups[i];
    }
    if WiredFor(more, matcher, command) && matcher != added {
      var i :| 0 <= i < |more| && HasHook(more[i], command) && more[i].Get("matcher") == Some(String(matcher));
      assert i < |groups|;
    }
  }

  /** An event listed for `Edit|Write` alone is left as it is when any of its groups runs the command. */
  lemma NarrowedHookIsRespected(settings: Json, command: string)
    requires SomeGroupRuns(GroupsOf(HooksOf(settings), "PreToolUse"), command)
    ensures GroupsOf(HooksOf(Merge(settings, command).0), "PreToolUse") == GroupsOf(HooksOf(settings), "PreToolUse")
  {
    hide HasHook, RunsCommand, Merge;
    var groups := GroupsOf(HooksOf(settings), "PreToolUse");
    MergeByEvent(settings, command, "PreToolUse");
    var i :| 0 <= i < |groups| && HasHook(groups[i], command);
    RunsIff(groups[i], command);
    assert Installs(groups[i], "Edit|Write", command);
  }

  lemma ExactCheckIsWired(groups: seq<Json>, matcher: string, command: string)
    requires matcher != "Edit|Write"
    ensures AlreadyInstalled(groups, matcher, command) <==> WiredFor(groups, matcher, command)
  {
    hide HasHook, RunsCommand;
    forall i | 0 <= i < |groups| ensures RunsCommand(groups[i], command) <==> HasHook(groups[i], command) {
      RunsIff(groups[i], command);
    }
    if WiredFor(groups, matcher, command) {
      var i :| 0 <= i < |groups| && HasHook(groups[i], command)
        && groups[i].Get("matcher") == Some(String(matcher));
      assert Installs(groups[i], matcher, command);
    }
  }

  /** The two exact matchers are always wired afterwards. */
  lemma ExactMatchersAreWired(settings: Json, command: string)
    ensures var hooks := HooksOf(Merge(settings, command).0);
      WiredFor(GroupsOf(hooks, "PostToolUse"), "Bash", command) && WiredFor(GroupsOf(hooks, "Stop"), "", command)
  {
    hide Merge, HasHook, RunsCommand, HookGroup;
    var post, stop := GroupsOf(HooksOf(settings), "PostToolUse"), GroupsOf(HooksOf(settings), "Stop");
    MergeByEvent(settings, command, "PostToolUse");
    MergeByEvent(settings, command, "Stop");
    assert |"Bash"| != |"Edit|Write"|;
    ExactCheckIsWired(Added(post, "Edit|Write", command), "Bash", command);
    ExactCheckIsWired(stop, "", command);
    AddedIsWired(Added(post, "Edit|Write", command), "Bash", command, "Bash");
    AddedIsWired(stop, "", command, "");
  }

  /** `Edit|Write` is wired on its two events exactly when it was before or no group of the event ran the
      command: a group for another matcher stands in for it. */
  lemma EditWriteIsWiredIff(settings: Json, command: string, event: string)
    requires event == "PreToolUse" || event == "PostToolUse"
    ensures var before := GroupsOf(HooksOf(settings), event);
      WiredFor(GroupsOf(HooksOf(Merge(settings, command).0), event), "Edit|Write", command)
      <==> WiredFor(before, "Edit|Write", command) || !SomeGroupRuns(before, command)
  {
    hide Merge, HasHook, RunsCommand, HookGroup;
    var before := GroupsOf(HooksOf(settings), event);
    MergeByEvent(settings, command, event);
    AddedIsWired(before, "Edit|Write", command, "Edit|Write");
    AddedIsWired(Added(before, "Edit|Write", command), "Bash", command, "Edit|Write");
    LooseCheckIsAnyGroup(before, command);
  }

  lemma LooseCheckIsAnyGroup(groups: seq<Json>, command: string)
    ensures AlreadyInstalled(groups, "Edit|Write", command) <==> SomeGroupRuns(groups, command)
  {
    hide HasHook, RunsCommand;
    forall i | 0 <= i < |groups| ensures RunsCommand(groups[i], command) <==> HasHook(groups[i], command) {
      RunsIff(groups[i], command);
    }
    if SomeGroupRuns(groups, command) {
      var i :| 0 <= i < |groups| && HasHook(groups[i], command);
      assert Installs(groups[i], "Edit|Write", command);
    }
  }

  /** A group with this matcher and one hook, the command, bounded to thirty seconds. */
  predicate IsGuardrail(group: Json, matcher: string, command: string) {
    && group.Object? && group.fields.Keys == {"matcher", "hooks"}
    && group.fields["matcher"] == String(matcher)
    && group.fields["hooks"].Array? && |group.fields["hooks"].items| == 1
    && var hook := group.fields["hooks"].items[0];
       && hook.Object? && hook.fields.Keys == {"type", "command", "timeout", "statusMessage"}
       && hook.fields["type"] == String("command") && hook.fields["command"] == String(command)
       && hook.fields["timeout"] == Integer(30) && hook.fields["statusMessage"] == String("vord guardrail")
  }

  lemma NewGroupIsGuardrail(matcher: string, command: string)
    ensures IsGuardrail(HookGroup(matcher, command), matcher, command)
  {
  }

  /** Settings without hooks get just the four guardrail groups, each on its event. */
  lemma MergeIntoNothing(settings: Json, command: string)
    requires HooksOf(settings) == map[]
    ensures var hooks := HooksOf(Merge(settings, command).0);
      var before, after, stop := GroupsOf(hooks, "PreToolUse"), GroupsOf(hooks, "PostToolUse"), GroupsOf(hooks, "Stop");
      && |before| == 1 && IsGuardrail(before[0], "Edit|Write", command)
      && |after| == 2 && IsGuardrail(after[0], "Edit|Write", command) && IsGuardrail(after[1], "Bash", command)
      && |stop| == 1 && IsGuardrail(stop[0], "", command)
  {
    hide Merge, IsGuardrail;
    MergeByEvent(settings, command, "PreToolUse");
    MergeByEvent(settings, command, "PostToolUse");
    MergeByEvent(settings, command, "Stop");
    NewGroupIsGuardrail("Edit|Write", command);
    NewGroupIsGuardrail("Bash", command);
    NewGroupIsGuardrail("", command);
    assert HookGroup("Edit|Write", command).Get("matcher") == Some(String("Edit|Write"));
    assert |"Edit|Write"| != |"Bash"|;
  }

  /** A file whose `PostToolUse` has only the `Bash` group never gets its writes judged after the fact. */
  lemma BashGroupStandsInForEditWrite(command: string)
    ensures var settings := Object(map["hooks" := Object(map["PostToolUse" := Array([HookGroup("Bash", command)])])]);
      !WiredFor(GroupsOf(HooksOf(Merge(settings, command).0), "PostToolUse"), "Edit|Write", command)
  {
    var groups := [HookGroup("Bash", command)];
    var settings := Object(map["hooks" := Object(map["PostToolUse" := Array(groups)])]);
    NewGroupInstalls("Bash", command);
    assert RunsCommand(groups[0], command);
    RunsIff(groups[0], command);
    assert groups[0].Get("matcher") == Some(String("Bash")) && "Bash" != "Edit|Write" by {
      assert |"Bash"| != |"Edit|Write"|;
    }
    EditWriteIsWiredIff(settings, command, "PostToolUse");
  }

  // ----- the program itself -----

  method MergeHooks(settings: Json, command: string) returns (merged: Json, changed: bool)
    ensures (merged, changed) == Merge(settings, command)
  {
    hide HookGroup, AlreadyInstalled;
    var root := if settings.Object? then settings.fields else map[];
    var hooks := if "hooks" in root && root["hooks"].Object? then root["hooks"].fields else map[];
    ghost var start := hooks;
    changed := false;
    for i := 0 to |HOOK_MATCHERS|
      invariant (hooks, changed) == AddHooks(start, HOOK_MATCHERS[..i], command)
    {
      var (event, matcher) := HOOK_MATCHERS[i];
      assert HOOK_MATCHERS[..i + 1][..i] == HOOK_MATCHERS[..i];
      ghost var before := hooks;
      if event !in hooks || !hooks[event].Array? {
        hooks := hooks[event := Array([])];
      }
      var groups := hooks[event].items;
      assert groups == GroupsOf(before, event);
      if AlreadyInstalled(groups, matcher, command) {
        assert hooks == before[event := Array(groups)];
        continue;
      }
      hooks := hooks[event := Array(groups + [HookGroup(matcher, command)])];
      assert hooks == before[event := Array(groups + [HookGroup(matcher, command)])];
      changed := true;
    }
    assert HOOK_MATCHERS[..|HOOK_MATCHERS|] == HOOK_MATCHERS;
    merged := Object(root["hooks" := Object(hooks)]);
  }
}
