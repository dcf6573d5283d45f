/** What an observer can conclude from the state of the account protocol about what has happened, over every
    interleaving: how a build ended, what was published, which handles are retired. */
module LifecycleFates {
  import opened Wrappers
  import opened History
  import opened Lifecycle

  lemma OneMoreAction(actions: seq<Action>, i: nat)
    requires 0 < i <= |actions|
    ensures actions[..i] == actions[..i - 1] + [actions[i - 1]] && actions[..i][..i - 1] == actions[..i - 1]
  {
  }

  // ---- what a step does to one handle ----------------------------------------------------------------------

  /** A handle after a step: its own tasks move it, a registration or deregistration may raise its flag, a
      deregistration may clear its store; nothing else touches it. */
  function HandleAfter(s: State, a: Action, h: nat): Handle
    requires HasHandle(s, h)
  {
    var handle := s.handles[h];
    if IsBuild(a) && a.h == h then BuildStep(handle, a)
    else if IsPoll(a) && a.h == h then PollStep(handle, a)
    else if a.RegisterStopOld? && s.replaced == Some(h) then Stop(handle)
    else if a.DeregStop? && a.d < |s.deregs| && s.deregs[a.d].handle == h then Stop(handle)
    else if a.DeregClearStore? && a.d < |s.deregs| && s.deregs[a.d].handle == h then handle.(filled := false)
    else handle
  }

  lemma BuildMoves(s: State, a: Action, h: nat)
    requires Enabled(s, a) && HasHandle(s, h) && IsBuild(a)
    ensures |Do(s, a).handles| == |s.handles| && Do(s, a).handles[h] == HandleAfter(s, a, h)
  {
    hide Append, BuildStep;
  }

  lemma PollMoves(s: State, a: Action, h: nat)
    requires Enabled(s, a) && HasHandle(s, h) && IsPoll(a)
    ensures |Do(s, a).handles| == |s.handles| && Do(s, a).handles[h] == HandleAfter(s, a, h)
  {
    hide Append, PollStep;
  }

  lemma OtherMoves(s: State, a: Action, h: nat)
    requires Enabled(s, a) && HasHandle(s, h) && !IsBuild(a) && !IsPoll(a)
    ensures |s.handles| <= |Do(s, a).handles| <= |s.handles| + 1 && Do(s, a).handles[h] == HandleAfter(s, a, h)
  {
    hide Append, Clear, BuildStep, PollStep;
  }

  lemma HandlesMove(s: State, a: Action, h: nat)
    requires Enabled(s, a) && HasHandle(s, h)
    ensures |s.handles| <= |Do(s, a).handles| <= |s.handles| + 1 && Do(s, a).handles[h] == HandleAfter(s, a, h)
  {
    hide Do, Enabled, HandleAfter, IsBuild, IsPoll;
    if IsBuild(a) {
      BuildMoves(s, a, h);
    } else if IsPoll(a) {
      PollMoves(s, a, h);
    } else {
      OtherMoves(s, a, h);
    }
  }

  /** A step makes at most one handle more, of a registration, with everything still to come. */
  lemma NewHandle(s: State, a: Action, h: nat)
    requires Enabled(s, a) && |s.handles| <= h < |Do(s, a).handles|
    ensures h == |s.handles| && a.RegisterClaim?
    ensures Do(s, a).handles[h] == Handle(a.wxid, Indexing, false, false, None, Building, Idle)
    ensures a.wxid in Do(s, a).registry && Do(s, a).registry[a.wxid] == h
  {
    hide Append, Clear, BuildStep, PollStep;
  }

  // ---- how a build ended --------------------------------------------------------------------------------

  /** What the actions so far say of the build of a handle, against where it stands. */
  predicate BuildTold(handle: Handle, failed: bool, installed: bool, told: bool) {
    && handle.status == (if !told then Indexing else if failed then Error else Ready)
    && (told && !failed ==> installed)
    && (handle.build in {Building, Installing} ==> !failed && !told)
    && (handle.build.Built? ==> !told && (failed <==> !handle.build.ok) && (failed || installed || handle.stopped))
    && (handle.build.Guarded? ==> !told && (failed <==> !handle.build.ok) && (failed || installed))
    && (handle.build in {AtBaseline, Locked, Cleared, Published} ==> told && !failed)
  }

  ghost predicate BuildsTold(s: State, actions: seq<Action>) {
    && (forall h: nat :: h < |s.handles| ==>
          BuildTold(s.handles[h], BuildFail(h) in actions, BuildInstall(h) in actions, SetStatus(h) in actions))
    && (forall h: nat :: |s.handles| <= h ==>
          BuildFail(h) !in actions && BuildInstall(h) !in actions && SetStatus(h) !in actions)
  }

  /** What a step leaves of a handle that was there: a build action of its own moves it, anything else may at
      most raise its flag. */
  lemma OwnBuildOrKept(s: State, a: Action, h: nat)
    requires Enabled(s, a) && h < |s.handles|
    ensures h < |Do(s, a).handles| <= |s.handles| + 1
    ensures
      var before, after := s.handles[h], Do(s, a).handles[h];
      if IsBuild(a) && a.h == h then after == BuildStep(before, a)
      else after.status == before.status && after.build == before.build && (before.stopped ==> after.stopped)
  {
    hide Do, Enabled, BuildStep;
    HandlesMove(s, a, h);
  }

  /** A build action finds the build where it belongs. */
  predicate InPlace(handle: Handle, a: Action) {
    match a
    case BuildFail(_) => handle.build == Building
    case BuildCheck(_) => handle.build == Building
    case BuildInstall(_) => handle.build == Installing
    case TaskCheck(_) => handle.build.Built?
    case SetStatus(_) => handle.build.Guarded?
    case BaselineLock(_) => handle.build == AtBaseline
    case BaselineCheck(_) => handle.build == Locked
    case BaselinePublish(_, _) => handle.build == Cleared
    case BaselineUnlock(_) => handle.build == Published
    case _ => false
  }

  lemma BuildInPlace(s: State, a: Action)
    requires Enabled(s, a) && IsBuild(a)
    ensures HasHandle(s, a.h) && InPlace(s.handles[a.h], a)
  {
  }

  lemma BuildStepTold(handle: Handle, a: Action, failed: bool, installed: bool, told: bool)
    requires InPlace(handle, a) && BuildTold(handle, failed, installed, told)
    ensures BuildTold(BuildStep(handle, a), failed || a.BuildFail?, installed || a.BuildInstall?, told || a.SetStatus?)
  {
  }

  lemma ToldFurther(s: State, actions: seq<Action>, a: Action, h: nat)
    requires Enabled(s, a) && h < |s.handles|
    requires BuildTold(s.handles[h], BuildFail(h) in actions, BuildInstall(h) in actions, SetStatus(h) in actions)
    ensures h < |Do(s, a).handles|
    ensures
      var past := actions + [a];
      BuildTold(Do(s, a).handles[h], BuildFail(h) in past, BuildInstall(h) in past, SetStatus(h) in past)
  {
    hide Do, Enabled, BuildStep;
    OwnBuildOrKept(s, a, h);
    if IsBuild(a) && a.h == h {
      BuildInPlace(s, a);
      hide BuildTold, InPlace;
      BuildStepTold(s.handles[h], a, BuildFail(h) in actions, BuildInstall(h) in actions, SetStatus(h) in actions);
    } else {
      assert a != BuildFail(h) && a != BuildInstall(h) && a != SetStatus(h);
    }
  }

  lemma NoActionOfNone(s: State, a: Action, h: nat)
    requires Enabled(s, a) && |s.handles| <= h
    ensures a != BuildFail(h) && a != BuildInstall(h) && a != SetStatus(h)
    ensures |s.handles| <= |Do(s, a).handles| <= |s.handles| + 1
  {
    hide Append, Clear, BuildStep, PollStep;
  }

  lemma BuildsToldStep(s: State, actions: seq<Action>, a: Action)
    requires BuildsTold(s, actions) && Enabled(s, a)
    ensures BuildsTold(Do(s, a), actions + [a])
  {
    hide Do, Enabled, BuildTold;
    var s', past := Do(s, a), actions + [a];
    NoActionOfNone(s, a, |s.handles|);
    forall h: nat | |s'.handles| <= h ensures BuildFail(h) !in past && BuildInstall(h) !in past && SetStatus(h) !in past {
      NoActionOfNone(s, a, h);
    }
    forall h: nat | h < |s'.handles|
      ensures BuildTold(s'.handles[h], BuildFail(h) in past, BuildInstall(h) in past, SetStatus(h) in past)
    {
      if h < |s.handles| {
        ToldFurther(s, actions, a, h);
      } else {
        NewHandle(s, a, h);
        NoActionOfNone(s, a, h);
        NothingToldYet(s'.handles[h]);
      }
    }
  }

  lemma NothingToldYet(handle: Handle)
    requires handle.status == Indexing && handle.build == Building
    ensures BuildTold(handle, false, false, false)
  {
  }

  lemma {:induction false} BuildsAreTold(states: seq<State>, actions: seq<Action>, i: nat)
    requires Run(states, actions) && i < |states|
    ensures BuildsTold(states[i], actions[..i])
  {
    hide Do, Enabled;
    if i > 0 {
      BuildsAreTold(states, actions, i - 1);
      OneMoreAction(actions, i);
      assert Takes(states[i - 1], actions[i - 1], states[i]);
      hide BuildsTold;
      BuildsToldStep(states[i - 1], actions[..i - 1], actions[i - 1]);
    }
  }

  /** The status of a handle tells how its build went: indexing until it is set, then an error if the build
      failed, and ready only if it did not and its index was installed. */
  lemma StatusTellsTheBuild(states: seq<State>, actions: seq<Action>, i: nat, h: nat)
    requires Run(states, actions) && i < |states| && HasHandle(states[i], h)
    ensures
      var status, past := states[i].handles[h].status, actions[..i];
      && (status == Indexing <==> SetStatus(h) !in past)
      && (status == Error <==> SetStatus(h) in past && BuildFail(h) in past)
      && (status == Ready <==> SetStatus(h) in past && BuildFail(h) !in past)
      && (status == Ready ==> BuildInstall(h) in past)
  {
    BuildsAreTold(states, actions, i);
    assert BuildTold(states[i].handles[h], BuildFail(h) in actions[..i], BuildInstall(h) in actions[..i], SetStatus(h) in actions[..i]);
  }

  // ---- what the store holds ------------------------------------------------------------------------------

  /** Whether the store of a handle holds something after a step: its build fills it by installing, its poll
      by applying or reloading; a deregistration clears it. */
  function FilledAfter(s: State, a: Action, h: nat, before: bool): bool {
    match a
    case BuildInstall(k) => k == h || before
    case PollUnlock(k) => k == h || before
    case ReloadWrite(k) => k == h || before
    case DeregClearStore(d) => !(d < |s.deregs| && s.deregs[d].handle == h) && before
    case _ => before
  }

  /** Whoever touched the store of a handle last filled it. */
  ghost function FilledLast(states: seq<State>, actions: seq<Action>, i: nat, h: nat): bool
    requires i <= |actions| < |states|
  {
    i > 0 && FilledAfter(states[i - 1], actions[i - 1], h, FilledLast(states, actions, i - 1, h))
  }

  lemma FilledOfHandle(s: State, a: Action, h: nat)
    requires HasHandle(s, h)
    ensures HandleAfter(s, a, h).filled == FilledAfter(s, a, h, s.handles[h].filled)
  {
  }

  lemma FilledStep(s: State, a: Action, h: nat)
    requires Enabled(s, a) && h < |Do(s, a).handles|
    ensures Do(s, a).handles[h].filled == FilledAfter(s, a, h, h < |s.handles| && s.handles[h].filled)
  {
    hide Do, Enabled, HandleAfter;
    if h < |s.handles| {
      hide FilledAfter;
      HandlesMove(s, a, h);
      FilledOfHandle(s, a, h);
    } else {
      NewHandle(s, a, h);
    }
  }

  /** A store holds something exactly if the last to touch it filled it; a new handle's holds nothing. */
  lemma {:induction false} StoreTellsWhoTouchedIt(states: seq<State>, actions: seq<Action>, i: nat, h: nat)
    requires Run(states, actions) && i < |states|
    ensures HasHandle(states[i], h) ==> (states[i].handles[h].filled <==> FilledLast(states, actions, i, h))
    ensures !HasHandle(states[i], h) ==> !FilledLast(states, actions, i, h)
  {
    hide Do;
    if i > 0 {
      StoreTellsWhoTouchedIt(states, actions, i - 1, h);
      var s, a := states[i - 1], actions[i - 1];
      assert Takes(s, a, states[i]);
      assert a.DeregClearStore? ==> a.d < |s.deregs|;
      NoFillOfNone(s, a, h);
      hide Enabled;
      if HasHandle(states[i], h) {
        FilledStep(s, a, h);
      }
    }
  }

  lemma NoFillOfNone(s: State, a: Action, h: nat)
    requires Enabled(s, a)
    ensures |s.handles| <= |Do(s, a).handles|
    ensures |s.handles| <= h ==> a != BuildInstall(h) && a != PollUnlock(h) && a != ReloadWrite(h)
  {
    hide Append, Clear, BuildStep, PollStep;
  }

  // ---- build and poll exclude each other -----------------------------------------------------------------

  predicate OneAtATime(handle: Handle) {
    handle.poll != Idle ==> handle.build !in {Building, Installing}
  }

  lemma OneAtATimeStep(s: State, a: Action, h: nat)
    requires Enabled(s, a) && h < |Do(s, a).handles|
    requires h < |s.handles| ==> OneAtATime(s.handles[h])
    ensures OneAtATime(Do(s, a).handles[h])
  {
    if h < |s.handles| {
      HandlesMove(s, a, h);
    } else {
      NewHandle(s, a, h);
    }
    hide Do;
  }

  /** In every interleaving no poll of a handle is under way while its build reads or installs. */
  lemma {:induction false} BuildAndPollExclude(states: seq<State>, actions: seq<Action>, i: nat, h: nat)
    requires Run(states, actions) && i < |states| && HasHandle(states[i], h)
    ensures states[i].handles[h].poll != Idle ==> states[i].handles[h].build !in {Building, Installing}
  {
    hide Do, Enabled;
    if i > 0 {
      if HasHandle(states[i - 1], h) {
        BuildAndPollExclude(states, actions, i - 1, h);
      }
      assert Takes(states[i - 1], actions[i - 1], states[i]);
      OneAtATimeStep(states[i - 1], actions[i - 1], h);
    }
  }

  // ---- what was published -----------------------------------------------------------------------------------

  /** The events of a run: a build publishes its baseline, a poll what it applied, a deregistration its reset. */
  function Announcements(actions: seq<Action>): seq<Origin> {
    if actions == [] then []
    else
      var rest := Announcements(actions[..|actions| - 1]);
      match actions[|actions| - 1]
      case BaselinePublish(h, _) => rest + [Own(h)]
      case PollPublish(h, _) => rest + [Own(h)]
      case DeregPublish(d, _) => rest + [Reset(d)]
      case _ => rest
  }

  function Bumps(actions: seq<Action>): nat {
    if actions == [] then 0
    else Bumps(actions[..|actions| - 1]) + if actions[|actions| - 1].DeregBump? then 1 else 0
  }

  lemma LogStep(s: State, a: Action)
    requires Enabled(s, a)
    ensures
      Do(s, a).log
      == match a
         case BaselinePublish(h, _) => s.log + [Own(h)]
         case PollPublish(h, _) => s.log + [Own(h)]
         case DeregPublish(d, _) => s.log + [Reset(d)]
         case _ => s.log
    ensures Do(s, a).generation == s.generation + if a.DeregBump? then 1 else 0
  {
    hide Append, Clear, BuildStep, PollStep;
  }

  lemma OneMoreAnnounced(s: State, actions: seq<Action>, a: Action)
    requires Enabled(s, a) && s.log == Announcements(actions) && s.generation == 1 + Bumps(actions)
    ensures Do(s, a).log == Announcements(actions + [a]) && Do(s, a).generation == 1 + Bumps(actions + [a])
  {
    LogStep(s, a);
    hide Do, Enabled;
    assert (actions + [a])[..|actions|] == actions;
  }

  lemma NothingAnnounced()
    ensures INIT.log == Announcements([]) && INIT.generation == 1 + Bumps([])
  {
  }

  /** The bus carries exactly these events, in this order, whatever is cleared; and the generation counts the
      deregistrations that moved it on. */
  lemma {:induction false} LogTellsTheRun(states: seq<State>, actions: seq<Action>, i: nat)
    requires Run(states, actions) && i < |states|
    ensures states[i].log == Announcements(actions[..i])
    ensures states[i].generation == 1 + Bumps(actions[..i])
  {
    hide Do, Enabled, Announcements, Bumps;
    if i == 0 {
      assert actions[..0] == [];
      NothingAnnounced();
    } else {
      LogTellsTheRun(states, actions, i - 1);
      OneMoreAction(actions, i);
      assert Takes(states[i - 1], actions[i - 1], states[i]);
      OneMoreAnnounced(states[i - 1], actions[..i - 1], actions[i - 1]);
    }
  }

  // ---- which handles are retired ---------------------------------------------------------------------------

  /** A handle that is not retired is the bound one, or about to be retired by whoever unbound it. */
  ghost predicate Accounted(s: State, h: nat)
    requires h < |s.handles|
  {
    || s.handles[h].stopped
    || (exists w :: w in s.registry && s.registry[w] == h)
    || s.replaced == Some(h)
    || (exists d :: 0 <= d < |s.deregs| && s.deregs[d] == Dereg(h, Claimed))
  }

  lemma AccountedStep(s: State, a: Action, h: nat)
    requires Inv(s) && Enabled(s, a) && h < |Do(s, a).handles|
    requires h < |s.handles| ==> Accounted(s, h)
    ensures Accounted(Do(s, a), h)
  {
    assert RegistryOk(s);
    hide Inv, RegistryOk, Do, Enabled;
    if h >= |s.handles| {
      NewIsAccounted(s, a, h);
    } else if s.handles[h].stopped {
      StoppedStays(s, a, h);
    } else if exists w :: w in s.registry && s.registry[w] == h {
      var w :| w in s.registry && s.registry[w] == h;
      BoundStep(s, a, w);
    } else {
      UnboundStep(s, a, h);
    }
  }

  lemma NewIsAccounted(s: State, a: Action, h: nat)
    requires Enabled(s, a) && |s.handles| <= h < |Do(s, a).handles|
    ensures Accounted(Do(s, a), h)
  {
    hide Do, Enabled;
    NewHandle(s, a, h);
  }

  lemma StoppedStays(s: State, a: Action, h: nat)
    requires Enabled(s, a) && h < |s.handles| && s.handles[h].stopped
    ensures h < |Do(s, a).handles| && Do(s, a).handles[h].stopped
  {
    hide Do, Enabled;
    HandlesMove(s, a, h);
  }

  lemma ReplacedStays(s: State, a: Action)
    requires Enabled(s, a) && s.replaced.Some? && !a.RegisterStopOld?
    ensures Do(s, a).replaced == s.replaced
  {
    hide Append, Clear, BuildStep, PollStep;
  }

  lemma ClaimStays(s: State, a: Action, d: nat)
    requires Enabled(s, a) && d < |s.deregs| && s.deregs[d].pc == Claimed && a != DeregStop(d)
    ensures d < |Do(s, a).deregs| && Do(s, a).deregs[d] == s.deregs[d]
  {
    hide Append, Clear, BuildStep, PollStep;
  }

  lemma UnboundStep(s: State, a: Action, h: nat)
    requires Enabled(s, a) && h < |s.handles|
    requires s.replaced == Some(h) || exists d :: 0 <= d < |s.deregs| && s.deregs[d] == Dereg(h, Claimed)
    ensures h < |Do(s, a).handles| && Accounted(Do(s, a), h)
  {
    hide Do, Enabled, BuildStep, PollStep;
    HandlesMove(s, a, h);
    if s.replaced == Some(h) {
      if !a.RegisterStopOld? {
        ReplacedStays(s, a);
      }
    } else {
      var d :| 0 <= d < |s.deregs| && s.deregs[d] == Dereg(h, Claimed);
      if a != DeregStop(d) {
        ClaimStays(s, a, d);
      }
    }
  }

  lemma BoundStep(s: State, a: Action, w: string)
    requires RegistryOk(s) && Enabled(s, a) && w in s.registry
    ensures s.registry[w] < |Do(s, a).handles| && Accounted(Do(s, a), s.registry[w])
  {
    hide Append, Clear, BuildStep, PollStep;
    var s', h := Do(s, a), s.registry[w];
    if a.DeregClaim? && s' != s {
      assert s'.deregs[|s.deregs|] == Dereg(s.registry[a.wxid], Claimed);
    } else if a.RegisterClaim? && s' != s {
      assert Incumbent(s) == a.wxid;
    } else {
      assert w in s'.registry && s'.registry[w] == h;
    }
  }

  /** Every handle that is no longer bound is retired, or its unbinding is still under way. */
  lemma {:induction false} UnboundIsRetired(states: seq<State>, actions: seq<Action>, i: nat, h: nat)
    requires Run(states, actions) && i < |states| && h < |states[i].handles|
    ensures Accounted(states[i], h)
  {
    hide Do, Enabled, Accounted;
    if i > 0 {
      EveryStateIsSound(states, actions, i - 1);
      if h < |states[i - 1].handles| {
        UnboundIsRetired(states, actions, i - 1, h);
      }
      assert Takes(states[i - 1], actions[i - 1], states[i]);
      AccountedStep(states[i - 1], actions[i - 1], h);
    }
  }
}
