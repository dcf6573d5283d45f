/** What the account protocol is for, over every interleaving: no event of a retired account after its
    reset, one live binding, conflicts without effect. */
module LifecycleRuns {
  import opened History
  import opened Lifecycle

  /** In every interleaving, once a deregistration has published its reset baseline, that event stands on
      the bus at its id, every event the handle's own tasks ever published has a smaller id, and the
      replay buffer holds none of them, then or in any later state. */
  lemma OwnEventsPrecedeTheReset(states: seq<State>, actions: seq<Action>, i: nat, j: nat, d: nat)
    requires Run(states, actions) && i <= j < |states|
    requires d < |states[i].deregs| && states[i].deregs[d].pc.Finished?
    ensures
      var h, reset := states[i].deregs[d].handle, states[i].deregs[d].pc.reset;
      && 1 <= reset <= |states[j].log| && states[j].log[reset - 1] == Reset(d)
      && (forall k :: 0 <= k < |states[j].log| && states[j].log[k] == Own(h) ==> k + 1 < reset)
      && (forall k :: 0 <= k < |states[j].buffer.items| ==> states[j].buffer.items[k].event != Own(h))
  {
    EveryStateIsSound(states, actions, j);
    FinishedStays(states, actions, i, j, d);
    assert DeregOk(states[j], d);
  }

  lemma {:induction false} FinishedStays(states: seq<State>, actions: seq<Action>, i: nat, j: nat, d: nat)
    requires Run(states, actions) && i <= j < |states|
    requires d < |states[i].deregs| && states[i].deregs[d].pc.Finished?
    ensures d < |states[j].deregs| && states[j].deregs[d] == states[i].deregs[d]
  {
    if i < j {
      FinishedStays(states, actions, i, j - 1, d);
      assert Takes(states[j - 1], actions[j - 1], states[j]);
      FinishedStep(states[j - 1], actions[j - 1], d);
    }
  }

  lemma FinishedStep(s: State, a: Action, d: nat)
    requires Enabled(s, a) && d < |s.deregs| && s.deregs[d].pc.Finished?
    ensures d < |Do(s, a).deregs| && Do(s, a).deregs[d] == s.deregs[d]
  {
    if IsBuild(a) {
    } else if IsPoll(a) {
    } else {
      match a
      case RegisterClaim(wxid) => assert Register(s, wxid).deregs == s.deregs;
      case DeregClaim(wxid) => assert s.deregs <= Unregister(s, wxid).deregs;
      case _ =>
    }
  }

  /** Already from the clearing of the history on, the replay buffer stays free of the handle's events. */
  lemma ClearedHistoryStaysClear(states: seq<State>, actions: seq<Action>, i: nat, d: nat)
    requires Run(states, actions) && i < |states|
    requires d < |states[i].deregs| && Rank(states[i].deregs[d].pc) >= 3
    ensures NotBuffered(states[i], states[i].deregs[d].handle)
  {
    EveryStateIsSound(states, actions, i);
    assert DeregOk(states[i], d);
  }

  /** In every state the registry holds at most one handle, under its own account and not retired. */
  lemma AtMostOneLiveBinding(states: seq<State>, actions: seq<Action>, i: nat, w: string, v: string)
    requires Run(states, actions) && i < |states|
    requires w in states[i].registry && v in states[i].registry
    ensures w == v
    ensures
      var h := states[i].registry[w];
      h < |states[i].handles| && states[i].handles[h].wxid == w && !states[i].handles[h].stopped
  {
    EveryStateIsSound(states, actions, i);
  }

  /** A registration that does not bind, or a deregistration that does not remove, changes nothing at
      all; and each takes effect exactly when the binding allows it. */
  lemma ConflictsTouchNothing(states: seq<State>, actions: seq<Action>, i: nat, wxid: string)
    requires Run(states, actions) && i < |states|
    ensures
      var s := states[i];
      && (forall w :: w in s.registry ==> s.registry[w] < |s.handles|)
      && (Register(s, wxid) != s <==> forall w :: w in s.registry ==> w == wxid && s.handles[s.registry[w]].status == Error)
      && (Unregister(s, wxid) != s <==> wxid in s.registry)
  {
    EveryStateIsSound(states, actions, i);
    var s := states[i];
    assert |Register(s, wxid).handles| == |s.handles| || |Register(s, wxid).handles| == |s.handles| + 1;
    if s.registry != map[] {
      assert Incumbent(s) in s.registry;
    }
  }

  /** The handle is retired after the step too, outside its publishing section, and the step was not one
      of its publishes. */
  ghost predicate SilentStep(s: State, s': State, h: nat) {
    && HasHandle(s', h) && s'.handles[h].stopped && !MayPublish(s'.handles[h])
    && s.log <= s'.log && forall k :: |s.log| <= k < |s'.log| ==> s'.log[k] != Own(h)
  }

  lemma RetiredBuildStep(s: State, a: Action, h: nat)
    requires Enabled(s, a) && HasHandle(s, h) && s.handles[h].stopped && !MayPublish(s.handles[h]) && IsBuild(a)
    ensures SilentStep(s, Do(s, a), h)
  {
    hide Append;
    assert a.BaselinePublish? ==> a.h != h;
  }

  lemma RetiredPollStep(s: State, a: Action, h: nat)
    requires Enabled(s, a) && HasHandle(s, h) && s.handles[h].stopped && !MayPublish(s.handles[h]) && IsPoll(a)
    ensures SilentStep(s, Do(s, a), h)
  {
    hide Append;
    assert a.PollPublish? ==> a.h != h;
  }

  lemma RetiredStep(s: State, a: Action, h: nat)
    requires Enabled(s, a) && HasHandle(s, h) && s.handles[h].stopped && !MayPublish(s.handles[h])
    ensures SilentStep(s, Do(s, a), h)
  {
    if IsBuild(a) {
      RetiredBuildStep(s, a, h);
    } else if IsPoll(a) {
      RetiredPollStep(s, a, h);
    } else {
      match a
      case RegisterClaim(wxid) => assert Register(s, wxid).log == s.log && s.handles <= Register(s, wxid).handles;
      case DeregClaim(wxid) => assert Unregister(s, wxid).log == s.log;
      case _ =>
    }
  }

  /** A retired handle outside its publishing section never publishes again: the flag never falls. */
  lemma {:induction false} RetiredStaysSilent(states: seq<State>, actions: seq<Action>, i: nat, j: nat, h: nat)
    requires Run(states, actions) && i <= j < |states|
    requires HasHandle(states[i], h) && states[i].handles[h].stopped && !MayPublish(states[i].handles[h])
    ensures HasHandle(states[j], h) && states[j].handles[h].stopped && !MayPublish(states[j].handles[h])
    ensures states[i].log <= states[j].log && forall k :: |states[i].log| <= k < |states[j].log| ==> states[j].log[k] != Own(h)
  {
    hide Do, Enabled;
    if i < j {
      RetiredStaysSilent(states, actions, i, j - 1, h);
      assert Takes(states[j - 1], actions[j - 1], states[j]);
      RetiredStep(states[j - 1], actions[j - 1], h);
    }
  }
}
