/** `register_account` and `deregister_account` (`src/server/mod.rs`) as straight-line methods, each
    proved to be one uninterrupted pass through the protocol's actions. */
module AppStates {
  import opened Wrappers
  import opened History
  import opened Lifecycle

  datatype BindOutcome = Bound(handle: nat) | Existing(handle: nat) | Occupied(wxid: string, status: Status)

  datatype DeregisterOutcome =
    | Deregistered(previous: Status, indexCleared: bool)
    | NotRegistered
    | WxidMismatch(occupiedBy: string, status: Status)

  /** The actions lead from one state to the other, one after the other. */
  ghost predicate Reached(s: State, actions: seq<Action>, s': State) {
    if actions == [] then s' == s
    else
      var before, last := actions[..|actions| - 1], actions[|actions| - 1];
      exists mid :: Reached(s, before, mid) && Enabled(mid, last) && s' == Do(mid, last)
  }

  lemma ReachedFurther(s: State, actions: seq<Action>, mid: State, a: Action)
    requires Reached(s, actions, mid) && Enabled(mid, a)
    ensures Reached(s, actions + [a], Do(mid, a))
  {
    var all := actions + [a];
    assert all[..|all| - 1] == actions;
  }

  lemma ReachedInNoStep(s: State)
    ensures Reached(s, [], s)
  {
  }

  lemma BoundHandlesExist(s: State)
    requires Inv(s)
    ensures forall v, w :: v in s.registry && w in s.registry ==> v == w
    ensures forall w :: w in s.registry ==> HasHandle(s, s.registry[w])
    ensures s.replaced.Some? ==> HasHandle(s, s.replaced.value)
  {
  }

  class AppState {
    var registry: map<string, nat>
    var replaced: Option<nat>
    var handles: seq<Handle>
    var deregs: seq<Dereg>
    var history: Buffer<Origin>
    var log: seq<Origin>
    var generation: nat
    ghost var clock: nat

    ghost function Value(): State
      reads this
    {
      State(registry, replaced, handles, deregs, history, log, clock, generation)
    }

    /** Nobody else is inside a critical section. */
    ghost predicate Quiet()
      reads this
    {
      Inv(Value()) && replaced == None && forall h :: 0 <= h < |handles| ==> handles[h].lock == None
    }

    constructor ()
      ensures Value() == INIT && Quiet()
    {
      registry, replaced, handles, deregs := map[], None, [], [];
      history, log, generation, clock := Buffer([], 0), [], 1, 0;
    }

    /** The object is what the actions made of the start. */
    ghost predicate Follows(start: State, actions: seq<Action>)
      reads this
    {
      Inv(Value()) && Reached(start, actions, Value())
    }

    // ---- the critical sections, one by one ----------------------------------------------

    method Bind(wxid: string, ghost start: State, ghost actions: seq<Action>) returns (h: nat)
      requires Follows(start, actions) && replaced == None && !Conflicts(Value(), wxid)
      modifies this
      ensures Follows(start, actions + [RegisterClaim(wxid)])
      ensures h == old(|handles|) && registry == old(registry)[wxid := h]
      ensures handles == old(handles) + [Handle(wxid, Indexing, false, false, None, Building, Idle)]
      ensures unchanged(`deregs, `history, `log, `generation, `clock)
      ensures replaced == if wxid in old(registry) then Some(old(registry[wxid])) else None
    {
      hide Inv, Reached;
      ghost var a := RegisterClaim(wxid);
      DoKeepsInv(Value(), a);
      ReachedFurther(start, actions, Value(), a);
      h := |handles|;
      replaced := if wxid in registry then Some(registry[wxid]) else None;
      registry := registry[wxid := h];
      handles := handles + [Handle(wxid, Indexing, false, false, None, Building, Idle)];
    }

    method StopOld(ghost start: State, ghost actions: seq<Action>)
      requires Follows(start, actions) && replaced.Some?
      modifies this
      ensures Follows(start, actions + [RegisterStopOld])
      ensures replaced == None && old(replaced.value) < old(|handles|)
      ensures handles == old(handles)[old(replaced.value) := Stop(old(handles[replaced.value]))]
      ensures unchanged(`registry, `deregs, `history, `log, `generation, `clock)
    {
      hide Inv, Reached;
      BoundHandlesExist(Value());
      DoKeepsInv(Value(), RegisterStopOld);
      ReachedFurther(start, actions, Value(), RegisterStopOld);
      handles := handles[replaced.value := Stop(handles[replaced.value])];
      replaced := None;
    }

    method Claim(wxid: string, ghost start: State, ghost actions: seq<Action>) returns (d: nat)
      requires Follows(start, actions) && replaced == None && wxid in registry && Incumbent(Value()) == wxid
      modifies this
      ensures Follows(start, actions + [DeregClaim(wxid)])
      ensures d == old(|deregs|) && DeregAt(Value(), d, Claimed) && deregs[d].handle == old(registry[wxid])
      ensures registry == map[] && unchanged(`replaced, `handles, `history, `log, `generation, `clock)
    {
      hide Inv, Reached;
      BoundHandlesExist(Value());
      ghost var a := DeregClaim(wxid);
      DoKeepsInv(Value(), a);
      ReachedFurther(start, actions, Value(), a);
      d := |deregs|;
      deregs := deregs + [Dereg(registry[wxid], Claimed)];
      registry := registry - {wxid};
    }

    method RaiseFlag(d: nat, ghost start: State, ghost actions: seq<Action>)
      requires Follows(start, actions) && DeregAt(Value(), d, Claimed)
      modifies this
      ensures Follows(start, actions + [DeregStop(d)])
      ensures DeregAt(Value(), d, FlagUp) && deregs[d].handle == old(deregs[d].handle)
      ensures handles == old(handles)[deregs[d].handle := Stop(old(handles[deregs[d].handle]))]
      ensures unchanged(`registry, `replaced, `history, `log, `generation, `clock)
    {
      hide Inv, Reached;
      ghost var a := DeregStop(d);
      DoKeepsInv(Value(), a);
      ReachedFurther(start, actions, Value(), a);
      var h := deregs[d].handle;
      handles := handles[h := Stop(handles[h])];
      deregs := deregs[d := Dereg(h, FlagUp)];
    }

    method ClearStore(d: nat, ghost start: State, ghost actions: seq<Action>) returns (indexCleared: bool)
      requires Follows(start, actions) && DeregAt(Value(), d, FlagUp) && Free(Value(), deregs[d].handle)
      modifies this
      ensures Follows(start, actions + [DeregClearStore(d)])
      ensures deregs == old(deregs)[d := Dereg(old(deregs[d].handle), StoreCleared)]
      ensures indexCleared == old(handles[deregs[d].handle].filled)
      ensures
        var h := deregs[d].handle;
        handles == old(handles)[h := old(handles)[h].(filled := false)]
      ensures unchanged(`registry, `replaced, `history, `log, `generation, `clock)
    {
      hide Inv, Reached;
      ghost var a := DeregClearStore(d);
      DoKeepsInv(Value(), a);
      ReachedFurther(start, actions, Value(), a);
      var h := deregs[d].handle;
      indexCleared := handles[h].filled;
      handles := handles[h := handles[h].(filled := false)];
      deregs := deregs[d := Dereg(h, StoreCleared)];
    }

    method ClearHistory(d: nat, ghost start: State, ghost actions: seq<Action>)
      requires Follows(start, actions) && DeregAt(Value(), d, StoreCleared)
      modifies this
      ensures Follows(start, actions + [DeregClearHistory(d)])
      ensures deregs == old(deregs)[d := Dereg(old(deregs[d].handle), HistoryCleared)]
      ensures history == Clear(old(history)) && unchanged(`registry, `replaced, `handles, `log, `generation, `clock)
    {
      hide Inv, Reached;
      ghost var a := DeregClearHistory(d);
      DoKeepsInv(Value(), a);
      ReachedFurther(start, actions, Value(), a);
      history := Clear(history);
      deregs := deregs[d := Dereg(deregs[d].handle, HistoryCleared)];
    }

    method BumpGeneration(d: nat, ghost start: State, ghost actions: seq<Action>)
      requires Follows(start, actions) && DeregAt(Value(), d, HistoryCleared)
      modifies this
      ensures Follows(start, actions + [DeregBump(d)])
      ensures deregs == old(deregs)[d := Dereg(old(deregs[d].handle), Bumped)]
      ensures generation == old(generation) + 1 && unchanged(`registry, `replaced, `handles, `history, `log, `clock)
    {
      hide Inv, Reached;
      ghost var a := DeregBump(d);
      DeregBumpKeepsInv(Value(), d);
      ReachedFurther(start, actions, Value(), a);
      generation := generation + 1;
      deregs := deregs[d := Dereg(deregs[d].handle, Bumped)];
    }

    method PublishReset(d: nat, now: nat, ghost start: State, ghost actions: seq<Action>)
      requires Follows(start, actions) && DeregAt(Value(), d, Bumped) && clock <= now
      modifies this
      ensures Follows(start, actions + [DeregPublish(d, now)])
      ensures history == Append(old(history), Reset(d), now) && log == old(log) + [Reset(d)]
      ensures unchanged(`registry, `replaced, `handles, `generation)
    {
      hide Inv, Reached;
      ghost var a := DeregPublish(d, now);
      DoKeepsInv(Value(), a);
      ReachedFurther(start, actions, Value(), a);
      history := Append(history, Reset(d), now);
      deregs := deregs[d := Dereg(deregs[d].handle, Finished(|log| + 1))];
      log, clock := log + [Reset(d)], now;
    }

    // ---- the two operations ----------------------------------------------------------------

    /** Looks at the binding: who holds it, and does it stand in the way of this account? */
    method Look(wxid: string) returns (outcome: Option<BindOutcome>)
      requires Quiet()
      ensures outcome.None? <==> !Conflicts(Value(), wxid)
      ensures outcome.Some? ==> !outcome.value.Bound?
      ensures outcome.Some? && outcome.value.Occupied? <==> exists w :: w in registry && w != wxid
      ensures forall w :: w in registry ==> registry[w] < |handles|
      ensures outcome.Some? && outcome.value.Existing? <==> wxid in registry && handles[registry[wxid]].status != Error
      ensures outcome.Some? && outcome.value.Existing? ==> wxid in registry && outcome.value.handle == registry[wxid]
      ensures outcome.Some? && outcome.value.Occupied? ==>
                && outcome.value.wxid in registry && outcome.value.wxid != wxid
                && handles[registry[outcome.value.wxid]].status == outcome.value.status
    {
      if registry == map[] {
        return None;
      }
      var incumbent :| incumbent in registry;
      assert incumbent == Incumbent(Value());
      if incumbent != wxid {
        return Some(Occupied(incumbent, handles[registry[incumbent]].status));
      }
      return if handles[registry[wxid]].status != Error then Some(Existing(registry[wxid])) else None;
    }

    /** Claims the single binding: another account keeps it, a healthy handle of the same account is
        returned as it is, a failed one gives way to the new handle and is retired. */
    method RegisterAccount(wxid: string) returns (outcome: BindOutcome)
      requires Quiet()
      modifies this
      ensures
        if outcome.Bound? then
          Follows(old(Value()), if wxid in old(registry) then [RegisterClaim(wxid), RegisterStopOld] else [RegisterClaim(wxid)])
        else Value() == old(Value())
      ensures outcome.Bound? ==>
                && registry == old(registry)[wxid := outcome.handle] && replaced == None
                && outcome.handle == old(|handles|) && |handles| == old(|handles|) + 1
                && handles[outcome.handle] == Handle(wxid, Indexing, false, false, None, Building, Idle)
                && (forall h :: 0 <= h < old(|handles|) ==>
                      handles[h] == if wxid in old(registry) && old(registry[wxid]) == h then old(handles[h]).(stopped := true)
                                    else old(handles[h]))
      ensures outcome.Occupied? <==> exists w :: w in old(registry) && w != wxid
      ensures outcome.Occupied? ==>
                outcome.wxid in registry && outcome.wxid != wxid && handles[registry[outcome.wxid]].status == outcome.status
      ensures outcome.Existing? <==>
                wxid in old(registry) && old(registry[wxid]) < old(|handles|) && old(handles[registry[wxid]]).status != Error
      ensures outcome.Existing? ==> outcome.handle == old(registry)[wxid]
    {
      hide Inv, Do, Enabled, Reached;
      var refusal := Look(wxid);
      if refusal.Some? {
        return refusal.value;
      }
      ghost var start := Value();
      ReachedInNoStep(start);
      assert Follows(start, []);
      var h := Bind(wxid, start, []);
      assert [] + [RegisterClaim(wxid)] == [RegisterClaim(wxid)];
      if replaced.Some? {
        StopOld(start, [RegisterClaim(wxid)]);
        assert [RegisterClaim(wxid)] + [RegisterStopOld] == [RegisterClaim(wxid), RegisterStopOld];
      }
      outcome := Bound(h);
    }

    /** Takes the bound account out of the registry, raises its flag, clears its store, then the replay
        history, moves the generation on and publishes the reset baseline, in this order. */
    method DeregisterAccount(wxid: string, now: nat) returns (outcome: DeregisterOutcome)
      requires Quiet() && clock <= now
      modifies this
      ensures outcome.Deregistered? <==> wxid in old(registry)
      ensures outcome.NotRegistered? <==> old(registry) == map[]
      ensures outcome.Deregistered? ==>
                var h := old(registry[wxid]);
                && h < old(|handles|)
                && outcome.previous == old(handles)[h].status && outcome.indexCleared == old(handles)[h].filled
                && handles == old(handles)[h := old(handles)[h].(stopped := true, filled := false)]
                && log == old(log) + [Reset(|old(deregs)|)]
      ensures
        if outcome.Deregistered? then Follows(old(Value()), TearDownActions(wxid, |old(deregs)|, now))
        else Value() == old(Value())
      ensures outcome.WxidMismatch? ==>
                && outcome.occupiedBy in registry && outcome.occupiedBy != wxid
                && handles[registry[outcome.occupiedBy]].status == outcome.status
      ensures outcome.Deregistered? ==>
                && registry == map[] && generation == old(generation) + 1
                && history.items == [Item(old(history.lastId) + 1, now, Reset(|old(deregs)|))]
    {
      if registry == map[] {
        return NotRegistered;
      }
      var bound :| bound in registry;
      assert bound == Incumbent(Value());
      if bound != wxid {
        return WxidMismatch(bound, handles[registry[bound]].status);
      }
      var previous := handles[registry[wxid]].status;
      hide Inv, Do, Enabled, Reached;
      var indexCleared := TearDown(wxid, now);
      outcome := Deregistered(previous, indexCleared);
    }

    method TearDown(wxid: string, now: nat) returns (indexCleared: bool)
      requires Quiet() && clock <= now && wxid in registry && Incumbent(Value()) == wxid
      modifies this
      ensures Follows(old(Value()), TearDownActions(wxid, |old(deregs)|, now))
      ensures registry == map[] && generation == old(generation) + 1
      ensures history == Append(Clear(old(history)), Reset(|old(deregs)|), now) && log == old(log) + [Reset(|old(deregs)|)]
      ensures
        var h := old(registry[wxid]);
        && h < old(|handles|) && indexCleared == old(handles)[h].filled
        && handles == old(handles)[h := old(handles)[h].(stopped := true, filled := false)]
    {
      hide Inv, Do, Enabled, Reached;
      ghost var start := Value();
      var d := Detach(wxid);
      indexCleared := ClearStore(d, start, [DeregClaim(wxid), DeregStop(d)]);
      Announce(d, now, start, [DeregClaim(wxid), DeregStop(d)] + [DeregClearStore(d)]);
      assert [DeregClaim(wxid), DeregStop(d)] + [DeregClearStore(d)] + [DeregClearHistory(d), DeregBump(d), DeregPublish(d, now)]
          == TearDownActions(wxid, d, now);
    }

    method Detach(wxid: string) returns (d: nat)
      requires Quiet() && wxid in registry && Incumbent(Value()) == wxid
      modifies this
      ensures d == old(|deregs|) && Follows(old(Value()), [DeregClaim(wxid), DeregStop(d)])
      ensures DeregAt(Value(), d, FlagUp) && Free(Value(), deregs[d].handle)
      ensures registry == map[] && unchanged(`replaced, `history, `log, `generation, `clock)
      ensures
        var h := old(registry[wxid]);
        && deregs[d].handle == h < old(|handles|) && handles == old(handles)[h := Stop(old(handles)[h])]
    {
      ghost var start := Value();
      hide Inv, Do, Enabled, Reached;
      ReachedInNoStep(start);
      assert Follows(start, []);
      d := Claim(wxid, start, []);
      assert [] + [DeregClaim(wxid)] == [DeregClaim(wxid)];
      RaiseFlag(d, start, [DeregClaim(wxid)]);
      assert [DeregClaim(wxid)] + [DeregStop(d)] == [DeregClaim(wxid), DeregStop(d)];
    }

    method Announce(d: nat, now: nat, ghost start: State, ghost actions: seq<Action>)
      requires Follows(start, actions) && DeregAt(Value(), d, StoreCleared) && clock <= now
      modifies this
      ensures Follows(start, actions + [DeregClearHistory(d), DeregBump(d), DeregPublish(d, now)])
      ensures generation == old(generation) + 1 && history == Append(Clear(old(history)), Reset(d), now)
      ensures log == old(log) + [Reset(d)] && unchanged(`registry, `replaced, `handles)
    {
      hide Inv, Do, Enabled, Reached;
      ClearHistory(d, start, actions);
      BumpGeneration(d, start, actions + [DeregClearHistory(d)]);
      PublishReset(d, now, start, actions + [DeregClearHistory(d)] + [DeregBump(d)]);
      assert actions + [DeregClearHistory(d)] + [DeregBump(d)] + [DeregPublish(d, now)]
          == actions + [DeregClearHistory(d), DeregBump(d), DeregPublish(d, now)];
    }
  }

  function TearDownActions(wxid: string, d: nat, now: nat): seq<Action> {
    [DeregClaim(wxid), DeregStop(d), DeregClearStore(d), DeregClearHistory(d), DeregBump(d), DeregPublish(d, now)]
  }
}
