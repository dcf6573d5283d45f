/** Account lifecycle (`src/server/mod.rs`): registrations, build tasks, polls and deregistrations that
    share the account registry, each handle's stop flag and store lock, and the process-wide event bus.

    A state is what all threads share plus where each of them stands. One action is one lock critical
    section or one atomic write; any thread may move between any two actions. The store lock of a handle
    can be held across several actions, because the flag and the bus can be reached without it. */
module Lifecycle {
  import opened Wrappers
  import opened History

  datatype Status = Indexing | Ready | Error

  /** Where the build task of a handle stands. */
  datatype BuildPc =
    | Building              // full_sync is reading; it looks at the flag next
    | Installing            // flag was down; waits for the store lock to install the index
    | Built(ok: bool)       // full_sync returned; the flag is looked at next
    | Guarded(ok: bool)     // flag was down; sets the status next
    | AtBaseline            // ready; waits for the store lock to publish the watermark baseline
    | Locked                // holds the store lock; looks at the flag next
    | Cleared               // holds the store lock, flag was down; publishes next
    | Published             // holds the store lock; releases it next
    | Done

  /** Where the poll of a handle stands. */
  datatype PollPc =
    | Idle
    | Reading               // flag was down; reads without any lock
    | PollLocked            // holds the store lock; looks at the flag next
    | Applying              // holds the store lock, flag was down; publishes events
    | Reloading             // between section reloads; looks at the flag before each
    | Writing               // flag was down; waits for the store lock to reload a section

  datatype Holder = ByBuild | ByPoll

  datatype Handle = Handle(
    wxid: string,
    status: Status,
    stopped: bool,
    filled: bool,
    lock: Option<Holder>,
    build: BuildPc,
    poll: PollPc)

  datatype DeregPc = Claimed | FlagUp | StoreCleared | HistoryCleared | Bumped | Finished(reset: nat)

  datatype Dereg = Dereg(handle: nat, pc: DeregPc)

  /** Who put an event on the bus: a handle's own build or poll task, or a deregistration's reset. */
  datatype Origin = Own(handle: nat) | Reset(dereg: nat)

  datatype State = State(
    registry: map<string, nat>,
    /** A handle just replaced whose flag is about to be raised; the registry lock is held until then. */
    replaced: Option<nat>,
    handles: seq<Handle>,
    deregs: seq<Dereg>,
    buffer: Buffer<Origin>,
    /** Everything ever published; the event at index `i` has id `i + 1`. */
    log: seq<Origin>,
    clock: nat,
    generation: nat)

  const INIT: State := State(map[], None, [], [], Buffer([], 0), [], 0, 1)

  datatype Action =
    | RegisterClaim(wxid: string)
    | RegisterStopOld
    | BuildFail(h: nat)
    | BuildCheck(h: nat)
    | BuildInstall(h: nat)
    | TaskCheck(h: nat)
    | SetStatus(h: nat)
    | BaselineLock(h: nat)
    | BaselineCheck(h: nat)
    | BaselinePublish(h: nat, now: nat)
    | BaselineUnlock(h: nat)
    | PollStart(h: nat)
    | PollFail(h: nat)
    | PollLock(h: nat)
    | PollCheck(h: nat)
    | PollPublish(h: nat, now: nat)
    | PollUnlock(h: nat)
    | ReloadCheck(h: nat)
    | ReloadWrite(h: nat)
    | PollEnd(h: nat)
    | DeregClaim(wxid: string)
    | DeregStop(d: nat)
    | DeregClearStore(d: nat)
    | DeregClearHistory(d: nat)
    | DeregBump(d: nat)
    | DeregPublish(d: nat, now: nat)

  /** The handle the registry reports as bound: any of its entries. */
  ghost function Incumbent(s: State): string
    requires s.registry != map[]
    ensures Incumbent(s) in s.registry
  {
    var w :| w in s.registry;
    w
  }

  predicate HasHandle(s: State, h: nat) {
    h < |s.handles|
  }

  function Put(s: State, h: nat, handle: Handle): State
    requires HasHandle(s, h)
  {
    s.(handles := s.handles[h := handle])
  }

  function Publish(s: State, origin: Origin, now: nat): State {
    s.(buffer := Append(s.buffer, origin, now), log := s.log + [origin], clock := now)
  }

  function SetDereg(s: State, d: nat, pc: DeregPc): State
    requires d < |s.deregs|
  {
    s.(deregs := s.deregs[d := s.deregs[d].(pc := pc)])
  }

  // ---- which actions can happen ------------------------------------------------------

  predicate BuildAt(s: State, h: nat, pc: BuildPc) {
    HasHandle(s, h) && s.handles[h].build == pc
  }

  predicate PollAt(s: State, h: nat, pc: PollPc) {
    HasHandle(s, h) && s.handles[h].poll == pc
  }

  predicate DeregAt(s: State, d: nat, pc: DeregPc) {
    d < |s.deregs| && s.deregs[d].pc == pc && HasHandle(s, s.deregs[d].handle)
  }

  predicate Free(s: State, h: nat) {
    HasHandle(s, h) && s.handles[h].lock == None
  }

  /** `full_sync` and `poll_once` of one handle exclude each other through the engine's own mutex. */
  predicate EngineFree(s: State, h: nat) {
    HasHandle(s, h) && s.handles[h].poll == Idle && s.handles[h].build !in {Building, Installing}
  }

  ghost predicate Enabled(s: State, a: Action) {
    match a
    case RegisterClaim(_) => s.replaced.None?
    case RegisterStopOld => s.replaced.Some? && HasHandle(s, s.replaced.value)
    case BuildFail(h) => BuildAt(s, h, Building)
    case BuildCheck(h) => BuildAt(s, h, Building)
    case BuildInstall(h) => BuildAt(s, h, Installing) && Free(s, h)
    case TaskCheck(h) => HasHandle(s, h) && s.handles[h].build.Built?
    case SetStatus(h) => HasHandle(s, h) && s.handles[h].build.Guarded?
    case BaselineLock(h) => BuildAt(s, h, AtBaseline) && Free(s, h)
    case BaselineCheck(h) => BuildAt(s, h, Locked)
    case BaselinePublish(h, now) => BuildAt(s, h, Cleared) && s.clock <= now
    case BaselineUnlock(h) => BuildAt(s, h, Published)
    case PollStart(h) => EngineFree(s, h)
    case PollFail(h) => PollAt(s, h, Reading)
    case PollLock(h) => PollAt(s, h, Reading) && Free(s, h)
    case PollCheck(h) => PollAt(s, h, PollLocked)
    case PollPublish(h, now) => PollAt(s, h, Applying) && s.clock <= now
    case PollUnlock(h) => PollAt(s, h, Applying)
    case ReloadCheck(h) => PollAt(s, h, Reloading)
    case ReloadWrite(h) => PollAt(s, h, Writing) && Free(s, h)
    case PollEnd(h) => PollAt(s, h, Reloading)
    case DeregClaim(_) => s.replaced.None?
    case DeregStop(d) => DeregAt(s, d, Claimed)
    case DeregClearStore(d) => DeregAt(s, d, FlagUp) && Free(s, s.deregs[d].handle)
    case DeregClearHistory(d) => DeregAt(s, d, StoreCleared)
    case DeregBump(d) => DeregAt(s, d, HistoryCleared)
    case DeregPublish(d, now) => DeregAt(s, d, Bumped) && s.clock <= now
  }

  // ---- what they do ---------------------------------------------------------------------

  ghost predicate Conflicts(s: State, wxid: string) {
    s.registry != map[] && (Incumbent(s) != wxid || !(wxid in s.registry && Failed(s, s.registry[wxid])))
  }

  /** Only a handle whose build failed gives way to a registration of its own account. */
  predicate Failed(s: State, h: nat) {
    HasHandle(s, h) && s.handles[h].status == Error
  }

  /** A registration of another account is occupied, one of the same healthy account finds it existing. */
  ghost function Register(s: State, wxid: string): State {
    if Conflicts(s, wxid) then s
    else
      s.(registry := s.registry[wxid := |s.handles|],
         replaced := if wxid in s.registry then Some(s.registry[wxid]) else None,
         handles := s.handles + [Handle(wxid, Indexing, false, false, None, Building, Idle)])
  }

  /** Only the bound account can be deregistered; it leaves the registry at once. */
  ghost function Unregister(s: State, wxid: string): State {
    if s.registry == map[] || Incumbent(s) != wxid then s
    else
      s.(registry := s.registry - {wxid}, deregs := s.deregs + [Dereg(s.registry[wxid], Claimed)])
  }

  function BuildStep(handle: Handle, a: Action): Handle {
    match a
    case BuildFail(_) => handle.(build := Built(false))
    case BuildCheck(_) => handle.(build := if handle.stopped then Built(true) else Installing)
    case BuildInstall(_) => handle.(build := Built(true), filled := true)
    case TaskCheck(_) =>
      handle.(build := if handle.stopped then Done else Guarded(handle.build.Built? && handle.build.ok))
    case SetStatus(_) =>
      var ok := handle.build.Guarded? && handle.build.ok;
      handle.(status := if ok then Ready else Error, build := if ok then AtBaseline else Done)
    case BaselineLock(_) => handle.(lock := Some(ByBuild), build := Locked)
    case BaselineCheck(_) =>
      if handle.stopped then handle.(lock := None, build := Done) else handle.(build := Cleared)
    case BaselinePublish(_, _) => handle.(build := Published)
    case BaselineUnlock(_) => handle.(lock := None, build := Done)
    case _ => handle
  }

  function PollStep(handle: Handle, a: Action): Handle {
    match a
    case PollStart(_) => if handle.stopped then handle else handle.(poll := Reading)
    case PollFail(_) => handle.(poll := Idle)
    case PollLock(_) => handle.(lock := Some(ByPoll), poll := PollLocked)
    case PollCheck(_) =>
      if handle.stopped then handle.(lock := None, poll := Idle) else handle.(poll := Applying)
    case PollUnlock(_) => handle.(lock := None, poll := Reloading, filled := true)
    case ReloadCheck(_) => handle.(poll := if handle.stopped then Idle else Writing)
    case ReloadWrite(_) => handle.(poll := Reloading, filled := true)
    case PollEnd(_) => handle.(poll := Idle)
    case _ => handle
  }

  predicate IsBuild(a: Action) {
    a.BuildFail? || a.BuildCheck? || a.BuildInstall? || a.TaskCheck? || a.SetStatus? || a.BaselineLock?
    || a.BaselineCheck? || a.BaselinePublish? || a.BaselineUnlock?
  }

  predicate IsPoll(a: Action) {
    a.PollStart? || a.PollFail? || a.PollLock? || a.PollCheck? || a.PollPublish? || a.PollUnlock?
    || a.ReloadCheck? || a.ReloadWrite? || a.PollEnd?
  }

  function Stop(handle: Handle): Handle {
    handle.(stopped := true)
  }

  ghost function Do(s: State, a: Action): State
    requires Enabled(s, a)
  {
    if IsBuild(a) then
      var s' := Put(s, a.h, BuildStep(s.handles[a.h], a));
      if a.BaselinePublish? then Publish(s', Own(a.h), a.now) else s'
    else if IsPoll(a) then
      var s' := Put(s, a.h, PollStep(s.handles[a.h], a));
      if a.PollPublish? then Publish(s', Own(a.h), a.now) else s'
    else
      match a
      case RegisterClaim(wxid) => Register(s, wxid)
      case RegisterStopOld => Put(s, s.replaced.value, Stop(s.handles[s.replaced.value])).(replaced := None)
      case DeregClaim(wxid) => Unregister(s, wxid)
      case DeregStop(d) =>
        var h := s.deregs[d].handle;
        SetDereg(Put(s, h, Stop(s.handles[h])), d, FlagUp)
      case DeregClearStore(d) =>
        var h := s.deregs[d].handle;
        SetDereg(Put(s, h, s.handles[h].(filled := false)), d, StoreCleared)
      case DeregClearHistory(d) => SetDereg(s, d, HistoryCleared).(buffer := Clear(s.buffer))
      case DeregBump(d) => SetDereg(s, d, Bumped).(generation := s.generation + 1)
      case DeregPublish(d, now) => Publish(SetDereg(s, d, Finished(|s.log| + 1)), Reset(d), now)
      case _ => s
  }

  ghost predicate Run(states: seq<State>, actions: seq<Action>) {
    && |states| == |actions| + 1 && states[0] == INIT
    && forall i :: 0 <= i < |actions| ==> Takes(states[i], actions[i], states[i + 1])
  }

  ghost predicate Takes(s: State, a: Action, s': State) {
    Enabled(s, a) && s' == Do(s, a)
  }

  // ---- what every state satisfies -----------------------------------------------------------

  function Rank(pc: DeregPc): nat {
    match pc
    case Claimed => 0
    case FlagUp => 1
    case StoreCleared => 2
    case HistoryCleared => 3
    case Bumped => 4
    case Finished(_) => 5
  }

  /** The store lock of a handle is held by whoever stands inside its critical section. */
  predicate HandleOk(handle: Handle) {
    && (handle.lock == Some(ByBuild) <==> handle.build in {Locked, Cleared, Published})
    && (handle.lock == Some(ByPoll) <==> handle.poll in {PollLocked, Applying})
  }

  /** Between its look at the flag and its release of the store lock a task may publish. */
  predicate MayPublish(handle: Handle) {
    handle.build == Cleared || handle.poll == Applying
  }

  ghost predicate NotBuffered(s: State, h: nat) {
    forall i :: 0 <= i < |s.buffer.items| ==> s.buffer.items[i].event != Own(h)
  }

  ghost predicate AllBelow(s: State, h: nat, id: nat) {
    forall i :: 0 <= i < |s.log| && s.log[i] == Own(h) ==> i + 1 < id
  }

  ghost predicate DeregOk(s: State, d: nat)
    requires d < |s.deregs|
  {
    var h, pc := s.deregs[d].handle, s.deregs[d].pc;
    && HasHandle(s, h)
    && (forall w :: w in s.registry ==> s.registry[w] != h)
    && (Rank(pc) >= 1 ==> s.handles[h].stopped)
    && (Rank(pc) >= 2 ==> !MayPublish(s.handles[h]))
    && (Rank(pc) >= 3 ==> NotBuffered(s, h))
    && (pc.Finished? ==> 1 <= pc.reset <= |s.log| && s.log[pc.reset - 1] == Reset(d) && AllBelow(s, h, pc.reset))
  }

  ghost predicate RegistryOk(s: State) {
    && (forall w, v :: w in s.registry && v in s.registry ==> w == v)
    && (forall w :: w in s.registry ==>
          && HasHandle(s, s.registry[w])
          && s.handles[s.registry[w]].wxid == w
          && !s.handles[s.registry[w]].stopped)
    && (s.replaced.Some? ==>
          HasHandle(s, s.replaced.value) && forall w :: w in s.registry ==> s.registry[w] != s.replaced.value)
  }

  ghost predicate BusOk(s: State) {
    && BufferOk(s.buffer, s.clock)
    && s.buffer.lastId == |s.log|
    && (forall i :: 0 <= i < |s.buffer.items| ==> s.buffer.items[i].event == s.log[s.buffer.items[i].id - 1])
  }

  ghost predicate Inv(s: State) {
    && RegistryOk(s)
    && BusOk(s)
    && (forall h :: 0 <= h < |s.handles| ==> HandleOk(s.handles[h]))
    && (forall d :: 0 <= d < |s.deregs| ==> DeregOk(s, d))
  }

  // ---- each action keeps it -----------------------------------------------------------------

  /** Changing a handle without raising a lowered flag, and without entering the publishing section
      while the flag is up, disturbs no deregistration. */
  lemma PutKeepsInv(s: State, h: nat, handle: Handle)
    requires Inv(s) && HasHandle(s, h) && HandleOk(handle)
    requires handle.wxid == s.handles[h].wxid && handle.stopped == s.handles[h].stopped
    requires MayPublish(handle) ==> MayPublish(s.handles[h]) || !handle.stopped
    ensures Inv(Put(s, h, handle))
  {
    var s' := Put(s, h, handle);
    forall d | 0 <= d < |s'.deregs| ensures DeregOk(s', d) {
      assert DeregOk(s, d);
      assert NotBuffered(s, s.deregs[d].handle) ==> NotBuffered(s', s.deregs[d].handle);
      if s.deregs[d].pc.Finished? {
        assert AllBelow(s, s.deregs[d].handle, s.deregs[d].pc.reset);
        assert AllBelow(s', s.deregs[d].handle, s.deregs[d].pc.reset);
      }
    }
  }

  lemma StopKeepsInv(s: State, h: nat)
    requires Inv(s) && HasHandle(s, h) && forall w :: w in s.registry ==> s.registry[w] != h
    ensures Inv(Put(s, h, Stop(s.handles[h])))
  {
    var s' := Put(s, h, Stop(s.handles[h]));
    forall d | 0 <= d < |s'.deregs| ensures DeregOk(s', d) {
      assert DeregOk(s, d);
      assert NotBuffered(s, s.deregs[d].handle) ==> NotBuffered(s', s.deregs[d].handle);
      if s.deregs[d].pc.Finished? {
        assert AllBelow(s, s.deregs[d].handle, s.deregs[d].pc.reset);
        assert AllBelow(s', s.deregs[d].handle, s.deregs[d].pc.reset);
      }
    }
  }

  /** A handle still allowed to publish has no deregistration past the clearing of its store. */
  lemma PublishKeepsInv(s: State, h: nat, now: nat)
    requires Inv(s) && HasHandle(s, h) && s.clock <= now
    requires forall d :: 0 <= d < |s.deregs| && s.deregs[d].handle == h ==> Rank(s.deregs[d].pc) < 2
    ensures Inv(Publish(s, Own(h), now))
  {
    var s' := Publish(s, Own(h), now);
    AppendKeepsOk(s.buffer, Own(h), s.clock, now);
    BusAfterAppend(s, Own(h), now);
    forall d | 0 <= d < |s'.deregs| ensures DeregOk(s', d) {
      assert DeregOk(s, d);
      PublishElsewhere(s, Own(h), now, s.deregs[d].handle);
    }
  }

  lemma BusAfterAppend(s: State, origin: Origin, now: nat)
    requires BusOk(s) && s.clock <= now
    ensures BusOk(Publish(s, origin, now))
  {
    AppendKeepsOk(s.buffer, origin, s.clock, now);
    var s' := Publish(s, origin, now);
    forall i | 0 <= i < |s'.buffer.items| ensures s'.buffer.items[i].event == s'.log[s'.buffer.items[i].id - 1] {
      var k := |s.buffer.items| + 1 - |s'.buffer.items|;
      if i + k < |s.buffer.items| {
        assert s'.buffer.items[i] == s.buffer.items[i + k];
      }
    }
  }

  lemma PublishElsewhere(s: State, origin: Origin, now: nat, h: nat)
    ensures origin != Own(h) && NotBuffered(s, h) ==> NotBuffered(Publish(s, origin, now), h)
    ensures forall id: nat :: origin != Own(h) && AllBelow(s, h, id) ==> AllBelow(Publish(s, origin, now), h, id)
  {
    var s' := Publish(s, origin, now);
    if origin != Own(h) && NotBuffered(s, h) {
      forall i | 0 <= i < |s'.buffer.items| ensures s'.buffer.items[i].event != Own(h) {
        var k := |s.buffer.items| + 1 - |s'.buffer.items|;
        if i + k < |s.buffer.items| {
          assert s'.buffer.items[i] == s.buffer.items[i + k];
        }
      }
    }
  }

  lemma BuildKeepsInv(s: State, a: Action)
    requires Inv(s) && IsBuild(a) && Enabled(s, a)
    ensures Inv(Do(s, a))
  {
    var h := a.h;
    assert HandleOk(s.handles[h]);
    if a.BaselinePublish? {
      forall d | 0 <= d < |s.deregs| && s.deregs[d].handle == h ensures Rank(s.deregs[d].pc) < 2 {
        assert DeregOk(s, d);
      }
      PutKeepsInv(s, h, BuildStep(s.handles[h], a));
      PublishKeepsInv(Put(s, h, BuildStep(s.handles[h], a)), h, a.now);
    } else {
      PutKeepsInv(s, h, BuildStep(s.handles[h], a));
    }
  }

  lemma PollKeepsInv(s: State, a: Action)
    requires Inv(s) && IsPoll(a) && Enabled(s, a)
    ensures Inv(Do(s, a))
  {
    var h := a.h;
    assert HandleOk(s.handles[h]);
    PutKeepsInv(s, h, PollStep(s.handles[h], a));
    if a.PollPublish? {
      forall d | 0 <= d < |s.deregs| && s.deregs[d].handle == h ensures Rank(s.deregs[d].pc) < 2 {
        assert DeregOk(s, d);
      }
      PublishKeepsInv(Put(s, h, PollStep(s.handles[h], a)), h, a.now);
    }
  }

  lemma RegisterKeepsInv(s: State, wxid: string)
    requires Inv(s) && s.replaced.None?
    ensures Inv(Register(s, wxid))
  {
    if !Conflicts(s, wxid) {
      var s' := Register(s, wxid);
      assert s.registry != map[] ==> wxid in s.registry;
      assert forall w :: w in s'.registry ==> w == wxid || w in s.registry;
      forall d | 0 <= d < |s'.deregs| ensures DeregOk(s', d) {
        assert DeregOk(s, d);
        SameBusSameFacts(s, s', s.deregs[d].handle);
      }
    }
  }

  lemma SameBusSameFacts(s: State, s': State, h: nat)
    requires s'.buffer == s.buffer && s'.log == s.log
    ensures NotBuffered(s, h) ==> NotBuffered(s', h)
    ensures forall id: nat :: AllBelow(s, h, id) ==> AllBelow(s', h, id)
  {
  }

  lemma UnregisterKeepsInv(s: State, wxid: string)
    requires Inv(s) && s.replaced.None?
    ensures Inv(Unregister(s, wxid))
  {
    if s.registry != map[] && Incumbent(s) == wxid {
      var s' := Unregister(s, wxid);
      assert forall w :: w !in s'.registry;
      forall d | 0 <= d < |s'.deregs| ensures DeregOk(s', d) {
        if d < |s.deregs| {
          assert DeregOk(s, d);
          SameBusSameFacts(s, s', s.deregs[d].handle);
        }
      }
    }
  }

  /** Moving one deregistration on keeps all the others as they are. */
  lemma AdvanceKeepsInv(s: State, d: nat, pc: DeregPc)
    requires Inv(s) && d < |s.deregs|
    requires DeregOk(SetDereg(s, d, pc), d)
    ensures Inv(SetDereg(s, d, pc))
  {
    var s' := SetDereg(s, d, pc);
    forall e | 0 <= e < |s'.deregs| ensures DeregOk(s', e) {
      if e != d {
        assert DeregOk(s, e);
        SameBusSameFacts(s, s', s.deregs[e].handle);
      }
    }
  }

  lemma DeregStopKeepsInv(s: State, d: nat)
    requires Inv(s) && Enabled(s, DeregStop(d))
    ensures Inv(Do(s, DeregStop(d)))
  {
    assert DeregOk(s, d);
    StopKeepsInv(s, s.deregs[d].handle);
    AdvanceKeepsInv(Put(s, s.deregs[d].handle, Stop(s.handles[s.deregs[d].handle])), d, FlagUp);
  }

  /** With the store lock in hand nobody stands in the publishing section, and the flag keeps everyone out. */
  lemma DeregClearStoreKeepsInv(s: State, d: nat)
    requires Inv(s) && Enabled(s, DeregClearStore(d))
    ensures Inv(Do(s, DeregClearStore(d)))
  {
    hide RegistryOk, BusOk, NotBuffered, AllBelow;
    var h := s.deregs[d].handle;
    assert DeregOk(s, d) && HandleOk(s.handles[h]);
    PutKeepsInv(s, h, s.handles[h].(filled := false));
    AdvanceKeepsInv(Put(s, h, s.handles[h].(filled := false)), d, StoreCleared);
  }

  lemma DeregClearHistoryKeepsInv(s: State, d: nat)
    requires Inv(s) && Enabled(s, DeregClearHistory(d))
    ensures Inv(Do(s, DeregClearHistory(d)))
  {
    var cleared := s.(buffer := Clear(s.buffer));
    forall e | 0 <= e < |s.deregs| ensures DeregOk(cleared, e) {
      assert DeregOk(s, e);
      assert forall id: nat :: AllBelow(s, s.deregs[e].handle, id) ==> AllBelow(cleared, s.deregs[e].handle, id);
    }
    assert DeregOk(cleared, d) && HandleOk(s.handles[s.deregs[d].handle]);
    AdvanceKeepsInv(cleared, d, HistoryCleared);
  }

  lemma DeregBumpKeepsInv(s: State, d: nat)
    requires Inv(s) && Enabled(s, DeregBump(d))
    ensures Inv(Do(s, DeregBump(d)))
  {
    hide HandleOk, NotBuffered, AllBelow;
    var bumped := s.(generation := s.generation + 1);
    forall e | 0 <= e < |s.deregs| ensures DeregOk(bumped, e) {
      assert DeregOk(s, e);
      SameBusSameFacts(s, bumped, s.deregs[e].handle);
    }
    assert DeregOk(bumped, d);
    SameBusSameFacts(bumped, SetDereg(bumped, d, Bumped), s.deregs[d].handle);
    AdvanceKeepsInv(bumped, d, Bumped);
  }

  lemma DeregPublishKeepsInv(s: State, d: nat, now: nat)
    requires Inv(s) && Enabled(s, DeregPublish(d, now))
    ensures Inv(Do(s, DeregPublish(d, now)))
  {
    hide Inv, DeregOk, HandleOk, Append;
    ResetKeepsInv(s, d, now);
    ResetStands(s, d, now);
    AdvanceKeepsInv(Publish(s, Reset(d), now), d, Finished(|s.log| + 1));
  }

  lemma ResetStands(s: State, d: nat, now: nat)
    requires Inv(s) && Enabled(s, DeregPublish(d, now)) && Inv(Publish(s, Reset(d), now))
    ensures DeregOk(SetDereg(Publish(s, Reset(d), now), d, Finished(|s.log| + 1)), d)
    ensures Publish(s, Reset(d), now).deregs == s.deregs && |Publish(s, Reset(d), now).log| == |s.log| + 1
  {
    hide RegistryOk, BusOk, HandleOk;
    var published := Publish(s, Reset(d), now);
    assert DeregOk(published, d);
    assert AllBelow(published, s.deregs[d].handle, |s.log| + 1);
    SameBusSameFacts(published, SetDereg(published, d, Finished(|s.log| + 1)), s.deregs[d].handle);
  }

  lemma ResetKeepsInv(s: State, d: nat, now: nat)
    requires Inv(s) && s.clock <= now
    ensures Inv(Publish(s, Reset(d), now))
  {
    var published := Publish(s, Reset(d), now);
    BusAfterAppend(s, Reset(d), now);
    forall e | 0 <= e < |s.deregs| ensures DeregOk(published, e) {
      assert DeregOk(s, e);
      PublishElsewhere(s, Reset(d), now, s.deregs[e].handle);
    }
  }

  lemma DoKeepsInv(s: State, a: Action)
    requires Inv(s) && Enabled(s, a)
    ensures Inv(Do(s, a))
  {
    if IsBuild(a) {
      BuildKeepsInv(s, a);
    } else if IsPoll(a) {
      PollKeepsInv(s, a);
    } else {
      match a
      case RegisterClaim(wxid) => RegisterKeepsInv(s, wxid);
      case RegisterStopOld =>
        StopKeepsInv(s, s.replaced.value);
        ForgetReplaced(Put(s, s.replaced.value, Stop(s.handles[s.replaced.value])));
      case DeregClaim(wxid) => UnregisterKeepsInv(s, wxid);
      case DeregStop(d) => DeregStopKeepsInv(s, d);
      case DeregClearStore(d) => DeregClearStoreKeepsInv(s, d);
      case DeregClearHistory(d) => DeregClearHistoryKeepsInv(s, d);
      case DeregBump(d) => DeregBumpKeepsInv(s, d);
      case DeregPublish(d, now) => DeregPublishKeepsInv(s, d, now);
    }
  }

  lemma ForgetReplaced(s: State)
    requires Inv(s)
    ensures Inv(s.(replaced := None))
  {
    var s' := s.(replaced := None);
    forall d | 0 <= d < |s.deregs| ensures DeregOk(s', d) {
      assert DeregOk(s, d);
      SameBusSameFacts(s, s', s.deregs[d].handle);
    }
  }

  lemma {:induction false} EveryStateIsSound(states: seq<State>, actions: seq<Action>, i: nat)
    requires Run(states, actions) && i < |states|
    ensures Inv(states[i])
  {
    if i > 0 {
      EveryStateIsSound(states, actions, i - 1);
      assert Takes(states[i - 1], actions[i - 1], states[i]);
      DoKeepsInv(states[i - 1], actions[i - 1]);
    }
  }
}
