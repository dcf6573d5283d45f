/** Long-lived connections and their change baselines (`src/db/live.rs`).

    `PRAGMA data_version` is a number the source bumps on every commit of another connection;
    reading it may fail, so a reading is an option. */
module LivePools {
  import opened Wrappers

  type DbKey = string

  /** One pooled database: `baseline` is the data version this side has consumed. */
  datatype LiveDb = LiveDb(key: DbKey, isOpen: bool, baseline: Option<int>)

  /** What the source answers if the file is opened now. */
  datatype Opening = Opens(version: Option<int>) | WrongKey | Deferred

  datatype Acquired = Connected | BadKey | Unavailable

  datatype PoolState = PoolState(dbs: map<string, LiveDb>, keyless: set<string>)

  predicate OpenIn(p: PoolState, rel: string) {
    rel in p.dbs && p.dbs[rel].isOpen
  }

  function MarkKeyless(p: PoolState, rel: string): PoolState {
    p.(keyless := p.keyless + {rel})
  }

  /** A file remembered as keyless is not touched again until its registered key changes. */
  predicate BackedOff(p: PoolState, rel: string, key: DbKey) {
    rel in p.keyless && (rel in p.dbs ==> !p.dbs[rel].isOpen && p.dbs[rel].key == key)
  }

  /** An open connection is reused as it is; only a new connection takes a fresh baseline. */
  function GetOrOpen(p: PoolState, rel: string, key: DbKey, opening: Opening): (PoolState, Acquired) {
    if BackedOff(p, rel, key) then (p, BadKey)
    else if OpenIn(p, rel) then
      (PoolState(p.dbs[rel := p.dbs[rel].(key := key)], p.keyless - {rel}), Connected)
    else
      match opening
      case Opens(version) => (PoolState(p.dbs[rel := LiveDb(key, true, version)], p.keyless - {rel}), Connected)
      case WrongKey => (PoolState(p.dbs[rel := Closed(p, rel, key)], p.keyless - {rel}), BadKey)
      case Deferred => (PoolState(p.dbs[rel := Closed(p, rel, key)], p.keyless - {rel}), Unavailable)
  }

  function Closed(p: PoolState, rel: string, key: DbKey): LiveDb {
    if rel in p.dbs then p.dbs[rel].(key := key) else LiveDb(key, false, None)
  }

  /** Does the version just read differ from the baseline? `None` when there is no answer. */
  function ForeignCommitPending(p: PoolState, rel: string, now: Option<int>): Option<bool> {
    if !OpenIn(p, rel) || now.None? then None else Some(p.dbs[rel].baseline != now)
  }

  function Advance(p: PoolState, rel: string, now: Option<int>): PoolState {
    if !OpenIn(p, rel) || now.None? then p else p.(dbs := p.dbs[rel := p.dbs[rel].(baseline := now)])
  }

  /** Acquiring one file disturbs no other, and never moves the baseline of an open connection. */
  lemma AcquireFrame(p: PoolState, rel: string, key: DbKey, opening: Opening, other: string)
    ensures
      var (after, got) := GetOrOpen(p, rel, key, opening);
      && (other != rel ==> (other in after.dbs <==> other in p.dbs) && (other in p.dbs ==> after.dbs[other] == p.dbs[other]))
      && (OpenIn(p, rel) ==> got == Connected && OpenIn(after, rel) && after.dbs[rel].baseline == p.dbs[rel].baseline)
      && (got == Connected <==> OpenIn(after, rel))
  {
  }

  /** A refused key stays refused, untouched, until the registered key changes; a new key is tried. */
  lemma WrongKeyBacksOffUntilRekeyed(p: PoolState, rel: string, key: DbKey, other: DbKey, opening: Opening)
    requires GetOrOpen(p, rel, key, WrongKey).1 == BadKey
    ensures
      var marked := MarkKeyless(GetOrOpen(p, rel, key, WrongKey).0, rel);
      && (!BackedOff(p, rel, key) ==> GetOrOpen(marked, rel, key, opening) == (marked, BadKey))
      && (!BackedOff(p, rel, key) && other != key && opening.Opens? ==>
            GetOrOpen(marked, rel, other, opening).1 == Connected)
  {
  }

  /** A file that could not be opened for another reason is not held against it: it is tried again whenever
      it is asked for, and connects as soon as it opens. */
  lemma DeferredIsTriedAgain(p: PoolState, rel: string, key: DbKey, other: DbKey, version: Option<int>)
    requires !BackedOff(p, rel, key) && !OpenIn(p, rel)
    ensures
      var (after, got) := GetOrOpen(p, rel, key, Deferred);
      && got == Unavailable && rel !in after.keyless && !OpenIn(after, rel)
      && GetOrOpen(after, rel, other, Opens(version)).1 == Connected
      && GetOrOpen(after, rel, other, Opens(version)).0.dbs[rel] == LiveDb(other, true, version)
  {
  }

  class LivePool {
    var dbs: map<string, LiveDb>
    var keyless: set<string>

    constructor ()
      ensures State() == PoolState(map[], {})
    {
      dbs, keyless := map[], {};
    }

    ghost function State(): PoolState
      reads this
    {
      PoolState(dbs, keyless)
    }

    predicate IsOpen(rel: string)
      reads this
    {
      rel in dbs && dbs[rel].isOpen
    }

    method Remember(rel: string)
      modifies this`keyless
      ensures State() == MarkKeyless(old(State()), rel)
    {
      keyless := keyless + {rel};
    }

    method Acquire(rel: string, key: DbKey, opening: Opening) returns (got: Acquired)
      modifies this
      ensures (State(), got) == GetOrOpen(old(State()), rel, key, opening)
    {
      if rel in keyless {
        var sameKey := rel !in dbs || (!dbs[rel].isOpen && dbs[rel].key == key);
        if sameKey {
          return BadKey;
        }
      }
      keyless := keyless - {rel};
      if rel !in dbs {
        dbs := dbs[rel := LiveDb(key, false, None)];
      }
      dbs := dbs[rel := dbs[rel].(key := key)];
      assert dbs == old(dbs)[rel := dbs[rel]];
      if dbs[rel].isOpen {
        return Connected;
      }
      match opening {
        case Opens(version) =>
          dbs := dbs[rel := LiveDb(key, true, version)];
          assert dbs == old(dbs)[rel := dbs[rel]];
          got := Connected;
        case WrongKey =>
          got := BadKey;
        case Deferred =>
          got := Unavailable;
      }
    }

    function Pending(rel: string, now: Option<int>): Option<bool>
      reads this
      ensures Pending(rel, now) == ForeignCommitPending(State(), rel, now)
    {
      if rel !in dbs || !dbs[rel].isOpen || now.None? then None else Some(dbs[rel].baseline != now)
    }

    method AdvanceDataVersion(rel: string, now: Option<int>)
      modifies this`dbs
      ensures State() == Advance(old(State()), rel, now)
    {
      if rel in dbs && dbs[rel].isOpen && now.Some? {
        dbs := dbs[rel := dbs[rel].(baseline := now)];
      }
    }
  }
}
