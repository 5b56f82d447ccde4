/**
  Lazy seeding under the store lock. List and activate requests proceed one
  store or settings access at a time and may be interleaved, or killed, anywhere;
  saves and renames hold the lock throughout. Nothing is deleted.
 */
module ProfileSeeding {
  import opened Prelude
  import PS = ProfileStore

  datatype Pc =
    | Begun                            // list: nothing read yet
    | Loaded(active: Option<string>)   // settings read
    | Wanting                          // saw an empty store and no pointer, waits for the lock
    | Locked
    | Empty                            // second check, under the lock, found the store empty
    | Stored(id: string)               // seed profile saved
    | Pointed(id: string)              // pointer written; the critical section ends next
    | Summarising
    | Activating(target: string)       // activate: nothing read yet
    | Known(target: string)            // the id was among the stored ids
    | Finished

  /** The store, the pointer, the lock, the requests in flight, and every seed id ever saved. */
  datatype State = State(store: PS.State, lock: Option<nat>, calls: map<nat, Pc>, seeds: seq<string>)

  datatype Action =
    | BeginList(id: nat)
    | BeginActivate(id: nat, target: string)
    | Advance(id: nat, minted: string)
    | Kill(id: nat)
    | Save(name: string, minted: string, revision: int)
    | Rename(name: string, newName: string)

  predicate Critical(pc: Pc) {
    pc.Locked? || pc.Empty? || pc.Stored? || pc.Pointed?
  }

  /** The next access takes the store lock for its own duration. */
  predicate NeedsLock(pc: Pc) {
    pc.Loaded? || pc.Wanting? || pc.Summarising? || pc.Activating?
  }

  predicate Enabled(s: State, a: Action) {
    match a
    case BeginList(id) => id !in s.calls
    case BeginActivate(id, _) => id !in s.calls
    case Advance(id, _) => id in s.calls && !s.calls[id].Finished? && (NeedsLock(s.calls[id]) ==> s.lock.None?)
    case Kill(id) => id in s.calls
    case Save(_, _, _) => s.lock.None?
    case Rename(_, _) => s.lock.None?
  }

  predicate IsStoredId(store: PS.State, id: string) {
    exists n :: n in store.files && store.files[n].id == id
  }

  function Move(s: State, id: nat, pc: Pc): (s': State) {
    s.(calls := s.calls[id := pc])
  }

  function Step(s: State, id: nat, minted: string): (s': State)
    requires id in s.calls
  {
    match s.calls[id]
    case Begun => Move(s, id, Loaded(s.store.active))
    case Loaded(active) => Move(s, id, if s.store.files == map[] && active == None then Wanting else Summarising)
    case Wanting => Move(s, id, Locked).(lock := Some(id))
    case Locked =>
      if s.store.files != map[] then Move(s, id, Summarising).(lock := None) else Move(s, id, Empty)
    case Empty =>
      Move(s, id, Stored(minted)).(
      store := PS.StoreAt(s.store, PS.SEED_PROFILE_NAME, PS.Profile(minted, 0)).0,
      seeds := s.seeds + [minted])
    case Stored(seed) => Move(s, id, Pointed(seed)).(store := s.store.(active := Some(seed)))
    case Pointed(_) => Move(s, id, Summarising).(lock := None)
    case Summarising => Move(s, id, Finished)
    case Activating(target) => Move(s, id, if IsStoredId(s.store, target) then Known(target) else Finished)
    case Known(target) => Move(s, id, Finished).(store := s.store.(active := Some(target)))
    case Finished => s
  }

  function Next(s: State, a: Action): (s': State)
    requires Enabled(s, a)
  {
    match a
    case BeginList(id) => Move(s, id, Begun)
    case BeginActivate(id, target) => Move(s, id, Activating(target))
    case Advance(id, minted) => Step(s, id, minted)
    case Kill(id) => s.(calls := s.calls - {id}, lock := if s.lock == Some(id) then None else s.lock)
    case Save(name, minted, revision) => s.(store := PS.Handle(s.store, PS.SaveProfile(name, minted, revision)).0)
    case Rename(name, newName) => s.(store := PS.Handle(s.store, PS.RenameProfile(name, newName)).0)
  }

  // -------------------------------------------------------------- invariant

  ghost predicate LockInv(s: State) {
    && (s.lock.Some? ==> s.lock.value in s.calls)
    && (forall id :: id in s.calls ==> (Critical(s.calls[id]) <==> s.lock == Some(id)))
  }

  /** Inside the critical section the store is what the holder left there. */
  ghost predicate HolderInv(s: State, pc: Pc) {
    match pc
    case Empty => s.store.files == map[] && s.seeds == []
    case Stored(id) => s.store.files == SeedOnly(id) && s.seeds == [id]
    case Pointed(id) => s.store.files == SeedOnly(id) && s.seeds == [id] && s.store.active == Some(id)
    case _ => true
  }

  function SeedOnly(id: string): (files: map<string, PS.Profile>) {
    map[PS.SEED_PROFILE_NAME := PS.Profile(id, 0)]
  }

  /** An activation that found its id can be under way only outside a seeding, over a store that is not empty. */
  ghost predicate NoActivationDuringSeeding(s: State) {
    forall id :: id in s.calls && s.calls[id].Known? ==>
                   && s.store.files != map[]
                   && forall h :: h in s.calls ==> !s.calls[h].Stored? && !s.calls[h].Pointed?
  }

  ghost predicate Inv(s: State) {
    && LockInv(s)
    && (forall id :: id in s.calls ==> HolderInv(s, s.calls[id]))
    && NoActivationDuringSeeding(s)
    && |s.seeds| <= 1
    && (s.seeds != [] ==> s.store.files != map[])
  }

  lemma SeedIsStoredUnderItsName(store: PS.State, id: string)
    requires store.files == map[]
    ensures PS.StoreAt(store, PS.SEED_PROFILE_NAME, PS.Profile(id, 0)).0 == store.(files := SeedOnly(id))
  {
    assert !PS.EndsWithJson(PS.SEED_PROFILE_NAME) by {
      assert PS.SEED_PROFILE_NAME[6] == 't' && PS.JSON_SUFFIX[4] == 'n';
    }
  }

  /** Saving and renaming never empty a store and never touch the pointer. */
  lemma SavesAndRenamesKeepStoreNonEmpty(store: PS.State, r: PS.Request)
    requires r.SaveProfile? || r.RenameProfile?
    ensures PS.Handle(store, r).0.active == store.active
    ensures store.files != map[] ==> PS.Handle(store, r).0.files != map[]
  {
    hide PS.Stem, PS.ValidName;
    var files' := PS.Handle(store, r).0.files;
    if store.files != map[] && files' != store.files {
      if r.SaveProfile? {
        assert PS.Stem(r.name) in files';
      } else {
        assert PS.Stem(r.newName) in files';
      }
    }
  }

  /** The seeding steps proper. */
  lemma HolderStepKeepsInv(s: State, id: nat, minted: string)
    requires Inv(s) && id in s.calls && Critical(s.calls[id])
    ensures Inv(Step(s, id, minted))
  {
    hide PS.StoreAt;
    if s.calls[id].Empty? {
      SeedIsStoredUnderItsName(s.store, minted);
      assert PS.SEED_PROFILE_NAME in SeedOnly(minted);
    }
  }

  /** Moving a request outside the critical section, with the store's files untouched. */
  lemma MoveKeepsInv(s: State, id: nat, pc: Pc, active: Option<string>)
    requires Inv(s) && (id in s.calls ==> !Critical(s.calls[id]))
    requires !Critical(pc) || (pc.Locked? && s.lock.None?)
    requires pc.Known? ==> s.lock.None? && s.store.files != map[]
    requires active == s.store.active || forall h :: h in s.calls ==> !s.calls[h].Pointed?
    ensures Inv(Move(s, id, pc).(store := s.store.(active := active), lock := if pc.Locked? then Some(id) else s.lock))
  {
    hide SeedOnly;
  }

  lemma OtherStepKeepsInv(s: State, id: nat, minted: string)
    requires Inv(s) && Enabled(s, Advance(id, minted)) && !Critical(s.calls[id])
    ensures Inv(Step(s, id, minted))
  {
    assert s.calls[id].Activating? && IsStoredId(s.store, s.calls[id].target) ==> s.store.files != map[];
    assert s.calls[id].Known? ==> forall h :: h in s.calls ==> !s.calls[h].Pointed?;
    hide Inv;
    var s' := Step(s, id, minted);
    MoveKeepsInv(s, id, s'.calls[id], s'.store.active);
    var lock := if s'.calls[id].Locked? then Some(id) else s.lock;
    assert s' == Move(s, id, s'.calls[id]).(store := s.store.(active := s'.store.active), lock := lock);
  }

  lemma ActionKeepsInv(s: State, a: Action)
    requires Inv(s) && Enabled(s, a)
    ensures Inv(Next(s, a))
  {
    hide PS.StoreAt, PS.Handle, Step;
    match a
    case Advance(id, minted) =>
      if Critical(s.calls[id]) { HolderStepKeepsInv(s, id, minted); } else { OtherStepKeepsInv(s, id, minted); }
    case Save(name, minted, revision) =>
      SavesAndRenamesKeepStoreNonEmpty(s.store, PS.SaveProfile(name, minted, revision));
    case Rename(name, newName) =>
      SavesAndRenamesKeepStoreNonEmpty(s.store, PS.RenameProfile(name, newName));
    case _ =>
  }

  // ------------------------------------------------------------------- runs

  ghost predicate Initial(s: State) {
    s.lock.None? && s.calls == map[] && s.seeds == []
  }

  ghost predicate Follows(s: State, a: Action, s': State) {
    Enabled(s, a) && s' == Next(s, a)
  }

  ghost predicate Execution(states: seq<State>, actions: seq<Action>) {
    && |states| == |actions| + 1
    && Initial(states[0])
    && forall k :: 0 <= k < |actions| ==> Follows(states[k], actions[k], states[k + 1])
  }

  lemma {:induction false} ExecutionKeepsInv(states: seq<State>, actions: seq<Action>, n: nat)
    requires Execution(states, actions) && n <= |actions|
    ensures Inv(states[n])
  {
    if n == 0 {
    } else {
      ExecutionKeepsInv(states, actions, n - 1);
      hide Inv, Enabled, Next;
      assert Follows(states[n - 1], actions[n - 1], states[n]);
      ActionKeepsInv(states[n - 1], actions[n - 1]);
    }
  }

  /**
    Concurrent first requests: however list, save, rename and activate requests
    interleave, at most one seed profile is ever saved, and when a seeding
    critical section ends the pointer is the id of the profile it stored.
   */
  lemma SeedsOnceAndPointsAtTheSeed(states: seq<State>, actions: seq<Action>, n: nat, id: nat)
    requires Execution(states, actions) && n <= |actions|
    ensures |states[n].seeds| <= 1
    ensures id in states[n].calls && states[n].calls[id].Pointed? ==>
              var seed := states[n].calls[id].id;
              && states[n].lock == Some(id)
              && states[n].seeds == [seed]
              && states[n].store == PS.State(map[PS.SEED_PROFILE_NAME := PS.Profile(seed, 0)], Some(seed))
  {
    ExecutionKeepsInv(states, actions, n);
    if id in states[n].calls && states[n].calls[id].Pointed? {
      assert Critical(states[n].calls[id]);
      assert HolderInv(states[n], states[n].calls[id]);
    }
  }

  // ---------------------------------------------- a request left undisturbed

  /** The state after n accesses of one request in a row, as far as they are possible. */
  ghost function AfterAccesses(s: State, id: nat, minted: string, n: nat): (s': State)
    requires id in s.calls
    ensures id in s'.calls
  {
    if n == 0 then s
    else
      var t := AfterAccesses(s, id, minted, n - 1);
      if Enabled(t, Advance(id, minted)) then Next(t, Advance(id, minted)) else t
  }

  /** The request gets from s to its end in n accesses, each of them possible. */
  ghost predicate RunsThrough(s: State, id: nat, minted: string, n: nat)
    requires id in s.calls
  {
    && (forall k: nat :: k < n ==> Enabled(AfterAccesses(s, id, minted, k), Advance(id, minted)))
    && AfterAccesses(s, id, minted, n).calls[id].Finished?
  }

  /** The critical section of a seeding, alone. */
  lemma {:induction false} SeedingAlone(s: State, id: nat, minted: string)
    requires s.lock.None? && id in s.calls && s.calls[id].Wanting?
    requires s.store.files == map[]
    ensures (forall k: nat :: k < 5 ==> Enabled(AfterAccesses(s, id, minted, k), Advance(id, minted)))
    ensures AfterAccesses(s, id, minted, 5) ==
            s.(calls := s.calls[id := Summarising], seeds := s.seeds + [minted],
            store := PS.State(SeedOnly(minted), Some(minted)))
  {
    hide PS.StoreAt, SeedOnly;
    SeedIsStoredUnderItsName(s.store, minted);
    var s1 := Move(s, id, Locked).(lock := Some(id));
    var s2 := Move(s1, id, Empty);
    var s3 := Move(s2, id, Stored(minted)).(
    store := s.store.(files := SeedOnly(minted)), seeds := s.seeds + [minted]);
    var s4 := Move(s3, id, Pointed(minted)).(store := PS.State(SeedOnly(minted), Some(minted)));
    assert AfterAccesses(s, id, minted, 0) == s;
    assert AfterAccesses(s, id, minted, 1) == s1;
    assert AfterAccesses(s, id, minted, 2) == s2;
    assert AfterAccesses(s, id, minted, 3) == s3;
    assert AfterAccesses(s, id, minted, 4) == s4;
    hide AfterAccesses;
    NextAccess(s, id, minted, 4);
    assert s4.calls[id := Summarising] == s.calls[id := Summarising];
  }

  lemma {:induction false} NextAccess(s: State, id: nat, minted: string, n: nat)
    requires id in s.calls && Enabled(AfterAccesses(s, id, minted, n), Advance(id, minted))
    ensures AfterAccesses(s, id, minted, n + 1) == Step(AfterAccesses(s, id, minted, n), id, minted)
  {
    hide Step, Enabled;
    var t := AfterAccesses(s, id, minted, n);
    assert Next(t, Advance(id, minted)) == Step(t, id, minted);
  }

  lemma {:induction false} AccessesAdd(s: State, id: nat, minted: string, m: nat, n: nat)
    requires id in s.calls
    ensures AfterAccesses(s, id, minted, m + n) == AfterAccesses(AfterAccesses(s, id, minted, m), id, minted, n)
  {
    hide Step;
    if n == 0 {
    } else {
      AccessesAdd(s, id, minted, m, n - 1);
    }
  }

  /** The list request that seeds: two unlocked reads, the critical section, the summaries. */
  lemma {:induction false} SeedingListAlone(s: State, id: nat, minted: string)
    requires s.lock.None? && id in s.calls && s.calls[id].Begun?
    requires s.store.files == map[] && s.store.active == None
    ensures RunsThrough(s, id, minted, 8)
    ensures AfterAccesses(s, id, minted, 8) ==
            s.(calls := s.calls[id := Finished], seeds := s.seeds + [minted],
            store := PS.State(SeedOnly(minted), Some(minted)))
  {
    hide SeedOnly;
    var s2 := Move(Move(s, id, Loaded(None)), id, Wanting);
    assert AfterAccesses(s, id, minted, 1) == Move(AfterAccesses(s, id, minted, 0), id, Loaded(None));
    assert AfterAccesses(s, id, minted, 2) == s2;
    SeedingAlone(s2, id, minted);
    hide AfterAccesses, Step;
    forall k: nat | k <= 5
      ensures AfterAccesses(s, id, minted, 2 + k) == AfterAccesses(s2, id, minted, k)
    {
      AccessesAdd(s, id, minted, 2, k);
    }
    SeedingEnds(s, id, minted);
    forall k: nat | k < 8
      ensures Enabled(AfterAccesses(s, id, minted, k), Advance(id, minted))
    {
      if 2 <= k < 7 {
        assert AfterAccesses(s, id, minted, 2 + (k - 2)) == AfterAccesses(s2, id, minted, k - 2);
      }
    }
  }

  /** A list request with nobody in between does to store and pointer what the whole handler does. */
  lemma {:induction false} ListAloneIsAtomic(s: State, id: nat, minted: string)
    requires s.lock.None? && id !in s.calls
    ensures var began := Next(s, BeginList(id));
            var seeds := s.store.files == map[] && s.store.active == None;
            var n := if seeds then 8 else 3;
            && RunsThrough(began, id, minted, n)
            && var s' := AfterAccesses(began, id, minted, n);
            && s' == began.(calls := began.calls[id := Finished], store := s'.store, seeds := s'.seeds)
            && s'.store == PS.Handle(s.store, PS.ListProfiles(minted)).0
            && s'.seeds == if seeds then s.seeds + [minted] else s.seeds
  {
    hide PS.StoreAt, SeedOnly;
    var began := Next(s, BeginList(id));
    if s.store.files == map[] && s.store.active == None {
      hide AfterAccesses, Step, RunsThrough;
      SeedingListAlone(began, id, minted);
      SeedIsStoredUnderItsName(s.store, minted);
    } else {
      var s1 := Move(began, id, Loaded(s.store.active));
      var s2 := Move(s1, id, Summarising);
      assert AfterAccesses(began, id, minted, 1) == s1;
      assert AfterAccesses(began, id, minted, 2) == s2;
      assert AfterAccesses(began, id, minted, 3) == Move(s2, id, Finished);
    }
  }

  lemma {:induction false} SeedingEnds(s: State, id: nat, minted: string)
    requires id in s.calls && AfterAccesses(s, id, minted, 7).calls[id].Summarising?
    requires AfterAccesses(s, id, minted, 7).lock.None?
    ensures AfterAccesses(s, id, minted, 8) == Move(AfterAccesses(s, id, minted, 7), id, Finished)
  {
    hide AfterAccesses;
    NextAccess(s, id, minted, 7);
  }

  /** So does an activate request. */
  lemma ActivateAloneIsAtomic(s: State, id: nat, target: string, minted: string)
    requires s.lock.None? && id !in s.calls
    ensures var began := Next(s, BeginActivate(id, target));
            var n := if IsStoredId(s.store, target) then 2 else 1;
            && RunsThrough(began, id, minted, n)
            && var s' := AfterAccesses(began, id, minted, n);
            && s' == began.(calls := began.calls[id := Finished], store := s'.store)
            && s'.store == PS.Handle(s.store, PS.ActivateProfile(target)).0
  {
    var began := Next(s, BeginActivate(id, target));
    var s1 := AfterAccesses(began, id, minted, 1);
    assert AfterAccesses(began, id, minted, 0) == began;
    assert s1 == Step(began, id, minted);
    assert AfterAccesses(began, id, minted, 2) == Step(s1, id, minted);
  }

  /** A request may be killed at any moment, and one that waits for nothing may always go on. */
  lemma AnyRequestMayDieOrGoOn(s: State, id: nat, minted: string)
    requires id in s.calls
    ensures Enabled(s, Kill(id))
    ensures !s.calls[id].Finished? && (s.lock == None || !NeedsLock(s.calls[id])) ==> Enabled(s, Advance(id, minted))
  {
  }
}
