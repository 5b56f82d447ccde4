/** What every sequence of requests keeps, and exactly which requests break it. */
module ProfileRuns {
  import opened Prelude
  import opened ProfileStore

  ghost predicate UniqueIds(files: map<string, Profile>) {
    forall a, b :: a in files && b in files && files[a].id == files[b].id ==> a == b
  }

  ghost predicate PointsAtStored(s: State) {
    s.active.Some? ==> exists n :: n in s.files && s.files[n].id == s.active.value
  }

  /** Ids are unique, the limit holds, and the active pointer is none or the id of a stored profile. */
  ghost predicate Inv(s: State) {
    && (forall n :: n in s.files ==> ValidName(n))
    && UniqueIds(s.files)
    && |s.files| <= MAX_AGENT_PROFILES
    && PointsAtStored(s)
  }

  /** uuid4 returns an id no stored profile has. */
  ghost predicate Minted(s: State, r: Request) {
    r.ListProfiles? || r.SaveProfile? ==> forall n :: n in s.files ==> s.files[n].id != r.minted
  }

  /**
    The requests that break the invariant: a save or a delete under a name that
    still ends in ".json" works on the file of another profile, the one with the
    suffix removed.
   */
  predicate WorksOnAnotherProfile(s: State, r: Request) {
    match r
    case SaveProfile(name, _, _) =>
      && ValidName(name) && EndsWithJson(name)
      && if name in s.files then Stem(name) in s.files || |s.files| < MAX_AGENT_PROFILES
         else Stem(name) in s.files && s.active == Some(s.files[Stem(name)].id)
    case DeleteProfile(name) =>
      && ValidName(name) && EndsWithJson(name)
      && Stem(name) in s.files && s.active == Some(s.files[Stem(name)].id)
    case _ => false
  }

  lemma StemDiffers(name: string)
    ensures Stem(name) == name <==> !EndsWithJson(name)
  {
  }

  /** Storing a record under a stem: what the new store must look like to keep the invariant. */
  lemma StoringKeepsInvIff(s: State, stem: string, p: Profile)
    requires Inv(s) && ValidName(stem) && (stem in s.files || |s.files| < MAX_AGENT_PROFILES)
    ensures Inv(s.(files := s.files[stem := p])) <==>
            && (forall n :: n in s.files && n != stem ==> s.files[n].id != p.id)
            && (stem in s.files && s.active == Some(s.files[stem].id) ==> p.id == s.files[stem].id)
  {
    hide ValidName, UniqueIds, PointsAtStored;
    StoringKeepsIdsIff(s.files, stem, p);
    StoringKeepsPointerIff(s, stem, p);
    assert s.files[stem := p].Keys == s.files.Keys + {stem};
  }

  lemma StoringKeepsIdsIff(files: map<string, Profile>, stem: string, p: Profile)
    requires UniqueIds(files)
    ensures UniqueIds(files[stem := p]) <==> forall n :: n in files && n != stem ==> files[n].id != p.id
  {
    var files' := files[stem := p];
    assert files'[stem].id == p.id;
    forall n | n in files && n != stem && UniqueIds(files')
      ensures files[n].id != p.id
    {
      assert files'[n] == files[n];
    }
  }

  lemma StoringKeepsPointerIff(s: State, stem: string, p: Profile)
    requires PointsAtStored(s) && UniqueIds(s.files)
    ensures PointsAtStored(s.(files := s.files[stem := p])) <==>
            (stem in s.files && s.active == Some(s.files[stem].id) ==> p.id == s.files[stem].id)
  {
    var s' := s.(files := s.files[stem := p]);
    if s.active.Some? {
      var n :| n in s.files && s.files[n].id == s.active.value;
      assert n in s'.files && s'.files[n] == if n == stem then p else s.files[n];
    }
  }

  lemma SaveKeepsInvIff(s: State, r: Request)
    requires Inv(s) && r.SaveProfile? && Minted(s, r)
    ensures Inv(Handle(s, r).0) <==> !WorksOnAnotherProfile(s, r)
  {
    hide ValidName, EndsWithJson, Stem, PointsAtStored;
    var stem := Stem(r.name);
    if ValidName(r.name) && (stem in s.files || |s.files| < MAX_AGENT_PROFILES) {
      StemIsValid(r.name);
      StemDiffers(r.name);
      var p := if r.name in s.files then Profile(s.files[r.name].id, s.files[r.name].revision + 1)
      else Profile(r.minted, r.revision);
      StoringKeepsInvIff(s, stem, p);
    }
  }

  lemma DeleteKeepsInvIff(s: State, r: Request)
    requires Inv(s) && r.DeleteProfile?
    ensures Inv(Handle(s, r).0) <==> !WorksOnAnotherProfile(s, r)
  {
    hide ValidName, EndsWithJson, Stem;
    if ValidName(r.name) {
      var s', stem := Handle(s, r).0, Stem(r.name);
      StemDiffers(r.name);
      assert s'.files.Keys == s.files.Keys - {stem};
      if s.active.Some? {
        var n :| n in s.files && s.files[n].id == s.active.value;
        assert n != stem ==> n in s'.files;
      }
    }
  }

  lemma OthersKeepInv(s: State, r: Request)
    requires Inv(s) && Minted(s, r) && (r.ListProfiles? || r.RenameProfile? || r.ActivateProfile?)
    ensures Inv(Handle(s, r).0)
  {
    match r
    case ListProfiles(minted) =>
      assert !EndsWithJson(SEED_PROFILE_NAME) by {
        assert SEED_PROFILE_NAME[|SEED_PROFILE_NAME| - 1] == 't';
        assert JSON_SUFFIX[|JSON_SUFFIX| - 1] == 'n';
      }
      if s.files == map[] && s.active == None {
        assert Handle(s, r).0.files == map[SEED_PROFILE_NAME := Profile(minted, 0)];
        assert SEED_PROFILE_NAME in Handle(s, r).0.files;
      }
    case RenameProfile(name, newName) =>
      RenameKeepsInv(s, r);
    case ActivateProfile(id) =>
  }

  lemma RenameKeepsInv(s: State, r: Request)
    requires Inv(s) && r.RenameProfile?
    ensures Inv(Handle(s, r).0)
  {
    hide ValidName, EndsWithJson, Stem;
    var s' := Handle(s, r).0;
    var source, target := Stem(r.name), Stem(r.newName);
    if s' != s {
      StemIsValid(r.newName);
      assert s'.files.Keys == s.files.Keys + {target} - {source};
      if s.active.Some? {
        var n :| n in s.files && s.files[n].id == s.active.value;
        assert (if n == source then target else n) in s'.files;
      }
    }
  }

  /** One request, exactly: the invariant survives unless the request works on another profile's file. */
  lemma RequestKeepsInvIff(s: State, r: Request)
    requires Inv(s) && Minted(s, r)
    ensures Inv(Handle(s, r).0) <==> !WorksOnAnotherProfile(s, r)
  {
    hide Inv, Handle, WorksOnAnotherProfile;
    match r
    case SaveProfile(_, _, _) => SaveKeepsInvIff(s, r);
    case DeleteProfile(_) => DeleteKeepsInvIff(s, r);
    case _ =>
      OthersKeepInv(s, r);
      NeverForOthers(s, r);
  }

  lemma NeverForOthers(s: State, r: Request)
    requires !r.SaveProfile? && !r.DeleteProfile?
    ensures !WorksOnAnotherProfile(s, r)
  {
  }

  /** The request does not save or delete under a name ending in ".json". */
  predicate PlainName(r: Request) {
    r.SaveProfile? || r.DeleteProfile? ==> !EndsWithJson(r.name)
  }

  // ------------------------------------------------------------------- runs

  ghost function StateAt(requests: seq<Request>, n: nat): (s: State)
    requires n <= |requests|
  {
    if n == 0 then State(map[], None) else Handle(StateAt(requests, n - 1), requests[n - 1]).0
  }

  ghost predicate WellMinted(requests: seq<Request>) {
    forall k: nat :: k < |requests| ==> Minted(StateAt(requests, k), requests[k])
  }

  /**
    Over every sequence of requests from an empty store with no pointer in which
    no save or delete uses a name ending in ".json", the invariant holds after
    each request and every list response names at least one profile.
   */
  lemma {:induction false} PlainRequestsKeepInv(requests: seq<Request>, n: nat)
    requires WellMinted(requests) && n <= |requests|
    requires forall k :: 0 <= k < |requests| ==> PlainName(requests[k])
    ensures Inv(StateAt(requests, n))
    ensures n < |requests| && requests[n].ListProfiles? ==>
              var response := Handle(StateAt(requests, n), requests[n]).1;
              response.Listed? && response.names != {}
  {
    hide Inv, Handle;
    if n == 0 {
      EmptyInv();
    } else {
      PlainRequestsKeepInv(requests, n - 1);
      RequestKeepsInvIff(StateAt(requests, n - 1), requests[n - 1]);
      PlainIsHarmless(StateAt(requests, n - 1), requests[n - 1]);
    }
    if n < |requests| && requests[n].ListProfiles? {
      ListIsEmptyIffStranded(StateAt(requests, n), requests[n].minted);
      StrandedBreaksInv(StateAt(requests, n));
    }
  }

  lemma EmptyInv()
    ensures Inv(State(map[], None))
  {
  }

  lemma PlainIsHarmless(s: State, r: Request)
    requires PlainName(r)
    ensures !WorksOnAnotherProfile(s, r)
  {
  }

  lemma StrandedBreaksInv(s: State)
    requires Inv(s)
    ensures !(s.files == map[] && s.active.Some?)
  {
  }

  /** Exactly when a list response is empty: no profiles, yet a pointer that stops the seeding. */
  lemma ListIsEmptyIffStranded(s: State, minted: string)
    ensures Handle(s, ListProfiles(minted)).1.Listed?
    ensures Handle(s, ListProfiles(minted)).1.names == {} <==> s.files == map[] && s.active.Some?
  {
    var s' := Handle(s, ListProfiles(minted)).0;
    if s.files == map[] && s.active == None {
      assert s'.files == map[Stem(SEED_PROFILE_NAME) := Profile(minted, 0)];
      assert Stem(SEED_PROFILE_NAME) in s'.files.Keys;
    } else if s.files != map[] {
      assert s.files.Keys != {};
    }
  }

  /** Renaming and overwriting never move the pointer: it keeps designating the same profile. */
  lemma PointerFollowsItsProfile(s: State, r: Request, n: string)
    requires Inv(s) && Minted(s, r) && PlainName(r) && (r.SaveProfile? || r.RenameProfile?)
    requires n in s.files && s.active == Some(s.files[n].id)
    ensures var s' := Handle(s, r).0;
            && s'.active == s.active
            && exists m :: m in s'.files && s'.files[m].id == s.active.value &&
                           (m == n || (r.RenameProfile? && n == Stem(r.name) && m == Stem(r.newName)
                                       && s'.files[m] == s.files[n]))
  {
    hide ValidName, EndsWithJson;
    var s' := Handle(s, r).0;
    var m := if r.RenameProfile? && s' != s && n == Stem(r.name) then Stem(r.newName) else n;
    assert m in s'.files && s'.files[m].id == s.active.value;
  }

  /** Saving over a stored profile keeps its id exactly when the name does not end in ".json". */
  lemma OverwriteKeepsIdIffPlain(s: State, r: Request)
    requires Inv(s) && Minted(s, r) && r.SaveProfile? && ValidName(r.name) && Stem(r.name) in s.files
    ensures var s' := Handle(s, r).0;
            (s'.files[Stem(r.name)].id == s.files[Stem(r.name)].id <==> !EndsWithJson(r.name))
    ensures !EndsWithJson(r.name) ==> Handle(s, r).0.files[r.name].revision == s.files[r.name].revision + 1
  {
    StemDiffers(r.name);
  }

  /** Renaming to a free name and back restores the store and the pointer. */
  lemma RenameBackRestores(s: State, name: string, newName: string)
    requires ValidName(name) && ValidName(newName)
    requires Stem(name) in s.files && Stem(newName) !in s.files
    ensures var there := Handle(s, RenameProfile(name, newName));
            var back := Handle(there.0, RenameProfile(newName, name));
            there.1 == Renamed && back == (s, Renamed)
  {
    hide ValidName, EndsWithJson, Stem;
    var there := Handle(s, RenameProfile(name, newName)).0;
    assert there.files == s.files[Stem(newName) := s.files[Stem(name)]] - {Stem(name)};
    assert Handle(there, RenameProfile(newName, name)).0.files == s.files;
  }

  /** Creating a profile under a plain new name and deleting it restores the store and the pointer. */
  lemma CreateThenDeleteRestores(s: State, r: Request)
    requires Inv(s) && Minted(s, r) && r.SaveProfile? && ValidName(r.name) && PlainName(r)
    requires r.name !in s.files && |s.files| < MAX_AGENT_PROFILES
    ensures var created := Handle(s, r);
            var deleted := Handle(created.0, DeleteProfile(r.name));
            && created.1 == Saved && created.0.active == s.active
            && created.0.files[r.name] == Profile(r.minted, r.revision)
            && deleted == (s, Deleted)
  {
    StemDiffers(r.name);
    hide ValidName, EndsWithJson, Stem;
    var created := Handle(s, r).0;
    assert created.files == s.files[r.name := Profile(r.minted, r.revision)];
    assert Handle(created, DeleteProfile(r.name)).0.files == s.files;
  }

  /** Deleting "default.json" removes the seeded profile "default", keeps the pointer, and the next list is empty. */
  lemma SuffixedDeleteStrandsThePointer(id: string, other: string)
    ensures var requests := [ListProfiles(id), DeleteProfile("default.json"), ListProfiles(other)];
            && StateAt(requests, 1) == State(map["default" := Profile(id, 0)], Some(id))
            && StateAt(requests, 2) == State(map[], Some(id))
            && Handle(StateAt(requests, 2), requests[2]).1 == Listed({}, Some(id))
  {
    hide ValidName, EndsWithJson, Stem;
    SeedNames();
    var requests := [ListProfiles(id), DeleteProfile("default.json"), ListProfiles(other)];
    assert StateAt(requests, 0) == State(map[], None);
    assert StateAt(requests, 1).files == map["default" := Profile(id, 0)];
    assert StateAt(requests, 2).files == map[];
  }

  lemma SeedNames()
    ensures Stem("default") == "default" && "default.json" != "default"
    ensures ValidName("default.json") && EndsWithJson("default.json") && Stem("default.json") == "default"
  {
    var name := "default.json";
    assert name[7..] == JSON_SUFFIX && name[..7] == "default";
    assert !EndsWithJson("default") by {
      assert "default"[6] == 't' && JSON_SUFFIX[4] == 'n';
    }
  }
}
