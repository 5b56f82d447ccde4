/**
  The agent-profile store and the active pointer kept in the settings. A profile
  file is addressed by its stem; the store strips one ".json" from the name it
  is given, while the handlers look identities up by the name itself.
 */
module ProfileStore {
  import opened Prelude

  const MAX_AGENT_PROFILES := 50
  const SEED_PROFILE_NAME := "default"
  const JSON_SUFFIX := ".json"

  datatype Profile = Profile(id: string, revision: int)

  datatype State = State(files: map<string, Profile>, active: Option<string>)

  datatype Request =
    | ListProfiles(minted: string)
    | SaveProfile(name: string, minted: string, revision: int)
    | DeleteProfile(name: string)
    | RenameProfile(name: string, newName: string)
    | ActivateProfile(id: string)

  datatype Response =
    | Listed(names: set<string>, active: Option<string>)
    | Saved
    | LimitReached
    | Deleted
    | Renamed
    | NotFound
    | NameTaken
    | Activated
    | Unprocessable

  predicate IsAlphanumeric(c: char) {
    'a' <= c <= 'z' || 'A' <= c <= 'Z' || '0' <= c <= '9'
  }

  /** ^[A-Za-z0-9][A-Za-z0-9._-]{0,63}$ */
  predicate ValidName(name: string) {
    && 1 <= |name| <= 64
    && IsAlphanumeric(name[0])
    && forall k :: 0 < k < |name| ==> IsAlphanumeric(name[k]) || name[k] in "._-"
  }

  predicate EndsWithJson(name: string) {
    |name| >= |JSON_SUFFIX| && name[|name| - |JSON_SUFFIX|..] == JSON_SUFFIX
  }

  /** name.removesuffix(".json"): the stem of the file a name is stored in. */
  function Stem(name: string): (stem: string) {
    if EndsWithJson(name) then name[..|name| - |JSON_SUFFIX|] else name
  }

  /** A valid name resolves to a valid stem, so the store never rejects what the router let through. */
  lemma StemIsValid(name: string)
    requires ValidName(name)
    ensures ValidName(Stem(name))
  {
    assert JSON_SUFFIX[0] == '.';
    assert EndsWithJson(name) ==> name[|name| - |JSON_SUFFIX|] == name[|name| - |JSON_SUFFIX|..][0] == JSON_SUFFIX[0];
  }

  /** The stored file under a name's path, created or replaced within the limit. */
  function StoreAt(s: State, name: string, p: Profile): (effect: (State, Response)) {
    var stem := Stem(name);
    if stem !in s.files && |s.files| >= MAX_AGENT_PROFILES then (s, LimitReached)
    else (s.(files := s.files[stem := p]), Saved)
  }

  function Handle(s: State, r: Request): (effect: (State, Response)) {
    match r
    case ListProfiles(minted) =>
      var s' :=
        if s.files == map[] && s.active == None
        then StoreAt(s, SEED_PROFILE_NAME, Profile(minted, 0)).0.(active := Some(minted))
        else s;
      (s', Listed(s'.files.Keys, s'.active))
    case SaveProfile(name, minted, revision) =>
      if !ValidName(name) then (s, Unprocessable)
      else if name in s.files then StoreAt(s, name, Profile(s.files[name].id, s.files[name].revision + 1))
      else StoreAt(s, name, Profile(minted, revision))
    case DeleteProfile(name) =>
      if !ValidName(name) then (s, Unprocessable)
      else
        var active := if name in s.files && s.active == Some(s.files[name].id) then None else s.active;
        (State(s.files - {Stem(name)}, active), Deleted)
    case RenameProfile(name, newName) =>
      var source, target := Stem(name), Stem(newName);
      if !ValidName(name) || !ValidName(newName) then (s, Unprocessable)
      else if source !in s.files then (s, NotFound)
      else if source == target then (s, Renamed)
      else if target in s.files then (s, NameTaken)
      else (s.(files := s.files[target := s.files[source]] - {source}), Renamed)
    case ActivateProfile(id) =>
      if exists n :: n in s.files && s.files[n].id == id then (s.(active := Some(id)), Activated)
      else (s, NotFound)
  }

  /** The handlers over the store and the settings they mutate. */
  class AgentProfiles {
    var files: map<string, Profile>
    var active: Option<string>

    ghost function View(): (s: State)
      reads this
    {
      State(files, active)
    }

    constructor ()
      ensures View() == State(map[], None)
    {
      files, active := map[], None;
    }

    method Store(name: string, p: Profile) returns (response: Response)
      modifies this`files
      ensures (View(), response) == StoreAt(old(View()), name, p)
    {
      var stem := Stem(name);
      if stem !in files {
        var count := |files|;
        if count >= MAX_AGENT_PROFILES {
          return LimitReached;
        }
      }
      files := files[stem := p];
      response := Saved;
    }

    method List(minted: string) returns (response: Response)
      modifies this
      ensures (View(), response) == Handle(old(View()), ListProfiles(minted))
    {
      if files == map[] && active == None {
        var stored := Store(SEED_PROFILE_NAME, Profile(minted, 0));
        active := Some(minted);
      }
      response := Listed(files.Keys, active);
    }

    method Save(name: string, minted: string, revision: int) returns (response: Response)
      modifies this
      ensures (View(), response) == Handle(old(View()), SaveProfile(name, minted, revision))
    {
      if !ValidName(name) {
        return Unprocessable;
      }
      var p := Profile(minted, revision);
      if name in files {
        p := Profile(files[name].id, files[name].revision + 1);
      }
      response := Store(name, p);
    }

    method Delete(name: string) returns (response: Response)
      modifies this
      ensures (View(), response) == Handle(old(View()), DeleteProfile(name))
    {
      if !ValidName(name) {
        return Unprocessable;
      }
      var deletedId := if name in files then Some(files[name].id) else None;
      files := files - {Stem(name)};
      if deletedId.Some? && active == deletedId {
        active := None;
      }
      response := Deleted;
    }

    method Rename(name: string, newName: string) returns (response: Response)
      modifies this
      ensures (View(), response) == Handle(old(View()), RenameProfile(name, newName))
    {
      if !ValidName(name) || !ValidName(newName) {
        return Unprocessable;
      }
      var oldStem, newStem := Stem(name), Stem(newName);
      if oldStem !in files {
        return NotFound;
      }
      if oldStem == newStem {
        return Renamed;
      }
      if newStem in files {
        return NameTaken;
      }
      files := files[newStem := files[oldStem]];
      files := files - {oldStem};
      response := Renamed;
    }

    method Activate(id: string) returns (response: Response)
      modifies this
      ensures (View(), response) == Handle(old(View()), ActivateProfile(id))
    {
      var known := set n | n in files :: files[n].id;
      if id !in known {
        assert forall n :: n in files ==> files[n].id in known;
        return NotFound;
      }
      active := Some(id);
      response := Activated;
    }
  }
}
