/**
  What each request does to the stored profiles and the pointer, profile by
  profile, with names and limits written out.
 */
module ProfileRequests {
  import opened Prelude
  import opened ProfileStore

  /** A letter or digit, by its ASCII code. */
  predicate LetterOrDigit(c: char) {
    48 <= c as int <= 57 || 65 <= c as int <= 90 || 97 <= c as int <= 122
  }

  /** A name of 1 to 64 letters, digits, dots, underscores and hyphens, the first a letter or digit. */
  ghost predicate WellFormed(name: string) {
    && 0 < |name| <= 64
    && LetterOrDigit(name[0])
    && forall c :: c in name ==> LetterOrDigit(c) || c == '.' || c == '_' || c == '-'
  }

  /** The name is that of the file: "x" and "x.json" both name x. */
  ghost predicate NamesFile(name: string, file: string) {
    name == file + ".json" || (name == file && forall x :: name != x + ".json")
  }

  /** The file map with at most the entry under one name changed. */
  ghost predicate SameBut(files: map<string, Profile>, files': map<string, Profile>, name: string) {
    forall n :: n != name ==> (n in files' <==> n in files) && (n in files ==> files'[n] == files[n])
  }

  /** The router's name pattern, character by character. */
  lemma ValidIsWellFormed(name: string)
    ensures ValidName(name) <==> WellFormed(name)
  {
    if WellFormed(name) {
      forall k | 0 < k < |name|
        ensures IsAlphanumeric(name[k]) || name[k] in "._-"
      {
        assert name[k] in name;
      }
    }
  }

  /** Exactly the ending ".json" is dropped, once. */
  lemma StemIsTheFile(name: string, file: string)
    ensures NamesFile(name, file) <==> file == Stem(name)
  {
    var cut := |name| - 5;
    assert ".json" == JSON_SUFFIX;
    if EndsWithJson(name) {
      assert name == name[..cut] + ".json";
    }
    forall x | name == x + ".json"
      ensures EndsWithJson(name) && Stem(name) == x
    {
      assert name[cut..] == ".json" && name[..cut] == x;
    }
  }

  /** The names a request puts through the router's pattern. */
  function NamesIn(r: Request): (names: set<string>) {
    match r
    case SaveProfile(name, _, _) => {name}
    case DeleteProfile(name) => {name}
    case RenameProfile(name, newName) => {name, newName}
    case _ => {}
  }

  /** Which requests are turned away for their names, leaving everything as it is. */
  lemma BadNamesAreUnprocessable(s: State, r: Request)
    ensures Handle(s, r).1 == Unprocessable <==> exists name :: name in NamesIn(r) && !WellFormed(name)
    ensures Handle(s, r).1 == Unprocessable ==> Handle(s, r).0 == s
  {
    hide Stem;
    forall name
      ensures ValidName(name) <==> WellFormed(name)
    {
      ValidIsWellFormed(name);
    }
    hide ValidName, WellFormed;
    match r
    case SaveProfile(name, _, _) => assert name in NamesIn(r);
    case DeleteProfile(name) => assert name in NamesIn(r);
    case RenameProfile(name, newName) => assert name in NamesIn(r) && newName in NamesIn(r);
    case _ =>
  }

  /**
    Listing names every stored profile and the pointer; an empty store without a
    pointer first gets the profile "default", revision 0, as the active one.
   */
  lemma ListByProfile(s: State, minted: string)
    ensures var (s', response) := Handle(s, ListProfiles(minted));
            && response == Listed(s'.files.Keys, s'.active)
            && if s.active == None && (forall n :: n !in s.files)
               then s' == State(map["default" := Profile(minted, 0)], Some(minted))
               else s' == s
  {
    assert "default"[6] == 't' && ".json"[4] == 'n';
    StemIsTheFile("default", "default");
    assert (forall n :: n !in s.files) <==> s.files == map[];
  }

  /**
    Saving writes one file: with the id stored under the full name and the next
    revision, or else with the minted id and the given revision. Only a new file
    beyond the fiftieth is refused.
   */
  lemma SaveByProfile(s: State, name: string, file: string, minted: string, revision: int)
    requires WellFormed(name) && NamesFile(name, file)
    ensures var (s', response) := Handle(s, SaveProfile(name, minted, revision));
            if file !in s.files && |s.files| >= 50 then (s', response) == (s, LimitReached)
            else
              && response == Saved && s'.active == s.active
              && SameBut(s.files, s'.files, file) && file in s'.files
              && s'.files[file].id == (if name in s.files then s.files[name].id else minted)
              && s'.files[file].revision == (if name in s.files then s.files[name].revision + 1 else revision)
  {
    ValidIsWellFormed(name);
    StemIsTheFile(name, file);
    hide ValidName, WellFormed, NamesFile, Stem;
  }

  /**
    Deleting removes exactly the one file, stored or not, and clears the pointer
    exactly when it is the id stored under the full name; for a name without
    ".json" that is the id of the deleted profile.
   */
  lemma DeleteByProfile(s: State, name: string, file: string)
    requires WellFormed(name) && NamesFile(name, file)
    ensures var (s', response) := Handle(s, DeleteProfile(name));
            && response == Deleted
            && SameBut(s.files, s'.files, file) && file !in s'.files
            && s'.active == (if name in s.files && s.active == Some(s.files[name].id) then None else s.active)
            && (s'.active != s.active <==> name in s.files && s.active == Some(s.files[name].id))
            && (name == file && name in s.files && s.active == Some(s.files[name].id) ==> s'.active == None)
  {
    ValidIsWellFormed(name);
    StemIsTheFile(name, file);
    hide ValidName, WellFormed, NamesFile, Stem;
  }

  /**
    Renaming needs a stored source and a target that is free or the same file. It
    then moves the record, id and revision included, and touches nothing else.
   */
  lemma RenameByProfile(s: State, name: string, newName: string, source: string, target: string)
    requires WellFormed(name) && WellFormed(newName) && NamesFile(name, source) && NamesFile(newName, target)
    ensures var (s', response) := Handle(s, RenameProfile(name, newName));
            && response == (if source !in s.files then NotFound
                            else if target in s.files && target != source then NameTaken
                            else Renamed)
            && s'.active == s.active
            && (response != Renamed || source == target ==> s' == s)
            && (response == Renamed && source != target ==>
                  && source !in s'.files && target in s'.files && s'.files[target] == s.files[source]
                  && forall n :: n != source && n != target ==>
                                   (n in s'.files <==> n in s.files) && (n in s.files ==> s'.files[n] == s.files[n]))
  {
    ValidIsWellFormed(name);
    ValidIsWellFormed(newName);
    StemIsTheFile(name, source);
    StemIsTheFile(newName, target);
    hide ValidName, WellFormed, NamesFile, Stem;
  }

  /** Activating moves the pointer to the id, wherever it was, exactly when some stored profile has it. */
  lemma ActivateByProfile(s: State, id: string)
    ensures var (s', response) := Handle(s, ActivateProfile(id));
            if exists n :: n in s.files && s.files[n].id == id
            then response == Activated && s'.active == Some(id) && s'.files == s.files
            else response == NotFound && s' == s
  {
  }
}
