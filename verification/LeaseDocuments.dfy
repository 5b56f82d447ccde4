/**
  What a lease file says, by its members: the reader of the lease and the claim
  rule, stated for any JSON document on the lease path, whoever wrote it.
 */
module LeaseDocuments {
  import opened Prelude
  import opened JsonModel
  import opened LeaseModel

  /** The object has this member. */
  ghost predicate Has(members: seq<Member>, key: string, value: Json) {
    exists i :: 0 <= i < |members| && members[i].key == key && members[i].value == value
  }

  /** Python dictionaries hold each key once. */
  ghost predicate UniqueKeys(members: seq<Member>) {
    forall i, j :: 0 <= i < j < |members| ==> members[i].key != members[j].key
  }

  /** The value is this integer to isinstance(value, int), of which bool is a subclass. */
  ghost predicate IsInt(value: Json, n: int) {
    value == JInt(n) || (value == JBool(true) && n == 1) || (value == JBool(false) && n == 0)
  }

  /** The value is this number to isinstance(value, int | float). */
  ghost predicate IsNumber(value: Json, r: real) {
    value == JFloat(r) || exists n :: IsInt(value, n) && r == n as real
  }

  ghost predicate HasInt(members: seq<Member>, key: string, n: int) {
    exists value :: Has(members, key, value) && IsInt(value, n)
  }

  ghost predicate HasNumber(members: seq<Member>, key: string, r: real) {
    exists value :: Has(members, key, value) && IsNumber(value, r)
  }

  /** The file is a JSON object with the three required fields, of the required types. */
  ghost predicate Says(file: LeaseFile, owner: string, generation: int, expiresAt: real) {
    && file.Document? && file.json.JObject?
    && Has(file.json.members, "owner_instance_id", JString(owner))
    && HasInt(file.json.members, "generation", generation)
    && HasNumber(file.json.members, "expires_at", expiresAt)
  }

  /** The file names a host that is not the empty string. */
  ghost predicate SaysHost(file: LeaseFile, host: string) {
    && file.Document? && file.json.JObject?
    && host != "" && Has(file.json.members, "owner_host", JString(host))
  }

  ghost predicate SaysPid(file: LeaseFile, pid: int) {
    file.Document? && file.json.JObject? && HasInt(file.json.members, "owner_pid", pid)
  }

  /** A lease file as json.loads would read it. */
  ghost predicate KeysOnce(file: LeaseFile) {
    file.Document? && file.json.JObject? ==> UniqueKeys(file.json.members)
  }

  lemma {:induction false} LookupFinds(members: seq<Member>, key: string, value: Json)
    requires UniqueKeys(members)
    ensures Lookup(members, key) == Some(value) <==> Has(members, key, value)
  {
    if members == [] {
    } else {
      var rest := members[1..];
      LookupFinds(rest, key, value);
      assert members == [members[0]] + rest;
      if Has(rest, key, value) {
        var i :| 0 <= i < |rest| && rest[i].key == key && rest[i].value == value;
        assert members[i + 1] == rest[i];
      }
      if Has(members, key, value) && members[0].key != key {
        var i :| 0 <= i < |members| && members[i].key == key && members[i].value == value;
        assert rest[i - 1] == members[i];
      }
    }
  }

  lemma {:induction false} StringField(members: seq<Member>, key: string, text: string)
    requires UniqueKeys(members)
    ensures AsString(Lookup(members, key)) == Some(text) <==> Has(members, key, JString(text))
  {
    LookupFinds(members, key, JString(text));
  }

  lemma {:induction false} IntField(members: seq<Member>, key: string, n: int)
    requires UniqueKeys(members)
    ensures AsInt(Lookup(members, key)) == Some(n) <==> HasInt(members, key, n)
  {
    hide UniqueKeys, Has, Lookup;
    forall value
      ensures Lookup(members, key) == Some(value) <==> Has(members, key, value)
    {
      LookupFinds(members, key, value);
    }
    if Lookup(members, key).Some? {
      assert Has(members, key, Lookup(members, key).value);
    }
  }

  lemma {:induction false} NumberField(members: seq<Member>, key: string, r: real)
    requires UniqueKeys(members)
    ensures AsNumber(Lookup(members, key)) == Some(r) <==> HasNumber(members, key, r)
  {
    hide UniqueKeys, Has, Lookup;
    forall value
      ensures Lookup(members, key) == Some(value) <==> Has(members, key, value)
    {
      LookupFinds(members, key, value);
    }
    if Lookup(members, key).Some? {
      var value := Lookup(members, key).value;
      assert Has(members, key, value);
      if AsInt(Some(value)).Some? {
        assert IsInt(value, AsInt(Some(value)).value);
      }
    }
  }

  /**
    Reading, field by field: a payload is read exactly from a document with a
    string owner, an integer generation and a numeric expiry, with those values;
    a host and a pid are read exactly when the document has them with the right
    type, and nothing else about the document matters.
   */
  lemma ReadFieldByField(
    file: LeaseFile, owner: string, generation: int, expiresAt: real, host: string, pid: int)
    requires KeysOnce(file)
    ensures var payload := ReadPayload(file);
            && (Says(file, owner, generation, expiresAt) <==>
                && payload.Some? && payload.value.owner == owner
                && payload.value.generation == generation && payload.value.expiresAt == expiresAt)
            && (payload.Some? ==> (payload.value.host == Some(host) <==> SaysHost(file, host)))
            && (payload.Some? ==> (payload.value.pid == Some(pid) <==> SaysPid(file, pid)))
  {
    hide Lookup, Has, HasInt, HasNumber, UniqueKeys, AsString, AsInt, AsNumber;
    if file.Document? && file.json.JObject? {
      var members := file.json.members;
      StringField(members, "owner_instance_id", owner);
      IntField(members, "generation", generation);
      NumberField(members, "expires_at", expiresAt);
      StringField(members, "owner_host", host);
      IntField(members, "owner_pid", pid);
    }
  }

  /** Exactly when a file reads as no lease: not one owner, generation and expiry is what it says. */
  lemma ReadsAsNoLease(file: LeaseFile)
    requires KeysOnce(file)
    ensures ReadPayload(file).None? <==>
            forall owner, generation, expiresAt :: !Says(file, owner, generation, expiresAt)
  {
    hide ReadPayload, Says, KeysOnce;
    forall owner, generation, expiresAt
      ensures ReadPayload(file).None? ==> !Says(file, owner, generation, expiresAt)
    {
      ReadFieldByField(file, owner, generation, expiresAt, "", 0);
    }
    if ReadPayload(file).Some? {
      var payload := ReadPayload(file).value;
      ReadFieldByField(file, payload.owner, payload.generation, payload.expiresAt, "", 0);
    }
  }

  /** The file records a process on the claimer's own host, other than the claimer, that is gone. */
  ghost predicate SaysDeadProcess(file: LeaseFile, p: Process, probe: Probe) {
    && SaysHost(file, p.host)
    && exists pid :: SaysPid(file, pid) && pid != p.pid && (pid <= 0 || probe(pid).NoSuchProcess?)
  }

  lemma DeadByTheDocument(file: LeaseFile, p: Process, probe: Probe)
    requires KeysOnce(file) && ReadPayload(file).Some?
    ensures OwnerIsDead(p, ReadPayload(file).value, probe) <==> SaysDeadProcess(file, p, probe)
  {
    hide ReadPayload, Says, KeysOnce, SaysHost, SaysPid;
    var payload := ReadPayload(file).value;
    ReadFieldByField(file, "", 0, 0.0, p.host, 0);
    forall pid
      ensures payload.pid == Some(pid) <==> SaysPid(file, pid)
    {
      ReadFieldByField(file, "", 0, 0.0, "", pid);
    }
    NoEmptyHost(file);
  }

  lemma NoEmptyHost(file: LeaseFile)
    ensures ReadPayload(file).Some? ==> ReadPayload(file).value.host != Some("")
  {
  }

  /**
    The claim rule by the document: one's own lease is claimed again with the
    generation it says; another instance's is refused, and the file left alone,
    exactly while it is not expired and does not record a dead process on the
    claimer's host, and is otherwise taken over with the next generation. A lease
    that does not say host and pid is thus taken over by expiry alone.
   */
  lemma ClaimByTheDocument(
    file: LeaseFile, owner: string, generation: int, expiresAt: real, p: Process, now: real, probe: Probe)
    requires KeysOnce(file) && Says(file, owner, generation, expiresAt)
    ensures var effect := Apply(file, Claim(p, now, probe));
            if owner == p.instance then effect.1 == Claimed(generation, false)
            else if now < expiresAt && !SaysDeadProcess(file, p, probe)
            then effect == (file, Held(owner, expiresAt))
            else effect.1 == Claimed(generation + 1, true)
  {
    hide ReadPayload, Says, KeysOnce, SaysDeadProcess, OwnerIsDead, NewDocument;
    ReadFieldByField(file, owner, generation, expiresAt, "", 0);
    DeadByTheDocument(file, p, probe);
  }

  /** A file that says no lease is claimed, by anyone, with generation 1. */
  lemma ClaimWithoutDocument(file: LeaseFile, p: Process, now: real, probe: Probe)
    requires KeysOnce(file)
    requires forall owner, generation, expiresAt :: !Says(file, owner, generation, expiresAt)
    ensures Apply(file, Claim(p, now, probe)).1 == Claimed(1, false)
  {
    hide ReadPayload, Says, KeysOnce, NewDocument;
    ReadsAsNoLease(file);
  }

  /** What a claim or renewal that succeeds leaves on the lease path, by the document. */
  lemma WrittenDocumentSays(file: LeaseFile, s: Step)
    requires Apply(file, s).1.Claimed? || Apply(file, s).1.Renewed?
    ensures var generation := if s.Claim? then Apply(file, s).1.generation else s.token;
            var file' := Apply(file, s).0;
            && KeysOnce(file')
            && Says(file', s.p.instance, generation, s.now + s.p.ttl)
            && (s.p.host != "" ==> SaysHost(file', s.p.host))
            && SaysPid(file', s.p.pid)
  {
    hide ReadPayload, Accepts, ClaimRefused, ClaimGeneration;
    var generation := if s.Claim? then Apply(file, s).1.generation else s.token;
    assert Apply(file, s).0 == NewDocument(s.p, generation, s.now + s.p.ttl);
    NewDocumentSays(s.p, generation, s.now + s.p.ttl);
  }

  lemma HasAt(members: seq<Member>, i: nat)
    requires i < |members|
    ensures Has(members, members[i].key, members[i].value)
  {
  }

  lemma NewDocumentSays(p: Process, generation: int, expiresAt: real)
    ensures var file := NewDocument(p, generation, expiresAt);
            && KeysOnce(file)
            && Says(file, p.instance, generation, expiresAt)
            && (p.host != "" ==> SaysHost(file, p.host))
            && SaysPid(file, p.pid)
  {
    var members := NewDocument(p, generation, expiresAt).json.members;
    HasAt(members, 0);
    HasAt(members, 1);
    HasAt(members, 2);
    HasAt(members, 3);
    HasAt(members, 4);
    hide Has;
    assert members[0] == Member("owner_instance_id", JString(p.instance));
    assert members[1] == Member("generation", JInt(generation));
    assert members[2] == Member("expires_at", JFloat(expiresAt));
    assert members[3] == Member("owner_host", JString(p.host));
    assert members[4] == Member("owner_pid", JInt(p.pid));
    assert |members[0].key| == 17 && |members[4].key| == 9;
    assert |members[1].key| == |members[2].key| == |members[3].key| == 10;
    assert members[1].key[0] == 'g' && members[2].key[0] == 'e' && members[3].key[0] == 'o';
    assert IsInt(JInt(generation), generation) && IsInt(JInt(p.pid), p.pid) && IsNumber(JFloat(expiresAt), expiresAt);
  }

  /** The three operations that need a token, by the document: another owner or generation has no effect. */
  lemma TokenByTheDocument(file: LeaseFile, instance: string, token: int)
    requires KeysOnce(file)
    ensures Accepts(file, instance, token) <==> exists expiresAt :: Says(file, instance, token, expiresAt)
  {
    hide ReadPayload, Says, KeysOnce;
    forall expiresAt
      ensures Says(file, instance, token, expiresAt) <==>
              var payload := ReadPayload(file);
              && payload.Some? && payload.value.owner == instance
              && payload.value.generation == token && payload.value.expiresAt == expiresAt
    {
      ReadFieldByField(file, instance, token, expiresAt, "", 0);
    }
    if Accepts(file, instance, token) {
      assert Says(file, instance, token, ReadPayload(file).value.expiresAt);
    }
  }

  /** A lease an older server wrote: three members, no host and no pid. */
  lemma LegacyLeaseIsHonoured(p: Process, now: real, probe: Probe)
    requires p.instance != "primary"
    ensures var file := Document(JObject([Member("owner_instance_id", JString("primary")),
                                          Member("generation", JInt(7)),
                                          Member("expires_at", JFloat(3600.0))]));
            if now < 3600.0 then Apply(file, Claim(p, now, probe)) == (file, Held("primary", 3600.0))
            else Apply(file, Claim(p, now, probe)).1 == Claimed(8, true)
  {
    var members := [Member("owner_instance_id", JString("primary")),
                    Member("generation", JInt(7)),
                    Member("expires_at", JFloat(3600.0))];
    var file := Document(JObject(members));
    assert |members[0].key| == 17 && |members[1].key| == |members[2].key| == |"owner_host"| == 10;
    assert members[1].key[0] == 'g' && members[2].key[0] == 'e' && "owner_host"[0] == 'o';
    assert members[0] == Member("owner_instance_id", JString("primary"));
    assert Has(members, "generation", JInt(7)) && IsInt(JInt(7), 7) by { assert members[1].value == JInt(7); }
    assert Has(members, "expires_at", JFloat(3600.0)) by { assert members[2].value == JFloat(3600.0); }
    assert IsNumber(JFloat(3600.0), 3600.0);
    assert !SaysDeadProcess(file, p, probe);
    ClaimByTheDocument(file, "primary", 7, 3600.0, p, now, probe);
  }
}
