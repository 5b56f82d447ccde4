/**
  The conversation ownership lease as a transition function on the lease file.
  Every operation of ConversationLease runs under one exclusive file lock, so
  at this level each one is a single step; LeaseLocking takes the lock apart.
 */
module LeaseModel {
  import opened Prelude
  import opened JsonModel

  /** What os.kill(pid, 0) did. */
  datatype KillOutcome = Delivered | NoSuchProcess | NotPermitted | OtherOsError

  /** What signalling each pid of one host would do at one moment. */
  type Probe = int -> KillOutcome

  /** A server process: its instance id, host name, pid, and configured TTL. */
  datatype Process = Process(instance: string, host: string, pid: int, ttl: real)

  datatype Payload = Payload(
    owner: string,
    generation: int,
    expiresAt: real,
    host: Option<string>,
    pid: Option<int>)

  /** The lease path: no file, a file that is not JSON, or a JSON document. */
  datatype LeaseFile = Absent | Garbled | Document(json: Json)

  predicate IsPidAlive(pid: int, probe: Probe) {
    pid > 0 && probe(pid) != NoSuchProcess
  }

  const OWNER_KEY := "owner_instance_id"
  const GENERATION_KEY := "generation"
  const EXPIRES_KEY := "expires_at"
  const HOST_KEY := "owner_host"
  const PID_KEY := "owner_pid"

  /** Checks the fields of a parsed document: three are required, two optional. */
  function PayloadFrom(
    owner: Option<string>, generation: Option<int>, expiresAt: Option<real>, host: Option<string>, pid: Option<int>
  ): (payload: Option<Payload>)
  {
    if owner.None? || generation.None? || expiresAt.None? then None
    else
      Some(Payload(owner.value, generation.value, expiresAt.value, if host == Some("") then None else host, pid))
  }

  /** The lease as its readers see it; anything malformed reads as no lease. */
  function ReadPayload(file: LeaseFile): (payload: Option<Payload>)
    ensures payload.Some? ==> file.Document?
    ensures payload.Some? && payload.value.host.Some? ==> payload.value.host.value != ""
  {
    match file
    case Document(JObject(members)) =>
      PayloadFrom(
        AsString(Lookup(members, OWNER_KEY)),
        AsInt(Lookup(members, GENERATION_KEY)),
        AsNumber(Lookup(members, EXPIRES_KEY)),
        AsString(Lookup(members, HOST_KEY)),
        AsInt(Lookup(members, PID_KEY)))
    case _ => None
  }

  /** The document a process writes when it claims or renews. */
  function NewDocument(p: Process, generation: int, expiresAt: real): (file: LeaseFile) {
    Document(JObject([
                       Member(OWNER_KEY, JString(p.instance)),
                       Member(GENERATION_KEY, JInt(generation)),
                       Member(EXPIRES_KEY, JFloat(expiresAt)),
                       Member(HOST_KEY, JString(p.host)),
                       Member(PID_KEY, JInt(p.pid))]))
  }

  /** What a reader gets back from that document: an empty host name is dropped. */
  function PayloadOf(p: Process, generation: int, expiresAt: real): (payload: Payload) {
    Payload(p.instance, generation, expiresAt,
            if p.host == "" then None else Some(p.host), Some(p.pid))
  }

  lemma {:induction false} LookupHead(m: Member, rest: seq<Member>, key: string)
    ensures Lookup([m] + rest, key) == if m.key == key then Some(m.value) else Lookup(rest, key)
  {
    assert ([m] + rest)[1..] == rest;
  }

  /** The five lookups of a document whose five keys differ. */
  lemma LookupInFive(a: Member, b: Member, c: Member, d: Member, e: Member)
    requires a.key != b.key && a.key != c.key && a.key != d.key && a.key != e.key
    requires b.key != c.key && b.key != d.key && b.key != e.key
    requires c.key != d.key && c.key != e.key && d.key != e.key
    ensures Lookup([a, b, c, d, e], a.key) == Some(a.value)
    ensures Lookup([a, b, c, d, e], b.key) == Some(b.value)
    ensures Lookup([a, b, c, d, e], c.key) == Some(c.value)
    ensures Lookup([a, b, c, d, e], d.key) == Some(d.value)
    ensures Lookup([a, b, c, d, e], e.key) == Some(e.value)
  {
    var r4 := [e] + [];
    var r3 := [d] + r4;
    var r2 := [c] + r3;
    var r1 := [b] + r2;
    assert [a, b, c, d, e] == [a] + r1;
    LookupHead(a, r1, a.key);
    LookupHead(a, r1, b.key); LookupHead(b, r2, b.key);
    LookupHead(a, r1, c.key); LookupHead(b, r2, c.key); LookupHead(c, r3, c.key);
    LookupHead(a, r1, d.key); LookupHead(b, r2, d.key); LookupHead(c, r3, d.key); LookupHead(d, r4, d.key);
    LookupHead(a, r1, e.key); LookupHead(b, r2, e.key); LookupHead(c, r3, e.key); LookupHead(d, r4, e.key);
    LookupHead(e, [], e.key);
  }

  /** Writing then reading loses nothing but an empty host name. */
  lemma WriteThenRead(p: Process, generation: int, expiresAt: real)
    ensures ReadPayload(NewDocument(p, generation, expiresAt)) == Some(PayloadOf(p, generation, expiresAt))
  {
    var a := Member(OWNER_KEY, JString(p.instance));
    var b := Member(GENERATION_KEY, JInt(generation));
    var c := Member(EXPIRES_KEY, JFloat(expiresAt));
    var d := Member(HOST_KEY, JString(p.host));
    var e := Member(PID_KEY, JInt(p.pid));
    assert |OWNER_KEY| == 17 && |PID_KEY| == 9;
    assert |GENERATION_KEY| == |EXPIRES_KEY| == |HOST_KEY| == 10;
    assert GENERATION_KEY[0] == 'g' && EXPIRES_KEY[0] == 'e' && HOST_KEY[0] == 'o';
    LookupInFive(a, b, c, d, e);
  }

  /** The recorded owner's process is gone, as far as the claiming process can tell. */
  predicate OwnerIsDead(claimer: Process, payload: Payload, probe: Probe) {
    && payload.host.Some?
    && payload.pid.Some?
    && payload.host.value == claimer.host
    && payload.pid.value != claimer.pid
    && !IsPidAlive(payload.pid.value, probe)
  }

  predicate Expired(payload: Payload, now: real) {
    payload.expiresAt <= now
  }

  /** What an operation returned or raised. */
  datatype Outcome =
    | Claimed(generation: int, takeover: bool)
    | Held(owner: string, expiresAt: real)
    | Renewed
    | Permitted
    | OwnershipLost
    | Removed
    | NothingRemoved
    | Happened

  datatype Step =
    | Claim(p: Process, now: real, probe: Probe)
    | Renew(p: Process, token: int, now: real)
    | GuardedWrite(p: Process, token: int)
    | Release(p: Process, token: int)
    | Corrupt(garbage: LeaseFile)  // the file becomes unreadable
    | Vanish                       // the file goes missing
    | Crash(p: Process)            // a process dies between operations

  predicate Legal(s: Step) {
    s.Corrupt? ==> ReadPayload(s.garbage).None?
  }

  /** The check behind renew, guarded_write and release. */
  predicate Accepts(file: LeaseFile, instance: string, token: int) {
    var payload := ReadPayload(file);
    payload.Some? && payload.value.owner == instance && payload.value.generation == token
  }

  function ClaimGeneration(file: LeaseFile, p: Process): (generation: int) {
    match ReadPayload(file)
    case None => 1
    case Some(payload) =>
      if payload.owner == p.instance then payload.generation else payload.generation + 1
  }

  predicate ClaimRefused(file: LeaseFile, p: Process, now: real, probe: Probe) {
    var payload := ReadPayload(file);
    && payload.Some?
    && payload.value.owner != p.instance
    && !Expired(payload.value, now)
    && !OwnerIsDead(p, payload.value, probe)
  }

  function Apply(file: LeaseFile, s: Step): (effect: (LeaseFile, Outcome)) {
    match s
    case Claim(p, now, probe) =>
      var payload := ReadPayload(file);
      if ClaimRefused(file, p, now, probe) then
        (file, Held(payload.value.owner, payload.value.expiresAt))
      else
        (NewDocument(p, ClaimGeneration(file, p), now + p.ttl),
         Claimed(ClaimGeneration(file, p), payload.Some? && payload.value.owner != p.instance))
    case Renew(p, token, now) =>
      if Accepts(file, p.instance, token)
      then (NewDocument(p, token, now + p.ttl), Renewed)
      else (file, OwnershipLost)
    case GuardedWrite(p, token) =>
      (file, if Accepts(file, p.instance, token) then Permitted else OwnershipLost)
    case Release(p, token) =>
      if Accepts(file, p.instance, token) then (Absent, Removed) else (file, NothingRemoved)
    case Corrupt(garbage) => (garbage, Happened)
    case Vanish => (Absent, Happened)
    case Crash(_) => (file, Happened)
  }
}
