/** ConversationLease itself: methods that read, replace and unlink a shared lease file. */
module ConversationLeases {
  import opened Prelude
  import opened LeaseModel

  datatype LeaseClaim = LeaseClaim(generation: int, takeover: bool)

  datatype LeaseError =
    | LeaseHeld(owner: string, expiresAt: real)
    | LostOwnership(owner: string, generation: int)

  /** A conversation directory: the lease path and its temporary sibling. */
  class LeaseDirectory {
    var lease: LeaseFile
    var tmp: LeaseFile

    constructor ()
      ensures lease == Absent && tmp == Absent
    {
      lease, tmp := Absent, Absent;
    }
  }

  class ConversationLease {
    const dir: LeaseDirectory
    const self: Process

    constructor (dir: LeaseDirectory, self: Process)
      ensures this.dir == dir && this.self == self
    {
      this.dir, this.self := dir, self;
    }

    /** Writes the temporary file, then moves it over the lease path. */
    method WritePayload(generation: int, expiresAt: real)
      modifies dir
      ensures dir.lease == NewDocument(self, generation, expiresAt)
      ensures dir.tmp == Absent
    {
      dir.tmp := Garbled;
      dir.tmp := NewDocument(self, generation, expiresAt);
      dir.lease, dir.tmp := dir.tmp, Absent;
    }

    method Claim(now: real, probe: Probe) returns (r: Result<LeaseClaim, LeaseError>)
      modifies dir
      ensures dir.lease == Apply(old(dir.lease), Step.Claim(self, now, probe)).0
      ensures match Apply(old(dir.lease), Step.Claim(self, now, probe)).1
              case Claimed(g, t) => r == Ok(LeaseClaim(g, t))
              case Held(o, e) => r == Err(LeaseHeld(o, e)) && unchanged(dir)
              case _ => false
    {
      var payload := ReadPayload(dir.lease);
      var generation, takeover := 1, false;
      if payload.Some? {
        var current := payload.value;
        var sameOwner := current.owner == self.instance;
        if !sameOwner && current.expiresAt > now && !OwnerIsDead(self, current, probe) {
          return Err(LeaseHeld(current.owner, current.expiresAt));
        }
        generation := if sameOwner then current.generation else current.generation + 1;
        takeover := !sameOwner;
      }
      WritePayload(generation, now + self.ttl);
      r := Ok(LeaseClaim(generation, takeover));
    }

    method AssertOwner(generation: int) returns (r: Result<(), LeaseError>)
      ensures r == if Accepts(dir.lease, self.instance, generation) then Ok(())
                   else Err(LostOwnership(self.instance, generation))
    {
      var payload := ReadPayload(dir.lease);
      if payload.None? {
        return Err(LostOwnership(self.instance, generation));
      }
      if payload.value.owner != self.instance || payload.value.generation != generation {
        return Err(LostOwnership(self.instance, generation));
      }
      r := Ok(());
    }

    method Renew(generation: int, now: real) returns (r: Result<(), LeaseError>)
      modifies dir
      ensures dir.lease == Apply(old(dir.lease), Step.Renew(self, generation, now)).0
      ensures r.Ok? <==> Apply(old(dir.lease), Step.Renew(self, generation, now)).1 == Renewed
      ensures r.Err? ==> r.error == LostOwnership(self.instance, generation) && unchanged(dir)
    {
      r := AssertOwner(generation);
      if r.Ok? {
        WritePayload(generation, now + self.ttl);
      }
    }

    /** Everything guarded_write does before it hands control to the body. */
    method EnterGuardedWrite(generation: int) returns (r: Result<(), LeaseError>)
      ensures r.Ok? <==> Apply(dir.lease, Step.GuardedWrite(self, generation)).1 == Permitted
      ensures r.Err? ==> r.error == LostOwnership(self.instance, generation)
    {
      r := AssertOwner(generation);
    }

    method Release(generation: int)
      modifies dir
      ensures dir.lease == Apply(old(dir.lease), Step.Release(self, generation)).0
      ensures dir.tmp == old(dir.tmp)
    {
      var payload := ReadPayload(dir.lease);
      if payload.None? {
        return;
      }
      if payload.value.owner != self.instance || payload.value.generation != generation {
        return;
      }
      dir.lease := Absent;
    }
  }
}
