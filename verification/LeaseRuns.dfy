/**
  Properties of every run of the lease protocol: any number of processes, any
  interleaving of their operations, any starting file, with the file turning
  unreadable or going missing at any moment.
 */
module LeaseRuns {
  import opened Prelude
  import opened LeaseModel

  /** The lease file after the first n steps. */
  ghost function FileAt(start: LeaseFile, steps: seq<Step>, n: nat): (file: LeaseFile)
    requires n <= |steps|
  {
    if n == 0 then start else Apply(FileAt(start, steps, n - 1), steps[n - 1]).0
  }

  ghost function OutcomeAt(start: LeaseFile, steps: seq<Step>, k: nat): (outcome: Outcome)
    requires k < |steps|
  {
    Apply(FileAt(start, steps, k), steps[k]).1
  }

  ghost predicate LegalRun(steps: seq<Step>) {
    forall k :: 0 <= k < |steps| ==> Legal(steps[k])
  }

  // ---------------------------------------------------------------- tokens

  /** The step takes the lease away from the given instance. */
  predicate Disturbs(file: LeaseFile, s: Step, instance: string) {
    || (s.Claim? && s.p.instance != instance && Apply(file, s).1.Claimed?)
    || Removes(file, s)
  }

  /** The step unlinks the lease file or makes it unreadable. */
  predicate Removes(file: LeaseFile, s: Step) {
    s.Corrupt? || s.Vanish? || Apply(file, s).1.Removed?
  }

  predicate ReturnsToken(file: LeaseFile, s: Step, instance: string, token: int) {
    s.Claim? && s.p.instance == instance && Apply(file, s).1.Claimed? && Apply(file, s).1.generation == token
  }

  /** One step, exactly: a token is good afterwards iff this claim returned it, or it was good and survived. */
  lemma StepAccepts(file: LeaseFile, s: Step, instance: string, token: int)
    requires Legal(s)
    ensures Accepts(Apply(file, s).0, instance, token) <==>
            || ReturnsToken(file, s, instance, token)
            || (Accepts(file, instance, token) && !Disturbs(file, s, instance))
  {
    match s
    case Claim(p, now, probe) =>
      WriteThenRead(p, ClaimGeneration(file, p), now + p.ttl);
    case Renew(p, t, now) =>
      WriteThenRead(p, t, now + p.ttl);
    case _ =>
  }

  /** Nothing between steps m and n took the lease from the instance. */
  ghost predicate Undisturbed(start: LeaseFile, steps: seq<Step>, m: nat, n: nat, instance: string)
    requires m <= n <= |steps|
  {
    forall k: nat :: m <= k < n ==> !Disturbs(FileAt(start, steps, k), steps[k], instance)
  }

  /** Some earlier claim by the instance returned the token, undisturbed since. */
  ghost predicate Earned(start: LeaseFile, steps: seq<Step>, n: nat, instance: string, token: int)
    requires n <= |steps|
  {
    exists k: nat :: k < n && EarnedAt(start, steps, k, n, instance, token)
  }

  ghost predicate EarnedAt(start: LeaseFile, steps: seq<Step>, k: nat, n: nat, instance: string, token: int)
    requires k < n <= |steps|
  {
    && ReturnsToken(FileAt(start, steps, k), steps[k], instance, token)
    && Undisturbed(start, steps, k + 1, n, instance)
  }

  /** How Earned unfolds at the last step. */
  lemma EarnedStep(start: LeaseFile, steps: seq<Step>, n: nat, instance: string, token: int)
    requires 0 < n <= |steps|
    ensures var before, s := FileAt(start, steps, n - 1), steps[n - 1];
            Earned(start, steps, n, instance, token) <==>
            || ReturnsToken(before, s, instance, token)
            || (Earned(start, steps, n - 1, instance, token) && !Disturbs(before, s, instance))
  {
    hide Apply, ReadPayload, ReturnsToken, Disturbs, FileAt;
    var before, s := FileAt(start, steps, n - 1), steps[n - 1];
    if ReturnsToken(before, s, instance, token) {
      assert EarnedAt(start, steps, n - 1, n, instance, token);
    }
    if Earned(start, steps, n - 1, instance, token) && !Disturbs(before, s, instance) {
      var k: nat :| k < n - 1 && EarnedAt(start, steps, k, n - 1, instance, token);
      assert EarnedAt(start, steps, k, n, instance, token);
    }
    if Earned(start, steps, n, instance, token) && !ReturnsToken(before, s, instance, token) {
      var k: nat :| k < n && EarnedAt(start, steps, k, n, instance, token);
      assert EarnedAt(start, steps, k, n - 1, instance, token);
    }
  }

  /** The token was earned, or the starting file carried it and nothing has taken the lease away since. */
  ghost predicate Entitled(start: LeaseFile, steps: seq<Step>, n: nat, instance: string, token: int)
    requires n <= |steps|
  {
    || Earned(start, steps, n, instance, token)
    || (Accepts(start, instance, token) && Undisturbed(start, steps, 0, n, instance))
  }

  /**
    The protocol's central equivalence: after any run a token is accepted
    exactly when it was handed out by a claim of that instance and nothing has
    taken the lease away since (or the starting file already carried it).
   */
  lemma {:induction false} TokenAcceptedIffEarned(
    start: LeaseFile, steps: seq<Step>, n: nat, instance: string, token: int)
    requires LegalRun(steps) && n <= |steps|
    ensures Accepts(FileAt(start, steps, n), instance, token) <==> Entitled(start, steps, n, instance, token)
  {
    hide Apply, Accepts, Disturbs, EarnedAt;
    if n == 0 {
    } else {
      TokenAcceptedIffEarned(start, steps, n - 1, instance, token);
      StepAccepts(FileAt(start, steps, n - 1), steps[n - 1], instance, token);
      EarnedStep(start, steps, n, instance, token);
    }
  }

  /** The same equivalence for the operations themselves; without a lease at the start, tokens must be earned. */
  lemma OperationsAcceptedIffEarned(start: LeaseFile, steps: seq<Step>, k: nat)
    requires LegalRun(steps) && k < |steps|
    requires steps[k].Renew? || steps[k].GuardedWrite? || steps[k].Release?
    ensures var s, outcome := steps[k], OutcomeAt(start, steps, k);
            var entitled := Entitled(start, steps, k, s.p.instance, s.token);
            && (s.Renew? ==> outcome == if entitled then Renewed else OwnershipLost)
            && (s.GuardedWrite? ==> outcome == if entitled then Permitted else OwnershipLost)
            && (s.Release? ==> outcome == if entitled then Removed else NothingRemoved)
            && (start == Absent ==> (entitled <==> Earned(start, steps, k, s.p.instance, s.token)))
  {
    hide FileAt, Earned, Undisturbed;
    TokenAcceptedIffEarned(start, steps, k, steps[k].p.instance, steps[k].token);
  }

  // --------------------------------------------------------------- fencing

  predicate Readable(file: LeaseFile) {
    ReadPayload(file).Some?
  }

  function Generation(file: LeaseFile): (generation: int)
    requires Readable(file)
  {
    ReadPayload(file).value.generation
  }

  function Owner(file: LeaseFile): (owner: string)
    requires Readable(file)
  {
    ReadPayload(file).value.owner
  }

  /** One step keeps a readable lease, never lowering its generation, exactly when it does not remove it. */
  lemma StepGeneration(file: LeaseFile, s: Step)
    requires Legal(s) && Readable(file)
    ensures var file' := Apply(file, s).0;
            && (Readable(file') && Generation(file) <= Generation(file') <==> !Removes(file, s))
            && (Readable(file') && Generation(file') == Generation(file) ==> Owner(file') == Owner(file))
  {
    match s
    case Claim(p, now, probe) =>
      WriteThenRead(p, ClaimGeneration(file, p), now + p.ttl);
    case Renew(p, t, now) =>
      WriteThenRead(p, t, now + p.ttl);
    case _ =>
  }

  /** No step between m and n removes the lease. */
  ghost predicate Intact(start: LeaseFile, steps: seq<Step>, m: nat, n: nat)
    requires m <= n <= |steps|
  {
    forall k: nat :: m <= k < n ==> !Removes(FileAt(start, steps, k), steps[k])
  }

  /** Along a stretch that never loses the file, generations only grow and each has one owner. */
  lemma {:induction false} GenerationsOnlyGrow(start: LeaseFile, steps: seq<Step>, m: nat, n: nat)
    requires LegalRun(steps) && m <= n <= |steps|
    requires Readable(FileAt(start, steps, m)) && Intact(start, steps, m, n)
    ensures var a, b := FileAt(start, steps, m), FileAt(start, steps, n);
            && Readable(b)
            && Generation(a) <= Generation(b)
            && (Generation(a) == Generation(b) ==> Owner(a) == Owner(b))
  {
    hide Apply, ReadPayload, Removes, Readable, Generation, Owner;
    if m == n {
    } else {
      GenerationsOnlyGrow(start, steps, m, n - 1);
      StepGeneration(FileAt(start, steps, n - 1), steps[n - 1]);
    }
  }

  /** The class's promise of a monotonically increasing generation, over the moments at which there is one. */
  ghost predicate GenerationsMonotone(start: LeaseFile, steps: seq<Step>) {
    forall a: nat, b: nat ::
      a <= b <= |steps| && Readable(FileAt(start, steps, a)) && Readable(FileAt(start, steps, b))
      ==> Generation(FileAt(start, steps, a)) <= Generation(FileAt(start, steps, b))
  }

  /** Step k is a claim that finds no readable lease, and so restarts the generation at 1. */
  ghost predicate Restarts(start: LeaseFile, steps: seq<Step>, k: nat)
    requires k < |steps|
  {
    steps[k].Claim? && !Readable(FileAt(start, steps, k))
  }

  /** Every readable generation up to step k was at most 1. */
  ghost predicate NothingAboveOne(start: LeaseFile, steps: seq<Step>, k: nat)
    requires k <= |steps|
  {
    forall a: nat :: a <= k && Readable(FileAt(start, steps, a)) ==> Generation(FileAt(start, steps, a)) <= 1
  }

  lemma {:induction false} RestartGivesOne(start: LeaseFile, steps: seq<Step>, k: nat)
    requires k < |steps| && Restarts(start, steps, k)
    ensures Readable(FileAt(start, steps, k + 1)) && Generation(FileAt(start, steps, k + 1)) == 1
  {
    WriteThenRead(steps[k].p, 1, steps[k].now + steps[k].p.ttl);
  }

  /** Only a claim makes a lost lease readable again. */
  lemma OnlyClaimsRevive(file: LeaseFile, s: Step)
    requires Legal(s) && !Readable(file) && Readable(Apply(file, s).0)
    ensures s.Claim?
  {
  }

  /** Two readable moments are in order when every restart between found nothing above 1 before it. */
  lemma {:induction false} GenerationsInOrder(start: LeaseFile, steps: seq<Step>, a: nat, b: nat)
    requires LegalRun(steps) && a <= b <= |steps|
    requires forall k: nat :: k < |steps| && Restarts(start, steps, k) ==> NothingAboveOne(start, steps, k)
    requires Readable(FileAt(start, steps, a)) && Readable(FileAt(start, steps, b))
    ensures Generation(FileAt(start, steps, a)) <= Generation(FileAt(start, steps, b))
  {
    hide Apply, ReadPayload, Readable, Generation, Removes;
    if a == b {
    } else {
      var before, s := FileAt(start, steps, b - 1), steps[b - 1];
      if Readable(before) {
        GenerationsInOrder(start, steps, a, b - 1);
        StepGeneration(before, s);
        UnalteredStaysPut(before, s);
      } else {
        OnlyClaimsRevive(before, s);
        assert Restarts(start, steps, b - 1) && NothingAboveOne(start, steps, b - 1);
        RestartGivesOne(start, steps, b - 1);
      }
    }
  }

  /**
    Exactly when the promise of a monotone generation is kept: no claim may find
    the lease gone or unreadable after a generation above 1 was on record.
   */
  lemma MonotoneIffNoLateRestart(start: LeaseFile, steps: seq<Step>)
    requires LegalRun(steps)
    ensures GenerationsMonotone(start, steps) <==>
            forall k: nat :: k < |steps| && Restarts(start, steps, k) ==> NothingAboveOne(start, steps, k)
  {
    hide Apply, ReadPayload, Readable, Generation, FileAt, Restarts;
    if GenerationsMonotone(start, steps) {
      forall k: nat | k < |steps| && Restarts(start, steps, k)
        ensures NothingAboveOne(start, steps, k)
      {
        RestartGivesOne(start, steps, k);
      }
    }
    if forall k: nat :: k < |steps| && Restarts(start, steps, k) ==> NothingAboveOne(start, steps, k) {
      forall a: nat, b: nat | a <= b <= |steps|
                              && Readable(FileAt(start, steps, a)) && Readable(FileAt(start, steps, b))
        ensures Generation(FileAt(start, steps, a)) <= Generation(FileAt(start, steps, b))
      {
        GenerationsInOrder(start, steps, a, b);
      }
    }
  }

  ghost predicate TakesOver(start: LeaseFile, steps: seq<Step>, m: nat)
    requires m < |steps|
  {
    OutcomeAt(start, steps, m).Claimed? && OutcomeAt(start, steps, m).takeover
  }

  /** One step, over generations of at least 1: they stay so, and only a takeover raises one. */
  lemma StepRaises(file: LeaseFile, s: Step)
    requires Legal(s) && (Readable(file) ==> 1 <= Generation(file))
    ensures var (file', result) := Apply(file, s);
            && (Readable(file') ==> 1 <= Generation(file'))
            && (result.Claimed? && result.takeover ==> Readable(file') && 1 < Generation(file'))
            && (Readable(file') && 1 < Generation(file') && !(result.Claimed? && result.takeover) ==>
                  Readable(file) && 1 < Generation(file))
  {
    match s
    case Claim(p, now, probe) => WriteThenRead(p, ClaimGeneration(file, p), now + p.ttl);
    case Renew(p, t, now) => WriteThenRead(p, t, now + p.ttl);
    case _ =>
  }

  /** From a directory without a lease, generations above 1 come from takeovers and nothing else. */
  lemma {:induction false} AboveOneIffTakenOver(steps: seq<Step>, k: nat)
    requires LegalRun(steps) && k <= |steps|
    ensures Readable(FileAt(Absent, steps, k)) ==> 1 <= Generation(FileAt(Absent, steps, k))
    ensures NothingAboveOne(Absent, steps, k) <==> forall m: nat :: m < k ==> !TakesOver(Absent, steps, m)
  {
    hide Apply, ReadPayload, Readable, Generation;
    if k == 0 {
      assert !Readable(Absent) by { AbsentIsUnreadable(); }
    } else {
      AboveOneIffTakenOver(steps, k - 1);
      StepRaises(FileAt(Absent, steps, k - 1), steps[k - 1]);
      var fine := Readable(FileAt(Absent, steps, k)) ==> Generation(FileAt(Absent, steps, k)) <= 1;
      assert NothingAboveOne(Absent, steps, k) <==> NothingAboveOne(Absent, steps, k - 1) && fine;
      assert (forall m: nat :: m < k ==> !TakesOver(Absent, steps, m)) <==>
             (forall m: nat :: m < k - 1 ==> !TakesOver(Absent, steps, m)) && !TakesOver(Absent, steps, k - 1);
    }
  }

  lemma AbsentIsUnreadable()
    ensures !Readable(Absent)
  {
  }

  /** In the ordinary case: the promise is kept iff no claim finds the lease lost after a takeover. */
  lemma MonotoneFromAbsentIff(steps: seq<Step>)
    requires LegalRun(steps)
    ensures GenerationsMonotone(Absent, steps) <==>
            forall m: nat, k: nat ::
              m < k < |steps| && TakesOver(Absent, steps, m) ==> !Restarts(Absent, steps, k)
  {
    hide GenerationsMonotone, NothingAboveOne, TakesOver, Restarts;
    MonotoneIffNoLateRestart(Absent, steps);
    forall k: nat | k <= |steps|
      ensures NothingAboveOne(Absent, steps, k) <==> forall m: nat :: m < k ==> !TakesOver(Absent, steps, m)
    {
      AboveOneIffTakenOver(steps, k);
    }
  }

  /**
    Fencing: once another instance owned the lease at some point b after
    (instance, token) was good at a, nothing that token attempts has any effect
    any more, including after the instance has claimed again.
   */
  lemma {:induction false} TakeoverFencesForGood(
    start: LeaseFile, steps: seq<Step>, a: nat, b: nat, c: nat, p: Process, token: int, now: real)
    requires LegalRun(steps) && a <= b <= c <= |steps| && Intact(start, steps, a, c)
    requires Accepts(FileAt(start, steps, a), p.instance, token)
    requires Readable(FileAt(start, steps, b)) ==> Owner(FileAt(start, steps, b)) != p.instance
    ensures var file := FileAt(start, steps, c);
            && Apply(file, Renew(p, token, now)) == (file, OwnershipLost)
            && Apply(file, GuardedWrite(p, token)) == (file, OwnershipLost)
            && Apply(file, Release(p, token)) == (file, NothingRemoved)
  {
    hide FileAt;
    GenerationsOnlyGrow(start, steps, a, b);
    GenerationsOnlyGrow(start, steps, b, c);
  }

  /** The generation does restart: a release in between revives a token that a takeover had fenced. */
  lemma ReleaseRevivesFencedToken(i: Process, j: Process, probe: Probe)
    requires i.instance != j.instance && i.ttl == 45.0 && j.ttl == 45.0
    ensures var steps := [Claim(i, 0.0, probe), Claim(j, 45.0, probe), Release(j, 2), Claim(i, 46.0, probe)];
            && OutcomeAt(Absent, steps, 0) == Claimed(1, false)
            && OutcomeAt(Absent, steps, 1) == Claimed(2, true)
            && !Accepts(FileAt(Absent, steps, 2), i.instance, 1)
            && OutcomeAt(Absent, steps, 2) == Removed
            && OutcomeAt(Absent, steps, 3) == Claimed(1, false)
            && Accepts(FileAt(Absent, steps, 4), i.instance, 1)
  {
    var steps := [Claim(i, 0.0, probe), Claim(j, 45.0, probe), Release(j, 2), Claim(i, 46.0, probe)];
    WriteThenRead(i, 1, 45.0);
    WriteThenRead(j, 2, 90.0);
    WriteThenRead(i, 1, 91.0);
    assert FileAt(Absent, steps, 1) == NewDocument(i, 1, 45.0);
    assert FileAt(Absent, steps, 2) == NewDocument(j, 2, 90.0);
    assert FileAt(Absent, steps, 3) == Absent;
    assert FileAt(Absent, steps, 4) == NewDocument(i, 1, 91.0);
  }

  // -------------------------------------------------------------- takeover

  /** The step wrote a fresh lease document. */
  predicate Writes(file: LeaseFile, s: Step) {
    Apply(file, s).1.Claimed? || Apply(file, s).1.Renewed?
  }

  predicate Alters(file: LeaseFile, s: Step) {
    Writes(file, s) || Removes(file, s)
  }

  function WrittenToken(file: LeaseFile, s: Step): (token: int)
    requires Writes(file, s)
  {
    if s.Claim? then Apply(file, s).1.generation else s.token
  }

  function WrittenPayload(file: LeaseFile, s: Step): (payload: Payload)
    requires Writes(file, s)
  {
    PayloadOf(s.p, WrittenToken(file, s), s.now + s.p.ttl)
  }

  /** Step k wrote the lease and nothing in (k, n) touched it. */
  ghost predicate LastWrite(start: LeaseFile, steps: seq<Step>, k: nat, n: nat)
    requires k < n <= |steps|
  {
    && Writes(FileAt(start, steps, k), steps[k])
    && forall m: nat :: k < m < n ==> !Alters(FileAt(start, steps, m), steps[m])
  }

  lemma UnalteredStaysPut(file: LeaseFile, s: Step)
    requires Legal(s)
    ensures !Alters(file, s) ==> Apply(file, s).0 == file
    ensures Removes(file, s) ==> !Readable(Apply(file, s).0)
  {
  }

  lemma WriteIsReadBack(file: LeaseFile, s: Step)
    requires Writes(file, s)
    ensures s.Claim? || s.Renew?
    ensures ReadPayload(Apply(file, s).0) == Some(WrittenPayload(file, s))
  {
    WriteThenRead(s.p, WrittenToken(file, s), s.now + s.p.ttl);
  }

  /** What the file says is what the last writer wrote. */
  lemma {:induction false} LastWriteIsWhatIsRead(start: LeaseFile, steps: seq<Step>, k: nat, n: nat)
    requires LegalRun(steps) && k < n <= |steps| && LastWrite(start, steps, k, n)
    ensures ReadPayload(FileAt(start, steps, n)) == Some(WrittenPayload(FileAt(start, steps, k), steps[k]))
  {
    hide Apply, ReadPayload, Writes, Alters, Removes, WrittenPayload;
    if n == k + 1 {
      WriteIsReadBack(FileAt(start, steps, k), steps[k]);
    } else {
      LastWriteIsWhatIsRead(start, steps, k, n - 1);
      UnalteredStaysPut(FileAt(start, steps, n - 1), steps[n - 1]);
    }
  }

  /** Every lease that can be read has a last writer, unless it is the starting file untouched. */
  lemma {:induction false} ReadableHasLastWrite(start: LeaseFile, steps: seq<Step>, n: nat)
    requires LegalRun(steps) && n <= |steps| && Readable(FileAt(start, steps, n))
    ensures || FileAt(start, steps, n) == start
            || exists k: nat :: k < n && LastWrite(start, steps, k, n)
  {
    hide Apply, Readable, Writes, Removes;
    if n == 0 {
    } else {
      var before, s := FileAt(start, steps, n - 1), steps[n - 1];
      UnalteredStaysPut(before, s);
      if Writes(before, s) {
        assert LastWrite(start, steps, n - 1, n);
      } else {
        ReadableHasLastWrite(start, steps, n - 1);
        if before != start {
          var k: nat :| k < n - 1 && LastWrite(start, steps, k, n - 1);
          assert LastWrite(start, steps, k, n);
        }
      }
    }
  }

  /** A lease that process w wrote at a given moment may be taken over by the claim s. */
  predicate Stale(w: Process, written: real, s: Step)
    requires s.Claim?
  {
    || written + w.ttl <= s.now
    || (w.host != "" && w.host == s.p.host && w.pid != s.p.pid && !IsPidAlive(w.pid, s.probe))
  }

  /** One claim by another instance, against a lease written at a known moment. */
  lemma ClaimAgainstWritten(file: LeaseFile, w: Process, token: int, written: real, s: Step)
    requires ReadPayload(file) == Some(PayloadOf(w, token, written + w.ttl))
    requires s.Claim? && s.p.instance != w.instance
    ensures if Stale(w, written, s) then
              && Apply(file, s).1 == Claimed(token + 1, true)
              && ReadPayload(Apply(file, s).0) == Some(PayloadOf(s.p, token + 1, s.now + s.p.ttl))
            else
              Apply(file, s) == (file, Held(w.instance, written + w.ttl))
  {
    WriteThenRead(s.p, token + 1, s.now + s.p.ttl);
  }

  /**
    A claim by another instance succeeds, raising the generation by exactly one,
    precisely when the last claim or renewal is a full TTL old at the claimer's
    clock or the process that made it is dead on the claimer's own host;
    otherwise it is refused with that owner and expiry and changes nothing.
   */
  lemma TakeoverIffStale(start: LeaseFile, steps: seq<Step>, k: nat, n: nat)
    requires LegalRun(steps) && k < n < |steps| && LastWrite(start, steps, k, n)
    requires steps[n].Claim? && steps[n].p.instance != steps[k].p.instance
    ensures var w, s := steps[k], steps[n];
            var token := WrittenToken(FileAt(start, steps, k), w);
            if Stale(w.p, w.now, s) then
              && OutcomeAt(start, steps, n) == Claimed(token + 1, true)
              && ReadPayload(FileAt(start, steps, n + 1)) == Some(PayloadOf(s.p, token + 1, s.now + s.p.ttl))
            else
              && OutcomeAt(start, steps, n) == Held(w.p.instance, w.now + w.p.ttl)
              && FileAt(start, steps, n + 1) == FileAt(start, steps, n)
  {
    hide Apply, ReadPayload, Writes, Removes, WrittenToken, Stale;
    var w := steps[k];
    WriteIsReadBack(FileAt(start, steps, k), w);
    LastWriteIsWhatIsRead(start, steps, k, n);
    assert FileAt(start, steps, n + 1) == Apply(FileAt(start, steps, n), steps[n]).0;
    ClaimAgainstWritten(FileAt(start, steps, n), w.p, WrittenToken(FileAt(start, steps, k), w), w.now, steps[n]);
  }

  /** Every takeover of every run that starts without a lease was of a stale lease of another instance. */
  lemma EveryTakeoverWasOfAStaleLease(steps: seq<Step>, n: nat)
    requires LegalRun(steps) && n < |steps| && steps[n].Claim?
    requires OutcomeAt(Absent, steps, n).Claimed? && OutcomeAt(Absent, steps, n).takeover
    ensures exists k: nat ::
              && k < n && LastWrite(Absent, steps, k, n)
              && steps[k].p.instance != steps[n].p.instance
              && Stale(steps[k].p, steps[k].now, steps[n])
  {
    ReadableHasLastWrite(Absent, steps, n);
    var k: nat :| k < n && LastWrite(Absent, steps, k, n);
    LastWriteIsWhatIsRead(Absent, steps, k, n);
    TakeoverIffStale(Absent, steps, k, n);
  }

  /** A lease that does not record both host and pid can be taken over only by expiry. */
  lemma WithoutHostOrPidOnlyExpiryCounts(file: LeaseFile, p: Process, now: real, probe: Probe)
    requires Readable(file) && Owner(file) != p.instance
    requires ReadPayload(file).value.host.None? || ReadPayload(file).value.pid.None?
    ensures Apply(file, Claim(p, now, probe)).1.Claimed? <==> Expired(ReadPayload(file).value, now)
  {
  }

  // ------------------------------------------------------------- retention

  predicate Timed(s: Step) {
    s.Claim? || s.Renew?
  }

  /** The holder extends its lease. */
  predicate Refresh(h: Process, token: int, s: Step) {
    (s.Claim? && s.p == h) || (s.Renew? && s.p == h && s.token == token)
  }

  ghost predicate MonotoneClock(steps: seq<Step>) {
    forall a: nat, b: nat :: a < b < |steps| && Timed(steps[a]) && Timed(steps[b]) ==> steps[a].now <= steps[b].now
  }

  ghost predicate NoRefreshBetween(h: Process, token: int, steps: seq<Step>, a: nat, b: nat)
    requires b <= |steps|
  {
    forall c: nat :: a < c < b ==> !Refresh(h, token, steps[c])
  }

  /** Successive refreshes are less than a TTL apart, and nothing is timed a TTL after the last one. */
  ghost predicate RefreshesInTime(h: Process, token: int, steps: seq<Step>) {
    && (forall a: nat, b: nat ::
          a < b < |steps| && Refresh(h, token, steps[a]) && Refresh(h, token, steps[b])
          && NoRefreshBetween(h, token, steps, a, b)
          ==> steps[b].now < steps[a].now + h.ttl)
    && (forall a: nat, b: nat ::
          a < b < |steps| && Refresh(h, token, steps[a]) && Timed(steps[b])
          && NoRefreshBetween(h, token, steps, a, |steps|)
          ==> steps[b].now < steps[a].now + h.ttl)
  }

  /** Nobody but the holder uses its instance id, it keeps its token, the file is left alone, and it is alive. */
  ghost predicate HolderKeepsGoing(h: Process, token: int, steps: seq<Step>) {
    forall k: nat :: k < |steps| ==>
                       var s := steps[k];
                       && !s.Corrupt? && !s.Vanish?
                       && (Timed(s) && s.p.instance == h.instance ==> s.p == h)
                       && !(s.Release? && s.p.instance == h.instance && s.token == token)
                       && (s.Claim? && s.p.host == h.host ==> IsPidAlive(h.pid, s.probe))
  }

  lemma {:induction false} NextRefresh(h: Process, token: int, steps: seq<Step>, a: nat, b: nat) returns (c: nat)
    requires a < b <= |steps| && NoRefreshBetween(h, token, steps, a, b)
    ensures b <= c <= |steps| && NoRefreshBetween(h, token, steps, a, c)
    ensures c < |steps| ==> Refresh(h, token, steps[c])
    decreases |steps| - b
  {
    if b == |steps| || Refresh(h, token, steps[b]) {
      c := b;
    } else {
      c := NextRefresh(h, token, steps, a, b + 1);
    }
  }

  /** With a monotone clock, everything after a refresh and before the next happens within the TTL. */
  lemma WithinTtlOfRefresh(h: Process, token: int, steps: seq<Step>, a: nat, b: nat)
    requires MonotoneClock(steps) && RefreshesInTime(h, token, steps)
    requires a < b < |steps| && Refresh(h, token, steps[a]) && Timed(steps[b])
    requires NoRefreshBetween(h, token, steps, a, b)
    ensures steps[b].now < steps[a].now + h.ttl
  {
    var c := NextRefresh(h, token, steps, a, b);
    if b < c < |steps| {
      assert steps[b].now <= steps[c].now;
    }
  }

  /** The holder's lease is exactly what its last refresh, step a, wrote. */
  ghost predicate HeldSince(start: LeaseFile, h: Process, token: int, steps: seq<Step>, a: nat, n: nat)
    requires a < n <= |steps|
  {
    && Refresh(h, token, steps[a])
    && NoRefreshBetween(h, token, steps, a, n)
    && ReadPayload(FileAt(start, steps, n)) == Some(PayloadOf(h, token, steps[a].now + h.ttl))
  }

  /** One step of a run in which the holder keeps going. */
  lemma HolderStep(file: LeaseFile, h: Process, token: int, expiresAt: real, s: Step)
    requires ReadPayload(file) == Some(PayloadOf(h, token, expiresAt))
    requires !s.Corrupt? && !s.Vanish?
    requires Timed(s) && s.p.instance == h.instance ==> s.p == h
    requires !(s.Release? && s.p.instance == h.instance && s.token == token)
    requires s.Claim? && s.p.host == h.host ==> IsPidAlive(h.pid, s.probe)
    requires s.Claim? ==> s.now < expiresAt
    ensures if Refresh(h, token, s)
            then ReadPayload(Apply(file, s).0) == Some(PayloadOf(h, token, s.now + h.ttl))
            else Apply(file, s).0 == file
    ensures s.Claim? && s.p.instance != h.instance ==> Apply(file, s).1 == Held(h.instance, expiresAt)
    ensures s.Claim? && s.p == h ==> Apply(file, s).1 == Claimed(token, false)
  {
    if Refresh(h, token, s) {
      WriteThenRead(h, token, s.now + h.ttl);
    }
  }

  lemma {:induction false} HolderHolds(start: LeaseFile, h: Process, token: int, steps: seq<Step>, n: nat)
    returns (a: nat)
    requires LegalRun(steps) && 0 < n <= |steps|
    requires steps[0].Claim? && steps[0].p == h
    requires OutcomeAt(start, steps, 0).Claimed? && OutcomeAt(start, steps, 0).generation == token
    requires MonotoneClock(steps) && RefreshesInTime(h, token, steps) && HolderKeepsGoing(h, token, steps)
    ensures a < n && HeldSince(start, h, token, steps, a, n)
  {
    hide Apply, ReadPayload, MonotoneClock, RefreshesInTime, IsPidAlive;
    var before, s := FileAt(start, steps, n - 1), steps[n - 1];
    if n == 1 {
      WriteIsReadBack(start, s);
      a := 0;
    } else {
      a := HolderHolds(start, h, token, steps, n - 1);
      if s.Claim? {
        WithinTtlOfRefresh(h, token, steps, a, n - 1);
      }
      HolderStep(before, h, token, steps[a].now + h.ttl, s);
      if Refresh(h, token, s) {
        a := n - 1;
      }
    }
  }

  /**
    Retention: a live holder that claims once and then refreshes at gaps shorter
    than its TTL keeps the lease. Every other claim in the run is refused in its
    name, and every renewal and guarded write with its token succeeds.
   */
  lemma {:induction false} PromptHolderRetainsOwnership(
    start: LeaseFile, h: Process, token: int, steps: seq<Step>, n: nat)
    requires LegalRun(steps) && 0 < n < |steps|
    requires steps[0].Claim? && steps[0].p == h
    requires OutcomeAt(start, steps, 0).Claimed? && OutcomeAt(start, steps, 0).generation == token
    requires MonotoneClock(steps) && RefreshesInTime(h, token, steps) && HolderKeepsGoing(h, token, steps)
    ensures Accepts(FileAt(start, steps, n), h.instance, token)
    ensures steps[n].Claim? && steps[n].p.instance != h.instance ==>
              OutcomeAt(start, steps, n).Held? && OutcomeAt(start, steps, n).owner == h.instance
    ensures steps[n].Claim? && steps[n].p == h ==> OutcomeAt(start, steps, n) == Claimed(token, false)
    ensures steps[n].Renew? && steps[n].p == h && steps[n].token == token ==> OutcomeAt(start, steps, n) == Renewed
    ensures steps[n].GuardedWrite? && steps[n].p == h && steps[n].token == token ==>
              OutcomeAt(start, steps, n) == Permitted
  {
    var a := HolderHolds(start, h, token, steps, n);
    hide MonotoneClock, RefreshesInTime;
    if steps[n].Claim? {
      WithinTtlOfRefresh(h, token, steps, a, n);
      HolderStep(FileAt(start, steps, n), h, token, steps[a].now + h.ttl, steps[n]);
    }
  }
}
