/**
  The lease protocol with the file lock taken apart. Any number of calls of any
  number of processes are in flight; each acquires the lock, reads the clock and
  the file, writes a temporary file, moves it over the lease path and leaves,
  one action at a time. A call may be killed between any two actions, and the
  lease file may be garbled or removed from outside at any moment.

  Three fields of the state are auxiliary: the lease file the run began with, the
  history of atomic steps (LeaseModel.Step) that explain the run so far, and the
  lease file that history leads to.
 */
module LeaseLocking {
  import opened Prelude
  import opened LeaseModel
  import opened LeaseRuns

  datatype Op = ClaimOp(probe: Probe) | RenewOp(token: int) | GuardOp(token: int) | ReleaseOp(token: int)

  /** What a claim or renewal found and has decided to write. */
  datatype Plan = Plan(found: LeaseFile, now: real, generation: int, result: Outcome)

  /** A call's outcome, and the number of the atomic step it stands for. */
  datatype Answer = Answer(result: Outcome, at: nat)

  datatype Pc =
    | Waiting                          // blocked on the lock
    | Locked                           // lock just acquired
    | Clocked(now: real)               // claim: clock read, file not yet
    | Owned(found: LeaseFile)          // renew: ownership checked, clock not yet read
    | Ready(plan: Plan)
    | Writing(plan: Plan)              // temporary file truncated, not complete
    | Written(plan: Plan)              // temporary file complete
    | InBody(at: nat)                  // inside the body of guarded_write
    | Unlinking                        // release: ownership checked
    | Leaving(answer: Answer)
    | Done(answer: Answer)
    | Killed(effect: Option<Answer>)   // died, with or without having taken effect

  /** A call in flight or over; `began` is how long the history was when it started. */
  datatype Call = Call(p: Process, op: Op, pc: Pc, began: nat)

  datatype State = State(
    clock: real,
    lease: LeaseFile,
    tmp: LeaseFile,
    lock: Option<nat>,
    calls: map<nat, Call>,
    origin: LeaseFile,
    history: seq<Step>,
    view: LeaseFile)

  datatype Action =
    | Start(id: nat, p: Process, op: Op)
    | Acquire(id: nat)
    | Advance(id: nat)
    | Unlock(id: nat)
    | Kill(id: nat)
    | Tick(time: real)                 // the clock shows another time, earlier or later
    | Disturb(garbage: LeaseFile)      // the file becomes unreadable or goes missing

  predicate Over(pc: Pc) {
    pc.Done? || pc.Killed?
  }

  predicate Critical(pc: Pc) {
    !pc.Waiting? && !Over(pc)
  }

  /** Between the read a call decided on and its write: the file is not looked at again. */
  predicate Committed(pc: Pc) {
    pc.Owned? || pc.Ready? || pc.Writing? || pc.Written? || pc.Unlinking?
  }

  /** How the call took effect, if it has. */
  function EffectOf(pc: Pc): (effect: Option<Answer>) {
    match pc
    case InBody(at) => Some(Answer(Permitted, at))
    case Leaving(answer) => Some(answer)
    case Done(answer) => Some(answer)
    case Killed(effect) => effect
    case _ => None
  }

  function Complete(c: Call, plan: Plan): (document: LeaseFile) {
    NewDocument(c.p, plan.generation, plan.now + c.p.ttl)
  }

  /** The atomic step a call stands for. */
  function Intended(c: Call, now: real): (step: Step) {
    match c.op
    case ClaimOp(probe) => Claim(c.p, now, probe)
    case RenewOp(token) => Renew(c.p, token, now)
    case GuardOp(token) => GuardedWrite(c.p, token)
    case ReleaseOp(token) => Release(c.p, token)
  }

  /** What one action of the lock holder does; the event is the atomic step it completes, if any. */
  datatype Effect = Effect(pc: Pc, lease: LeaseFile, tmp: LeaseFile, event: Option<Step>)

  function Act(s: State, c: Call): (e: Effect) {
    var next := |s.history|;
    match c.pc
    case Locked =>
      (match c.op
       case ClaimOp(_) => Effect(Clocked(s.clock), s.lease, s.tmp, None)
       case RenewOp(token) =>
         if Accepts(s.lease, c.p.instance, token) then Effect(Owned(s.lease), s.lease, s.tmp, None)
         else Effect(Leaving(Answer(OwnershipLost, next)), s.lease, s.tmp, Some(Intended(c, s.clock)))
       case GuardOp(token) =>
         if Accepts(s.lease, c.p.instance, token)
         then Effect(InBody(next), s.lease, s.tmp, Some(Intended(c, s.clock)))
         else Effect(Leaving(Answer(OwnershipLost, next)), s.lease, s.tmp, Some(Intended(c, s.clock)))
       case ReleaseOp(token) =>
         if Accepts(s.lease, c.p.instance, token) then Effect(Unlinking, s.lease, s.tmp, None)
         else Effect(Leaving(Answer(NothingRemoved, next)), s.lease, s.tmp, Some(Intended(c, s.clock))))
    case Clocked(now) =>
      (match c.op
       case ClaimOp(probe) =>
         var payload := ReadPayload(s.lease);
         if ClaimRefused(s.lease, c.p, now, probe) then
           var held := Held(payload.value.owner, payload.value.expiresAt);
           Effect(Leaving(Answer(held, next)), s.lease, s.tmp, Some(Intended(c, now)))
         else
           var generation := ClaimGeneration(s.lease, c.p);
           var takeover := payload.Some? && payload.value.owner != c.p.instance;
           Effect(Ready(Plan(s.lease, now, generation, Claimed(generation, takeover))), s.lease, s.tmp, None)
       case _ => Effect(c.pc, s.lease, s.tmp, None))
    case Owned(found) =>
      (match c.op
       case RenewOp(token) => Effect(Ready(Plan(found, s.clock, token, Renewed)), s.lease, s.tmp, None)
       case _ => Effect(c.pc, s.lease, s.tmp, None))
    case Ready(plan) => Effect(Writing(plan), s.lease, Garbled, None)
    case Writing(plan) => Effect(Written(plan), s.lease, Complete(c, plan), None)
    case Written(plan) => Effect(Leaving(Answer(plan.result, next)), s.tmp, Absent, Some(Intended(c, plan.now)))
    case InBody(at) => Effect(Leaving(Answer(Permitted, at)), s.lease, s.tmp, None)
    case Unlinking => Effect(Leaving(Answer(Removed, next)), Absent, s.tmp, Some(Intended(c, s.clock)))
    case _ => Effect(c.pc, s.lease, s.tmp, None)
  }

  predicate Enabled(s: State, a: Action) {
    match a
    case Start(id, _, _) => id !in s.calls
    case Acquire(id) => id in s.calls && s.calls[id].pc.Waiting? && s.lock.None?
    case Advance(id) => id in s.calls && s.lock == Some(id) && !s.calls[id].pc.Leaving?
    case Unlock(id) => id in s.calls && s.lock == Some(id) && s.calls[id].pc.Leaving?
    case Kill(id) => id in s.calls && !Over(s.calls[id].pc)
    case Tick(_) => true
    case Disturb(garbage) => ReadPayload(garbage).None?
  }

  /** A call has decided on a write and has not made it yet. */
  predicate WritePending(s: State) {
    s.lock.Some? && s.lock.value in s.calls && Committed(s.calls[s.lock.value].pc)
  }

  /**
    The atomic steps an action completes. Outside interference counts at once,
    except while a write is pending: nobody reads the file before that write, so
    it counts only if the writer dies first.
   */
  function Events(s: State, a: Action): (events: seq<Step>)
    requires Enabled(s, a)
  {
    match a
    case Advance(id) =>
      var event := Act(s, s.calls[id]).event;
      if event.Some? then [event.value] else []
    case Kill(id) =>
      (if s.lock == Some(id) && s.lease != s.view then [Corrupt(s.lease)] else []) + [Crash(s.calls[id].p)]
    case Disturb(garbage) => if WritePending(s) then [] else [Corrupt(garbage)]
    case _ => []
  }

  /** What the action does to the shared files, the lock and the calls. */
  function Effected(s: State, a: Action): (s': State)
    requires Enabled(s, a)
  {
    match a
    case Start(id, p, op) => s.(calls := s.calls[id := Call(p, op, Waiting, |s.history|)])
    case Acquire(id) => s.(lock := Some(id), calls := s.calls[id := s.calls[id].(pc := Locked)])
    case Advance(id) =>
      var e := Act(s, s.calls[id]);
      s.(lease := e.lease, tmp := e.tmp, calls := s.calls[id := s.calls[id].(pc := e.pc)])
    case Unlock(id) =>
      s.(lock := None, calls := s.calls[id := s.calls[id].(pc := Done(s.calls[id].pc.answer))])
    case Kill(id) =>
      s.(lock := if s.lock == Some(id) then None else s.lock,
      calls := s.calls[id := s.calls[id].(pc := Killed(EffectOf(s.calls[id].pc)))])
    case Tick(time) => s.(clock := time)
    case Disturb(garbage) => s.(lease := garbage)
  }

  function View(file: LeaseFile, events: seq<Step>): (file': LeaseFile)
    decreases |events|
  {
    if events == [] then file else View(Apply(file, events[0]).0, events[1..])
  }

  function Next(s: State, a: Action): (s': State)
    requires Enabled(s, a)
  {
    var events := Events(s, a);
    Effected(s, a).(history := s.history + events, view := View(s.view, events))
  }

  ghost predicate Initial(s: State) {
    s.lock.None? && s.calls == map[] && s.origin == s.lease == s.view && s.history == []
  }

  // ------------------------------------------------------------- invariant

  /** The lock is held by exactly the call that is inside its critical section. */
  ghost predicate LockInv(s: State) {
    && (s.lock.Some? ==> s.lock.value in s.calls)
    && (forall id :: id in s.calls ==> (Critical(s.calls[id].pc) <==> s.lock == Some(id)))
  }

  /** The history is an atomic run, and the view is where it leads. */
  ghost predicate HistoryInv(s: State) {
    && LegalRun(s.history)
    && s.view == FileAt(s.origin, s.history, |s.history|)
  }

  /** The lease path shows the view; only while a write is pending may it have been garbled since. */
  ghost predicate LeaseInv(s: State) {
    s.lease == s.view || (WritePending(s) && ReadPayload(s.lease).None?)
  }

  /** The call took effect as the atomic step with this number and outcome. */
  ghost predicate TookEffect(origin: LeaseFile, history: seq<Step>, c: Call, answer: Answer) {
    && c.began <= answer.at < |history|
    && (exists now :: history[answer.at] == Intended(c, now))
    && OutcomeAt(origin, history, answer.at) == answer.result
  }

  ghost predicate EffectOk(s: State, c: Call) {
    && c.began <= |s.history|
    && (EffectOf(c.pc).Some? ==> TookEffect(s.origin, s.history, c, EffectOf(c.pc).value))
  }

  ghost predicate PlanOk(s: State, c: Call, plan: Plan) {
    && (c.op.ClaimOp? || c.op.RenewOp?)
    && plan.found == s.view
    && Apply(s.view, Intended(c, plan.now)) == (Complete(c, plan), plan.result)
  }

  /** What each point of each operation knows about the shared files. */
  ghost predicate Knows(s: State, c: Call) {
    match c.pc
    case Clocked(_) => c.op.ClaimOp?
    case Owned(found) => c.op.RenewOp? && found == s.view && Accepts(s.view, c.p.instance, c.op.token)
    case Ready(plan) => PlanOk(s, c, plan)
    case Writing(plan) => PlanOk(s, c, plan) && s.tmp == Garbled
    case Written(plan) => PlanOk(s, c, plan) && s.tmp == Complete(c, plan)
    case InBody(_) => c.op.GuardOp?
    case Unlinking => c.op.ReleaseOp? && Accepts(s.view, c.p.instance, c.op.token)
    case _ => true
  }

  /** No two calls stand for one atomic step. */
  ghost predicate DistinctSteps(calls: map<nat, Call>) {
    forall i, j ::
      && i in calls && j in calls && i != j
      && EffectOf(calls[i].pc).Some? && EffectOf(calls[j].pc).Some?
      ==> EffectOf(calls[i].pc).value.at != EffectOf(calls[j].pc).value.at
  }

  predicate IsOperation(s: Step) {
    s.Claim? || s.Renew? || s.GuardedWrite? || s.Release?
  }

  ghost predicate StandsFor(calls: map<nat, Call>, id: nat, k: nat) {
    id in calls && EffectOf(calls[id].pc).Some? && EffectOf(calls[id].pc).value.at == k
  }

  /** Every operation of the history is some call's. */
  ghost predicate AllAccountedFor(s: State) {
    forall k: nat :: k < |s.history| && IsOperation(s.history[k]) ==> exists id :: StandsFor(s.calls, id, k)
  }

  ghost predicate Inv(s: State) {
    && LockInv(s)
    && HistoryInv(s)
    && LeaseInv(s)
    && (forall id :: id in s.calls ==> EffectOk(s, s.calls[id]))
    && (forall id :: id in s.calls ==> Knows(s, s.calls[id]))
    && DistinctSteps(s.calls)
    && AllAccountedFor(s)
  }

  // ----------------------------------------------------- growing a history

  lemma {:induction false} PrefixFile(origin: LeaseFile, h: seq<Step>, h': seq<Step>, n: nat)
    requires h <= h' && n <= |h|
    ensures FileAt(origin, h', n) == FileAt(origin, h, n)
  {
    hide Apply;
    if n == 0 {
    } else {
      PrefixFile(origin, h, h', n - 1);
    }
  }

  lemma PrefixOutcome(origin: LeaseFile, h: seq<Step>, h': seq<Step>, k: nat)
    requires h <= h' && k < |h|
    ensures OutcomeAt(origin, h', k) == OutcomeAt(origin, h, k)
  {
    hide Apply, FileAt;
    PrefixFile(origin, h, h', k);
  }

  /** Recording one more atomic step. */
  lemma HistoryExtends(s: State, e: Step)
    requires HistoryInv(s) && Legal(e)
    ensures HistoryInv(s.(history := s.history + [e], view := Apply(s.view, e).0))
    ensures OutcomeAt(s.origin, s.history + [e], |s.history|) == Apply(s.view, e).1
  {
    hide Apply, ReadPayload;
    PrefixFile(s.origin, s.history, s.history + [e], |s.history|);
  }

  lemma HistoryFrame(s: State, s': State)
    requires HistoryInv(s) && s'.origin == s.origin && s'.history == s.history && s'.view == s.view
    ensures HistoryInv(s')
  {
    hide FileAt;
  }

  /** An effect outlives every growth of the history. */
  lemma EffectStays(s: State, s': State, c: Call, c': Call)
    requires EffectOk(s, c) && s'.origin == s.origin && s.history <= s'.history
    requires c'.p == c.p && c'.op == c.op && c'.began == c.began && EffectOf(c'.pc) == EffectOf(c.pc)
    ensures EffectOk(s', c')
  {
    hide Apply, FileAt, OutcomeAt, EffectOf;
    if EffectOf(c.pc).Some? {
      var answer := EffectOf(c.pc).value;
      PrefixOutcome(s.origin, s.history, s'.history, answer.at);
      var now :| s.history[answer.at] == Intended(c, now);
      assert s'.history[answer.at] == Intended(c', now);
    }
  }

  /** What a call knows survives the actions of others: they change the view only while no write is pending. */
  lemma KnowsFrame(s: State, s': State, c: Call)
    requires Knows(s, c) && s'.tmp == s.tmp
    requires s'.view == s.view || !Committed(c.pc)
    ensures Knows(s', c)
  {
    hide Apply, ReadPayload;
  }

  /**
    Bookkeeping of effects over one action: effects stay, and a new one is the
    actor's, for the step the action records.
   */
  ghost predicate Books(s: State, s': State, actor: nat) {
    && s.history <= s'.history
    && (forall id :: id in s.calls && EffectOf(s.calls[id].pc).Some? ==>
                       id in s'.calls && EffectOf(s'.calls[id].pc) == EffectOf(s.calls[id].pc))
    && (forall id :: id in s'.calls && EffectOf(s'.calls[id].pc).Some? &&
                     !(id in s.calls && EffectOf(s.calls[id].pc).Some?) ==>
                       id == actor && EffectOf(s'.calls[id].pc).value.at == |s.history|)
    && (forall k: nat :: |s.history| <= k < |s'.history| && IsOperation(s'.history[k]) ==>
                           StandsFor(s'.calls, actor, k))
  }

  lemma BooksKept(s: State, s': State, actor: nat)
    requires Inv(s) && Books(s, s', actor)
    ensures DistinctSteps(s'.calls) && AllAccountedFor(s')
  {
    hide HistoryInv, LeaseInv, LockInv, Knows, EffectOf, OutcomeAt;
    forall i, j | i in s'.calls && j in s'.calls && i != j
                  && EffectOf(s'.calls[i].pc).Some? && EffectOf(s'.calls[j].pc).Some?
      ensures EffectOf(s'.calls[i].pc).value.at != EffectOf(s'.calls[j].pc).value.at
    {
      assert i != actor ==> i in s.calls && EffectOf(s.calls[i].pc).Some? && EffectOk(s, s.calls[i]);
      assert j != actor ==> j in s.calls && EffectOf(s.calls[j].pc).Some? && EffectOk(s, s.calls[j]);
    }
    forall k: nat | k < |s'.history| && IsOperation(s'.history[k])
      ensures exists id :: StandsFor(s'.calls, id, k)
    {
      if k < |s.history| {
        var id :| StandsFor(s.calls, id, k);
        assert StandsFor(s'.calls, id, k);
      }
    }
  }

  // ------------------------------------------------------ the lock holder

  /** One action of the lock holder: what it records is what it does to the file. */
  lemma ActIsAtomic(s: State, c: Call)
    requires Knows(s, c)
    requires s.lease == s.view || Committed(c.pc)
    ensures var e := Act(s, c);
            if e.event.None? then
              && e.lease == s.lease
              && EffectOf(e.pc) == EffectOf(c.pc)
              && (Committed(c.pc) ==> Committed(e.pc))
            else
              var step := e.event.value;
              && Legal(step) && IsOperation(step)
              && (exists now :: step == Intended(c, now))
              && e.lease == Apply(s.view, step).0
              && EffectOf(c.pc) == None
              && EffectOf(e.pc) == Some(Answer(Apply(s.view, step).1, |s.history|))
  {
    hide ReadPayload;
    var e := Act(s, c);
    if e.event.Some? {
      var now := if c.pc.Clocked? then c.pc.now else if c.pc.Written? then c.pc.plan.now else s.clock;
      assert e.event.value == Intended(c, now);
    }
  }

  /** The lock holder's knowledge after its action. */
  lemma ActKnows(s: State, c: Call)
    requires Knows(s, c) && Critical(c.pc) && !c.pc.Leaving?
    requires s.lease == s.view || Committed(c.pc)
    ensures var e := Act(s, c);
            && Critical(e.pc)
            && (e.event.None? ==> Knows(s.(tmp := e.tmp), c.(pc := e.pc)))
            && (e.event.Some? ==> forall s' :: Knows(s', c.(pc := e.pc)))
  {
    hide ReadPayload, Accepts;
  }

  /** The new effect of an action that records its call's step. */
  lemma NewEffect(s: State, s': State, c: Call, c': Call, now: real, result: Outcome)
    requires c.began <= |s.history| && s'.history == s.history + [Intended(c, now)] && s'.origin == s.origin
    requires c'.p == c.p && c'.op == c.op && c'.began == c.began
    requires EffectOf(c'.pc) == Some(Answer(result, |s.history|))
    requires OutcomeAt(s'.origin, s'.history, |s.history|) == result
    ensures EffectOk(s', c')
  {
    hide Apply, FileAt, OutcomeAt, EffectOf;
    assert s'.history[|s.history|] == Intended(c', now);
  }

  lemma HolderFacts(s: State, id: nat)
    requires Inv(s) && id in s.calls && s.lock == Some(id)
    ensures Critical(s.calls[id].pc) && Knows(s, s.calls[id]) && EffectOk(s, s.calls[id])
    ensures HistoryInv(s)
    ensures s.lease == s.view || Committed(s.calls[id].pc)
    ensures forall j :: j in s.calls && j != id ==> !Critical(s.calls[j].pc)
  {
    hide FileAt, ReadPayload, Knows, EffectOk, DistinctSteps, AllAccountedFor;
  }

  lemma {:induction false} ViewOne(file: LeaseFile, e: Step)
    ensures View(file, []) == file
    ensures View(file, [e]) == Apply(file, e).0
  {
    hide Apply;
  }

  /** The state after an action of the lock holder, by what the action recorded. */
  lemma AdvanceState(s: State, id: nat)
    requires Enabled(s, Advance(id))
    ensures var e, s', c := Act(s, s.calls[id]), Next(s, Advance(id)), s.calls[id];
            && s' == s.(lease := e.lease, tmp := e.tmp, calls := s.calls[id := c.(pc := e.pc)],
                     history := s'.history, view := s'.view)
            && s'.history == (if e.event.Some? then s.history + [e.event.value] else s.history)
            && s'.view == (if e.event.Some? then Apply(s.view, e.event.value).0 else s.view)
  {
    hide Act, Apply;
    var e := Act(s, s.calls[id]);
    if e.event.Some? {
      ViewOne(s.view, e.event.value);
    }
  }

  /** An action of the lock holder keeps the history, the file and the bookkeeping right. */
  lemma AdvanceKeepsHistory(s: State, id: nat)
    requires Inv(s) && Enabled(s, Advance(id))
    ensures var s' := Next(s, Advance(id));
            HistoryInv(s') && LeaseInv(s') && EffectOk(s', s'.calls[id]) && Books(s, s', id)
  {
    hide Act, Apply, ReadPayload, Knows, EffectOk, HistoryInv, Inv, EffectOf, Committed, Next, FileAt, OutcomeAt;
    var s', c := Next(s, Advance(id)), s.calls[id];
    var e := Act(s, c);
    AdvanceState(s, id);
    HolderFacts(s, id);
    ActIsAtomic(s, c);
    assert LeaseInv(s) by { InvParts(s); }
    if e.event.None? {
      HistoryFrame(s, s');
      EffectStays(s, s', c, s'.calls[id]);
    } else {
      HistoryExtends(s, e.event.value);
      HistoryFrame(s.(history := s.history + [e.event.value], view := Apply(s.view, e.event.value).0), s');
      var now :| e.event.value == Intended(c, now);
      assert c.began <= |s.history| by { InvParts(s); }
      NewEffect(s, s', c, s'.calls[id], now, Apply(s.view, e.event.value).1);
    }
  }

  lemma InvParts(s: State)
    requires Inv(s)
    ensures LockInv(s) && HistoryInv(s) && LeaseInv(s)
    ensures forall id :: id in s.calls ==> EffectOk(s, s.calls[id]) && s.calls[id].began <= |s.history|
  {
    hide FileAt, Knows, OutcomeAt;
  }

  /** Another call, outside its critical section, sees only the history grow. */
  lemma BystanderOk(s: State, s': State, c: Call)
    requires EffectOk(s, c) && !Critical(c.pc) && s'.origin == s.origin && s.history <= s'.history
    ensures EffectOk(s', c) && Knows(s', c)
  {
    hide EffectOk;
    EffectStays(s, s', c, c);
  }

  lemma AdvanceKeepsInv(s: State, id: nat)
    requires Inv(s) && Enabled(s, Advance(id))
    ensures Inv(Next(s, Advance(id)))
  {
    hide Act, Apply, ReadPayload, Knows, EffectOk, HistoryInv, LeaseInv, Books, DistinctSteps, AllAccountedFor;
    hide EffectOf, Committed, Critical, Next;
    var s', c := Next(s, Advance(id)), s.calls[id];
    AdvanceState(s, id);
    HolderFacts(s, id);
    ActKnows(s, c);
    AdvanceKeepsHistory(s, id);
    assert s.history <= s'.history by { BooksGrow(s, s', id); }
    BooksKept(s, s', id);
    assert Knows(s', s'.calls[id]) by {
      if Act(s, c).event.None? {
        assert Critical(s'.calls[id].pc);
        KnowsFrame(s.(tmp := s'.tmp), s', s'.calls[id]);
      }
    }
    forall j | j in s'.calls && j != id
      ensures EffectOk(s', s'.calls[j]) && Knows(s', s'.calls[j])
    {
      BystanderOk(s, s', s.calls[j]);
    }
  }

  lemma BooksGrow(s: State, s': State, actor: nat)
    requires Books(s, s', actor)
    ensures s.history <= s'.history
  {
  }

  // --------------------------------------------------- every other action

  /** Recording what is not an operation: crashes and outside interference. */
  lemma {:induction false} NoiseExtends(s: State, s': State, events: seq<Step>)
    requires HistoryInv(s) && |events| <= 2
    requires forall k :: 0 <= k < |events| ==> Legal(events[k]) && (events[k].Corrupt? || events[k].Crash?)
    requires s'.origin == s.origin && s'.history == s.history + events && s'.view == View(s.view, events)
    ensures HistoryInv(s')
  {
    hide HistoryInv, Apply;
    if events == [] {
      HistoryFrame(s, s');
    } else {
      ViewOne(s.view, events[0]);
      HistoryExtends(s, events[0]);
      var s1 := s.(history := s.history + [events[0]], view := Apply(s.view, events[0]).0);
      if |events| == 1 {
        assert events == [events[0]];
        HistoryFrame(s1, s');
      } else {
        assert events[1..] == [events[1]];
        ViewOne(s1.view, events[1]);
        HistoryExtends(s1, events[1]);
        assert s1.history + [events[1]] == s'.history;
        HistoryFrame(s1.(history := s'.history, view := s'.view), s');
      }
    }
  }

  lemma {:induction false} ViewTwo(file: LeaseFile, d: Step, e: Step)
    ensures View(file, [d, e]) == Apply(Apply(file, d).0, e).0
  {
    hide Apply;
    assert [d, e][1..] == [e];
    ViewOne(Apply(file, d).0, e);
  }

  /** Every action but the lock holder's own keeps the lease path in step with the view. */
  lemma NoiseKeepsLease(s: State, a: Action)
    requires Enabled(s, a) && !a.Advance? && LeaseInv(s) && LockInv(s)
    ensures var events, s' := Events(s, a), Next(s, a);
            && |events| <= 2
            && (forall k :: 0 <= k < |events| ==> Legal(events[k]) && (events[k].Corrupt? || events[k].Crash?))
            && LeaseInv(s')
            && (s'.lock == s.lock && WritePending(s) ==> s'.view == s.view)
  {
    hide ReadPayload;
    var s' := Next(s, a);
    match a
    case Kill(id) =>
      var crash := Crash(s.calls[id].p);
      if s.lock == Some(id) && s.lease != s.view {
        assert Events(s, a) == [Corrupt(s.lease), crash];
        ViewTwo(s.view, Corrupt(s.lease), crash);
      } else {
        assert Events(s, a) == [crash];
        ViewOne(s.view, crash);
        assert s'.lock != s.lock || s'.lock.None? || s'.calls[s'.lock.value] == s.calls[s.lock.value];
      }
    case Disturb(garbage) => ViewOne(s.view, Corrupt(garbage));
    case Unlock(id) => assert !WritePending(s);
    case Acquire(id) => assert !WritePending(s);
    case Start(id, p, op) =>
    case Tick(time) =>
  }

  /** The calls after an action other than the lock holder's own. */
  lemma NoiseCalls(s: State, a: Action, id: nat)
    requires Inv(s) && Enabled(s, a) && !a.Advance? && id in Next(s, a).calls
    ensures var s' := Next(s, a);
            var c' := s'.calls[id];
            && (Critical(c'.pc) <==> s'.lock == Some(id))
            && (if id in s.calls then
                  var c := s.calls[id];
                  && c'.p == c.p && c'.op == c.op && c'.began == c.began && EffectOf(c'.pc) == EffectOf(c.pc)
                  && (c' == c || c'.pc.Locked? || Over(c'.pc))
                else c'.pc.Waiting? && c'.began == |s.history|)
  {
    hide Events, View, HistoryInv, EffectOk, Knows, DistinctSteps, AllAccountedFor, LeaseInv;
  }

  /** The shared part of the state after an action other than the lock holder's own. */
  lemma NoiseShared(s: State, a: Action)
    requires LockInv(s) && Enabled(s, a) && !a.Advance?
    ensures var s' := Next(s, a);
            && s'.origin == s.origin && s'.tmp == s.tmp
            && s'.history == s.history + Events(s, a) && s'.view == View(s.view, Events(s, a))
            && (s'.lock.Some? ==> s'.lock.value in s'.calls)
            && s.calls.Keys <= s'.calls.Keys
  {
    hide Events, View, Act, ReadPayload;
  }

  /** Effects that stay as they are, while nothing but noise is recorded, keep the books. */
  lemma QuietBooks(s: State, s': State, events: seq<Step>)
    requires s'.history == s.history + events && s.calls.Keys <= s'.calls.Keys
    requires forall k :: 0 <= k < |events| ==> !IsOperation(events[k])
    requires forall id :: id in s.calls ==> EffectOf(s'.calls[id].pc) == EffectOf(s.calls[id].pc)
    requires forall id :: id in s'.calls && id !in s.calls ==> EffectOf(s'.calls[id].pc) == None
    ensures Books(s, s', 0)
  {
    hide EffectOf, IsOperation;
    forall k: nat | |s.history| <= k < |s'.history|
      ensures !IsOperation(s'.history[k])
    {
      assert s'.history[k] == events[k - |s.history|];
    }
  }

  /** No action but the lock holder's own gives any call an effect or changes one. */
  lemma NoiseKeepsBooks(s: State, a: Action)
    requires Inv(s) && Enabled(s, a) && !a.Advance?
    requires forall k :: 0 <= k < |Events(s, a)| ==> Events(s, a)[k].Corrupt? || Events(s, a)[k].Crash?
    ensures Books(s, Next(s, a), 0)
  {
    hide Next, Events, View, EffectOf, Enabled, Inv, Books;
    var s' := Next(s, a);
    InvParts(s);
    hide HistoryInv, EffectOk, LeaseInv;
    NoiseShared(s, a);
    forall id | id in s'.calls
      ensures EffectOf(s'.calls[id].pc) == if id in s.calls then EffectOf(s.calls[id].pc) else None
    {
      NoiseCalls(s, a, id);
      WaitingDidNothing(s'.calls[id].pc);
    }
    QuietBooks(s, s', Events(s, a));
  }

  lemma WaitingDidNothing(pc: Pc)
    ensures pc.Waiting? ==> EffectOf(pc) == None
  {
  }

  lemma NoiseKeepsLock(s: State, a: Action)
    requires Inv(s) && Enabled(s, a) && !a.Advance?
    ensures LockInv(Next(s, a))
  {
    hide Next, Events, View, Critical, Enabled, HistoryInv, EffectOk, Knows, DistinctSteps, AllAccountedFor, LeaseInv;
    NoiseShared(s, a);
    forall id | id in Next(s, a).calls
      ensures Critical(Next(s, a).calls[id].pc) <==> Next(s, a).lock == Some(id)
    {
      NoiseCalls(s, a, id);
    }
  }

  /** What a call knows and has done survives an action other than the lock holder's own. */
  lemma NoiseKeepsCall(s: State, a: Action, id: nat)
    requires Inv(s) && Enabled(s, a) && !a.Advance? && id in Next(s, a).calls
    requires Next(s, a).lock == s.lock && WritePending(s) ==> Next(s, a).view == s.view
    ensures EffectOk(Next(s, a), Next(s, a).calls[id]) && Knows(Next(s, a), Next(s, a).calls[id])
  {
    var s' := Next(s, a);
    NoiseShared(s, a);
    NoiseCalls(s, a, id);
    hide Next, Events, EffectOk, Knows, EffectOf, HistoryInv, LeaseInv, DistinctSteps, AllAccountedFor;
    var c' := s'.calls[id];
    if id in s.calls {
      var c := s.calls[id];
      EffectStays(s, s', c, c');
      if c' == c && Committed(c.pc) {
        assert s.lock == Some(id) == s'.lock;
      }
      if c' == c {
        KnowsFrame(s, s', c);
      } else {
        NothingToKnow(s', c');
      }
    } else {
      NothingToKnow(s', c');
      NothingDone(s', c');
    }
  }

  lemma NothingToKnow(s: State, c: Call)
    requires c.pc.Locked? || c.pc.Waiting? || Over(c.pc)
    ensures Knows(s, c)
  {
  }

  lemma NothingDone(s: State, c: Call)
    requires c.pc.Waiting? && c.began <= |s.history|
    ensures EffectOk(s, c)
  {
  }

  lemma NoiseKeepsInv(s: State, a: Action)
    requires Inv(s) && Enabled(s, a) && !a.Advance?
    ensures Inv(Next(s, a))
  {
    hide Apply, ReadPayload, Knows, EffectOk, HistoryInv, LeaseInv, LockInv, Books, DistinctSteps, AllAccountedFor;
    hide EffectOf, Committed, Critical, Next, Enabled, Events, View, WritePending;
    var s' := Next(s, a);
    InvParts(s);
    NoiseKeepsLease(s, a);
    NoiseShared(s, a);
    NoiseExtends(s, s', Events(s, a));
    NoiseKeepsBooks(s, a);
    BooksKept(s, s', 0);
    NoiseKeepsLock(s, a);
    forall id | id in s'.calls
      ensures EffectOk(s', s'.calls[id]) && Knows(s', s'.calls[id])
    {
      NoiseKeepsCall(s, a, id);
    }
  }

  lemma ActionKeepsInv(s: State, a: Action)
    requires Inv(s) && Enabled(s, a)
    ensures Inv(Next(s, a))
  {
    hide Inv, Next;
    if a.Advance? {
      AdvanceKeepsInv(s, a.id);
    } else {
      NoiseKeepsInv(s, a);
    }
  }
}
