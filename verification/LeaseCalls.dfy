/**
  One call left alone with the lock: the actions of LeaseLocking, one after the
  other, do what the whole operation does, and the world may interfere between any
  two of them.
 */
module LeaseCalls {
  import opened Prelude
  import opened LeaseModel
  import opened LeaseRuns
  import opened LeaseLocking

  /** The state after n actions of the lock holder, as far as they are possible. */
  ghost function AfterAdvances(s: State, id: nat, n: nat): (result: Option<State>) {
    if n == 0 then Some(s)
    else
      match AfterAdvances(s, id, n - 1)
      case None => None
      case Some(t) => if Enabled(t, Advance(id)) then Some(Next(t, Advance(id))) else None
  }

  /** How many actions an operation takes from the lock to the way out. */
  function ActionsFor(outcome: Outcome): (n: nat) {
    match outcome
    case Claimed(_, _) => 5
    case Renewed => 5
    case Held(_, _) => 2
    case Permitted => 2
    case Removed => 2
    case _ => 1
  }

  /** The state of the files and calls after the call has run alone, from the lock to the way out. */
  ghost predicate RanAlone(s: State, id: nat, t: State)
    requires id in s.calls
  {
    var c := s.calls[id];
    var step := Intended(c, s.clock);
    && t.lease == Apply(s.lease, step).0
    && t.lock == s.lock && t.clock == s.clock
    && id in t.calls && t.calls == s.calls[id := c.(pc := t.calls[id].pc)]
    && t.calls[id].pc.Leaving? && t.calls[id].pc.answer.result == Apply(s.lease, step).1
  }

  lemma AdvanceOnce(s: State, id: nat, n: nat, t: State)
    requires AfterAdvances(s, id, n) == Some(t) && Enabled(t, Advance(id))
    ensures AfterAdvances(s, id, n + 1) == Some(Next(t, Advance(id)))
  {
    hide Next, Enabled;
  }

  /** What one action of the holder does to everything but the history. */
  lemma Moved(s: State, id: nat)
    requires Enabled(s, Advance(id))
    ensures var e, s' := Act(s, s.calls[id]), Next(s, Advance(id));
            && s'.lease == e.lease && s'.tmp == e.tmp && s'.clock == s.clock && s'.lock == s.lock
            && s'.calls == s.calls[id := s.calls[id].(pc := e.pc)]
  {
    hide Act, View;
  }

  /** The write of a claim or renewal: truncate, complete, move. */
  lemma WritesAlone(s: State, id: nat, n: nat, t: State)
    requires AfterAdvances(s, id, n) == Some(t)
    requires id in t.calls && t.lock == Some(id) && t.calls[id].pc.Ready?
    ensures var c := t.calls[id];
            var end := AfterAdvances(s, id, n + 3);
            && end.Some?
            && end.value.lease == Complete(c, c.pc.plan)
            && end.value.lock == t.lock && end.value.clock == t.clock
            && id in end.value.calls && end.value.calls == t.calls[id := c.(pc := end.value.calls[id].pc)]
            && end.value.calls[id].pc.Leaving? && end.value.calls[id].pc.answer.result == c.pc.plan.result
  {
    hide Next, AfterAdvances, NewDocument;
    Moved(t, id);
    AdvanceOnce(s, id, n, t);
    var t1 := Next(t, Advance(id));
    Moved(t1, id);
    AdvanceOnce(s, id, n + 1, t1);
    var t2 := Next(t1, Advance(id));
    Moved(t2, id);
    AdvanceOnce(s, id, n + 2, t2);
  }

  /** Once it has the lock, a call left alone does to the lease file, and answers, what its atomic step does. */
  lemma {:induction false} HolderAloneIsAtomic(s: State, id: nat)
    requires id in s.calls && s.lock == Some(id) && s.calls[id].pc.Locked?
    ensures var n := ActionsFor(Apply(s.lease, Intended(s.calls[id], s.clock)).1);
            var t := AfterAdvances(s, id, n);
            && t.Some? && RanAlone(s, id, t.value)
            && Enabled(t.value, Unlock(id))
            && Next(t.value, Unlock(id)).lock == None
            && Next(t.value, Unlock(id)).lease == t.value.lease
            && Next(t.value, Unlock(id)).calls[id].pc == Done(t.value.calls[id].pc.answer)
  {
    hide AfterAdvances, NewDocument, ReadPayload, Accepts, ClaimRefused, ClaimGeneration;
    var c := s.calls[id];
    assert AfterAdvances(s, id, 0) == Some(s) by { NoAdvances(s, id); }
    Moved(s, id);
    AdvanceOnce(s, id, 0, s);
    var s1 := Next(s, Advance(id));
    hide Next;
    if !s1.calls[id].pc.Leaving? {
      Moved(s1, id);
      AdvanceOnce(s, id, 1, s1);
      var s2 := Next(s1, Advance(id));
      if s2.calls[id].pc.Ready? {
        WritesAlone(s, id, 2, s2);
      }
    }
  }

  lemma {:induction false} NoAdvances(s: State, id: nat)
    ensures AfterAdvances(s, id, 0) == Some(s)
  {
  }

  /** The world is not ruled out: calls start and die, the clock jumps, the file is garbled, at any moment. */
  lemma AnythingMayHappen(s: State, id: nat, p: Process, op: Op, time: real)
    ensures id !in s.calls ==> Enabled(s, Start(id, p, op))
    ensures id in s.calls ==> (Enabled(s, Kill(id)) <==> !s.calls[id].pc.Done? && !s.calls[id].pc.Killed?)
    ensures id in s.calls && s.calls[id].pc.Waiting? && s.lock == None ==> Enabled(s, Acquire(id))
    ensures Enabled(s, Tick(time)) && Enabled(s, Disturb(Absent)) && Enabled(s, Disturb(Garbled))
  {
  }
}
