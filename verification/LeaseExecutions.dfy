/**
  Properties of every execution of LeaseLocking's actions: it is linearizable, so
  the properties of atomic runs (LeaseRuns) hold of the calls, and the guarantees
  of a single call survive other processes, crashes and outside interference.
 */
module LeaseExecutions {
  import opened Prelude
  import opened LeaseModel
  import opened LeaseRuns
  import opened LeaseLocking

  ghost predicate Follows(s: State, a: Action, s': State) {
    Enabled(s, a) && s' == Next(s, a)
  }

  /** A run from a directory with nothing in flight. */
  ghost predicate Execution(states: seq<State>, actions: seq<Action>) {
    && |states| == |actions| + 1
    && Initial(states[0])
    && forall k :: 0 <= k < |actions| ==> Follows(states[k], actions[k], states[k + 1])
  }

  lemma InitialInv(s: State)
    requires Initial(s)
    ensures Inv(s)
  {
  }

  lemma {:induction false} ExecutionKeepsInv(states: seq<State>, actions: seq<Action>, n: nat)
    requires Execution(states, actions) && n <= |actions|
    ensures Inv(states[n])
  {
    hide Inv, Next, Enabled;
    if n == 0 {
      InitialInv(states[0]);
    } else {
      ExecutionKeepsInv(states, actions, n - 1);
      assert Follows(states[n - 1], actions[n - 1], states[n]);
      ActionKeepsInv(states[n - 1], actions[n - 1]);
    }
  }

  /** The same call, at most further on: an effect it has had stays what it was. */
  ghost predicate Progressed(c: Call, c': Call) {
    && c'.p == c.p && c'.op == c.op && c'.began == c.began
    && (EffectOf(c.pc).Some? ==> EffectOf(c'.pc) == EffectOf(c.pc))
  }

  /** Between two states of one run: the history grows, calls progress, and new calls begin later. */
  ghost predicate Later(s: State, s': State) {
    && s'.origin == s.origin
    && s.history <= s'.history
    && (forall id :: id in s.calls ==> id in s'.calls && Progressed(s.calls[id], s'.calls[id]))
    && (forall id :: id in s'.calls && id !in s.calls ==> |s.history| <= s'.calls[id].began)
  }

  lemma ActionIsLater(s: State, a: Action)
    requires Inv(s) && Enabled(s, a)
    ensures Later(s, Next(s, a))
  {
    hide Act, Events, View, HistoryInv, EffectOk, Knows, DistinctSteps, AllAccountedFor, LeaseInv;
    var s' := Next(s, a);
    if a.Advance? {
      HolderFacts(s, a.id);
      ActIsAtomic(s, s.calls[a.id]);
    } else {
      NoiseShared(s, a);
      forall id | id in s'.calls
        ensures id in s.calls ==> Progressed(s.calls[id], s'.calls[id])
        ensures id !in s.calls ==> |s.history| <= s'.calls[id].began
      {
        NoiseCalls(s, a, id);
      }
    }
  }

  lemma {:induction false} ExecutionIsLater(states: seq<State>, actions: seq<Action>, m: nat, n: nat)
    requires Execution(states, actions) && m <= n <= |actions|
    ensures Later(states[m], states[n])
  {
    hide Inv, Next, Enabled, Later, Initial;
    if m == n {
      LaterReflexive(states[m]);
    } else {
      ExecutionIsLater(states, actions, m, n - 1);
      ExecutionKeepsInv(states, actions, n - 1);
      assert Follows(states[n - 1], actions[n - 1], states[n]);
      ActionIsLater(states[n - 1], actions[n - 1]);
      LaterTransitive(states[m], states[n - 1], states[n]);
    }
  }

  lemma LaterReflexive(s: State)
    ensures Later(s, s)
  {
  }

  lemma LaterTransitive(s: State, t: State, u: State)
    requires Later(s, t) && Later(t, u)
    ensures Later(s, u)
  {
    hide EffectOf;
  }

  // ---------------------------------------------------------------- clocks

  /** The clock reading a call carries with it. */
  function TimeOf(pc: Pc): (time: Option<real>) {
    match pc
    case Clocked(now) => Some(now)
    case Ready(plan) => Some(plan.now)
    case Writing(plan) => Some(plan.now)
    case Written(plan) => Some(plan.now)
    case _ => None
  }

  /** The clock was set forward only, in the first n actions. */
  ghost predicate SteadyClock(states: seq<State>, actions: seq<Action>, n: nat)
    requires n <= |actions| < |states|
  {
    forall k :: 0 <= k < n && actions[k].Tick? ==> states[k].clock <= actions[k].time
  }

  /** Every time recorded or carried so far is at most the given one. */
  ghost predicate TimesUpTo(s: State, now: real) {
    && (forall k :: 0 <= k < |s.history| && Timed(s.history[k]) ==> s.history[k].now <= now)
    && (forall id :: id in s.calls && TimeOf(s.calls[id].pc).Some? ==> TimeOf(s.calls[id].pc).value <= now)
  }

  ghost predicate ClockInv(s: State) {
    && MonotoneClock(s.history)
    && TimesUpTo(s, s.clock)
    && (forall id, k ::
          id in s.calls && TimeOf(s.calls[id].pc).Some? && 0 <= k < |s.history| && Timed(s.history[k])
          ==> s.history[k].now <= TimeOf(s.calls[id].pc).value)
  }

  /** The times an action of the lock holder handles: the clock, or the reading it carries. */
  lemma ActTimes(s: State, c: Call)
    ensures var e := Act(s, c);
            && TimeOf(e.pc) in {None, TimeOf(c.pc), Some(s.clock)}
            && (e.event.Some? ==> TimeOf(e.pc) == None)
            && (e.event.Some? && Timed(e.event.value) ==>
                  Some(e.event.value.now) in {TimeOf(c.pc), Some(s.clock)})
  {
    hide ReadPayload, Accepts, ClaimRefused, ClaimGeneration, NewDocument;
  }

  /** A call other than the one acting carries no new reading. */
  lemma NoiseTimes(s: State, a: Action, id: nat)
    requires Inv(s) && Enabled(s, a) && !a.Advance? && id in Next(s, a).calls
    ensures var c' := Next(s, a).calls[id];
            && (TimeOf(c'.pc).Some? ==> id in s.calls && TimeOf(s.calls[id].pc) == TimeOf(c'.pc))
            && (EffectOf(c'.pc).Some? ==> id in s.calls && EffectOf(s.calls[id].pc) == EffectOf(c'.pc))
  {
    NoiseCalls(s, a, id);
    hide Inv, Enabled, Next;
  }

  /** A step timed by the clock or by the actor's own reading keeps the clock invariant. */
  lemma TimedClock(s: State, s': State, id: nat, event: Option<Step>)
    requires ClockInv(s) && s'.clock == s.clock && id in s.calls && s'.calls.Keys == s.calls.Keys
    requires s'.history == if event.Some? then s.history + [event.value] else s.history
    requires forall j :: j in s'.calls && j != id ==> TimeOf(s'.calls[j].pc) == None
    requires var time, time' := TimeOf(s.calls[id].pc), TimeOf(s'.calls[id].pc);
             if event.None? then time' in {None, time, Some(s.clock)}
             else time' == None && (Timed(event.value) ==> Some(event.value.now) in {time, Some(s.clock)})
    ensures ClockInv(s')
  {
    hide TimeOf;
  }

  lemma AdvanceKeepsClockInv(s: State, id: nat)
    requires Inv(s) && Enabled(s, Advance(id)) && ClockInv(s)
    ensures ClockInv(Next(s, Advance(id)))
  {
    hide ClockInv;
    AdvanceState(s, id);
    HolderFacts(s, id);
    ActTimes(s, s.calls[id]);
    hide Inv, Enabled, Next, Act, Apply, HistoryInv, EffectOk, Knows, TimeOf;
    forall j | j in s.calls && j != id
      ensures TimeOf(s.calls[j].pc) == None
    {
      BystanderTime(s.calls[j].pc);
    }
    TimedClock(s, Next(s, Advance(id)), id, Act(s, s.calls[id]).event);
  }

  lemma BystanderTime(pc: Pc)
    requires !Critical(pc)
    ensures TimeOf(pc) == None
  {
  }

  /** Untimed events, a later clock and no new readings keep the clock invariant. */
  lemma UntimedClock(s: State, s': State, events: seq<Step>)
    requires ClockInv(s) && s'.history == s.history + events && s.clock <= s'.clock
    requires forall k :: 0 <= k < |events| ==> !Timed(events[k])
    requires forall id :: id in s'.calls && TimeOf(s'.calls[id].pc).Some? ==>
                            id in s.calls && TimeOf(s.calls[id].pc) == TimeOf(s'.calls[id].pc)
    ensures ClockInv(s')
  {
    hide TimeOf;
  }

  lemma NoiseKeepsClockInv(s: State, a: Action)
    requires Inv(s) && Enabled(s, a) && !a.Advance? && ClockInv(s)
    requires a.Tick? ==> s.clock <= a.time
    ensures ClockInv(Next(s, a))
  {
    hide ClockInv;
    var s' := Next(s, a);
    InvParts(s);
    NoiseShared(s, a);
    NoiseKeepsLease(s, a);
    assert s.clock <= s'.clock;
    hide Inv, Enabled, Next, Events, View, HistoryInv, EffectOk, LeaseInv, LockInv, TimeOf;
    forall id | id in s'.calls && TimeOf(s'.calls[id].pc).Some?
      ensures id in s.calls && TimeOf(s.calls[id].pc) == TimeOf(s'.calls[id].pc)
    {
      NoiseTimes(s, a, id);
    }
    UntimedClock(s, s', Events(s, a));
  }

  /** Readings are taken under the lock, so a clock that never goes back gives monotone times. */
  lemma {:induction false} SteadyClockKept(states: seq<State>, actions: seq<Action>, n: nat)
    requires Execution(states, actions) && n <= |actions| && SteadyClock(states, actions, n)
    ensures ClockInv(states[n])
  {
    hide Inv, Next, Enabled, ClockInv;
    if n == 0 {
      assert ClockInv(states[0]) by { InitialClock(states[0]); }
    } else {
      SteadyClockKept(states, actions, n - 1);
      ExecutionKeepsInv(states, actions, n - 1);
      assert Follows(states[n - 1], actions[n - 1], states[n]);
      if actions[n - 1].Advance? {
        AdvanceKeepsClockInv(states[n - 1], actions[n - 1].id);
      } else {
        NoiseKeepsClockInv(states[n - 1], actions[n - 1]);
      }
    }
  }

  lemma InitialClock(s: State)
    requires Initial(s)
    ensures ClockInv(s)
  {
  }

  /** The call read this time off the clock in one of the first n actions, as the lock holder. */
  ghost predicate ReadByHolder(states: seq<State>, actions: seq<Action>, n: nat, id: nat, time: real)
    requires n <= |actions| < |states|
  {
    exists m :: 0 <= m < n && actions[m] == Advance(id) && states[m].lock == Some(id) && states[m].clock == time
  }

  /** A time the call carries after an action, or newly recorded in its step, was carried before or is read now. */
  lemma ActionTimes(s: State, a: Action, id: nat)
    requires Inv(s) && Enabled(s, a) && id in Next(s, a).calls
    ensures var s' := Next(s, a);
            var c' := s'.calls[id];
            var nowRead := a == Advance(id) && id in s.calls && s.lock == Some(id);
            && (TimeOf(c'.pc).Some? ==>
                  (id in s.calls && TimeOf(c'.pc) == TimeOf(s.calls[id].pc))
                  || (nowRead && TimeOf(c'.pc).value == s.clock))
            && (EffectOf(c'.pc).Some? ==>
                  (id in s.calls && EffectOf(c'.pc) == EffectOf(s.calls[id].pc))
                  || (nowRead && EffectOf(c'.pc).value.at == |s.history| < |s'.history|
                      && (Timed(s'.history[|s.history|]) ==>
                            Some(s'.history[|s.history|].now) in {TimeOf(s.calls[id].pc), Some(s.clock)})))
  {
    if a.Advance? {
      AdvanceState(s, a.id);
      HolderFacts(s, a.id);
      ActIsAtomic(s, s.calls[a.id]);
      ActTimes(s, s.calls[a.id]);
      hide Inv, Act, Apply, Knows, EffectOk, HistoryInv, Events, View, EffectOf, TimeOf;
    } else {
      NoiseTimes(s, a, id);
    }
  }

  /** Every time a call carries, or its step records, it read off the clock itself, under the lock. */
  lemma {:induction false} TimesAreReadUnderLock(states: seq<State>, actions: seq<Action>, n: nat, id: nat)
    requires Execution(states, actions) && n <= |actions| && id in states[n].calls
    ensures var s, c := states[n], states[n].calls[id];
            && (TimeOf(c.pc).Some? ==> ReadByHolder(states, actions, n, id, TimeOf(c.pc).value))
            && (EffectOf(c.pc).Some? ==>
                  var at := EffectOf(c.pc).value.at;
                  at < |s.history|
                  && (Timed(s.history[at]) ==> ReadByHolder(states, actions, n, id, s.history[at].now)))
  {
    hide Inv, Next, Enabled, EffectOf, TimeOf, Initial;
    assert n > 0 by { InitialCalls(states[0]); }
    var s, a := states[n - 1], actions[n - 1];
    ExecutionKeepsInv(states, actions, n - 1);
    assert Follows(s, a, states[n]);
    ActionTimes(s, a, id);
    ActionIsLater(s, a);
    if id in s.calls {
      TimesAreReadUnderLock(states, actions, n - 1, id);
    }
  }

  lemma InitialCalls(s: State)
    requires Initial(s)
    ensures s.calls == map[]
  {
  }

  // ------------------------------------------------------- linearizability

  /** The lease path shows what the atomic run left, or garbage that the write under way will replace. */
  ghost predicate ShowsRun(s: State) {
    || s.lease == FileAt(s.origin, s.history, |s.history|)
    || (WritePending(s) && ReadPayload(s.lease).None?)
  }

  /**
    Refinement: however the actions of the calls interleave, wherever they crash,
    whatever the clock shows and whenever the file is garbled, an atomic run
    explains the execution. The lease path shows where that run leads, every
    finished call answered what a step of the run of its own answers, a step that
    was taken between the call's start and its end, and the run holds no other
    operations than those calls'. Its times are monotone if the clock was.
   */
  lemma ExecutionRefinesAtomicRun(states: seq<State>, actions: seq<Action>, n: nat)
    requires Execution(states, actions) && n <= |actions|
    ensures var s := states[n];
            && LegalRun(s.history) && (SteadyClock(states, actions, n) ==> MonotoneClock(s.history))
            && s.origin == states[0].lease && ShowsRun(s)
            && (forall id :: id in s.calls && s.calls[id].pc.Done? ==>
                               TookEffect(s.origin, s.history, s.calls[id], s.calls[id].pc.answer))
            && DistinctSteps(s.calls)
            && AllAccountedFor(s)
  {
    ExecutionKeepsInv(states, actions, n);
    ExecutionIsLater(states, actions, 0, n);
    if SteadyClock(states, actions, n) {
      SteadyClockKept(states, actions, n);
    }
    hide FileAt, OutcomeAt, Execution, TookEffect, Knows;
    var s := states[n];
    forall id | id in s.calls && s.calls[id].pc.Done?
      ensures TookEffect(s.origin, s.history, s.calls[id], s.calls[id].pc.answer)
    {
      assert EffectOk(s, s.calls[id]);
    }
  }

  lemma EffectIsPast(s: State, id: nat)
    requires id in s.calls && EffectOk(s, s.calls[id]) && EffectOf(s.calls[id].pc).Some?
    ensures s.calls[id].began <= EffectOf(s.calls[id].pc).value.at < |s.history|
  {
    hide OutcomeAt;
  }

  /** Real-time order: a call that ended before another one started stands for an earlier step. */
  lemma RealTimeOrder(states: seq<State>, actions: seq<Action>, m: nat, n: nat, i: nat, j: nat)
    requires Execution(states, actions) && m <= n <= |actions|
    requires i in states[m].calls && states[m].calls[i].pc.Done? && j !in states[m].calls
    requires j in states[n].calls && EffectOf(states[n].calls[j].pc).Some?
    ensures i in states[n].calls && EffectOf(states[n].calls[i].pc) == Some(states[m].calls[i].pc.answer)
    ensures states[m].calls[i].pc.answer.at < EffectOf(states[n].calls[j].pc).value.at
  {
    ExecutionKeepsInv(states, actions, m);
    ExecutionKeepsInv(states, actions, n);
    ExecutionIsLater(states, actions, m, n);
    InvParts(states[m]);
    InvParts(states[n]);
    EffectIsPast(states[m], i);
    EffectIsPast(states[n], j);
    hide Execution, Inv, HistoryInv, LeaseInv, LockInv, EffectOk;
  }

  /** A call's step falls between its start and its end. */
  lemma StepWithinCall(states: seq<State>, actions: seq<Action>, m: nat, n: nat, id: nat)
    requires Execution(states, actions) && m < n <= |actions|
    requires actions[m].Start? && actions[m].id == id
    requires id in states[n].calls && EffectOf(states[n].calls[id].pc).Some?
    ensures |states[m].history| <= EffectOf(states[n].calls[id].pc).value.at < |states[n].history|
  {
    ExecutionKeepsInv(states, actions, n);
    assert Follows(states[m], actions[m], states[m + 1]);
    ExecutionIsLater(states, actions, m, n);
    hide FileAt, OutcomeAt, Execution, Knows, HistoryInv, LeaseInv, LockInv, DistinctSteps, AllAccountedFor, Next;
    assert EffectOk(states[n], states[n].calls[id]);
  }

  // ------------------------------------- run properties at lock granularity

  /**
    The token equivalence: a renewal, guarded write or release took effect iff its
    token was earned by then, or was on the lease at the start and never lost.
   */
  lemma CallAcceptedIffEarned(states: seq<State>, actions: seq<Action>, n: nat, id: nat)
    requires Execution(states, actions) && n <= |actions|
    requires id in states[n].calls && EffectOf(states[n].calls[id].pc).Some?
    requires !states[n].calls[id].op.ClaimOp?
    ensures var s, c := states[n], states[n].calls[id];
            var answer := EffectOf(c.pc).value;
            && answer.at < |s.history|
            && (answer.result in {Renewed, Permitted, Removed} <==>
                Entitled(states[0].lease, s.history, answer.at, c.p.instance, c.op.token))
            && (states[0].lease == Absent ==>
                  (Entitled(Absent, s.history, answer.at, c.p.instance, c.op.token) <==>
                   Earned(Absent, s.history, answer.at, c.p.instance, c.op.token)))
  {
    ExecutionKeepsInv(states, actions, n);
    ExecutionRefinesAtomicRun(states, actions, n);
    hide FileAt, Entitled, Earned, Execution, Knows, LeaseInv, LockInv, ShowsRun, EffectOf;
    hide DistinctSteps, AllAccountedFor;
    var s, c := states[n], states[n].calls[id];
    assert EffectOk(s, c);
    OperationsAcceptedIffEarned(s.origin, s.history, EffectOf(c.pc).value.at);
    OutcomeOfStep(s.origin, s.history, EffectOf(c.pc).value.at);
  }

  lemma OutcomeOfStep(start: LeaseFile, steps: seq<Step>, k: nat)
    requires k < |steps|
    ensures OutcomeAt(start, steps, k) == Renewed ==> steps[k].Renew?
    ensures OutcomeAt(start, steps, k) == Permitted ==> steps[k].GuardedWrite?
    ensures OutcomeAt(start, steps, k) == Removed ==> steps[k].Release?
  {
    hide FileAt;
  }

  lemma {:induction false} SuffixFile(start: LeaseFile, steps: seq<Step>, k: nat, n: nat)
    requires k + n <= |steps|
    ensures FileAt(FileAt(start, steps, k), steps[k..], n) == FileAt(start, steps, k + n)
  {
    hide Apply;
    if n == 0 {
    } else {
      SuffixFile(start, steps, k, n - 1);
      assert steps[k..][n - 1] == steps[k + n - 1];
    }
  }

  /** From step k of the atomic run on, the clock is monotone and the holder prompt, alive and alone. */
  ghost predicate PromptFrom(s: State, h: Process, token: int, k: nat) {
    && k < |s.history|
    && s.history[k].Claim? && s.history[k].p == h
    && OutcomeAt(s.origin, s.history, k).Claimed? && OutcomeAt(s.origin, s.history, k).generation == token
    && MonotoneClock(s.history[k..])
    && RefreshesInTime(h, token, s.history[k..])
    && HolderKeepsGoing(h, token, s.history[k..])
  }

  /** What the holder's promptness from step k on means for a later step of the run. */
  lemma PromptRunOutcome(s: State, h: Process, token: int, k: nat, at: nat)
    requires HistoryInv(s) && PromptFrom(s, h, token, k) && k < at < |s.history|
    ensures var step, result := s.history[at], OutcomeAt(s.origin, s.history, at);
            && (step.Claim? && step.p.instance != h.instance ==> result.Held? && result.owner == h.instance)
            && (step.Claim? && step.p == h ==> result == Claimed(token, false))
            && (step.Renew? && step.p == h && step.token == token ==> result == Renewed)
            && (step.GuardedWrite? && step.p == h && step.token == token ==> result == Permitted)
  {
    hide FileAt, RefreshesInTime, HolderKeepsGoing, MonotoneClock, Apply;
    var run := s.history[k..];
    assert LegalRun(run);
    SuffixFile(s.origin, s.history, k, 0);
    SuffixFile(s.origin, s.history, k, at - k);
    assert run[0] == s.history[k] && run[at - k] == s.history[at];
    PromptHolderRetainsOwnership(FileAt(s.origin, s.history, k), h, token, run, at - k);
  }

  /**
    Retention: once a prompt, live holder's claim has taken its step, every call
    of another instance that claims is refused in the holder's name, and every
    claim, renewal and guarded write of the holder's own succeeds, with the token
    it was given.
   */
  lemma PromptHolderRetainsLease(
    states: seq<State>, actions: seq<Action>, n: nat, h: Process, token: int, k: nat, id: nat)
    requires Execution(states, actions) && n <= |actions| && PromptFrom(states[n], h, token, k)
    requires id in states[n].calls && EffectOf(states[n].calls[id].pc).Some?
    requires k < EffectOf(states[n].calls[id].pc).value.at
    ensures var c := states[n].calls[id];
            var result := EffectOf(c.pc).value.result;
            && (c.op.ClaimOp? && c.p.instance != h.instance ==> result.Held? && result.owner == h.instance)
            && (c.op.ClaimOp? && c.p == h ==> result == Claimed(token, false))
            && (c.op == RenewOp(token) && c.p == h ==> result == Renewed)
            && (c.op == GuardOp(token) && c.p == h ==> result == Permitted)
  {
    ExecutionKeepsInv(states, actions, n);
    InvParts(states[n]);
    hide OutcomeAt, Execution, Inv, LeaseInv, LockInv, HistoryInv, EffectOf, PromptFrom;
    assert EffectOk(states[n], states[n].calls[id]);
    PromptRunOutcome(states[n], h, token, k, EffectOf(states[n].calls[id].pc).value.at);
  }

  // ---------------------------------------------------------- guarded writes

  /** While a call is in its body, no action but its own takes effect or touches the file, bar outside garbling. */
  lemma BodyExcludesOthers(s: State, a: Action, id: nat)
    requires Inv(s) && Enabled(s, a)
    requires id in s.calls && s.calls[id].pc.InBody?
    requires a != Advance(id) && a != Kill(id)
    ensures var s' := Next(s, a);
            && id in s'.calls && s'.calls[id] == s.calls[id]
            && s'.lease == (if a.Disturb? then a.garbage else s.lease)
            && s.history <= s'.history
            && forall k :: |s.history| <= k < |s'.history| ==> !IsOperation(s'.history[k])
  {
    hide Act, HistoryInv, Knows, EffectOk, View, DistinctSteps, AllAccountedFor;
    assert Critical(s.calls[id].pc);
  }

  /** The body is entered only through the ownership check. */
  lemma ActEnters(s: State, c: Call)
    requires Act(s, c).pc.InBody?
    ensures c.op.GuardOp? && Accepts(s.lease, c.p.instance, c.op.token) && Act(s, c).lease == s.lease
  {
    hide ReadPayload, Accepts, ClaimRefused, ClaimGeneration, NewDocument;
  }

  lemma EnteredBody(s: State, id: nat)
    requires Enabled(s, Advance(id)) && Next(s, Advance(id)).calls[id].pc.InBody?
    ensures var s', c := Next(s, Advance(id)), s.calls[id];
            c.op.GuardOp? && Accepts(s'.lease, c.p.instance, c.op.token) && s'.calls[id] == c.(pc := s'.calls[id].pc)
  {
    AdvanceState(s, id);
    hide View, Events, Next, Accepts, Apply, Act;
    ActEnters(s, s.calls[id]);
  }

  ghost predicate NoDisturbance(actions: seq<Action>, a: nat, b: nat)
    requires b <= |actions|
  {
    forall k :: a <= k < b ==> !actions[k].Disturb?
  }

  /**
    Mutual exclusion of guarded writes: from the moment a call enters the body
    of guarded_write until it leaves or dies, no claim, renewal or release of
    anyone takes effect, and the lease file keeps naming that instance and
    generation exactly as long as nothing from outside garbles it.
   */
  lemma {:induction false} GuardedBodyOwnsTheLease(states: seq<State>, actions: seq<Action>, a: nat, b: nat, id: nat)
    requires Execution(states, actions) && 0 < a <= b <= |actions|
    requires actions[a - 1] == Advance(id) && id in states[a].calls && states[a].calls[id].pc.InBody?
    requires forall k :: a <= k < b ==> actions[k] != Advance(id) && actions[k] != Kill(id)
    ensures id in states[b].calls && states[b].calls[id] == states[a].calls[id]
    ensures states[a].calls[id].op.GuardOp?
    ensures Accepts(states[b].lease, states[a].calls[id].p.instance, states[a].calls[id].op.token) <==>
            NoDisturbance(actions, a, b)
    ensures NoDisturbance(actions, a, b) ==> states[b].lease == states[a].lease
    ensures states[a].history <= states[b].history
    ensures forall k :: |states[a].history| <= k < |states[b].history| ==> !IsOperation(states[b].history[k])
  {
    hide Inv, Next, ReadPayload, Accepts, Initial;
    if a == b {
      ExecutionKeepsInv(states, actions, a - 1);
      assert Follows(states[a - 1], actions[a - 1], states[a]);
      EnteredBody(states[a - 1], id);
    } else {
      GuardedBodyOwnsTheLease(states, actions, a, b - 1, id);
      ExecutionKeepsInv(states, actions, b - 1);
      assert Follows(states[b - 1], actions[b - 1], states[b]);
      BodyExcludesOthers(states[b - 1], actions[b - 1], id);
      assert NoDisturbance(actions, a, b) <==> NoDisturbance(actions, a, b - 1) && !actions[b - 1].Disturb?;
      if actions[b - 1].Disturb? {
        GarbledNamesNobody(states[b - 1], actions[b - 1]);
      }
    }
  }

  lemma GarbledNamesNobody(s: State, a: Action)
    requires Enabled(s, a) && a.Disturb?
    ensures forall instance, token :: !Accepts(a.garbage, instance, token)
  {
  }

  // ----------------------------------------------------------------- crashes

  /** Garbage on the lease path while a write is pending was put there from outside, during this very call. */
  lemma {:induction false} PendingGarbageIsForeign(states: seq<State>, actions: seq<Action>, n: nat)
    requires Execution(states, actions) && n <= |actions|
    requires states[n].lease != states[n].view
    ensures exists k :: 0 <= k < n && actions[k] == Disturb(states[n].lease) && states[k].lock == states[n].lock
  {
    hide Inv, Next, ReadPayload, Initial;
    assert n > 0 by { InitialLease(states[0]); }
    ExecutionKeepsInv(states, actions, n - 1);
    ExecutionKeepsInv(states, actions, n);
    assert Follows(states[n - 1], actions[n - 1], states[n]);
    GarbageAction(states[n - 1], actions[n - 1]);
    if actions[n - 1].Disturb? {
    } else {
      PendingGarbageIsForeign(states, actions, n - 1);
    }
  }

  lemma InitialLease(s: State)
    requires Initial(s)
    ensures s.lease == s.view
  {
  }

  /** An action after which the lease path is garbled under a pending write is the garbling, or found it so. */
  lemma GarbageAction(s: State, a: Action)
    requires Inv(s) && Enabled(s, a)
    requires Next(s, a).lease != Next(s, a).view
    ensures Next(s, a).lock == s.lock
    ensures if a.Disturb? then Next(s, a).lease == a.garbage
            else Next(s, a).lease == s.lease && s.lease != s.view
  {
    hide Act, Apply, ReadPayload, HistoryInv, Knows, EffectOk, DistinctSteps, AllAccountedFor;
    if a.Advance? {
      AdvanceState(s, a.id);
      HolderFacts(s, a.id);
      ActIsAtomic(s, s.calls[a.id]);
    } else {
      NoiseKeepsLease(s, a);
      if a.Kill? {
        ViewOne(s.view, Crash(s.calls[a.id].p));
      }
    }
  }

  /**
    Crash atomicity: killing a claim or renewal inside its critical section
    leaves the lease file untouched and the lock free. Before the temporary file
    is moved that file is the one the call found, unless something from outside
    garbled it meanwhile; afterwards the whole operation is in the run the file
    shows. A half-written temporary file never gets there.
   */
  lemma CrashIsAllOrNothing(states: seq<State>, actions: seq<Action>, n: nat, id: nat)
    requires Execution(states, actions) && n <= |actions|
    requires Enabled(states[n], Kill(id)) && states[n].lock == Some(id)
    requires states[n].calls[id].op.ClaimOp? || states[n].calls[id].op.RenewOp?
    ensures var s, c := states[n], states[n].calls[id];
            var s' := Next(s, Kill(id));
            && s'.lease == s.lease && s'.lock == None
            && s'.lease == FileAt(s'.origin, s'.history, |s'.history|)
            && (c.pc.Ready? || c.pc.Writing? || c.pc.Written? ==>
                  || s'.lease == c.pc.plan.found
                  || exists k :: 0 <= k < n && actions[k] == Disturb(s.lease) && states[k].lock == Some(id))
            && (c.pc.Leaving? ==> TookEffect(s'.origin, s'.history, c, c.pc.answer))
  {
    ExecutionKeepsInv(states, actions, n);
    var s, c := states[n], states[n].calls[id];
    HolderFacts(s, id);
    CrashState(s, id);
    if s.lease != s.view {
      PendingGarbageIsForeign(states, actions, n);
    }
  }

  lemma CrashState(s: State, id: nat)
    requires Inv(s) && Enabled(s, Kill(id)) && s.lock == Some(id)
    ensures var s', c := Next(s, Kill(id)), s.calls[id];
            && s'.lease == s.lease && s'.lock == None
            && s'.lease == FileAt(s'.origin, s'.history, |s'.history|)
            && (c.pc.Leaving? ==> TookEffect(s'.origin, s'.history, c, c.pc.answer))
  {
    ActionKeepsInv(s, Kill(id));
    NoiseCalls(s, Kill(id), id);
    hide Events, View, Knows, OutcomeAt, FileAt, DistinctSteps, AllAccountedFor, Apply;
    var s', c := Next(s, Kill(id)), s.calls[id];
    assert EffectOk(s', s'.calls[id]);
  }

  /**
    Atomic replacement: in every execution an action leaves the lease file
    alone, unless it comes from outside, unlinks it for a release, or is the lock
    holder replacing it by the whole document of its claim or renewal.
   */
  lemma LeaseIsOnlyReplacedWhole(states: seq<State>, actions: seq<Action>, n: nat)
    requires Execution(states, actions) && n < |actions|
    ensures var s, a, s' := states[n], actions[n], states[n + 1];
            || s'.lease == s.lease
            || (a.Disturb? && s'.lease == a.garbage)
            || (a.Advance? && s.lock == Some(a.id) && a.id in s.calls
                && s.calls[a.id].pc.Unlinking? && s'.lease == Absent)
            || (a.Advance? && s.lock == Some(a.id) && a.id in s.calls
                && s.calls[a.id].pc.Written? && s'.lease == Complete(s.calls[a.id], s.calls[a.id].pc.plan))
  {
    ExecutionKeepsInv(states, actions, n);
    var s, a := states[n], actions[n];
    assert Follows(s, a, states[n + 1]);
    if a.Advance? {
      HolderFacts(s, a.id);
      AdvanceState(s, a.id);
    }
    hide Inv, ReadPayload, Accepts, ClaimRefused, ClaimGeneration, NewDocument, Events, View, Apply;
  }
}
