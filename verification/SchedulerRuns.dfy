/** Whole runs of the scheduler: safety under every interleaving, context hand-off, and exact wake-up. */
module SchedulerRuns {
  import opened Memory
  import opened Scheduler

  /** s' is reached from s by the steps, each enabled when it is taken. */
  ghost predicate Reaches(s: State, steps: seq<Step>, s': State)
    decreases |steps|
  {
    if steps == [] then s' == s
    else Enabled(s, steps[0]) && AssertsHold(s, steps[0]) && Reaches(Next(s, steps[0]), steps[1..], s')
  }

  /** Every state a run reaches satisfies the invariant. */
  lemma {:induction false} RunKeepsInv(s: State, steps: seq<Step>, s': State)
    requires Inv(s) && Reaches(s, steps, s')
    ensures Inv(s')
    decreases |steps|
  {
    if steps != [] {
      StepKeepsInv(s, steps[0]);
      RunKeepsInv(Next(s, steps[0]), steps[1..], s');
    }
  }

  /** A run never gets stuck on an assertion: any step enabled in a reached state can be taken. */
  lemma RunNeverPanics(s: State, steps: seq<Step>, s': State, step: Step)
    requires Init(s) && Reaches(s, steps, s') && Enabled(s', step)
    ensures AssertsHold(s', step)
  {
    InitInv(s);
    RunKeepsInv(s, steps, s');
    AssertsNeverFail(s', step);
  }

  // ----- Safety -----

  /** In every reachable state: a running thread is current on exactly one core, a core is online exactly
      when it has a current thread, at most one core is inside the scheduler, no two cores have picked the
      same thread, and what is picked is neither idle nor current anywhere. */
  lemma RunIsSafe(s: State, steps: seq<Step>, s': State)
    requires Init(s) && Reaches(s, steps, s')
    ensures forall t :: t in s'.threads && s'.threads[t].state == Running ==>
              exists c :: IsCore(s', c) && s'.cores[c].current == Some(t) && forall e ::
                IsCore(s', e) && s'.cores[e].current == Some(t) ==> e == c
    ensures forall c :: IsCore(s', c) ==> (s'.cores[c].state == Online <==> s'.cores[c].current.Some?)
    ensures forall c, e :: IsCore(s', c) && IsCore(s', e) && s'.cores[c].pc != Out && s'.cores[e].pc != Out ==> c == e
    ensures forall c, t ::
            IsCore(s', c) && s'.cores[c].pc == Picked(Some(t)) ==>
              t in s'.threads && !s'.threads[t].idle && NotCurrent(s', t)
  {
    InitInv(s);
    RunKeepsInv(s, steps, s');
    forall t | t in s'.threads && s'.threads[t].state == Running
      ensures exists c :: IsCore(s', c) && s'.cores[c].current == Some(t) && forall e ::
              IsCore(s', e) && s'.cores[e].current == Some(t) ==> e == c
    {
      assert ThreadOk(s', t);
      var c :| IsCore(s', c) && s'.cores[c].current == Some(t);
      forall e | IsCore(s', e) && s'.cores[e].current == Some(t) ensures e == c { assert Distinct(s', e, c); }
    }
    forall c | IsCore(s', c) ensures s'.cores[c].state == Online <==> s'.cores[c].current.Some? {
      assert CoreOk(s', c);
    }
    forall c, e | IsCore(s', c) && IsCore(s', e) && s'.cores[c].pc != Out && s'.cores[e].pc != Out ensures c == e {
      assert CoreOk(s', c) && CoreOk(s', e);
    }
    forall c, t | IsCore(s', c) && s'.cores[c].pc == Picked(Some(t))
      ensures t in s'.threads && !s'.threads[t].idle && NotCurrent(s', t)
    {
      assert PickOk(s', c) && Waiting(s', t) && ThreadOk(s', t);
    }
  }

  /** Once terminated, a thread stays as it is for the rest of the run. */
  lemma {:induction false} TerminatedForever(s: State, steps: seq<Step>, s': State, t: Tid)
    requires Inv(s) && Reaches(s, steps, s') && t in s.threads && s.threads[t].state == Terminated
    ensures t in s'.threads && s'.threads[t] == s.threads[t]
    decreases |steps|
  {
    if steps != [] {
      StepKeepsInv(s, steps[0]);
      ThreadEffect(s, steps[0], t);
      TerminatedForever(Next(s, steps[0]), steps[1..], s', t);
    }
  }

  /** Exit is final: in every later state the thread that called it is terminated, current nowhere, and no core would
      pick it. */
  lemma ExitIsFinal(s: State, c: int, steps: seq<Step>, s': State)
    requires Inv(s) && Enabled(s, Exit(c)) && AssertsHold(s, Exit(c)) && Reaches(Next(s, Exit(c)), steps, s')
    ensures var t := s.cores[c].current.value;
            && t in s'.threads && s'.threads[t].state == Terminated && s'.threads[t].regs == s.cores[c].regs
            && NotCurrent(s', t) && forall e :: PickThread(s', e) != Some(t)
  {
    var t, s1 := s.cores[c].current.value, Next(s, Exit(c));
    StepKeepsInv(s, Exit(c));
    Leaves(s, c, 0);
    TerminatedForever(s1, steps, s', t);
    RunKeepsInv(s1, steps, s');
    forall e | 0 <= e < |s'.cores| ensures s'.cores[e].current != Some(t) { assert CoreOk(s', e); }
    forall e ensures PickThread(s', e) != Some(t) { PickFromList(s'.threads, s'.list, e, None, 0xFFFF_FFFF); }
  }

  /** A core that has gone idle stays so, with its idle thread's frame to resume, until it is interrupted again or loads
      a thread. */
  lemma {:induction false} IdleResumes(s: State, steps: seq<Step>, s': State, c: int, f: int)
    requires Inv(s) && Reaches(s, steps, s') && IsCore(s, c) && s.cores[c].state == Idle && s.cores[c].regs == f
    requires forall x :: x in steps ==> x.c == c ==> !x.Interrupt? && !x.Load?
    ensures IsCore(s', c) && s'.cores[c].state == Idle && s'.cores[c].current == None && s'.cores[c].regs == f
    decreases |steps|
  {
    assert CoreOk(s, c);
    if steps != [] {
      var step := steps[0];
      assert step in steps && CoreOk(s, step.c);
      StepKeepsInv(s, step);
      OtherCores(s, step);
      IdleResumes(Next(s, step), steps[1..], s', c, f);
    }
  }

  /** Once created, the idle thread's frame never changes: it is never current, so never saved. */
  lemma {:induction false} IdleFrameKept(s: State, steps: seq<Step>, s': State, t: Tid)
    requires Inv(s) && Reaches(s, steps, s') && t in s.threads && s.threads[t].idle
    ensures t in s'.threads && s'.threads[t].idle && s'.threads[t].regs == s.threads[t].regs
    decreases |steps|
  {
    if steps != [] {
      var step := steps[0];
      assert CoreOk(s, step.c) && ThreadOk(s, t);
      StepKeepsInv(s, step);
      ThreadEffect(s, step, t);
      RegsEffect(s, step, t);
      IdleFrameKept(Next(s, step), steps[1..], s', t);
    }
  }

  /** No step of the run releases the lock from core c's thread context. */
  predicate NoThreadUnlock(steps: seq<Step>, c: int) { ThreadUnlock(c) !in steps }

  /** A core that holds the lock in thread context is not rescheduled, interrupted or not, until it unlocks, whatever
      its state: it keeps its current thread, and its state changes only if it was offline and starts booting. */
  lemma {:induction false} LockHolderNotRescheduled(s: State, steps: seq<Step>, s': State, c: int)
    requires Inv(s) && Reaches(s, steps, s') && IsCore(s, c) && s.lock == ByThread(c) && NoThreadUnlock(steps, c)
    ensures s'.lock == ByThread(c) && IsCore(s', c) && s'.cores[c].current == s.cores[c].current
    ensures s'.cores[c].state == s.cores[c].state || (s.cores[c].state == Offline && s'.cores[c].state == Booting)
    decreases |steps|
  {
    if steps != [] {
      var step := steps[0];
      assert CoreOk(s, c) && CoreOk(s, step.c);
      StepKeepsInv(s, step);
      OtherCores(s, step);
      assert step in steps;
      assert forall x :: x in steps[1..] ==> x in steps;
      LockHolderNotRescheduled(Next(s, step), steps[1..], s', c);
    }
  }

  // ----- Context hand-off -----

  /** The step stores core c's interrupt frame in thread t. */
  predicate Stores(s: State, step: Step, t: Tid) {
    IsCore(s, step.c) && (step.Save? || step.Exit? || step.Sleep?) && s.cores[step.c].current == Some(t)
  }

  /** The frame stored at t's last save in the run, or the one it was created with, or f before that. */
  ghost function LastSaved(s: State, steps: seq<Step>, t: Tid, f: int): int
    decreases |steps|
  {
    if steps == [] || !Enabled(s, steps[0]) || !AssertsHold(s, steps[0]) then f
    else
      var f' := if Stores(s, steps[0], t) then s.cores[steps[0].c].regs
                else if steps[0].Create? && steps[0].t == t then steps[0].frame else f;
      LastSaved(Next(s, steps[0]), steps[1..], t, f')
  }

  lemma {:induction false} RegsAreLastSaved(s: State, steps: seq<Step>, s': State, t: Tid, f: int)
    requires Inv(s) && Reaches(s, steps, s') && (t in s.threads ==> s.threads[t].regs == f) && t in s'.threads
    ensures s'.threads[t].regs == LastSaved(s, steps, t, f)
    decreases |steps|
  {
    if steps != [] {
      var step := steps[0];
      StepKeepsInv(s, step);
      if t in Next(s, step).threads { RegsEffect(s, step, t); }
      var f' := if Stores(s, step, t) then s.cores[step.c].regs else if step.Create? && step.t == t then step.frame
        else f;
      RegsAreLastSaved(Next(s, step), steps[1..], s', t, f');
    }
  }

  /** A thread's frame changes only when it is saved. */
  lemma RegsEffect(s: State, step: Step, t: Tid)
    requires Inv(s) && Enabled(s, step) && AssertsHold(s, step) && t in Next(s, step).threads
    ensures var r := Next(s, step).threads[t].regs;
            if Stores(s, step, t) then r == s.cores[step.c].regs
            else if step.Create? && step.t == t then r == step.frame
            else t in s.threads && r == s.threads[t].regs
  {
    if t in s.threads { TickAllReads(s.threads, s.list, t); }
  }

  /** Whenever a thread is loaded, the frame the core resumes is the one stored at its last save, or its
      creation frame, whichever cores it ran on. */
  lemma LoadHandsOver(s: State, steps: seq<Step>, s': State, c: int)
    requires Init(s) && Reaches(s, steps, s') && Enabled(s', Load(c))
    ensures AssertsHold(s', Load(c))
    ensures var core := Next(s', Load(c)).cores[c];
            core.current.Some? && core.regs == LastSaved(s, steps, core.current.value, 0)
  {
    InitInv(s);
    RunKeepsInv(s, steps, s');
    StepKeepsInv(s', Load(c));
    var t := Next(s', Load(c)).cores[c].current.value;
    RegsAreLastSaved(s, steps, s', t, 0);
  }

  /** The frame at which thread t was last interrupted in the run, or created with, or f before that. */
  ghost function LastInterrupted(s: State, steps: seq<Step>, t: Tid, f: int): int
    decreases |steps|
  {
    if steps == [] || !Enabled(s, steps[0]) || !AssertsHold(s, steps[0]) then f
    else LastInterrupted(Next(s, steps[0]), steps[1..], t, Interrupted(s, steps[0], t, f))
  }

  function Interrupted(s: State, step: Step, t: Tid, f: int): int
    requires IsCore(s, step.c)
  {
    if step.Interrupt? && s.cores[step.c].current == Some(t) then step.frame
    else if step.Create? && step.t == t then step.frame else f
  }

  /** f is thread t's context: in its core's interrupt frame while it is current there, in t otherwise. */
  ghost predicate ContextIs(s: State, t: Tid, f: int) {
    && (t in s.threads && (NotCurrent(s, t) || AtSaved(s, t)) ==> s.threads[t].regs == f)
    && (forall c :: IsCore(s, c) && s.cores[c].current == Some(t) && s.cores[c].inIrq ==> s.cores[c].regs == f)
  }

  predicate AtSaved(s: State, t: Tid) {
    exists c :: 0 <= c < |s.cores| && s.cores[c].current == Some(t) && s.cores[c].pc.Saved?
  }

  lemma ContextStep(s: State, step: Step, t: Tid, f: int)
    requires Inv(s) && Enabled(s, step) && AssertsHold(s, step) && ContextIs(s, t, f)
    ensures ContextIs(Next(s, step), t, Interrupted(s, step, t, f))
  {
    var c, s' := step.c, Next(s, step);
    var f' := Interrupted(s, step, t, f);
    OtherCores(s, step);
    assert CoreOk(s, c) && PickOk(s, c);
    forall e | IsCore(s', e) && s'.cores[e].current == Some(t) && s'.cores[e].inIrq
      ensures s'.cores[e].regs == f'
    {
      assert CoreOk(s, e) && Distinct(s, e, c);
      if step.Load? && e == c { assert Waiting(s, t) && NotCurrent(s, t); }
    }
    if t in s'.threads {
      RegsEffect(s, step, t);
      if NotCurrent(s', t) || AtSaved(s', t) {
        ContextStored(s, step, t, f);
      }
    }
  }

  lemma ContextStored(s: State, step: Step, t: Tid, f: int)
    requires Inv(s) && Enabled(s, step) && AssertsHold(s, step) && ContextIs(s, t, f)
    requires t in Next(s, step).threads && (NotCurrent(Next(s, step), t) || AtSaved(Next(s, step), t))
    ensures Next(s, step).threads[t].regs == Interrupted(s, step, t, f)
  {
    var c, s' := step.c, Next(s, step);
    OtherCores(s, step);
    RegsEffect(s, step, t);
    assert CoreOk(s, c);
    if !Stores(s, step, t) && !(step.Create? && step.t == t) {
      WasStored(s, step, t);
      if step.Interrupt? && s.cores[c].current == Some(t) { NotAtSaved(s, c, t); }
    }
  }

  lemma NotAtSaved(s: State, c: int, t: Tid)
    requires Inv(s) && IsCore(s, c) && s.cores[c].current == Some(t) && !s.cores[c].pc.Saved?
    ensures !AtSaved(s, t)
  {
    forall e | 0 <= e < |s.cores| && s.cores[e].current == Some(t)
      ensures !s.cores[e].pc.Saved?
    {
      assert Distinct(s, e, c);
    }
  }

  /** A thread whose frame a step leaves alone, and that is not running after it, had its context stored before. */
  lemma WasStored(s: State, step: Step, t: Tid)
    requires Inv(s) && Enabled(s, step) && AssertsHold(s, step) && !Stores(s, step, t)
    requires NotCurrent(Next(s, step), t) || AtSaved(Next(s, step), t)
    ensures NotCurrent(s, t) || AtSaved(s, t)
  {
    var c, s' := step.c, Next(s, step);
    OtherCores(s, step);
    assert CoreOk(s, c);
    if !NotCurrent(s, t) {
      var w :| IsCore(s, w) && s.cores[w].current == Some(t);
      assert CoreOk(s, w);
      if NotCurrent(s', t) {
        assert s'.cores[w].current != Some(t);
        assert w == c && s.cores[w].pc.Saved?;
      } else {
        var e :| 0 <= e < |s'.cores| && s'.cores[e].current == Some(t) && s'.cores[e].pc.Saved?;
        assert CoreOk(s, e) && PickOk(s, e) && Distinct(s, e, w);
        assert s.cores[e].current == Some(t) && s.cores[e].pc.Saved?;
      }
    }
  }

  lemma {:induction false} ContextKept(s: State, steps: seq<Step>, s': State, t: Tid, f: int)
    requires Inv(s) && Reaches(s, steps, s') && ContextIs(s, t, f)
    ensures ContextIs(s', t, LastInterrupted(s, steps, t, f))
    decreases |steps|
  {
    if steps != [] {
      StepKeepsInv(s, steps[0]);
      ContextStep(s, steps[0], t, f);
      ContextKept(Next(s, steps[0]), steps[1..], s', t, Interrupted(s, steps[0], t, f));
    }
  }

  /** End to end: whenever a core returns from an interrupt into a thread, it resumes the frame at which that
      thread was last interrupted, on whatever core that was, or the one it was created with. */
  lemma ReturnResumes(s: State, steps: seq<Step>, s': State, c: int, t: Tid)
    requires Init(s) && Reaches(s, steps, s') && Enabled(s', Return(c)) && s'.cores[c].current == Some(t)
    ensures s'.cores[c].regs == LastInterrupted(s, steps, t, 0)
  {
    InitInv(s);
    ContextKept(s, steps, s', t, 0);
  }

  // ----- Exact wake-up -----

  /** Completed core-0 updates in a run. */
  function Passes(steps: seq<Step>): nat {
    if steps == [] then 0 else Passes(steps[1..]) + if steps[0] == Update(0) then 1 else 0
  }

  function CeilDiv(a: nat, b: nat): nat
    requires b > 0
  {
    (a + b - 1) / b
  }

  /** How many passes a thread sleeps that went to sleep with w microseconds on its clock. */
  function PassesToWake(w: nat): nat { if w == 0 then 1 else CeilDiv(w, TICK) }

  lemma PassesReads(w: nat, k: nat)
    ensures k < PassesToWake(w) <==> k == 0 || k * TICK < w
  {
  }

  /** After k passes, fewer than it takes, the thread still sleeps and exactly k ticks are off its clock. */
  lemma {:induction false} SleepsUntil(s: State, steps: seq<Step>, s': State, t: Tid, w: nat, done: nat)
    requires Inv(s) && Reaches(s, steps, s') && t in s.threads && s.threads[t].state == Sleeping
    requires done * TICK <= w && s.threads[t].sleep == w - done * TICK && done + Passes(steps) < PassesToWake(w)
    ensures t in s'.threads && s'.threads[t].state == Sleeping && (done + Passes(steps)) * TICK <= w
    ensures s'.threads[t].sleep == w - (done + Passes(steps)) * TICK
    decreases |steps|
  {
    PassesReads(w, done + Passes(steps));
    if steps != [] {
      StepKeepsInv(s, steps[0]);
      ThreadEffect(s, steps[0], t);
      var done' := if steps[0] == Update(0) then done + 1 else done;
      PassesReads(w, done');
      SleepsUntil(Next(s, steps[0]), steps[1..], s', t, w, done');
    }
  }

  /** A thread that sleeps ms milliseconds cannot be picked before, and becomes stopped on exactly, the
      PassesToWake-th completed pass of core 0, whatever the other cores do in between. */
  lemma WakesExactly(s: State, c: int, ms: Word, steps: seq<Step>, s': State)
    requires Inv(s) && Enabled(s, Sleep(c, ms)) && AssertsHold(s, Sleep(c, ms))
    requires Reaches(Next(s, Sleep(c, ms)), steps, s') && Passes(steps) < PassesToWake(Wrap(ms * 1000))
    ensures var t := s.cores[c].current.value;
            && t in s'.threads && s'.threads[t].state == Sleeping
            && (forall e :: PickThread(s', e) != Some(t))
            && (Enabled(s', Update(0)) && AssertsHold(s', Update(0)) ==>
                  (Next(s', Update(0)).threads[t].state == Stopped <==>
                    Passes(steps) + 1 == PassesToWake(Wrap(ms * 1000))))
  {
    var t, w := s.cores[c].current.value, Wrap(ms * 1000);
    var s1 := Next(s, Sleep(c, ms));
    StepKeepsInv(s, Sleep(c, ms));
    SleepsUntil(s1, steps, s', t, w, 0);
    RunKeepsInv(s1, steps, s');
    forall e ensures PickThread(s', e) != Some(t) { PickFromList(s'.threads, s'.list, e, None, 0xFFFF_FFFF); }
    if Enabled(s', Update(0)) {
      ThreadEffect(s', Update(0), t);
      PassesReads(w, Passes(steps));
      PassesReads(w, Passes(steps) + 1);
    }
  }

  /** The wake-up is on time exactly when ms * 1000 fits 32 bits; a longer sleep ends early. */
  lemma WakeOnTimeExactly(ms: Word)
    ensures PassesToWake(Wrap(ms * 1000)) == PassesToWake(ms * 1000) <==> ms * 1000 < WORD_LIMIT
    ensures ms * 1000 >= WORD_LIMIT ==> PassesToWake(Wrap(ms * 1000)) < PassesToWake(ms * 1000)
  {
    var w, x := Wrap(ms * 1000), ms * 1000;
    if x >= WORD_LIMIT {
      assert x - w >= WORD_LIMIT;
      PassesReads(x, PassesToWake(w));
      PassesReads(w, PassesToWake(w));
    }
  }

  /** A sleep of 4294968 ms, over seventy minutes, ends on the next pass instead of the 134252nd. */
  lemma LongSleepExample()
    ensures PassesToWake(Wrap(4294968 * 1000)) == 1 && PassesToWake(4294968 * 1000) == 134252
  {
  }
}
