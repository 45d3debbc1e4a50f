/** The multi-core scheduler of src/proc/sched.c as a transition system over any number of cores and threads.
    The section guarded by the try-lock is split into its steps, which interleave freely with the steps of
    every other core.  sched_thread_exit and sched_thread_sleep do not take the lock; each is one atomic step. */
module Scheduler {
  import opened Memory

  type Tid = int

  datatype ThreadState = Stopped | Running | Sleeping | Terminated

  /** `regs` names the register frame the thread resumes from; `idle` marks the per-core idle threads. */
  datatype Thread = Thread(state: ThreadState, regs: int, cpu: int, priority: Word, sleep: Word, idle: bool)

  datatype CoreState = Offline | Booting | Online | Idle

  /** Where a core is inside _sched_runner. */
  datatype Pc = Out | Locked | Updated | Picked(pick: Option<Tid>) | Saved(next: Tid) | Finished

  datatype Core = Core(state: CoreState, current: Option<Tid>, idle: Option<Tid>, regs: int, inIrq: bool, pc: Pc)

  /** Who holds _sched_lock: nobody, a core in thread context, or a core inside _sched_runner. */
  datatype Owner = Nobody | ByThread(core: int) | ByRunner(core: int)

  datatype State = State(threads: map<Tid, Thread>, list: seq<Tid>, cores: seq<Core>, lock: Owner)

  // ----- Sleeping and picking -----

  /** PIT_SPEED_US * 8, from the PIT's base frequency and the configured rate. */
  const PIT_DIVISOR := 1193182 / 250
  const PIT_SPEED_US := (PIT_DIVISOR as real / 1193182.0 * 1000000.0).Floor
  const TICK := 31992

  lemma TickIsEightPeriods()
    ensures PIT_SPEED_US * 8 == TICK
  {
    assert PIT_DIVISOR == 4772;
    assert 3999.0 <= PIT_DIVISOR as real / 1193182.0 * 1000000.0 < 4000.0;
  }

  function Tick(th: Thread): Thread {
    if th.state != Sleeping then th
    else
      var left := if TICK > th.sleep then 0 else th.sleep - TICK;
      if left == 0 then th.(sleep := 0, state := Stopped) else th.(sleep := left)
  }

  /** update_sleeping_threads on core 0. */
  function TickAll(threads: map<Tid, Thread>, list: seq<Tid>): map<Tid, Thread> {
    map t | t in threads :: if t in list then Tick(threads[t]) else threads[t]
  }

  predicate Eligible(th: Thread, core: int) { th.state == Stopped && (th.cpu == -1 || th.cpu == core) }

  /** pick_thread's loop over the list, with the best thread so far and its priority. */
  function PickFrom(threads: map<Tid, Thread>, list: seq<Tid>, core: int, best: Option<Tid>, min: Word): Option<Tid> {
    if list == [] then best
    else if list[0] in threads && Eligible(threads[list[0]], core) && threads[list[0]].priority < min then
      PickFrom(threads, list[1..], core, Some(list[0]), threads[list[0]].priority)
    else PickFrom(threads, list[1..], core, best, min)
  }

  function PickThread(s: State, core: int): Option<Tid> { PickFrom(s.threads, s.list, core, None, 0xFFFF_FFFF) }

  // ----- Steps -----

  datatype Step =
    | Interrupt(c: int, frame: int)
    | Return(c: int)
    | TryLock(c: int)
    | Update(c: int)
    | Pick(c: int)
    | Decide(c: int)
    | Save(c: int)
    | Load(c: int)
    | Unlock(c: int)
    | Exit(c: int)
    | Sleep(c: int, ms: Word)
    | ThreadLock(c: int)
    | Create(c: int, t: Tid, frame: int, cpu: int, priority: Word, idle: bool)
    | Run(c: int, t: Tid)
    | ThreadUnlock(c: int)
    | InitCore(c: int, t: Tid)

  predicate IsCore(s: State, c: int) { 0 <= c < |s.cores| }

  /** The thread Save and Load are about to switch to. */
  predicate Switching(core: Core) { core.pc.Picked? && core.pc.pick.Some? }

  predicate Enabled(s: State, step: Step) {
    IsCore(s, step.c) &&
    var core := s.cores[step.c];
    match step
    case Interrupt(_, _) => !core.inIrq
    case Return(_) => core.inIrq && core.pc == Out
    case TryLock(_) => core.inIrq && core.pc == Out && s.lock == Nobody
    case Update(_) => core.pc == Locked
    case Pick(_) => core.pc == Updated
    case Decide(_) => core.pc.Picked? && (core.pc.pick.None? || core.state == Booting || core.state == Offline)
    case Save(_) => Switching(core) && core.state == Online
    case Load(_) => core.pc.Saved? || (Switching(core) && core.state == Idle)
    case Unlock(_) => core.pc == Finished
    // The running thread asks for these, so it is not inside a section it locked itself.
    case Exit(_) => core.inIrq && core.pc == Out && core.current.Some? && s.lock != ByThread(step.c)
    case Sleep(_, _) => core.inIrq && core.pc == Out && core.current.Some? && s.lock != ByThread(step.c)
    // Kernel code in thread context: boot code, or the thread the core runs.
    case ThreadLock(_) => !core.inIrq && s.lock == Nobody && core.state != Idle
    case Create(_, t, _, _, _, _) => !core.inIrq && s.lock == ByThread(step.c) && t !in s.threads
    // sched_run_thread and the loop of sched_run_proc; idle_proc is never run and no thread is run twice.
    case Run(_, t) => !core.inIrq && s.lock == ByThread(step.c) && t in s.threads && t !in s.list && !s.threads[t].idle
    case ThreadUnlock(_) => !core.inIrq && s.lock == ByThread(step.c)
    case InitCore(_, t) =>
      && !core.inIrq && core.state == Offline && t in s.threads && s.threads[t].idle
      && (forall e :: 0 <= e < |s.cores| ==> s.cores[e].idle != Some(t))
  }

  /** The source's own assertions at the step, and that no unknown core state is met. */
  predicate AssertsHold(s: State, step: Step)
    requires Enabled(s, step)
  {
    var core := s.cores[step.c];
    match step
    case Decide(_) =>
      (core.state == Online ==>
        core.current.Some? && core.current.value in s.threads && s.threads[core.current.value].state == Running)
      && (core.state == Idle || core.state == Booting ==> core.current == None)
      && (core.state == Booting ==> core.idle.Some? && core.idle.value in s.threads)
    case Save(_) => core.current.Some? && core.current.value in s.threads
      && s.threads[core.current.value].state == Running
    case Load(_) => (core.pc.Picked? ==> core.current == None && core.pc.pick.value in s.threads)
      && (core.pc.Saved? ==> core.pc.next in s.threads)
    case Exit(_) => core.current.value in s.threads && core.idle.Some? && core.idle.value in s.threads
    case Sleep(_, _) => core.current.value in s.threads && core.idle.Some? && core.idle.value in s.threads
    case Run(_, t) => s.threads[t].state == Stopped
    case _ => true
  }

  function WithCore(s: State, c: int, core: Core): State
    requires IsCore(s, c)
  {
    s.(cores := s.cores[c := core])
  }

  function WithThread(s: State, t: Tid, th: Thread): State { s.(threads := s.threads[t := th]) }

  /** save_thread then enter_idle, as exit and sleep do. */
  function Leave(s: State, c: int, state: ThreadState, sleep: Word): State
    requires IsCore(s, c) && s.cores[c].current.Some? && s.cores[c].current.value in s.threads
    requires s.cores[c].idle.Some? && s.cores[c].idle.value in s.threads
  {
    var core := s.cores[c];
    var th := s.threads[core.current.value];
    var s1 := WithThread(s, core.current.value, th.(state := state, regs := core.regs, sleep := sleep));
    WithCore(s1, c, core.(current := None, state := Idle, regs := s1.threads[core.idle.value].regs))
  }

  function Next(s: State, step: Step): State
    requires Enabled(s, step) && AssertsHold(s, step)
  {
    var c := step.c;
    var core := s.cores[c];
    match step
    case Interrupt(_, frame) => WithCore(s, c, core.(inIrq := true, regs := frame))
    case Return(_) => WithCore(s, c, core.(inIrq := false))
    case TryLock(_) => WithCore(s, c, core.(pc := Locked)).(lock := ByRunner(c))
    case Update(_) =>
      var s1 := if c == 0 then s.(threads := TickAll(s.threads, s.list)) else s;
      WithCore(s1, c, core.(pc := Updated))
    case Pick(_) => WithCore(s, c, core.(pc := Picked(PickThread(s, c))))
    case Decide(_) =>
      if core.state == Booting
        then WithCore(s, c, core.(pc := Finished, state := Idle, regs := s.threads[core.idle.value].regs))
      else WithCore(s, c, core.(pc := Finished))
    case Save(_) =>
      var t := core.current.value;
      WithCore(WithThread(s, t, s.threads[t].(state := Stopped, regs := core.regs)), c,
               core.(pc := Saved(core.pc.pick.value)))
    case Load(_) =>
      var t := if core.pc.Saved? then core.pc.next else core.pc.pick.value;
      WithCore(WithThread(s, t, s.threads[t].(state := Running)), c,
        core.(pc := Finished, state := if core.state == Idle then Online
          else core.state, current := Some(t), regs := s.threads[t].regs))
    case Unlock(_) => WithCore(s, c, core.(pc := Out)).(lock := Nobody)
    case Exit(_) => Leave(s, c, Terminated, s.threads[core.current.value].sleep)
    case Sleep(_, ms) => Leave(s, c, Sleeping, Wrap(ms * 1000))
    case ThreadLock(_) => s.(lock := ByThread(c))
    case Create(_, t, frame, cpu, priority, idle) => WithThread(s, t, Thread(Stopped, frame, cpu, priority, 0, idle))
    case Run(_, t) => s.(list := s.list + [t])
    case ThreadUnlock(_) => s.(lock := Nobody)
    case InitCore(_, t) => WithCore(s, c, core.(idle := Some(t), current := None, state := Booting))
  }

  // ----- The invariant -----

  /** No threads, every core offline and outside the scheduler. */
  predicate Init(s: State) {
    s.threads == map[] && s.list == [] && s.lock == Nobody
    && forall c :: 0 <= c < |s.cores| ==> s.cores[c] == Core(Offline, None, None, s.cores[c].regs, false, Out)
  }

  /** A core is online exactly when it has a current thread, which is running unless it was just saved. */
  predicate CoreOk(s: State, c: int)
    requires IsCore(s, c)
  {
    var core := s.cores[c];
    && (core.state == Online <==> core.current.Some?)
    && (core.current.Some? ==> CurrentOk(s, core))
    && (core.state != Offline ==> core.idle.Some? && core.idle.value in s.threads && s.threads[core.idle.value].idle)
    && (core.pc != Out <==> s.lock == ByRunner(c))
    && (core.pc != Out ==> core.inIrq)
    && (s.lock == ByThread(c) ==> core.state != Idle)
    && (core.pc.Saved? ==> core.current.Some?)
  }

  predicate CurrentOk(s: State, core: Core) {
    core.current.Some? && core.current.value in s.list && core.current.value in s.threads
    && s.threads[core.current.value].state == if core.pc.Saved? then Stopped else Running
  }

  /** A thread chosen but not yet loaded waits, stopped, and is current nowhere. */
  predicate PickOk(s: State, c: int)
    requires IsCore(s, c)
  {
    var pc := s.cores[c].pc;
    var t := if pc.Saved? then Some(pc.next) else if pc.Picked? then pc.pick else None;
    t.Some? ==> Waiting(s, t.value)
  }

  predicate Waiting(s: State, t: Tid) {
    t in s.list && t in s.threads && s.threads[t].state == Stopped && NotCurrent(s, t)
  }

  predicate NotCurrent(s: State, t: Tid) { forall c :: 0 <= c < |s.cores| ==> s.cores[c].current != Some(t) }

  predicate RunsSomewhere(s: State, t: Tid) { exists c :: 0 <= c < |s.cores| && s.cores[c].current == Some(t) }

  predicate ThreadOk(s: State, t: Tid)
    requires t in s.threads
  {
    && (s.threads[t].state == Running ==> RunsSomewhere(s, t))
    && (t !in s.list ==> s.threads[t].state == Stopped)
    && (t in s.list ==> !s.threads[t].idle)
  }

  predicate Distinct(s: State, c: int, e: int)
    requires IsCore(s, c) && IsCore(s, e)
  {
    c != e ==> s.cores[c].current == None || s.cores[c].current != s.cores[e].current
  }

  ghost predicate Inv(s: State) {
    && (forall c {:trigger CoreOk(s, c)} :: IsCore(s, c) ==> CoreOk(s, c))
    && (forall c {:trigger PickOk(s, c)} :: IsCore(s, c) ==> PickOk(s, c))
    && (forall c, e {:trigger Distinct(s, c, e)} :: IsCore(s, c) && IsCore(s, e) ==> Distinct(s, c, e))
    && (forall t {:trigger ThreadOk(s, t)} :: t in s.threads ==> ThreadOk(s, t))
    && (forall i, j :: 0 <= i < j < |s.list| ==> s.list[i] != s.list[j])
    && (forall i :: 0 <= i < |s.list| ==> s.list[i] in s.threads)
    && (s.lock.ByThread? ==> IsCore(s, s.lock.core))
  }

  lemma InitInv(s: State)
    requires Init(s)
    ensures Inv(s)
  {
  }

  /** In every state of the invariant the scheduler's own assertions hold. */
  lemma AssertsNeverFail(s: State, step: Step)
    requires Inv(s) && Enabled(s, step)
    ensures AssertsHold(s, step)
  {
    assert CoreOk(s, step.c) && PickOk(s, step.c);
    if step.Run? { assert ThreadOk(s, step.t); }
  }

  // ----- Every step keeps the invariant -----

  /** A step of one core leaves the others as they were. */
  lemma OtherCores(s: State, step: Step)
    requires Enabled(s, step) && AssertsHold(s, step)
    ensures |Next(s, step).cores| == |s.cores|
    ensures forall e :: IsCore(s, e) && e != step.c ==> Next(s, step).cores[e] == s.cores[e]
  {
  }

  lemma TickAllReads(threads: map<Tid, Thread>, list: seq<Tid>, t: Tid)
    requires t in threads
    ensures t in TickAll(threads, list) && TickAll(threads, list)[t] ==
            if t in list then Tick(threads[t]) else threads[t]
  {
  }

  /** What a step can do to a thread: a running one is stopped, parked or ended only by its own core, a
      stopped one starts only when loaded, a sleeping one is left to the clock. */
  lemma ThreadEffect(s: State, step: Step, t: Tid)
    requires Inv(s) && Enabled(s, step) && AssertsHold(s, step) && t in s.threads
    ensures var th, s' := s.threads[t], Next(s, step);
            && t in s'.threads && s'.threads[t].idle == th.idle
            && (th.state == Running ==> s'.threads[t] == th || s.cores[step.c].current == Some(t))
            && (th.state == Stopped ==> s'.threads[t] == th || (step.Load? && s'.cores[step.c].current == Some(t)))
            && (th.state == Sleeping ==> s'.threads[t] == if step == Update(0) then Tick(th) else th)
            && (th.state == Terminated ==> s'.threads[t] == th)
  {
    assert CoreOk(s, step.c) && PickOk(s, step.c) && ThreadOk(s, t);
    TickAllReads(s.threads, s.list, t);
  }

  /** A thread enters the table stopped, with the frame, core, priority and kind it is given; afterwards its core,
      priority and kind never change. */
  lemma IdentityKept(s: State, step: Step, t: Tid)
    requires Enabled(s, step) && AssertsHold(s, step) && t in Next(s, step).threads
    ensures var th := Next(s, step).threads[t];
            if t in s.threads
            then th.cpu == s.threads[t].cpu && th.priority == s.threads[t].priority && th.idle == s.threads[t].idle
            else step == Create(step.c, t, th.regs, th.cpu, th.priority, th.idle) && th.state == Stopped
  {
    if t in s.threads { TickAllReads(s.threads, s.list, t); }
  }

  /** How a core comes to idle: its thread exits or sleeps, or a booting core has its first pass.  It then has no thread
      and resumes its idle thread's frame. */
  lemma GoesIdle(s: State, step: Step)
    requires Inv(s) && Enabled(s, step) && s.cores[step.c].state != Idle
    requires AssertsHold(s, step) && Next(s, step).cores[step.c].state == Idle
    ensures var core, core' := s.cores[step.c], Next(s, step).cores[step.c];
            && (step.Exit? || step.Sleep? || (step.Decide? && core.state == Booting))
            && core'.current == None && core'.idle == core.idle && core.idle.Some? && core.idle.value in s.threads
            && core'.regs == s.threads[core.idle.value].regs && core'.inIrq
  {
    assert CoreOk(s, step.c) && PickOk(s, step.c);
    var core := s.cores[step.c];
    if core.current.Some? { assert ThreadOk(s, core.current.value); }
    if core.idle.Some? && core.idle.value in s.threads { assert ThreadOk(s, core.idle.value); }
  }

  /** Exit and sleep always take the core to idle and leave the thread as the call says. */
  lemma Leaves(s: State, c: int, ms: Word)
    requires Inv(s)
    ensures Enabled(s, Exit(c)) ==>
              && AssertsHold(s, Exit(c)) && Next(s, Exit(c)).cores[c].state == Idle
              && Next(s, Exit(c)).threads[s.cores[c].current.value].state == Terminated
              && Next(s, Exit(c)).threads[s.cores[c].current.value].regs == s.cores[c].regs
    ensures Enabled(s, Sleep(c, ms)) ==>
              && AssertsHold(s, Sleep(c, ms)) && Next(s, Sleep(c, ms)).cores[c].state == Idle
              && Next(s, Sleep(c, ms)).threads[s.cores[c].current.value].state == Sleeping
              && Next(s, Sleep(c, ms)).threads[s.cores[c].current.value].regs == s.cores[c].regs
              && Next(s, Sleep(c, ms)).threads[s.cores[c].current.value].sleep == ms * 1000 % 0x1_0000_0000
  {
    if Enabled(s, Exit(c)) { AssertsNeverFail(s, Exit(c)); }
    if Enabled(s, Sleep(c, ms)) { AssertsNeverFail(s, Sleep(c, ms)); }
  }

  /** A core starts booting with its idle thread and no other, and its first pass makes it idle. */
  lemma Boots(s: State, c: int, t: Tid)
    requires Inv(s)
    ensures Enabled(s, InitCore(c, t)) ==>
              var core := Next(s, InitCore(c, t)).cores[c];
              core.state == Booting && core.idle == Some(t) && core.current == None
    ensures Enabled(s, Decide(c)) && s.cores[c].state == Booting ==>
              AssertsHold(s, Decide(c)) && Next(s, Decide(c)).cores[c].state == Idle
  {
    if Enabled(s, Decide(c)) { AssertsNeverFail(s, Decide(c)); }
  }

  lemma CoreKept(s: State, step: Step, e: int)
    requires Inv(s) && Enabled(s, step) && AssertsHold(s, step) && IsCore(s, e)
    ensures IsCore(Next(s, step), e) && CoreOk(Next(s, step), e)
  {
    var c, s' := step.c, Next(s, step);
    assert CoreOk(s, c) && CoreOk(s, e) && PickOk(s, c) && Distinct(s, c, e);
    OtherCores(s, step);
    if s.cores[e].current.Some? { ThreadEffect(s, step, s.cores[e].current.value); }
    if s.cores[e].idle.Some? && s.cores[e].idle.value in s.threads { ThreadEffect(s, step, s.cores[e].idle.value); }
  }

  lemma PickKept(s: State, step: Step, e: int)
    requires Inv(s) && Enabled(s, step) && AssertsHold(s, step) && IsCore(s, e)
    ensures IsCore(Next(s, step), e) && PickOk(Next(s, step), e)
  {
    var c, s' := step.c, Next(s, step);
    assert CoreOk(s, c) && CoreOk(s, e) && PickOk(s, c) && PickOk(s, e);
    OtherCores(s, step);
    if step.Pick? { PickIsWaiting(s, c); }
    var pc := s'.cores[e].pc;
    var t := if pc.Saved? then Some(pc.next) else if pc.Picked? then pc.pick else None;
    if t.Some? { ThreadEffect(s, step, t.value); }
  }

  lemma DistinctKept(s: State, step: Step, e: int, f: int)
    requires Inv(s) && Enabled(s, step) && AssertsHold(s, step) && IsCore(s, e) && IsCore(s, f)
    ensures IsCore(Next(s, step), e) && IsCore(Next(s, step), f) && Distinct(Next(s, step), e, f)
  {
    OtherCores(s, step);
    assert PickOk(s, step.c) && Distinct(s, e, f) && Distinct(s, step.c, f) && Distinct(s, e, step.c);
  }

  lemma ThreadKept(s: State, step: Step, t: Tid)
    requires Inv(s) && Enabled(s, step) && AssertsHold(s, step) && t in Next(s, step).threads
    ensures ThreadOk(Next(s, step), t)
  {
    var c, s' := step.c, Next(s, step);
    OtherCores(s, step);
    assert CoreOk(s, c) && PickOk(s, c);
    if t in s.threads {
      ThreadEffect(s, step, t);
      assert ThreadOk(s, t);
      if s.threads[t].state == Running && s'.threads[t].state == Running {
        var w :| IsCore(s, w) && s.cores[w].current == Some(t);
        assert s'.cores[w].current == Some(t);
      }
      if s'.cores[c].current == Some(t) { assert RunsSomewhere(s', t); }
    }
  }

  /** Every step of every core keeps the invariant. */
  lemma StepKeepsInv(s: State, step: Step)
    requires Inv(s) && Enabled(s, step)
    ensures AssertsHold(s, step) && Inv(Next(s, step))
  {
    AssertsNeverFail(s, step);
    OtherCores(s, step);
    var s' := Next(s, step);
    forall e | IsCore(s', e) ensures CoreOk(s', e) { CoreKept(s, step, e); }
    forall e | IsCore(s', e) ensures PickOk(s', e) { PickKept(s, step, e); }
    forall e, f | IsCore(s', e) && IsCore(s', f) ensures Distinct(s', e, f) { DistinctKept(s, step, e, f); }
    forall t | t in s'.threads ensures ThreadOk(s', t) { ThreadKept(s, step, t); }
    forall i | 0 <= i < |s'.list| ensures s'.list[i] in s'.threads {
      if s'.list[i] in s.threads { ThreadEffect(s, step, s'.list[i]); }
    }
  }

  /** What the pick loop returns is a stopped thread of the list. */
  lemma {:induction false} PickFromList(threads: map<Tid, Thread>, list: seq<Tid>, core: int, best: Option<Tid>,
                                        min: Word)
    ensures var r := PickFrom(threads, list, core, best, min);
            r == best || (r.Some? && r.value in list && r.value in threads && Eligible(threads[r.value], core))
  {
    if list != [] {
      var t := list[0];
      var hit := t in threads && Eligible(threads[t], core) && threads[t].priority < min;
      PickFromList(threads, list[1..], core, if hit then Some(t) else best, if hit then threads[t].priority else min);
    }
  }

  lemma PickIsWaiting(s: State, c: int)
    requires Inv(s) && IsCore(s, c) && s.cores[c].pc == Updated
    ensures PickThread(s, c).Some? ==> Waiting(s, PickThread(s, c).value)
  {
    PickFromList(s.threads, s.list, c, None, 0xFFFF_FFFF);
    var r := PickThread(s, c);
    if r.Some? {
      forall e | IsCore(s, e)
        ensures s.cores[e].current != Some(r.value)
      {
        assert CoreOk(s, e) && CoreOk(s, c);
      }
    }
  }
}
