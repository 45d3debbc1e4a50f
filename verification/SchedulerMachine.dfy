/** The scheduler's functions as they update threads, cores, the run list and the lock in place.  An uninterrupted
    call on one core is a run of the transition system, so all that holds of runs holds of these functions. */
module SchedulerMachine {
  import opened Memory
  import opened Scheduler
  import opened SchedulerRuns

  // ----- What pick_thread chooses -----

  predicate Candidate(threads: map<Tid, Thread>, list: seq<Tid>, core: int, i: int) {
    0 <= i < |list| && list[i] in threads && Eligible(threads[list[i]], core) && threads[list[i]].priority < 0xFFFF_FFFF
  }

  /** The candidate at i is preferred to the one at j: lower priority number, then earlier in the list. */
  predicate Before(threads: map<Tid, Thread>, list: seq<Tid>, i: int, j: int)
    requires 0 <= i < |list| && 0 <= j < |list| && list[i] in threads && list[j] in threads
  {
    var p, q := threads[list[i]].priority, threads[list[j]].priority;
    p < q || (p == q && i <= j)
  }

  /** The candidate at i is preferred to every other. */
  ghost predicate Best(threads: map<Tid, Thread>, list: seq<Tid>, core: int, i: int) {
    && Candidate(threads, list, core, i)
    && forall j :: Candidate(threads, list, core, j) ==> Before(threads, list, i, j)
  }

  /** The loop's running answer over the first n threads: the best candidate is at `at`, or there is none yet. */
  ghost predicate BestSoFar(threads: map<Tid, Thread>, list: seq<Tid>, core: int, n: nat, at: Option<nat>, min: Word)
    requires n <= |list|
  {
    match at
    case None => min == 0xFFFF_FFFF && forall j :: j < n ==> !Candidate(threads, list, core, j)
    case Some(i) =>
      i < n && Candidate(threads, list, core, i) && min == threads[list[i]].priority
      && forall j :: j < n && Candidate(threads, list, core, j) ==> Before(threads, list, i, j)
  }

  /** pick_thread's answer is the best candidate of the whole list, or there is no candidate at all. */
  lemma {:induction false} PickIsBest(threads: map<Tid, Thread>, list: seq<Tid>, core: int, n: nat, at: Option<nat>,
                                      min: Word)
    requires n <= |list| && BestSoFar(threads, list, core, n, at, min)
             && forall i :: 0 <= i < |list| ==> list[i] in threads
    ensures var r := PickFrom(threads, list[n..], core, if at.Some? then Some(list[at.value]) else None, min);
            if r.Some? then exists i :: Best(threads, list, core, i) && list[i] == r.value
            else forall i :: !Candidate(threads, list, core, i)
    decreases |list| - n
  {
    if n < |list| {
      var hit := Eligible(threads[list[n]], core) && threads[list[n]].priority < min;
      assert hit ==> Candidate(threads, list, core, n);
      PickIsBest(threads, list, core, n + 1, if hit then Some(n) else at, if hit then threads[list[n]].priority
        else min);
      assert list[n..][1..] == list[n + 1..];
    } else if at.Some? {
      assert Best(threads, list, core, at.value);
    }
  }

  lemma PickIsBestOfAll(threads: map<Tid, Thread>, list: seq<Tid>, core: int)
    requires forall i :: 0 <= i < |list| ==> list[i] in threads
    ensures var r := PickFrom(threads, list, core, None, 0xFFFF_FFFF);
            if r.Some? then exists i :: Best(threads, list, core, i) && list[i] == r.value
            else forall i :: !Candidate(threads, list, core, i)
  {
    PickIsBest(threads, list, core, 0, None, 0xFFFF_FFFF);
    assert list[0..] == list;
  }

  /** pick_thread in terms of the threads' fields: it answers with the earliest, among the listed threads that are
      stopped, free or bound to this core, and not of the lowest priority, of those with the least priority number;
      it has no answer only if there is none such, and never a thread that is bound to another core. */
  lemma PickByFields(threads: map<Tid, Thread>, list: seq<Tid>, core: int)
    requires forall i :: 0 <= i < |list| ==> list[i] in threads
    ensures var r := PickFrom(threads, list, core, None, 0xFFFF_FFFF);
            && (r.Some? <==>
                  exists i :: 0 <= i < |list| && threads[list[i]].state == Stopped
                              && threads[list[i]].priority < 0xFFFF_FFFF
                              && (threads[list[i]].cpu == -1 || threads[list[i]].cpu == core))
            && (r.Some? ==>
                  exists i :: 0 <= i < |list| && list[i] == r.value
                    && threads[r.value].state == Stopped && threads[r.value].priority < 0xFFFF_FFFF
                    && (threads[r.value].cpu == -1 || threads[r.value].cpu == core)
                    && forall j :: 0 <= j < |list| && threads[list[j]].state == Stopped
                                   && (threads[list[j]].cpu == -1 || threads[list[j]].cpu == core) ==>
                         threads[r.value].priority < threads[list[j]].priority
                         || (threads[r.value].priority == threads[list[j]].priority && i <= j))
  {
    PickIsBestOfAll(threads, list, core);
    var r := PickFrom(threads, list, core, None, 0xFFFF_FFFF);
    if i :| 0 <= i < |list| && threads[list[i]].state == Stopped && threads[list[i]].priority < 0xFFFF_FFFF
            && (threads[list[i]].cpu == -1 || threads[list[i]].cpu == core) {
      assert Candidate(threads, list, core, i);
    }
    if r.Some? {
      var i :| Best(threads, list, core, i) && list[i] == r.value;
      forall j | 0 <= j < |list| && threads[list[j]].state == Stopped
                 && (threads[list[j]].cpu == -1 || threads[list[j]].cpu == core)
        ensures threads[r.value].priority < threads[list[j]].priority
                || (threads[r.value].priority == threads[list[j]].priority && i <= j)
      {
        if threads[list[j]].priority < 0xFFFF_FFFF { assert Candidate(threads, list, core, j); }
      }
    }
  }

  // ----- Sleeping threads -----

  lemma TickNext(threads: map<Tid, Thread>, list: seq<Tid>, i: nat)
    requires i < |list| && list[i] in threads && forall j :: 0 <= j < i ==> list[j] != list[i]
    ensures TickAll(threads, list[..i + 1]) == TickAll(threads, list[..i])[list[i] := Tick(threads[list[i]])]
    ensures list[i] in TickAll(threads, list[..i]) && TickAll(threads, list[..i])[list[i]] == threads[list[i]]
  {
    assert forall t :: t in list[..i + 1] <==> t in list[..i] || t == list[i];
    assert list[i] !in list[..i];
  }

  lemma ListKnown(s: State)
    requires Inv(s)
    ensures forall i :: 0 <= i < |s.list| ==> s.list[i] in s.threads
    ensures forall i, j :: 0 <= i < j < |s.list| ==> s.list[i] != s.list[j]
  {
  }

  // ----- One pass -----

  /** The steps one call of _sched_runner takes when it gets the lock. */
  function PassSteps(s: State, c: int): seq<Step>
    requires IsCore(s, c)
  {
    var ticked := if c == 0 then TickAll(s.threads, s.list) else s.threads;
    var pick := PickFrom(ticked, s.list, c, None, 0xFFFF_FFFF);
    [TryLock(c), Update(c), Pick(c)] + SwitchSteps(s.cores[c].state, pick, c) + [Unlock(c)]
  }

  function SwitchSteps(state: CoreState, pick: Option<Tid>, c: int): seq<Step> {
    if pick.None? || state == Booting || state == Offline then [Decide(c)]
    else if state == Online then [Save(c), Load(c)] else [Load(c)]
  }

  /** What one uninterrupted pass comes to, with `ticked` the threads once the sleepers are updated and `pick` the
      choice among them.  A core that runs threads changes to the one picked and stops the one it had, which keeps the
      frame it was interrupted at; with none to pick nothing changes.  A booting core goes idle. */
  ghost predicate Passed(s: State, c: int, ticked: map<Tid, Thread>, pick: Option<Tid>, s': State)
    requires IsCore(s, c)
  {
    var core := s.cores[c];
    && s'.list == s.list && s'.lock == Nobody && |s'.cores| == |s.cores|
    && (forall e :: IsCore(s, e) && e != c ==> s'.cores[e] == s.cores[e])
    && match core.state
       case Offline => s'.threads == ticked && s'.cores[c] == core
       case Booting =>
         && s'.threads == ticked && core.idle.Some? && core.idle.value in ticked
         && s'.cores[c] == core.(state := Idle, regs := ticked[core.idle.value].regs)
       case Idle =>
         if pick.None? then s'.threads == ticked && s'.cores[c] == core
         else
           && pick.value in ticked && s'.threads == ticked[pick.value := ticked[pick.value].(state := Running)]
           && s'.cores[c] == core.(state := Online, current := pick, regs := ticked[pick.value].regs)
       case Online =>
         if pick.None? then s'.threads == ticked && s'.cores[c] == core
         else
           && core.current.Some? && core.current.value in ticked && pick.value in ticked && core.current != pick
           && s'.threads ==
                ticked[core.current.value := ticked[core.current.value].(state := Stopped, regs := core.regs)]
                      [pick.value := ticked[pick.value].(state := Running)]
           && s'.cores[c] == core.(current := pick, regs := ticked[pick.value].regs)
  }

  /** Every pass that gets the lock comes to that. */
  lemma PassOutcome(s: State, c: int, s': State)
    requires Inv(s) && IsCore(s, c) && s.cores[c].pc == Out && Reaches(s, PassSteps(s, c), s')
    ensures var ticked := if c == 0 then TickAll(s.threads, s.list) else s.threads;
            Passed(s, c, ticked, PickFrom(ticked, s.list, c, None, 0xFFFF_FFFF), s')
  {
    hide Reaches, Inv;
    var ticked := if c == 0 then TickAll(s.threads, s.list) else s.threads;
    var pick := PickFrom(ticked, s.list, c, None, 0xFFFF_FFFF);
    var switch := SwitchSteps(s.cores[c].state, pick, c);
    var s1 := Behind(s, PassSteps(s, c), s');
    assert PassSteps(s, c)[1..] == [Update(c), Pick(c)] + switch + [Unlock(c)];
    var s2 := Behind(s1, [Update(c), Pick(c)] + switch + [Unlock(c)], s');
    assert ([Update(c), Pick(c)] + switch + [Unlock(c)])[1..] == [Pick(c)] + switch + [Unlock(c)];
    var s3 := Behind(s2, [Pick(c)] + switch + [Unlock(c)], s');
    assert ([Pick(c)] + switch + [Unlock(c)])[1..] == switch + [Unlock(c)];
    assert s3 == s.(threads := ticked, cores := s.cores[c := s.cores[c].(pc := Picked(pick))], lock := ByRunner(c));
    hide TickAll, PickFrom;
    SwitchOutcome(s, c, ticked, pick, s3, s');
  }

  lemma SwitchOutcome(s: State, c: int, ticked: map<Tid, Thread>, pick: Option<Tid>, s3: State, s': State)
    requires IsCore(s, c) && s.cores[c].pc == Out && Inv(s3)
    requires s3 == s.(threads := ticked, cores := s.cores[c := s.cores[c].(pc := Picked(pick))], lock := ByRunner(c))
    requires Reaches(s3, SwitchSteps(s.cores[c].state, pick, c) + [Unlock(c)], s')
    ensures Passed(s, c, ticked, pick, s')
  {
    var switch := SwitchSteps(s.cores[c].state, pick, c);
    if |switch| == 2 {
      assert switch + [Unlock(c)] == [Save(c), Load(c), Unlock(c)];
      SwapOutcome(s, c, ticked, pick, s3, s');
    } else {
      assert CoreOk(s3, c) && PickOk(s3, c);
      hide Reaches, Inv;
      assert switch + [Unlock(c)] == [switch[0], Unlock(c)];
      LastTwo(s3, switch[0], Unlock(c), s');
    }
  }

  lemma SwapOutcome(s: State, c: int, ticked: map<Tid, Thread>, pick: Option<Tid>, s3: State, s': State)
    requires IsCore(s, c) && s.cores[c].pc == Out && Inv(s3) && s.cores[c].state == Online && pick.Some?
    requires s3 == s.(threads := ticked, cores := s.cores[c := s.cores[c].(pc := Picked(pick))], lock := ByRunner(c))
    requires Reaches(s3, [Save(c), Load(c), Unlock(c)], s')
    ensures Passed(s, c, ticked, pick, s')
  {
    assert CoreOk(s3, c) && PickOk(s3, c) && Waiting(s3, pick.value);
    hide Reaches, Inv;
    var s4 := Behind(s3, [Save(c), Load(c), Unlock(c)], s');
    assert [Save(c), Load(c), Unlock(c)][1..] == [Load(c), Unlock(c)];
    LastTwo(s4, Load(c), Unlock(c), s');
  }

  lemma LastTwo(s: State, a: Step, b: Step, s': State)
    requires Inv(s) && Reaches(s, [a, b], s')
    ensures Enabled(s, a) && AssertsHold(s, a)
    ensures var n := Next(s, a); Enabled(n, b) && AssertsHold(n, b) && s' == Next(n, b)
  {
    hide Reaches, Inv, Next, Enabled, AssertsHold;
    var n := Behind(s, [a, b], s');
    assert [a, b][1..] == [b];
    var n' := Behind(n, [b], s');
    assert [b][1..] == [];
    Nowhere(n', s');
  }

  lemma Nowhere(s: State, s': State)
    requires Reaches(s, [], s')
    ensures s == s'
  {
  }

  /** The state behind the first step of a run. */
  lemma Behind(s: State, steps: seq<Step>, s': State) returns (n: State)
    requires Inv(s) && steps != [] && Reaches(s, steps, s')
    ensures Enabled(s, steps[0]) && AssertsHold(s, steps[0]) && n == Next(s, steps[0]) && Inv(n)
    ensures Reaches(n, steps[1..], s')
  {
    hide Inv;
    n := Next(s, steps[0]);
    StepKeepsInv(s, steps[0]);
  }

  /** A run goes on with any step that is enabled. */
  lemma Extend(s: State, steps: seq<Step>, now: State, step: Step)
    requires Inv(now) && Reaches(s, steps, now) && Enabled(now, step)
    ensures AssertsHold(now, step) && Inv(Next(now, step)) && Reaches(s, steps + [step], Next(now, step))
  {
    hide Inv;
    StepKeepsInv(now, step);
    assert [step][1..] == [];
    assert Reaches(now, [step], Next(now, step));
    Joined(s, steps, now, [step], Next(now, step));
  }

  lemma {:induction false} Joined(s: State, a: seq<Step>, m: State, b: seq<Step>, s': State)
    requires Reaches(s, a, m) && Reaches(m, b, s')
    ensures Reaches(s, a + b, s')
    decreases |a|
  {
    hide Enabled, AssertsHold, Next;
    if a == [] {
      assert a + b == b;
    } else {
      Joined(Next(s, a[0]), a[1..], m, b, s');
      assert (a + b)[0] == a[0] && (a + b)[1..] == a[1..] + b;
    }
  }

  class Kernel {
    var threads: map<Tid, Thread>
    var list: seq<Tid>
    var cores: seq<Core>
    var lock: Owner

    ghost function Now(): State
      reads this
    {
      State(threads, list, cores, lock)
    }

    constructor (count: nat)
      ensures Init(Now()) && |cores| == count && Inv(Now())
    {
      threads, list, lock := map[], [], Nobody;
      cores := seq(count, _ => Core(Offline, None, None, 0, false, Out));
      new;
      InitInv(Now());
    }

    // ----- The lock -----

    /** spinlock_check_and_lock: one atomic test and set. */
    method CheckAndLock(c: int) returns (got: bool)
      requires IsCore(Now(), c) && cores[c].inIrq && cores[c].pc == Out
      modifies this
      ensures got == (old(lock) == Nobody)
      ensures Now() == if got then Next(old(Now()), TryLock(c)) else old(Now())
    {
      got := lock == Nobody;
      if got {
        lock := ByRunner(c);
        cores := cores[c := cores[c].(pc := Locked)];
      }
    }

    method Unlock(c: int)
      requires Enabled(Now(), Step.Unlock(c))
      modifies this
      ensures Now() == Next(old(Now()), Step.Unlock(c))
    {
      lock := Nobody;
      SetPc(c, Out);
    }

    // ----- Parts of a pass -----

    method UpdateSleepingThreads(c: int)
      requires Inv(Now()) && Enabled(Now(), Update(c))
      modifies this
      ensures Now() == Next(old(Now()), Update(c))
    {
      hide Inv;
      ListKnown(Now());
      if c == 0 {
        var i := 0;
        assert threads == TickAll(threads, list[..0]);
        while i < |list|
          invariant 0 <= i <= |list| && list == old(list) && cores == old(cores) && lock == old(lock)
          invariant threads == TickAll(old(threads), list[..i])
        {
          var t := list[i];
          TickNext(old(threads), list, i);
          var thread := threads[t];
          if thread.state == Sleeping {
            thread := thread.(sleep := thread.sleep - if TICK > thread.sleep then thread.sleep else TICK);
            if thread.sleep == 0 { thread := thread.(state := Stopped); }
            threads := threads[t := thread];
          }
          i := i + 1;
        }
        assert list[..|list|] == list;
      }
      cores := cores[c := cores[c].(pc := Updated)];
    }

    /** pick_thread's loop: a running minimum over the list. */
    method FindPick(c: int) returns (picked: Option<Tid>)
      requires Inv(Now()) && IsCore(Now(), c)
      ensures picked == Scheduler.PickThread(Now(), c)
    {
      hide Inv;
      ListKnown(Now());
      picked := None;
      var min: Word := 0xFFFF_FFFF;
      var i := 0;
      assert list[0..] == list;
      while i < |list|
        invariant 0 <= i <= |list| && PickFrom(threads, list[i..], c, picked, min) == Scheduler.PickThread(Now(), c)
      {
        var thread := threads[list[i]];
        assert list[i..][1..] == list[i + 1..];
        if thread.cpu == -1 || thread.cpu == c {
          if thread.state == Stopped && thread.priority < min {
            picked, min := Some(list[i]), thread.priority;
          }
        }
        i := i + 1;
      }
    }

    method PickThread(c: int) returns (picked: Option<Tid>)
      requires Inv(Now()) && Enabled(Now(), Pick(c))
      modifies this
      ensures Now() == Next(old(Now()), Pick(c)) && cores[c].pc == Picked(picked)
      ensures if picked.Some? then exists i :: Best(old(threads), old(list), c, i) && old(list)[i] == picked.value
              else forall i :: !Candidate(old(threads), old(list), c, i)
    {
      hide Inv, Best, Candidate, Before, PickFrom;
      ListKnown(Now());
      picked := FindPick(c);
      PickIsBestOfAll(threads, list, c);
      cores := cores[c := cores[c].(pc := Picked(picked))];
    }

    method SaveThread(c: int, t: Tid, state: ThreadState)
      requires IsCore(Now(), c) && t in threads
      modifies this`threads
      ensures threads == old(threads)[t := old(threads)[t].(state := state, regs := cores[c].regs)]
    {
      threads := threads[t := threads[t].(state := state, regs := cores[c].regs)];
    }

    method LoadThread(c: int, t: Tid)
      requires IsCore(Now(), c) && t in threads
      modifies this`threads, this`cores
      ensures threads == old(threads)[t := old(threads)[t].(state := Running)]
      ensures var core := old(cores)[c];
              cores == old(cores)[c := core.(state := if core.state == Idle then Online
                else core.state, current := Some(t), regs := old(threads)[t].regs)]
    {
      var core := cores[c];
      if core.state == Idle { core := core.(state := Online); }
      cores := cores[c := core.(current := Some(t), regs := threads[t].regs)];
      threads := threads[t := threads[t].(state := Running)];
    }

    method EnterIdle(c: int)
      requires IsCore(Now(), c) && cores[c].current == None && cores[c].idle.Some? && cores[c].idle.value in threads
      modifies this`cores
      ensures cores == old(cores)[c := old(cores)[c].(state := Idle, regs := threads[old(cores)[c].idle.value].regs)]
    {
      cores := cores[c := cores[c].(state := Idle, regs := threads[cores[c].idle.value].regs)];
    }

    method SetPc(c: int, pc: Pc)
      requires IsCore(Now(), c)
      modifies this`cores
      ensures cores == old(cores)[c := old(cores)[c].(pc := pc)]
    {
      cores := cores[c := cores[c].(pc := pc)];
    }

    // ----- The switch on the core's state -----

    /** Nothing to switch to, or a core that is not yet running threads. */
    method KeepOrIdle(c: int)
      requires Enabled(Now(), Decide(c)) && AssertsHold(Now(), Decide(c))
      modifies this
      ensures Now() == Next(old(Now()), Decide(c))
    {
      if cores[c].state == Booting { EnterIdle(c); }
      SetPc(c, Finished);
    }

    method SaveCurrent(c: int)
      requires Enabled(Now(), Save(c)) && AssertsHold(Now(), Save(c))
      modifies this
      ensures Now() == Next(old(Now()), Save(c))
    {
      SaveThread(c, cores[c].current.value, Stopped);
      SetPc(c, Saved(cores[c].pc.pick.value));
    }

    method LoadPicked(c: int)
      requires Enabled(Now(), Load(c)) && AssertsHold(Now(), Load(c))
      modifies this
      ensures Now() == Next(old(Now()), Load(c))
    {
      LoadThread(c, if cores[c].pc.Saved? then cores[c].pc.next else cores[c].pc.pick.value);
      SetPc(c, Finished);
    }

    /** The switch, as the continuation of a run. */
    method SwitchThread(c: int, picked: Option<Tid>, ghost s: State, ghost steps: seq<Step>)
      requires Inv(Now()) && IsCore(Now(), c) && cores[c].pc == Picked(picked) && Reaches(s, steps, Now())
      modifies this
      ensures Inv(Now()) && IsCore(Now(), c) && cores[c].pc == Finished
      ensures Reaches(s, steps + SwitchSteps(old(cores)[c].state, picked, c), Now())
    {
      hide Inv, Reaches;
      if picked.None? || cores[c].state == Booting || cores[c].state == Offline {
        Extend(s, steps, Now(), Decide(c));
        KeepOrIdle(c);
      } else if cores[c].state == Online {
        Extend(s, steps, Now(), Save(c));
        SaveCurrent(c);
        Extend(s, steps + [Save(c)], Now(), Load(c));
        LoadPicked(c);
        assert steps + [Save(c)] + [Load(c)] == steps + [Save(c), Load(c)];
      } else {
        Extend(s, steps, Now(), Load(c));
        LoadPicked(c);
      }
    }

    /** _sched_runner on core c, run without interruption; sched_thread_yield and the timer both call it. */
    method SchedRunner(c: int)
      requires Inv(Now()) && IsCore(Now(), c) && cores[c].inIrq && cores[c].pc == Out
      modifies this
      ensures Inv(Now())
      ensures Reaches(old(Now()), if old(lock) == Nobody then PassSteps(old(Now()), c) else [], Now())
      ensures if old(lock) != Nobody then Now() == old(Now())
              else
                var ticked := if c == 0 then TickAll(old(threads), old(list)) else old(threads);
                Passed(old(Now()), c, ticked, PickFrom(ticked, old(list), c, None, 0xFFFF_FFFF), Now())
    {
      hide Inv, Passed, TickAll, PickFrom, Best, Candidate;
      ghost var s, steps := Now(), [];
      if lock == Nobody { Extend(s, steps, s, TryLock(c)); }
      var got := CheckAndLock(c);
      if got {
        Extend(s, [TryLock(c)], Now(), Update(c));
        UpdateSleepingThreads(c);
        Extend(s, [TryLock(c), Update(c)], Now(), Pick(c));
        var picked := PickThread(c);
        steps := [TryLock(c), Update(c), Pick(c)];
        ghost var switch := SwitchSteps(s.cores[c].state, picked, c);
        assert cores[c].state == s.cores[c].state;
        SwitchThread(c, picked, s, steps);
        steps := steps + switch;
        Extend(s, steps, Now(), Step.Unlock(c));
        steps := steps + [Step.Unlock(c)];
        Unlock(c);
        assert steps == PassSteps(s, c);
        hide Reaches, PassSteps;
        PassOutcome(s, c, Now());
      }
    }

    // ----- Calls from the running thread -----

    /** sched_thread_exit; it does nothing unless a thread runs and the core is handling its request. */
    method ThreadExit(c: int)
      requires Inv(Now()) && IsCore(Now(), c) && cores[c].pc == Out && lock != ByThread(c)
      modifies this
      ensures Inv(Now())
      ensures Reaches(old(Now()), if old(cores)[c].current.Some? && old(cores)[c].inIrq then [Exit(c)] else [], Now())
    {
      hide Inv;
      if cores[c].current.Some? && cores[c].inIrq {
        Extend(Now(), [], Now(), Exit(c));
        LeaveThread(c, Terminated, threads[cores[c].current.value].sleep);
      }
    }

    /** sched_thread_sleep. */
    method ThreadSleep(c: int, ms: Word)
      requires Inv(Now()) && IsCore(Now(), c) && cores[c].pc == Out && lock != ByThread(c)
      modifies this
      ensures Inv(Now())
      ensures Reaches(old(Now()), if old(cores)[c].current.Some? && old(cores)[c].inIrq then [Sleep(c, ms)]
              else [], Now())
    {
      hide Inv;
      if cores[c].current.Some? && cores[c].inIrq {
        Extend(Now(), [], Now(), Sleep(c, ms));
        LeaveThread(c, Sleeping, Wrap(ms * 1000));
      }
    }

    method LeaveThread(c: int, state: ThreadState, sleep: Word)
      requires IsCore(Now(), c) && cores[c].current.Some? && cores[c].current.value in threads
      requires cores[c].idle.Some? && cores[c].idle.value in threads
      modifies this`threads, this`cores
      ensures Now() == Leave(old(Now()), c, state, sleep)
    {
      var t := cores[c].current.value;
      SaveThread(c, t, state);
      threads := threads[t := threads[t].(sleep := sleep)];
      cores := cores[c := cores[c].(current := None)];
      EnterIdle(c);
    }

    // ----- Making threads runnable -----

    /** sched_run_proc on the process's threads, and sched_run_thread when there is one, once the lock is free. */
    method RunThreads(c: int, added: seq<Tid>)
      requires Inv(Now()) && Enabled(Now(), ThreadLock(c)) && added != []
      requires forall i :: 0 <= i < |added| ==> added[i] in threads && added[i] !in list && !threads[added[i]].idle
      requires forall i, j :: 0 <= i < j < |added| ==> added[i] != added[j]
      modifies this
      ensures Inv(Now()) && lock == Nobody && threads == old(threads) && cores == old(cores)
              && list == old(list) + added
      ensures forall i :: 0 <= i < |added| ==> threads[added[i]].state == Stopped
    {
      StepKeepsInv(Now(), ThreadLock(c));
      lock := ByThread(c);
      var i := 0;
      while i < |added|
        invariant 0 <= i <= |added| && Inv(Now()) && lock == ByThread(c) && threads == old(threads)
                  && cores == old(cores)
        invariant list == old(list) + added[..i]
        invariant forall j :: 0 <= j < i ==> threads[added[j]].state == Stopped
      {
        StepKeepsInv(Now(), Run(c, added[i]));
        assert threads[added[i]].state == Stopped;
        list := list + [added[i]];
        i := i + 1;
      }
      StepKeepsInv(Now(), ThreadUnlock(c));
      lock := Nobody;
    }
  }
}
