/** What the steps of module Sched come to, stated on states alone: which changes of a process a step can make,
    what a wakeup does to the sleepers, and how a sleep ends. */
module SchedLaws {
  import opened ProcState
  import opened Sched

  // Single steps.

  predicate MayBecome(x: PState, y: PState) {
    || (x == SLEEPING && y == RUNNABLE) || (x == RUNNABLE && y == RUNNING)
    || (x == RUNNING && (y == RUNNABLE || y == SLEEPING || y == ZOMBIE))
    || (x == UNUSED && y == RUNNABLE) || (x == ZOMBIE && y == UNUSED)
  }

  /** CPU c runs the thread of p, at pc. */
  predicate IsAt(s: State, p: nat, c: nat, pc: Pc) {
    c < |s.cpus| && s.cpus[c].run == Thread(p, pc)
  }

  /** CPU c runs the thread of p. */
  predicate Runs(s: State, c: nat, p: nat) {
    c < |s.cpus| && s.cpus[c].run.Thread? && s.cpus[c].run.p == p
  }

  /** CPU c is about to wake p: in wakeup1() for p's channel and at p's entry, or in kill(). */
  predicate WakerOf(s: State, c: nat, p: nat)
    requires p < |s.procs|
  {
    && c < |s.cpus| && !s.cpus[c].run.Scheduler?
    && ((s.cpus[c].run.pc.Scan? && s.cpus[c].run.pc.chan == s.procs[p].chan && s.cpus[c].run.pc.next == p)
        || s.cpus[c].run.pc == Locked)
  }

  /** Where a thread that gives up the CPU at pc goes on. */
  predicate GoesOn(pc: Pc, context: Pc) {
    match pc
    case YieldSw => context == YieldRet
    case SleepSw(_, lk) => context == SleepRet(lk)
    case ExitSw => true
    case _ => false
  }

  /** All that a step of CPU c can do to process p. */
  predicate Fate(s: State, t: State, c: nat, p: nat)
    requires p < |s.procs| && p < |t.procs| && c < |s.cpus| && c < |t.cpus|
  {
    var x, y, own := s.procs[p], t.procs[p], Runs(s, c, p);
    || y == x
    || (x.state == RUNNABLE && y == x.(state := RUNNING) && s.cpus[c].run.Scheduler? && t.cpus[c].proc == p)
    || (x.state == RUNNING && y == x.(state := RUNNABLE) && own)
    || (x.state == RUNNING && own && s.cpus[c].run.pc.SleepSet?
        && y == x.(state := SLEEPING, chan := s.cpus[c].run.pc.chan))
    || (x.state == RUNNING && y == x.(state := ZOMBIE) && own)
    || (x.state == SLEEPING && y == x.(state := RUNNABLE) && WakerOf(s, c, p))
    || (x.state == UNUSED && y == x.(state := RUNNABLE, context := ForkRet))
    || (x.state == ZOMBIE && y == x.(state := UNUSED))
    || (own && y == x.(context := y.context) && GoesOn(s.cpus[c].run.pc, y.context) && t.cpus[c].run.Scheduler?)
    || (own && y == x.(chan := 0) && s.cpus[c].run.pc.SleepRet?)
  }

  lemma SchedulerFate(s: State, c: nat, a: Act, p: nat)
    requires Inv(s) && Enabled(s, c, a) && p < |s.procs| && s.cpus[c].run.Scheduler?
    ensures |Next(s, c, a).procs| == |s.procs| && |Next(s, c, a).cpus| == |s.cpus| && Fate(s, Next(s, c, a), c, p)
  {}

  lemma ThreadFate(s: State, c: nat, a: Act, p: nat)
    requires Inv(s) && Enabled(s, c, a) && p < |s.procs| && !s.cpus[c].run.Scheduler?
    ensures |Next(s, c, a).procs| == |s.procs| && |Next(s, c, a).cpus| == |s.cpus| && Fate(s, Next(s, c, a), c, p)
  {
    assert CpuOk(s, c);
  }

  lemma FateMayBecome(s: State, t: State, c: nat, p: nat)
    requires p < |s.procs| && p < |t.procs| && c < |s.cpus| && c < |t.cpus| && Fate(s, t, c, p)
    ensures t.procs[p].state != s.procs[p].state ==> MayBecome(s.procs[p].state, t.procs[p].state)
  {}

  lemma StepFate(s: State, c: nat, a: Act, p: nat)
    requires Inv(s) && Enabled(s, c, a) && p < |s.procs|
    ensures |Next(s, c, a).procs| == |s.procs| && |Next(s, c, a).cpus| == |s.cpus| && Fate(s, Next(s, c, a), c, p)
  {
    if s.cpus[c].run.Scheduler? {
      SchedulerFate(s, c, a, p);
    } else {
      ThreadFate(s, c, a, p);
    }
  }

  /** From every reachable state a step changes a process in one of a few ways, each with who may do it and what
      stays: it is scheduled, gives up the CPU, goes to sleep, is woken, exits, is made by fork() or reaped. */
  lemma Fates(s: State, c: nat, a: Act, p: nat)
    requires Reachable(s) && Enabled(s, c, a) && p < |s.procs| && Shape(s)
    ensures var t := Next(s, c, a);
            && |t.procs| == |s.procs| && |t.cpus| == |s.cpus| && Fate(s, t, c, p)
            && (t.procs[p].state != s.procs[p].state ==> MayBecome(s.procs[p].state, t.procs[p].state))
  {
    ReachableInv(s);
    StepFate(s, c, a, p);
    FateMayBecome(s, Next(s, c, a), c, p);
  }

  /** A resumed thread goes on where its context says; the step is the only one that starts a thread. */
  lemma Resumes(s: State, c: nat, a: Act, d: nat, p: nat)
    requires Inv(s) && Enabled(s, c, a) && d < |s.cpus|
    ensures |Next(s, c, a).cpus| == |s.cpus|
    ensures d != c ==> Next(s, c, a).cpus[d] == s.cpus[d]
    ensures Runs(Next(s, c, a), c, p) && !Runs(s, c, p) ==>
              && p < |s.procs| && s.cpus[c].run == Scheduler(Switch(p))
              && Next(s, c, a).cpus[c].run == Thread(p, s.procs[p].context) && Next(s, c, a).procs == s.procs
  {
    assert CpuOk(s, c);
  }

  /** A RUNNABLE process that the scheduler comes to runs next, from where it gave up the CPU. */
  lemma SchedulerTakes(s: State, c: nat, p: nat)
    requires Inv(s) && c < |s.cpus| && s.cpus[c].run == Scheduler(Loop(p)) && p < |s.procs|
    requires s.procs[p].state == RUNNABLE
    ensures var t := Next(s, c, Tick);
            && Shape(t) && Enabled(t, c, Tick)
            && var u := Next(t, c, Tick);
               && c < |u.cpus| && u.cpus[c].run == Thread(p, s.procs[p].context) && u.cpus[c].proc == p
               && u.procs == s.procs[p := s.procs[p].(state := RUNNING)]
  {}

  /** A CPU that comes to the end of the table lets go of ptable.lock; else it goes on with the next entry. */
  lemma SchedulerPasses(s: State, c: nat, i: nat)
    requires Inv(s) && c < |s.cpus| && s.cpus[c].run == Scheduler(Loop(i))
    requires i >= |s.procs| || s.procs[i].state != RUNNABLE
    ensures var t := Next(s, c, Tick);
            && t.procs == s.procs && c < |t.cpus|
            && t.cpus[c].run == (if i >= |s.procs| then Scheduler(Idle) else Scheduler(Loop(i + 1)))
            && (i >= |s.procs| ==> Free(t, 0))
  {
    assert CpuOk(s, c);
  }

  /** Only the holder of ptable.lock changes processes. */
  lemma HolderChanges(s: State, c: nat, d: nat, a: Act)
    requires Inv(s) && c < |s.cpus| && InLock(s.cpus[c].run) && d != c && Enabled(s, d, a)
    ensures Next(s, d, a).procs == s.procs && |Next(s, d, a).cpus| == |s.cpus| && Next(s, d, a).cpus[c] == s.cpus[c]
  {
    assert CpuOk(s, c) && CpuOk(s, d);
  }

  // wakeup1().

  /** A run during which CPU c stays in wakeup1(chan). */
  ghost predicate ScanRun(s: State, moves: seq<Move>, t: State, c: nat, chan: int)
    decreases |moves|
  {
    && Waking(s, c, chan)
    && if moves == [] then t == s
       else
         && Shape(s) && Enabled(s, moves[0].cpu, moves[0].act)
         && ScanRun(Next(s, moves[0].cpu, moves[0].act), moves[1..], t, c, chan)
  }

  /** What the scan from entry i to entry j makes of process p. */
  predicate Scanned(s: State, t: State, chan: int, i: nat, j: nat, p: nat)
    requires p < |s.procs| && p < |t.procs|
  {
    t.procs[p] == if Sleeper(s, chan, p) && i <= p < j then s.procs[p].(state := RUNNABLE) else s.procs[p]
  }

  lemma ScanStep(s: State, c: nat, chan: int, p: nat)
    requires Inv(s) && Waking(s, c, chan) && Enabled(s, c, Tick) && p < |s.procs|
    requires Waking(Next(s, c, Tick), c, chan)
    ensures var t, i := Next(s, c, Tick), s.cpus[c].run.pc.next;
            && |t.procs| == |s.procs| && t.cpus[c].run.pc.next == i + 1 && Scanned(s, t, chan, i, i + 1, p)
  {}

  lemma {:induction false} ScanRunKeeps(s: State, moves: seq<Move>, t: State, c: nat, chan: int, p: nat)
    requires Inv(s) && ScanRun(s, moves, t, c, chan) && p < |s.procs|
    ensures Inv(t) && Waking(t, c, chan) && |t.procs| == |s.procs| && t.cpus[c].run.pc.next >= s.cpus[c].run.pc.next
    ensures Scanned(s, t, chan, s.cpus[c].run.pc.next, t.cpus[c].run.pc.next, p)
    decreases |moves|
  {
    if moves != [] {
      var d, a := moves[0].cpu, moves[0].act;
      StepKeeps(s, d, a);
      assert CpuOk(s, c);
      if d == c {
        ScanStep(s, c, chan, p);
      } else {
        HolderChanges(s, c, d, a);
      }
      ScanRunKeeps(Next(s, d, a), moves[1..], t, c, chan, p);
    }
  }

  /** However other CPUs interleave, a scan makes every process it passes that slept on its channel when it started
      RUNNABLE, its context and all else of it unchanged, and changes no other process at all. */
  lemma ScanWakesExactly(s: State, moves: seq<Move>, t: State, c: nat, chan: int, p: nat)
    requires Reachable(s) && Waking(s, c, chan) && s.cpus[c].run.pc.next == 0 && ScanRun(s, moves, t, c, chan)
    requires p < |s.procs|
    ensures |t.procs| == |s.procs| && Waking(t, c, chan)
    ensures t.procs[p] ==
            if s.procs[p].state == SLEEPING && s.procs[p].chan == chan && p < t.cpus[c].run.pc.next
            then s.procs[p].(state := RUNNABLE) else s.procs[p]
  {
    ReachableInv(s);
    ScanRunKeeps(s, moves, t, c, chan, p);
  }

  /** A wakeup that comes after sleep(chan, lk) makes the sleeper RUNNABLE, to go on in sleep(). */
  lemma WakeupWakes(s: State, moves: seq<Move>, t: State, c: nat, p: nat)
    requires Reachable(s) && p < |s.procs| && p < |s.want| && s.want[p].Want?
    requires Waking(s, c, s.want[p].chan) && s.cpus[c].run.pc.next == 0 && ComesAfter(s, c, s.want[p])
    requires ScanRun(s, moves, t, c, s.want[p].chan) && Waking(t, c, s.want[p].chan)
    requires t.cpus[c].run.pc.next >= |t.procs|
    ensures p < |t.procs| && t.procs[p] == s.procs[p].(state := RUNNABLE) && Resume(t, t.procs[p].context)
  {
    NoLostWakeup(s, c, p);
    ReachableInv(s);
    ScanWakesExactly(s, moves, t, c, s.want[p].chan, p);
    ScanRunKeeps(s, moves, t, c, s.want[p].chan, p);
    assert ProcOk(t, p) by { var pr := t.procs[p]; }
    assert CpuOk(t, c);
  }

  /** A run during which CPU c is not outside of everything. */
  ghost predicate Away(s: State, moves: seq<Move>, t: State, c: nat)
    decreases |moves|
  {
    && c < |s.cpus| && !s.cpus[c].run.Scheduler? && s.cpus[c].run.pc != Run
    && if moves == [] then t == s
       else
         && Shape(s) && Enabled(s, moves[0].cpu, moves[0].act)
         && Away(Next(s, moves[0].cpu, moves[0].act), moves[1..], t, c)
  }

  /** CPU c is in wakeup(chan); about to leave it, it has left nobody asleep on chan. */
  ghost predicate InWakeup(s: State, c: nat, chan: int) {
    && c < |s.cpus| && !s.cpus[c].run.Scheduler?
    && match s.cpus[c].run.pc
       case WakeLock(x) => x == chan
       case Scan(x, _, inner) => x == chan && !inner
       case Unlock => NoneLeft(s, chan, |s.procs|)
       case _ => false
  }

  lemma WakeupStep(s: State, d: nat, a: Act, c: nat, chan: int)
    requires Inv(s) && InWakeup(s, c, chan) && Enabled(s, d, a)
    ensures var t := Next(s, d, a);
            c < |t.cpus| && !t.cpus[c].run.Scheduler? && (t.cpus[c].run.pc != Run ==> InWakeup(t, c, chan))
  {
    assert CpuOk(s, c);
    if d != c {
      Resumes(s, d, a, c, 0);
      if InLock(s.cpus[c].run) {
        HolderChanges(s, c, d, a);
      }
    }
  }

  lemma {:induction false} WakeupRun(s: State, moves: seq<Move>, t: State, c: nat, chan: int)
    requires Inv(s) && InWakeup(s, c, chan) && Away(s, moves, t, c)
    ensures InWakeup(t, c, chan)
    decreases |moves|
  {
    if moves != [] {
      var d, a := moves[0].cpu, moves[0].act;
      StepKeeps(s, d, a);
      WakeupStep(s, d, a, c, chan);
      WakeupRun(Next(s, d, a), moves[1..], t, c, chan);
    }
  }

  /** A process or handler that calls wakeup(chan) is in that call until it is outside again, and when it is about
      to release ptable.lock nobody sleeps on chan. */
  lemma WakeupLeavesNone(s: State, c: nat, chan: int, moves: seq<Move>, t: State)
    requires Reachable(s) && Shape(s) && Enabled(s, c, DoWake(chan)) && Away(Next(s, c, DoWake(chan)), moves, t, c)
    ensures InWakeup(t, c, chan)
    ensures t.cpus[c].run.pc == Unlock ==>
              forall p :: 0 <= p < |t.procs| ==> !(t.procs[p].state == SLEEPING && t.procs[p].chan == chan)
  {
    ReachableInv(s);
    StepKeeps(s, c, DoWake(chan));
    WakeupRun(Next(s, c, DoWake(chan)), moves, t, c, chan);
  }

  // sleep().

  /** No CPU runs the thread of p. */
  predicate Off(s: State, p: nat) {
    forall c: nat {:trigger Runs(s, c, p)} :: c < |s.cpus| ==> !Runs(s, c, p)
  }

  /** The call sleep(chan, lk) of p has yet to give up the CPU. */
  predicate Falling(s: State, p: nat, chan: int, lk: nat, c: nat) {
    IsAt(s, p, c, SleepLock(chan, lk)) || IsAt(s, p, c, SleepFree(chan, lk)) || IsAt(s, p, c, SleepSet(chan, lk))
  }

  /** p is asleep on chan, on its way off CPU c or off, to go on in that call. */
  predicate Asleep(s: State, p: nat, chan: int, lk: nat, c: nat) {
    && p < |s.procs| && s.procs[p].state == SLEEPING && s.procs[p].chan == chan
    && (IsAt(s, p, c, SleepSw(chan, lk)) || (Off(s, p) && s.procs[p].context == SleepRet(lk)))
  }

  /** p has been woken, and has yet to return with lk. */
  predicate Awake(s: State, p: nat, lk: nat, c: nat) {
    && p < |s.procs|
    && (|| (Off(s, p) && s.procs[p].context == SleepRet(lk)
            && (s.procs[p].state == RUNNABLE || s.procs[p].state == RUNNING))
        || IsAt(s, p, c, SleepRet(lk)) || IsAt(s, p, c, SleepUnlock(lk)) || IsAt(s, p, c, SleepRelock(lk)))
  }

  /** p is back from sleep(_, lk), and its CPU c holds lk. */
  predicate Returned(s: State, p: nat, lk: nat, c: nat) {
    Holding(s, lk, c) && IsAt(s, p, c, if lk == 0 then Locked else Run)
  }

  lemma FallingStep(s: State, p: nat, chan: int, lk: nat, c: nat, d: nat, a: Act)
    requires Inv(s) && Falling(s, p, chan, lk, c) && Enabled(s, d, a)
    ensures Falling(Next(s, d, a), p, chan, lk, c) || Asleep(Next(s, d, a), p, chan, lk, c)
  {
    assert CpuOk(s, c);
    if d != c {
      Resumes(s, d, a, c, p);
    }
  }

  lemma StaysOff(s: State, p: nat, d: nat, a: Act)
    requires Inv(s) && Off(s, p) && p < |s.procs| && Enabled(s, d, a)
    ensures Off(Next(s, d, a), p) || (s.cpus[d].run == Scheduler(Switch(p)) && s.procs[p].state == RUNNING
                                      && Next(s, d, a).cpus[d].run == Thread(p, s.procs[p].context)
                                      && Next(s, d, a).procs == s.procs)
  {
    var t := Next(s, d, a);
    assert CpuOk(s, d) && !Runs(s, d, p);
    Resumes(s, d, a, d, p);
    if !Runs(t, d, p) {
      forall c: nat | c < |t.cpus| ensures !Runs(t, c, p) {
        Resumes(s, d, a, c, p);
        assert !Runs(s, c, p);
      }
    }
  }

  lemma GivesUp(s: State, p: nat, chan: int, lk: nat, c: nat)
    requires Inv(s) && IsAt(s, p, c, SleepSw(chan, lk)) && Enabled(s, c, Tick) && p < |s.procs|
    ensures Asleep(Next(s, c, Tick), p, chan, lk, c)
  {
    var t := Next(s, c, Tick);
    assert CpuOk(s, c);
    forall d: nat | d < |t.cpus| ensures !Runs(t, d, p) {
      assert Exclusive(s) && Who(s.cpus[c].run) == p;
      Resumes(s, c, Tick, d, p);
    }
  }

  lemma AsleepStep(s: State, p: nat, chan: int, lk: nat, c: nat, d: nat, a: Act)
    requires Inv(s) && Asleep(s, p, chan, lk, c) && Enabled(s, d, a)
    ensures Asleep(Next(s, d, a), p, chan, lk, c) || (WakerOf(s, d, p) && Awake(Next(s, d, a), p, lk, c))
  {
    if IsAt(s, p, c, SleepSw(chan, lk)) {
      if d == c {
        GivesUp(s, p, chan, lk, c);
      } else {
        HolderChanges(s, c, d, a);
      }
    } else {
      assert d < |s.cpus| ==> !Runs(s, d, p);
      StepFate(s, d, a, p);
      StaysOff(s, p, d, a);
    }
  }

  lemma AwakeStep(s: State, p: nat, lk: nat, c: nat, d: nat, a: Act)
    requires Inv(s) && Awake(s, p, lk, c) && Enabled(s, d, a)
    ensures var t := Next(s, d, a);
            Awake(t, p, lk, c) || Awake(t, p, lk, d) || Returned(t, p, lk, c)
  {
    if c < |s.cpus| && Runs(s, c, p) {
      assert CpuOk(s, c);
      StepFate(s, d, a, p);
      if d != c {
        Resumes(s, d, a, c, p);
      }
    } else {
      assert d < |s.cpus| ==> !Runs(s, d, p);
      StepFate(s, d, a, p);
      StaysOff(s, p, d, a);
    }
  }

  datatype Stage = Before | During | Behind

  /** How far the call sleep(chan, lk) of p has come. */
  predicate InSleep(s: State, p: nat, chan: int, lk: nat, c: nat, g: Stage) {
    match g
    case Before => Falling(s, p, chan, lk, c)
    case During => Asleep(s, p, chan, lk, c)
    case Behind => Awake(s, p, lk, c)
  }

  /** A step of any CPU leaves the call where it is or takes it one stage on: off the CPU, awake only by a wakeup of
      its channel or a kill, and back only with its lock held. */
  lemma SleepStep(s: State, p: nat, chan: int, lk: nat, c: nat, g: Stage, d: nat, a: Act) returns (c': nat, g': Stage)
    requires Inv(s) && InSleep(s, p, chan, lk, c, g) && Enabled(s, d, a)
    ensures InSleep(Next(s, d, a), p, chan, lk, c', g') || (g == Behind && Returned(Next(s, d, a), p, lk, c'))
    ensures g' == g || (g == Before && g' == During) || (g == During && g' == Behind && WakerOf(s, d, p))
    ensures g == During || g' == Behind ==> p < |s.procs|
  {
    c', g' := c, g;
    match g
    case Before =>
      FallingStep(s, p, chan, lk, c, d, a);
      g' := if Falling(Next(s, d, a), p, chan, lk, c) then Before else During;
    case During =>
      AsleepStep(s, p, chan, lk, c, d, a);
      g' := if Asleep(Next(s, d, a), p, chan, lk, c) then During else Behind;
    case Behind =>
      AwakeStep(s, p, lk, c, d, a);
      c' := if Awake(Next(s, d, a), p, lk, d) then d else c;
  }

  /** p is at none of the places from which it calls sleep() and to which it returns. */
  predicate Inside(s: State, p: nat) {
    forall c: nat {:trigger Runs(s, c, p)} :: c < |s.cpus| && Runs(s, c, p) ==>
      s.cpus[c].run.pc != Run && s.cpus[c].run.pc != Locked
  }

  /** A run during which p stays inside. */
  ghost predicate InsideRun(s: State, moves: seq<Move>, t: State, p: nat)
    decreases |moves|
  {
    && Inside(s, p)
    && if moves == [] then t == s
       else
         && Shape(s) && Enabled(s, moves[0].cpu, moves[0].act)
         && InsideRun(Next(s, moves[0].cpu, moves[0].act), moves[1..], t, p)
  }

  /** Somewhere in the run p, asleep on chan, was woken by wakeup1(chan) or kill(). */
  ghost predicate WokenIn(s: State, moves: seq<Move>, p: nat, chan: int)
    decreases |moves|
  {
    && moves != [] && Shape(s) && Enabled(s, moves[0].cpu, moves[0].act)
    && ((Sleeper(s, chan, p) && WakerOf(s, moves[0].cpu, p))
        || WokenIn(Next(s, moves[0].cpu, moves[0].act), moves[1..], p, chan))
  }

  lemma InSleepIsInside(s: State, p: nat, chan: int, lk: nat, c: nat, g: Stage)
    requires Inv(s) && InSleep(s, p, chan, lk, c, g)
    ensures Inside(s, p)
  {
    forall d: nat | d < |s.cpus| && Runs(s, d, p)
      ensures s.cpus[d].run.pc != Run && s.cpus[d].run.pc != Locked
    {
      assert Exclusive(s) && Who(s.cpus[d].run) == p;
      assert c < |s.cpus| && Runs(s, c, p) ==> Who(s.cpus[c].run) == p;
    }
  }

  lemma {:induction false} SleepRun(s: State, moves: seq<Move>, t: State, p: nat, chan: int, lk: nat, c: nat, g: Stage)
    returns (c': nat, g': Stage)
    requires Inv(s) && InSleep(s, p, chan, lk, c, g) && InsideRun(s, moves, t, p)
    ensures Inv(t) && InSleep(t, p, chan, lk, c', g')
    ensures g' == Behind && g != Behind ==> WokenIn(s, moves, p, chan)
    decreases |moves|
  {
    c', g' := c, g;
    if moves != [] {
      var d, a := moves[0].cpu, moves[0].act;
      var next := Next(s, d, a);
      StepKeeps(s, d, a);
      var e, h := SleepStep(s, p, chan, lk, c, g, d, a);
      if Returned(next, p, lk, e) {
        assert Runs(next, e, p);
      }
      c', g' := SleepRun(next, moves[1..], t, p, chan, lk, e, h);
    }
  }

  /** sleep(chan, lk), over any interleaving: the caller comes back from it only after a wakeup of chan, or a kill,
      found it asleep on chan; and then its CPU holds lk. */
  lemma SleepReturns(s: State, c: nat, chan: int, lk: nat, p: nat, moves: seq<Move>, t: State, d: nat, a: Act)
    returns (e: nat)
    requires Reachable(s) && Shape(s) && Enabled(s, c, DoSleep(chan, lk)) && Runs(s, c, p)
    requires InsideRun(Next(s, c, DoSleep(chan, lk)), moves, t, p)
    requires Shape(t) && Enabled(t, d, a) && !Inside(Next(t, d, a), p)
    ensures WokenIn(Next(s, c, DoSleep(chan, lk)), moves, p, chan)
    ensures Returned(Next(t, d, a), p, lk, e)
  {
    ReachableInv(s);
    assert CpuOk(s, c);
    var s1 := Next(s, c, DoSleep(chan, lk));
    StepKeeps(s, c, DoSleep(chan, lk));
    var f, g := SleepRun(s1, moves, t, p, chan, lk, c, Before);
    StepKeeps(t, d, a);
    var h;
    e, h := SleepStep(t, p, chan, lk, f, g, d, a);
    if InSleep(Next(t, d, a), p, chan, lk, e, h) {
      InSleepIsInside(Next(t, d, a), p, chan, lk, e, h);
    }
  }
}
