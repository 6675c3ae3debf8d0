/** The scheduler, yield(), sleep(), wakeup() and the critical sections of proc.c, with the locks of
    spinlock.c, as interleaved steps of any number of CPUs and processes.

    A CPU runs its scheduler, the kernel thread of a process, or an interrupt handler on top of its idle
    scheduler; a handler that interrupts a process is part of what that process's thread does.  What it
    runs is its own program counter; p->context is the one that the last swtch() saved, stale while the
    process runs.  So nothing in the model itself keeps two CPUs from running one thread.
    Lock 0 is ptable.lock; a lock records the CPU that holds it. */
module Sched {
  import opened ProcState

  /** Where a kernel thread is. */
  datatype Pc =
    | Run                            // anywhere outside the functions below
    | YieldSet | YieldSw | YieldRet
    | SleepLock(chan: int, lk: nat)  // about to acquire ptable.lock
    | SleepFree(chan: int, lk: nat)  // about to release lk
    | SleepSet(chan: int, lk: nat)   // about to set chan and state
    | SleepSw(chan: int, lk: nat)    // in sched(), about to swtch()
    | SleepRet(lk: nat)              // back from sched()
    | SleepUnlock(lk: nat)
    | SleepRelock(lk: nat)
    | WakeLock(chan: int)            // wakeup(), about to acquire ptable.lock
    | Scan(chan: int, next: nat, inner: bool) // wakeup1(), called inside a critical section or by wakeup()
    | Unlock                         // about to release ptable.lock
    | Locked                         // in a critical section of fork(), exit(), wait() or kill()
    | ExitSw
    | ForkRet

  /** Where a scheduler is. */
  datatype SPc = Idle | Loop(i: nat) | Switch(i: nat) | Back(i: nat)

  datatype Running = Scheduler(at: SPc) | Thread(p: nat, pc: Pc) | Handler(pc: Pc)

  /** proc is the per-CPU variable, -1 for null; saved is cpu->scheduler. */
  datatype Cpu = Cpu(run: Running, proc: int, saved: SPc)

  datatype Proc = Proc(state: PState, chan: int, context: Pc)

  /** A call sleep(chan, lk) that no wakeup has ended, and who acquired lk since. */
  datatype Want = Nothing | Want(chan: int, lk: nat, after: set<int>)

  datatype State = State(procs: seq<Proc>, cpus: seq<Cpu>, locks: seq<int>, want: seq<Want>)

  /** The choices of a CPU; Tick is the next statement. */
  datatype Act =
    | Tick
    | Take(l: nat) | Drop(l: nat)
    | DoYield | DoSleep(chan: int, lk: nat) | DoWake(chan: int) | DoLock
    | DoInterrupt | DoReturn
    | DoFork(child: nat) | DoReap(child: nat) | DoKill(victim: nat) | DoExit | DoWake1(chan: int) | DoUnlock

  function SetRun(s: State, c: nat, r: Running): (t: State)
    requires c < |s.cpus|
  {
    s.(cpus := s.cpus[c := s.cpus[c].(run := r)])
  }

  function At(s: State, c: nat, pc: Pc): (t: State)
    requires c < |s.cpus| && !s.cpus[c].run.Scheduler?
  {
    SetRun(s, c, if s.cpus[c].run.Thread? then Thread(s.cpus[c].run.p, pc) else Handler(pc))
  }

  /** Who runs on CPU c: a process, or a handler, numbered below 0. */
  function Agent(s: State, c: nat): (q: int)
    requires c < |s.cpus|
  {
    if s.cpus[c].run.Thread? then s.cpus[c].run.p else -1 - c
  }

  function Release(s: State, l: nat): (t: State) {
    if l < |s.locks| then s.(locks := s.locks[l := -1]) else s
  }

  function SetState(s: State, p: nat, st: PState): (t: State)
    requires p < |s.procs|
  {
    s.(procs := s.procs[p := s.procs[p].(state := st)])
  }

  predicate Free(s: State, l: nat) {
    l < |s.locks| && s.locks[l] == -1
  }

  predicate Holding(s: State, l: nat, c: nat) {
    l < |s.locks| && s.locks[l] == c
  }

  /** CPU c holds no lock but possibly l. */
  predicate HoldsOnly(s: State, c: nat, l: nat) {
    forall k :: 0 <= k < |s.locks| && k != l ==> s.locks[k] != c
  }

  /** Agent q has acquired lock l: it comes after every pending sleep(_, l). */
  function Noted(want: seq<Want>, l: nat, q: int): (r: seq<Want>)
    ensures |r| == |want|
  {
    seq(|want|, p requires 0 <= p < |want| =>
      if want[p].Want? && want[p].lk == l then want[p].(after := want[p].after + {q}) else want[p])
  }

  function Acquired(s: State, c: nat, l: nat): (t: State)
    requires c < |s.cpus| && l < |s.locks|
  {
    s.(locks := s.locks[l := c], want := Noted(s.want, l, Agent(s, c)))
  }

  /** p is made runnable: its sleep is over. */
  function Woken(s: State, p: nat): (t: State)
    requires p < |s.procs| && p < |s.want|
  {
    SetState(s, p, RUNNABLE).(want := s.want[p := Nothing])
  }

  predicate Sleeper(s: State, chan: int, p: nat) {
    p < |s.procs| && s.procs[p].state == SLEEPING && s.procs[p].chan == chan
  }

  predicate Shape(s: State) {
    |s.want| == |s.procs| && |s.locks| > 0
  }

  predicate ProcSet(s: State, c: nat) {
    c < |s.cpus| && 0 <= s.cpus[c].proc < |s.procs|
  }

  /** swtch(&proc->context, cpu->scheduler), to resume at pc later. */
  function ToScheduler(s: State, c: nat, pc: Pc): (t: State)
    requires ProcSet(s, c)
  {
    var p := s.cpus[c].proc;
    SetRun(s.(procs := s.procs[p := s.procs[p].(context := pc)]), c, Scheduler(s.cpus[c].saved))
  }

  /** The scheduler loop. */
  predicate SchedEnabled(s: State, c: nat, at: SPc, a: Act) {
    && (a.Tick? || (a.DoInterrupt? && at == Idle))
    && match at
       case Idle => a.DoInterrupt? || Free(s, 0)
       case Loop(i) => true
       case Switch(i) => i < |s.procs|
       case Back(i) => true
  }

  function SchedNext(s: State, c: nat, at: SPc, a: Act): (t: State)
    requires Shape(s) && c < |s.cpus| && SchedEnabled(s, c, at, a)
  {
    match at
    case Idle =>
      if a.DoInterrupt? then SetRun(s, c, Handler(Run)) else SetRun(s.(locks := s.locks[0 := c]), c, Scheduler(Loop(0)))
    case Loop(i) =>
      if i >= |s.procs| then SetRun(Release(s, 0), c, Scheduler(Idle))
      else if s.procs[i].state != RUNNABLE then SetRun(s, c, Scheduler(Loop(i + 1)))
      else
        var s1 := SetState(s, i, RUNNING);
        s1.(cpus := s.cpus[c := s.cpus[c].(proc := i, run := Scheduler(Switch(i)))])
    case Switch(i) =>
      s.(cpus := s.cpus[c := s.cpus[c].(saved := Back(i), run := Thread(i, s.procs[i].context))])
    case Back(i) =>
      s.(cpus := s.cpus[c := s.cpus[c].(proc := -1, run := Scheduler(Loop(i + 1)))])
  }

  /** A handler takes locks, wakes and returns to the scheduler it interrupted. */
  predicate HandlerEnabled(s: State, c: nat, pc: Pc, a: Act) {
    match pc
    case Run =>
      (match a
       case Take(l) => l > 0 && Free(s, l)
       case Drop(l) => l > 0 && Holding(s, l, c)
       case DoWake(_) => true
       case DoReturn => HoldsOnly(s, c, 0)
       case _ => false)
    case WakeLock(_) => a.Tick? && Free(s, 0)
    case Scan(_, _, _) => a.Tick?
    case Unlock => a.Tick?
    case _ => false
  }

  /** Which choices a thread has at pc.  yield() comes from a timer interrupt, so no lock is held;
      sleep() is called with its lock alone, exit() with none. */
  predicate Enabled(s: State, c: nat, a: Act) {
    c < |s.cpus| && match s.cpus[c].run
    case Scheduler(at) => SchedEnabled(s, c, at, a)
    case Handler(pc) => HandlerEnabled(s, c, pc, a)
    case Thread(p, pc) =>
      ProcSet(s, c) && match pc
      case Run =>
        (match a
         case Take(l) => l > 0 && Free(s, l)
         case Drop(l) => l > 0 && Holding(s, l, c)
         case DoYield => Free(s, 0) && HoldsOnly(s, c, 0)
         case DoSleep(chan, lk) => lk > 0 && Holding(s, lk, c) && HoldsOnly(s, c, lk)
         case DoWake(chan) => true
         case DoLock => Free(s, 0)
         case _ => false)
      case Locked =>
        (match a
         case DoFork(child) => child < |s.procs| && s.procs[child].state == UNUSED
         case DoReap(child) => child < |s.procs| && s.procs[child].state == ZOMBIE
         case DoKill(victim) => victim < |s.procs|
         case DoWake1(chan) => true
         case DoExit => HoldsOnly(s, c, 0)
         case DoSleep(chan, lk) => lk == 0 && HoldsOnly(s, c, 0)
         case DoUnlock => true
         case _ => false)
      case SleepLock(_, _) => a.Tick? && Free(s, 0)
      case WakeLock(_) => a.Tick? && Free(s, 0)
      case SleepRelock(lk) => a.Tick? && Free(s, lk)
      case _ => a.Tick?
  }

  function RunNext(s: State, c: nat, a: Act): (t: State)
    requires Shape(s) && Enabled(s, c, a) && !s.cpus[c].run.Scheduler? && s.cpus[c].run.pc == Run
  {
    match a
    case DoReturn => SetRun(s, c, Scheduler(Idle))
    case Take(l) => Acquired(s, c, l)
    case Drop(l) => Release(s, l)
    case DoYield => At(Acquired(s, c, 0), c, YieldSet)
    case DoSleep(chan, lk) => At(Wanting(s, c, chan, lk), c, SleepLock(chan, lk))
    case DoWake(chan) => At(s, c, WakeLock(chan))
    case DoLock => At(Acquired(s, c, 0), c, Locked)
    case _ => s
  }

  function LockedNext(s: State, c: nat, a: Act): (t: State)
    requires Shape(s) && Enabled(s, c, a) && s.cpus[c].run.Thread? && s.cpus[c].run.pc == Locked
  {
    match a
    case DoFork(child) => s.(procs := s.procs[child := s.procs[child].(state := RUNNABLE, context := ForkRet)])
    case DoReap(child) => SetState(s, child, UNUSED)
    case DoKill(victim) => if s.procs[victim].state == SLEEPING then Woken(s, victim) else s
    case DoWake1(chan) => At(s, c, Scan(chan, 0, true))
    case DoExit => At(SetState(s, s.cpus[c].proc, ZOMBIE), c, ExitSw)
    case DoSleep(chan, lk) => At(Wanting(s, c, chan, 0), c, SleepSet(chan, 0))
    case _ => At(s, c, Unlock)
  }

  function Wanting(s: State, c: nat, chan: int, lk: nat): (t: State)
    requires Shape(s) && ProcSet(s, c)
  {
    s.(want := s.want[s.cpus[c].proc := Want(chan, lk, {})])
  }

  /** The steps that threads and handlers have in common. */
  function WakeNext(s: State, c: nat): (t: State)
    requires Shape(s) && Enabled(s, c, Tick) && !s.cpus[c].run.Scheduler?
  {
    match s.cpus[c].run.pc
    case WakeLock(chan) => At(Acquired(s, c, 0), c, Scan(chan, 0, false))
    case Scan(chan, i, inner) =>
      if i >= |s.procs| then At(s, c, if inner then Locked else Unlock)
      else At(if Sleeper(s, chan, i) then Woken(s, i) else s, c, Scan(chan, i + 1, inner))
    case YieldRet | ForkRet | Unlock => At(Release(s, 0), c, Run)
    case _ => s
  }

  function ThreadNext(s: State, c: nat): (t: State)
    requires Shape(s) && Enabled(s, c, Tick) && s.cpus[c].run.Thread?
  {
    var me := s.cpus[c].proc;
    match s.cpus[c].run.pc
    case YieldSet => At(SetState(s, me, RUNNABLE), c, YieldSw)
    case YieldSw => ToScheduler(s, c, YieldRet)
    case SleepLock(chan, lk) => At(Acquired(s, c, 0), c, SleepFree(chan, lk))
    case SleepFree(chan, lk) => At(Release(s, lk), c, SleepSet(chan, lk))
    case SleepSet(chan, lk) =>
      At(s.(procs := s.procs[me := s.procs[me].(chan := chan, state := SLEEPING)]), c, SleepSw(chan, lk))
    case SleepSw(chan, lk) => ToScheduler(s, c, SleepRet(lk))
    case SleepRet(lk) =>
      At(s.(procs := s.procs[me := s.procs[me].(chan := 0)]), c, if lk == 0 then Locked else SleepUnlock(lk))
    case SleepUnlock(lk) => At(Release(s, 0), c, SleepRelock(lk))
    case SleepRelock(lk) => At(Acquired(s, c, lk), c, Run)
    case ExitSw => ToScheduler(s, c, ExitSw)
    case _ => WakeNext(s, c)
  }

  function Next(s: State, c: nat, a: Act): (t: State)
    requires Shape(s) && Enabled(s, c, a)
  {
    match s.cpus[c].run
    case Scheduler(at) => SchedNext(s, c, at, a)
    case Handler(pc) => if pc == Run then RunNext(s, c, a) else WakeNext(s, c)
    case Thread(_, pc) =>
      if pc == Run then RunNext(s, c, a) else if pc == Locked then LockedNext(s, c, a) else ThreadNext(s, c)
  }

  // The invariant.

  /** Positions at which the CPU holds ptable.lock. */
  predicate InLock(r: Running) {
    match r
    case Scheduler(at) => at != Idle
    case Thread(_, pc) => !(pc == Run || pc.SleepLock? || pc.SleepRelock? || pc.WakeLock?)
    case Handler(pc) => !(pc == Run || pc.WakeLock?)
  }

  /** Positions a saved context may have: all of them with ptable.lock held. */
  predicate Resume(s: State, pc: Pc) {
    pc == YieldRet || pc == ForkRet || (pc.SleepRet? && pc.lk < |s.locks|)
  }

  /** The state of the process whose thread is at pc. */
  predicate StateAt(pr: Proc, pc: Pc) {
    match pc
    case YieldSw => pr.state == RUNNABLE
    case SleepSw(chan, _) => pr.state == SLEEPING && pr.chan == chan
    case ExitSw => pr.state == ZOMBIE
    case _ => pr.state == RUNNING
  }

  /** Which locks besides ptable.lock the CPU may hold at pc. */
  predicate HeldAt(s: State, c: nat, pc: Pc) {
    match pc
    case Run | WakeLock(_) | Scan(_, _, _) | Unlock | Locked => true
    case SleepLock(_, lk) => lk > 0 && Holding(s, lk, c) && HoldsOnly(s, c, lk)
    case SleepFree(_, lk) => lk > 0 && Holding(s, lk, c) && forall k :: 0 < k < |s.locks| && k != lk ==> s.locks[k] != c
    case _ => HoldsOnly(s, c, 0)
  }

  predicate CpuOk(s: State, c: nat)
    requires c < |s.cpus|
  {
    && (InLock(s.cpus[c].run) <==> Holding(s, 0, c))
    && match s.cpus[c].run
       case Scheduler(at) =>
         && HoldsOnly(s, c, 0)
         && (at.Switch? ==>
              && s.cpus[c].proc == at.i < |s.procs| && s.procs[at.i].state == RUNNING
              && Resume(s, s.procs[at.i].context))
       case Handler(pc) =>
         && (pc == Run || pc.WakeLock? || pc == Unlock || (pc.Scan? && !pc.inner))
         && (pc.Scan? ==> NoneLeft(s, pc.chan, pc.next))
       case Thread(p, pc) =>
         && s.cpus[c].proc == p < |s.procs| && s.cpus[c].saved.Back?
         && StateAt(s.procs[p], pc) && HeldAt(s, c, pc)
         && (pc.Scan? ==> NoneLeft(s, pc.chan, pc.next))
         && (pc.SleepRet? || pc.SleepUnlock? || pc.SleepRelock? ==> pc.lk < |s.locks|)
         && (pc.SleepUnlock? || pc.SleepRelock? ==> pc.lk > 0)
         && (pc.SleepSet? || pc.SleepSw? ==> pc.lk < |s.locks|)
  }

  /** wakeup1(chan) has left no sleeper on chan among the first n. */
  predicate NoneLeft(s: State, chan: int, n: nat) {
    forall p: nat {:trigger s.procs[p]} :: p < n && p < |s.procs| ==>
      !(s.procs[p].state == SLEEPING && s.procs[p].chan == chan)
  }

  /** The process whose thread a CPU runs or is about to run, -1 for none. */
  function Who(r: Running): (p: int) {
    match r
    case Thread(p, _) => p
    case Handler(_) => -1
    case Scheduler(at) => if at.Switch? then at.i else -1
  }

  /** No process is active on two CPUs. */
  predicate Exclusive(s: State) {
    forall c: nat, d: nat :: c < |s.cpus| && d < |s.cpus| && c != d && Who(s.cpus[c].run) >= 0 ==>
      Who(s.cpus[c].run) != Who(s.cpus[d].run)
  }

  predicate HasLock(s: State, l: nat) {
    l < |s.locks| && 0 <= s.locks[l] < |s.cpus|
  }

  /** The thread at which the holder of lock l is. */
  predicate HolderAt(s: State, l: nat, p: nat, pc: Pc) {
    HasLock(s, l) && s.cpus[s.locks[l]].run == Thread(p, pc)
  }

  /** p has given up its state but its CPU, holding ptable.lock, has yet to save its context. */
  predicate Leaving(s: State, p: nat) {
    HasLock(s, 0) && s.cpus[s.locks[0]].run.Thread? && s.cpus[s.locks[0]].run.p == p
    && (s.cpus[s.locks[0]].run.pc == YieldSw || s.cpus[s.locks[0]].run.pc.SleepSw?)
  }

  predicate ProcOk(s: State, p: nat)
    requires p < |s.procs|
  {
    s.procs[p].state == RUNNABLE || s.procs[p].state == SLEEPING ==> Resume(s, s.procs[p].context) || Leaving(s, p)
  }

  /** A pending sleep(chan, lk) still holds lk, or still holds ptable.lock, or is asleep on chan. */
  predicate WantOk(s: State, p: nat)
    requires p < |s.procs| && p < |s.want|
  {
    match s.want[p]
    case Nothing => true
    case Want(chan, lk, after) =>
      || (after == {} && lk > 0 && (HolderAt(s, lk, p, SleepLock(chan, lk)) || HolderAt(s, lk, p, SleepFree(chan, lk))))
      || ((lk == 0 ==> after == {}) && HolderAt(s, 0, p, SleepSet(chan, lk)))
      || (s.procs[p].state == SLEEPING && s.procs[p].chan == chan)
  }

  predicate Inv(s: State) {
    && Shape(s) && (forall l :: 0 <= l < |s.locks| ==> -1 <= s.locks[l] < |s.cpus|)
    && (forall c: nat {:trigger s.cpus[c]} :: c < |s.cpus| ==> CpuOk(s, c))
    && (forall p: nat {:trigger s.procs[p]} :: p < |s.procs| ==> ProcOk(s, p))
    && (forall p: nat {:trigger s.want[p]} :: p < |s.procs| ==> WantOk(s, p))
    && Exclusive(s)
  }

  /** With ptable.lock held here, a process that is not running is on no other CPU. */
  lemma NotElsewhere(s: State, c: nat, d: nat, p: nat)
    requires Inv(s) && c < |s.cpus| && d < |s.cpus| && c != d && InLock(s.cpus[c].run)
    requires p < |s.procs| && s.procs[p].state != RUNNING
    ensures !InLock(s.cpus[d].run) && Who(s.cpus[d].run) != p
  {}

  /** Locks change hands only to and from CPU c. */
  predicate LocksBy(s: State, t: State, c: nat) {
    |t.locks| == |s.locks| && forall l {:trigger t.locks[l]} :: 0 <= l < |s.locks| ==>
      t.locks[l] == s.locks[l] || ((s.locks[l] == -1 || s.locks[l] == c) && (t.locks[l] == -1 || t.locks[l] == c))
  }

  /** What a step of CPU c must leave alone so that CPU d stays right. */
  lemma OtherCpu(s: State, t: State, c: nat, d: nat)
    requires d < |s.cpus| == |t.cpus| && c != d && CpuOk(s, d) && t.cpus[d] == s.cpus[d]
    requires LocksBy(s, t, c) && |t.procs| == |s.procs|
    requires var w := Who(s.cpus[d].run); 0 <= w < |s.procs| ==> t.procs[w] == s.procs[w]
    requires InLock(s.cpus[d].run) ==> t.procs == s.procs
    ensures CpuOk(t, d)
  {}

  /** The pending sleeps change only in who acquired a lock that was free. */
  predicate WantsGrow(s: State, t: State, p: nat)
    requires p < |s.want| && p < |t.want|
  {
    || t.want[p] == s.want[p]
    || (s.want[p].Want? && t.want[p].Want? && Free(s, s.want[p].lk)
        && t.want[p].chan == s.want[p].chan && t.want[p].lk == s.want[p].lk)
  }

  lemma OtherProc(s: State, t: State, c: nat, p: nat)
    requires Shape(s) && p < |s.procs| == |t.procs| && c < |s.cpus| == |t.cpus| && LocksBy(s, t, c)
    requires forall d: nat {:trigger t.cpus[d]} :: d < |s.cpus| && d != c ==> t.cpus[d] == s.cpus[d]
    requires ProcOk(s, p) && t.procs[p] == s.procs[p] && Who(s.cpus[c].run) != p
    ensures ProcOk(t, p)
  {}

  lemma OtherWant(s: State, t: State, c: nat, p: nat)
    requires Shape(s) && Shape(t) && p < |s.procs| == |t.procs| && c < |s.cpus| == |t.cpus| && LocksBy(s, t, c)
    requires forall d: nat {:trigger t.cpus[d]} :: d < |s.cpus| && d != c ==> t.cpus[d] == s.cpus[d]
    requires WantOk(s, p) && t.procs[p] == s.procs[p] && Who(s.cpus[c].run) != p && WantsGrow(s, t, p)
    ensures WantOk(t, p)
  {}

  /** A step of CPU c changes another process only under ptable.lock and only if it is not running. */
  predicate Reaches(s: State, c: nat, p: nat)
    requires c < |s.cpus| && p < |s.procs|
  {
    InLock(s.cpus[c].run) && s.procs[p].state != RUNNING
  }

  predicate Local(s: State, t: State, c: nat) {
    && Shape(t) && c < |s.cpus| == |t.cpus| && |t.procs| == |s.procs| == |s.want| && LocksBy(s, t, c)
    && (forall d: nat {:trigger t.cpus[d]} :: d < |s.cpus| && d != c ==> t.cpus[d] == s.cpus[d])
    && (forall p: nat {:trigger t.procs[p]} :: p < |s.procs| ==>
         t.procs[p] == s.procs[p] || Reaches(s, c, p) || (InLock(s.cpus[c].run) && Who(s.cpus[c].run) == p))
    && (var w := Who(t.cpus[c].run); w == -1 || w == Who(s.cpus[c].run) || (0 <= w < |s.procs| && Reaches(s, c, w)))
    && (t.procs == s.procs || InLock(s.cpus[c].run))
  }

  /** The processes whose own clauses a step must re-establish: c's, and those it changes. */
  predicate Affected(s: State, t: State, c: nat, p: nat) {
    && Shape(s) && Shape(t) && p < |s.procs| == |t.procs| && c < |s.cpus|
    && (Who(s.cpus[c].run) == p || t.procs[p] != s.procs[p] || !WantsGrow(s, t, p))
  }

  /** What a step must do for such a process. */
  predicate Mends(s: State, t: State, c: nat, p: nat) {
    Affected(s, t, c, p) && ProcOk(s, p) && WantOk(s, p) ==> ProcOk(t, p) && WantOk(t, p)
  }

  /** Whatever a step does, the rest of the invariant follows from what it does at its own CPU. */
  lemma LocalKeeps(s: State, t: State, c: nat)
    requires Inv(s) && Local(s, t, c) && CpuOk(t, c)
    requires forall l {:trigger t.locks[l]} :: 0 <= l < |t.locks| ==> -1 <= t.locks[l] < |t.cpus|
    requires forall p: nat :: Mends(s, t, c, p)
    ensures Inv(t)
  {
    forall d: nat | d < |t.cpus|
      ensures CpuOk(t, d) && (d != c && Who(t.cpus[c].run) >= 0 ==> Who(t.cpus[c].run) != Who(t.cpus[d].run))
    {
      if d != c {
        OthersStay(s, t, c, d);
      }
    }
    forall p: nat | p < |t.procs|
      ensures ProcOk(t, p) && WantOk(t, p)
    {
      assert ProcOk(s, p) by { var pr := s.procs[p]; }
      assert WantOk(s, p) by { var w := s.want[p]; }
      assert Mends(s, t, c, p);
      if !Affected(s, t, c, p) {
        OtherProc(s, t, c, p);
        OtherWant(s, t, c, p);
      }
    }
    assert Exclusive(s);
    forall a: nat, d: nat | a < |t.cpus| && d < |t.cpus| && a != d && Who(t.cpus[a].run) >= 0
      ensures Who(t.cpus[a].run) != Who(t.cpus[d].run)
    {
      assert a != c ==> t.cpus[a] == s.cpus[a];
      assert d != c ==> t.cpus[d] == s.cpus[d];
    }
  }

  lemma OthersStay(s: State, t: State, c: nat, d: nat)
    requires Inv(s) && Local(s, t, c) && d < |s.cpus| && d != c
    ensures CpuOk(t, d) && (Who(t.cpus[c].run) >= 0 ==> Who(t.cpus[c].run) != Who(t.cpus[d].run))
  {
    assert CpuOk(s, d) && CpuOk(s, c) && t.cpus[d] == s.cpus[d];
    var w := Who(s.cpus[d].run);
    assert Exclusive(s);
    assert w >= 0 ==> w != Who(s.cpus[c].run);
    if 0 <= w < |s.procs| && Reaches(s, c, w) {
      NotElsewhere(s, c, d, w);
    }
    assert 0 <= w < |s.procs| ==> t.procs[w] == s.procs[w];
    OtherCpu(s, t, c, d);
  }

  lemma LoopKeeps(s: State, c: nat)
    requires Inv(s) && Enabled(s, c, Tick) && s.cpus[c].run.Scheduler? && s.cpus[c].run.at.Loop?
    ensures Inv(Next(s, c, Tick))
  {
    assert CpuOk(s, c);
    var t, i := Next(s, c, Tick), s.cpus[c].run.at.i;
    if i < |s.procs| {
      assert ProcOk(s, i) by { var pr := s.procs[i]; }
    }
    forall p: nat ensures Mends(s, t, c, p) {}
    LocalKeeps(s, t, c);
  }

  lemma SchedKeeps(s: State, c: nat, a: Act)
    requires Inv(s) && Enabled(s, c, a) && s.cpus[c].run.Scheduler? && !s.cpus[c].run.at.Loop?
    ensures Inv(Next(s, c, a))
  {
    assert CpuOk(s, c);
    var t := Next(s, c, a);
    forall p: nat ensures Mends(s, t, c, p) {}
    LocalKeeps(s, t, c);
  }

  lemma LocksKeep(s: State, c: nat, a: Act)
    requires Inv(s) && Enabled(s, c, a) && !s.cpus[c].run.Scheduler? && s.cpus[c].run.pc == Run
    requires a.Take? || a.Drop?
    ensures Inv(Next(s, c, a))
  {
    assert CpuOk(s, c);
    var t := Next(s, c, a);
    forall p: nat ensures Mends(s, t, c, p) {}
    LocalKeeps(s, t, c);
  }

  lemma EntersKeep(s: State, c: nat, a: Act)
    requires Inv(s) && Enabled(s, c, a) && !s.cpus[c].run.Scheduler? && s.cpus[c].run.pc == Run
    requires a.DoYield? || a.DoLock?
    ensures Inv(Next(s, c, a))
  {
    assert CpuOk(s, c);
    var t := Next(s, c, a);
    forall p: nat ensures Mends(s, t, c, p) {}
    LocalKeeps(s, t, c);
  }

  lemma CallsKeep(s: State, c: nat, a: Act)
    requires Inv(s) && Enabled(s, c, a) && !s.cpus[c].run.Scheduler? && s.cpus[c].run.pc == Run
    requires a.DoSleep? || a.DoWake? || a.DoReturn?
    ensures Inv(Next(s, c, a))
  {
    assert CpuOk(s, c);
    var t := Next(s, c, a);
    forall p: nat ensures Mends(s, t, c, p) {}
    LocalKeeps(s, t, c);
  }

  lemma TableKeeps(s: State, c: nat, a: Act)
    requires Inv(s) && Enabled(s, c, a) && s.cpus[c].run.Thread? && s.cpus[c].run.pc == Locked
    requires a.DoFork? || a.DoReap? || a.DoKill?
    ensures Inv(Next(s, c, a))
  {
    assert CpuOk(s, c);
    var t := Next(s, c, a);
    forall p: nat ensures Mends(s, t, c, p) {}
    LocalKeeps(s, t, c);
  }

  lemma SectionKeeps(s: State, c: nat, a: Act)
    requires Inv(s) && Enabled(s, c, a) && s.cpus[c].run.Thread? && s.cpus[c].run.pc == Locked
    requires !(a.DoFork? || a.DoReap? || a.DoKill?)
    ensures Inv(Next(s, c, a))
  {
    assert CpuOk(s, c);
    var t := Next(s, c, a);
    forall p: nat ensures Mends(s, t, c, p) {}
    LocalKeeps(s, t, c);
  }

  lemma GivingUpKeeps(s: State, c: nat)
    requires Inv(s) && Enabled(s, c, Tick) && s.cpus[c].run.Thread?
    requires var pc := s.cpus[c].run.pc; pc == YieldSet || pc.SleepSet?
    ensures Inv(Next(s, c, Tick))
  {
    assert CpuOk(s, c);
    var t := Next(s, c, Tick);
    forall p: nat ensures Mends(s, t, c, p) {}
    LocalKeeps(s, t, c);
  }

  lemma HandoverKeeps(s: State, c: nat)
    requires Inv(s) && Enabled(s, c, Tick) && s.cpus[c].run.Thread?
    requires var pc := s.cpus[c].run.pc; pc.SleepLock? || pc.SleepFree?
    ensures Inv(Next(s, c, Tick))
  {
    assert CpuOk(s, c);
    var t := Next(s, c, Tick);
    forall p: nat ensures Mends(s, t, c, p) {}
    LocalKeeps(s, t, c);
  }

  lemma SwitchKeeps(s: State, c: nat)
    requires Inv(s) && Enabled(s, c, Tick) && s.cpus[c].run.Thread?
    requires var pc := s.cpus[c].run.pc; pc == YieldSw || pc.SleepSw? || pc == ExitSw
    ensures Inv(Next(s, c, Tick))
  {
    assert CpuOk(s, c);
    var t := Next(s, c, Tick);
    forall p: nat ensures Mends(s, t, c, p) {}
    LocalKeeps(s, t, c);
  }

  lemma TidyKeeps(s: State, c: nat)
    requires Inv(s) && Enabled(s, c, Tick) && s.cpus[c].run.Thread?
    requires var pc := s.cpus[c].run.pc; pc.SleepRet?
    ensures Inv(Next(s, c, Tick))
  {
    assert CpuOk(s, c);
    var t := Next(s, c, Tick);
    forall p: nat ensures Mends(s, t, c, p) {}
    LocalKeeps(s, t, c);
  }

  lemma RelockKeeps(s: State, c: nat)
    requires Inv(s) && Enabled(s, c, Tick) && s.cpus[c].run.Thread?
    requires var pc := s.cpus[c].run.pc; pc.SleepUnlock? || pc.SleepRelock?
    ensures Inv(Next(s, c, Tick))
  {
    assert CpuOk(s, c);
    var t := Next(s, c, Tick);
    forall p: nat ensures Mends(s, t, c, p) {}
    LocalKeeps(s, t, c);
  }

  lemma WakeKeeps(s: State, c: nat)
    requires Inv(s) && Enabled(s, c, Tick) && !s.cpus[c].run.Scheduler?
    requires var pc := s.cpus[c].run.pc; pc.WakeLock?
    ensures Inv(Next(s, c, Tick))
  {
    assert CpuOk(s, c);
    var t := Next(s, c, Tick);
    forall p: nat ensures Mends(s, t, c, p) {}
    LocalKeeps(s, t, c);
  }

  lemma ScanWakes(s: State, c: nat)
    requires Inv(s) && Enabled(s, c, Tick) && !s.cpus[c].run.Scheduler?
    requires var pc := s.cpus[c].run.pc; pc.Scan? && Sleeper(s, pc.chan, pc.next)
    ensures Inv(Next(s, c, Tick))
  {
    assert CpuOk(s, c);
    var t := Next(s, c, Tick);
    forall p: nat ensures Mends(s, t, c, p) {}
    LocalKeeps(s, t, c);
  }

  lemma ScanPasses(s: State, c: nat)
    requires Inv(s) && Enabled(s, c, Tick) && !s.cpus[c].run.Scheduler?
    requires var pc := s.cpus[c].run.pc; pc.Scan? && pc.next < |s.procs| && !Sleeper(s, pc.chan, pc.next)
    ensures Inv(Next(s, c, Tick))
  {
    assert CpuOk(s, c);
    var t := Next(s, c, Tick);
    forall p: nat ensures Mends(s, t, c, p) {}
    LocalKeeps(s, t, c);
  }

  lemma ScanEnds(s: State, c: nat)
    requires Inv(s) && Enabled(s, c, Tick) && !s.cpus[c].run.Scheduler?
    requires var pc := s.cpus[c].run.pc; pc.Scan? && pc.next >= |s.procs|
    ensures Inv(Next(s, c, Tick))
  {
    assert CpuOk(s, c);
    var t := Next(s, c, Tick);
    forall p: nat ensures Mends(s, t, c, p) {}
    LocalKeeps(s, t, c);
  }

  lemma ReleaseKeeps(s: State, c: nat)
    requires Inv(s) && Enabled(s, c, Tick) && !s.cpus[c].run.Scheduler?
    requires var pc := s.cpus[c].run.pc; pc == YieldRet || pc == ForkRet || pc == Unlock
    ensures Inv(Next(s, c, Tick))
  {
    assert CpuOk(s, c);
    var t := Next(s, c, Tick);
    forall p: nat ensures Mends(s, t, c, p) {}
    LocalKeeps(s, t, c);
  }

  lemma RunKeeps(s: State, c: nat, a: Act)
    requires Inv(s) && Enabled(s, c, a) && !s.cpus[c].run.Scheduler? && s.cpus[c].run.pc == Run
    ensures Inv(Next(s, c, a))
  {
    if a.Take? || a.Drop? {
      LocksKeep(s, c, a);
    } else if a.DoYield? || a.DoLock? {
      EntersKeep(s, c, a);
    } else {
      CallsKeep(s, c, a);
    }
  }

  lemma WakingKeeps(s: State, c: nat)
    requires Inv(s) && Enabled(s, c, Tick) && !s.cpus[c].run.Scheduler?
    requires var pc := s.cpus[c].run.pc;
             pc.WakeLock? || pc.Scan? || pc == YieldRet || pc == ForkRet || pc == Unlock
    ensures Inv(Next(s, c, Tick))
  {
    match s.cpus[c].run.pc
    case WakeLock(_) => WakeKeeps(s, c);
    case Scan(chan, i, _) =>
      if i >= |s.procs| {
        ScanEnds(s, c);
      } else if Sleeper(s, chan, i) {
        ScanWakes(s, c);
      } else {
        ScanPasses(s, c);
      }
    case _ => ReleaseKeeps(s, c);
  }

  lemma LeavingKeeps(s: State, c: nat)
    requires Inv(s) && Enabled(s, c, Tick) && s.cpus[c].run.Thread?
    requires var pc := s.cpus[c].run.pc;
             !(pc == Run || pc == Locked || pc.WakeLock? || pc.Scan? || pc == YieldRet || pc == ForkRet || pc == Unlock)
    ensures Inv(Next(s, c, Tick))
  {
    var pc := s.cpus[c].run.pc;
    if pc == YieldSet || pc.SleepSet? {
      GivingUpKeeps(s, c);
    } else if pc.SleepLock? || pc.SleepFree? {
      HandoverKeeps(s, c);
    } else if pc.SleepRet? {
      TidyKeeps(s, c);
    } else if pc.SleepUnlock? || pc.SleepRelock? {
      RelockKeeps(s, c);
    } else {
      SwitchKeeps(s, c);
    }
  }

  lemma ThreadKeeps(s: State, c: nat, a: Act)
    requires Inv(s) && Enabled(s, c, a) && s.cpus[c].run.Thread?
    ensures Inv(Next(s, c, a))
  {
    match s.cpus[c].run.pc
    case Run => RunKeeps(s, c, a);
    case Locked => if a.DoFork? || a.DoReap? || a.DoKill? { TableKeeps(s, c, a); } else { SectionKeeps(s, c, a); }
    case WakeLock(_) | Scan(_, _, _) | YieldRet | ForkRet | Unlock => WakingKeeps(s, c);
    case _ => LeavingKeeps(s, c);
  }

  lemma StepKeeps(s: State, c: nat, a: Act)
    requires Inv(s) && Enabled(s, c, a)
    ensures Inv(Next(s, c, a))
  {
    match s.cpus[c].run
    case Scheduler(at) => if at.Loop? { LoopKeeps(s, c); } else { SchedKeeps(s, c, a); }
    case Handler(pc) => if pc == Run { RunKeeps(s, c, a); } else { WakingKeeps(s, c); }
    case Thread(_, _) => ThreadKeeps(s, c, a);
  }

  // Whole runs.

  predicate Fresh(pr: Proc) {
    pr.state == UNUSED || (pr.state == RUNNABLE && pr.context == ForkRet)
  }

  /** Every CPU in its scheduler, no lock held, the first process ready to run at forkret(). */
  predicate Init(s: State) {
    && Shape(s) && (forall l :: 0 <= l < |s.locks| ==> s.locks[l] == -1)
    && (forall c :: 0 <= c < |s.cpus| ==> s.cpus[c].run == Scheduler(Idle))
    && (forall p :: 0 <= p < |s.procs| ==> Fresh(s.procs[p]))
    && (forall p :: 0 <= p < |s.want| ==> s.want[p] == Nothing)
  }

  datatype Move = Move(cpu: nat, act: Act)

  ghost predicate Leads(s: State, moves: seq<Move>, t: State)
    decreases |moves|
  {
    if moves == [] then t == s
    else Shape(s) && Enabled(s, moves[0].cpu, moves[0].act) && Leads(Next(s, moves[0].cpu, moves[0].act), moves[1..], t)
  }

  lemma InitInv(s: State)
    requires Init(s)
    ensures Inv(s)
  {
    forall c: nat | c < |s.cpus| ensures CpuOk(s, c) {
      assert s.cpus[c].run == Scheduler(Idle);
    }
    forall p: nat | p < |s.procs| ensures ProcOk(s, p) && WantOk(s, p) {
      assert Fresh(s.procs[p]) && s.want[p] == Nothing;
    }
  }

  lemma {:induction false} RunsKeep(s: State, moves: seq<Move>, t: State)
    requires Inv(s) && Leads(s, moves, t)
    ensures Inv(t)
    decreases |moves|
  {
    if moves != [] {
      StepKeeps(s, moves[0].cpu, moves[0].act);
      RunsKeep(Next(s, moves[0].cpu, moves[0].act), moves[1..], t);
    }
  }

  ghost predicate Reachable(t: State) {
    exists s: State, moves: seq<Move> :: Init(s) && Leads(s, moves, t)
  }

  lemma ReachableInv(t: State)
    requires Reachable(t)
    ensures Inv(t)
  {
    var s: State, moves: seq<Move> :| Init(s) && Leads(s, moves, t);
    InitInv(s);
    RunsKeep(s, moves, t);
  }

  /** A thread runs on one CPU at most, although yield(), sleep() and exit() give up the state before
      swtch() saves the context. */
  lemma OneCpuEach(t: State, c: nat, d: nat)
    requires Reachable(t) && c < |t.cpus| && d < |t.cpus|
    requires t.cpus[c].run.Thread? && t.cpus[d].run.Thread? && t.cpus[c].run.p == t.cpus[d].run.p
    ensures c == d
  {
    ReachableInv(t);
    assert Exclusive(t) && CpuOk(t, c);
    assert Who(t.cpus[c].run) == Who(t.cpus[d].run);
  }

  /** The panics of acquire(), release() and sched() at the statement CPU c is about to execute. */
  predicate Panics(s: State, c: nat)
    requires c < |s.cpus|
  {
    match s.cpus[c].run
    case Scheduler(at) => if at == Idle then Holding(s, 0, c) else at.Loop? && at.i >= |s.procs| && !Holding(s, 0, c)
    case Handler(pc) => if pc == Run || pc.WakeLock? then Holding(s, 0, c) else !Holding(s, 0, c)
    case Thread(p, pc) =>
      match pc
      case Run => Holding(s, 0, c)
      case SleepLock(_, _) | WakeLock(_) => Holding(s, 0, c)
      case SleepRelock(lk) => Holding(s, lk, c)
      case SleepFree(_, lk) => !Holding(s, lk, c)
      case SleepUnlock(_) | YieldRet | ForkRet | Unlock => !Holding(s, 0, c)
      case YieldSw | SleepSw(_, _) | ExitSw =>
        !Holding(s, 0, c) || !HoldsOnly(s, c, 0) || !ProcSet(s, c) || s.procs[s.cpus[c].proc].state == RUNNING
      case _ => false
  }

  /** ptable.lock is handed over: whoever releases it holds it on that CPU, whichever CPU and thread
      acquired it; and sched() is entered with exactly that lock. */
  lemma NeverPanics(t: State, c: nat)
    requires Reachable(t) && c < |t.cpus|
    ensures !Panics(t, c)
  {
    ReachableInv(t);
    assert CpuOk(t, c);
  }

  /** wait() frees the stack of a zombie that no CPU is still running on. */
  lemma ReapedIsNowhere(t: State, c: nat, child: nat, d: nat)
    requires Reachable(t) && Enabled(t, c, DoReap(child)) && d < |t.cpus|
    ensures Who(t.cpus[d].run) != child
  {
    ReachableInv(t);
    assert CpuOk(t, c);
    if d != c {
      NotElsewhere(t, c, d, child);
    }
  }

  /** CPU c is in wakeup1(chan), whoever called it. */
  predicate Waking(s: State, c: nat, chan: int) {
    c < |s.cpus| && !s.cpus[c].run.Scheduler? && s.cpus[c].run.pc.Scan? && s.cpus[c].run.pc.chan == chan
  }

  /** The waker on CPU c comes after the call of sleep(): it acquired lk since; or lk is ptable.lock, which
      every waker holds, however it came by it. */
  predicate ComesAfter(s: State, c: nat, w: Want)
    requires c < |s.cpus| && w.Want?
  {
    w.lk == 0 || Agent(s, c) in w.after
  }

  /** A wakeup(chan) that comes after the call of sleep(chan, lk), by a process or by an interrupt handler,
      finds the sleeper asleep on chan, lk being ptable.lock or any other. */
  lemma NoLostWakeup(t: State, c: nat, p: nat)
    requires Reachable(t) && p < |t.want| && t.want[p].Want?
    requires Waking(t, c, t.want[p].chan) && ComesAfter(t, c, t.want[p])
    ensures Sleeper(t, t.want[p].chan, p)
  {
    ReachableInv(t);
    assert CpuOk(t, c);
    assert WantOk(t, p);
  }

  /** When the wakeup has scanned the table, no such sleep is pending any more. */
  lemma WakeupEndsThem(t: State, c: nat, p: nat)
    requires Reachable(t) && p < |t.want| && t.want[p].Want?
    requires c < |t.cpus| && !t.cpus[c].run.Scheduler? && t.cpus[c].run.pc.Scan? && t.cpus[c].run.pc.next >= |t.procs|
    ensures !(t.want[p].chan == t.cpus[c].run.pc.chan && ComesAfter(t, c, t.want[p]))
  {
    ReachableInv(t);
    assert CpuOk(t, c);
    if t.want[p].chan == t.cpus[c].run.pc.chan && ComesAfter(t, c, t.want[p]) {
      NoLostWakeup(t, c, p);
    }
  }
}
