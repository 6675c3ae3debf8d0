/** The process table of proc.c: the critical sections of fork(), exit(), wait(), kill() and wakeup1(),
    each run under ptable.lock, and what holds of the process tree whenever that lock is free. */
module ProcTree {
  import opened ProcState

  /** A sleep channel: nothing, the entry of a process (used by wait() alone), or another address. */
  datatype Chan = NoChan | OfProc(p: int) | Other(x: int)

  /** parent is an index into the table, -1 for null. */
  datatype Proc = Proc(state: PState, pid: int, parent: int, chan: Chan, killed: bool)

  type Table = seq<Proc>

  // What each critical section does to the table.

  function WokenBy(pr: Proc, chan: Chan): (r: Proc) {
    if pr.state == SLEEPING && pr.chan == chan then pr.(state := RUNNABLE) else pr
  }

  /** wakeup1(chan). */
  function WakeAll(t: Table, chan: Chan): (r: Table) {
    seq(|t|, i requires 0 <= i < |t| => WokenBy(t[i], chan))
  }

  predicate FirstUnused(t: Table, k: nat) {
    k < |t| && t[k].state == UNUSED && forall i :: 0 <= i < k ==> t[i].state != UNUSED
  }

  predicate Full(t: Table) {
    forall i :: 0 <= i < |t| ==> t[i].state != UNUSED
  }

  /** A successful fork() by me into slot k; killed and chan keep what the slot held. */
  function Forked(t: Table, me: nat, k: nat, pid: int): (r: Table)
    requires k < |t|
  {
    t[k := t[k].(state := RUNNABLE, pid := pid, parent := me)]
  }

  /** A fork() that ran out of memory: the slot keeps the new pid. */
  function ForkFailed(t: Table, k: nat, pid: int): (r: Table)
    requires k < |t|
  {
    t[k := t[k].(state := UNUSED, pid := pid)]
  }

  predicate ZombieChild(t: Table, me: int, i: int) {
    0 <= i < |t| && t[i].parent == me && t[i].state == ZOMBIE
  }

  predicate HasZombie(t: Table, me: int) {
    exists i :: 0 <= i < |t| && ZombieChild(t, me, i)
  }

  /** me is a zombie and its children are init's. */
  function Gone(t: Table, me: nat, init: nat): (r: Table) {
    seq(|t|, i requires 0 <= i < |t| =>
      t[i].(parent := if t[i].parent == me then init else t[i].parent,
            state := if i == me then ZOMBIE else t[i].state))
  }

  /** exit() by me: the parent is woken, then init if it inherits a zombie; children go to init. */
  function Exited(t: Table, me: nat, init: nat): (r: Table)
    requires me < |t|
  {
    var t1 := WakeAll(t, OfProc(t[me].parent));
    var t2 := if HasZombie(t, me) then WakeAll(t1, OfProc(init)) else t1;
    Gone(t2, me, init)
  }

  /** What becomes of each process when me exits: me is a zombie; me's children are init's; the parent wakes if it
      sleeps in wait(), and so does init if it gets a zombie; nothing else changes. */
  lemma ExitedEach(t: Table, me: nat, init: nat, k: nat)
    requires me < |t| && k < |t|
    ensures var was, now := t[k], Exited(t, me, init)[k];
            && now.pid == was.pid && now.killed == was.killed && now.chan == was.chan
            && now.parent == (if was.parent == me then init else was.parent)
            && now.state == if k == me then ZOMBIE
                            else if was.state == SLEEPING && (|| was.chan == OfProc(t[me].parent)
                                                              || (HasZombie(t, me) && was.chan == OfProc(init)))
                            then RUNNABLE else was.state
  {}

  /** wait() reaps the zombie child k. */
  function Reaped(t: Table, k: nat): (r: Table)
    requires k < |t|
  {
    t[k := t[k].(state := UNUSED, pid := 0, parent := -1, killed := false)]
  }

  predicate FirstZombie(t: Table, me: int, k: nat) {
    ZombieChild(t, me, k) && forall i :: 0 <= i < k ==> !ZombieChild(t, me, i)
  }

  predicate HasKids(t: Table, me: int) {
    exists i :: 0 <= i < |t| && t[i].parent == me
  }

  /** wait() goes to sleep on its own entry. */
  function WaitSlept(t: Table, me: nat): (r: Table)
    requires me < |t|
  {
    t[me := t[me].(state := SLEEPING, chan := OfProc(me))]
  }

  predicate FirstPid(t: Table, pid: int, k: nat) {
    k < |t| && t[k].pid == pid && forall i :: 0 <= i < k ==> t[i].pid != pid
  }

  predicate NoPid(t: Table, pid: int) {
    forall i :: 0 <= i < |t| ==> t[i].pid != pid
  }

  function KilledAt(t: Table, k: nat): (r: Table)
    requires k < |t|
  {
    t[k := t[k].(killed := true, state := if t[k].state == SLEEPING then RUNNABLE else t[k].state)]
  }

  // The invariant.

  predicate Live(pr: Proc) {
    pr.state != UNUSED && pr.state != ZOMBIE
  }

  predicate HasParent(t: Table, i: nat)
    requires i < |t|
  {
    0 <= t[i].parent < |t| && t[i].parent != i && Live(t[t[i].parent])
  }

  predicate WaitsFor(t: Table, i: nat)
    requires i < |t|
  {
    t[i].state == SLEEPING && t[i].chan == OfProc(i)
  }

  predicate Entry(t: Table, init: nat, nextpid: int, i: nat)
    requires i < |t|
  {
    && t[i].state != EMBRYO && 0 <= t[i].pid < nextpid
    && (t[i].state != UNUSED ==> t[i].pid > 0)
    && (t[i].state == UNUSED ==> t[i].parent == -1)
    && (t[i].state != UNUSED && i != init ==> HasParent(t, i))
    && (t[i].state == ZOMBIE && i != init ==> !WaitsFor(t, t[i].parent))
    && (t[i].state == SLEEPING && t[i].chan.OfProc? ==> t[i].chan.p == i)
  }

  /** A process's pid is in no other slot, in use or free. */
  predicate PidsDistinct(t: Table) {
    forall i, j :: 0 <= i < |t| && 0 <= j < |t| && i != j && t[i].state != UNUSED ==> t[i].pid != t[j].pid
  }

  /** What holds whenever ptable.lock is free. */
  ghost predicate Tree(t: Table, init: nat, nextpid: int) {
    && init < |t| && Live(t[init]) && t[init].parent == -1 && nextpid > 0 && PidsDistinct(t)
    && forall i: nat {:trigger Entry(t, init, nextpid, i)} :: i < |t| ==> Entry(t, init, nextpid, i)
  }

  lemma ForkKeeps(t: Table, init: nat, nextpid: int, me: nat, k: nat)
    requires Tree(t, init, nextpid) && FirstUnused(t, k) && me < |t| && t[me].state == RUNNING
    ensures Tree(Forked(t, me, k, nextpid), init, nextpid + 1)
  {
    var r, next := Forked(t, me, k, nextpid), nextpid + 1;
    forall i: nat | i < |r| ensures Entry(r, init, next, i) && t[i].pid < nextpid {
      assert Entry(t, init, nextpid, i);
    }
  }

  lemma ForkFailedKeeps(t: Table, init: nat, nextpid: int, k: nat)
    requires Tree(t, init, nextpid) && FirstUnused(t, k)
    ensures Tree(ForkFailed(t, k, nextpid), init, nextpid + 1)
  {
    var r, next := ForkFailed(t, k, nextpid), nextpid + 1;
    forall i: nat | i < |r| ensures Entry(r, init, next, i) && t[i].pid < nextpid {
      assert Entry(t, init, nextpid, i);
    }
  }

  /** The last part of exit(), once those to be told are awake. */
  lemma GoneKeeps(t: Table, init: nat, nextpid: int, me: nat)
    requires Tree(t, init, nextpid) && me < |t| && t[me].state == RUNNING && me != init
    requires 0 <= t[me].parent < |t| ==> !WaitsFor(t, t[me].parent)
    requires HasZombie(t, me) ==> !WaitsFor(t, init)
    ensures Tree(Gone(t, me, init), init, nextpid)
  {
    var r := Gone(t, me, init);
    forall i: nat | i < |r| ensures Entry(r, init, nextpid, i) {
      assert Entry(t, init, nextpid, i);
      assert Entry(t, init, nextpid, me);
      assert t[i].parent == me && t[i].state == ZOMBIE ==> ZombieChild(t, me, i);
    }
  }

  lemma ExitKeeps(t: Table, init: nat, nextpid: int, me: nat)
    requires Tree(t, init, nextpid) && me < |t| && t[me].state == RUNNING && me != init
    ensures Tree(Exited(t, me, init), init, nextpid)
  {
    var t1 := WakeAll(t, OfProc(t[me].parent));
    WakeKeeps(t, init, nextpid, OfProc(t[me].parent));
    assert HasZombie(t1, me) ==> HasZombie(t, me) by {
      assert forall i :: ZombieChild(t1, me, i) ==> ZombieChild(t, me, i);
    }
    if HasZombie(t, me) {
      WakeKeeps(t1, init, nextpid, OfProc(init));
      GoneKeeps(WakeAll(t1, OfProc(init)), init, nextpid, me);
    } else {
      GoneKeeps(t1, init, nextpid, me);
    }
  }

  lemma ReapKeeps(t: Table, init: nat, nextpid: int, me: nat, k: nat)
    requires Tree(t, init, nextpid) && me < |t| && ZombieChild(t, me, k)
    ensures Tree(Reaped(t, k), init, nextpid)
  {
    var r := Reaped(t, k);
    forall i: nat | i < |r| ensures Entry(r, init, nextpid, i) && (t[i].state != UNUSED ==> t[i].pid > 0) {
      assert Entry(t, init, nextpid, i);
    }
  }

  lemma WaitSleepKeeps(t: Table, init: nat, nextpid: int, me: nat)
    requires Tree(t, init, nextpid) && me < |t| && t[me].state == RUNNING && !HasZombie(t, me)
    ensures Tree(WaitSlept(t, me), init, nextpid)
  {
    var r := WaitSlept(t, me);
    forall i: nat | i < |r| ensures Entry(r, init, nextpid, i) {
      assert !ZombieChild(t, me, i);
      assert Entry(t, init, nextpid, i);
    }
  }

  lemma KillKeeps(t: Table, init: nat, nextpid: int, k: nat)
    requires Tree(t, init, nextpid) && k < |t|
    ensures Tree(KilledAt(t, k), init, nextpid)
  {
    var r := KilledAt(t, k);
    forall i: nat | i < |r| ensures Entry(r, init, nextpid, i) {
      assert Entry(t, init, nextpid, i);
    }
  }

  lemma WakeKeeps(t: Table, init: nat, nextpid: int, chan: Chan)
    requires Tree(t, init, nextpid)
    ensures Tree(WakeAll(t, chan), init, nextpid)
  {
    var r := WakeAll(t, chan);
    forall i: nat | i < |r| ensures Entry(r, init, nextpid, i) {
      assert Entry(t, init, nextpid, i);
    }
  }

  /** A process asleep in wait() has no zombie child. */
  lemma WaiterHasNoZombie(t: Table, init: nat, nextpid: int, i: nat)
    requires Tree(t, init, nextpid) && i < |t| && WaitsFor(t, i)
    ensures !HasZombie(t, i)
  {
    forall k: nat | k < |t| ensures !ZombieChild(t, i, k) {
      assert Entry(t, init, nextpid, k);
    }
  }

  // Whole runs: the critical sections above in any order, with what the scheduler and other sleeps do.

  datatype Event =
    | Fork(me: nat, slot: nat) | ForkNoMemory(slot: nat) | Exit(me: nat)
    | Reap(me: nat, slot: nat) | WaitSleep(me: nat) | Kill(slot: nat) | Wakeup(chan: Chan)
    | Dispatch(me: nat) | Yield(me: nat) | SleepOn(me: nat, x: int) | Tidy(me: nat)

  predicate RunningAt(t: Table, p: nat) {
    p < |t| && t[p].state == RUNNING
  }

  predicate Can(t: Table, init: nat, e: Event) {
    match e
    case Fork(me, slot) => RunningAt(t, me) && FirstUnused(t, slot)
    case ForkNoMemory(slot) => FirstUnused(t, slot)
    case Exit(me) => RunningAt(t, me) && me != init
    case Reap(me, slot) => RunningAt(t, me) && FirstZombie(t, me, slot)
    case WaitSleep(me) => RunningAt(t, me) && !HasZombie(t, me) && HasKids(t, me) && !t[me].killed
    case Kill(slot) => slot < |t| && FirstPid(t, t[slot].pid, slot)
    case Wakeup(chan) => true
    case Dispatch(me) => me < |t| && t[me].state == RUNNABLE
    case Yield(me) => RunningAt(t, me)
    case SleepOn(me, _) => RunningAt(t, me)
    case Tidy(me) => RunningAt(t, me)
  }

  function After(t: Table, init: nat, nextpid: int, e: Event): (r: Table)
    requires Can(t, init, e)
  {
    match e
    case Fork(me, slot) => Forked(t, me, slot, nextpid)
    case ForkNoMemory(slot) => ForkFailed(t, slot, nextpid)
    case Exit(me) => Exited(t, me, init)
    case Reap(me, slot) => Reaped(t, slot)
    case WaitSleep(me) => WaitSlept(t, me)
    case Kill(slot) => KilledAt(t, slot)
    case Wakeup(chan) => WakeAll(t, chan)
    case Dispatch(me) => t[me := t[me].(state := RUNNING)]
    case Yield(me) => t[me := t[me].(state := RUNNABLE)]
    case SleepOn(me, x) => t[me := t[me].(state := SLEEPING, chan := Other(x))]
    case Tidy(me) => t[me := t[me].(chan := NoChan)]
  }

  function PidAfter(nextpid: int, e: Event): (r: int) {
    if e.Fork? || e.ForkNoMemory? then nextpid + 1 else nextpid
  }

  lemma MovedKeeps(t: Table, init: nat, nextpid: int, e: Event)
    requires Tree(t, init, nextpid) && Can(t, init, e) && (e.Dispatch? || e.Yield? || e.SleepOn? || e.Tidy?)
    ensures Tree(After(t, init, nextpid, e), init, nextpid)
  {
    var r := After(t, init, nextpid, e);
    forall i: nat | i < |r| ensures Entry(r, init, nextpid, i) {
      assert Entry(t, init, nextpid, i);
    }
  }

  lemma EventKeeps(t: Table, init: nat, nextpid: int, e: Event)
    requires Tree(t, init, nextpid) && Can(t, init, e)
    ensures Tree(After(t, init, nextpid, e), init, PidAfter(nextpid, e))
  {
    match e
    case Fork(me, slot) => ForkKeeps(t, init, nextpid, me, slot);
    case ForkNoMemory(slot) => ForkFailedKeeps(t, init, nextpid, slot);
    case Exit(me) => ExitKeeps(t, init, nextpid, me);
    case Reap(me, slot) => ReapKeeps(t, init, nextpid, me, slot);
    case WaitSleep(me) => WaitSleepKeeps(t, init, nextpid, me);
    case Kill(slot) => KillKeeps(t, init, nextpid, slot);
    case Wakeup(chan) => WakeKeeps(t, init, nextpid, chan);
    case Dispatch(_) | Yield(_) | SleepOn(_, _) | Tidy(_) => MovedKeeps(t, init, nextpid, e);
  }

  ghost predicate Leads(t: Table, init: nat, nextpid: int, es: seq<Event>, t': Table, nextpid': int)
    decreases |es|
  {
    if es == [] then t' == t && nextpid' == nextpid
    else
      && Can(t, init, es[0])
      && Leads(After(t, init, nextpid, es[0]), init, PidAfter(nextpid, es[0]), es[1..], t', nextpid')
  }

  /** The table after userinit(): one process, no parent. */
  predicate Booted(t: Table, init: nat, nextpid: int) {
    && init < |t| && t[init] == Proc(RUNNABLE, 1, -1, NoChan, false) && nextpid == 2
    && forall i :: 0 <= i < |t| && i != init ==> t[i] == Proc(UNUSED, 0, -1, NoChan, false)
  }

  lemma {:induction false} TreeAlways(t: Table, init: nat, nextpid: int, es: seq<Event>, t': Table, nextpid': int)
    requires Tree(t, init, nextpid) && Leads(t, init, nextpid, es, t', nextpid')
    ensures Tree(t', init, nextpid')
    decreases |es|
  {
    if es != [] {
      EventKeeps(t, init, nextpid, es[0]);
      TreeAlways(After(t, init, nextpid, es[0]), init, PidAfter(nextpid, es[0]), es[1..], t', nextpid');
    }
  }

  /** In every run from boot: parents are live, pids of processes differ, and nobody sleeps in wait()
      beside a zombie child. */
  lemma TreeFromBoot(t: Table, init: nat, nextpid: int, es: seq<Event>, t': Table, nextpid': int, i: nat)
    requires Booted(t, init, nextpid) && Leads(t, init, nextpid, es, t', nextpid') && i < |t'|
    ensures init < |t'|
    ensures t'[i].state != UNUSED && i != init ==> 0 <= t'[i].parent < |t'| && Live(t'[t'[i].parent])
    ensures forall j: nat :: j < |t'| && j != i && t'[i].state != UNUSED ==> t'[i].pid != t'[j].pid
    ensures WaitsFor(t', i) ==> !HasZombie(t', i)
  {
    BootedTree(t, init, nextpid);
    TreeAlways(t, init, nextpid, es, t', nextpid');
    assert Entry(t', init, nextpid', i);
    if WaitsFor(t', i) {
      WaiterHasNoZombie(t', init, nextpid', i);
    }
  }

  // kill() and slots that are not in use.

  predicate NoneMarked(t: Table) {
    forall i :: 0 <= i < |t| && t[i].state == UNUSED ==> !t[i].killed
  }

  /** pid is the pid of a process. */
  predicate IsProcess(t: Table, pid: int) {
    exists i :: 0 <= i < |t| && t[i].state != UNUSED && t[i].pid == pid
  }

  /** The table after kill(pid). */
  ghost predicate Kills(t: Table, pid: int, r: Table) {
    if NoPid(t, pid) then r == t else exists k: nat :: FirstPid(t, pid, k) && r == KilledAt(t, k)
  }

  /** kill() compares pids only.  It leaves every free slot unmarked exactly if pid is a process's or in no
      slot at all: pids of processes are in no free slot, so it cannot take one for the other. */
  lemma KillMarksExactly(t: Table, init: nat, nextpid: int, pid: int, r: Table)
    requires Tree(t, init, nextpid) && NoneMarked(t) && Kills(t, pid, r)
    ensures NoneMarked(r) <==> IsProcess(t, pid) || NoPid(t, pid)
  {
    if !NoPid(t, pid) {
      var k: nat :| FirstPid(t, pid, k) && r == KilledAt(t, k);
      if IsProcess(t, pid) {
        var i :| 0 <= i < |t| && t[i].state != UNUSED && t[i].pid == pid;
        assert i == k;
      } else {
        assert r[k].killed && r[k].state == UNUSED;
      }
    }
  }

  /** Every kill() of the run that finds a slot is given the pid of a process. */
  ghost predicate KillsProcesses(t: Table, init: nat, nextpid: int, es: seq<Event>)
    decreases |es|
  {
    es == [] || (Can(t, init, es[0]) && (es[0].Kill? ==> IsProcess(t, t[es[0].slot].pid))
                 && KillsProcesses(After(t, init, nextpid, es[0]), init, PidAfter(nextpid, es[0]), es[1..]))
  }

  lemma EventMarksNone(t: Table, init: nat, nextpid: int, e: Event)
    requires Tree(t, init, nextpid) && NoneMarked(t) && Can(t, init, e)
    requires e.Kill? ==> IsProcess(t, t[e.slot].pid)
    ensures NoneMarked(After(t, init, nextpid, e))
    ensures e.Fork? ==> !After(t, init, nextpid, e)[e.slot].killed
  {
    if e.Kill? {
      assert Kills(t, t[e.slot].pid, After(t, init, nextpid, e));
      KillMarksExactly(t, init, nextpid, t[e.slot].pid, After(t, init, nextpid, e));
    }
  }

  /** In every run from boot whose kills are given pids of processes, no process is born killed. */
  lemma {:induction false} BornAlive(t: Table, init: nat, nextpid: int, es: seq<Event>, n: nat, t': Table, next': int)
    requires Tree(t, init, nextpid) && NoneMarked(t) && KillsProcesses(t, init, nextpid, es)
    requires n < |es| && es[n].Fork? && Leads(t, init, nextpid, es[..n], t', next')
    ensures Can(t', init, es[n]) && !After(t', init, next', es[n])[es[n].slot].killed
    decreases n
  {
    EventMarksNone(t, init, nextpid, es[0]);
    if n > 0 {
      EventKeeps(t, init, nextpid, es[0]);
      assert es[..n][0] == es[0] && es[..n][1..] == es[1..][..n - 1];
      BornAlive(After(t, init, nextpid, es[0]), init, PidAfter(nextpid, es[0]), es[1..], n - 1, t', next');
    }
  }

  lemma BootedTree(t: Table, init: nat, nextpid: int)
    requires Booted(t, init, nextpid)
    ensures Tree(t, init, nextpid) && NoneMarked(t)
  {
    forall k: nat | k < |t| ensures Entry(t, init, nextpid, k) {}
  }

  /** kill() of a pid that only a free slot holds ends in a process born killed: when the slot's turn
      comes, fork() takes it as it is. */
  lemma MarkedIsBornKilled(t: Table, init: nat, nextpid: int, pid: int, k: nat, r: Table, me: nat)
    requires Tree(t, init, nextpid) && FirstPid(t, pid, k) && !IsProcess(t, pid) && Kills(t, pid, r)
    requires FirstUnused(t, k) && RunningAt(t, me)
    ensures Can(r, init, Fork(me, k)) && After(r, init, nextpid, Fork(me, k))[k].killed
  {
    var j: nat :| FirstPid(t, pid, j) && r == KilledAt(t, j);
  }

  /** kill(0) finds a slot that was never used, and the next fork() uses it. */
  lemma KillZero()
    ensures var t := [Proc(RUNNING, 1, -1, NoChan, false), Proc(UNUSED, 0, -1, NoChan, false)];
            && Tree(t, 0, 2) && NoneMarked(t) && FirstPid(t, 0, 1)
            && FirstUnused(KilledAt(t, 1), 1) && Forked(KilledAt(t, 1), 0, 1, 2)[1].killed
  {}

  // The loop of exit() over the table.

  predicate ZombieBelow(t: Table, me: int, n: nat) {
    exists i :: 0 <= i < n && ZombieChild(t, me, i)
  }

  /** The first n entries have been passed to init where they were me's. */
  function Adopting(t: Table, me: nat, init: nat, n: nat): (r: Table) {
    seq(|t|, i requires 0 <= i < |t| =>
      var pr := if ZombieBelow(t, me, n) then WokenBy(t[i], OfProc(init)) else t[i];
      if i < n && pr.parent == me then pr.(parent := init) else pr)
  }

  lemma AdoptOne(t: Table, me: nat, init: nat, n: nat)
    requires n < |t| && me != init
    ensures ZombieBelow(t, me, n + 1) <==> ZombieBelow(t, me, n) || ZombieChild(t, me, n)
    ensures var a := Adopting(t, me, init, n);
            && a[n].parent == t[n].parent && (a[n].state == ZOMBIE <==> t[n].state == ZOMBIE)
            && var b := if t[n].parent == me then a[n := a[n].(parent := init)] else a;
            Adopting(t, me, init, n + 1) == if ZombieChild(t, me, n) then WakeAll(b, OfProc(init)) else b
  {}

  lemma AllAdopted(t: Table, t1: Table, me: nat, init: nat)
    requires me < |t| && t[me].state == RUNNING && t1 == WakeAll(t, OfProc(t[me].parent))
    ensures var a := Adopting(t1, me, init, |t1|);
            a[me := a[me].(state := ZOMBIE)] == Exited(t, me, init)
  {
    assert forall i :: ZombieChild(t1, me, i) <==> ZombieChild(t, me, i);
    assert ZombieBelow(t1, me, |t1|) <==> HasZombie(t, me);
  }

  datatype WaitResult = Got(pid: int) | None | Sleeps

  class ProcessTable {
    const procs: array<Proc>
    const init: nat
    var nextpid: int

    constructor (n: nat)
      requires n > 0
      ensures fresh(procs) && Booted(procs[..], init, nextpid) && Tree(procs[..], init, nextpid)
    {
      procs := new Proc[n](i => if i == 0 then Proc(RUNNABLE, 1, -1, NoChan, false)
                                else Proc(UNUSED, 0, -1, NoChan, false));
      init := 0;
      nextpid := 2;
      new;
      forall i: nat | i < |procs[..]| ensures Entry(procs[..], init, nextpid, i) {}
    }

    method Wakeup1(chan: Chan)
      modifies procs
      ensures procs[..] == WakeAll(old(procs[..]), chan)
      ensures forall k :: 0 <= k < procs.Length ==>
                var was := old(procs[..])[k];
                procs[k] == if was.state == SLEEPING && was.chan == chan then was.(state := RUNNABLE) else was
    {
      var i := 0;
      while i < procs.Length
        invariant 0 <= i <= procs.Length
        invariant forall k :: 0 <= k < i ==> procs[k] == WokenBy(old(procs[..])[k], chan)
        invariant forall k :: i <= k < procs.Length ==> procs[k] == old(procs[..])[k]
      {
        if procs[i].state == SLEEPING && procs[i].chan == chan {
          procs[i] := procs[i].(state := RUNNABLE);
        }
        i := i + 1;
      }
    }

    /** allocproc(): kstack says whether kalloc() finds a page.  -1 is failure. */
    method Allocproc(kstack: bool) returns (k: int)
      modifies this, procs
      ensures k == -1 || 0 <= k < procs.Length
      ensures k >= 0 ==> kstack && FirstUnused(old(procs[..]), k) && nextpid == old(nextpid) + 1
      ensures k >= 0 ==> procs[..] == old(procs[..])[k := old(procs[..])[k].(state := EMBRYO, pid := old(nextpid))]
      ensures k == -1 && !Full(old(procs[..])) ==>
        (!kstack && nextpid == old(nextpid) + 1
         && exists j :: FirstUnused(old(procs[..]), j) && procs[..] == ForkFailed(old(procs[..]), j, old(nextpid)))
      ensures Full(old(procs[..])) ==> k == -1 && procs[..] == old(procs[..]) && nextpid == old(nextpid)
    {
      k := 0;
      while k < procs.Length && procs[k].state != UNUSED
        invariant 0 <= k <= procs.Length
        invariant forall i :: 0 <= i < k ==> procs[i].state != UNUSED
      {
        k := k + 1;
      }
      if k == procs.Length {
        return -1;
      }
      ghost var t := procs[..];
      assert FirstUnused(t, k);
      procs[k] := procs[k].(state := EMBRYO, pid := nextpid);
      nextpid := nextpid + 1;
      if !kstack {
        procs[k] := procs[k].(state := UNUSED);
        assert procs[..] == ForkFailed(t, k, old(nextpid));
        return -1;
      }
    }

    /** fork() by me; copied says whether copyuvm() succeeds. */
    method Fork(me: nat, kstack: bool, copied: bool) returns (pid: int)
      requires Tree(procs[..], init, nextpid) && RunningAt(procs[..], me)
      modifies this, procs
      ensures Tree(procs[..], init, nextpid)
      ensures pid >= 0 <==> !Full(old(procs[..])) && kstack && copied
      ensures pid >= 0 ==>
        (pid == old(nextpid)
         && exists k :: FirstUnused(old(procs[..]), k) && procs[..] == Forked(old(procs[..]), me, k, pid))
      ensures pid >= 0 ==>
        exists k: nat :: FirstUnused(old(procs[..]), k)
          && procs[k] == old(procs[..])[k].(state := RUNNABLE, pid := pid, parent := me)
          && forall j :: 0 <= j < procs.Length && j != k ==> procs[j] == old(procs[..])[j]
      ensures pid < 0 ==>
        (pid == -1
         && (procs[..] == old(procs[..])
             || exists k :: FirstUnused(old(procs[..]), k) && procs[..] == ForkFailed(old(procs[..]), k, old(nextpid))))
    {
      ghost var t, next := procs[..], nextpid;
      var k := Allocproc(kstack);
      if k == -1 {
        if !Full(t) {
          ghost var j :| FirstUnused(t, j) && procs[..] == ForkFailed(t, j, next);
          ForkFailedKeeps(t, init, next, j);
        }
        return -1;
      }
      if !copied {
        procs[k] := procs[k].(state := UNUSED);
        assert procs[..] == ForkFailed(t, k, next);
        ForkFailedKeeps(t, init, next, k);
        return -1;
      }
      procs[k] := procs[k].(parent := me);
      pid := procs[k].pid;
      procs[k] := procs[k].(state := RUNNABLE);
      assert procs[..] == Forked(t, me, k, next);
      ForkKeeps(t, init, next, me, k);
    }

    /** A pass of the loop of exit(). */
    method Adopt(me: nat, i: nat, ghost t: Table)
      requires i < procs.Length && me != init && procs[..] == Adopting(t, me, init, i)
      modifies procs
      ensures procs[..] == Adopting(t, me, init, i + 1)
    {
      AdoptOne(t, me, init, i);
      if procs[i].parent == me {
        procs[i] := procs[i].(parent := init);
        if procs[i].state == ZOMBIE {
          Wakeup1(OfProc(init));
        }
      }
    }

    /** exit() by me, up to sched(); false is the panic of init exiting. */
    method Exit(me: nat) returns (ok: bool)
      requires Tree(procs[..], init, nextpid) && RunningAt(procs[..], me)
      modifies procs
      ensures ok <==> me != init
      ensures procs[..] == if ok then Exited(old(procs[..]), me, init) else old(procs[..])
      ensures Tree(procs[..], init, nextpid)
    {
      if me == init {
        return false;
      }
      ghost var t := procs[..];
      ExitKeeps(t, init, nextpid, me);
      Wakeup1(OfProc(procs[me].parent));
      ghost var t1 := procs[..];
      var i := 0;
      while i < procs.Length
        invariant 0 <= i <= procs.Length && procs[..] == Adopting(t1, me, init, i)
      {
        Adopt(me, i, t1);
        i := i + 1;
      }
      procs[me] := procs[me].(state := ZOMBIE);
      AllAdopted(t, t1, me, init);
      ok := true;
    }

    /** One round of wait() by me, to where it returns or sleeps. */
    method Wait(me: nat) returns (r: WaitResult)
      requires Tree(procs[..], init, nextpid) && RunningAt(procs[..], me)
      modifies procs
      ensures Tree(procs[..], init, nextpid)
      ensures r.Got? <==> HasZombie(old(procs[..]), me)
      ensures r.Got? ==>
        exists k: nat :: FirstZombie(old(procs[..]), me, k) && r.pid == old(procs[..])[k].pid
                         && procs[..] == Reaped(old(procs[..]), k)
                         && procs[k] == old(procs[..])[k].(state := UNUSED, pid := 0, parent := -1, killed := false)
                         && forall j :: 0 <= j < procs.Length && j != k ==> procs[j] == old(procs[..])[j]
      ensures r.None? ==> (!HasKids(old(procs[..]), me) || old(procs[..])[me].killed) && procs[..] == old(procs[..])
      ensures r.Sleeps? ==> !old(procs[..])[me].killed
      ensures r.Sleeps? ==> HasKids(old(procs[..]), me) && procs[..] == WaitSlept(old(procs[..]), me)
      ensures r.Sleeps? ==> procs[me] == old(procs[..])[me].(state := SLEEPING, chan := OfProc(me))
    {
      ghost var t := procs[..];
      var havekids := false;
      var p := 0;
      while p < procs.Length
        invariant 0 <= p <= procs.Length && procs[..] == t
        invariant havekids <==> exists i :: 0 <= i < p && t[i].parent == me
        invariant forall i :: 0 <= i < p ==> !ZombieChild(t, me, i)
      {
        if procs[p].parent == me {
          havekids := true;
          if procs[p].state == ZOMBIE {
            var pid := procs[p].pid;
            assert FirstZombie(t, me, p);
            ReapKeeps(t, init, nextpid, me, p);
            procs[p] := procs[p].(pid := 0, parent := -1, killed := false, state := UNUSED);
            assert procs[..] == Reaped(t, p);
            return Got(pid);
          }
        }
        p := p + 1;
      }
      if !havekids || procs[me].killed {
        return None;
      }
      WaitSleepKeeps(t, init, nextpid, me);
      procs[me] := procs[me].(chan := OfProc(me), state := SLEEPING);
      assert procs[..] == WaitSlept(t, me);
      r := Sleeps;
    }

    /** kill(): the first entry with that pid, whatever its state. */
    method Kill(pid: int) returns (ok: bool)
      requires Tree(procs[..], init, nextpid)
      modifies procs
      ensures Tree(procs[..], init, nextpid)
      ensures ok <==> !NoPid(old(procs[..]), pid)
      ensures !ok ==> procs[..] == old(procs[..])
      ensures ok ==> exists k: nat ::
                && FirstPid(old(procs[..]), pid, k)
                && (var was := old(procs[..])[k];
                    procs[k] == was.(killed := true, state := if was.state == SLEEPING then RUNNABLE else was.state))
                && forall j :: 0 <= j < procs.Length && j != k ==> procs[j] == old(procs[..])[j]
      ensures Kills(old(procs[..]), pid, procs[..])
    {
      ghost var t := procs[..];
      var p := 0;
      while p < procs.Length
        invariant 0 <= p <= procs.Length && procs[..] == t
        invariant forall i :: 0 <= i < p ==> t[i].pid != pid
      {
        if procs[p].pid == pid {
          assert FirstPid(t, pid, p);
          KillKeeps(t, init, nextpid, p);
          procs[p] := procs[p].(killed := true);
          if procs[p].state == SLEEPING {
            procs[p] := procs[p].(state := RUNNABLE);
          }
          assert procs[..] == KilledAt(t, p);
          return true;
        }
        p := p + 1;
      }
      ok := false;
    }
  }
}
