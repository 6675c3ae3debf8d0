/** pipe.c: a bounded byte queue with counters that wrap around, and the sleeping and waking of
    its readers and writers. */
module Pipe {

  const PIPESIZE: nat := 512
  /** The counters are 32-bit. */
  const WRAP: nat := 0x1_0000_0000

  type Bytes = seq<int>

  lemma WrapEqual(w: nat, r: nat)
    requires r <= w < r + WRAP
    ensures w % WRAP == r % WRAP <==> w == r
  {}

  lemma WrapSum(r: nat, n: nat)
    ensures (r % WRAP + n) % WRAP == (r + n) % WRAP
  {}

  lemma WrapCell(w: nat)
    ensures w % WRAP % PIPESIZE == w % PIPESIZE
  {}

  /** The counter tests and the buffer index mean what they say although the counters wrap: w bytes
      have been written and r read, at most PIPESIZE of them still in the pipe. */
  lemma CountersMean(w: nat, r: nat)
    requires r <= w <= r + PIPESIZE
    ensures w % WRAP == r % WRAP <==> w == r
    ensures w % WRAP == (r % WRAP + PIPESIZE) % WRAP <==> w == r + PIPESIZE
    ensures w % WRAP % PIPESIZE == w % PIPESIZE
    ensures (w % WRAP + 1) % WRAP == (w + 1) % WRAP
  {
    WrapEqual(w, r);
    WrapSum(r, PIPESIZE);
    WrapEqual(r + PIPESIZE, w);
    WrapCell(w);
    WrapSum(w, 1);
  }

  /** Two positions less than PIPESIZE apart use different cells. */
  lemma CellsDiffer(i: nat, j: nat)
    requires i < j < i + PIPESIZE
    ensures i % PIPESIZE != j % PIPESIZE
  {}

  class Buffer {
    const data: array<int>
    var nread: nat
    var nwrite: nat
    /** Every byte ever written, and how many of them have been read. */
    ghost var written: Bytes
    ghost var taken: nat

    ghost predicate Valid()
      reads this, data
    {
      && data.Length == PIPESIZE
      && taken <= |written| <= taken + PIPESIZE
      && nread == taken % WRAP && nwrite == |written| % WRAP
      && forall i :: taken <= i < |written| ==> data[i % PIPESIZE] == written[i]
    }

    constructor ()
      ensures Valid() && fresh(data) && written == [] && taken == 0
    {
      data := new int[PIPESIZE](_ => 0);
      nread, nwrite := 0, 0;
      written, taken := [], 0;
    }

    /** The store of pipewrite(). */
    method PutByte(c: int)
      requires Valid() && |written| < taken + PIPESIZE
      modifies this`nwrite, this`written, data
      ensures Valid() && written == old(written) + [c]
    {
      CountersMean(|written|, taken);
      forall i | taken <= i < |written|
        ensures i % PIPESIZE != |written| % PIPESIZE
      {
        CellsDiffer(i, |written|);
      }
      data[nwrite % PIPESIZE] := c;
      nwrite := (nwrite + 1) % WRAP;
      written := written + [c];
    }

    /** The load of piperead(). */
    method TakeByte() returns (c: int)
      requires Valid() && taken < |written|
      modifies this`nread, this`taken
      ensures Valid() && taken == old(taken) + 1 && c == written[old(taken)]
    {
      CountersMean(taken, taken);
      c := data[nread % PIPESIZE];
      nread := (nread + 1) % WRAP;
      taken := taken + 1;
    }

    method IsFull() returns (full: bool)
      requires Valid()
      ensures full <==> |written| == taken + PIPESIZE
    {
      CountersMean(|written|, taken);
      full := nwrite == (nread + PIPESIZE) % WRAP;
    }

    /** pipewrite()'s loop from byte i until all is written or the pipe is full. */
    method WriteFrom(addr: Bytes, i: nat) returns (k: nat)
      requires Valid() && i <= |addr|
      modifies this`nwrite, this`written, data
      ensures Valid() && k == WriteTo(|old(written)|, taken, addr, i)
      ensures written == old(written) + addr[i..k]
    {
      k := i;
      var full := IsFull();
      while k < |addr| && !full
        invariant Valid() && i <= k <= |addr|
        invariant written == old(written) + addr[i..k]
        invariant full <==> |written| == taken + PIPESIZE
      {
        PutByte(addr[k]);
        k := k + 1;
        full := IsFull();
      }
    }

    /** piperead()'s copy loop. */
    method ReadUpTo(n: nat) returns (out: Bytes)
      requires Valid()
      modifies this`nread, this`taken
      ensures Valid() && taken == old(taken) + |out|
      ensures |out| == ReadCount(|written|, old(taken), n)
      ensures out == written[old(taken)..taken]
    {
      out := [];
      CountersMean(|written|, taken);
      while |out| < n && nread != nwrite
        invariant Valid() && |out| <= n && taken == old(taken) + |out|
        invariant nread == nwrite <==> taken == |written|
        invariant out == written[old(taken)..taken]
      {
        var c := TakeByte();
        out := out + [c];
        CountersMean(|written|, taken);
      }
    }
  }

  /** How far a write of addr from byte i gets when w bytes have been written and r read. */
  function WriteTo(w: nat, r: nat, addr: Bytes, i: nat): (k: nat)
    requires r <= w <= r + PIPESIZE && i <= |addr|
    ensures i <= k <= |addr| && w + (k - i) <= r + PIPESIZE
    ensures k == |addr| || w + (k - i) == r + PIPESIZE
  {
    if |addr| - i <= r + PIPESIZE - w then |addr| else i + (r + PIPESIZE - w)
  }

  /** How many bytes a read of at most n gets. */
  function ReadCount(w: nat, r: nat, n: nat): (k: nat)
    requires r <= w
    ensures k <= n && r + k <= w && (k == n || r + k == w)
  {
    if n <= w - r then n else w - r
  }

  // Readers and writers.

  /** Where a process is with respect to the pipe; Ready means woken and about to look again. */
  datatype Proc =
    | Idle
    | WriteSleep(addr: Bytes, i: nat)
    | WriteReady(addr: Bytes, i: nat)
    | ReadSleep(n: nat)
    | ReadReady(n: nat)

  /** written and taken as in Buffer; delivered is everything the readers were given, in order. */
  datatype State = State(
    written: Bytes, taken: nat, delivered: Bytes,
    readopen: bool, writeopen: bool, procs: seq<Proc>, killed: set<nat>)

  /** Each action is one stretch of pipe.c with p->lock held, or a kill(). */
  datatype Action =
    | Write(p: nat, addr: Bytes)
    | WriteAgain(p: nat)
    | Read(p: nat, n: nat)
    | ReadAgain(p: nat)
    | CloseRead
    | CloseWrite
    | Kill(p: nat)

  predicate IsReading(x: Proc) {
    x.ReadSleep? || x.ReadReady?
  }

  predicate IsWriting(x: Proc) {
    x.WriteSleep? || x.WriteReady?
  }

  function WakeReader(x: Proc): (y: Proc) {
    if x.ReadSleep? then ReadReady(x.n) else x
  }

  function WakeWriter(x: Proc): (y: Proc) {
    if x.WriteSleep? then WriteReady(x.addr, x.i) else x
  }

  /** wakeup(&p->nread) */
  function WakeReaders(ps: seq<Proc>): (r: seq<Proc>)
    ensures |r| == |ps|
  {
    seq(|ps|, i requires 0 <= i < |ps| => WakeReader(ps[i]))
  }

  /** wakeup(&p->nwrite) */
  function WakeWriters(ps: seq<Proc>): (r: seq<Proc>)
    ensures |r| == |ps|
  {
    seq(|ps|, i requires 0 <= i < |ps| => WakeWriter(ps[i]))
  }

  predicate InFlight(s: State) {
    s.taken <= |s.written| <= s.taken + PIPESIZE
  }

  /** A descriptor stays open while a process that has it is inside a read or write. */
  predicate Enabled(s: State, a: Action) {
    && InFlight(s)
    && match a
       case Write(p, _) => p < |s.procs| && s.procs[p].Idle? && s.writeopen
       case WriteAgain(p) => p < |s.procs| && s.procs[p].WriteReady? && s.procs[p].i <= |s.procs[p].addr|
       case Read(p, _) => p < |s.procs| && s.procs[p].Idle? && s.readopen
       case ReadAgain(p) => p < |s.procs| && s.procs[p].ReadReady?
       case CloseRead => forall i :: 0 <= i < |s.procs| ==> !IsReading(s.procs[i])
       case CloseWrite => forall i :: 0 <= i < |s.procs| ==> !IsWriting(s.procs[i])
       case Kill(p) => p < |s.procs|
  }

  /** pipewrite() by p from byte i until it returns or sleeps. */
  function DoWrite(s: State, p: nat, addr: Bytes, i: nat): (t: State)
    requires InFlight(s) && p < |s.procs| && i <= |addr|
  {
    var k := WriteTo(|s.written|, s.taken, addr, i);
    var t := s.(written := s.written + addr[i..k], procs := s.procs[p := Idle]);
    if k == |addr| then t.(procs := WakeReaders(t.procs))
    else if !s.readopen || p in s.killed then t
    else t.(procs := WakeReaders(t.procs)[p := WriteSleep(addr, k)])
  }

  /** piperead() by p until it returns or sleeps. */
  function DoRead(s: State, p: nat, n: nat): (t: State)
    requires InFlight(s) && p < |s.procs|
  {
    if s.taken == |s.written| && s.writeopen then
      s.(procs := s.procs[p := if p in s.killed then Idle else ReadSleep(n)])
    else
      var k := ReadCount(|s.written|, s.taken, n);
      s.(taken := s.taken + k, delivered := s.delivered + s.written[s.taken..s.taken + k],
         procs := WakeWriters(s.procs[p := Idle]))
  }

  function After(s: State, a: Action): (t: State)
    requires Enabled(s, a)
  {
    match a
    case Write(p, addr) => DoWrite(s, p, addr, 0)
    case WriteAgain(p) => DoWrite(s, p, s.procs[p].addr, s.procs[p].i)
    case Read(p, n) => DoRead(s, p, n)
    case ReadAgain(p) => DoRead(s, p, s.procs[p].n)
    case CloseRead => s.(readopen := false, procs := WakeWriters(s.procs))
    case CloseWrite => s.(writeopen := false, procs := WakeReaders(s.procs))
    case Kill(p) =>
      s.(killed := s.killed + {p}, procs := s.procs[p := WakeReader(WakeWriter(s.procs[p]))])
  }

  /** First in, first out: the readers got a prefix of what was written. */
  predicate Fifo(s: State) {
    InFlight(s) && s.delivered == s.written[..s.taken]
  }

  /** Sleepers have a reason to sleep: a sleeping reader means an empty pipe with its write end
      open, a sleeping writer a full one with its read end open. */
  predicate SleepersWait(s: State) {
    && (forall i :: 0 <= i < |s.procs| && s.procs[i].ReadSleep? ==> s.taken == |s.written| && s.writeopen)
    && (forall i :: 0 <= i < |s.procs| && s.procs[i].WriteSleep? ==>
          |s.written| == s.taken + PIPESIZE && s.readopen)
  }

  predicate EndsOpen(s: State) {
    forall i :: 0 <= i < |s.procs| ==>
      && (IsReading(s.procs[i]) ==> s.readopen)
      && (IsWriting(s.procs[i]) ==> s.writeopen && s.procs[i].i <= |s.procs[i].addr|)
  }

  predicate Inv(s: State) {
    Fifo(s) && SleepersWait(s) && EndsOpen(s)
  }

  /** pipewrite()'s early return for a killed process: it has filled the pipe, does not wake the
      readers, and one is asleep. */
  predicate Strands(s: State, a: Action)
    requires Enabled(s, a)
  {
    var i := if a.WriteAgain? then s.procs[a.p].i else 0;
    && (a.Write? || a.WriteAgain?)
    && (var addr := if a.Write? then a.addr else s.procs[a.p].addr;
        var k := WriteTo(|s.written|, s.taken, addr, i);
        i < k < |addr|)
    && a.p in s.killed && s.readopen
    && exists j :: 0 <= j < |s.procs| && s.procs[j].ReadSleep?
  }

  lemma WriteKeeps(s: State, p: nat, addr: Bytes, i: nat)
    requires Inv(s) && p < |s.procs| && i <= |addr| && s.writeopen && !s.procs[p].ReadSleep?
    ensures Fifo(DoWrite(s, p, addr, i)) && EndsOpen(DoWrite(s, p, addr, i))
    ensures var k := WriteTo(|s.written|, s.taken, addr, i);
            SleepersWait(DoWrite(s, p, addr, i)) <==>
            !(i < k < |addr| && s.readopen && p in s.killed && exists j :: 0 <= j < |s.procs| && s.procs[j].ReadSleep?)
  {
    var t := DoWrite(s, p, addr, i);
    var k := WriteTo(|s.written|, s.taken, addr, i);
    assert t.written[..t.taken] == s.written[..s.taken];
    if i < k < |addr| && s.readopen && p in s.killed && exists j :: 0 <= j < |s.procs| && s.procs[j].ReadSleep? {
      var j :| 0 <= j < |s.procs| && s.procs[j].ReadSleep?;
      assert t.procs[j].ReadSleep?;
    }
  }

  lemma ReadKeeps(s: State, p: nat, n: nat)
    requires Inv(s) && p < |s.procs| && s.readopen && !s.procs[p].WriteSleep?
    ensures Inv(DoRead(s, p, n))
  {}

  /** Whatever happens, bytes stay in order and the descriptors' states are right; and the sleepers
      still have a reason to sleep exactly when this is not the early return that strands a
      reader. */
  lemma StepExactly(s: State, a: Action)
    requires Inv(s) && Enabled(s, a)
    ensures Fifo(After(s, a)) && EndsOpen(After(s, a))
    ensures Inv(After(s, a)) <==> !Strands(s, a)
  {
    match a
    case Write(p, addr) => WriteKeeps(s, p, addr, 0);
    case WriteAgain(p) => WriteKeeps(s, p, s.procs[p].addr, s.procs[p].i);
    case Read(p, n) => ReadKeeps(s, p, n);
    case ReadAgain(p) => ReadKeeps(s, p, s.procs[p].n);
    case CloseRead =>
    case CloseWrite =>
    case Kill(p) =>
  }

  datatype Outcome = Reached(state: State) | Stuck

  function Exec(s: State, acts: seq<Action>): (o: Outcome)
    decreases |acts|
  {
    if acts == [] then Reached(s)
    else
      var o := Exec(s, acts[..|acts| - 1]);
      if o.Reached? && Enabled(o.state, acts[|acts| - 1])
      then Reached(After(o.state, acts[|acts| - 1]))
      else Stuck
  }

  /** A new pipe and n processes. */
  function Boot(n: nat): (s: State) {
    State([], 0, [], true, true, seq(n, _ => Idle), {})
  }

  predicate NoKill(acts: seq<Action>) {
    forall i :: 0 <= i < |acts| ==> !acts[i].Kill?
  }

  /** In every run without kill(), bytes are delivered in order, at most PIPESIZE are in flight, and
      nobody sleeps without reason; so readers and writers are never asleep together. */
  lemma {:induction false} RunsAreSafe(n: nat, acts: seq<Action>)
    requires NoKill(acts)
    ensures var o := Exec(Boot(n), acts); o.Reached? ==> Inv(o.state) && o.state.killed == {}
    decreases |acts|
  {
    if acts != [] {
      var front := acts[..|acts| - 1];
      RunsAreSafe(n, front);
      var o := Exec(Boot(n), front);
      if o.Reached? && Enabled(o.state, acts[|acts| - 1]) {
        StepExactly(o.state, acts[|acts| - 1]);
      }
    }
  }

  lemma NeverBothAsleep(s: State, i: nat, j: nat)
    requires Inv(s) && i < |s.procs| && j < |s.procs|
    ensures !(s.procs[i].ReadSleep? && s.procs[j].WriteSleep?)
  {}

  /** With kill(): bytes still come out in order in every run. */
  lemma {:induction false} FifoAlways(n: nat, acts: seq<Action>)
    ensures var o := Exec(Boot(n), acts); o.Reached? ==> Fifo(o.state)
    decreases |acts|
  {
    if acts != [] {
      var front := acts[..|acts| - 1];
      FifoAlways(n, front);
      var o := Exec(Boot(n), front);
      if o.Reached? && Enabled(o.state, acts[|acts| - 1]) {
        StepFifo(o.state, acts[|acts| - 1]);
      }
    }
  }

  lemma StepFifo(s: State, a: Action)
    requires Fifo(s) && Enabled(s, a)
    ensures Fifo(After(s, a))
  {
    var t := After(s, a);
    assert t.delivered == t.written[..t.taken];
  }

  /** A reader asleep on an empty pipe, a writer killed while it runs: the writer fills the pipe
      and returns, and the reader sleeps on beside a full pipe. */
  lemma KilledWriterStrandsReader(addr: Bytes)
    requires |addr| > PIPESIZE
    ensures var o := Exec(Boot(2), [Read(0, 1), Kill(1), Write(1, addr)]);
            && o.Reached? && o.state.procs[0].ReadSleep?
            && |o.state.written| == PIPESIZE && o.state.taken == 0
  {
    var a1, a2, a3 := Read(0, 1), Kill(1), Write(1, addr);
    var s0 := Boot(2);
    var s1 := After(s0, a1);
    var s2 := After(s1, a2);
    assert [a1][..0] == [] && [a1, a2][..1] == [a1] && [a1, a2, a3][..2] == [a1, a2];
    assert Exec(s0, []) == Reached(s0);
    assert Exec(s0, [a1]) == Reached(s1);
    assert Exec(s0, [a1, a2]) == Reached(s2);
  }
}
