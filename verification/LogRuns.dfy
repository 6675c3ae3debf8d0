/** Whole runs of the logging system: any number of operations between begin_op() and end_op(),
    group commits, and crashes anywhere, including inside recovery.

    Each action is one critical section of log.c or one block write.  current, issued and durable
    record history only: what the operations of the open group logged, what any operation ever
    logged, and the groups whose header write reached the disk. */
module LogRuns {
  import opened Disk
  import opened LogCrash

  /** One log_write() by an operation. */
  datatype Entry = Entry(op: nat, blockno: nat, data: Block)

  /** An outstanding operation and how many block numbers it has appended to log.lh. */
  datatype Op = Op(id: nat, used: nat)

  /** Where the system is: base is the disk when commit() or recovery began, done the number of
      its writes performed so far. */
  datatype Phase =
    | Running
    | Committing(base: Image, done: nat)
    | Recovering(base: Image, done: nat)

  datatype State = State(
    disk: Image, view: Image, lh: seq<nat>, ops: seq<Op>, phase: Phase, nextOp: nat,
    issued: seq<Entry>, current: seq<Entry>, durable: seq<seq<Entry>>)

  datatype Action =
    | BeginOp
    | LogWrite(k: nat, blockno: nat, data: Block)
    | EndOp(k: nat)
    | DiskWrite
    | Finish
    | Crash

  function Boot(d: Image): (s: State) {
    State(d, d, [], [], Running, 0, [], [], [])
  }

  /** log_write's "too big a transaction" panic, checked before absorption. */
  predicate WouldPanic(L: Layout, s: State) {
    |s.lh| >= LOGSIZE || |s.lh| >= L.size - 1
  }

  predicate Sound(L: Layout, s: State) {
    match s.phase
    case Running => true
    case Committing(base, done) =>
      && Fits(L, base) && |base| == |s.view| == |s.disk| && Loggable(L, s.view, s.lh)
      && done <= |CommitWrites(L, base, s.view, s.lh)|
    case Recovering(base, done) =>
      && GoodHead(L, base) && |base| == |s.disk|
      && done <= |RecoverWrites(L, base)|
  }

  /** The block writes still ahead of commit() or recovery. */
  function Pending(L: Layout, s: State): (ws: seq<Write>)
    requires Sound(L, s)
    ensures InRange(s.disk, ws)
  {
    match s.phase
    case Running => []
    case Committing(base, done) => CommitWrites(L, base, s.view, s.lh)[done..]
    case Recovering(base, done) => RecoverWrites(L, base)[done..]
  }

  predicate Enabled(L: Layout, s: State, a: Action) {
    && Sound(L, s)
    && match a
       case BeginOp => s.phase.Running? && |s.lh| + (|s.ops| + 1) * MAXOPBLOCKS <= LOGSIZE
       case LogWrite(k, b, _) =>
         s.phase.Running? && k < |s.ops| && IsHome(L, s.view, b) && !WouldPanic(L, s)
       case EndOp(k) =>
         s.phase.Running? && k < |s.ops| && Fits(L, s.disk) && |s.view| == |s.disk| && Loggable(L, s.view, s.lh)
       case DiskWrite => Pending(L, s) != []
       case Finish => !s.phase.Running? && Pending(L, s) == []
       case Crash => GoodHead(L, s.disk)
  }

  /** Log absorption: a block already listed is not listed again. */
  function Absorb(lh: seq<nat>, b: nat): (r: seq<nat>) {
    if b in lh then lh else lh + [b]
  }

  /** True when the next block write is write_head() of a commit: the real commit point. */
  predicate AtCommitPoint(s: State) {
    s.phase.Committing? && s.lh != [] && s.phase.done == |s.lh|
  }

  function After(L: Layout, s: State, a: Action): (t: State)
    requires Enabled(L, s, a)
  {
    match a
    case BeginOp =>
      s.(ops := s.ops + [Op(s.nextOp, 0)], nextOp := s.nextOp + 1)
    case LogWrite(k, b, data) =>
      var op := s.ops[k];
      var e := Entry(op.id, b, data);
      s.(view := s.view[b := data], lh := Absorb(s.lh, b),
         ops := s.ops[k := Op(op.id, if b in s.lh then op.used else op.used + 1)],
         issued := s.issued + [e], current := s.current + [e])
    case EndOp(k) =>
      var rest := s.ops[..k] + s.ops[k + 1..];
      s.(ops := rest, phase := if rest == [] then Committing(s.disk, 0) else Running)
    case DiskWrite =>
      var w := Pending(L, s)[0];
      var t := s.(disk := s.disk[w.blockno := w.data],
                  phase := if s.phase.Committing? then Committing(s.phase.base, s.phase.done + 1)
                           else Recovering(s.phase.base, s.phase.done + 1));
      if AtCommitPoint(s) then t.(durable := s.durable + [s.current], current := []) else t
    case Finish =>
      s.(phase := Running, lh := [], view := if s.phase.Committing? then s.view else s.disk)
    case Crash =>
      s.(phase := Recovering(s.disk, 0), ops := [], lh := [], current := [])
  }

  /** The state after the actions acts, if each was possible when its turn came. */
  datatype Outcome = Reached(state: State) | Stuck

  function Exec(L: Layout, s: State, acts: seq<Action>): (o: Outcome)
    decreases |acts|
  {
    if acts == [] then Reached(s)
    else
      var o := Exec(L, s, acts[..|acts| - 1]);
      if o.Reached? && Enabled(L, o.state, acts[|acts| - 1])
      then Reached(After(L, o.state, acts[|acts| - 1]))
      else Stuck
  }

  function Writes(es: seq<Entry>): (ws: seq<Write>)
    ensures |ws| == |es|
  {
    seq(|es|, i requires 0 <= i < |es| => Write(es[i].blockno, es[i].data))
  }

  function Flatten(gs: seq<seq<Entry>>): (es: seq<Entry>)
    decreases |gs|
  {
    if gs == [] then [] else Flatten(gs[..|gs| - 1]) + gs[|gs| - 1]
  }

  /** The entries of one operation, in order. */
  function Of(es: seq<Entry>, op: nat): (r: seq<Entry>)
    decreases |es|
  {
    if es == [] then []
    else if es[|es| - 1].op == op then Of(es[..|es| - 1], op) + [es[|es| - 1]]
    else Of(es[..|es| - 1], op)
  }

  lemma {:induction false} OfConcat(a: seq<Entry>, b: seq<Entry>, op: nat)
    ensures Of(a + b, op) == Of(a, op) + Of(b, op)
    decreases |b|
  {
    if b == [] {
      assert a + b == a;
    } else {
      assert (a + b)[..|a + b| - 1] == a + b[..|b| - 1];
      OfConcat(a, b[..|b| - 1], op);
    }
  }

  predicate AllHome(L: Layout, init: Image, es: seq<Entry>) {
    forall i :: 0 <= i < |es| ==> IsHome(L, init, es[i].blockno)
  }

  /** init with the log_writes es carried out directly. */
  function Play(L: Layout, init: Image, es: seq<Entry>): (d: Image)
    requires AllHome(L, init, es)
    ensures |d| == |init|
  {
    ApplyAll(init, Writes(es))
  }

  lemma PlayConcat(L: Layout, init: Image, a: seq<Entry>, b: seq<Entry>)
    requires AllHome(L, init, a) && AllHome(L, init, b)
    ensures AllHome(L, init, a + b)
    ensures Play(L, init, a + b) == Play(L, Play(L, init, a), b)
  {
    assert Writes(a + b) == Writes(a) + Writes(b);
    ApplyConcat(init, Writes(a), Writes(b), |b|);
  }

  lemma PlaySnoc(L: Layout, init: Image, a: seq<Entry>, e: Entry)
    requires AllHome(L, init, a) && IsHome(L, init, e.blockno)
    ensures AllHome(L, init, a + [e])
    ensures Play(L, init, a + [e]) == Play(L, init, a)[e.blockno := e.data]
  {
    SamePrefix(init, Writes(a), Writes(a + [e]), |a|);
  }

  // The invariant.

  /** The disk the committed groups call for. */
  function Committed(L: Layout, init: Image, s: State): (d: Image)
    requires AllHome(L, init, Flatten(s.durable))
    ensures |d| == |init|
  {
    Play(L, init, Flatten(s.durable))
  }

  ghost predicate Shape(L: Layout, init: Image, s: State) {
    && Fits(L, init) && |s.disk| == |s.view| == |init|
    && AllHome(L, init, Flatten(s.durable)) && AllHome(L, init, s.current)
    && Sound(L, s)
  }

  /** What a crash right now would recover to. */
  ghost predicate Safe(L: Layout, init: Image, s: State)
    requires Shape(L, init, s)
  {
    GoodHead(L, s.disk) && SameHome(L, Recovered(L, s.disk), Committed(L, init, s))
  }

  /** The cache holds the committed state plus the open group. */
  ghost predicate ViewIsCurrent(L: Layout, init: Image, s: State)
    requires Shape(L, init, s)
  {
    SameHome(L, s.view, Play(L, Committed(L, init, s), s.current))
  }

  /** Blocks outside lh are the same in the cache and on the disk. */
  ghost predicate CleanOffLog(L: Layout, d: Image, view: Image, lh: seq<nat>) {
    |d| == |view| && forall b {:trigger d[b]} {:trigger view[b]} :: IsHome(L, d, b) && b !in lh ==> d[b] == view[b]
  }

  ghost predicate Open(L: Layout, init: Image, s: State)
    requires Shape(L, init, s)
  {
    && Loggable(L, s.view, s.lh) && Distinct(s.lh)
    && ViewIsCurrent(L, init, s)
    && (forall i :: 0 <= i < |s.current| ==> s.current[i].blockno in s.lh)
  }

  ghost predicate PhaseInv(L: Layout, init: Image, s: State)
    requires Shape(L, init, s)
  {
    match s.phase
    case Running =>
      && Open(L, init, s)
      && s.disk[L.start].words[0] == 0 && CleanOffLog(L, s.disk, s.view, s.lh)
      && (s.ops == [] ==> s.lh == [] && s.current == [])
      && SameHome(L, s.disk, Committed(L, init, s))
    case Committing(base, done) =>
      && Open(L, init, s)
      && base[L.start].words[0] == 0 && CleanOffLog(L, base, s.view, s.lh)
      && s.ops == []
      && s.disk == ApplyFirst(base, CommitWrites(L, base, s.view, s.lh), done)
      && (done <= |s.lh| ==> SameHome(L, base, Committed(L, init, s)))
      && (done > |s.lh| ==> s.current == [])
    case Recovering(base, done) =>
      && s.ops == [] && s.current == [] && s.lh == []
      && s.disk == ApplyFirst(base, RecoverWrites(L, base), done)
      && SameHome(L, Recovered(L, base), Committed(L, init, s))
  }

  /** Every operation is wholly durable or not at all; open ones are not durable. */
  ghost predicate Unsplit(s: State) {
    && (forall op :: Of(Flatten(s.durable), op) == [] || Of(Flatten(s.durable), op) == Of(s.issued, op))
    && (forall op :: Of(s.current, op) != [] ==>
          Of(Flatten(s.durable), op) == [] && Of(s.issued, op) == Of(s.current, op))
    && (forall k :: 0 <= k < |s.ops| ==>
          && s.ops[k].id < s.nextOp
          && Of(Flatten(s.durable), s.ops[k].id) == []
          && Of(s.issued, s.ops[k].id) == Of(s.current, s.ops[k].id))
    && (forall op :: op >= s.nextOp ==> Of(s.issued, op) == [])
  }

  ghost predicate Inv(L: Layout, init: Image, s: State) {
    Shape(L, init, s) && PhaseInv(L, init, s)
  }

  /** The invariant includes safety at this very moment. */
  lemma InvSafe(L: Layout, init: Image, s: State)
    requires Inv(L, init, s)
    ensures Safe(L, init, s)
  {
    match s.phase
    case Running =>
      EmptyHeadRecovers(L, s.disk);
    case Committing(base, done) =>
      CommitCrash(L, base, s.view, s.lh, done);
      assert done > |s.lh| ==> Play(L, Committed(L, init, s), s.current) == Committed(L, init, s);
    case Recovering(base, done) =>
      RecoverCrash(L, base, done);
  }

  lemma BootInv(L: Layout, init: Image)
    requires Fits(L, init) && init[L.start].words[0] == 0
    ensures Inv(L, init, Boot(init)) && Unsplit(Boot(init))
  {}

  lemma BeginOpKeeps(L: Layout, init: Image, s: State)
    requires Inv(L, init, s) && Unsplit(s) && Enabled(L, s, BeginOp)
    ensures Inv(L, init, After(L, s, BeginOp)) && Unsplit(After(L, s, BeginOp))
  {}

  lemma LogWriteKeeps(L: Layout, init: Image, s: State, k: nat, b: nat, data: Block)
    requires Inv(L, init, s) && Enabled(L, s, LogWrite(k, b, data))
    ensures Inv(L, init, After(L, s, LogWrite(k, b, data)))
  {
    var t := After(L, s, LogWrite(k, b, data));
    var e := Entry(s.ops[k].id, b, data);
    PlaySnoc(L, Committed(L, init, s), s.current, e);
    assert forall x :: x in s.lh ==> x in t.lh;
    assert b in t.lh;
  }

  lemma LogWriteUnsplit(L: Layout, s: State, k: nat, b: nat, data: Block)
    requires Unsplit(s) && Enabled(L, s, LogWrite(k, b, data))
    ensures Unsplit(After(L, s, LogWrite(k, b, data)))
  {
    var t := After(L, s, LogWrite(k, b, data));
    var e := Entry(s.ops[k].id, b, data);
    forall op: nat
      ensures Of(t.issued, op) == Of(s.issued, op) + (if op == e.op then [e] else [])
      ensures Of(t.current, op) == Of(s.current, op) + (if op == e.op then [e] else [])
    {
      assert t.issued[..|t.issued| - 1] == s.issued;
      assert t.current[..|t.current| - 1] == s.current;
    }
  }

  lemma EndOpKeeps(L: Layout, init: Image, s: State, k: nat)
    requires Inv(L, init, s) && Unsplit(s) && Enabled(L, s, EndOp(k))
    ensures Inv(L, init, After(L, s, EndOp(k))) && Unsplit(After(L, s, EndOp(k)))
  {}

  /** A commit write other than the header. */
  lemma CopyWriteKeeps(L: Layout, init: Image, s: State)
    requires Inv(L, init, s) && s.phase.Committing? && !AtCommitPoint(s) && Enabled(L, s, DiskWrite)
    ensures Inv(L, init, After(L, s, DiskWrite))
  {
    var base, done, t := s.phase.base, s.phase.done, After(L, s, DiskWrite);
    assert Pending(L, s)[0] == CommitWrites(L, base, s.view, s.lh)[done];
    assert t.disk == ApplyFirst(base, CommitWrites(L, base, s.view, s.lh), done + 1);
    assert Committed(L, init, t) == Committed(L, init, s);
    assert Open(L, init, t);
  }

  /** Once the open group joins the committed ones, they call for what the cache holds. */
  lemma GroupJoins(L: Layout, init: Image, s: State, t: State)
    requires Shape(L, init, s) && ViewIsCurrent(L, init, s)
    requires t.durable == s.durable + [s.current] && t.current == [] && t.view == s.view
    ensures AllHome(L, init, Flatten(t.durable))
    ensures SameHome(L, t.view, Committed(L, init, t))
    ensures Play(L, Committed(L, init, t), t.current) == Committed(L, init, t)
  {
    assert t.durable[..|t.durable| - 1] == s.durable;
    PlayConcat(L, init, Flatten(s.durable), s.current);
  }

  /** The header write of a commit. */
  lemma CommitPointKeeps(L: Layout, init: Image, s: State)
    requires Inv(L, init, s) && AtCommitPoint(s) && Enabled(L, s, DiskWrite)
    ensures Inv(L, init, After(L, s, DiskWrite))
  {
    GroupJoins(L, init, s, After(L, s, DiskWrite));
  }

  lemma RecoverWriteKeeps(L: Layout, init: Image, s: State)
    requires Inv(L, init, s) && s.phase.Recovering? && Enabled(L, s, DiskWrite)
    ensures Inv(L, init, After(L, s, DiskWrite))
  {
    var base, done, t := s.phase.base, s.phase.done, After(L, s, DiskWrite);
    assert Pending(L, s)[0] == RecoverWrites(L, base)[done];
    assert t.disk == ApplyFirst(base, RecoverWrites(L, base), done + 1);
    assert Committed(L, init, t) == Committed(L, init, s);
  }

  lemma DiskWriteUnsplit(L: Layout, s: State)
    requires Unsplit(s) && Enabled(L, s, DiskWrite) && (s.phase.Committing? ==> s.ops == [])
    ensures Unsplit(After(L, s, DiskWrite))
  {
    var t := After(L, s, DiskWrite);
    if AtCommitPoint(s) {
      assert t.durable[..|t.durable| - 1] == s.durable;
      forall op: nat
        ensures Of(Flatten(t.durable), op) == Of(Flatten(s.durable), op) + Of(s.current, op)
      {
        OfConcat(Flatten(s.durable), s.current, op);
      }
    }
  }

  lemma CommitFinishKeeps(L: Layout, init: Image, s: State)
    requires Inv(L, init, s) && s.phase.Committing? && Enabled(L, s, Finish)
    ensures Inv(L, init, After(L, s, Finish))
  {
    var base := s.phase.base;
    CommitDone(L, base, s.view, s.lh);
    assert s.disk == ApplyAll(base, CommitWrites(L, base, s.view, s.lh));
    var t := After(L, s, Finish);
    assert s.current == [] && Play(L, Committed(L, init, s), []) == Committed(L, init, s);
    assert Committed(L, init, t) == Committed(L, init, s);
    SameHomeTrans(L, s.disk, s.view, Committed(L, init, s));
  }

  lemma RecoverFinishKeeps(L: Layout, init: Image, s: State)
    requires Inv(L, init, s) && s.phase.Recovering? && Enabled(L, s, Finish)
    ensures Inv(L, init, After(L, s, Finish))
  {
    var base := s.phase.base;
    RecoveredHead(L, base);
    assert Play(L, Committed(L, init, s), []) == Committed(L, init, s);
  }

  lemma CrashKeeps(L: Layout, init: Image, s: State)
    requires Inv(L, init, s) && Unsplit(s)
    ensures Enabled(L, s, Crash)
    ensures Inv(L, init, After(L, s, Crash)) && Unsplit(After(L, s, Crash))
  {
    InvSafe(L, init, s);
  }

  lemma StepKeeps(L: Layout, init: Image, s: State, a: Action)
    requires Inv(L, init, s) && Unsplit(s) && Enabled(L, s, a)
    ensures Inv(L, init, After(L, s, a)) && Unsplit(After(L, s, a))
  {
    match a
    case BeginOp => BeginOpKeeps(L, init, s);
    case LogWrite(k, b, data) =>
      LogWriteKeeps(L, init, s, k, b, data);
      LogWriteUnsplit(L, s, k, b, data);
    case EndOp(k) => EndOpKeeps(L, init, s, k);
    case DiskWrite =>
      DiskWriteUnsplit(L, s);
      if AtCommitPoint(s) {
        CommitPointKeeps(L, init, s);
      } else if s.phase.Committing? {
        CopyWriteKeeps(L, init, s);
      } else {
        RecoverWriteKeeps(L, init, s);
      }
    case Finish =>
      if s.phase.Committing? {
        CommitFinishKeeps(L, init, s);
      } else {
        RecoverFinishKeeps(L, init, s);
      }
    case Crash => CrashKeeps(L, init, s);
  }

  lemma {:induction false} RunKeeps(L: Layout, init: Image, acts: seq<Action>)
    requires Fits(L, init) && init[L.start].words[0] == 0
    ensures var o := Exec(L, Boot(init), acts);
            o.Reached? ==> Inv(L, init, o.state) && Unsplit(o.state)
    decreases |acts|
  {
    if acts == [] {
      BootInv(L, init);
    } else {
      RunKeeps(L, init, acts[..|acts| - 1]);
      var o := Exec(L, Boot(init), acts[..|acts| - 1]);
      if o.Reached? && Enabled(L, o.state, acts[|acts| - 1]) {
        StepKeeps(L, init, o.state, acts[|acts| - 1]);
      }
    }
  }

  /** Crash safety over whole runs.  After any run, with any number of operations and crashes,
      a crash now recovers to exactly init with the committed groups played in order, and each
      operation that ever ran is in that result completely or not at all. */
  lemma CrashSafety(L: Layout, init: Image, acts: seq<Action>)
    requires Fits(L, init) && init[L.start].words[0] == 0
    ensures var o := Exec(L, Boot(init), acts);
            o.Reached? ==>
              && GoodHead(L, o.state.disk)
              && AllHome(L, init, Flatten(o.state.durable))
              && SameHome(L, Recovered(L, o.state.disk), Play(L, init, Flatten(o.state.durable)))
              && forall op :: || Of(Flatten(o.state.durable), op) == []
                              || Of(Flatten(o.state.durable), op) == Of(o.state.issued, op)
  {
    RunKeeps(L, init, acts);
    var o := Exec(L, Boot(init), acts);
    if o.Reached? {
      InvSafe(L, init, o.state);
    }
  }

  /** Durability.  Whenever no operation is outstanding and no commit or recovery is under way,
      everything read through the cache is what a crash now would recover to. */
  lemma Durability(L: Layout, init: Image, acts: seq<Action>)
    requires Fits(L, init) && init[L.start].words[0] == 0
    ensures var o := Exec(L, Boot(init), acts);
            o.Reached? && o.state.phase.Running? && o.state.ops == [] ==>
              && GoodHead(L, o.state.disk)
              && SameHome(L, Recovered(L, o.state.disk), o.state.view)
              && o.state.current == []
  {
    RunKeeps(L, init, acts);
    var o := Exec(L, Boot(init), acts);
    if o.Reached? && o.state.phase.Running? && o.state.ops == [] {
      InvSafe(L, init, o.state);
      assert Play(L, Committed(L, init, o.state), []) == Committed(L, init, o.state);
    }
  }

  /** The committed groups only ever grow at the end. */
  lemma {:induction false} GroupsGrow(L: Layout, s: State, acts: seq<Action>)
    ensures var o := Exec(L, s, acts); o.Reached? ==> s.durable <= o.state.durable
    decreases |acts|
  {
    if acts != [] {
      GroupsGrow(L, s, acts[..|acts| - 1]);
    }
  }

  // A commit or a recovery as a whole.

  lemma OneMore(L: Layout, s: State, acts: seq<Action>, a: Action)
    requires Exec(L, s, acts).Reached? && Enabled(L, Exec(L, s, acts).state, a)
    ensures Exec(L, s, acts + [a]) == Reached(After(L, Exec(L, s, acts).state, a))
  {
    assert (acts + [a])[..|acts + [a]| - 1] == acts;
  }

  /** The run goes on by one step. */
  lemma Extend(L: Layout, s: State, acts: seq<Action>, a: Action) returns (r: seq<Action>)
    requires Exec(L, s, acts).Reached? && Enabled(L, Exec(L, s, acts).state, a)
    ensures Exec(L, s, r) == Reached(After(L, Exec(L, s, acts).state, a))
  {
    r := acts + [a];
    OneMore(L, s, acts, a);
  }

  /** A block write leads from each state to the next. */
  predicate WritesTo(L: Layout, parts: seq<State>, i: nat) {
    i + 1 < |parts| && Enabled(L, parts[i], DiskWrite) && After(L, parts[i], DiskWrite) == parts[i + 1]
  }

  /** The run goes on through n block writes. */
  lemma {:induction false} DiskRun(L: Layout, s0: State, acts: seq<Action>, parts: seq<State>, n: nat)
    returns (r: seq<Action>)
    requires n < |parts| && Exec(L, s0, acts) == Reached(parts[0])
    requires forall i: nat :: i < n ==> WritesTo(L, parts, i)
    ensures Exec(L, s0, r) == Reached(parts[n])
  {
    r := acts;
    if n > 0 {
      r := DiskRun(L, s0, acts, parts, n - 1);
      assert WritesTo(L, parts, n - 1);
      r := Extend(L, s0, r, DiskWrite);
    }
  }

  /** A state about to commit, with nothing written yet. */
  predicate AboutToCommit(L: Layout, s: State) {
    s.phase == Committing(s.disk, 0) && Sound(L, s)
  }

  /** The state after n of the writes of a commit. */
  function CommitPart(L: Layout, s: State, n: nat): (t: State)
    requires AboutToCommit(L, s) && n <= |CommitWrites(L, s.disk, s.view, s.lh)|
  {
    var past := s.lh != [] && n > |s.lh|;
    s.(disk := ApplyFirst(s.disk, CommitWrites(L, s.disk, s.view, s.lh), n), phase := Committing(s.disk, n),
       durable := if past then s.durable + [s.current] else s.durable, current := if past then [] else s.current)
  }

  /** The state after the whole commit. */
  function CommitResult(L: Layout, s: State): (t: State)
    requires AboutToCommit(L, s)
  {
    CommitPart(L, s, |CommitWrites(L, s.disk, s.view, s.lh)|).(phase := Running, lh := [])
  }

  lemma CommitPartStep(L: Layout, s: State, n: nat)
    requires AboutToCommit(L, s) && n < |CommitWrites(L, s.disk, s.view, s.lh)|
    ensures var p := CommitPart(L, s, n); Enabled(L, p, DiskWrite) && After(L, p, DiskWrite) == CommitPart(L, s, n + 1)
  {
    var ws, p := CommitWrites(L, s.disk, s.view, s.lh), CommitPart(L, s, n);
    assert Sound(L, p) && Pending(L, p) == ws[n..] && ws[n..][0] == ws[n];
    assert ApplyFirst(s.disk, ws, n + 1) == p.disk[ws[n].blockno := ws[n].data];
    assert AtCommitPoint(p) <==> s.lh != [] && n == |s.lh|;
  }

  /** The run goes on through block writes to the end of a commit or a recovery. */
  lemma FinishRun(L: Layout, s0: State, acts: seq<Action>, parts: seq<State>) returns (r: seq<Action>)
    requires Writing(L, parts) && Exec(L, s0, acts) == Reached(parts[0])
    requires Enabled(L, parts[|parts| - 1], Finish)
    ensures Exec(L, s0, r) == Reached(After(L, parts[|parts| - 1], Finish))
  {
    r := DiskRun(L, s0, acts, parts, |parts| - 1);
    r := Extend(L, s0, r, Finish);
  }

  /** States from which block writes lead on to the next. */
  ghost predicate Writing(L: Layout, parts: seq<State>) {
    |parts| > 0 && forall i: nat :: i < |parts| - 1 ==> WritesTo(L, parts, i)
  }

  /** The states of a commit, by the number of its writes done. */
  function CommitStates(L: Layout, s: State): (parts: seq<State>)
    requires AboutToCommit(L, s)
    ensures |parts| == |CommitWrites(L, s.disk, s.view, s.lh)| + 1
  {
    seq<State>(|CommitWrites(L, s.disk, s.view, s.lh)| + 1,
               i requires 0 <= i <= |CommitWrites(L, s.disk, s.view, s.lh)| => CommitPart(L, s, i))
  }

  lemma CommitStateAt(L: Layout, s: State, i: nat)
    requires AboutToCommit(L, s) && i < |CommitStates(L, s)|
    ensures i <= |CommitWrites(L, s.disk, s.view, s.lh)| && CommitStates(L, s)[i] == CommitPart(L, s, i)
  {}

  lemma CommitParts(L: Layout, s: State) returns (parts: seq<State>)
    requires AboutToCommit(L, s)
    ensures Writing(L, parts) && parts[0] == s
    ensures parts[|parts| - 1] == CommitPart(L, s, |CommitWrites(L, s.disk, s.view, s.lh)|)
  {
    parts := CommitStates(L, s);
    CommitStateAt(L, s, 0);
    CommitStateAt(L, s, |parts| - 1);
    NothingCommitted(L, s);
    forall i: nat | i < |parts| - 1 ensures WritesTo(L, parts, i) {
      CommitStateAt(L, s, i);
      CommitStateAt(L, s, i + 1);
      CommitPartStep(L, s, i);
    }
  }

  lemma CommitEnds(L: Layout, s: State)
    requires AboutToCommit(L, s)
    ensures var p := CommitPart(L, s, |CommitWrites(L, s.disk, s.view, s.lh)|);
            Enabled(L, p, Finish) && After(L, p, Finish) == CommitResult(L, s)
  {}

  /** The run goes on through the whole commit. */
  lemma CommitRun(L: Layout, s0: State, acts: seq<Action>, s: State) returns (r: seq<Action>)
    requires Exec(L, s0, acts) == Reached(s) && AboutToCommit(L, s)
    ensures Exec(L, s0, r) == Reached(CommitResult(L, s))
  {
    var parts := CommitParts(L, s);
    CommitEnds(L, s);
    r := FinishRun(L, s0, acts, parts);
  }

  lemma NothingCommitted(L: Layout, s: State)
    requires AboutToCommit(L, s)
    ensures CommitPart(L, s, 0) == s
  {}

  predicate AboutToRecover(L: Layout, s: State) {
    s.phase == Recovering(s.disk, 0) && Sound(L, s)
  }

  function RecoverPart(L: Layout, s: State, n: nat): (t: State)
    requires AboutToRecover(L, s) && n <= |RecoverWrites(L, s.disk)|
  {
    s.(disk := ApplyFirst(s.disk, RecoverWrites(L, s.disk), n), phase := Recovering(s.disk, n))
  }

  function RecoverResult(L: Layout, s: State): (t: State)
    requires AboutToRecover(L, s)
  {
    s.(disk := Recovered(L, s.disk), view := Recovered(L, s.disk), phase := Running, lh := [])
  }

  lemma RecoverPartStep(L: Layout, s: State, n: nat)
    requires AboutToRecover(L, s) && n < |RecoverWrites(L, s.disk)|
    ensures var p := RecoverPart(L, s, n);
            Enabled(L, p, DiskWrite) && After(L, p, DiskWrite) == RecoverPart(L, s, n + 1)
  {
    var ws, p := RecoverWrites(L, s.disk), RecoverPart(L, s, n);
    assert Sound(L, p) && Pending(L, p) == ws[n..] && ws[n..][0] == ws[n];
    assert ApplyFirst(s.disk, ws, n + 1) == p.disk[ws[n].blockno := ws[n].data];
  }

  /** The run goes on through the whole recovery. */
  lemma RecoverRun(L: Layout, s0: State, acts: seq<Action>, s: State) returns (r: seq<Action>)
    requires Exec(L, s0, acts) == Reached(s) && AboutToRecover(L, s)
    ensures Exec(L, s0, r) == Reached(RecoverResult(L, s))
  {
    var n := |RecoverWrites(L, s.disk)|;
    var parts := seq<State>(n + 1, i requires 0 <= i <= n => RecoverPart(L, s, i));
    forall i: nat | i < n ensures WritesTo(L, parts, i) {
      RecoverPartStep(L, s, i);
    }
    r := DiskRun(L, s0, acts, parts, n);
    r := Extend(L, s0, r, Finish);
  }
}
