/** Crash consistency of the file system: runs in which the operations of log.c make file-system calls, with
    crashes anywhere, also inside a call, a commit or a recovery. */
module FsRuns {
  import opened Disk
  import opened LogCrash
  import opened LogRuns
  import opened FsDisk
  import opened FsCount
  import FileContents
  import FileSystem

  /** A step of the log, or a whole call by operation k with its log_write()s.  A call that a crash cuts short,
      or that runs interleaved with others, shows as single LogWrite steps. */
  datatype Event = Step(a: Action) | Call(k: nat, ws: seq<Write>)

  /** The log_write()s ws by operation k. */
  function Issue(L: Layout, s: State, k: nat, ws: seq<Write>): (o: Outcome)
    decreases |ws|
  {
    if ws == [] then Reached(s)
    else
      var o := Issue(L, s, k, ws[..|ws| - 1]);
      var a := LogWrite(k, ws[|ws| - 1].blockno, ws[|ws| - 1].data);
      if o.Reached? && Enabled(L, o.state, a) then Reached(After(L, o.state, a)) else Stuck
  }

  function Do(L: Layout, s: State, e: Event): (o: Outcome) {
    match e
    case Step(a) => if Enabled(L, s, a) then Reached(After(L, s, a)) else Stuck
    case Call(k, ws) => Issue(L, s, k, ws)
  }

  function Run(L: Layout, s: State, es: seq<Event>): (o: Outcome)
    decreases |es|
  {
    if es == [] then Reached(s)
    else
      var o := Run(L, s, es[..|es| - 1]);
      if o.Reached? then Do(L, o.state, es[|es| - 1]) else Stuck
  }

  predicate ClosesAll(s: State, e: Event) {
    e.Step? && e.a.EndOp? && |s.ops| == 1
  }

  /** No call is under way, as far as the events tell. */
  predicate Settled(L: Layout, s: State, es: seq<Event>)
    decreases |es|
  {
    es != [] ==>
      var front, e := es[..|es| - 1], es[|es| - 1];
      if e.Step? && e.a.LogWrite? then false
      else
        || Settled(L, s, front) || e == Step(Crash)
        || (Run(L, s, front).Reached? && ClosesAll(Run(L, s, front).state, e))
  }

  /** A call that finds a consistent file system leaves one; calls that ran interleaved have left one when the
      last operation ends. */
  ghost predicate Keeps(sb: Super, s: State, settled: bool, e: Event) {
    && (e.Call? && settled && InRange(s.view, e.ws) && Consistent(sb, s.view) ==>
         Consistent(sb, ApplyAll(s.view, e.ws)))
    && (ClosesAll(s, e) && !settled ==> Consistent(sb, s.view))
  }

  ghost predicate CallsKeep(L: Layout, sb: Super, s: State, es: seq<Event>)
    decreases |es|
  {
    es != [] ==>
      var front := es[..|es| - 1];
      && CallsKeep(L, sb, s, front)
      && (Run(L, s, front).Reached? ==> Keeps(sb, Run(L, s, front).state, Settled(L, s, front), es[|es| - 1]))
  }

  /** The calls of fs.c are such calls: one that began on what the cache holds and left the invariant. */
  lemma FsCallKeeps(fs: FileSystem.Fs, s: State, settled: bool, k: nat)
    requires fs.Ok() && FileContents.Inv(fs.St(), fs.own) && fs.first == s.view
    ensures Keeps(fs.Sb(), s, settled, Call(k, fs.writes))
  {
    fs.IsConsistent();
  }

  /** The disk as mkfs leaves it: an empty log below the inode blocks, and a consistent file system. */
  ghost predicate Made(L: Layout, sb: Super, init: Image) {
    Fits(L, init) && init[L.start].words[0] == 0 && LogIsBelow(L, sb) && Consistent(sb, init)
  }

  predicate LogIsBelow(L: Layout, sb: Super) {
    L.start + L.size <= sb.inodestart
  }

  /** The log is not part of the file system. */
  lemma OnlyHomeMatters(L: Layout, sb: Super, x: Image, y: Image)
    requires SameHome(L, x, y) && LogIsBelow(L, sb) && Consistent(sb, x)
    ensures Consistent(sb, y)
  {
    var bits, st, own :| Holds(sb, x, bits, st, own);
    assert Holds(sb, y, bits, st, own);
  }

  lemma {:induction false} IssueKeeps(L: Layout, init: Image, s: State, k: nat, ws: seq<Write>)
    requires LogRuns.Inv(L, init, s) && Unsplit(s) && Issue(L, s, k, ws).Reached?
    ensures var t := Issue(L, s, k, ws).state;
            && LogRuns.Inv(L, init, t) && Unsplit(t) && t.durable == s.durable && t.phase == s.phase
            && InRange(s.view, ws) && t.view == ApplyAll(s.view, ws)
    decreases |ws|
  {
    if ws != [] {
      var front, a := ws[..|ws| - 1], LogWrite(k, ws[|ws| - 1].blockno, ws[|ws| - 1].data);
      IssueKeeps(L, init, s, k, front);
      StepKeeps(L, init, Issue(L, s, k, front).state, a);
      assert forall i :: 0 <= i < |ws| - 1 ==> ws[i] == front[i];
      SamePrefix(s.view, front, ws, |front|);
    }
  }

  /** No operation is open, and no recovery is under way. */
  predicate Quiet(s: State) {
    s.ops == [] && !s.phase.Recovering?
  }

  /** A crash of s leads back to q; settled says whether the view of s is known to be consistent. */
  ghost predicate LeadsBack(L: Layout, sb: Super, init: Image, s: State, settled: bool, q: State) {
    && LogRuns.Inv(L, init, s) && Unsplit(s) && Quiet(q) && SameHome(L, Committed(L, init, s), q.view)
    && (!s.phase.Recovering? && (settled || !s.phase.Running?) ==> Consistent(sb, s.view)) && Consistent(sb, q.view)
  }

  /** The header write of a commit. */
  lemma CommitLeadsBack(L: Layout, sb: Super, init: Image, s: State, settled: bool, q: State)
    requires LeadsBack(L, sb, init, s, settled, q) && Enabled(L, s, DiskWrite) && AtCommitPoint(s)
    ensures var t := After(L, s, DiskWrite); LeadsBack(L, sb, init, t, settled, t)
  {
    StepKeeps(L, init, s, DiskWrite);
    GroupJoins(L, init, s, After(L, s, DiskWrite));
  }

  /** At rest a crash changes nothing. */
  lemma RestLeadsBack(L: Layout, sb: Super, init: Image, s: State, settled: bool, q: State)
    requires LogIsBelow(L, sb) && LeadsBack(L, sb, init, s, settled, q) && s.phase.Running? && s.ops == []
    ensures LeadsBack(L, sb, init, s, true, s)
  {
    assert Play(L, Committed(L, init, s), []) == Committed(L, init, s);
    OnlyHomeMatters(L, sb, q.view, Committed(L, init, s));
    OnlyHomeMatters(L, sb, Committed(L, init, s), s.view);
  }

  /** The end of a commit or a recovery. */
  lemma FinishLeadsBack(L: Layout, sb: Super, init: Image, s: State, settled: bool, q: State)
    requires LogIsBelow(L, sb) && LeadsBack(L, sb, init, s, settled, q) && Enabled(L, s, Finish)
    ensures LeadsBack(L, sb, init, After(L, s, Finish), settled, q)
  {
    var t := After(L, s, Finish);
    StepKeeps(L, init, s, Finish);
    assert Committed(L, init, t) == Committed(L, init, s);
    assert LeadsBack(L, sb, init, t, false, q);
    RestLeadsBack(L, sb, init, t, false, q);
  }

  lemma OtherLeadsBack(L: Layout, sb: Super, init: Image, s: State, settled: bool, a: Action, settled': bool, q: State)
    requires LeadsBack(L, sb, init, s, settled, q) && Enabled(L, s, a)
    requires a != Finish && !(a == DiskWrite && AtCommitPoint(s))
    requires settled' ==> settled || a == Crash || ClosesAll(s, Step(a))
    requires Keeps(sb, s, settled, Step(a)) && (a.LogWrite? ==> !settled')
    ensures LeadsBack(L, sb, init, After(L, s, a), settled', q)
  {
    StepKeeps(L, init, s, a);
    assert Committed(L, init, After(L, s, a)) == Committed(L, init, s);
  }

  lemma CallLeadsBack(L: Layout, sb: Super, init: Image, s: State, settled: bool, e: Event, q: State)
    requires LeadsBack(L, sb, init, s, settled, q) && Do(L, s, e).Reached? && e.Call? && Keeps(sb, s, settled, e)
    ensures LeadsBack(L, sb, init, Do(L, s, e).state, settled, q)
  {
    IssueKeeps(L, init, s, e.k, e.ws);
  }

  predicate AtRest(o: Outcome) {
    o.Reached? && o.state.phase.Running? && o.state.ops == []
  }

  /** Whichever events came after the first j, none of them ended at rest. */
  ghost predicate NoRestSince(L: Layout, s: State, es: seq<Event>, j: nat) {
    forall m: nat {:trigger es[..m]} :: j < m <= |es| ==> !AtRest(Run(L, s, es[..m]))
  }

  lemma StillNoRest(L: Layout, s: State, es: seq<Event>, j: nat)
    requires es != [] && NoRestSince(L, s, es[..|es| - 1], j) && !AtRest(Run(L, s, es))
    ensures NoRestSince(L, s, es, j)
  {
    var front := es[..|es| - 1];
    forall m: nat | j < m <= |es| ensures !AtRest(Run(L, s, es[..m])) {
      if m == |es| {
        assert es[..m] == es;
      } else {
        assert es[..m] == front[..m];
      }
    }
  }

  lemma StepLeadsBack(L: Layout, sb: Super, init: Image, s: State, settled: bool, e: Event, settled': bool, q: State)
    returns (r: State)
    requires LogIsBelow(L, sb) && LeadsBack(L, sb, init, s, settled, q)
    requires Do(L, s, e).Reached? && Keeps(sb, s, settled, e)
    requires settled' ==> settled || e == Step(Crash) || ClosesAll(s, e)
    requires e.Step? && e.a.LogWrite? ==> !settled'
    ensures LeadsBack(L, sb, init, Do(L, s, e).state, settled', r)
    ensures r == q || r == Do(L, s, e).state
  {
    r := q;
    if e.Call? {
      CallLeadsBack(L, sb, init, s, settled, e, q);
    } else if e.a == DiskWrite && AtCommitPoint(s) {
      CommitLeadsBack(L, sb, init, s, settled, q);
      r := Do(L, s, e).state;
    } else if e.a == Finish {
      FinishLeadsBack(L, sb, init, s, settled, q);
    } else {
      OtherLeadsBack(L, sb, init, s, settled, e.a, settled', q);
    }
  }

  lemma NextLeadsBack(L: Layout, sb: Super, init: Image, s: State, settled: bool, e: Event, settled': bool, q: State)
    returns (r: State)
    requires LogIsBelow(L, sb) && LeadsBack(L, sb, init, s, settled, q)
    requires Do(L, s, e).Reached? && Keeps(sb, s, settled, e)
    requires settled' ==> settled || e == Step(Crash) || ClosesAll(s, e)
    requires e.Step? && e.a.LogWrite? ==> !settled'
    ensures LeadsBack(L, sb, init, Do(L, s, e).state, settled', r)
    ensures r == q || r == Do(L, s, e).state
    ensures AtRest(Do(L, s, e)) ==> r == Do(L, s, e).state
  {
    r := StepLeadsBack(L, sb, init, s, settled, e, settled', q);
    if AtRest(Do(L, s, e)) {
      RestLeadsBack(L, sb, init, Do(L, s, e).state, settled', r);
      r := Do(L, s, e).state;
    }
  }

  /** After the events es, a crash leads back to the moment after the first j. */
  ghost predicate Moment(L: Layout, sb: Super, init: Image, es: seq<Event>, j: nat)
    requires Run(L, Boot(init), es).Reached?
  {
    && j <= |es| && Run(L, Boot(init), es[..j]).Reached? && NoRestSince(L, Boot(init), es, j)
    && LeadsBack(L, sb, init, Run(L, Boot(init), es).state, Settled(L, Boot(init), es),
                 Run(L, Boot(init), es[..j]).state)
  }

  lemma FirstMoment(L: Layout, sb: Super, init: Image)
    requires Made(L, sb, init)
    ensures Moment(L, sb, init, [], 0)
  {
    BootInv(L, init);
  }

  lemma NextMoment(L: Layout, sb: Super, init: Image, es: seq<Event>, j: nat) returns (j': nat)
    requires Made(L, sb, init) && CallsKeep(L, sb, Boot(init), es) && Run(L, Boot(init), es).Reached? && es != []
    requires Moment(L, sb, init, es[..|es| - 1], j)
    ensures Moment(L, sb, init, es, j')
  {
    var front, e, n := es[..|es| - 1], es[|es| - 1], |es|;
    assert front[..j] == es[..j] && es[..n] == es;
    var s, q := Run(L, Boot(init), front).state, Run(L, Boot(init), es[..j]).state;
    var r := NextLeadsBack(L, sb, init, s, Settled(L, Boot(init), front), e, Settled(L, Boot(init), es), q);
    if r == q && !AtRest(Run(L, Boot(init), es)) {
      StillNoRest(L, Boot(init), es, j);
      j' := j;
    } else {
      j' := n;
    }
  }

  lemma {:induction false} History(L: Layout, sb: Super, init: Image, es: seq<Event>) returns (j: nat)
    requires Made(L, sb, init) && CallsKeep(L, sb, Boot(init), es) && Run(L, Boot(init), es).Reached?
    ensures Moment(L, sb, init, es, j)
    decreases |es|
  {
    if es == [] {
      FirstMoment(L, sb, init);
      j := 0;
    } else {
      j := History(L, sb, init, es[..|es| - 1]);
      j := NextMoment(L, sb, init, es, j);
    }
  }

  /** Crash consistency.  After any run, with crashes anywhere, a crash now recovers to a consistent file
      system, and to the very one the operations saw after the first j events, when none of them was open.
      Nothing is lost of what came before a moment of rest. */
  lemma FsCrashSafety(L: Layout, sb: Super, init: Image, es: seq<Event>) returns (j: nat)
    requires Made(L, sb, init) && CallsKeep(L, sb, Boot(init), es) && Run(L, Boot(init), es).Reached?
    ensures var disk := Run(L, Boot(init), es).state.disk;
            && GoodHead(L, disk) && Consistent(sb, Recovered(L, disk))
            && j <= |es| && Run(L, Boot(init), es[..j]).Reached?
            && var q := Run(L, Boot(init), es[..j]).state;
               Quiet(q) && SameHome(L, Recovered(L, disk), q.view)
    ensures NoRestSince(L, Boot(init), es, j)
  {
    j := History(L, sb, init, es);
    var s, q := Run(L, Boot(init), es).state, Run(L, Boot(init), es[..j]).state;
    InvSafe(L, init, s);
    SameHomeTrans(L, Recovered(L, s.disk), Committed(L, init, s), q.view);
    OnlyHomeMatters(L, sb, q.view, Recovered(L, s.disk));
  }

  // The reservation of an operation.

  function Listed(lh: seq<nat>): (t: set<nat>) {
    set b | b in lh
  }

  /** One log_write() takes one of the operation's blocks, unless the block is listed. */
  lemma WriteTakes(L: Layout, s: State, k: nat, b: nat, data: Block)
    requires Enabled(L, s, LogWrite(k, b, data))
    ensures var t := After(L, s, LogWrite(k, b, data));
            && |t.ops| == |s.ops| && Listed(t.lh) == Listed(s.lh) + {b}
            && t.ops[k].used == s.ops[k].used + if b in s.lh then 0 else 1
  {}

  lemma NewOnes(x: set<nat>, y: set<nat>, b: nat)
    ensures |(x + {b}) - y| == |x - y| + if b in x || b in y then 0 else 1
  {
    if b in x || b in y {
      assert (x + {b}) - y == x - y;
    } else {
      assert (x + {b}) - y == (x - y) + {b};
    }
  }

  /** From s to t, operation k logged the blocks x and took a block of its reservation for each new one. */
  ghost predicate Takes(s: State, t: State, k: nat, x: set<nat>)
    requires k < |s.ops|
  {
    && |t.ops| == |s.ops| && Listed(t.lh) == Listed(s.lh) + x
    && t.ops[k].used == s.ops[k].used + |x - Listed(s.lh)|
  }

  lemma TakesOneMore(L: Layout, s: State, t: State, k: nat, x: set<nat>, w: Write)
    requires k < |s.ops| && Takes(s, t, k, x) && Enabled(L, t, LogWrite(k, w.blockno, w.data))
    ensures Takes(s, After(L, t, LogWrite(k, w.blockno, w.data)), k, x + {w.blockno})
  {
    NewOnes(x, Listed(s.lh), w.blockno);
    assert w.blockno in t.lh <==> w.blockno in Listed(t.lh);
    WriteTakes(L, t, k, w.blockno, w.data);
  }

  /** A call takes exactly as many of its operation's blocks as it logs blocks that were not listed before. */
  lemma {:induction false} CallTakes(L: Layout, s: State, k: nat, ws: seq<Write>)
    requires k < |s.ops| && Issue(L, s, k, ws).Reached?
    ensures Takes(s, Issue(L, s, k, ws).state, k, Blocknos(ws))
    decreases |ws|
  {
    if ws == [] {
      assert Blocknos(ws) == {};
    } else {
      var front, w := ws[..|ws| - 1], ws[|ws| - 1];
      CallTakes(L, s, k, front);
      assert front + [w] == ws;
      OneMoreBlock(front, w);
      TakesOneMore(L, s, Issue(L, s, k, front).state, k, Blocknos(front), w);
    }
  }
}
