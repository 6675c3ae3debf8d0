/** log.c as it runs: the methods of log.c over the buffer cache, proved to issue exactly the disk
    writes that LogCrash reasons about and to be the steps of LogRuns. */
module Log {
  import opened Disk
  import opened LogCrash
  import LogRuns
  import opened BufferCache
  import opened LogBuffers

  lemma All<T>(ws: seq<T>)
    ensures ws[..|ws|] == ws
  {}

  lemma Snoc<T>(t: seq<T>, ws: seq<T>, k: nat)
    requires k < |ws|
    ensures t + ws[..k + 1] == t + ws[..k] + [ws[k]]
  {}

  /** Installing from log blocks that hold the transaction writes the transaction's own blocks. */
  lemma HomesInstalled(L: Layout, c: Image, view: Image, lh: seq<nat>)
    requires Loggable(L, view, lh) && Fits(L, c) && |c| == |view|
    requires forall i :: 0 <= i < |lh| ==> c[L.start + 1 + i] == view[lh[i]]
    ensures Loggable(L, c, lh) && Installs(L, c, lh) == HomeWrites(L, view, lh)
  {}

  lemma TraceIsCommit(t: seq<Write>, t': seq<Write>, L: Layout, d: Image, view: Image, lh: seq<nat>)
    requires Loggable(L, view, lh) && Fits(L, d) && |d| == |view| && lh != []
    requires var head := HeadBlock(d[L.start], lh);
             t' == t + LogCopies(L, view, lh) + [Write(L.start, head)] + HomeWrites(L, view, lh)
                   + [Write(L.start, HeadBlock(head, []))]
    ensures t' == t + CommitWrites(L, d, view, lh)
  {}

  lemma TraceIsRecover(t: seq<Write>, t': seq<Write>, L: Layout, d: Image)
    requires GoodHead(L, d)
    requires t' == t + Installs(L, d, ReadHead(L, d)) + [Write(L.start, HeadBlock(d[L.start], []))]
    ensures t' == t + RecoverWrites(L, d)
  {}

  /** Cache contents c are view except that the first tail log blocks hold their copies. */
  ghost predicate HasCopies(L: Layout, view: Image, c: Image, lh: seq<nat>, tail: nat)
    requires Loggable(L, view, lh) && Fits(L, view) && tail <= |lh|
  {
    && |c| == |view|
    && (forall b :: 0 <= b < |view| && !(L.start < b <= L.start + tail) ==> c[b] == view[b])
    && (forall i :: 0 <= i < tail ==> c[L.start + 1 + i] == view[lh[i]])
  }

  lemma NextCopy(L: Layout, view: Image, c: Image, lh: seq<nat>, tail: nat)
    requires Loggable(L, view, lh) && Fits(L, view) && tail < |lh| && HasCopies(L, view, c, lh, tail)
    ensures c[lh[tail]] == view[lh[tail]]
    ensures HasCopies(L, view, c[L.start + 1 + tail := view[lh[tail]]], lh, tail + 1)
  {}

  /** The first tail log blocks have been written, starting from cache contents view. */
  ghost predicate CopiedTo(L: Layout, view: Image, lh: seq<nat>, t0: seq<Write>, t: seq<Write>, c: Image, tail: nat) {
    && Loggable(L, view, lh) && Fits(L, view) && tail <= |lh|
    && t == t0 + LogCopies(L, view, lh)[..tail]
    && HasCopies(L, view, c, lh, tail)
  }

  lemma NothingCopied(L: Layout, view: Image, lh: seq<nat>, t0: seq<Write>)
    requires Loggable(L, view, lh) && Fits(L, view)
    ensures CopiedTo(L, view, lh, t0, t0, view, 0)
  {
    assert LogCopies(L, view, lh)[..0] == [];
  }

  lemma CopyStep(L: Layout, view: Image, lh: seq<nat>, t0: seq<Write>, t: seq<Write>, c: Image, tail: nat)
    requires CopiedTo(L, view, lh, t0, t, c, tail) && tail < |lh|
    ensures c[lh[tail]] == view[lh[tail]]
    ensures CopiedTo(L, view, lh, t0, t + [Write(L.start + 1 + tail, view[lh[tail]])],
                     c[L.start + 1 + tail := view[lh[tail]]], tail + 1)
  {
    NextCopy(L, view, c, lh, tail);
    Snoc(t0, LogCopies(L, view, lh), tail);
  }

  /** The first tail home blocks have been written, starting from cache contents base. */
  ghost predicate InstalledTo(L: Layout, base: Image, lh: seq<nat>, t0: seq<Write>, t: seq<Write>, c: Image, tail: nat)
  {
    && Loggable(L, base, lh) && Fits(L, base) && tail <= |lh|
    && t == t0 + Installs(L, base, lh)[..tail]
    && |c| == |base|
    && forall b :: IsLogBlock(L, b) ==> c[b] == base[b]
  }

  lemma InstallOne(L: Layout, base: Image, lh: seq<nat>, t0: seq<Write>, t: seq<Write>, c: Image, tail: nat)
    requires InstalledTo(L, base, lh, t0, t, c, tail) && tail < |lh|
    ensures c[L.start + tail + 1] == base[L.start + tail + 1]
    ensures InstalledTo(L, base, lh, t0, t + [Write(lh[tail], base[L.start + tail + 1])],
                        c[lh[tail] := base[L.start + tail + 1]], tail + 1)
  {
    assert IsHome(L, base, lh[tail]) && IsLogBlock(L, L.start + tail + 1);
    Snoc(t0, Installs(L, base, lh), tail);
  }

  // The state of the log and the state of its run.

  /** acts is a run from init to run. */
  ghost predicate RunTo(L: Layout, init: Image, acts: seq<LogRuns.Action>, run: LogRuns.State) {
    && Fits(L, init) && init[L.start].words[0] == 0
    && LogRuns.Exec(L, LogRuns.Boot(init), acts) == LogRuns.Reached(run)
  }

  /** The cache holds what the run says, but for blocks that are in use, which their users may be changing. */
  ghost predicate ViewHeld(L: Layout, bufs: seq<Buf>, content: Image, view: Image) {
    && |content| == |view|
    && forall b {:trigger content[b]} {:trigger view[b]} ::
         IsHome(L, content, b) && Unheld(bufs, b) ==> content[b] == view[b]
  }

  lemma RunFacts(L: Layout, init: Image, acts: seq<LogRuns.Action>, run: LogRuns.State)
    requires RunTo(L, init, acts, run) && run.phase.Running?
    ensures LogRuns.CleanOffLog(L, run.disk, run.view, run.lh) && |run.view| == |run.disk| && Fits(L, run.disk)
    ensures Loggable(L, run.view, run.lh) && Distinct(run.lh) && (run.ops == [] ==> run.lh == [])
  {
    LogRuns.RunKeeps(L, init, acts);
  }

  lemma CommitFacts(L: Layout, init: Image, acts: seq<LogRuns.Action>, run: LogRuns.State)
    requires RunTo(L, init, acts, run) && LogRuns.AboutToCommit(L, run)
    ensures LogRuns.CleanOffLog(L, run.disk, run.view, run.lh) && run.disk[L.start].words[0] == 0 && Distinct(run.lh)
  {
    LogRuns.RunKeeps(L, init, acts);
  }

  lemma RunStep(L: Layout, init: Image, acts: seq<LogRuns.Action>, run: LogRuns.State, a: LogRuns.Action)
    requires RunTo(L, init, acts, run) && LogRuns.Enabled(L, run, a)
    ensures RunTo(L, init, acts + [a], LogRuns.After(L, run, a))
  {
    LogRuns.OneMore(L, LogRuns.Boot(init), acts, a);
  }

  /** Only the logged blocks of the contents matter to a commit. */
  lemma CommitWritesSame(L: Layout, d: Image, v: Image, w: Image, lh: seq<nat>)
    requires Loggable(L, v, lh) && Fits(L, d) && |d| == |v| == |w|
    requires forall i :: 0 <= i < |lh| ==> v[lh[i]] == w[lh[i]]
    ensures Loggable(L, w, lh) && CommitWrites(L, d, v, lh) == CommitWrites(L, d, w, lh)
  {}

  lemma MoreWritten(d0: Image, t: seq<Write>, ws: seq<Write>)
    requires InRange(d0, t) && InRange(d0, ws)
    ensures InRange(d0, t + ws) && ApplyAll(d0, t + ws) == ApplyAll(ApplyAll(d0, t), ws)
  {
    ApplyConcat(d0, t, ws, |ws|);
  }

  lemma PinsKept(bufs: seq<Buf>, after: seq<Buf>, lh: seq<nat>)
    requires PinsAre(bufs, lh) && forall c :: DirtyBlock(after, c) <==> DirtyBlock(bufs, c)
    requires forall i :: 0 <= i < |after| && after[i].dirty ==> after[i].blockno >= 0
    ensures PinsAre(after, lh)
  {
    forall i | 0 <= i < |after| && after[i].dirty ensures after[i].blockno in lh {
      assert Caches(after[i], after[i].blockno);
      assert DirtyBlock(after, after[i].blockno);
    }
  }

  /** log_write() pins what it lists. */
  lemma LoggedIsPinned(bufs: seq<Buf>, i: nat, lh: seq<nat>)
    requires PinsAre(bufs, lh) && i < |bufs| && bufs[i].blockno >= 0
    ensures PinsAre(bufs[i := bufs[i].(dirty := true)], LogRuns.Absorb(lh, bufs[i].blockno))
  {
    var after, more := bufs[i := bufs[i].(dirty := true)], LogRuns.Absorb(lh, bufs[i].blockno);
    forall k | 0 <= k < |more| ensures DirtyBlock(after, more[k]) {
      if k < |lh| {
        assert DirtyBlock(bufs, lh[k]);
        var j :| 0 <= j < |bufs| && Caches(bufs[j], lh[k]) && bufs[j].dirty;
        assert Caches(after[j], lh[k]) && after[j].dirty;
      } else {
        assert Caches(after[i], more[k]);
      }
    }
  }

  /** A buffer that is not dirty holds no logged block. */
  lemma CleanIsUnlogged(bufs: seq<Buf>, i: nat, lh: seq<nat>)
    requires PinsAre(bufs, lh) && DistinctBlocks(bufs) && i < |bufs| && !bufs[i].dirty && bufs[i].blockno >= 0
    ensures bufs[i].blockno !in lh
  {
    if bufs[i].blockno in lh {
      var k :| 0 <= k < |lh| && lh[k] == bufs[i].blockno;
      assert DirtyBlock(bufs, lh[k]);
      PinnedBufferDirty(bufs, i);
    }
  }

  lemma LogWriteRuns(L: Layout, init: Image, acts: seq<LogRuns.Action>, run: LogRuns.State, a: LogRuns.Action)
    requires RunTo(L, init, acts, run) && run.phase.Running? && a.LogWrite? && a.k < |run.ops|
    requires IsHome(L, run.disk, a.blockno) && !LogRuns.WouldPanic(L, run)
    ensures LogRuns.Enabled(L, run, a) && RunTo(L, init, acts + [a], LogRuns.After(L, run, a))
    ensures var t := LogRuns.After(L, run, a);
            && t.phase.Running? && t.disk == run.disk && t.view == run.view[a.blockno := a.data]
            && t.lh == LogRuns.Absorb(run.lh, a.blockno) && |t.ops| == |run.ops|
            && Loggable(L, t.view, t.lh) && Distinct(t.lh)
  {
    RunFacts(L, init, acts, run);
    RunStep(L, init, acts, run, a);
    RunFacts(L, init, acts + [a], LogRuns.After(L, run, a));
  }

  /** What the run says of a block in use does not matter to ViewHeld. */
  lemma HeldMayDiffer(L: Layout, bufs: seq<Buf>, content: Image, view: Image, i: nat)
    requires ViewHeld(L, bufs, content, view) && i < |bufs| && bufs[i].busy && 0 <= bufs[i].blockno < |view|
    ensures ViewHeld(L, bufs[i := bufs[i].(dirty := true)], content, view[bufs[i].blockno := bufs[i].data])
  {
    var after, b := bufs[i := bufs[i].(dirty := true)], bufs[i].blockno;
    forall c | IsHome(L, content, c) && Unheld(after, c) ensures content[c] == view[b := bufs[i].data][c] {
      assert Caches(after[i], b);
      forall j | 0 <= j < |bufs| && bufs[j].busy ensures !Caches(bufs[j], c) {
        assert after[j].busy && after[j].blockno == bufs[j].blockno;
      }
      assert Unheld(bufs, c);
    }
  }

  lemma EndOpRuns(L: Layout, init: Image, acts: seq<LogRuns.Action>, run: LogRuns.State, k: nat)
    requires RunTo(L, init, acts, run) && run.phase.Running? && k < |run.ops|
    ensures LogRuns.Enabled(L, run, LogRuns.EndOp(k))
    ensures RunTo(L, init, acts + [LogRuns.EndOp(k)], LogRuns.After(L, run, LogRuns.EndOp(k)))
    ensures var t := LogRuns.After(L, run, LogRuns.EndOp(k));
            && t.disk == run.disk && t.view == run.view && t.lh == run.lh && |t.ops| == |run.ops| - 1
            && if t.ops == [] then LogRuns.AboutToCommit(L, t) else t.phase.Running?
  {
    RunFacts(L, init, acts, run);
    RunStep(L, init, acts, run, LogRuns.EndOp(k));
  }

  lemma CrashRuns(L: Layout, init: Image, acts: seq<LogRuns.Action>, run: LogRuns.State)
    requires RunTo(L, init, acts, run)
    ensures LogRuns.Enabled(L, run, LogRuns.Crash) && GoodHead(L, run.disk)
    ensures RunTo(L, init, acts + [LogRuns.Crash], LogRuns.After(L, run, LogRuns.Crash))
    ensures LogRuns.AboutToRecover(L, LogRuns.After(L, run, LogRuns.Crash))
  {
    LogRuns.CrashSafety(L, init, acts);
    LogRuns.RunKeeps(L, init, acts);
    RunStep(L, init, acts, run, LogRuns.Crash);
  }

  lemma HeldViewsSame(L: Layout, bufs: seq<Buf>, content: Image, view: Image, lh: seq<nat>)
    requires ViewHeld(L, bufs, content, view) && Loggable(L, content, lh) && HeldApart(L, bufs, lh)
    ensures forall i :: 0 <= i < |lh| ==> content[lh[i]] == view[lh[i]]
  {
    forall i | 0 <= i < |lh| ensures content[lh[i]] == view[lh[i]] {
      assert Unheld(bufs, lh[i]) && IsHome(L, content, lh[i]);
    }
  }

  /** With nothing pinned, what the disk agrees on with the run, the cache does too. */
  lemma SettledView(L: Layout, bufs: seq<Buf>, disk: Image, content: Image, view: Image)
    requires Coherent(bufs, disk, content) && PinsAre(bufs, []) && SameHome(L, disk, view)
    ensures ViewHeld(L, bufs, content, view)
  {
    forall b | IsHome(L, content, b) && Unheld(bufs, b) ensures content[b] == view[b] {
      assert !DirtyBlock(bufs, b);
      UnpinnedAgrees(bufs, disk, content, b);
      assert IsHome(L, disk, b);
    }
  }

  /** A read makes at most one more block used. */
  lemma ReadHolds(bufs: seq<Buf>, order: seq<nat>, content: Image, b: nat, r: Got, after: seq<Buf>)
    requires BreadSpec(bufs, order, content, b, r, after)
    ensures forall c: nat :: Unheld(after, c) ==> Unheld(bufs, c)
  {
    forall c: nat | Unheld(after, c) ensures Unheld(bufs, c) {
      forall j | 0 <= j < |bufs| && bufs[j].busy ensures !Caches(bufs[j], c) {
        assert after[j] == bufs[j];
      }
    }
  }

  lemma ReleasedAgrees(L: Layout, bufs: seq<Buf>, disk: Image, content: Image, view: Image, i: nat)
    requires Coherent(bufs, disk, content) && ViewHeld(L, bufs, content, view) && i < |bufs| && bufs[i].busy
    requires IsHome(L, content, bufs[i].blockno)
    requires if bufs[i].valid then bufs[i].data == view[bufs[i].blockno]
             else disk[bufs[i].blockno] == view[bufs[i].blockno]
    ensures ViewHeld(L, bufs[i := bufs[i].(busy := false)], content, view)
  {
    var after, b := bufs[i := bufs[i].(busy := false)], bufs[i].blockno;
    assert Holds(bufs[i], disk, content);
    if !bufs[i].valid {
      assert NotValid(bufs, b);
    }
    forall c | IsHome(L, content, c) && Unheld(after, c) ensures content[c] == view[c] {
      if c != b {
        forall j | 0 <= j < |bufs| && bufs[j].busy ensures !Caches(bufs[j], c) {
          assert j != i ==> after[j] == bufs[j];
        }
        assert Unheld(bufs, c);
      }
    }
  }

  predicate Nth(k: nat) {
    true
  }

  class FsLog {
    const cache: Cache
    const L: Layout
    /** log.lh: block numbers of the open transaction. */
    var lh: seq<nat>
    var outstanding: nat
    var committing: bool
    /** The run of LogRuns that this log has gone through, from the disk mkfs made, and where it is now. */
    ghost var init: Image
    ghost var acts: seq<LogRuns.Action>
    ghost var run: LogRuns.State

    ghost predicate Base()
      reads this, cache, cache.ring, cache.ring.next, cache.ring.prev
    {
      && cache.Valid() && Fits(L, cache.disk)
      && Loggable(L, cache.content, lh) && Distinct(lh)
    }

    /** The pinned buffers are the logged blocks, and whoever uses buffers now (a process that only reads
        takes no part in transactions) uses neither logged blocks nor the log's own. */
    ghost predicate Quiet()
      reads this, cache
    {
      PinsAre(cache.bufs, lh) && HeldApart(L, cache.bufs, lh)
    }

    /** Between calls: the log is where its run is. */
    ghost predicate Valid()
      reads this, cache, cache.ring, cache.ring.next, cache.ring.prev
    {
      && Base() && RunTo(L, init, acts, run) && run.phase.Running? && !committing
      && run.disk == cache.disk && run.lh == lh && |run.ops| == outstanding
      && PinsAre(cache.bufs, lh) && ViewHeld(L, cache.bufs, cache.content, run.view)
    }

    constructor (cache: Cache, L: Layout)
      requires cache.Valid() && Fits(L, cache.disk)
      ensures Base() && this.cache == cache && this.L == L && lh == [] && outstanding == 0 && !committing
    {
      this.cache, this.L := cache, L;
      lh, outstanding, committing := [], 0, false;
      init, acts, run := [], [], LogRuns.Boot([]);
    }

    /** begin_op(): admitted exactly if the run can take the step; false is where it sleeps. */
    method BeginOp() returns (ok: bool)
      requires Valid()
      modifies this`outstanding, this`acts, this`run
      ensures Valid() && (ok <==> LogRuns.Enabled(L, old(run), LogRuns.BeginOp))
      ensures run == if ok then LogRuns.After(L, old(run), LogRuns.BeginOp) else old(run)
    {
      if committing || |lh| + (outstanding + 1) * MAXOPBLOCKS > LOGSIZE {
        return false;
      }
      outstanding := outstanding + 1;
      RunStep(L, init, acts, run, LogRuns.BeginOp);
      acts := acts + [LogRuns.BeginOp];
      run := LogRuns.After(L, run, LogRuns.BeginOp);
      return true;
    }

    /** bread() by any process. */
    method Read(b: nat) returns (r: Got)
      requires Valid() && b < |cache.disk|
      modifies cache`bufs, cache`disk, cache`trace
      ensures Valid() && BreadSpec(old(cache.bufs), cache.ring.order, cache.content, b, r, cache.bufs)
    {
      ghost var bufs := cache.bufs;
      r := cache.Bread(b);
      ReadKeepsPins(bufs, cache.ring.order, cache.content, b, r, cache.bufs);
      PinsKept(bufs, cache.bufs, lh);
      ReadHolds(bufs, cache.ring.order, cache.content, b, r, cache.bufs);
    }

    /** A store into the data of a buffer by the process that uses it. */
    method Modify(i: nat, data: Block)
      requires Valid() && i < NBUF && cache.bufs[i].busy && cache.bufs[i].valid
      modifies cache`bufs, cache`content
      ensures Valid() && cache.bufs == old(cache.bufs)[i := old(cache.bufs)[i].(data := data)]
    {
      ghost var bufs, b := cache.bufs, cache.bufs[i].blockno;
      cache.Store(i, data);
      KeepsPins(bufs, i, cache.bufs[i]);
      PinsKept(bufs, cache.bufs, lh);
      assert Caches(bufs[i], b);
      assert forall j :: 0 <= j < |bufs| ==>
        cache.bufs[j].busy == bufs[j].busy && cache.bufs[j].blockno == bufs[j].blockno;
    }

    /** log_write() of buffer i by operation k: false is one of its panics.  The run takes the step. */
    method LogWrite(i: nat, ghost k: nat) returns (ok: bool)
      requires Valid() && i < NBUF && cache.bufs[i].busy && cache.bufs[i].valid && (outstanding > 0 ==> k < outstanding)
      requires IsHome(L, cache.disk, cache.bufs[i].blockno)
      modifies this`lh, this`acts, this`run, cache`bufs
      ensures Valid() && (ok <==> outstanding > 0 && !LogRuns.WouldPanic(L, old(run)))
      ensures var a := LogRuns.LogWrite(k, old(cache.bufs)[i].blockno, old(cache.bufs)[i].data);
              if ok then
                && LogRuns.Enabled(L, old(run), a) && run == LogRuns.After(L, old(run), a)
                && cache.bufs == old(cache.bufs)[i := old(cache.bufs)[i].(dirty := true)]
              else run == old(run) && cache.bufs == old(cache.bufs)
    {
      if |lh| >= LOGSIZE || |lh| >= L.size - 1 || outstanding < 1 {
        return false;
      }
      Enter(i, k);
      return true;
    }

    /** log_write() behind its checks. */
    method Enter(i: nat, ghost k: nat)
      requires Valid() && i < NBUF && cache.bufs[i].busy && cache.bufs[i].valid && k < outstanding
      requires IsHome(L, cache.disk, cache.bufs[i].blockno) && !LogRuns.WouldPanic(L, run)
      modifies this`lh, this`acts, this`run, cache`bufs
      ensures Valid() && cache.bufs == old(cache.bufs)[i := old(cache.bufs)[i].(dirty := true)]
      ensures var a := LogRuns.LogWrite(k, old(cache.bufs)[i].blockno, old(cache.bufs)[i].data);
              LogRuns.Enabled(L, old(run), a) && run == LogRuns.After(L, old(run), a)
    {
      ghost var a := LogRuns.LogWrite(k, cache.bufs[i].blockno, cache.bufs[i].data);
      LoggedIsPinned(cache.bufs, i, lh);
      LogWriteRuns(L, init, acts, run, a);
      HeldMayDiffer(L, cache.bufs, cache.content, run.view, i);
      Pin(i);
      acts, run := acts + [a], LogRuns.After(L, run, a);
    }

    /** The block is listed and its buffer pinned. */
    method Pin(i: nat)
      requires cache.Valid() && |lh| < LOGSIZE && i < NBUF && cache.bufs[i].busy && cache.bufs[i].valid
      requires cache.bufs[i].blockno >= 0
      modifies this`lh, cache`bufs
      ensures cache.Valid() && lh == LogRuns.Absorb(old(lh), old(cache.bufs)[i].blockno)
      ensures cache.bufs == old(cache.bufs)[i := old(cache.bufs)[i].(dirty := true)]
    {
      Absorbing(cache.bufs[i].blockno);
      cache.MarkDirty(i);
    }

    /** The loop of log_write() over the listed blocks, and the store behind it. */
    method Absorbing(b: nat)
      requires |lh| < LOGSIZE
      modifies this`lh
      ensures lh == LogRuns.Absorb(old(lh), b)
    {
      var k := 0;
      while k < |lh| && lh[k] != b
        invariant 0 <= k <= |lh| && b !in lh[..k]
      {
        k := k + 1;
      }
      if k == |lh| {
        lh := lh + [b];
      }
    }

    /** brelse() by a process whose changes, if any, are logged. */
    method Release(i: nat)
      requires Valid() && i < NBUF && cache.bufs[i].busy && IsHome(L, cache.disk, cache.bufs[i].blockno)
      requires cache.bufs[i].valid ==> cache.bufs[i].data == run.view[cache.bufs[i].blockno]
      modifies cache`bufs, cache.ring, cache.ring.next, cache.ring.prev
      ensures Valid() && cache.bufs == old(cache.bufs)[i := old(cache.bufs)[i].(busy := false)]
    {
      ghost var bufs, b := cache.bufs, cache.bufs[i].blockno;
      RunFacts(L, init, acts, run);
      if !bufs[i].dirty {
        CleanIsUnlogged(bufs, i, lh);
        assert run.disk[b] == run.view[b];
      }
      cache.Brelse(i);
      KeepsPins(bufs, i, cache.bufs[i]);
      PinsKept(bufs, cache.bufs, lh);
      ReleasedAgrees(L, bufs, cache.disk, cache.content, run.view, i);
    }

    /** One block of write_log(). */
    method WriteLogBlock(tail: nat) returns (ok: bool)
      requires Base() && Quiet() && tail < |lh|
      modifies cache`bufs, cache`disk, cache`trace, cache`content, cache.ring, cache.ring.next, cache.ring.prev
      ensures cache.Valid() && |cache.disk| == |old(cache.disk)|
      ensures ok <==> |lh| + Held(old(cache.bufs)) < NBUF
      ensures ok ==>
        && Quiet() && SameHeld(old(cache.bufs), cache.bufs)
        && cache.trace == old(cache.trace) + [Write(L.start + 1 + tail, old(cache.content)[lh[tail]])]
        && cache.content == old(cache.content)[L.start + 1 + tail := old(cache.content)[lh[tail]]]
      ensures !ok ==> cache.trace == old(cache.trace) && cache.content == old(cache.content)
    {
      ghost var bufs := cache.bufs;
      NoLogBlockPinned(bufs, lh, L, cache.content, L.start + tail + 1);
      RoomExactly(L, bufs, lh);
      ok := Transfer(cache, L.start + tail + 1, lh[tail], true);
      if ok {
        SamePins(bufs, cache.bufs, lh, L.start + tail + 1);
        HeldStaysApart(L, bufs, cache.bufs, lh);
      }
    }

    ghost predicate Copied(view: Image, trace0: seq<Write>, tail: nat)
      reads this, cache
    {
      CopiedTo(L, view, lh, trace0, cache.trace, cache.content, tail)
    }

    method WriteLogStep(ghost view: Image, ghost trace0: seq<Write>, tail: nat) returns (ok: bool)
      requires Base() && Quiet() && tail < |lh| && Copied(view, trace0, tail)
      modifies cache`bufs, cache`disk, cache`trace, cache`content, cache.ring, cache.ring.next, cache.ring.prev
      ensures Base() && |cache.disk| == |old(cache.disk)|
      ensures ok <==> |lh| + Held(old(cache.bufs)) < NBUF
      ensures ok ==> Quiet() && Copied(view, trace0, tail + 1) && SameHeld(old(cache.bufs), cache.bufs)
      ensures !ok ==> cache.trace == old(cache.trace)
    {
      CopyStep(L, view, lh, trace0, cache.trace, cache.content, tail);
      ok := WriteLogBlock(tail);
    }

    /** write_log() has copied the first tail blocks.  A proof looks inside by mentioning Nth(tail). */
    ghost predicate Copying(view: Image, trace0: seq<Write>, bufs0: seq<Buf>, tail: nat)
      reads this, cache, cache.ring, cache.ring.next, cache.ring.prev
    {
      forall k: nat {:trigger Nth(k)} :: k == tail ==>
        && Base() && Quiet() && |cache.disk| == |view| && SameHeld(bufs0, cache.bufs) && k <= |lh|
        && CopiedTo(L, view, lh, trace0, cache.trace, cache.content, k)
    }

    lemma IsCopying(view: Image, trace0: seq<Write>, bufs0: seq<Buf>, tail: nat)
      requires Base() && Quiet() && |cache.disk| == |view| && SameHeld(bufs0, cache.bufs) && tail <= |lh|
      requires Copied(view, trace0, tail)
      ensures Copying(view, trace0, bufs0, tail)
    {}

    /** One round of the loop, counting the buffers in use when it began. */
    method WriteLogPass(ghost view: Image, ghost trace0: seq<Write>, ghost bufs0: seq<Buf>, tail: nat)
      returns (ok: bool)
      requires tail < |lh| && Copying(view, trace0, bufs0, tail)
      modifies cache`bufs, cache`disk, cache`trace, cache`content, cache.ring, cache.ring.next, cache.ring.prev
      ensures ok <==> |lh| + Held(bufs0) < NBUF
      ensures if ok then Copying(view, trace0, bufs0, tail + 1)
              else cache.Valid() && |cache.disk| == |view| && cache.trace == old(cache.trace)
    {
      assert Nth(tail);
      HeldSame(bufs0, cache.bufs);
      ghost var bufs := cache.bufs;
      ok := WriteLogStep(view, trace0, tail);
      if ok {
        SameHeldTrans(bufs0, bufs, cache.bufs);
        IsCopying(view, trace0, bufs0, tail + 1);
      }
    }

    /** write_log(): false is the "bget: no buffers" panic. */
    method WriteLog() returns (ok: bool)
      requires Base() && Quiet() && lh != []
      modifies cache`bufs, cache`disk, cache`trace, cache`content, cache.ring, cache.ring.next, cache.ring.prev
      ensures cache.Valid() && |cache.disk| == |old(cache.disk)|
      ensures ok <==> |lh| + Held(old(cache.bufs)) < NBUF
      ensures ok ==> Quiet() && SameHeld(old(cache.bufs), cache.bufs)
      ensures ok ==> Copied(old(cache.content), old(cache.trace), |lh|)
      ensures !ok ==> cache.trace == old(cache.trace)
    {
      ghost var view, trace0, bufs0 := cache.content, cache.trace, cache.bufs;
      NothingCopied(L, view, lh, trace0);
      IsCopying(view, trace0, bufs0, 0);
      ok := WriteLogLoop(view, trace0, bufs0);
      assert Nth(|lh|);
    }

    method WriteLogLoop(ghost view: Image, ghost trace0: seq<Write>, ghost bufs0: seq<Buf>) returns (ok: bool)
      requires lh != [] && Copying(view, trace0, bufs0, 0) && cache.trace == trace0
      modifies cache`bufs, cache`disk, cache`trace, cache`content, cache.ring, cache.ring.next, cache.ring.prev
      ensures ok <==> |lh| + Held(bufs0) < NBUF
      ensures if ok then Copying(view, trace0, bufs0, |lh|)
              else cache.Valid() && |cache.disk| == |view| && cache.trace == trace0
    {
      var tail := 0;
      while tail < |lh|
        invariant tail <= |lh| && Copying(view, trace0, bufs0, tail)
        invariant if tail == 0 then cache.trace == trace0 else |lh| + Held(bufs0) < NBUF
      {
        ok := WriteLogPass(view, trace0, bufs0, tail);
        if !ok {
          return;
        }
        tail := tail + 1;
      }
      ok := true;
    }

    ghost predicate Installed(base: Image, trace0: seq<Write>, tail: nat)
      reads this, cache
    {
      InstalledTo(L, base, lh, trace0, cache.trace, cache.content, tail)
    }

    /** The buffers while install_trans() runs: after a commit the blocks still to be installed are
        pinned and the cache has room; in recovery nothing is pinned or in use. */
    ghost predicate InstallReady(pinned: bool, tail: nat)
      reads this, cache
    {
      && HeldApart(L, cache.bufs, lh)
      && if pinned then PinsFrom(cache.bufs, lh, tail) && |lh| + Held(cache.bufs) < NBUF
         else NoPins(cache.bufs) && Held(cache.bufs) == 0
    }

    /** One block of install_trans(). */
    method InstallBlock(tail: nat, ghost pinned: bool)
      requires Base() && tail < |lh| && InstallReady(pinned, tail)
      modifies cache`bufs, cache`disk, cache`trace, cache`content, cache.ring, cache.ring.next, cache.ring.prev
      ensures Base() && |cache.disk| == |old(cache.disk)| && InstallReady(pinned, tail + 1)
      ensures SameHeld(old(cache.bufs), cache.bufs)
      ensures cache.trace == old(cache.trace) + [Write(lh[tail], old(cache.content)[L.start + tail + 1])]
      ensures cache.content == old(cache.content)[lh[tail] := old(cache.content)[L.start + tail + 1]]
    {
      ghost var bufs := cache.bufs;
      RoomToInstall(L, bufs, lh, tail, pinned);
      assert IsLogBlock(L, L.start + tail + 1);
      var ok := Transfer(cache, L.start + tail + 1, lh[tail], false);
      assert ok;
      HeldStaysApart(L, bufs, cache.bufs, lh);
      if pinned {
        InstallUnpins(bufs, cache.bufs, lh, tail);
      } else {
        StillNoPins(bufs, cache.bufs, lh[tail]);
      }
    }

    method InstallStep(ghost base: Image, ghost trace0: seq<Write>, tail: nat, ghost pinned: bool)
      requires Base() && tail < |lh| && Installed(base, trace0, tail) && InstallReady(pinned, tail)
      modifies cache`bufs, cache`disk, cache`trace, cache`content, cache.ring, cache.ring.next, cache.ring.prev
      ensures Base() && |cache.disk| == |old(cache.disk)| && SameHeld(old(cache.bufs), cache.bufs)
      ensures Installed(base, trace0, tail + 1) && InstallReady(pinned, tail + 1)
    {
      InstallOne(L, base, lh, trace0, cache.trace, cache.content, tail);
      InstallBlock(tail, pinned);
    }

    /** install_trans() */
    method InstallTrans(ghost pinned: bool)
      requires Base() && InstallReady(pinned, 0)
      modifies cache`bufs, cache`disk, cache`trace, cache`content, cache.ring, cache.ring.next, cache.ring.prev
      ensures Base() && |cache.disk| == |old(cache.disk)| && SameHeld(old(cache.bufs), cache.bufs)
      ensures Installed(old(cache.content), old(cache.trace), |lh|) && InstallReady(pinned, |lh|)
    {
      ghost var base, trace0, bufs0 := cache.content, cache.trace, cache.bufs;
      var tail := 0;
      assert Installs(L, base, lh)[..0] == [];
      while tail < |lh|
        invariant tail <= |lh| && Base() && |cache.disk| == |base| && SameHeld(bufs0, cache.bufs)
        invariant Installed(base, trace0, tail) && InstallReady(pinned, tail)
      {
        ghost var bufs := cache.bufs;
        InstallStep(base, trace0, tail, pinned);
        SameHeldTrans(bufs0, bufs, cache.bufs);
        tail := tail + 1;
      }
    }

    /** write_head(): fill in the header buffer and write it. */
    method WriteHead()
      requires Base() && Quiet() && |lh| + Held(cache.bufs) < NBUF
      modifies cache`bufs, cache`disk, cache`trace, cache`content, cache.ring, cache.ring.next, cache.ring.prev
      ensures Base() && |cache.disk| == |old(cache.disk)| && Quiet() && SameHeld(old(cache.bufs), cache.bufs)
      ensures var w := Write(L.start, HeadBlock(old(cache.content)[L.start], lh));
              && cache.trace == old(cache.trace) + [w]
              && cache.content == old(cache.content)[L.start := w.data]
    {
      ghost var bufs := cache.bufs;
      NoLogBlockPinned(bufs, lh, L, cache.content, L.start);
      RoomExactly(L, bufs, lh);
      var i := ReadSecond(cache, L.start);
      var hb := FillHead(cache.bufs[i].data);
      StoreWriteRelease(cache, i, hb);
      SamePins(bufs, cache.bufs, lh, L.start);
      HeldStaysApart(L, bufs, cache.bufs, lh);
    }

    /** The loop of write_head() over the header's words. */
    method FillHead(prior: Block) returns (hb: Block)
      requires |lh| <= LOGSIZE
      ensures hb == HeadBlock(prior, lh)
    {
      var w := prior.words[0 := |lh|];
      var i := 0;
      while i < |lh|
        invariant i <= |lh| && |w| == BLOCK_WORDS
        invariant forall k :: 0 <= k < BLOCK_WORDS ==>
          w[k] == if k == 0 then |lh| else if k <= i then lh[k - 1] else prior.words[k]
      {
        w := w[i + 1 := lh[i]];
        i := i + 1;
      }
      hb := Block(w);
      assert w == HeadBlock(prior, lh).words;
    }

    /** bread() and brelse() of the header, with nothing pinned or in use. */
    method ReadHeadBlock() returns (head: Block)
      requires Base() && lh == [] && NoPins(cache.bufs) && Held(cache.bufs) == 0
      modifies cache`bufs, cache`disk, cache`trace, cache.ring, cache.ring.next, cache.ring.prev
      ensures Base() && NoPins(cache.bufs) && SameHeld(old(cache.bufs), cache.bufs)
      ensures cache.disk == old(cache.disk) && cache.trace == old(cache.trace) && head == cache.disk[L.start]
    {
      NoneHeld(cache.bufs);
      UnpinnedAgrees(cache.bufs, cache.disk, cache.content, L.start);
      assert Clean(cache.bufs[0]);
      ghost var bufs := cache.bufs;
      var i := ReadSecond(cache, L.start);
      assert Caches(cache.bufs[i], L.start) && !DirtyBlock(cache.bufs, L.start);
      head := cache.bufs[i].data;
      cache.Brelse(i);
    }

    /** read_head() with its copy loop. */
    method LoadHead()
      requires Base() && lh == [] && NoPins(cache.bufs) && Held(cache.bufs) == 0 && GoodHead(L, cache.disk)
      modifies this`lh, cache`bufs, cache`disk, cache`trace, cache.ring, cache.ring.next, cache.ring.prev
      ensures Base() && NoPins(cache.bufs) && Held(cache.bufs) == 0
      ensures lh == ReadHead(L, old(cache.disk)) && cache.disk == old(cache.disk) && cache.trace == old(cache.trace)
    {
      ghost var bufs := cache.bufs;
      var head := ReadHeadBlock();
      HeldSame(bufs, cache.bufs);
      lh := CopyHead(head.words);
      assert lh == ReadHead(L, cache.disk);
    }

    method CopyHead(head: Words) returns (blocks: seq<nat>)
      requires 0 <= head[0] <= LOGSIZE && forall i :: 0 < i <= head[0] ==> head[i] >= 0
      ensures |blocks| == head[0] && forall i :: 0 <= i < |blocks| ==> blocks[i] == head[i + 1]
    {
      blocks := [];
      while |blocks| < head[0]
        invariant |blocks| <= head[0] && forall i :: 0 <= i < |blocks| ==> blocks[i] == head[i + 1]
      {
        blocks := blocks + [head[|blocks| + 1]];
      }
    }

    /** The transaction is committed: its blocks are in the log and the header lists them. */
    ghost predicate Committed(view: Image, trace0: seq<Write>)
      reads this, cache
    {
      && Loggable(L, view, lh) && Fits(L, view) && |cache.content| == |view|
      && cache.trace == trace0 + LogCopies(L, view, lh) + [Write(L.start, HeadBlock(view[L.start], lh))]
      && cache.content[L.start] == HeadBlock(view[L.start], lh)
      && forall i :: 0 <= i < |lh| ==> cache.content[L.start + 1 + i] == view[lh[i]]
    }

    /** commit()'s first write_head(). */
    method CommitHead(ghost view: Image, ghost trace0: seq<Write>)
      requires Base() && Quiet() && lh != [] && |lh| + Held(cache.bufs) < NBUF && Copied(view, trace0, |lh|)
      modifies cache`bufs, cache`disk, cache`trace, cache`content, cache.ring, cache.ring.next, cache.ring.prev
      ensures Base() && Quiet() && Committed(view, trace0) && SameHeld(old(cache.bufs), cache.bufs)
    {
      All(LogCopies(L, view, lh));
      WriteHead();
    }

    /** commit()'s install_trans(). */
    method InstallCommitted(ghost view: Image, ghost trace0: seq<Write>)
      requires Base() && Quiet() && |lh| + Held(cache.bufs) < NBUF && Committed(view, trace0)
      modifies cache`bufs, cache`disk, cache`trace, cache`content, cache.ring, cache.ring.next, cache.ring.prev
      ensures Base() && NoPins(cache.bufs) && SameHeld(old(cache.bufs), cache.bufs)
      ensures HeldApart(L, cache.bufs, lh)
      ensures cache.trace == old(cache.trace) + HomeWrites(L, view, lh)
      ensures cache.content[L.start] == old(cache.content)[L.start]
    {
      HomesInstalled(L, cache.content, view, lh);
      All(Installs(L, cache.content, lh));
      assert lh[0..] == lh && lh[|lh|..] == [];
      InstallTrans(true);
    }

    /** The rest of commit() after write_log(). */
    method CommitTail(ghost view: Image, ghost d: Image, ghost trace0: seq<Write>)
      requires Base() && Quiet() && lh != [] && |lh| + Held(cache.bufs) < NBUF && Copied(view, trace0, |lh|)
      requires Fits(L, d) && |d| == |view| && d[L.start] == view[L.start]
      modifies this`lh, cache`bufs, cache`disk, cache`trace, cache`content, cache.ring, cache.ring.next, cache.ring.prev
      ensures Base() && Quiet() && lh == [] && SameHeld(old(cache.bufs), cache.bufs)
      ensures cache.trace == trace0 + CommitWrites(L, d, view, old(lh))
    {
      ghost var b0 := cache.bufs;
      HeadAndInstall(view, trace0);
      ghost var b2 := cache.bufs;
      HeldSame(b0, b2);
      lh := [];
      WriteHead();
      SameHeldTrans(b0, b2, cache.bufs);
      TraceIsCommit(trace0, cache.trace, L, d, view, old(lh));
    }

    method HeadAndInstall(ghost view: Image, ghost trace0: seq<Write>)
      requires Base() && Quiet() && lh != [] && |lh| + Held(cache.bufs) < NBUF && Copied(view, trace0, |lh|)
      modifies cache`bufs, cache`disk, cache`trace, cache`content, cache.ring, cache.ring.next, cache.ring.prev
      ensures Base() && NoPins(cache.bufs) && SameHeld(old(cache.bufs), cache.bufs) && HeldApart(L, cache.bufs, lh)
      ensures |cache.content| == |view| && L.start < |view|
      ensures var head := HeadBlock(view[L.start], lh);
              && cache.content[L.start] == head
              && cache.trace == trace0 + LogCopies(L, view, lh) + [Write(L.start, head)] + HomeWrites(L, view, lh)
    {
      ghost var b0 := cache.bufs;
      CommitHead(view, trace0);
      ghost var b1 := cache.bufs;
      HeldSame(b0, b1);
      InstallCommitted(view, trace0);
      SameHeldTrans(b0, b1, cache.bufs);
    }

    /** commit(): false is the "bget: no buffers" panic.  With others using buffers meanwhile it happens, before
        anything has been written, exactly when their buffers and the logged blocks fill the cache. */
    method Commit() returns (ok: bool)
      requires Base() && Quiet()
      modifies this`lh, cache`bufs, cache`disk, cache`trace, cache`content, cache.ring, cache.ring.next, cache.ring.prev
      ensures cache.Valid()
      ensures ok <==> old(lh) == [] || |old(lh)| + Held(old(cache.bufs)) < NBUF
      ensures ok ==> Base() && Quiet() && lh == [] && SameHeld(old(cache.bufs), cache.bufs)
      ensures ok ==> cache.trace == old(cache.trace) + CommitWrites(L, old(cache.disk), old(cache.content), old(lh))
      ensures !ok ==> cache.trace == old(cache.trace)
    {
      if |lh| == 0 {
        return true;
      }
      ghost var view, d, trace0, bufs0 := cache.content, cache.disk, cache.trace, cache.bufs;
      NoLogBlockPinned(cache.bufs, lh, L, cache.content, L.start);
      UnpinnedAgrees(cache.bufs, d, view, L.start);
      ok := WriteLog();
      if ok {
        HeldSame(bufs0, cache.bufs);
        ghost var bufs := cache.bufs;
        CommitTail(view, d, trace0);
        SameHeldTrans(bufs0, bufs, cache.bufs);
      }
    }

    /** end_op() of operation k, with the commit it may have to make; false is the panic inside commit().
        The run takes the step, and goes through the whole commit. */
    method EndOp(ghost k: nat) returns (ok: bool)
      requires Valid() && k < outstanding && (outstanding == 1 ==> HeldApart(L, cache.bufs, lh))
      modifies this, cache`bufs, cache`disk, cache`trace, cache`content, cache.ring, cache.ring.next, cache.ring.prev
      ensures ok <==> old(outstanding) > 1 || old(lh) == [] || |old(lh)| + Held(old(cache.bufs)) < NBUF
      ensures ok ==> Valid() && SameHeld(old(cache.bufs), cache.bufs) && LogRuns.Enabled(L, old(run), LogRuns.EndOp(k))
      ensures ok ==> var t := LogRuns.After(L, old(run), LogRuns.EndOp(k));
                     if old(outstanding) > 1 then run == t
                     else LogRuns.AboutToCommit(L, t) && run == LogRuns.CommitResult(L, t)
    {
      EndOpRuns(L, init, acts, run, k);
      outstanding := outstanding - 1;
      acts, run := acts + [LogRuns.EndOp(k)], LogRuns.After(L, run, LogRuns.EndOp(k));
      if outstanding > 0 {
        return true;
      }
      committing := true;
      ok := CommitAndFollow();
      if ok {
        committing := false;
      }
    }

    /** commit(), and the run through it. */
    method CommitAndFollow() returns (ok: bool)
      requires Base() && Quiet() && RunTo(L, init, acts, run) && LogRuns.AboutToCommit(L, run)
      requires run.disk == cache.disk && run.lh == lh && run.ops == []
      requires ViewHeld(L, cache.bufs, cache.content, run.view)
      modifies this`lh, this`acts, this`run, cache`bufs, cache`disk, cache`trace, cache`content, cache.ring,
               cache.ring.next, cache.ring.prev
      ensures ok <==> old(lh) == [] || |old(lh)| + Held(old(cache.bufs)) < NBUF
      ensures ok ==> Base() && Quiet() && SameHeld(old(cache.bufs), cache.bufs) && RunTo(L, init, acts, run)
      ensures ok ==> run == LogRuns.CommitResult(L, old(run)) && run.disk == cache.disk && lh == []
      ensures ok ==> ViewHeld(L, cache.bufs, cache.content, run.view)
    {
      ghost var d, view, t := cache.disk, run.view, cache.trace;
      CommitFacts(L, init, acts, run);
      HeldViewsSame(L, cache.bufs, cache.content, view, lh);
      CommitWritesSame(L, d, cache.content, view, lh);
      ok := Commit();
      if ok {
        ghost var ws := CommitWrites(L, d, view, old(lh));
        MoreWritten(cache.disk0, t, ws);
        CommitDone(L, d, view, old(lh));
        SettledView(L, cache.bufs, cache.disk, cache.content, view);
        ghost var more := LogRuns.CommitRun(L, LogRuns.Boot(init), acts, run);
        acts, run := more, LogRuns.CommitResult(L, run);
      }
    }

    /** initlog(): recovery of the disk that a run of an earlier log left behind when it crashed, acts0 being that
        run; [] is the run of a disk that mkfs just made. */
    method Initlog(ghost init0: Image, ghost acts0: seq<LogRuns.Action>, ghost run0: LogRuns.State)
      requires Base() && lh == [] && outstanding == 0 && !committing && NoPins(cache.bufs) && Held(cache.bufs) == 0
      requires cache.content == cache.disk && RunTo(L, init0, acts0, run0) && run0.disk == cache.disk
      modifies this, cache`bufs, cache`disk, cache`trace, cache`content, cache.ring, cache.ring.next, cache.ring.prev
      ensures Valid() && init == init0 && Held(cache.bufs) == 0
      ensures LogRuns.Enabled(L, run0, LogRuns.Crash)
      ensures var c := LogRuns.After(L, run0, LogRuns.Crash);
              LogRuns.AboutToRecover(L, c) && run == LogRuns.RecoverResult(L, c)
    {
      ghost var d, t := cache.disk, cache.trace;
      CrashRuns(L, init0, acts0, run0);
      Recover();
      MoreWritten(cache.disk0, t, RecoverWrites(L, d));
      ghost var c := LogRuns.After(L, run0, LogRuns.Crash);
      ghost var more := LogRuns.RecoverRun(L, LogRuns.Boot(init0), acts0 + [LogRuns.Crash], c);
      init, acts, run := init0, more, LogRuns.RecoverResult(L, c);
      SettledView(L, cache.bufs, cache.disk, cache.content, cache.disk);
    }

    /** Whatever was called so far, a crash now recovers to the disk that mkfs made with the committed groups of
        operations carried out in order, and no operation is split. */
    lemma CrashNow()
      requires Valid()
      ensures GoodHead(L, cache.disk) && LogRuns.AllHome(L, init, LogRuns.Flatten(run.durable))
      ensures SameHome(L, Recovered(L, cache.disk), LogRuns.Play(L, init, LogRuns.Flatten(run.durable)))
      ensures forall op :: || LogRuns.Of(LogRuns.Flatten(run.durable), op) == []
                           || LogRuns.Of(LogRuns.Flatten(run.durable), op) == LogRuns.Of(run.issued, op)
    {
      LogRuns.CrashSafety(L, init, acts);
    }

    /** recover_from_log(), with nothing pinned or in use. */
    method Recover()
      requires Base() && lh == [] && NoPins(cache.bufs) && Held(cache.bufs) == 0 && GoodHead(L, cache.disk)
      requires cache.content == cache.disk
      modifies this`lh, cache`bufs, cache`disk, cache`trace, cache`content, cache.ring, cache.ring.next, cache.ring.prev
      ensures Base() && Quiet() && lh == [] && Held(cache.bufs) == 0
      ensures cache.trace == old(cache.trace) + RecoverWrites(L, old(cache.disk))
    {
      ghost var d, trace0 := cache.disk, cache.trace;
      LoadHead();
      NoneHeld(cache.bufs);
      ghost var bufs := cache.bufs;
      All(Installs(L, d, lh));
      InstallTrans(false);
      HeldSame(bufs, cache.bufs);
      NoneHeld(cache.bufs);
      lh := [];
      bufs := cache.bufs;
      WriteHead();
      HeldSame(bufs, cache.bufs);
      TraceIsRecover(trace0, cache.trace, L, d);
    }
  }
}
