/** The on-disk redo log of log.c: what commit() and recover_from_log() write, block by block,
    and what recovery makes of the disk when either is cut short between any two writes. */
module LogCrash {
  import opened Disk

  const MAXOPBLOCKS: nat := 10
  const LOGSIZE: nat := 30

  /** log.start and log.size: the header is block start, the copies follow it. */
  datatype Layout = Layout(start: nat, size: nat)

  predicate IsLogBlock(L: Layout, b: int) {
    L.start <= b < L.start + L.size
  }

  predicate Fits(L: Layout, d: Image) {
    0 < L.size && L.start + L.size <= |d|
  }

  /** A block outside the log: the only kind operations may log. */
  predicate IsHome(L: Layout, d: Image, b: int) {
    0 <= b < |d| && !IsLogBlock(L, b)
  }

  ghost predicate SameHome(L: Layout, x: Image, y: Image) {
    |x| == |y| && forall b {:trigger x[b]} {:trigger y[b]} :: IsHome(L, x, b) ==> x[b] == y[b]
  }

  predicate Distinct(s: seq<nat>) {
    forall i, j :: 0 <= i < j < |s| ==> s[i] != s[j]
  }

  /** The block numbers a transaction may hold: home blocks, at most what the log has room for. */
  predicate Loggable(L: Layout, d: Image, lh: seq<nat>) {
    && |lh| <= LOGSIZE && |lh| < L.size
    && forall i :: 0 <= i < |lh| ==> IsHome(L, d, lh[i])
  }

  /** write_head: word 0 is the count, the next words the block numbers; later words keep
      whatever an earlier transaction left there. */
  function HeadBlock(prior: Block, lh: seq<nat>): (b: Block)
    requires |lh| <= LOGSIZE
    ensures b.words[0] == |lh|
  {
    Block(seq(BLOCK_WORDS, i requires 0 <= i < BLOCK_WORDS =>
      if i == 0 then |lh| else if i <= |lh| then lh[i - 1] else prior.words[i]))
  }

  predicate GoodHead(L: Layout, d: Image) {
    && Fits(L, d)
    && 0 <= d[L.start].words[0] <= LOGSIZE && d[L.start].words[0] < L.size
    && (forall i :: 0 < i <= d[L.start].words[0] ==> IsHome(L, d, d[L.start].words[i]))
    && (forall i, j :: 0 < i < j <= d[L.start].words[0] ==> d[L.start].words[i] != d[L.start].words[j])
  }

  /** read_head: the block numbers the header lists. */
  function ReadHead(L: Layout, d: Image): (lh: seq<nat>)
    requires GoodHead(L, d)
    ensures |lh| == d[L.start].words[0] && Loggable(L, d, lh) && Distinct(lh)
  {
    seq(d[L.start].words[0], i requires 0 <= i < d[L.start].words[0] => d[L.start].words[i + 1])
  }

  /** write_log: copy each logged block from the cache to its log block. */
  function LogCopies(L: Layout, view: Image, lh: seq<nat>): (ws: seq<Write>)
    requires Loggable(L, view, lh)
    ensures |ws| == |lh|
  {
    seq(|lh|, i requires 0 <= i < |lh| => Write(L.start + 1 + i, view[lh[i]]))
  }

  /** install_trans: copy each log block of d to its home location. */
  function Installs(L: Layout, d: Image, lh: seq<nat>): (ws: seq<Write>)
    requires Loggable(L, d, lh) && Fits(L, d)
    ensures |ws| == |lh|
  {
    seq(|lh|, i requires 0 <= i < |lh| => Write(lh[i], d[L.start + 1 + i]))
  }

  /** install_trans inside commit(): the log blocks were just copied from view. */
  function HomeWrites(L: Layout, view: Image, lh: seq<nat>): (ws: seq<Write>)
    requires Loggable(L, view, lh)
    ensures |ws| == |lh|
  {
    seq(|lh|, i requires 0 <= i < |lh| => Write(lh[i], view[lh[i]]))
  }

  /** All disk writes of commit(), in order, starting from disk d with cache contents view: the
      log copies, the header, the home blocks, the emptied header. */
  function CommitWrites(L: Layout, d: Image, view: Image, lh: seq<nat>): (ws: seq<Write>)
    requires Loggable(L, view, lh) && Fits(L, d) && |d| == |view|
    ensures |ws| == (if lh == [] then 0 else 2 * |lh| + 2) && InRange(d, ws)
  {
    if lh == [] then []
    else
      var head := HeadBlock(d[L.start], lh);
      CommitList(L, head, HeadBlock(head, []), view, lh)
  }

  function CommitList(L: Layout, head: Block, clear: Block, view: Image, lh: seq<nat>): (ws: seq<Write>)
    requires Loggable(L, view, lh) && Fits(L, view)
    ensures |ws| == 2 * |lh| + 2 && InRange(view, ws)
  {
    var n := |lh|;
    seq(2 * n + 2, i requires 0 <= i < 2 * n + 2 =>
      if i < n then Write(L.start + 1 + i, view[lh[i]])
      else if i == n then Write(L.start, head)
      else if i <= 2 * n then Write(lh[i - n - 1], view[lh[i - n - 1]])
      else Write(L.start, clear))
  }

  /** All disk writes of recover_from_log(), in order, on disk d. */
  function RecoverWrites(L: Layout, d: Image): (ws: seq<Write>)
    requires GoodHead(L, d)
    ensures |ws| == d[L.start].words[0] + 1 && InRange(d, ws)
  {
    InstallList(L, d, ReadHead(L, d), HeadBlock(d[L.start], []))
  }

  function InstallList(L: Layout, d: Image, lh: seq<nat>, clear: Block): (ws: seq<Write>)
    requires Loggable(L, d, lh) && Fits(L, d)
    ensures |ws| == |lh| + 1 && InRange(d, ws)
  {
    seq(|lh| + 1, i requires 0 <= i < |lh| + 1 =>
      if i < |lh| then Write(lh[i], d[L.start + 1 + i]) else Write(L.start, clear))
  }

  /** The disk after a completed recovery. */
  function Recovered(L: Layout, d: Image): (r: Image)
    requires GoodHead(L, d)
    ensures |r| == |d|
  {
    ApplyAll(d, RecoverWrites(L, d))
  }

  /** With an empty header, recovery changes nothing outside the log. */
  lemma EmptyHeadRecovers(L: Layout, d: Image)
    requires Fits(L, d) && d[L.start].words[0] == 0
    ensures GoodHead(L, d) && SameHome(L, Recovered(L, d), d)
  {
    var ws := RecoverWrites(L, d);
    forall b | IsHome(L, d, b)
      ensures Recovered(L, d)[b] == d[b]
    {
      Untouched(d, ws, |ws|, b);
    }
  }

  /** A completed recovery leaves the header empty. */
  lemma RecoveredHead(L: Layout, d: Image)
    requires GoodHead(L, d)
    ensures Recovered(L, d)[L.start].words[0] == 0
  {}

  /** Until recovery empties the header, the log area is as it was. */
  lemma LogStays(L: Layout, d: Image, j: nat)
    requires GoodHead(L, d) && j <= d[L.start].words[0]
    ensures var cut := ApplyFirst(d, RecoverWrites(L, d), j);
            GoodHead(L, cut) && RecoverWrites(L, cut) == RecoverWrites(L, d)
  {}

  lemma RecoverCut(L: Layout, d: Image, j: nat)
    requires GoodHead(L, d) && j <= d[L.start].words[0]
    ensures GoodHead(L, ApplyFirst(d, RecoverWrites(L, d), j))
    ensures Recovered(L, ApplyFirst(d, RecoverWrites(L, d), j)) == Recovered(L, d)
  {
    LogStays(L, d, j);
    Replay(d, RecoverWrites(L, d), j);
  }

  /** Recovery interrupted after any number of writes and started again ends where an
      uninterrupted recovery ends. */
  lemma RecoverCrash(L: Layout, d: Image, j: nat)
    requires GoodHead(L, d) && j <= |RecoverWrites(L, d)|
    ensures GoodHead(L, ApplyFirst(d, RecoverWrites(L, d), j))
    ensures SameHome(L, Recovered(L, ApplyFirst(d, RecoverWrites(L, d), j)), Recovered(L, d))
  {
    if j <= d[L.start].words[0] {
      RecoverCut(L, d, j);
    } else {
      assert j == |RecoverWrites(L, d)|;
      RecoveredHead(L, d);
      EmptyHeadRecovers(L, Recovered(L, d));
    }
  }

  /** Before the header write the disk's home blocks are untouched and the header still says
      that nothing is committed. */
  lemma CutBeforeHead(L: Layout, d: Image, head: Block, clear: Block, view: Image, lh: seq<nat>, j: nat)
    requires Loggable(L, view, lh) && Fits(L, view) && |d| == |view| && d[L.start].words[0] == 0
    requires j <= |lh|
    ensures var cut := ApplyFirst(d, CommitList(L, head, clear, view, lh), j);
            GoodHead(L, cut) && SameHome(L, Recovered(L, cut), d)
  {
    var ws := CommitList(L, head, clear, view, lh);
    var cut := ApplyFirst(d, ws, j);
    forall b | IsHome(L, d, b)
      ensures cut[b] == d[b]
    {
      Untouched(d, ws, j, b);
    }
    Untouched(d, ws, j, L.start);
    EmptyHeadRecovers(L, cut);
  }

  /** Once the header is on disk it stays there until the end... */
  lemma HeadHolds(L: Layout, d: Image, head: Block, clear: Block, view: Image, lh: seq<nat>, j: nat)
    requires Loggable(L, view, lh) && Fits(L, view) && |d| == |view| && |lh| < j <= 2 * |lh| + 1
    ensures ApplyFirst(d, CommitList(L, head, clear, view, lh), j)[L.start] == head
  {}

  /** ...the log block of each entry holds its new contents... */
  lemma LogHolds(L: Layout, d: Image, head: Block, clear: Block, view: Image, lh: seq<nat>, j: nat, i: nat)
    requires Loggable(L, view, lh) && Fits(L, view) && |d| == |view| && |lh| < j <= 2 * |lh| + 2 && i < |lh|
    ensures ApplyFirst(d, CommitList(L, head, clear, view, lh), j)[L.start + 1 + i] == view[lh[i]]
  {
    LastWrite(d, CommitList(L, head, clear, view, lh), j, i);
  }

  /** ...and each home block is old until it is installed. */
  lemma HomeIsOldOrNew(L: Layout, d: Image, head: Block, clear: Block, view: Image, lh: seq<nat>, j: nat, b: nat)
    requires Loggable(L, view, lh) && Distinct(lh) && Fits(L, view) && |d| == |view|
    requires |lh| < j <= 2 * |lh| + 2 && IsHome(L, d, b)
    ensures var cut := ApplyFirst(d, CommitList(L, head, clear, view, lh), j);
            && (b !in lh ==> cut[b] == d[b])
            && (b in lh && j > 2 * |lh| ==> cut[b] == view[b])
  {
    var ws := CommitList(L, head, clear, view, lh);
    if b !in lh {
      Untouched(d, ws, j, b);
    } else if j > 2 * |lh| {
      var i :| 0 <= i < |lh| && lh[i] == b;
      LastWrite(d, ws, j, |lh| + 1 + i);
    }
  }

  /** What write_head() wrote, read_head() reads back, whatever the block held before. */
  lemma HeadRoundTrip(L: Layout, d: Image, prior: Block, lh: seq<nat>)
    requires Fits(L, d) && Loggable(L, d, lh) && Distinct(lh) && d[L.start] == HeadBlock(prior, lh)
    ensures GoodHead(L, d) && ReadHead(L, d) == lh
  {}

  /** Installing gives block b the logged value, if the log lists b. */
  lemma Reinstalled(L: Layout, cut: Image, lh: seq<nat>, clear: Block, view: Image, b: nat)
    requires Loggable(L, cut, lh) && Distinct(lh) && Fits(L, cut) && |view| == |cut| && IsHome(L, cut, b)
    requires forall i :: 0 <= i < |lh| ==> cut[L.start + 1 + i] == view[lh[i]]
    ensures var done := ApplyAll(cut, InstallList(L, cut, lh, clear));
            && (b in lh ==> done[b] == view[b])
            && (b !in lh ==> done[b] == cut[b])
  {
    var ws := InstallList(L, cut, lh, clear);
    if b in lh {
      var i :| 0 <= i < |lh| && lh[i] == b;
      LastWrite(cut, ws, |ws|, i);
    } else {
      Untouched(cut, ws, |ws|, b);
    }
  }

  /** After the header write recovery installs the whole transaction. */
  lemma CutAfterHead(L: Layout, d: Image, clear: Block, view: Image, lh: seq<nat>, j: nat)
    requires Loggable(L, view, lh) && Distinct(lh) && Fits(L, d) && |d| == |view|
    requires forall b {:trigger d[b]} {:trigger view[b]} :: IsHome(L, d, b) && b !in lh ==> d[b] == view[b]
    requires |lh| < j <= 2 * |lh| + 1
    ensures var cut := ApplyFirst(d, CommitList(L, HeadBlock(d[L.start], lh), clear, view, lh), j);
            GoodHead(L, cut) && SameHome(L, Recovered(L, cut), view)
  {
    var head := HeadBlock(d[L.start], lh);
    var cut := ApplyFirst(d, CommitList(L, head, clear, view, lh), j);
    HeadHolds(L, d, head, clear, view, lh, j);
    forall i | 0 <= i < |lh|
      ensures cut[L.start + 1 + i] == view[lh[i]]
    {
      LogHolds(L, d, head, clear, view, lh, j, i);
    }
    HeadRoundTrip(L, cut, d[L.start], lh);
    forall b | IsHome(L, d, b)
      ensures Recovered(L, cut)[b] == view[b]
    {
      HomeIsOldOrNew(L, d, head, clear, view, lh, j, b);
      Reinstalled(L, cut, lh, HeadBlock(cut[L.start], []), view, b);
    }
  }

  /** A completed commit() leaves the header empty and every home block new. */
  lemma CommitDone(L: Layout, d: Image, view: Image, lh: seq<nat>)
    requires Loggable(L, view, lh) && Distinct(lh) && Fits(L, d) && |d| == |view| && d[L.start].words[0] == 0
    requires forall b {:trigger d[b]} {:trigger view[b]} :: IsHome(L, d, b) && b !in lh ==> d[b] == view[b]
    ensures var done := ApplyAll(d, CommitWrites(L, d, view, lh));
            done[L.start].words[0] == 0 && SameHome(L, done, view)
  {
    if lh != [] {
      var ws := CommitWrites(L, d, view, lh);
      var head := HeadBlock(d[L.start], lh);
      var done := ApplyAll(d, ws);
      LastWrite(d, ws, |ws|, |ws| - 1);
      forall b | IsHome(L, d, b)
        ensures done[b] == view[b]
      {
        HomeIsOldOrNew(L, d, head, HeadBlock(head, []), view, lh, |ws|, b);
      }
    }
  }

  lemma SameHomeTrans(L: Layout, x: Image, y: Image, z: Image)
    requires SameHome(L, x, y) && SameHome(L, y, z)
    ensures SameHome(L, x, z)
  {
    forall b | IsHome(L, x, b)
      ensures x[b] == z[b]
    {
      assert IsHome(L, y, b) && x[b] == y[b];
    }
  }

  lemma CrashEarly(L: Layout, d: Image, view: Image, lh: seq<nat>, j: nat)
    requires Loggable(L, view, lh) && Distinct(lh) && Fits(L, d) && |d| == |view| && d[L.start].words[0] == 0
    requires j <= |lh| && j <= |CommitWrites(L, d, view, lh)|
    ensures var cut := ApplyFirst(d, CommitWrites(L, d, view, lh), j);
            GoodHead(L, cut) && SameHome(L, Recovered(L, cut), d)
  {
    if lh == [] {
      EmptyHeadRecovers(L, d);
    } else {
      var head := HeadBlock(d[L.start], lh);
      CutBeforeHead(L, d, head, HeadBlock(head, []), view, lh, j);
    }
  }

  lemma CrashLate(L: Layout, d: Image, view: Image, lh: seq<nat>, j: nat)
    requires Loggable(L, view, lh) && Distinct(lh) && Fits(L, d) && |d| == |view| && d[L.start].words[0] == 0
    requires forall b {:trigger d[b]} {:trigger view[b]} :: IsHome(L, d, b) && b !in lh ==> d[b] == view[b]
    requires |lh| < j <= 2 * |lh| + 1 && lh != []
    ensures var cut := ApplyFirst(d, CommitWrites(L, d, view, lh), j);
            GoodHead(L, cut) && SameHome(L, Recovered(L, cut), view)
  {
    CutAfterHead(L, d, HeadBlock(HeadBlock(d[L.start], lh), []), view, lh, j);
  }

  lemma CrashAfter(L: Layout, d: Image, view: Image, lh: seq<nat>)
    requires Loggable(L, view, lh) && Distinct(lh) && Fits(L, d) && |d| == |view| && d[L.start].words[0] == 0
    requires forall b {:trigger d[b]} {:trigger view[b]} :: IsHome(L, d, b) && b !in lh ==> d[b] == view[b]
    ensures var done := ApplyAll(d, CommitWrites(L, d, view, lh));
            GoodHead(L, done) && SameHome(L, Recovered(L, done), view)
  {
    var done := ApplyAll(d, CommitWrites(L, d, view, lh));
    CommitDone(L, d, view, lh);
    EmptyHeadRecovers(L, done);
    SameHomeTrans(L, Recovered(L, done), done, view);
  }

  /** Crash atomicity.  However many of commit()'s writes reach the disk, recovery leaves the
      home blocks all old or all new, and all new exactly when the header write (the write
      after the |lh| log copies) is among them. */
  lemma CommitCrash(L: Layout, d: Image, view: Image, lh: seq<nat>, j: nat)
    requires Loggable(L, view, lh) && Distinct(lh) && Fits(L, d) && |d| == |view| && d[L.start].words[0] == 0
    requires forall b {:trigger d[b]} {:trigger view[b]} :: IsHome(L, d, b) && b !in lh ==> d[b] == view[b]
    requires j <= |CommitWrites(L, d, view, lh)|
    ensures GoodHead(L, ApplyFirst(d, CommitWrites(L, d, view, lh), j))
    ensures SameHome(L, Recovered(L, ApplyFirst(d, CommitWrites(L, d, view, lh), j)), if j <= |lh| then d else view)
  {
    if j <= |lh| {
      CrashEarly(L, d, view, lh, j);
    } else if j <= 2 * |lh| + 1 {
      CrashLate(L, d, view, lh, j);
    } else {
      assert j == |CommitWrites(L, d, view, lh)|;
      CrashAfter(L, d, view, lh);
    }
  }
}
