/** How many blocks a call logs.  log.c lets an operation log MAXOPBLOCKS blocks; file.c cuts a write into
    chunks by another measure. */
module FsCount {
  import opened Blocks
  import opened FsState
  import opened FileContents
  import opened FsDisk
  import opened Disk
  import LogCrash

  function Blocknos(ws: seq<Write>): (t: set<nat>) {
    set k: nat | k < |ws| :: ws[k].blockno
  }

  lemma OneMoreBlock(ws: seq<Write>, w: Write)
    ensures Blocknos(ws + [w]) == Blocknos(ws) + {w.blockno}
  {
    var r := ws + [w];
    forall b: nat | b in Blocknos(ws) ensures b in Blocknos(r) {
      var k: nat :| k < |ws| && ws[k].blockno == b;
      assert r[k].blockno == b;
    }
    assert r[|ws|].blockno == w.blockno;
  }

  // Which blocks a write logs: the ones it fills, the ones it allocates with their bitmap blocks, and the
  // indirect block if it gets an entry.

  /** Slot s is that of one of the blocks lo .. hi. */
  predicate InSpan(s: nat, lo: nat, hi: nat) {
    (s < NDIRECT && lo <= s < hi) || (s > NDIRECT && lo <= s - 1 < hi)
  }

  function Spanned(own: Owners, i: nat, lo: nat, hi: nat): (t: set<nat>) {
    set b | b in own && own[b].inum == i && InSpan(own[b].index, lo, hi)
  }

  function Fresh(own0: Owners, own: Owners): (t: set<nat>) {
    set b | b in own && b !in own0
  }

  function Maps(sb: Super, f: set<nat>): (t: set<nat>) {
    set b | b in f :: Bblock(sb, b)
  }

  predicate HasEntry(own: Owners, f: set<nat>) {
    exists b :: b in f && b in own && own[b].index > NDIRECT
  }

  function Indirect(own: Owners, i: nat, f: set<nat>): (t: set<nat>) {
    set c | c in own && own[c] == Slot(i, NDIRECT) && HasEntry(own, f)
  }

  function Logs(sb: Super, own0: Owners, own: Owners, i: nat, lo: nat, hi: nat): (t: set<nat>) {
    var f := Fresh(own0, own);
    f + Maps(sb, f) + Indirect(own, i, f) + Spanned(own, i, lo, hi)
  }

  ghost predicate Grown(own0: Owners, own: Owners) {
    forall b: nat {:trigger b in own0} :: b in own0 ==> b in own && own[b] == own0[b]
  }

  /** What was allocated is for blocks lo .. hi of file i. */
  ghost predicate FreshIn(own0: Owners, own: Owners, i: nat, lo: nat, hi: nat) {
    forall b: nat {:trigger b in own} :: b in own && b !in own0 ==>
      own[b].inum == i && (own[b].index == NDIRECT || InSpan(own[b].index, lo, hi))
  }

  /** Between the block numbers t0 and t, exactly those were logged. */
  ghost predicate Exactly(sb: Super, t0: set<nat>, t: set<nat>, own0: Owners, own: Owners, i: nat, lo: nat, hi: nat,
                          last: nat) {
    Grown(own0, own) && FreshIn(own0, own, i, lo, last) && t == t0 + Logs(sb, own0, own, i, lo, hi)
  }

  predicate Open(k: nat) {
    true
  }

  /** What was allocated for block bn was logged.  A proof looks inside by mentioning Open(bn). */
  ghost predicate Allocated(sb: Super, t0: set<nat>, t: set<nat>, own0: Owners, own: Owners, i: nat, bn: nat) {
    forall k: nat {:trigger Open(k)} :: k == bn ==> Exactly(sb, t0, t, own0, own, i, k, k, k + 1)
  }

  /** Besides, the blocks lo .. hi were.  A proof looks inside by mentioning Open(hi). */
  ghost predicate Logging(sb: Super, t0: set<nat>, t: set<nat>, own0: Owners, own: Owners, i: nat, lo: nat, hi: nat) {
    forall k: nat {:trigger Open(k)} :: k == hi ==> Exactly(sb, t0, t, own0, own, i, lo, k, k)
  }

  lemma NothingLogged(sb: Super, t: set<nat>, own: Owners, i: nat, lo: nat)
    ensures Allocated(sb, t, t, own, own, i, lo) && Logging(sb, t, t, own, own, i, lo, lo)
  {
    assert Logs(sb, own, own, i, lo, lo) == {};
    assert Exactly(sb, t, t, own, own, i, lo, lo, lo + 1) && Exactly(sb, t, t, own, own, i, lo, lo, lo);
  }

  /** A fresh block b in slot s: it and its bitmap block, and the indirect block if s is an entry of it. */
  lemma FreshLogged(sb: Super, t0: set<nat>, t: set<nat>, own: Owners, i: nat, s: nat, b: nat, c: nat, bn: nat)
    requires b !in own && (s == NDIRECT || InSpan(s, bn, bn + 1))
    requires t == t0 + {b, Bblock(sb, b)} + if s > NDIRECT then {c} else {}
    requires s > NDIRECT ==> forall x: nat :: x in own && own[x] == Slot(i, NDIRECT) <==> x == c
    ensures Allocated(sb, t0, t, own, own[b := Slot(i, s)], i, bn)
  {
    var own', f := own[b := Slot(i, s)], {b};
    assert Fresh(own, own') == f && Maps(sb, f) == {Bblock(sb, b)} && Spanned(own', i, bn, bn) == {};
    assert HasEntry(own', f) <==> s > NDIRECT by {
      assert b in f && own'[b].index == s;
    }
    assert Indirect(own', i, f) == if s > NDIRECT then {c} else {};
    assert Exactly(sb, t0, t, own, own', i, bn, bn, bn + 1);
  }

  lemma FreshTrans(own0: Owners, own1: Owners, own2: Owners)
    requires Grown(own0, own1) && Grown(own1, own2)
    ensures Grown(own0, own2) && Fresh(own0, own2) == Fresh(own0, own1) + Fresh(own1, own2)
  {}

  lemma MapsTrans(sb: Super, f: set<nat>, g: set<nat>)
    ensures Maps(sb, f + g) == Maps(sb, f) + Maps(sb, g)
  {}

  lemma EntryTrans(own0: Owners, own1: Owners, own2: Owners)
    requires Grown(own0, own1) && Grown(own1, own2)
    ensures HasEntry(own2, Fresh(own0, own2)) <==>
              HasEntry(own1, Fresh(own0, own1)) || HasEntry(own2, Fresh(own1, own2))
  {
    FreshTrans(own0, own1, own2);
    var f, g := Fresh(own0, own1), Fresh(own1, own2);
    if HasEntry(own1, f) {
      var b :| b in f && b in own1 && own1[b].index > NDIRECT;
      assert b in Fresh(own0, own2) && own2[b].index > NDIRECT;
    }
    if HasEntry(own2, g) {
      var b :| b in g && b in own2 && own2[b].index > NDIRECT;
      assert b in Fresh(own0, own2);
    }
  }

  /** The indirect block counts whether it is new or not. */
  lemma IndirectTrans(own0: Owners, own1: Owners, own2: Owners, i: nat)
    requires Grown(own0, own1) && Grown(own1, own2)
    ensures var f, g := Fresh(own0, own1), Fresh(own1, own2);
            Indirect(own2, i, Fresh(own0, own2)) + g == Indirect(own1, i, f) + Indirect(own2, i, g) + g
  {
    EntryTrans(own0, own1, own2);
  }

  lemma SpannedTrans(own1: Owners, own2: Owners, i: nat, lo: nat, mid: nat, bn: nat, hi: nat)
    requires Grown(own1, own2) && lo <= bn <= mid <= hi
    ensures Spanned(own2, i, lo, hi) + Fresh(own1, own2)
            == Spanned(own1, i, lo, mid) + Spanned(own2, i, bn, hi) + Fresh(own1, own2)
  {}

  lemma LogsTrans(sb: Super, own0: Owners, own1: Owners, own2: Owners, i: nat, lo: nat, mid: nat, bn: nat, hi: nat)
    requires Grown(own0, own1) && Grown(own1, own2) && lo <= bn <= mid <= hi
    ensures Logs(sb, own0, own2, i, lo, hi) == Logs(sb, own0, own1, i, lo, mid) + Logs(sb, own1, own2, i, bn, hi)
  {
    FreshTrans(own0, own1, own2);
    MapsTrans(sb, Fresh(own0, own1), Fresh(own1, own2));
    IndirectTrans(own0, own1, own2, i);
    SpannedTrans(own1, own2, i, lo, mid, bn, hi);
  }

  lemma AllocatedTrans(sb: Super, t0: set<nat>, t1: set<nat>, t2: set<nat>, own0: Owners, own1: Owners, own2: Owners,
                       i: nat, bn: nat)
    requires Allocated(sb, t0, t1, own0, own1, i, bn) && Allocated(sb, t1, t2, own1, own2, i, bn)
    ensures Allocated(sb, t0, t2, own0, own2, i, bn)
  {
    assert Open(bn);
    LogsTrans(sb, own0, own1, own2, i, bn, bn, bn, bn);
    Joined(t0, t1, t2, Logs(sb, own0, own1, i, bn, bn), Logs(sb, own1, own2, i, bn, bn));
    FreshInTrans(own0, own1, own2, i, bn, bn + 1, bn, bn + 1);
    assert Exactly(sb, t0, t2, own0, own2, i, bn, bn, bn + 1);
  }

  /** The index behind the last block that a write from off0 to off touches. */
  function Reach(off0: nat, off: nat): (hi: nat) {
    if off <= off0 then off0 / BSIZE else (off - 1) / BSIZE + 1
  }

  lemma LoggingTrans(sb: Super, t0: set<nat>, t1: set<nat>, t2: set<nat>, own0: Owners, own1: Owners, own2: Owners,
                     i: nat, lo: nat, bn: nat)
    requires lo <= bn && Logging(sb, t0, t1, own0, own1, i, lo, bn) && Logging(sb, t1, t2, own1, own2, i, bn, bn + 1)
    ensures Logging(sb, t0, t2, own0, own2, i, lo, bn + 1)
  {
    assert Open(bn) && Open(bn + 1);
    LogsTrans(sb, own0, own1, own2, i, lo, bn, bn, bn + 1);
    Joined(t0, t1, t2, Logs(sb, own0, own1, i, lo, bn), Logs(sb, own1, own2, i, bn, bn + 1));
    FreshInTrans(own0, own1, own2, i, lo, bn, bn, bn + 1);
    assert Exactly(sb, t0, t2, own0, own2, i, lo, bn + 1, bn + 1);
  }

  lemma Joined(t0: set<nat>, t1: set<nat>, t2: set<nat>, x: set<nat>, y: set<nat>)
    requires t1 == t0 + x && t2 == t1 + y
    ensures t2 == t0 + (x + y)
  {}

  lemma FreshInTrans(own0: Owners, own1: Owners, own2: Owners, i: nat, lo: nat, mid: nat, bn: nat, hi: nat)
    requires Grown(own0, own1) && Grown(own1, own2) && lo <= bn && mid <= hi
    requires FreshIn(own0, own1, i, lo, mid) && FreshIn(own1, own2, i, bn, hi)
    ensures Grown(own0, own2) && FreshIn(own0, own2, i, lo, hi)
  {
    forall b: nat | b in own2 && b !in own0
      ensures own2[b].inum == i && (own2[b].index == NDIRECT || InSpan(own2[b].index, lo, hi))
    {
      assert b in own1 ==> own2[b] == own1[b];
    }
  }

  /** Where a chunk of a write begins and ends. */
  lemma ReachNext(off0: nat, off: nat, m: nat)
    requires off0 <= off && 0 < m && off % BSIZE + m <= BSIZE && (off == off0 || off % BSIZE == 0)
    ensures Reach(off0, off) == off / BSIZE >= off0 / BSIZE && Reach(off0, off + m) == off / BSIZE + 1
  {}

  lemma LoggingNext(sb: Super, t0: set<nat>, t1: set<nat>, t2: set<nat>, own0: Owners, own1: Owners, own2: Owners,
                    i: nat, off0: nat, off: nat, m: nat)
    requires off0 <= off && 0 < m && off % BSIZE + m <= BSIZE && (off == off0 || off % BSIZE == 0)
    requires Logging(sb, t0, t1, own0, own1, i, off0 / BSIZE, Reach(off0, off))
    requires Logging(sb, t1, t2, own1, own2, i, off / BSIZE, off / BSIZE + 1)
    ensures Logging(sb, t0, t2, own0, own2, i, off0 / BSIZE, Reach(off0, off + m))
  {
    ReachNext(off0, off, m);
    LoggingTrans(sb, t0, t1, t2, own0, own1, own2, i, off0 / BSIZE, off / BSIZE);
  }

  /** A chunk stored into block b, which is block bn of the file. */
  lemma ChunkLogged(sb: Super, t0: set<nat>, t: set<nat>, own0: Owners, own: Owners, st: State, i: nat, bn: nat, b: nat)
    requires Allocated(sb, t0, t, own0, own, i, bn) && Owned(st, own) && i < |st.inodes| && bn < MAXFILE
    requires BlockOf(st, i, bn) == b != 0
    ensures st.start <= b < |st.data| && Logging(sb, t0, t + {b}, own0, own, i, bn, bn + 1)
  {
    assert SlotOf(st, i, SlotFor(bn)) in own && Open(bn);
    var one := Spanned(own, i, bn, bn + 1);
    forall x: nat | x in one ensures x == b {
      assert own[x].index == SlotFor(bn) && SlotOf(st, i, own[x].index) == x;
    }
    assert one == {b};
    assert Spanned(own, i, bn, bn) == {};
    assert Exactly(sb, t0, t + {b}, own0, own, i, bn, bn + 1, bn + 1);
  }

  ghost predicate OnlyBitmap(sb: Super, t0: set<nat>, t: set<nat>) {
    t0 <= t && forall b: nat {:trigger b in t} :: b in t && b !in t0 ==> sb.bmapstart <= b < sb.start
  }

  // Counting.

  function Elements(s: seq<nat>): (t: set<nat>) {
    set k: nat | k < |s| :: s[k]
  }

  lemma {:induction false} ElementsCount(s: seq<nat>)
    requires forall k: nat, l: nat :: k < l < |s| ==> s[k] != s[l]
    ensures |Elements(s)| == |s|
  {
    if s == [] {
      assert Elements(s) == {};
    } else {
      var n := |s| - 1;
      ElementsCount(s[..n]);
      assert s[n] in Elements(s);
      assert Elements(s) == Elements(s[..n]) + {s[n]};
    }
  }

  /** The blocks of file i with index lo .. hi. */
  function BlocksOf(st: State, i: nat, lo: nat, hi: nat): (s: seq<nat>)
    requires i < |st.inodes| && lo <= hi <= MAXFILE
  {
    seq<nat>(hi - lo, k requires 0 <= k < hi - lo => BlockOf(st, i, lo + k))
  }

  lemma SpannedAre(st: State, own: Owners, i: nat, lo: nat, hi: nat)
    requires Owned(st, own) && i < |st.inodes| && lo <= hi <= MAXFILE
    requires forall bn: nat :: lo <= bn < hi ==> BlockOf(st, i, bn) != 0
    ensures Spanned(own, i, lo, hi) == Elements(BlocksOf(st, i, lo, hi))
  {
    var s, t := BlocksOf(st, i, lo, hi), Spanned(own, i, lo, hi);
    forall b: nat | b in t ensures b in Elements(s) {
      var x := own[b].index;
      var bn := if x < NDIRECT then x else x - 1;
      assert SlotFor(bn) == x && BlockOf(st, i, bn) == b;
      var k := bn - lo;
      assert lo + k == bn && s[k] == b;
    }
    forall k: nat | k < |s| ensures s[k] in t {
      assert BlockOf(st, i, lo + k) != 0 && s[k] == SlotOf(st, i, SlotFor(lo + k));
    }
  }

  /** They are as many as they should be, since no block is in two slots. */
  lemma SpanCount(st: State, own: Owners, i: nat, lo: nat, hi: nat)
    requires Owned(st, own) && i < |st.inodes| && lo <= hi <= MAXFILE
    requires forall bn: nat :: lo <= bn < hi ==> BlockOf(st, i, bn) != 0
    ensures |Spanned(own, i, lo, hi)| == hi - lo
  {
    var s := BlocksOf(st, i, lo, hi);
    forall k: nat, l: nat | k < l < hi - lo ensures s[k] != s[l] {
      assert s[k] == SlotOf(st, i, SlotFor(lo + k)) && s[l] == SlotOf(st, i, SlotFor(lo + l));
      assert SlotFor(lo + k) != SlotFor(lo + l) && BlockOf(st, i, lo + k) != 0;
    }
    ElementsCount(s);
    SpannedAre(st, own, i, lo, hi);
  }

  /** A write to blocks lo .. hi allocates exactly if the last of them was missing. */
  predicate Allocates(size: nat, hi: nat) {
    hi > 0 && size <= (hi - 1) * BSIZE
  }

  function One(b: bool): (n: nat) {
    if b then 1 else 0
  }

  /** How many blocks a write of the bytes off .. end to a file of that size logs: those it fills, the bitmap block
      if it allocates, the indirect block if it stores an entry there, and the inode's block if the file grows. */
  function LogCount(size: nat, off: nat, end: nat): (n: nat)
    requires off < end
  {
    var hi := Reach(off, end);
    hi - off / BSIZE + One(Allocates(size, hi)) + One(Allocates(size, hi) && hi > NDIRECT) + One(end > size)
  }

  /** st is st0 after a write to blocks lo .. hi of file i, whose size was that and is now len. */
  ghost predicate Wider(st0: State, own0: Owners, st: State, own: Owners, i: nat, size: nat, len: nat,
                        lo: nat, hi: nat) {
    && Owned(st0, own0) && Owned(st, own) && i < |st0.inodes| == |st.inodes| && lo < hi <= MAXFILE
    && NoHoles(st0, i, size) && NoHoles(st, i, len) && size <= len && (hi - 1) * BSIZE < len
    && (len == size || len <= hi * BSIZE) && Grown(own0, own) && FreshIn(own0, own, i, lo, hi)
  }

  lemma FreshSlot(st0: State, own0: Owners, st: State, own: Owners, i: nat, s: nat)
    requires Owned(st0, own0) && Owned(st, own) && i < |st0.inodes| == |st.inodes| && Grown(own0, own)
    requires s < SLOTS && SlotOf(st, i, s) != 0
    ensures SlotOf(st, i, s) in own && own[SlotOf(st, i, s)] == Slot(i, s)
    ensures SlotOf(st, i, s) in own0 <==> SlotOf(st0, i, s) != 0
  {
    if SlotOf(st0, i, s) != 0 {
      assert SlotOf(st0, i, s) in own0 && own[SlotOf(st0, i, s)] == Slot(i, s);
    }
  }

  lemma FreshMeans(st0: State, own0: Owners, st: State, own: Owners, i: nat, size: nat, len: nat, lo: nat, hi: nat,
                   b: nat)
    requires Wider(st0, own0, st, own, i, size, len, lo, hi) && b in own && b !in own0
    ensures Allocates(size, hi) && (own[b].index >= NDIRECT ==> hi > NDIRECT)
  {
    var s := own[b].index;
    FreshSlot(st0, own0, st, own, i, s);
    if s != NDIRECT {
      var bn := if s < NDIRECT then s else s - 1;
      assert BlockOf(st0, i, bn) == 0;
    }
  }

  lemma LastIsFresh(st0: State, own0: Owners, st: State, own: Owners, i: nat, size: nat, len: nat, lo: nat, hi: nat)
    requires Wider(st0, own0, st, own, i, size, len, lo, hi) && Allocates(size, hi)
    ensures var b := BlockOf(st, i, hi - 1); b in own && b !in own0 && own[b] == Slot(i, SlotFor(hi - 1))
  {
    assert BlockOf(st, i, hi - 1) != 0 && BlockOf(st0, i, hi - 1) == 0;
    FreshSlot(st0, own0, st, own, i, SlotFor(hi - 1));
  }

  /** The disk that mkfs makes has one bitmap block. */
  predicate OneBitmap(sb: Super, st: State) {
    sb.start == sb.bmapstart + 1 == st.start && |st.used| <= BPB
  }

  function If(b: bool, x: nat): (t: set<nat>) {
    if b then {x} else {}
  }

  lemma MapsAre(sb: Super, st0: State, own0: Owners, st: State, own: Owners, i: nat, size: nat, len: nat,
                lo: nat, hi: nat)
    requires Wider(st0, own0, st, own, i, size, len, lo, hi) && OneBitmap(sb, st)
    ensures Maps(sb, Fresh(own0, own)) == If(Allocates(size, hi), sb.bmapstart)
  {
    var f := Fresh(own0, own);
    forall b: nat | b in f ensures Allocates(size, hi) && Bblock(sb, b) == sb.bmapstart {
      FreshMeans(st0, own0, st, own, i, size, len, lo, hi, b);
    }
    if Allocates(size, hi) {
      LastIsFresh(st0, own0, st, own, i, size, len, lo, hi);
      assert BlockOf(st, i, hi - 1) in f;
    }
  }

  /** Whether it is new or only gets an entry, the indirect block is logged in the same case. */
  lemma IndirectIs(st0: State, own0: Owners, st: State, own: Owners, i: nat, size: nat, len: nat, lo: nat, hi: nat)
    requires Wider(st0, own0, st, own, i, size, len, lo, hi)
    ensures var c := st.inodes[i].addrs[NDIRECT];
            && Indirect(own, i, Fresh(own0, own)) == If(Allocates(size, hi) && hi > NDIRECT, c)
            && (c in own && c !in own0 ==> Allocates(size, hi) && hi > NDIRECT)
  {
    var f, c := Fresh(own0, own), st.inodes[i].addrs[NDIRECT];
    assert SlotOf(st, i, NDIRECT) == c;
    forall b: nat | b in f && own[b].index > NDIRECT ensures Allocates(size, hi) && hi > NDIRECT {
      FreshMeans(st0, own0, st, own, i, size, len, lo, hi, b);
    }
    if Allocates(size, hi) && hi > NDIRECT {
      LastIsFresh(st0, own0, st, own, i, size, len, lo, hi);
      assert BlockOf(st, i, hi - 1) in f;
      assert BlockOf(st, i, hi - 1) != 0 && c != 0;
    }
    if c in own && c !in own0 {
      FreshMeans(st0, own0, st, own, i, size, len, lo, hi, c);
    }
  }

  lemma LogsAre(sb: Super, st0: State, own0: Owners, st: State, own: Owners, i: nat, size: nat, len: nat,
                lo: nat, hi: nat)
    requires Wider(st0, own0, st, own, i, size, len, lo, hi) && OneBitmap(sb, st)
    ensures Logs(sb, own0, own, i, lo, hi)
            == Spanned(own, i, lo, hi) + If(Allocates(size, hi), sb.bmapstart)
               + If(Allocates(size, hi) && hi > NDIRECT, st.inodes[i].addrs[NDIRECT])
  {
    MapsAre(sb, st0, own0, st, own, i, size, len, lo, hi);
    IndirectIs(st0, own0, st, own, i, size, len, lo, hi);
    var f, c, sp := Fresh(own0, own), st.inodes[i].addrs[NDIRECT], Spanned(own, i, lo, hi);
    forall b: nat | b in f && b != c ensures b in sp {
      assert SlotOf(st, i, own[b].index) == b;
    }
  }

  lemma WideSpan(st0: State, own0: Owners, st: State, own: Owners, i: nat, size: nat, len: nat, lo: nat, hi: nat)
    requires Wider(st0, own0, st, own, i, size, len, lo, hi)
    ensures |Spanned(own, i, lo, hi)| == hi - lo
  {
    forall bn: nat | lo <= bn < hi ensures BlockOf(st, i, bn) != 0 {
      assert bn * BSIZE < len;
    }
    SpanCount(st, own, i, lo, hi);
  }

  lemma Apart(st: State, own: Owners, i: nat, len: nat, lo: nat, hi: nat)
    requires Owned(st, own) && i < |st.inodes| && NoHoles(st, i, len) && lo < hi <= MAXFILE && (hi - 1) * BSIZE < len
    ensures var c, sp := st.inodes[i].addrs[NDIRECT], Spanned(own, i, lo, hi);
            && (hi > NDIRECT ==> c >= st.start && c !in sp)
            && forall b: nat :: b in sp ==> b >= st.start
  {
    assert SlotOf(st, i, NDIRECT) == st.inodes[i].addrs[NDIRECT];
  }

  lemma LogsParts(sb: Super, st0: State, own0: Owners, st: State, own: Owners,
                  i: nat, size: nat, len: nat, lo: nat, hi: nat)
    returns (sp: set<nat>, c: nat)
    requires Wider(st0, own0, st, own, i, size, len, lo, hi) && OneBitmap(sb, st)
    ensures var p := Allocates(size, hi);
            && Logs(sb, own0, own, i, lo, hi) == sp + If(p, sb.bmapstart) + If(p && hi > NDIRECT, c)
            && (p && hi > NDIRECT ==> c >= sb.start && c !in sp)
    ensures |sp| == hi - lo && forall b: nat :: b in sp ==> b >= sb.start
  {
    sp, c := Spanned(own, i, lo, hi), st.inodes[i].addrs[NDIRECT];
    LogsAre(sb, st0, own0, st, own, i, size, len, lo, hi);
    WideSpan(st0, own0, st, own, i, size, len, lo, hi);
    Apart(st, own, i, len, lo, hi);
  }

  lemma LogsCount(sb: Super, st0: State, own0: Owners, st: State, own: Owners,
                  i: nat, size: nat, len: nat, lo: nat, hi: nat)
    returns (n: nat)
    requires Wider(st0, own0, st, own, i, size, len, lo, hi) && OneBitmap(sb, st)
    ensures n == hi - lo + One(Allocates(size, hi)) + One(Allocates(size, hi) && hi > NDIRECT)
    ensures Holding(Logs(sb, own0, own, i, lo, hi), n, sb.bmapstart)
  {
    var p := Allocates(size, hi);
    var sp, c := LogsParts(sb, st0, own0, st, own, i, size, len, lo, hi);
    ThreeParts(sp, p, sb.bmapstart, p && hi > NDIRECT, c);
    n := hi - lo + One(p) + One(p && hi > NDIRECT);
  }

  /** A set of n numbers, all from least on. */
  ghost predicate Holding(t: set<nat>, n: nat, least: nat) {
    |t| == n && forall b: nat :: b in t ==> least <= b
  }

  lemma ThreeParts(sp: set<nat>, p: bool, x: nat, q: bool, c: nat)
    requires (forall b: nat :: b in sp ==> x < b) && (q ==> x < c && c !in sp)
    ensures Holding(sp + If(p, x) + If(q, c), |sp| + One(p) + One(q), x)
  {
    var a := sp + If(p, x);
    assert |a| == |sp| + One(p);
  }

  lemma OnePart(t: set<nat>, n: nat, least: nat, r: bool, z: nat)
    requires Holding(t, n, least) && z < least
    ensures |t + If(r, z)| == n + One(r)
  {}

  lemma LoggingCount(sb: Super, st0: State, own0: Owners, st: State, own: Owners,
                     i: nat, size: nat, len: nat, lo: nat, hi: nat, t: set<nat>)
    returns (n: nat)
    requires Wider(st0, own0, st, own, i, size, len, lo, hi) && OneBitmap(sb, st)
    requires Logging(sb, {}, t, own0, own, i, lo, hi)
    ensures n == hi - lo + One(Allocates(size, hi)) + One(Allocates(size, hi) && hi > NDIRECT)
    ensures Holding(t, n, sb.bmapstart)
  {
    assert Open(hi);
    assert t == Logs(sb, own0, own, i, lo, hi);
    n := LogsCount(sb, st0, own0, st, own, i, size, len, lo, hi);
  }

  lemma WritesWider(sb: Super, st0: State, own0: Owners, st: State, own: Owners, i: nat, src: seq<Byte>, off: nat,
                    t: set<nat>)
    requires Inv(st0, own0) && i < |st0.inodes| && src != []
    requires Writing(st0, own0, st, own, i, src, off, off + |src|)
    requires Logging(sb, {}, t, own0, own, i, off / BSIZE, Reach(off, off + |src|))
    ensures var size, lo, hi := st0.inodes[i].size, off / BSIZE, Reach(off, off + |src|);
            Wider(st0, own0, st, own, i, size, Max(size, off + |src|), lo, hi)
  {
    var hi, end := Reach(off, off + |src|), off + |src|;
    assert Open(hi);
    assert (hi - 1) * BSIZE < end <= hi * BSIZE;
  }

  /** A write as a whole: t was logged by its loop, and the inode if the file grew. */
  lemma WriteCount(sb: Super, st0: State, own0: Owners, st: State, own: Owners, i: nat, src: seq<Byte>, off: nat,
                   t: set<nat>)
    requires Inv(st0, own0) && i < |st0.inodes| && Iblock(sb, i) < sb.bmapstart && OneBitmap(sb, st) && src != []
    requires Writing(st0, own0, st, own, i, src, off, off + |src|)
    requires Logging(sb, {}, t, own0, own, i, off / BSIZE, Reach(off, off + |src|))
    ensures var size, end := st0.inodes[i].size, off + |src|;
            |t + If(end > size, Iblock(sb, i))| == LogCount(size, off, end)
  {
    WritesWider(sb, st0, own0, st, own, i, src, off, t);
    var size, end, hi := st0.inodes[i].size, off + |src|, Reach(off, off + |src|);
    var n := LoggingCount(sb, st0, own0, st, own, i, size, Max(size, end), off / BSIZE, hi, t);
    OnePart(t, n, sb.bmapstart, end > size, Iblock(sb, i));
  }

  /** itrunc() logs the bitmap block and the inode's. */
  lemma TruncCount(sb: Super, c: nat, t: set<nat>)
    requires sb.start == sb.bmapstart + 1 && OnlyBitmap(sb, {c}, t)
    ensures |t| <= 2
  {
    assert t == {c} || t == {c} + {sb.bmapstart};
  }

  // What filewrite() makes of it.

  /** The bytes filewrite() gives writei() in one operation. */
  const CHUNK := (LogCrash.LOGSIZE - 1 - 1 - 2) / 2 * BSIZE

  /** A file of at most MAXBYTES bytes may be written to from off to off + n. */
  predicate CanWrite(size: nat, off: nat, n: nat) {
    off <= size <= MAXBYTES && 0 < n <= MAXBYTES - off
  }

  ghost predicate ChunkKeepsTo(n: nat, limit: nat) {
    forall size: nat, off: nat :: CanWrite(size, off, n) ==> LogCount(size, off, off + n) <= limit
  }

  lemma SpanAtMost(off: nat, n: nat)
    requires n > 0
    ensures Reach(off, off + n) - off / BSIZE <= (n - 1 + BSIZE - 1) / BSIZE + 1
  {
    var a, r := off / BSIZE, off % BSIZE;
    assert off + n - 1 == a * BSIZE + (r + n - 1);
    assert (off + n - 1) / BSIZE == a + (r + n - 1) / BSIZE;
  }

  /** A chunk of n bytes keeps an operation to limit blocks, wherever it goes, exactly if n is small enough. */
  lemma ChunkExactly(n: nat, limit: nat)
    requires 2 <= n <= MAXBYTES - 13 * BSIZE
    ensures ChunkKeepsTo(n, limit) <==> n <= BSIZE * (limit - 4) + 1
  {
    if n <= BSIZE * (limit - 4) + 1 {
      forall size: nat, off: nat | CanWrite(size, off, n) ensures LogCount(size, off, off + n) <= limit {
        SpanAtMost(off, n);
      }
    } else {
      var off := 13 * BSIZE - 1;
      assert CanWrite(off, off, n);
      assert Reach(off, off + n) == (off + n - 1) / BSIZE + 1 >= limit - 4 + 13 + 1;
    }
  }

  /** So filewrite() breaks the promise that MAXOPBLOCKS stands for, and with a full chunk always. */
  lemma FilewriteExceeds(size: nat, off: nat)
    requires CanWrite(size, off, CHUNK)
    ensures LogCount(size, off, off + CHUNK) > LogCrash.MAXOPBLOCKS
  {}
}
