/** What the log does with the buffer cache: which buffers it pins, how many are left, and the copies from
    block to block that write_log(), install_trans() and write_head() are made of.

    Processes that only read hold busy buffers of their own meanwhile, since reading needs no transaction.
    Those buffers are left as they are. */
module LogBuffers {
  import opened Disk
  import opened LogCrash
  import opened BufferCache

  ghost predicate DirtyBlock(bufs: seq<Buf>, b: nat) {
    exists i :: 0 <= i < |bufs| && Caches(bufs[i], b) && bufs[i].dirty
  }

  ghost predicate TwoClean(bufs: seq<Buf>) {
    exists i, j :: 0 <= i < j < |bufs| && Clean(bufs[i]) && Clean(bufs[j])
  }

  /** Nobody uses block b. */
  ghost predicate Unheld(bufs: seq<Buf>, b: nat) {
    forall i :: 0 <= i < |bufs| && bufs[i].busy ==> !Caches(bufs[i], b)
  }

  /** The buffers in use, and what they hold, are the same. */
  ghost predicate SameHeld(bufs: seq<Buf>, after: seq<Buf>) {
    && |after| == |bufs|
    && (forall i {:trigger after[i]} :: 0 <= i < |bufs| ==>
         (after[i].busy <==> bufs[i].busy) && (bufs[i].busy ==> after[i] == bufs[i]))
  }

  /** The pinned buffers are exactly the logged blocks. */
  ghost predicate PinsAre(bufs: seq<Buf>, lh: seq<nat>) {
    && (forall i :: 0 <= i < |bufs| && bufs[i].dirty ==> bufs[i].blockno in lh)
    && (forall k :: 0 <= k < |lh| ==> DirtyBlock(bufs, lh[k]))
  }

  ghost predicate NoPins(bufs: seq<Buf>) {
    forall i :: 0 <= i < |bufs| ==> !bufs[i].dirty
  }

  predicate DistinctBlocks(bufs: seq<Buf>) {
    forall i, j :: 0 <= i < j < |bufs| && bufs[i].blockno >= 0 ==> bufs[i].blockno != bufs[j].blockno
  }

  /** The buffers in use hold neither log blocks nor logged blocks. */
  ghost predicate HeldApart(L: Layout, bufs: seq<Buf>, lh: seq<nat>) {
    forall i :: 0 <= i < |bufs| && bufs[i].busy ==> !IsLogBlock(L, bufs[i].blockno) && bufs[i].blockno !in lh
  }

  /** A block that nobody uses and that is not pinned is the same in the cache and on disk. */
  lemma UnpinnedAgrees(bufs: seq<Buf>, disk: Image, content: Image, b: nat)
    requires Coherent(bufs, disk, content) && Unheld(bufs, b) && !DirtyBlock(bufs, b) && b < |disk|
    ensures disk[b] == content[b]
  {
    if !NotValid(bufs, b) {
      var i :| 0 <= i < |bufs| && Caches(bufs[i], b) && bufs[i].valid;
      assert Holds(bufs[i], disk, content);
    }
  }

  // Counting buffers.

  /** How many buffers are in use. */
  function Held(bufs: seq<Buf>): (n: nat)
    ensures n <= |bufs|
  {
    if bufs == [] then 0 else Held(bufs[..|bufs| - 1]) + if bufs[|bufs| - 1].busy then 1 else 0
  }

  /** How many are pinned. */
  function Pinned(bufs: seq<Buf>): (n: nat)
    ensures n <= |bufs|
  {
    if bufs == [] then 0 else Pinned(bufs[..|bufs| - 1]) + if bufs[|bufs| - 1].dirty then 1 else 0
  }

  lemma {:induction false} HeldSame(bufs: seq<Buf>, after: seq<Buf>)
    requires SameHeld(bufs, after)
    ensures Held(after) == Held(bufs)
    decreases |bufs|
  {
    if bufs != [] {
      var n := |bufs| - 1;
      var a, b := bufs[..n], after[..n];
      assert forall i :: 0 <= i < n ==> a[i] == bufs[i] && b[i] == after[i];
      assert after[n].busy <==> bufs[n].busy;
      HeldSame(a, b);
    }
  }

  lemma {:induction false} NoneHeld(bufs: seq<Buf>)
    requires Held(bufs) == 0
    ensures forall i :: 0 <= i < |bufs| ==> !bufs[i].busy
  {
    if bufs != [] {
      NoneHeld(bufs[..|bufs| - 1]);
      forall i | 0 <= i < |bufs| ensures !bufs[i].busy {
        assert i < |bufs| - 1 ==> bufs[i] == bufs[..|bufs| - 1][i];
      }
    }
  }

  /** As many buffers are pinned as blocks are logged. */
  lemma {:induction false} PinnedIsLogged(bufs: seq<Buf>, lh: seq<nat>)
    requires DistinctBlocks(bufs) && Distinct(lh) && PinsAre(bufs, lh)
    ensures Pinned(bufs) == |lh|
    decreases |bufs|
  {
    if bufs == [] {
      NoBuffersNoPins(lh);
    } else if bufs[|bufs| - 1].dirty {
      var last := bufs[|bufs| - 1];
      var k :| 0 <= k < |lh| && lh[k] == last.blockno;
      LastPinned(bufs, lh, k);
      PinnedIsLogged(bufs[..|bufs| - 1], Without(lh, k));
    } else {
      LastUnpinned(bufs, lh);
      PinnedIsLogged(bufs[..|bufs| - 1], lh);
    }
  }

  lemma NoBuffersNoPins(lh: seq<nat>)
    ensures PinsAre([], lh) ==> lh == []
  {
    if lh != [] {
      assert !DirtyBlock([], lh[0]);
    }
  }

  lemma LastUnpinned(bufs: seq<Buf>, lh: seq<nat>)
    requires bufs != [] && !bufs[|bufs| - 1].dirty && PinsAre(bufs, lh)
    ensures PinsAre(bufs[..|bufs| - 1], lh)
  {
    var front := bufs[..|bufs| - 1];
    forall k | 0 <= k < |lh| ensures DirtyBlock(front, lh[k]) {
      assert DirtyBlock(bufs, lh[k]);
      var i :| 0 <= i < |bufs| && Caches(bufs[i], lh[k]) && bufs[i].dirty;
      assert front[i] == bufs[i];
    }
  }

  function Without(lh: seq<nat>, k: nat): (r: seq<nat>)
    requires k < |lh|
  {
    seq(|lh| - 1, m requires 0 <= m < |lh| - 1 => if m < k then lh[m] else lh[m + 1])
  }

  lemma InWithout(lh: seq<nat>, k: nat, b: nat)
    requires k < |lh| && b in lh && b != lh[k]
    ensures b in Without(lh, k)
  {
    var m :| 0 <= m < |lh| && lh[m] == b;
    assert Without(lh, k)[if m < k then m else m - 1] == b;
  }

  lemma LastPinned(bufs: seq<Buf>, lh: seq<nat>, k: nat)
    requires bufs != [] && bufs[|bufs| - 1].dirty && DistinctBlocks(bufs) && Distinct(lh) && PinsAre(bufs, lh)
    requires k < |lh| && lh[k] == bufs[|bufs| - 1].blockno
    ensures Distinct(Without(lh, k)) && PinsAre(bufs[..|bufs| - 1], Without(lh, k))
  {
    var front, rest := bufs[..|bufs| - 1], Without(lh, k);
    forall i | 0 <= i < |front| && front[i].dirty ensures front[i].blockno in rest {
      assert front[i] == bufs[i] && bufs[i].blockno in lh;
      InWithout(lh, k, bufs[i].blockno);
    }
    forall m | 0 <= m < |rest| ensures DirtyBlock(front, rest[m]) {
      assert DirtyBlock(bufs, lh[if m < k then m else m + 1]);
      var i :| 0 <= i < |bufs| && Caches(bufs[i], rest[m]) && bufs[i].dirty;
      assert front[i] == bufs[i];
    }
  }

  lemma {:induction false} CleanCount(bufs: seq<Buf>)
    requires forall i :: 0 <= i < |bufs| && bufs[i].busy ==> !bufs[i].dirty
    ensures HasClean(bufs) <==> Pinned(bufs) + Held(bufs) < |bufs|
    ensures Pinned(bufs) + Held(bufs) <= |bufs|
  {
    if bufs != [] {
      var front, last := bufs[..|bufs| - 1], bufs[|bufs| - 1];
      assert forall i :: 0 <= i < |front| ==> front[i] == bufs[i];
      CleanCount(front);
      if HasClean(front) {
        var i :| 0 <= i < |front| && Clean(front[i]);
        assert Clean(bufs[i]);
      }
      if HasClean(bufs) && !Clean(last) {
        var i :| 0 <= i < |bufs| && Clean(bufs[i]);
        assert Clean(front[i]);
      }
    }
  }

  /** A clean buffer is left exactly when logged blocks and buffers in use are together fewer than the
      buffers. */
  lemma RoomExactly(L: Layout, bufs: seq<Buf>, lh: seq<nat>)
    requires DistinctBlocks(bufs) && Distinct(lh) && PinsAre(bufs, lh) && HeldApart(L, bufs, lh)
    ensures HasClean(bufs) <==> |lh| + Held(bufs) < |bufs|
  {
    PinnedIsLogged(bufs, lh);
    CleanCount(bufs);
  }

  // Reading.

  /** A read of a block that nobody uses. */
  lemma QuietRead(bufs: seq<Buf>, order: seq<nat>, content: Image, b: nat, r: Got, after: seq<Buf>)
    requires Unheld(bufs, b) && BreadSpec(bufs, order, content, b, r, after)
    ensures !r.Sleep? && (r.Panic? <==> !Cached(bufs, b) && !HasClean(bufs))
    ensures r.Ok? ==> !bufs[r.i].busy && after == bufs[r.i := after[r.i]]
  {}

  /** Reading b does not change which blocks are pinned. */
  lemma ReadKeepsPins(bufs: seq<Buf>, order: seq<nat>, content: Image, b: nat, r: Got, after: seq<Buf>)
    requires BreadSpec(bufs, order, content, b, r, after)
    requires DistinctBlocks(bufs)
    ensures forall c :: DirtyBlock(after, c) <==> DirtyBlock(bufs, c)
  {
    forall c: nat
      ensures DirtyBlock(after, c) <==> DirtyBlock(bufs, c)
    {
      if DirtyBlock(bufs, c) {
        var i :| 0 <= i < |bufs| && Caches(bufs[i], c) && bufs[i].dirty;
        assert after[i].dirty && Caches(after[i], c);
      }
      if DirtyBlock(after, c) {
        var i :| 0 <= i < |after| && Caches(after[i], c) && after[i].dirty;
        assert bufs[i].dirty && Caches(bufs[i], c);
      }
    }
  }

  /** The pinned blocks afterwards are those before, less b. */
  ghost predicate PinsLess(bufs: seq<Buf>, after: seq<Buf>, b: nat) {
    forall c :: DirtyBlock(after, c) <==> DirtyBlock(bufs, c) && c != b
  }

  /** Changing buffer i, which holds b, from whatever it is to clean unpins b only. */
  lemma CleanUnpins(bufs: seq<Buf>, i: nat, x: Buf)
    requires DistinctBlocks(bufs) && i < |bufs| && bufs[i].blockno >= 0
    requires x.blockno == bufs[i].blockno && !x.dirty
    ensures PinsLess(bufs, bufs[i := x], bufs[i].blockno)
  {
    var after := bufs[i := x];
    forall c: nat
      ensures DirtyBlock(after, c) <==> DirtyBlock(bufs, c) && c != bufs[i].blockno
    {
      if DirtyBlock(bufs, c) && c != bufs[i].blockno {
        var j :| 0 <= j < |bufs| && Caches(bufs[j], c) && bufs[j].dirty;
        assert after[j] == bufs[j];
      }
      if DirtyBlock(after, c) {
        var j :| 0 <= j < |after| && Caches(after[j], c) && after[j].dirty;
        assert j != i && after[j] == bufs[j];
      }
    }
  }

  /** Changing flags other than dirty leaves the pinned blocks as they are. */
  lemma KeepsPins(bufs: seq<Buf>, i: nat, x: Buf)
    requires i < |bufs| && x.blockno == bufs[i].blockno && x.dirty == bufs[i].dirty
    ensures forall c :: DirtyBlock(bufs[i := x], c) <==> DirtyBlock(bufs, c)
  {
    var after := bufs[i := x];
    forall c: nat
      ensures DirtyBlock(after, c) <==> DirtyBlock(bufs, c)
    {
      if DirtyBlock(bufs, c) {
        var j :| 0 <= j < |bufs| && Caches(bufs[j], c) && bufs[j].dirty;
        assert Caches(after[j], c) && after[j].dirty;
      }
      if DirtyBlock(after, c) {
        var j :| 0 <= j < |after| && Caches(after[j], c) && after[j].dirty;
        assert Caches(bufs[j], c) && bufs[j].dirty;
      }
    }
  }

  /** After the first read of a transfer: what is left for the second. */
  lemma LeftForSecond(bufs: seq<Buf>, after: seq<Buf>, i: nat, b: nat)
    requires i < |bufs| == |after| && after == bufs[i := after[i]]
    requires forall c :: DirtyBlock(after, c) <==> DirtyBlock(bufs, c)
    ensures DirtyBlock(bufs, b) ==> Cached(after, b)
    ensures TwoClean(bufs) ==> HasClean(after)
  {
    if TwoClean(bufs) {
      var j, k :| 0 <= j < k < |bufs| && Clean(bufs[j]) && Clean(bufs[k]);
      assert Clean(after[if i == j then k else j]);
    }
    if DirtyBlock(bufs, b) {
      assert DirtyBlock(after, b);
    }
  }

  /** Two different blocks, unused before, are held busy and valid; all else is as before. */
  ghost predicate HoldsBoth(bufs: seq<Buf>, after: seq<Buf>, content: Image, first: nat, second: nat, i: nat, j: nat) {
    && i < |after| == |bufs| && j < |after| && i != j && first < |content| && second < |content|
    && !bufs[i].busy && !bufs[j].busy && DistinctBlocks(after)
    && after[i] == Buf(first, true, true, after[i].dirty, content[first])
    && after[j] == Buf(second, true, true, after[j].dirty, content[second])
    && (forall k {:trigger after[k]} :: 0 <= k < |after| && k != i && k != j ==> after[k] == bufs[k])
    && (forall c :: DirtyBlock(after, c) <==> DirtyBlock(bufs, c))
  }

  /** None is the "bget: no buffers" panic. */
  datatype Pair = None | Both(i: nat, j: nat)

  method ReadBoth(cache: Cache, first: nat, second: nat) returns (r: Pair)
    requires cache.Valid() && Unheld(cache.bufs, first) && Unheld(cache.bufs, second)
    requires first < |cache.disk| && second < |cache.disk| && first != second
    modifies cache`bufs, cache`disk, cache`trace
    ensures cache.Valid() && cache.trace == old(cache.trace) && cache.disk == old(cache.disk)
    ensures r.Both? ==> HoldsBoth(old(cache.bufs), cache.bufs, cache.content, first, second, r.i, r.j)
    ensures HasClean(old(cache.bufs)) && DirtyBlock(old(cache.bufs), second) ==> r.Both?
    ensures TwoClean(old(cache.bufs)) ==> r.Both?
    ensures !Cached(old(cache.bufs), first) && !HasClean(old(cache.bufs)) ==> r.None?
  {
    ghost var bufs := cache.bufs;
    var f := cache.Bread(first);
    QuietRead(bufs, cache.ring.order, cache.content, first, f, cache.bufs);
    if f.Panic? {
      return None;
    }
    ReadKeepsPins(bufs, cache.ring.order, cache.content, first, f, cache.bufs);
    LeftForSecond(bufs, cache.bufs, f.i, second);
    var j := ReadSecond(cache, second);
    r := if j == NBUF then None else Both(f.i, j);
  }

  /** bread() of a block that nobody uses; NBUF is the panic. */
  method ReadSecond(cache: Cache, b: nat) returns (j: nat)
    requires cache.Valid() && Unheld(cache.bufs, b) && b < |cache.disk|
    modifies cache`bufs, cache`disk, cache`trace
    ensures cache.Valid() && cache.trace == old(cache.trace) && cache.disk == old(cache.disk)
    ensures j <= NBUF && (j < NBUF <==> Cached(old(cache.bufs), b) || HasClean(old(cache.bufs)))
    ensures j < NBUF ==> cache.bufs == old(cache.bufs)[j := Buf(b, true, true, cache.bufs[j].dirty, cache.content[b])]
    ensures j < NBUF ==> !old(cache.bufs)[j].busy
    ensures j < NBUF ==> forall c :: DirtyBlock(cache.bufs, c) <==> DirtyBlock(old(cache.bufs), c)
  {
    ghost var bufs := cache.bufs;
    var g := cache.Bread(b);
    QuietRead(bufs, cache.ring.order, cache.content, b, g, cache.bufs);
    if g.Panic? {
      return NBUF;
    }
    ReadKeepsPins(bufs, cache.ring.order, cache.content, b, g, cache.bufs);
    j := g.i;
  }

  // Copying.

  /** A pinned block's buffer is dirty. */
  lemma PinnedBufferDirty(bufs: seq<Buf>, i: nat)
    requires DistinctBlocks(bufs) && i < |bufs| && bufs[i].blockno >= 0
    ensures DirtyBlock(bufs, bufs[i].blockno) <==> bufs[i].dirty
  {
    if bufs[i].dirty {
      assert Caches(bufs[i], bufs[i].blockno);
    }
  }

  lemma CopyPins(bufs: seq<Buf>, i: nat, j: nat, x: Buf, y: Buf)
    requires DistinctBlocks(bufs) && i < |bufs| && j < |bufs| && i != j && bufs[j].blockno >= 0
    requires x.blockno == bufs[i].blockno && x.dirty == bufs[i].dirty
    requires y.blockno == bufs[j].blockno && !y.dirty
    ensures PinsLess(bufs, bufs[i := x][j := y], bufs[j].blockno)
  {
    KeepsPins(bufs, i, x);
    CleanUnpins(bufs[i := x], j, y);
  }

  /** The buffers after the copy and both releases. */
  function Copied(bufs: seq<Buf>, src: nat, dst: nat): (r: seq<Buf>)
    requires src < |bufs| && dst < |bufs|
  {
    bufs[src := bufs[src].(busy := false)][dst := bufs[dst].(data := bufs[src].data, dirty := false, busy := false)]
  }

  /** memmove(), bwrite() and the two brelse()s. */
  method CopyAndRelease(cache: Cache, src: nat, dst: nat)
    requires cache.Valid() && src < NBUF && dst < NBUF && src != dst
    requires cache.bufs[src].busy && cache.bufs[src].valid && cache.bufs[dst].busy && cache.bufs[dst].valid
    requires !cache.bufs[src].dirty ==> cache.bufs[src].data == cache.disk[cache.bufs[src].blockno]
    modifies cache`bufs, cache`disk, cache`trace, cache`content, cache.ring, cache.ring.next, cache.ring.prev
    ensures cache.Valid() && |cache.disk| == |old(cache.disk)| && cache.bufs == Copied(old(cache.bufs), src, dst)
    ensures var s, d := old(cache.bufs)[src], old(cache.bufs)[dst];
            && cache.trace == old(cache.trace) + [Write(d.blockno, s.data)]
            && cache.content == old(cache.content)[d.blockno := s.data]
  {
    CopyOnto(cache, src, dst);
    cache.Brelse(src);
    cache.Brelse(dst);
  }

  /** memmove() and bwrite(). */
  method CopyOnto(cache: Cache, src: nat, dst: nat)
    requires cache.Valid() && src < NBUF && dst < NBUF && src != dst
    requires cache.bufs[src].valid && cache.bufs[dst].busy && cache.bufs[dst].valid
    modifies cache`bufs, cache`disk, cache`trace, cache`content
    ensures cache.Valid()
    ensures var s, d := old(cache.bufs)[src], old(cache.bufs)[dst];
            && cache.bufs == old(cache.bufs)[dst := d.(data := s.data, dirty := false)]
            && cache.trace == old(cache.trace) + [Write(d.blockno, s.data)]
            && cache.content == old(cache.content)[d.blockno := s.data]
            && cache.disk == old(cache.disk)[d.blockno := s.data]
  {
    cache.Store(dst, cache.bufs[src].data);
    cache.Bwrite(dst);
  }

  lemma CopyEffect(bufs0: seq<Buf>, bufs: seq<Buf>, content: Image, first: nat, second: nat, i: nat, j: nat, src: nat,
                   dst: nat)
    requires HoldsBoth(bufs0, bufs, content, first, second, i, j) && ((src == i && dst == j) || (src == j && dst == i))
    ensures SameHeld(bufs0, Copied(bufs, src, dst)) && PinsLess(bufs0, Copied(bufs, src, dst), bufs[dst].blockno)
  {
    CopyPins(bufs, src, dst, bufs[src].(busy := false),
             bufs[dst].(data := bufs[src].data, dirty := false, busy := false));
  }

  /** Copy block src to block dst through the cache, reading the log block first as write_log()
      and install_trans() both do; false is the "bget: no buffers" panic. */
  method Transfer(cache: Cache, first: nat, second: nat, intoFirst: bool) returns (ok: bool)
    requires cache.Valid() && Unheld(cache.bufs, first) && Unheld(cache.bufs, second)
    requires first < |cache.disk| && second < |cache.disk| && first != second
    modifies cache`bufs, cache`disk, cache`trace, cache`content, cache.ring, cache.ring.next, cache.ring.prev
    ensures cache.Valid() && |cache.disk| == |old(cache.disk)|
    ensures var src, dst := if intoFirst then second else first, if intoFirst then first else second;
            ok ==>
              && SameHeld(old(cache.bufs), cache.bufs)
              && cache.trace == old(cache.trace) + [Write(dst, old(cache.content[src]))]
              && cache.content == old(cache.content)[dst := old(cache.content[src])]
              && PinsLess(old(cache.bufs), cache.bufs, dst)
    ensures HasClean(old(cache.bufs)) && DirtyBlock(old(cache.bufs), second) ==> ok
    ensures TwoClean(old(cache.bufs)) ==> ok
    ensures !Cached(old(cache.bufs), first) && !HasClean(old(cache.bufs)) ==> !ok
    ensures !ok ==> cache.trace == old(cache.trace) && cache.content == old(cache.content)
  {
    ghost var bufs0 := cache.bufs;
    var r := ReadBoth(cache, first, second);
    if r.None? {
      return false;
    }
    var src, dst := if intoFirst then r.j else r.i, if intoFirst then r.i else r.j;
    ghost var b := cache.bufs[src].blockno;
    PinnedBufferDirty(cache.bufs, src);
    if !DirtyBlock(bufs0, b) {
      UnpinnedAgrees(bufs0, cache.disk, cache.content, b);
    }
    CopyEffect(bufs0, cache.bufs, cache.content, first, second, r.i, r.j, src, dst);
    CopyAndRelease(cache, src, dst);
    return true;
  }

  /** Change the data of a busy buffer, write it and release it. */
  method StoreWriteRelease(cache: Cache, i: nat, data: Block)
    requires cache.Valid() && i < NBUF && cache.bufs[i].busy && cache.bufs[i].valid
    modifies cache`bufs, cache`disk, cache`trace, cache`content, cache.ring, cache.ring.next, cache.ring.prev
    ensures cache.Valid() && |cache.disk| == |old(cache.disk)|
    ensures cache.bufs == old(cache.bufs)[i := old(cache.bufs)[i].(data := data, dirty := false, busy := false)]
    ensures var b := old(cache.bufs)[i].blockno;
            && PinsLess(old(cache.bufs), cache.bufs, b)
            && cache.trace == old(cache.trace) + [Write(b, data)]
            && cache.content == old(cache.content)[b := data]
  {
    ghost var bufs := cache.bufs;
    CleanUnpins(bufs, i, bufs[i].(data := data, dirty := false, busy := false));
    cache.Store(i, data);
    cache.Bwrite(i);
    cache.Brelse(i);
    assert cache.bufs == bufs[i := bufs[i].(data := data, dirty := false, busy := false)];
  }

  // Pins.

  /** The pinned blocks are the last of lh: those install_trans() has not reached. */
  ghost predicate PinsFrom(bufs: seq<Buf>, lh: seq<nat>, tail: nat) {
    tail <= |lh| && PinsAre(bufs, lh[tail..])
  }

  /** The same block pinned through PinsLess: only lh[tail] was dropped. */
  lemma InstallUnpins(bufs: seq<Buf>, after: seq<Buf>, lh: seq<nat>, tail: nat)
    requires Distinct(lh) && tail < |lh|
    requires PinsFrom(bufs, lh, tail) && PinsLess(bufs, after, lh[tail])
    requires forall i :: 0 <= i < |after| && after[i].dirty ==> after[i].blockno >= 0
    ensures PinsFrom(after, lh, tail + 1)
  {
    forall i | 0 <= i < |after| && after[i].dirty
      ensures after[i].blockno in lh[tail + 1..]
    {
      assert DirtyBlock(after, after[i].blockno) by { assert Caches(after[i], after[i].blockno); }
      var j :| 0 <= j < |bufs| && Caches(bufs[j], after[i].blockno) && bufs[j].dirty;
      assert bufs[j].blockno in lh[tail..];
      var k :| 0 <= k < |lh[tail..]| && lh[tail..][k] == after[i].blockno;
      assert k > 0 && lh[tail + 1..][k - 1] == after[i].blockno;
    }
    var rest := lh[tail + 1..];
    forall k | 0 <= k < |rest|
      ensures DirtyBlock(after, rest[k])
    {
      assert rest[k] == lh[tail..][k + 1];
    }
  }

  /** Nothing pinned stays nothing pinned. */
  lemma StillNoPins(bufs: seq<Buf>, after: seq<Buf>, b: nat)
    requires NoPins(bufs) && PinsLess(bufs, after, b)
    requires forall i :: 0 <= i < |after| && after[i].dirty ==> after[i].blockno >= 0
    ensures NoPins(after)
  {
    forall i | 0 <= i < |after|
      ensures !after[i].dirty
    {
      if after[i].dirty {
        assert Caches(after[i], after[i].blockno);
        assert DirtyBlock(after, after[i].blockno);
      }
    }
  }

  /** Log blocks are neither pinned nor in use; with no clean buffer none is cached. */
  lemma NoLogBlockPinned(bufs: seq<Buf>, lh: seq<nat>, L: Layout, content: Image, b: nat)
    requires PinsAre(bufs, lh) && HeldApart(L, bufs, lh) && Loggable(L, content, lh) && IsLogBlock(L, b)
    ensures b !in lh && !DirtyBlock(bufs, b) && Unheld(bufs, b)
    ensures !HasClean(bufs) ==> !Cached(bufs, b)
  {}

  /** Unpinning a block that was not pinned leaves the pins as they were. */
  lemma SamePins(bufs: seq<Buf>, after: seq<Buf>, lh: seq<nat>, b: nat)
    requires PinsAre(bufs, lh) && PinsLess(bufs, after, b) && b !in lh
    requires forall i :: 0 <= i < |after| && after[i].dirty ==> after[i].blockno >= 0
    ensures PinsAre(after, lh)
  {
    forall i | 0 <= i < |after| && after[i].dirty
      ensures after[i].blockno in lh
    {
      assert Caches(after[i], after[i].blockno);
      assert DirtyBlock(after, after[i].blockno);
    }
  }

  lemma HeldStaysApart(L: Layout, bufs: seq<Buf>, after: seq<Buf>, lh: seq<nat>)
    requires HeldApart(L, bufs, lh) && SameHeld(bufs, after)
    ensures HeldApart(L, after, lh) && Held(after) == Held(bufs)
  {
    HeldSame(bufs, after);
    assert forall i :: 0 <= i < |after| && after[i].busy ==> after[i] == bufs[i];
  }

  lemma SameHeldTrans(a: seq<Buf>, b: seq<Buf>, c: seq<Buf>)
    requires SameHeld(a, b) && SameHeld(b, c)
    ensures SameHeld(a, c)
  {
    forall i | 0 <= i < |a| ensures (c[i].busy <==> a[i].busy) && (a[i].busy ==> c[i] == a[i]) {
      assert (b[i].busy <==> a[i].busy) && (a[i].busy ==> b[i] == a[i]);
    }
  }

  /** With fewer logged blocks and buffers in use than buffers, and lh[tail] pinned, there is room to
      install it; in recovery, with nothing pinned and nothing in use, there is too. */
  lemma RoomToInstall(L: Layout, bufs: seq<Buf>, lh: seq<nat>, tail: nat, pinned: bool)
    requires DistinctBlocks(bufs) && Distinct(lh) && HeldApart(L, bufs, lh) && |bufs| == NBUF && tail < |lh|
    requires if pinned then PinsFrom(bufs, lh, tail) && |lh| + Held(bufs) < NBUF else NoPins(bufs) && Held(bufs) == 0
    ensures (HasClean(bufs) && DirtyBlock(bufs, lh[tail])) || TwoClean(bufs)
  {
    if pinned {
      var rest := lh[tail..];
      assert HeldApart(L, bufs, rest);
      RoomExactly(L, bufs, rest);
      assert rest[0] == lh[tail];
    } else {
      NoneHeld(bufs);
      assert Clean(bufs[0]) && Clean(bufs[1]);
    }
  }
}
