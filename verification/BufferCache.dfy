/** The buffer cache of bio.c over the disk driver of ide.c.

    Every method is one critical section under bcache.lock or one disk request, so a run of the
    cache by any number of processes is a sequence of calls.  bget() sleeping on a busy buffer is
    the outcome Sleep: the caller tries again after some brelse(). */
module BufferCache {
  import opened Disk

  const NBUF: nat := 30

  /** struct buf; blockno -1 stands for dev == -1, a buffer never used. */
  datatype Buf = Buf(blockno: int, busy: bool, valid: bool, dirty: bool, data: Block)

  predicate Clean(x: Buf) {
    !x.busy && !x.dirty
  }

  predicate Caches(x: Buf, b: nat) {
    x.blockno == b
  }

  /** Cache coherence: content is what the processes have last stored in each block. */
  ghost predicate Coherent(bufs: seq<Buf>, disk: Image, content: Image) {
    && |disk| == |content|
    && (forall i :: 0 <= i < |bufs| ==> Holds(bufs[i], disk, content))
    && (forall i, j :: 0 <= i < j < |bufs| && bufs[i].blockno >= 0 ==> bufs[i].blockno != bufs[j].blockno)
    && (forall b :: 0 <= b < |disk| && NotValid(bufs, b) ==> disk[b] == content[b])
  }

  ghost predicate NotValid(bufs: seq<Buf>, b: nat) {
    forall i :: 0 <= i < |bufs| && Caches(bufs[i], b) ==> !bufs[i].valid
  }

  /** A valid buffer holds its block's contents; one that nobody uses and that is not dirty
      agrees with the disk. */
  ghost predicate Holds(x: Buf, disk: Image, content: Image)
    requires |disk| == |content|
  {
    && x.blockno < |disk|
    && (x.blockno < 0 ==> !x.busy && !x.valid && !x.dirty)
    && (x.dirty ==> x.valid)
    && (x.blockno >= 0 && x.valid ==> x.data == content[x.blockno])
    && (x.blockno >= 0 && x.valid && Clean(x) ==> x.data == disk[x.blockno])
  }

  // The transitions of a buffer, and that each keeps the cache coherent.

  /** bget() recycles an unused clean buffer: no uncommitted data is dropped. */
  lemma RecycleKeeps(bufs: seq<Buf>, disk: Image, content: Image, i: nat, b: nat)
    requires Coherent(bufs, disk, content) && i < |bufs| && b < |disk|
    requires Clean(bufs[i]) && forall j :: 0 <= j < |bufs| ==> !Caches(bufs[j], b)
    ensures Coherent(bufs[i := Buf(b, true, false, false, bufs[i].data)], disk, content)
  {
    var r := bufs[i := Buf(b, true, false, false, bufs[i].data)];
    forall c | 0 <= c < |disk| && NotValid(r, c)
      ensures disk[c] == content[c]
    {
      if Caches(bufs[i], c) && bufs[i].valid {
        assert bufs[i].data == disk[c];
      } else {
        forall j | 0 <= j < |bufs| && Caches(bufs[j], c)
          ensures !bufs[j].valid
        {
          assert j != i ==> r[j] == bufs[j];
        }
        assert NotValid(bufs, c);
      }
    }
  }

  /** A change to one buffer that keeps its block and whether it is valid. */
  lemma UpdateKeeps(bufs: seq<Buf>, disk: Image, content: Image, i: nat, x: Buf)
    requires Coherent(bufs, disk, content) && i < |bufs|
    requires x.blockno == bufs[i].blockno && x.valid == bufs[i].valid && Holds(x, disk, content)
    ensures Coherent(bufs[i := x], disk, content)
  {
    var r := bufs[i := x];
    forall c | 0 <= c < |disk| && NotValid(r, c)
      ensures disk[c] == content[c]
    {
      forall j | 0 <= j < |bufs| && Caches(bufs[j], c)
        ensures !bufs[j].valid
      {
        assert Caches(r[j], c);
      }
      assert NotValid(bufs, c);
    }
  }

  /** Reading a block that no buffer holds yet. */
  lemma FillKeeps(bufs: seq<Buf>, disk: Image, content: Image, i: nat)
    requires Coherent(bufs, disk, content) && i < |bufs|
    requires bufs[i].busy && !bufs[i].valid && bufs[i].blockno >= 0
    ensures Coherent(bufs[i := bufs[i].(valid := true, data := disk[bufs[i].blockno])], disk, content)
    ensures disk[bufs[i].blockno] == content[bufs[i].blockno]
  {
    var b := bufs[i].blockno;
    assert NotValid(bufs, b);
    var r := bufs[i := bufs[i].(valid := true, data := disk[b])];
    forall c | 0 <= c < |disk| && NotValid(r, c)
      ensures disk[c] == content[c]
    {
      forall j | 0 <= j < |bufs| && Caches(bufs[j], c)
        ensures !bufs[j].valid
      {
        assert Caches(r[j], c);
      }
      assert NotValid(bufs, c);
    }
  }

  /** Storing new data in a busy buffer changes that block's contents and no other's. */
  lemma StoreKeeps(bufs: seq<Buf>, disk: Image, content: Image, i: nat, data: Block)
    requires Coherent(bufs, disk, content) && i < |bufs|
    requires bufs[i].busy && bufs[i].valid
    ensures Coherent(bufs[i := bufs[i].(data := data)], disk, content[bufs[i].blockno := data])
  {
    var b := bufs[i].blockno;
    var r := bufs[i := bufs[i].(data := data)];
    forall c | 0 <= c < |disk| && NotValid(r, c)
      ensures disk[c] == content[b := data][c]
    {
      assert Caches(r[i], b) && r[i].valid;
      forall j | 0 <= j < |bufs| && Caches(bufs[j], c)
        ensures !bufs[j].valid
      {
        assert Caches(r[j], c);
      }
      assert NotValid(bufs, c);
    }
  }

  /** Writing a valid busy buffer to the disk. */
  lemma FlushKeeps(bufs: seq<Buf>, disk: Image, content: Image, i: nat)
    requires Coherent(bufs, disk, content) && i < |bufs|
    requires bufs[i].busy && bufs[i].valid
    ensures Coherent(bufs[i := bufs[i].(dirty := false)], disk[bufs[i].blockno := bufs[i].data], content)
  {
    var b := bufs[i].blockno;
    var r, d := bufs[i := bufs[i].(dirty := false)], disk[b := bufs[i].data];
    forall c | 0 <= c < |disk| && NotValid(r, c)
      ensures d[c] == content[c]
    {
      assert Caches(r[i], b) && r[i].valid;
      forall j | 0 <= j < |bufs| && Caches(bufs[j], c)
        ensures !bufs[j].valid
      {
        assert Caches(r[j], c);
      }
      assert NotValid(bufs, c);
    }
    forall j | 0 <= j < |r|
      ensures Holds(r[j], d, content)
    {
      if j != i {
        assert r[j] == bufs[j];
        assert bufs[j].blockno >= 0 ==> bufs[j].blockno != b;
      }
    }
  }

  // The LRU list.

  ghost predicate Linked(next: seq<nat>, prev: seq<nat>, cyc: seq<nat>) {
    && |next| == |prev|
    && (forall k :: 0 <= k < |cyc| ==> cyc[k] < |next|)
    && (forall j, k :: 0 <= j < k < |cyc| && k == j + 1 ==> next[cyc[j]] == cyc[k] && prev[cyc[k]] == cyc[j])
  }

  /** A cycle: only its two ends are the same node. */
  ghost predicate OnlyEndsMeet(cyc: seq<nat>) {
    && |cyc| >= 2 && cyc[0] == cyc[|cyc| - 1]
    && forall i, j :: 0 <= i < j < |cyc| && (i > 0 || j < |cyc| - 1) ==> cyc[i] != cyc[j]
  }

  ghost predicate NoRepeat(s: seq<nat>) {
    forall i, j :: 0 <= i < j < |s| ==> s[i] != s[j]
  }

  lemma UnlinkKeeps(next: seq<nat>, prev: seq<nat>, cyc: seq<nat>, k: nat)
    requires Linked(next, prev, cyc) && OnlyEndsMeet(cyc) && 0 < k < |cyc| - 1
    ensures prev[cyc[k]] == cyc[k - 1] && next[cyc[k]] == cyc[k + 1]
    ensures Linked(next[cyc[k - 1] := cyc[k + 1]], prev[cyc[k + 1] := cyc[k - 1]], cyc[..k] + cyc[k + 1..])
  {}

  lemma PushKeeps(next: seq<nat>, prev: seq<nat>, cyc: seq<nat>, b: nat)
    requires Linked(next, prev, cyc) && OnlyEndsMeet(cyc) && b < |next| && b !in cyc
    ensures next[cyc[0]] == cyc[1]
    ensures Linked(next[b := cyc[1]][cyc[0] := b], prev[b := cyc[0]][cyc[1] := b], [cyc[0], b] + cyc[1..])
  {}

  /** The doubly linked list through head: order lists the buffers from head.next on, most
      recently released first.  Node n is bcache.head. */
  class Ring {
    const n: nat
    const next: array<nat>
    const prev: array<nat>
    ghost var order: seq<nat>

    ghost function Cycle(): (c: seq<nat>)
      reads this
    {
      [n] + order + [n]
    }

    ghost predicate Valid()
      reads this, next, prev
    {
      && next != prev && next.Length == prev.Length == n + 1
      && (forall k :: 0 <= k < |order| ==> order[k] < n)
      && NoRepeat(order)
      && Linked(next[..], prev[..], Cycle())
    }

    constructor (n: nat)
      ensures Valid() && fresh(next) && fresh(prev)
      ensures this.n == n && order == []
    {
      this.n := n;
      next := new nat[n + 1](_ => n);
      prev := new nat[n + 1](_ => n);
      order := [];
    }

    /** Take b, the k-th in order, out of the list. */
    method Unlink(b: nat, ghost k: nat)
      requires Valid() && k < |order| && order[k] == b
      modifies next, prev, this`order
      ensures Valid() && order == old(order[..k] + order[k + 1..])
    {
      ghost var cyc := Cycle();
      UnlinkKeeps(next[..], prev[..], cyc, k + 1);
      prev[next[b]] := prev[b];
      next[prev[b]] := next[b];
      order := order[..k] + order[k + 1..];
      assert Cycle() == cyc[..k + 1] + cyc[k + 2..];
    }

    /** Put b right after the head. */
    method PushFront(b: nat)
      requires Valid() && b < n && b !in order
      modifies next, prev, this`order
      ensures Valid() && order == [b] + old(order)
    {
      ghost var cyc := Cycle();
      PushKeeps(next[..], prev[..], cyc, b);
      next[b] := next[n];
      prev[b] := n;
      prev[next[n]] := b;
      next[n] := b;
      order := [b] + order;
      assert Cycle() == [n, b] + cyc[1..];
    }
  }

  datatype Got = Ok(i: nat) | Sleep | Panic

  ghost predicate Cached(bufs: seq<Buf>, b: nat) {
    exists i :: 0 <= i < |bufs| && Caches(bufs[i], b)
  }

  ghost predicate HasClean(bufs: seq<Buf>) {
    exists i :: 0 <= i < |bufs| && Clean(bufs[i])
  }

  /** Buffer i is clean and everything released less recently is not. */
  ghost predicate LeastRecentClean(bufs: seq<Buf>, order: seq<nat>, i: nat) {
    exists k :: 0 <= k < |order| && order[k] == i && i < |bufs| && Clean(bufs[i])
                && forall m :: k < m < |order| ==> order[m] < |bufs| && !Clean(bufs[order[m]])
  }

  /** What bget() may answer, and the buffers afterwards. */
  ghost predicate BgetSpec(bufs: seq<Buf>, order: seq<nat>, b: nat, r: Got, after: seq<Buf>) {
    match r
    case Sleep => after == bufs && exists i :: 0 <= i < |bufs| && Caches(bufs[i], b) && bufs[i].busy
    case Panic => after == bufs && !Cached(bufs, b) && !HasClean(bufs)
    case Ok(i) =>
      && i < |bufs|
      && if Cached(bufs, b) then Caches(bufs[i], b) && !bufs[i].busy && after == bufs[i := bufs[i].(busy := true)]
         else LeastRecentClean(bufs, order, i) && after == bufs[i := Buf(b, true, false, false, bufs[i].data)]
  }

  /** bread() is bget() followed, when the buffer is not valid, by a read from the disk. */
  ghost predicate BreadSpec(bufs: seq<Buf>, order: seq<nat>, content: Image, b: nat, r: Got, after: seq<Buf>) {
    match r
    case Sleep => BgetSpec(bufs, order, b, r, after)
    case Panic => BgetSpec(bufs, order, b, r, after)
    case Ok(i) =>
      && i < |bufs| == |after| && b < |content|
      && after == bufs[i := Buf(b, true, true, after[i].dirty, content[b])]
      && if Cached(bufs, b) then Caches(bufs[i], b) && !bufs[i].busy && after[i].dirty == bufs[i].dirty
         else LeastRecentClean(bufs, order, i) && !after[i].dirty
  }

  ghost predicate Permutation(order: seq<nat>, n: nat) {
    && |order| == n && NoRepeat(order)
    && (forall k :: 0 <= k < |order| ==> order[k] < n)
    && (forall i :: 0 <= i < n ==> i in order)
  }

  lemma MoveToFrontPermutes(order: seq<nat>, n: nat, k: nat)
    requires Permutation(order, n) && k < n
    ensures order[k] !in order[..k] + order[k + 1..]
    ensures Permutation([order[k]] + (order[..k] + order[k + 1..]), n)
  {
    var r := [order[k]] + (order[..k] + order[k + 1..]);
    forall i | 0 <= i < n
      ensures i in r
    {
      assert i in order;
      var m :| 0 <= m < n && order[m] == i;
      assert r[if m == k then 0 else if m < k then m + 1 else m] == i;
    }
  }

  class Cache {
    const ring: Ring
    var bufs: seq<Buf>
    var disk: Image
    /** What was last stored in each block. */
    ghost var content: Image
    /** Every disk write so far, and the disk before them. */
    ghost var trace: seq<Write>
    ghost const disk0: Image

    ghost predicate Valid()
      reads this, ring, ring.next, ring.prev
    {
      && ring.n == NBUF && ring.Valid() && Permutation(ring.order, NBUF)
      && |bufs| == NBUF && Coherent(bufs, disk, content)
      && InRange(disk0, trace) && disk == ApplyAll(disk0, trace)
    }

    /** binit() */
    constructor (d: Image)
      ensures Valid() && fresh(ring) && fresh(ring.next) && fresh(ring.prev)
      ensures disk == content == d && trace == []
      ensures forall i :: 0 <= i < NBUF ==> bufs[i].blockno < 0
    {
      ring := new Ring(NBUF);
      disk, content, disk0, trace := d, d, d, [];
      bufs := seq(NBUF, _ => Buf(-1, false, false, false, ZeroBlock()));
      new;
      var b := 0;
      while b < NBUF
        invariant b <= NBUF && ring.n == NBUF && ring.Valid() && |ring.order| == b
        invariant forall k :: 0 <= k < b ==> ring.order[k] == b - 1 - k
        modifies ring, ring.next, ring.prev
      {
        ring.PushFront(b);
        b := b + 1;
      }
      forall i | 0 <= i < NBUF
        ensures i in ring.order
      {
        assert ring.order[NBUF - 1 - i] == i;
      }
    }

    /** bget()'s first scan, from head.next on: the buffer that caches b, or NBUF. */
    method FindCached(b: nat) returns (x: nat)
      requires Valid()
      ensures x <= NBUF && (x < NBUF ==> Caches(bufs[x], b))
      ensures x == NBUF ==> !Cached(bufs, b)
    {
      ghost var cyc := ring.Cycle();
      ghost var k: nat := 0;
      assert cyc[0] == NBUF && cyc[NBUF + 1] == NBUF;
      x := ring.next[NBUF];
      assert x == cyc[1];
      while x != NBUF && bufs[x].blockno != b
        invariant k <= NBUF && x == cyc[k + 1]
        invariant forall m :: 0 <= m < k ==> !Caches(bufs[ring.order[m]], b)
        decreases NBUF - k
      {
        assert ring.next[cyc[k + 1]] == cyc[k + 2];
        x := ring.next[x];
        k := k + 1;
      }
      if x == NBUF {
        forall i | 0 <= i < NBUF
          ensures !Caches(bufs[i], b)
        {
          assert i in ring.order;
        }
      }
    }

    /** bget()'s second scan, from head.prev back: the least recently released clean buffer. */
    method FindClean() returns (x: nat)
      requires Valid()
      ensures x <= NBUF && (x < NBUF ==> LeastRecentClean(bufs, ring.order, x))
      ensures x == NBUF ==> !HasClean(bufs)
    {
      ghost var cyc := ring.Cycle();
      ghost var k: nat := NBUF;
      assert cyc[0] == NBUF && cyc[NBUF + 1] == NBUF;
      x := ring.prev[NBUF];
      assert x == cyc[NBUF];
      while x != NBUF && (bufs[x].busy || bufs[x].dirty)
        invariant k <= NBUF && x == cyc[k]
        invariant forall m :: k <= m < NBUF ==> !Clean(bufs[ring.order[m]])
        decreases k
      {
        assert ring.prev[cyc[k]] == cyc[k - 1];
        x := ring.prev[x];
        k := k - 1;
      }
      if x == NBUF {
        forall i | 0 <= i < NBUF
          ensures !Clean(bufs[i])
        {
          assert i in ring.order;
        }
      } else {
        assert ring.order[k - 1] == x;
      }
    }

    /** bget() */
    method Bget(b: nat) returns (r: Got)
      requires Valid() && b < |disk|
      modifies this`bufs
      ensures Valid()
      ensures BgetSpec(old(bufs), ring.order, b, r, bufs)
    {
      var x := FindCached(b);
      if x < NBUF {
        if !bufs[x].busy {
          UpdateKeeps(bufs, disk, content, x, bufs[x].(busy := true));
          bufs := bufs[x := bufs[x].(busy := true)];
          return Ok(x);
        }
        return Sleep;
      }
      x := FindClean();
      if x < NBUF {
        RecycleKeeps(bufs, disk, content, x, b);
        bufs := bufs[x := Buf(b, true, false, false, bufs[x].data)];
        return Ok(x);
      }
      return Panic;
    }

    /** iderw(): a dirty buffer is written, one that is not valid is read. */
    method Iderw(i: nat)
      requires Valid() && i < NBUF && bufs[i].busy && (bufs[i].dirty || !bufs[i].valid)
      modifies this`bufs, this`disk, this`trace
      ensures Valid() && !bufs[i].dirty
      ensures bufs == old(bufs)[i := old(bufs)[i].(valid := true, dirty := false,
                                                   data := content[old(bufs)[i].blockno])]
      ensures trace == old(trace) + if old(bufs)[i].dirty then [Write(bufs[i].blockno, bufs[i].data)] else []
      ensures !old(bufs)[i].dirty ==> disk == old(disk)
    {
      var b := bufs[i].blockno;
      if bufs[i].dirty {
        FlushKeeps(bufs, disk, content, i);
        disk := disk[b := bufs[i].data];
        trace := trace + [Write(b, bufs[i].data)];
        SamePrefix(disk0, old(trace), trace, |trace| - 1);
        bufs := bufs[i := bufs[i].(dirty := false)];
      } else {
        FillKeeps(bufs, disk, content, i);
        bufs := bufs[i := bufs[i].(valid := true, data := disk[b])];
      }
    }

    method Bread(b: nat) returns (r: Got)
      requires Valid() && b < |disk|
      modifies this`bufs, this`disk, this`trace
      ensures Valid() && disk == old(disk) && trace == old(trace)
      ensures BreadSpec(old(bufs), ring.order, content, b, r, bufs)
    {
      r := Bget(b);
      if r.Ok? && !bufs[r.i].valid {
        Iderw(r.i);
      }
    }

    method Bwrite(i: nat)
      requires Valid() && i < NBUF && bufs[i].busy && bufs[i].valid
      modifies this`bufs, this`disk, this`trace
      ensures Valid() && bufs == old(bufs)[i := old(bufs)[i].(dirty := false)]
      ensures trace == old(trace) + [Write(bufs[i].blockno, bufs[i].data)]
      ensures disk == old(disk)[bufs[i].blockno := bufs[i].data]
    {
      UpdateKeeps(bufs, disk, content, i, bufs[i].(dirty := true));
      bufs := bufs[i := bufs[i].(dirty := true)];
      Iderw(i);
      SamePrefix(disk0, old(trace), trace, |trace| - 1);
    }

    /** New contents from the process that holds the buffer. */
    method Store(i: nat, data: Block)
      requires Valid() && i < NBUF && bufs[i].busy && bufs[i].valid
      modifies this`bufs, this`content
      ensures Valid() && bufs == old(bufs)[i := old(bufs)[i].(data := data)]
      ensures content == old(content)[bufs[i].blockno := data]
    {
      StoreKeeps(bufs, disk, content, i, data);
      content := content[bufs[i].blockno := data];
      bufs := bufs[i := bufs[i].(data := data)];
    }

    /** log_write() marks the buffer dirty. */
    method MarkDirty(i: nat)
      requires Valid() && i < NBUF && bufs[i].busy && bufs[i].valid
      modifies this`bufs
      ensures Valid() && bufs == old(bufs)[i := old(bufs)[i].(dirty := true)]
    {
      UpdateKeeps(bufs, disk, content, i, bufs[i].(dirty := true));
      bufs := bufs[i := bufs[i].(dirty := true)];
    }

    /** brelse(): whoever changed the data has logged or written it. */
    method Brelse(i: nat)
      requires Valid() && i < NBUF && bufs[i].busy
      requires bufs[i].valid && !bufs[i].dirty ==> bufs[i].data == disk[bufs[i].blockno]
      modifies this`bufs, ring, ring.next, ring.prev
      ensures Valid() && bufs == old(bufs)[i := old(bufs)[i].(busy := false)]
      ensures exists k :: 0 <= k < NBUF && old(ring.order)[k] == i
                          && ring.order == [i] + (old(ring.order)[..k] + old(ring.order)[k + 1..])
    {
      assert i in ring.order;
      ghost var k :| 0 <= k < NBUF && ring.order[k] == i;
      MoveToFrontPermutes(ring.order, NBUF, k);
      ring.Unlink(i, k);
      ring.PushFront(i);
      UpdateKeeps(bufs, disk, content, i, bufs[i].(busy := false));
      bufs := bufs[i := bufs[i].(busy := false)];
    }
  }
}
