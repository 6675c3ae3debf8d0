/** The request queue of ide.c: iderw() appends a busy buffer, ideintr() finishes the first one.  The buffer
    cache treats iderw() as one step; here is why it may, whatever requests overlap. */
module IdeQueue {
  import opened Disk

  datatype IdeBuf = IdeBuf(blockno: nat, valid: bool, dirty: bool, data: Block)

  datatype Ide = Ide(bufs: seq<IdeBuf>, queue: seq<nat>, disk: Image)

  predicate Pending(s: Ide, i: nat) {
    i < |s.bufs| && s.bufs[i].blockno < |s.disk| && (s.bufs[i].dirty || !s.bufs[i].valid)
  }

  /** Requests wait for different blocks: a block is in one buffer and that buffer is busy. */
  predicate Sound(s: Ide) {
    && (forall k :: 0 <= k < |s.queue| ==> Pending(s, s.queue[k]))
    && (forall j, k :: 0 <= j < k < |s.queue| ==>
         s.queue[j] != s.queue[k] && s.bufs[s.queue[j]].blockno != s.bufs[s.queue[k]].blockno)
  }

  /** A request that may be made now. */
  predicate CanRequest(s: Ide, i: nat) {
    && Pending(s, i)
    && forall k :: 0 <= k < |s.queue| ==>
         s.queue[k] < |s.bufs| && s.queue[k] != i && s.bufs[s.queue[k]].blockno != s.bufs[i].blockno
  }

  function Requested(s: Ide, i: nat): (r: Ide) {
    s.(queue := s.queue + [i])
  }

  /** ideintr() with request i first: the transfer is done, the flags say so. */
  function Finished(s: Ide, i: nat): (r: Ide)
    requires |s.queue| > 0 && i == s.queue[0] && Pending(s, i)
  {
    var b := s.bufs[i];
    var data := if b.dirty then b.data else s.disk[b.blockno];
    Ide(s.bufs[i := IdeBuf(b.blockno, true, false, data)], s.queue[1..], s.disk[b.blockno := data])
  }

  /** The disk if every request had been carried out when it was made. */
  ghost predicate AtOnce(s: Ide, now: Image) {
    && Sound(s) && |now| == |s.disk|
    && (forall k {:trigger s.queue[k]} :: 0 <= k < |s.queue| ==>
         var b := s.bufs[s.queue[k]]; now[b.blockno] == if b.dirty then b.data else s.disk[b.blockno])
    && (forall x {:trigger now[x]} :: 0 <= x < |now| && Waits(s, x) == false ==> now[x] == s.disk[x])
  }

  predicate Waits(s: Ide, x: nat) {
    exists k :: 0 <= k < |s.queue| && s.queue[k] < |s.bufs| && s.bufs[s.queue[k]].blockno == x
  }

  /** The one-step iderw() on the disk. */
  function Atomic(now: Image, b: IdeBuf): (r: Image)
    requires b.blockno < |now|
  {
    if b.dirty then now[b.blockno := b.data] else now
  }

  lemma RequestKeeps(s: Ide, now: Image, i: nat)
    requires AtOnce(s, now) && CanRequest(s, i)
    ensures AtOnce(Requested(s, i), Atomic(now, s.bufs[i]))
  {
    var r, image := Requested(s, i), Atomic(now, s.bufs[i]);
    var x0 := s.bufs[i].blockno;
    assert !Waits(s, x0);
    assert now[x0] == s.disk[x0];
    forall x | 0 <= x < |now| && !Waits(r, x)
      ensures image[x] == s.disk[x]
    {
      assert r.queue[|s.queue|] == i;
      assert x != x0;
      forall k | 0 <= k < |s.queue| ensures s.bufs[s.queue[k]].blockno != x {
        assert r.queue[k] == s.queue[k];
      }
      assert !Waits(s, x);
    }
  }

  /** The interrupt gives the process that waits what the one-step iderw() would have given it, and
      changes nothing for the others. */
  lemma InterruptKeeps(s: Ide, now: Image)
    requires AtOnce(s, now) && |s.queue| > 0
    ensures Pending(s, s.queue[0])
    ensures var i := s.queue[0]; var r := Finished(s, i);
            && AtOnce(r, now) && r.queue == s.queue[1..] && |r.bufs| == |s.bufs|
            && r.bufs[i] == IdeBuf(s.bufs[i].blockno, true, false, now[s.bufs[i].blockno])
            && (forall j :: 0 <= j < |s.bufs| && j != i ==> r.bufs[j] == s.bufs[j])
            && (if s.bufs[i].dirty then r.disk == s.disk[s.bufs[i].blockno := s.bufs[i].data]
                else r.disk == s.disk && r.bufs[i].data == s.disk[s.bufs[i].blockno])
  {}

  // Whole runs.

  datatype Event = Request(i: nat) | Interrupt

  predicate Can(s: Ide, e: Event) {
    match e
    case Request(i) => CanRequest(s, i)
    case Interrupt => |s.queue| > 0 && Pending(s, s.queue[0])
  }

  function After(s: Ide, e: Event): (r: Ide)
    requires Can(s, e)
  {
    match e
    case Request(i) => Requested(s, i)
    case Interrupt => Finished(s, s.queue[0])
  }

  function AtomicAfter(s: Ide, now: Image, e: Event): (r: Image)
    requires Can(s, e) && |now| == |s.disk|
  {
    if e.Request? then Atomic(now, s.bufs[e.i]) else now
  }

  ghost predicate Leads(s: Ide, now: Image, es: seq<Event>, t: Ide, image: Image)
    decreases |es|
  {
    if es == [] then t == s && image == now
    else Can(s, es[0]) && |now| == |s.disk| && Leads(After(s, es[0]), AtomicAfter(s, now, es[0]), es[1..], t, image)
  }

  /** Once the queue is empty the disk is what one-step requests, in the order made, would have left. */
  lemma {:induction false} QueueRefinesAtomic(s: Ide, now: Image, es: seq<Event>, t: Ide, image: Image)
    requires AtOnce(s, now) && Leads(s, now, es, t, image)
    ensures AtOnce(t, image)
    ensures t.queue == [] ==> t.disk == image
    decreases |es|
  {
    if es == [] {
      if t.queue == [] {
        assert forall x: nat :: !Waits(t, x);
        assert forall x :: 0 <= x < |image| ==> image[x] == t.disk[x];
      }
    } else {
      match es[0] {
        case Request(i) => RequestKeeps(s, now, i);
        case Interrupt => InterruptKeeps(s, now);
      }
      QueueRefinesAtomic(After(s, es[0]), AtomicAfter(s, now, es[0]), es[1..], t, image);
    }
  }

  // The links.

  /** From head, following qnext, come exactly the entries of q; -1 ends the list. */
  predicate Chained(next: seq<int>, head: int, q: seq<nat>) {
    && head == (if |q| > 0 then q[0] else -1)
    && (forall k :: 0 <= k < |q| ==> LinkAt(next, q, k))
    && (forall j, k :: 0 <= j < k < |q| ==> q[j] != q[k])
  }

  predicate LinkAt(next: seq<int>, q: seq<nat>, k: nat) {
    k < |q| && q[k] < |next| && next[q[k]] == if k + 1 < |q| then q[k + 1] else -1
  }

  /** The last link set to b, whose own link is null. */
  lemma ChainAppend(next: seq<int>, head: int, q: seq<nat>, b: nat)
    requires Chained(next, head, q) && b < |next| && b !in q
    ensures var n := next[b := -1];
            && Chained(n, head, q)
            && (if q == [] then Chained(n, b, [b])
                else q[|q| - 1] < |next| && Chained(n[q[|q| - 1] := b], head, q + [b]))
  {
    var n := next[b := -1];
    forall k | 0 <= k < |q| ensures LinkAt(n, q, k) {
      assert LinkAt(next, q, k);
    }
    if q != [] {
      var last := |q| - 1;
      assert LinkAt(next, q, last);
      var r, n' := q + [b], n[q[last] := b];
      forall k | 0 <= k < |r| ensures LinkAt(n', r, k) {
        if k < |q| {
          assert LinkAt(next, q, k);
        }
      }
    }
  }

  lemma ChainTail(next: seq<int>, head: int, q: seq<nat>)
    requires Chained(next, head, q) && q != []
    ensures 0 <= head < |next| && Chained(next, next[head], q[1..])
  {
    assert LinkAt(next, q, 0);
    forall k | 0 <= k < |q| - 1 ensures LinkAt(next, q[1..], k) {
      assert LinkAt(next, q, k + 1);
    }
  }

  class Queue {
    var idequeue: int
    var qnext: seq<int>
    ghost var q: seq<nat>

    ghost predicate Valid()
      reads this
    {
      Chained(qnext, idequeue, q)
    }

    constructor (n: nat)
      ensures Valid() && q == [] && |qnext| == n
    {
      idequeue := -1;
      qnext := seq(n, _ => -1);
      q := [];
    }

    /** The walk of iderw() to the last link, and the store there; start says whether the disk was idle. */
    method Append(b: nat) returns (start: bool)
      requires Valid() && b < |qnext| && b !in q
      modifies this
      ensures Valid() && q == old(q) + [b] && (start <==> old(q) == []) && |qnext| == |old(qnext)|
    {
      ChainAppend(qnext, idequeue, q, b);
      qnext := qnext[b := -1];
      if idequeue == -1 {
        idequeue := b;
      } else {
        var p := idequeue;
        ghost var k: nat := 0;
        assert LinkAt(qnext, q, 0);
        while qnext[p] != -1
          invariant k < |q| && p == q[k] && LinkAt(qnext, q, k)
          decreases |q| - k
        {
          p := qnext[p];
          k := k + 1;
          assert LinkAt(qnext, q, k);
        }
        qnext := qnext[p := b];
      }
      q := q + [b];
      start := idequeue == b;
    }

    /** ideintr() takes the first request off the queue, -1 if there is none. */
    method TakeFirst() returns (b: int)
      requires Valid()
      modifies this
      ensures Valid()
      ensures b == -1 <==> old(q) == []
      ensures b != -1 ==> old(q) == [b] + q
      ensures b == -1 ==> q == []
    {
      b := idequeue;
      if b != -1 {
        ChainTail(qnext, idequeue, q);
        idequeue := qnext[b];
        assert q == [q[0]] + q[1..];
        q := q[1..];
      }
    }
  }
}
