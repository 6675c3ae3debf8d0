/** The disk as the log sees it: an array of blocks that changes by whole-block writes.

    A block is BSIZE bytes; log.c reads the header block as an array of ints, so a block is
    modelled as BSIZE / sizeof(int) words.  A block write is one indivisible step (ide.c hands
    one block to the controller and waits for the interrupt). */
module Disk {

  const BLOCK_WORDS: nat := 128

  type Words = w: seq<int> | |w| == BLOCK_WORDS witness seq(BLOCK_WORDS, _ => 0)

  datatype Block = Block(words: Words)

  function ZeroBlock(): (b: Block) {
    Block(seq(BLOCK_WORDS, _ => 0))
  }

  type Image = seq<Block>

  datatype Write = Write(blockno: nat, data: Block)

  predicate InRange(d: Image, ws: seq<Write>) {
    forall i :: 0 <= i < |ws| ==> ws[i].blockno < |d|
  }

  /** The disk after the first k of the writes ws. */
  function ApplyFirst(d: Image, ws: seq<Write>, k: nat): (r: Image)
    requires InRange(d, ws) && k <= |ws|
    ensures |r| == |d|
    decreases |ws| + k
  {
    if k == 0 then d else ApplyFirst(d, ws, k - 1)[ws[k - 1].blockno := ws[k - 1].data]
  }

  /** The disk after all the writes ws. */
  function ApplyAll(d: Image, ws: seq<Write>): (r: Image)
    requires InRange(d, ws)
    ensures |r| == |d|
  {
    ApplyFirst(d, ws, |ws|)
  }

  /** Only the writes made so far matter. */
  lemma {:induction false} SamePrefix(d: Image, a: seq<Write>, b: seq<Write>, k: nat)
    requires InRange(d, a) && InRange(d, b) && k <= |a| && k <= |b|
    requires forall i :: 0 <= i < k ==> a[i] == b[i]
    ensures ApplyFirst(d, a, k) == ApplyFirst(d, b, k)
    decreases k
  {
    if k > 0 {
      SamePrefix(d, a, b, k - 1);
    }
  }

  lemma {:induction false} ApplyConcat(d: Image, a: seq<Write>, b: seq<Write>, k: nat)
    requires InRange(d, a) && InRange(d, b) && k <= |b|
    ensures InRange(d, a + b)
    ensures ApplyFirst(d, a + b, |a| + k) == ApplyFirst(ApplyAll(d, a), b, k)
    decreases k
  {
    if k == 0 {
      SamePrefix(d, a, a + b, |a|);
    } else {
      ApplyConcat(d, a, b, k - 1);
    }
  }

  /** Writes that stay away from block b leave it alone. */
  lemma {:induction false} Untouched(d: Image, ws: seq<Write>, k: nat, b: nat)
    requires InRange(d, ws) && k <= |ws| && b < |d|
    requires forall i :: 0 <= i < k ==> ws[i].blockno != b
    ensures ApplyFirst(d, ws, k)[b] == d[b]
    decreases k
  {
    if k > 0 {
      Untouched(d, ws, k - 1, b);
    }
  }

  /** The last write to a block is what the block ends up with. */
  lemma {:induction false} LastWrite(d: Image, ws: seq<Write>, k: nat, m: nat)
    requires InRange(d, ws) && m < k <= |ws|
    requires forall i :: m < i < k ==> ws[i].blockno != ws[m].blockno
    ensures ApplyFirst(d, ws, k)[ws[m].blockno] == ws[m].data
    decreases k
  {
    if m < k - 1 {
      LastWrite(d, ws, k - 1, m);
    }
  }

  /** Two disks that agree wherever the writes do not go agree after them. */
  lemma {:induction false} AgreeAt(x: Image, y: Image, ws: seq<Write>, k: nat, b: nat)
    requires |x| == |y| && InRange(x, ws) && k <= |ws| && b < |x|
    requires x[b] == y[b] || exists i :: 0 <= i < k && ws[i].blockno == b
    ensures ApplyFirst(x, ws, k)[b] == ApplyFirst(y, ws, k)[b]
    decreases k
  {
    if k > 0 && ws[k - 1].blockno != b {
      AgreeAt(x, y, ws, k - 1, b);
    }
  }

  /** Replaying a list of writes over any part of itself gives what one full pass gives. */
  lemma Replay(d: Image, ws: seq<Write>, j: nat)
    requires InRange(d, ws) && j <= |ws|
    ensures ApplyAll(ApplyFirst(d, ws, j), ws) == ApplyAll(d, ws)
  {
    var x := ApplyFirst(d, ws, j);
    forall b | 0 <= b < |d|
      ensures ApplyAll(x, ws)[b] == ApplyAll(d, ws)[b]
    {
      if forall i :: 0 <= i < |ws| ==> ws[i].blockno != b {
        Untouched(d, ws, j, b);
      }
      AgreeAt(x, d, ws, |ws|, b);
    }
  }
}
