/** What a file holds: the flat byte sequence behind direct and indirect blocks, and what the steps of
    bmap(), readi(), writei() and itrunc() do to it (fs.c). */
module FileContents {
  import opened Blocks
  import opened FsState

  /** The slot of block bn of a file. */
  function SlotFor(bn: nat): (s: nat)
    requires bn < MAXFILE
    ensures s < SLOTS && s != NDIRECT
  {
    if bn < NDIRECT then bn else bn + 1
  }

  function BlockOf(st: State, i: nat, bn: nat): (b: nat)
    requires i < |st.inodes| && bn < MAXFILE
  {
    SlotOf(st, i, SlotFor(bn))
  }

  function ByteAt(st: State, i: nat, x: nat): (c: Byte)
    requires i < |st.inodes| && x < MAXBYTES
  {
    var b := BlockOf(st, i, x / BSIZE);
    if b < |st.data| then st.data[b][x % BSIZE] else 0
  }

  function Max(a: nat, b: nat): (r: nat) {
    if a < b then b else a
  }

  /** The contents of file i. */
  function File(st: State, i: nat): (f: seq<Byte>)
    requires i < |st.inodes| && st.inodes[i].size <= MAXBYTES
  {
    seq(st.inodes[i].size, x requires 0 <= x < st.inodes[i].size => ByteAt(st, i, x))
  }

  /** The mapped blocks of file i are those that start below len, and the indirect block if needed. */
  ghost predicate NoHoles(st: State, i: nat, len: nat)
    requires i < |st.inodes|
  {
    && (forall bn: nat {:trigger BlockOf(st, i, bn)} :: bn < MAXFILE ==>
         (BlockOf(st, i, bn) != 0 <==> bn * BSIZE < len))
    && (st.inodes[i].addrs[NDIRECT] != 0 <==> NDIRECT * BSIZE < len)
  }

  /** Nothing but the blocks and the block map of file i differs, and what it had mapped stays mapped. */
  ghost predicate Aside(st: State, own: Owners, st': State, own': Owners, i: nat) {
    && i < |st.inodes| == |st'.inodes| && st'.start == st.start && |st'.used| == |st.used|
    && st'.dinodes == st.dinodes
    && st'.inodes[i] == st.inodes[i].(addrs := st'.inodes[i].addrs)
    && (forall j: nat {:trigger st'.inodes[j]} :: j < |st.inodes| && j != i ==> st'.inodes[j] == st.inodes[j])
    && (forall b: nat {:trigger b in own} :: b in own ==> b in own' && own'[b] == own[b])
    && (forall b: nat {:trigger st'.data[b]} :: b in own && own[b].inum != i && b < |st.data| && b < |st'.data| ==>
         st'.data[b] == st.data[b])
  }

  /** Also the data blocks of file i hold what they held. */
  ghost predicate Extends(st: State, own: Owners, st': State, own': Owners, i: nat) {
    && Aside(st, own, st', own', i)
    && (forall b: nat {:trigger st'.data[b]} ::
         b in own && own[b].index != NDIRECT && b < |st.data| && b < |st'.data| ==> st'.data[b] == st.data[b])
  }

  lemma AssignExtends(st: State, own: Owners, i: nat, s: nat, b: nat)
    requires Owned(st, own) && CanAssign(st, i, s, b)
    ensures Extends(st, own, Assign(st, i, s, b), own[b := Slot(i, s)], i)
  {
    if s > NDIRECT {
      IndirectOwned(st, own, i);
    }
  }

  lemma AsideTrans(a: State, oa: Owners, b: State, ob: Owners, c: State, oc: Owners, i: nat)
    requires Owned(a, oa) && Owned(b, ob) && Owned(c, oc) && Aside(a, oa, b, ob, i) && Aside(b, ob, c, oc, i)
    ensures Aside(a, oa, c, oc, i)
  {
    forall x: nat | x in oa && oa[x].inum != i
      ensures c.data[x] == a.data[x]
    {
      assert x in ob && x in oc && b.data[x] == a.data[x];
    }
    forall j: nat | j < |a.inodes| && j != i
      ensures c.inodes[j] == a.inodes[j]
    {
      assert b.inodes[j] == a.inodes[j];
    }
  }

  lemma ExtendsTrans(a: State, oa: Owners, b: State, ob: Owners, c: State, oc: Owners, i: nat)
    requires Owned(a, oa) && Owned(b, ob) && Owned(c, oc) && Extends(a, oa, b, ob, i) && Extends(b, ob, c, oc, i)
    ensures Extends(a, oa, c, oc, i)
  {
    AsideTrans(a, oa, b, ob, c, oc, i);
    forall x: nat | x in oa && oa[x].index != NDIRECT
      ensures c.data[x] == a.data[x]
    {
      assert x in ob && x in oc && b.data[x] == a.data[x];
    }
  }

  /** Another file keeps its slots. */
  lemma OtherSlots(st: State, own: Owners, st': State, own': Owners, i: nat, j: nat, s: nat)
    requires Owned(st, own) && Owned(st', own') && Aside(st, own, st', own', i) && IsSlot(st, j, s) && j != i
    ensures SlotOf(st', j, s) == SlotOf(st, j, s)
  {
    assert st'.inodes[j] == st.inodes[j];
    if s > NDIRECT && st.inodes[j].addrs[NDIRECT] != 0 {
      IndirectOwned(st, own, j);
    }
  }

  /** Another file keeps its contents. */
  lemma OtherFile(st: State, own: Owners, st': State, own': Owners, i: nat, j: nat)
    requires Owned(st, own) && Owned(st', own') && Aside(st, own, st', own', i) && j < |st.inodes| && j != i
    requires NoHoles(st, j, st.inodes[j].size) && st.inodes[j].size <= MAXBYTES
    ensures SameFile(st, st', j) && NoHoles(st', j, st.inodes[j].size)
  {
    assert st'.inodes[j] == st.inodes[j];
    forall bn: nat | bn < MAXFILE
      ensures BlockOf(st', j, bn) == BlockOf(st, j, bn)
    {
      OtherSlots(st, own, st', own', i, j, SlotFor(bn));
    }
    forall x: nat | x < st.inodes[j].size
      ensures ByteAt(st', j, x) == ByteAt(st, j, x)
    {
      var bn := x / BSIZE;
      assert BlockOf(st, j, bn) != 0;
      assert SlotOf(st, j, SlotFor(bn)) in own;
      assert BlockOf(st', j, bn) == BlockOf(st, j, bn);
    }
  }

  /** What bmap() returns block b for, having gone from st to st'. */
  ghost predicate Mapped(st: State, own: Owners, st': State, own': Owners, i: nat, bn: nat, b: nat) {
    && Owned(st', own') && Extends(st, own, st', own', i) && bn < MAXFILE
    && b != 0 && BlockOf(st', i, bn) == b
    && (BlockOf(st, i, bn) != 0 ==> st' == st && own' == own)
    && (forall k: nat {:trigger BlockOf(st', i, k)} :: k < MAXFILE && k != bn ==>
         BlockOf(st', i, k) == BlockOf(st, i, k))
    && (st'.inodes[i].addrs[NDIRECT] != 0 <==> st.inodes[i].addrs[NDIRECT] != 0 || bn >= NDIRECT)
  }

  /** A mapped block needs no step. */
  lemma MappedAlready(st: State, own: Owners, i: nat, bn: nat)
    requires Owned(st, own) && i < |st.inodes| && bn < MAXFILE && BlockOf(st, i, bn) != 0
    ensures Mapped(st, own, st, own, i, bn, BlockOf(st, i, bn))
  {}

  /** bmap() with one allocation, that of the block itself. */
  lemma MappedOnce(st: State, own: Owners, i: nat, bn: nat, b: nat)
    requires Owned(st, own) && bn < MAXFILE && CanAssign(st, i, SlotFor(bn), b)
    ensures Mapped(st, own, Assign(st, i, SlotFor(bn), b), own[b := Slot(i, SlotFor(bn))], i, bn, b)
  {
    AssignKeeps(st, own, i, SlotFor(bn), b);
    AssignExtends(st, own, i, SlotFor(bn), b);
    var r := Assign(st, i, SlotFor(bn), b);
    forall k: nat | k < MAXFILE
      ensures BlockOf(r, i, k) == if k == bn then b else BlockOf(st, i, k)
    {
      AssignSlots(st, own, i, SlotFor(bn), b, i, SlotFor(k));
    }
  }

  /** bmap() with an indirect block allocated first. */
  lemma MappedLater(st: State, own: Owners, i: nat, c: nat, bn: nat, st': State, own': Owners, b: nat)
    requires Owned(st, own) && CanAssign(st, i, NDIRECT, c) && NDIRECT <= bn < MAXFILE
    requires Mapped(Assign(st, i, NDIRECT, c), own[c := Slot(i, NDIRECT)], st', own', i, bn, b)
    ensures Mapped(st, own, st', own', i, bn, b)
  {
    AssignKeeps(st, own, i, NDIRECT, c);
    AssignExtends(st, own, i, NDIRECT, c);
    var st1, own1 := Assign(st, i, NDIRECT, c), own[c := Slot(i, NDIRECT)];
    ExtendsTrans(st, own, st1, own1, st', own', i);
    forall k: nat | k < MAXFILE
      ensures BlockOf(st1, i, k) == BlockOf(st, i, k)
    {
      AssignSlots(st, own, i, NDIRECT, c, i, SlotFor(k));
    }
    forall k: nat | k < MAXFILE && k != bn
      ensures BlockOf(st', i, k) == BlockOf(st, i, k)
    {
      assert BlockOf(st', i, k) == BlockOf(st1, i, k);
    }
    assert BlockOf(st, i, bn) == 0;
  }

  lemma MappedBytes(st: State, own: Owners, st': State, own': Owners, i: nat, bn: nat, b: nat, x: nat)
    requires Owned(st, own) && i < |st.inodes| && Mapped(st, own, st', own', i, bn, b)
    requires x < MAXBYTES && BlockOf(st, i, x / BSIZE) != 0
    ensures ByteAt(st', i, x) == ByteAt(st, i, x)
  {}

  /** The chunk of src that starts at tot, laid over block d at offset o. */
  function Overlay(d: Data, o: nat, src: seq<Byte>, tot: nat, m: nat): (r: Data)
    requires tot + m <= |src| && o + m <= BSIZE
  {
    seq(BSIZE, k requires 0 <= k < BSIZE => if o <= k < o + m then src[tot + k - o] else d[k])
  }

  /** memmove() into the buffer of block b and log_write(). */
  function Store(st: State, b: nat, d: Data): (r: State)
    requires b < |st.data|
  {
    st.(data := st.data[b := d])
  }

  /** Storing into a data block moves no block: it is not an indirect block. */
  lemma StoreSlots(st: State, own: Owners, b: nat, d: Data, j: nat, t: nat)
    requires Owned(st, own) && b in own && own[b].index != NDIRECT && IsSlot(st, j, t)
    ensures SlotOf(Store(st, b, d), j, t) == SlotOf(st, j, t)
  {
    if t > NDIRECT && st.inodes[j].addrs[NDIRECT] != 0 {
      IndirectOwned(st, own, j);
    }
  }

  lemma StoreKeeps(st: State, own: Owners, b: nat, d: Data)
    requires Owned(st, own) && b in own && own[b].index != NDIRECT
    ensures Owned(Store(st, b, d), own) && Aside(st, own, Store(st, b, d), own, own[b].inum)
  {
    var r := Store(st, b, d);
    forall j: nat, t: nat | IsSlot(st, j, t)
      ensures SlotOf(r, j, t) == SlotOf(st, j, t)
    {
      StoreSlots(st, own, b, d, j, t);
    }
  }

  lemma StoreBytes(st: State, own: Owners, i: nat, bn: nat, d: Data, x: nat)
    requires Owned(st, own) && i < |st.inodes| && bn < MAXFILE && BlockOf(st, i, bn) != 0
    requires x < MAXBYTES && BlockOf(st, i, x / BSIZE) != 0
    ensures var b := BlockOf(st, i, bn);
            && b in own && own[b] == Slot(i, SlotFor(bn))
            && ByteAt(Store(st, b, d), i, x) == if x / BSIZE == bn then d[x % BSIZE] else ByteAt(st, i, x)
  {
    var b := BlockOf(st, i, bn);
    var k := x / BSIZE;
    assert SlotOf(st, i, SlotFor(bn)) in own && SlotOf(st, i, SlotFor(k)) in own;
    StoreSlots(st, own, b, d, i, SlotFor(k));
  }

  /** The loop of writei() at file offset off: bytes off0 .. off of src are in place. */
  ghost predicate Writing(st0: State, own0: Owners, st: State, own: Owners, i: nat, src: seq<Byte>, off0: nat, off: nat)
  {
    && Owned(st, own) && Aside(st0, own0, st, own, i)
    && off0 <= off <= off0 + |src| <= MAXBYTES && off0 <= st0.inodes[i].size <= MAXBYTES
    && NoHoles(st, i, Max(st0.inodes[i].size, off))
    && BytesAre(st0, st, i, src, off0, off, Max(st0.inodes[i].size, off))
  }

  /** One pass of the loop: m bytes go into the block of off. */
  predicate Chunk(src: seq<Byte>, off0: nat, off: nat, m: nat) {
    0 < m && off0 <= off && off + m <= off0 + |src| <= MAXBYTES && off % BSIZE + m <= BSIZE
  }

  /** The blocks bmap() allocates for block bn. */
  function Needs(st: State, i: nat, bn: nat): (n: nat)
    requires i < |st.inodes|
  {
    if bn >= MAXFILE || BlockOf(st, i, bn) != 0 then 0
    else if bn >= NDIRECT && st.inodes[i].addrs[NDIRECT] == 0 then 2 else 1
  }

  /** The blocks of a file of that many bytes, the indirect block with them. */
  function Need(len: nat): (n: nat) {
    (len + BSIZE - 1) / BSIZE + if NDIRECT * BSIZE < len then 1 else 0
  }

  lemma NeedGrows(a: nat, b: nat)
    requires a <= b
    ensures Need(a) <= Need(b)
  {}

  /** What a pass of the loop of writei() allocates is what the file grows by. */
  lemma NeedStep(st: State, i: nat, size: nat, off: nat, m: nat)
    requires i < |st.inodes| && NoHoles(st, i, Max(size, off)) && off < MAXBYTES && 0 < m && off % BSIZE + m <= BSIZE
    ensures Needs(st, i, off / BSIZE) == Need(Max(size, off + m)) - Need(Max(size, off))
  {
    var bn := off / BSIZE;
    assert BlockOf(st, i, bn) != 0 <==> bn * BSIZE < Max(size, off);
    assert bn * BSIZE <= off < bn * BSIZE + BSIZE && off + m <= bn * BSIZE + BSIZE;
  }

  lemma NoHolesStep(st: State, own: Owners, st': State, own': Owners, i: nat, off: nat, m: nat, len: nat, b: nat)
    requires i < |st.inodes| && NoHoles(st, i, Max(len, off)) && off < MAXBYTES
    requires Mapped(st, own, st', own', i, off / BSIZE, b) && 0 < m && off % BSIZE + m <= BSIZE
    ensures NoHoles(st', i, Max(len, off + m))
  {}

  /** The two steps of a pass, bmap() to st1 and the store, put the next m bytes in place. */
  lemma WriteBytes(st: State, own: Owners, st1: State, own1: Owners, i: nat, src: seq<Byte>, off0: nat, off: nat,
                   m: nat, b: nat, x: nat)
    requires Owned(st, own) && i < |st.inodes| && Chunk(src, off0, off, m) && x < MAXBYTES
    requires Mapped(st, own, st1, own1, i, off / BSIZE, b) && b < |st1.data| && BlockOf(st1, i, x / BSIZE) != 0
    requires off <= x < off + m || BlockOf(st, i, x / BSIZE) != 0
    ensures var r := Store(st1, b, Overlay(st1.data[b], off % BSIZE, src, off - off0, m));
            ByteAt(r, i, x) == if off <= x < off + m then src[x - off0] else ByteAt(st, i, x)
  {
    var bn := off / BSIZE;
    var d := Overlay(st1.data[b], off % BSIZE, src, off - off0, m);
    StoreBytes(st1, own1, i, bn, d, x);
    assert off <= x < off + m ==> x / BSIZE == bn && x % BSIZE == off % BSIZE + (x - off);
    if !(off <= x < off + m) {
      MappedBytes(st, own, st1, own1, i, bn, b, x);
      assert x / BSIZE == bn ==> !(off % BSIZE <= x % BSIZE < off % BSIZE + m);
    }
  }

  lemma StepBytes(st0: State, own0: Owners, st: State, own: Owners, st1: State, own1: Owners, i: nat,
                  src: seq<Byte>, off0: nat, off: nat, m: nat, b: nat)
    requires Writing(st0, own0, st, own, i, src, off0, off) && Chunk(src, off0, off, m)
    requires Mapped(st, own, st1, own1, i, off / BSIZE, b) && b < |st1.data|
    requires NoHoles(st1, i, Max(st0.inodes[i].size, off + m))
    ensures BytesAre(st0, Store(st1, b, Overlay(st1.data[b], off % BSIZE, src, off - off0, m)), i, src, off0, off + m,
                     Max(st0.inodes[i].size, off + m))
  {
    var r := Store(st1, b, Overlay(st1.data[b], off % BSIZE, src, off - off0, m));
    var len := st0.inodes[i].size;
    forall x: nat | x < Max(len, off + m)
      ensures ByteAt(r, i, x) == if off0 <= x < off + m then src[x - off0] else ByteAt(st0, i, x)
    {
      assert BlockOf(st1, i, x / BSIZE) != 0;
      assert x < Max(len, off) ==> BlockOf(st, i, x / BSIZE) != 0;
      WriteBytes(st, own, st1, own1, i, src, off0, off, m, b, x);
      assert x < Max(len, off) ==> ByteAt(st, i, x) == if off0 <= x < off then src[x - off0] else ByteAt(st0, i, x);
    }
  }

  lemma StoreNoHoles(st: State, own: Owners, i: nat, b: nat, d: Data, len: nat)
    requires Owned(st, own) && i < |st.inodes| && b in own && own[b].index != NDIRECT && NoHoles(st, i, len)
    ensures NoHoles(Store(st, b, d), i, len)
  {
    var r := Store(st, b, d);
    forall k: nat | k < MAXFILE
      ensures BlockOf(r, i, k) != 0 <==> k * BSIZE < len
    {
      StoreSlots(st, own, b, d, i, SlotFor(k));
      assert BlockOf(r, i, k) == BlockOf(st, i, k);
    }
  }

  /** A pass of the loop of writei() keeps its invariant. */
  lemma WriteStep(st0: State, own0: Owners, st: State, own: Owners, st1: State, own1: Owners, i: nat,
                  src: seq<Byte>, off0: nat, off: nat, m: nat, b: nat)
    requires Owned(st0, own0) && Writing(st0, own0, st, own, i, src, off0, off) && Chunk(src, off0, off, m)
    requires Mapped(st, own, st1, own1, i, off / BSIZE, b)
    ensures b in own1 && b < |st1.data|
    ensures Writing(st0, own0, Store(st1, b, Overlay(st1.data[b], off % BSIZE, src, off - off0, m)), own1,
                    i, src, off0, off + m)
  {
    assert SlotOf(st1, i, SlotFor(off / BSIZE)) in own1;
    var d := Overlay(st1.data[b], off % BSIZE, src, off - off0, m);
    var r, len := Store(st1, b, d), st0.inodes[i].size;
    NoHolesStep(st, own, st1, own1, i, off, m, len, b);
    StepBytes(st0, own0, st, own, st1, own1, i, src, off0, off, m, b);
    StoreKeeps(st1, own1, b, d);
    StoreNoHoles(st1, own1, i, b, d, Max(len, off + m));
    AsideTrans(st0, own0, st, own, st1, own1, i);
    AsideTrans(st0, own0, st1, own1, r, own1, i);
  }

  /** Between calls: exact ownership, files without holes, and inodes on disk as in memory. */
  ghost predicate Inv(st: State, own: Owners) {
    && Owned(st, own) && st.dinodes == st.inodes
    && (forall i: nat {:trigger st.inodes[i]} :: i < |st.inodes| ==>
         st.inodes[i].size <= MAXBYTES && NoHoles(st, i, st.inodes[i].size))
  }

  /** src written into the byte sequence c at off. */
  function Splice(c: seq<Byte>, off: nat, src: seq<Byte>): (r: seq<Byte>)
    requires off <= |c|
  {
    seq(Max(|c|, off + |src|), x requires 0 <= x < Max(|c|, off + |src|) =>
      if off <= x < off + |src| then src[x - off] else c[x])
  }

  /** The same in terms of pieces: what lies before off, src, and what src does not reach. */
  lemma SpliceIsConcat(c: seq<Byte>, off: nat, src: seq<Byte>)
    requires off <= |c|
    ensures Splice(c, off, src) == c[..off] + src + c[if off + |src| < |c| then off + |src| else |c|..]
    ensures Splice(c, off, src)[off..off + |src|] == src
  {}

  /** iupdate(). */
  function Updated(st: State, i: nat): (r: State)
    requires i < |st.inodes| == |st.dinodes|
  {
    st.(dinodes := st.dinodes[i := st.inodes[i]])
  }

  function Resized(st: State, i: nat, size: nat): (r: State)
    requires i < |st.inodes|
  {
    st.(inodes := st.inodes[i := st.inodes[i].(size := size)])
  }

  /** The last lines of writei(): the inode is written only if the file grew. */
  function WriteDone(st: State, i: nat, off: nat): (r: State)
    requires i < |st.inodes| == |st.dinodes|
  {
    if off > st.inodes[i].size then Updated(Resized(st, i, off), i) else st
  }

  /** A file that did not grow kept its block map, so its inode on disk is still right. */
  lemma SameMap(st: State, own: Owners, st': State, own': Owners, i: nat, len: nat)
    requires Owned(st, own) && Owned(st', own') && Aside(st, own, st', own', i)
    requires NoHoles(st, i, len) && NoHoles(st', i, len)
    ensures st'.inodes[i] == st.inodes[i]
  {
    forall s: nat | s <= NDIRECT
      ensures st'.inodes[i].addrs[s] == st.inodes[i].addrs[s]
    {
      var b := SlotOf(st, i, s);
      if s < NDIRECT {
        assert BlockOf(st, i, s) != 0 <==> BlockOf(st', i, s) != 0;
      }
      assert b != 0 ==> b in own && b in own' && SlotOf(st', i, s) == b;
    }
    assert st'.inodes[i].addrs == st.inodes[i].addrs;
  }

  lemma ResizeKeeps(st: State, own: Owners, i: nat, size: nat)
    requires Owned(st, own) && i < |st.inodes|
    ensures Owned(Updated(Resized(st, i, size), i), own)
  {
    var r := Updated(Resized(st, i, size), i);
    forall j: nat, t: nat | IsSlot(st, j, t)
      ensures SlotOf(r, j, t) == SlotOf(st, j, t)
    {}
  }

  lemma NoHolesSame(st: State, st': State, i: nat, len: nat)
    requires i < |st.inodes| == |st'.inodes| && st'.inodes[i].addrs == st.inodes[i].addrs && st'.data == st.data
    requires NoHoles(st, i, len)
    ensures NoHoles(st', i, len)
  {
    forall k: nat | k < MAXFILE
      ensures BlockOf(st', i, k) != 0 <==> k * BSIZE < len
    {
      assert BlockOf(st', i, k) == BlockOf(st, i, k);
    }
  }

  lemma WriteEnd(st0: State, own0: Owners, st: State, own: Owners, i: nat, src: seq<Byte>, off0: nat)
    requires Inv(st0, own0) && Writing(st0, own0, st, own, i, src, off0, off0 + |src|)
    ensures Inv(WriteDone(st, i, off0 + |src|), own)
  {
    var off := off0 + |src|;
    var len := st0.inodes[i].size;
    var r := WriteDone(st, i, off);
    assert NoHoles(st0, i, len);
    if off > len {
      ResizeKeeps(st, own, i, off);
      NoHolesSame(st, r, i, off);
      assert r.dinodes == r.inodes;
    } else {
      SameMap(st0, own0, st, own, i, len);
      assert r.inodes == st0.inodes;
    }
    forall j: nat | j < |r.inodes|
      ensures r.inodes[j].size <= MAXBYTES && NoHoles(r, j, r.inodes[j].size)
    {
      if j != i {
        assert st0.inodes[j].size <= MAXBYTES;
        OtherFile(st0, own0, st, own, i, j);
        NoHolesSame(st, r, j, r.inodes[j].size);
      }
    }
  }

  /** The inode update at the end moves no byte. */
  lemma DoneBytes(st: State, i: nat, off: nat, j: nat, x: nat)
    requires i < |st.inodes| == |st.dinodes| && j < |st.inodes| && x < MAXBYTES
    ensures ByteAt(WriteDone(st, i, off), j, x) == ByteAt(st, j, x)
  {}

  /** Bytes 0 .. len of file i are those of src from off0 to off, and else those of st0. */
  ghost predicate BytesAre(st0: State, st: State, i: nat, src: seq<Byte>, off0: nat, off: nat, len: nat) {
    && i < |st0.inodes| && i < |st.inodes| && len <= MAXBYTES && off <= off0 + |src|
    && (forall x: nat {:trigger ByteAt(st, i, x)} :: x < len ==>
         ByteAt(st, i, x) == if off0 <= x < off then src[x - off0] else ByteAt(st0, i, x))
  }

  lemma BytesAreSplice(st0: State, st: State, i: nat, src: seq<Byte>, off0: nat, off: nat)
    requires i < |st0.inodes| && off == off0 + |src|
    requires BytesAre(st0, st, i, src, off0, off, Max(st0.inodes[i].size, off))
    requires off0 <= st0.inodes[i].size && st.inodes[i].size == Max(st0.inodes[i].size, off)
    ensures File(st, i) == Splice(File(st0, i), off0, src)
  {}

  /** File j holds the same bytes and its inode is the same. */
  ghost predicate SameFile(st0: State, st: State, j: nat) {
    && j < |st0.inodes| == |st.inodes| && st.inodes[j] == st0.inodes[j] && st.inodes[j].size <= MAXBYTES
    && (forall x: nat {:trigger ByteAt(st, j, x)} :: x < st.inodes[j].size ==> ByteAt(st, j, x) == ByteAt(st0, j, x))
  }

  /** What writei() promises, byte by byte: src is in place from off on, the rest of the file and every
      other file are as before. */
  ghost predicate Wrote(st0: State, st: State, i: nat, src: seq<Byte>, off: nat) {
    && i < |st0.inodes| == |st.inodes| && off <= st0.inodes[i].size
    && st.inodes[i].size == Max(st0.inodes[i].size, off + |src|)
    && BytesAre(st0, st, i, src, off, off + |src|, st.inodes[i].size)
    && (forall j: nat {:trigger st.inodes[j]} :: j < |st.inodes| && j != i ==> SameFile(st0, st, j))
  }

  /** That is a splice of src into the flat file, and no change to any other. */
  lemma WroteIsSplice(st0: State, st: State, i: nat, src: seq<Byte>, off: nat, j: nat)
    requires Wrote(st0, st, i, src, off) && j < |st.inodes|
    ensures st0.inodes[j].size <= MAXBYTES && st.inodes[j].size <= MAXBYTES
    ensures File(st, j) == if j == i then Splice(File(st0, i), off, src) else File(st0, j)
  {
    if j == i {
      BytesAreSplice(st0, st, i, src, off, off + |src|);
    } else {
      SameFileContents(st0, st, j);
    }
  }

  lemma SameFileContents(st0: State, st: State, j: nat)
    requires SameFile(st0, st, j)
    ensures File(st, j) == File(st0, j)
  {}

  /** Every other file is as it was. */
  lemma WriteFrames(st0: State, own0: Owners, st: State, own: Owners, i: nat, off: nat, j: nat)
    requires Inv(st0, own0) && Owned(st, own) && Aside(st0, own0, st, own, i) && j < |st0.inodes| && j != i
    ensures SameFile(st0, WriteDone(st, i, off), j)
  {
    var r := WriteDone(st, i, off);
    assert st0.inodes[j].size <= MAXBYTES && NoHoles(st0, j, st0.inodes[j].size);
    OtherFile(st0, own0, st, own, i, j);
    forall x: nat | x < r.inodes[j].size
      ensures ByteAt(r, j, x) == ByteAt(st0, j, x)
    {
      DoneBytes(st, i, off, j, x);
      assert ByteAt(st, j, x) == ByteAt(st0, j, x);
    }
  }

  lemma WriteAll(st0: State, own0: Owners, st: State, own: Owners, i: nat, src: seq<Byte>, off0: nat)
    requires Inv(st0, own0) && Writing(st0, own0, st, own, i, src, off0, off0 + |src|)
    ensures Wrote(st0, WriteDone(st, i, off0 + |src|), i, src, off0)
  {
    var off := off0 + |src|;
    var r := WriteDone(st, i, off);
    forall x: nat | x < r.inodes[i].size
      ensures ByteAt(r, i, x) == if off0 <= x < off then src[x - off0] else ByteAt(st0, i, x)
    {
      DoneBytes(st, i, off, i, x);
    }
    forall j: nat | j < |r.inodes| && j != i
      ensures SameFile(st0, r, j)
    {
      WriteFrames(st0, own0, st, own, i, off, j);
    }
  }

  // Truncation.

  /** Slot s has been freed when the direct slots below k, then the entries below j are done. */
  predicate Done(s: nat, k: nat, j: nat) {
    s < k || NDIRECT < s < NDIRECT + 1 + j
  }

  /** Exactly the blocks of inode i in slots that are done have become free. */
  ghost predicate FreedSoFar(used0: seq<bool>, used: seq<bool>, own: Owners, i: nat, k: nat, j: nat) {
    && |used| == |used0|
    && forall b: nat {:trigger used[b]} :: b < |used| ==>
         (used[b] <==> used0[b] && !(b in own && own[b].inum == i && Done(own[b].index, k, j)))
  }

  /** bfree() of the block in slot s, the next to be done. */
  lemma FreeOne(st: State, own: Owners, used: seq<bool>, i: nat, s: nat, k: nat, j: nat, k': nat, j': nat)
    requires Owned(st, own) && FreedSoFar(st.used, used, own, i, k, j) && IsSlot(st, i, s)
    requires !Done(s, k, j)
    requires forall t: nat {:trigger Done(t, k', j')} :: t < SLOTS ==> (Done(t, k', j') <==> Done(t, k, j) || t == s)
    ensures var b := SlotOf(st, i, s);
            if b == 0 then FreedSoFar(st.used, used, own, i, k', j')
            else b < |used| && used[b] && FreedSoFar(st.used, used[b := false], own, i, k', j')
  {}

  function NoAddrs(): (a: Addrs) {
    seq(NDIRECT + 1, _ => 0)
  }

  /** The state itrunc() leaves behind. */
  function Truncated(st: State, i: nat, used: seq<bool>): (r: State)
    requires i < |st.inodes| == |st.dinodes|
  {
    var ino := st.inodes[i].(size := 0, addrs := NoAddrs());
    st.(used := used, inodes := st.inodes[i := ino], dinodes := st.dinodes[i := ino])
  }

  function Without(own: Owners, i: nat): (r: Owners) {
    map b | b in own && own[b].inum != i :: own[b]
  }

  lemma TruncSlots(st: State, i: nat, used: seq<bool>, j: nat, s: nat)
    requires i < |st.inodes| == |st.dinodes| && IsSlot(st, j, s)
    ensures SlotOf(Truncated(st, i, used), j, s) == if j == i then 0 else SlotOf(st, j, s)
  {}

  lemma TruncOwned(st: State, own: Owners, i: nat, used: seq<bool>)
    requires Owned(st, own) && i < |st.inodes| && FreedSoFar(st.used, used, own, i, NDIRECT + 1, NINDIRECT)
    ensures Owned(Truncated(st, i, used), Without(own, i))
  {
    var r := Truncated(st, i, used);
    forall j: nat, s: nat | IsSlot(st, j, s)
      ensures SlotOf(r, j, s) == if j == i then 0 else SlotOf(st, j, s)
    {
      TruncSlots(st, i, used, j, s);
    }
  }

  /** itrunc() frees exactly the inode's own blocks and keeps the invariant. */
  lemma TruncKeeps(st: State, own: Owners, i: nat, used: seq<bool>)
    requires Inv(st, own) && i < |st.inodes| && FreedSoFar(st.used, used, own, i, NDIRECT + 1, NINDIRECT)
    ensures Inv(Truncated(st, i, used), Without(own, i))
  {
    TruncOwned(st, own, i, used);
    var r := Truncated(st, i, used);
    forall j: nat | j < |r.inodes|
      ensures r.inodes[j].size <= MAXBYTES && NoHoles(r, j, r.inodes[j].size)
    {
      if j != i {
        assert st.inodes[j].size <= MAXBYTES;
        NoHolesSame(st, r, j, st.inodes[j].size);
      } else {
        TruncEmpty(st, i, used);
      }
    }
  }

  lemma TruncEmpty(st: State, i: nat, used: seq<bool>)
    requires i < |st.inodes| == |st.dinodes|
    ensures NoHoles(Truncated(st, i, used), i, 0)
  {}

  lemma TruncFrames(st: State, i: nat, used: seq<bool>, j: nat)
    requires i < |st.inodes| == |st.dinodes| && j < |st.inodes| && j != i && st.inodes[j].size <= MAXBYTES
    ensures SameFile(st, Truncated(st, i, used), j)
  {}

  function ClearedTo(a: Addrs, k: nat): (r: Addrs) {
    seq(NDIRECT + 1, s requires 0 <= s <= NDIRECT => if s < k then 0 else a[s])
  }

  /** Without an indirect block there is nothing past the direct blocks to free. */
  lemma NoEntries(st: State, own: Owners, used: seq<bool>, i: nat)
    requires Owned(st, own) && i < |st.inodes| && st.inodes[i].addrs[NDIRECT] == 0
    requires FreedSoFar(st.used, used, own, i, NDIRECT, 0)
    ensures FreedSoFar(st.used, used, own, i, NDIRECT + 1, NINDIRECT)
  {}

  /** One pass of readi(): the bytes of the block are those of the file. */
  lemma ReadChunk(st: State, own: Owners, i: nat, off: nat, m: nat)
    requires Inv(st, own) && i < |st.inodes| && 0 < m && off % BSIZE + m <= BSIZE
    requires off + m <= st.inodes[i].size <= MAXBYTES
    ensures 0 < BlockOf(st, i, off / BSIZE) < |st.data|
    ensures st.data[BlockOf(st, i, off / BSIZE)][off % BSIZE..off % BSIZE + m] == File(st, i)[off..off + m]
  {
    var bn, o := off / BSIZE, off % BSIZE;
    assert NoHoles(st, i, st.inodes[i].size);
    var b := BlockOf(st, i, bn);
    assert b != 0;
    assert SlotOf(st, i, SlotFor(bn)) in own;
    BlockIsSlice(st, i, off, m);
  }

  lemma BlockIsSlice(st: State, i: nat, off: nat, m: nat)
    requires i < |st.inodes| && off % BSIZE + m <= BSIZE && off + m <= st.inodes[i].size <= MAXBYTES
    requires off < MAXBYTES && BlockOf(st, i, off / BSIZE) < |st.data|
    ensures st.data[BlockOf(st, i, off / BSIZE)][off % BSIZE..off % BSIZE + m] == File(st, i)[off..off + m]
  {
    var d := st.data[BlockOf(st, i, off / BSIZE)][off % BSIZE..off % BSIZE + m];
    var f := File(st, i)[off..off + m];
    forall k: nat | k < m ensures d[k] == f[k] {
      SameBlock(off, k);
      assert f[k] == File(st, i)[off + k] == ByteAt(st, i, off + k);
    }
  }

  lemma SameBlock(off: nat, k: nat)
    requires off % BSIZE + k < BSIZE
    ensures (off + k) / BSIZE == off / BSIZE && (off + k) % BSIZE == off % BSIZE + k
  {}
}
