/** The block allocator and the inode contents of fs.c: balloc(), bfree(), bmap(), itrunc(), readi() and
    writei(), storing in place, proved against the flat files of module FileContents. */
module FileSystem {
  import opened Blocks
  import opened FsState
  import opened FileContents
  import opened FsDisk
  import opened FsCount
  import Disk

  /** None is a panic. */
  datatype Option<T> = None | Some(value: T)

  datatype Io = Panic | Error | ToDriver | Count(n: nat)

  predicate AllUsed(used: seq<bool>) {
    forall b: nat :: b < |used| ==> used[b]
  }

  function FreeBlocks(used: seq<bool>): (free: set<nat>) {
    set b: nat | b < |used| && !used[b]
  }

  /** How many blocks are free. */
  function FreeCount(used: seq<bool>): (n: nat) {
    |FreeBlocks(used)|
  }

  /** The free blocks suffice for a file of that size to take n bytes at off. */
  predicate HasRoom(used: seq<bool>, size: nat, off: nat, n: nat) {
    FreeCount(used) >= Need(Max(size, off + n)) - Need(size)
  }

  /** Of free blocks, left are left when a file of that size has been written to up to off. */
  predicate Afford(free: nat, size: nat, off: nat, left: nat) {
    left + Need(Max(size, off)) == free + Need(size)
  }

  /** Writing from off to next succeeds exactly if the blocks before suffice, and then leaves after. */
  predicate Costs(size: nat, off: nat, next: nat, before: nat, after: nat, ok: bool) {
    var step := Need(Max(size, next)) - Need(Max(size, off));
    (ok <==> before >= step) && (ok ==> after == before - step)
  }

  lemma Affords(free: nat, size: nat, off: nat, next: nat, end: nat, before: nat, after: nat, ok: bool)
    requires Afford(free, size, off, before) && Costs(size, off, next, before, after, ok) && off <= next <= end
    ensures ok ==> Afford(free, size, next, after)
    ensures !ok ==> free < Need(Max(size, end)) - Need(size)
  {
    NeedGrows(Max(size, next), Max(size, end));
  }

  /** What is left, or up to the end of the block. */
  method NextChunk(src: seq<Byte>, ghost off0: nat, off: nat, left: nat) returns (m: nat)
    requires off0 <= off && off + left == off0 + |src| <= MAXBYTES && left > 0
    ensures Chunk(src, off0, off, m) && 0 < m <= left && (m == left || (off + m) % BSIZE == 0)
  {
    m := if left < BSIZE - off % BSIZE then left else BSIZE - off % BSIZE;
  }

  lemma NoneFree(used: seq<bool>)
    ensures AllUsed(used) <==> FreeCount(used) == 0
  {
    assert AllUsed(used) ==> FreeBlocks(used) == {};
    assert forall b: nat :: b < |used| && !used[b] ==> b in FreeBlocks(used);
  }

  lemma OneLess(used: seq<bool>, b: nat)
    requires b < |used| && !used[b]
    ensures FreeCount(used[b := true]) == FreeCount(used) - 1
  {
    assert FreeBlocks(used[b := true]) == FreeBlocks(used) - {b};
  }

  lemma CanBeAssigned(st: State, own: Owners, i: nat, s: nat, b: nat)
    requires Owned(st, own) && IsSlot(st, i, s) && SlotOf(st, i, s) == 0 && b < |st.used| && !st.used[b]
    requires s > NDIRECT ==> 0 < st.inodes[i].addrs[NDIRECT] < |st.data|
    ensures CanAssign(st, i, s, b)
  {}

  lemma Assigned(sb: Super, st: State, own: Owners, i: nat, s: nat, b: nat, bn: nat, t0: set<nat>, t: set<nat>)
    requires Owned(st, own) && CanAssign(st, i, s, b) && (s == NDIRECT || InSpan(s, bn, bn + 1))
    requires t == t0 + {b, Bblock(sb, b)} + If(s > NDIRECT, st.inodes[i].addrs[NDIRECT])
    ensures Owned(Assign(st, i, s, b), own[b := Slot(i, s)])
    ensures Allocated(sb, t0, t, own, own[b := Slot(i, s)], i, bn)
    ensures FreeCount(st.used[b := true]) == FreeCount(st.used) - 1
  {
    AssignKeeps(st, own, i, s, b);
    assert SlotOf(st, i, NDIRECT) == st.inodes[i].addrs[NDIRECT];
    FreshLogged(sb, t0, t, own, i, s, b, st.inodes[i].addrs[NDIRECT], bn);
    OneLess(st.used, b);
  }

  /** A fresh indirect block has no entries. */
  lemma NoEntryYet(st: State, own: Owners, i: nat, c: nat, bn: nat)
    requires Owned(st, own) && CanAssign(st, i, NDIRECT, c) && NDIRECT <= bn < MAXFILE
    ensures var r := Assign(st, i, NDIRECT, c); BlockOf(r, i, bn) == 0 && r.inodes[i].addrs[NDIRECT] == c > 0
  {
    AssignSlots(st, own, i, NDIRECT, c, i, SlotFor(bn));
  }

  lemma PassDone(sb: Super, was: State, own0: Owners, st: State, own: Owners, st1: State, own1: Owners,
                 i: nat, src: seq<Byte>, off0: nat, off: nat, m: nat, b: nat, t0: set<nat>, t: set<nat>)
    requires Owned(was, own0) && Writing(was, own0, st, own, i, src, off0, off) && Chunk(src, off0, off, m)
    requires Mapped(st, own, st1, own1, i, off / BSIZE, b) && Allocated(sb, t0, t, own, own1, i, off / BSIZE)
    ensures st1.start <= b < |st1.data|
    ensures Logging(sb, t0, t + {b}, own, own1, i, off / BSIZE, off / BSIZE + 1)
    ensures Writing(was, own0, Store(st1, b, Overlay(st1.data[b], off % BSIZE, src, off - off0, m)), own1,
                    i, src, off0, off + m)
  {
    WriteStep(was, own0, st, own, st1, own1, i, src, off0, off, m, b);
    ChunkLogged(sb, t0, t, own, own1, st1, i, off / BSIZE, b);
  }

  lemma Written(was: State, own0: Owners, st: State, own: Owners, i: nat, src: seq<Byte>, off0: nat)
    requires Inv(was, own0) && Writing(was, own0, st, own, i, src, off0, off0 + |src|)
    ensures var r := WriteDone(st, i, off0 + |src|); Inv(r, own) && Wrote(was, r, i, src, off0)
  {
    WriteEnd(was, own0, st, own, i, src, off0);
    WriteAll(was, own0, st, own, i, src, off0);
  }

  predicate Opened(off: nat) {
    true
  }

  predicate HasHandler(ino: Inode, handlers: seq<bool>) {
    0 <= ino.major < |handlers| && handlers[ino.major]
  }

  method Appended(ghost f: seq<Byte>, dst: seq<Byte>, chunk: seq<Byte>, ghost a: nat, ghost off: nat, ghost m: nat)
    returns (r: seq<Byte>)
    requires a <= off && off + m <= |f| && dst == f[a..off] && chunk == f[off..off + m]
    ensures r == f[a..off + m]
  {
    r := dst + chunk;
  }

  class Fs {
    const start: nat
    const size: nat
    const ninodes: nat
    const inodestart: nat
    const bmapstart: nat
    /** devsw[d] has a handler. */
    const handlers: seq<bool>
    var bitmap: seq<bv8>
    var data: seq<Data>
    var inodes: seq<Inode>
    var dinodes: seq<Inode>
    ghost var used: seq<bool>
    ghost var own: Owners
    /** The disk that the log has been told of: what it was at first, and the log_write()s since. */
    ghost var image: Disk.Image
    ghost var first: Disk.Image
    ghost var writes: seq<Disk.Write>

    ghost function St(): (st: State)
      reads this
    {
      State(start, used, data, inodes, dinodes)
    }

    ghost function Sb(): (sb: Super) {
      Super(size, ninodes, inodestart, bmapstart, start)
    }

    /** The blocks logged so far. */
    ghost function Seen(): (t: set<nat>)
      reads this
    {
      Blocknos(writes)
    }

    ghost predicate BitsMatch()
      reads this
    {
      |used| == size && BitsAre(bitmap, used)
    }

    /** Every change has been logged. */
    ghost predicate Synced()
      reads this
    {
      Encodes(Sb(), image, bitmap, data, dinodes) && Logged(Sb(), first, writes, image)
    }

    ghost predicate OnDisk()
      reads this
    {
      BitsMatch() && Synced()
    }

    ghost predicate Ok()
      reads this
    {
      OnDisk() && Owned(St(), own)
    }

    /** A file system as mkfs leaves it: metadata blocks in use and, here, no file with blocks. */
    constructor (sb: Super, bitmap: seq<bv8>, data: seq<Data>, kinds: seq<Inode>, handlers: seq<bool>,
                 ghost image: Disk.Image)
      requires 0 < sb.start <= sb.size < UINT && sb.size <= 8 * |bitmap| && Encodes(sb, image, bitmap, data, kinds)
      requires forall b: nat :: b < sb.size ==> (Bit(bitmap, b) <==> b < sb.start)
      requires forall i: nat :: i < |kinds| ==> kinds[i].size == 0 && kinds[i].addrs == NoAddrs()
      ensures Ok() && Inv(St(), own) && own == map[] && inodes == kinds
    {
      start, size, ninodes := sb.start, sb.size, sb.ninodes;
      inodestart, bmapstart, this.handlers := sb.inodestart, sb.bmapstart, handlers;
      this.bitmap, this.data, this.inodes, this.dinodes := bitmap, data, kinds, kinds;
      used := seq(sb.size, b => b < sb.start);
      own := map[];
      this.image, first, writes := image, image, [];
    }

    /** Between calls, what the log has been told of is a consistent file system. */
    lemma IsConsistent()
      requires Ok() && Inv(St(), own)
      ensures Holds(Sb(), image, bitmap, St(), own) && Consistent(Sb(), Disk.ApplyAll(first, writes))
    {
      assert Holds(Sb(), Disk.ApplyAll(first, writes), bitmap, St(), own);
    }

    /** A call begins. */
    ghost method Enter()
      requires Ok()
      modifies this`first, this`writes
      ensures Ok() && first == image && writes == []
    {
      first, writes := image, [];
    }

    /** log_write() of block b. */
    ghost method LogWrite(b: nat)
      requires EncodesBut(Sb(), image, bitmap, data, dinodes, b) && IsFsBlock(Sb(), b)
      requires Logged(Sb(), first, writes, image)
      modifies this`image, this`writes
      ensures Synced() && Seen() == old(Seen()) + {b}
    {
      var w := Disk.Write(b, BlockAt(Sb(), bitmap, data, dinodes, b));
      LoggedBlock(Sb(), image, bitmap, data, dinodes, b);
      LoggedOne(Sb(), first, writes, image, w);
      OneMoreBlock(writes, w);
      image, writes := image[b := w.data], writes + [w];
    }

    /** A data block changes and is logged. */
    method Store(b: nat, d: Data)
      requires OnDisk() && start <= b < size
      modifies this`image, this`writes, this`data
      ensures OnDisk() && data == old(data)[b := d] && Seen() == old(Seen()) + {b}
    {
      DataChange(Sb(), image, bitmap, data, dinodes, b, d);
      data := data[b := d];
      LogWrite(b);
    }

    /** balloc(): the first free block, zeroed; a panic exactly if none is free. */
    method Balloc() returns (r: Option<nat>)
      requires OnDisk() && Shaped(St()) && forall b: nat :: b < start ==> used[b]
      modifies this`image, this`writes, this`bitmap, this`used, this`data
      ensures OnDisk()
      ensures r.None? <==> AllUsed(old(used))
      ensures r.None? ==> used == old(used) && data == old(data) && Seen() == old(Seen())
      ensures r.Some? ==> r.value < size && !old(used)[r.value] && forall b: nat :: b < r.value ==> old(used)[b]
      ensures r.Some? ==> used == old(used)[r.value := true] && data == old(data)[r.value := Zeroes()]
      ensures r.Some? ==> Seen() == old(Seen()) + {r.value, Bblock(Sb(), r.value)}
    {
      var b := 0;
      while b < size
        invariant 0 <= b && forall c: nat :: c < b && c < size ==> used[c]
        invariant OnDisk() && used == old(used) && data == old(data) && Seen() == old(Seen())
      {
        var bi := 0;
        while bi < BPB && b + bi < size
          invariant 0 <= bi <= BPB && forall c: nat :: c < b + bi && c < size ==> used[c]
          invariant OnDisk() && used == old(used) && data == old(data) && Seen() == old(Seen())
        {
          if !Bit(bitmap, b + bi) {
            MarkUsed(b + bi);
            Store(b + bi, Zeroes());
            return Some(b + bi);
          }
          bi := bi + 1;
        }
        b := b + BPB;
      }
      r := None;
    }

    method MarkUsed(b: nat)
      requires OnDisk() && b < size
      modifies this`image, this`writes, this`bitmap, this`used
      ensures OnDisk() && used == old(used)[b := true] && Seen() == old(Seen()) + {Bblock(Sb(), b)}
    {
      forall c: nat | c < size ensures Bit(SetBit(bitmap, b), c) <==> c == b || Bit(bitmap, c) {
        OneBitSet(bitmap, b, c);
      }
      BitmapChange(Sb(), image, bitmap, SetBit(bitmap, b), data, dinodes, b);
      bitmap := SetBit(bitmap, b);
      LogWrite(Bblock(Sb(), b));
      used := used[b := true];
    }

    /** bfree(): a panic exactly if the block is free already. */
    method Bfree(b: nat) returns (r: Option<()>)
      requires OnDisk() && b < size
      modifies this`image, this`writes, this`bitmap, this`used
      ensures OnDisk()
      ensures r.None? <==> !old(used)[b]
      ensures used == old(used)[b := false] && OnlyBitmap(Sb(), old(Seen()), Seen())
    {
      if !Bit(bitmap, b) {
        assert used[b := false] == used;
        return None;
      }
      forall c: nat | c < size ensures Bit(ClearBit(bitmap, b), c) <==> c != b && Bit(bitmap, c) {
        OneBitCleared(bitmap, b, c);
      }
      BitmapChange(Sb(), image, bitmap, ClearBit(bitmap, b), data, dinodes, b);
      bitmap := ClearBit(bitmap, b);
      LogWrite(Bblock(Sb(), b));
      used := used[b := false];
      r := Some(());
    }

    /** balloc() and the store of its result into slot s: of the inode, or of its indirect block. */
    method AllocSlot(i: nat, s: nat, ghost bn: nat) returns (r: Option<nat>)
      requires Ok() && IsSlot(St(), i, s) && SlotOf(St(), i, s) == 0 && (s == NDIRECT || InSpan(s, bn, bn + 1))
      requires s > NDIRECT ==> 0 < inodes[i].addrs[NDIRECT] < size
      modifies this`image, this`writes, this`bitmap, this`used, this`data, this`inodes, this`own
      ensures Ok() && (r.None? <==> FreeCount(old(used)) == 0)
      ensures r.None? ==> FreeCount(used) == 0
      ensures r.Some? ==> FreeCount(used) == FreeCount(old(used)) - 1
      ensures r.Some? ==> CanAssign(old(St()), i, s, r.value) && St() == Assign(old(St()), i, s, r.value)
      ensures r.Some? ==> own == old(own)[r.value := Slot(i, s)]
      ensures r.Some? ==> Allocated(Sb(), old(Seen()), Seen(), old(own), own, i, bn)
    {
      ghost var was, own0, seen := St(), own, Seen();
      NoneFree(used);
      r := Balloc();
      if r.Some? {
        CanBeAssigned(was, own0, i, s, r.value);
        StoreSlot(was, i, s, r.value);
        Assigned(Sb(), was, own0, i, s, r.value, bn, seen, Seen());
      }
    }

    /** The store of a fresh block's number. */
    method StoreSlot(ghost was: State, i: nat, s: nat, b: nat)
      requires Owned(was, own) && CanAssign(was, i, s, b) && OnDisk() && was.start == start && was.inodes == inodes
      requires St() == was.(used := was.used[b := true], data := was.data[b := Zeroes()])
      modifies this`image, this`writes, this`data, this`inodes, this`own
      ensures OnDisk() && St() == Assign(was, i, s, b) && own == old(own)[b := Slot(i, s)]
      ensures Seen() == old(Seen()) + If(s > NDIRECT, was.inodes[i].addrs[NDIRECT])
    {
      if s <= NDIRECT {
        inodes := inodes[i := inodes[i].(addrs := inodes[i].addrs[s := b])];
      } else {
        var c := inodes[i].addrs[NDIRECT];
        IndirectOwned(was, own, i);
        Store(c, PutWord(data[c], s - NDIRECT - 1, b));
      }
      own := own[b := Slot(i, s)];
    }

    /** bmap(): the block of file i with index bn, allocated if it was missing. */
    method Bmap(i: nat, bn: nat) returns (r: Option<nat>)
      requires Ok() && i < |inodes|
      modifies this`image, this`writes, this`bitmap, this`used, this`data, this`inodes, this`own
      ensures Ok()
      ensures r.None? <==> bn >= MAXFILE || FreeCount(old(used)) < Needs(old(St()), i, bn)
      ensures r.Some? ==> FreeCount(used) == FreeCount(old(used)) - Needs(old(St()), i, bn)
      ensures r.Some? ==> bn < MAXFILE && Mapped(old(St()), old(own), St(), own, i, bn, r.value)
      ensures r.Some? ==> Allocated(Sb(), old(Seen()), Seen(), old(own), own, i, bn)
    {
      if bn < NDIRECT {
        r := MapSlot(i, bn);
        return;
      }
      if bn - NDIRECT < NINDIRECT {
        r := MapIndirect(i, bn);
        return;
      }
      r := None;
    }

    /** The indirect case, which allocates the indirect block first if need be. */
    method MapIndirect(i: nat, bn: nat) returns (r: Option<nat>)
      requires Ok() && i < |inodes| && NDIRECT <= bn < MAXFILE
      modifies this`image, this`writes, this`bitmap, this`used, this`data, this`inodes, this`own
      ensures Ok()
      ensures r.None? <==> FreeCount(old(used)) < Needs(old(St()), i, bn)
      ensures r.Some? ==> FreeCount(used) == FreeCount(old(used)) - Needs(old(St()), i, bn)
      ensures r.Some? ==> Mapped(old(St()), old(own), St(), own, i, bn, r.value)
      ensures r.Some? ==> Allocated(Sb(), old(Seen()), Seen(), old(own), own, i, bn)
    {
      if inodes[i].addrs[NDIRECT] == 0 {
        r := MapFirst(i, bn);
      } else {
        IndirectOwned(St(), own, i);
        r := MapSlot(i, bn);
      }
    }

    /** The first block of a file that needs the indirect block. */
    method MapFirst(i: nat, bn: nat) returns (r: Option<nat>)
      requires Ok() && i < |inodes| && NDIRECT <= bn < MAXFILE && inodes[i].addrs[NDIRECT] == 0
      modifies this`image, this`writes, this`bitmap, this`used, this`data, this`inodes, this`own
      ensures Ok()
      ensures r.None? <==> FreeCount(old(used)) < 2
      ensures r.Some? ==> FreeCount(used) == FreeCount(old(used)) - 2
      ensures r.Some? ==> Mapped(old(St()), old(own), St(), own, i, bn, r.value)
      ensures r.Some? ==> Allocated(Sb(), old(Seen()), Seen(), old(own), own, i, bn)
    {
      ghost var was, own0, seen := St(), own, Seen();
      var c := AllocSlot(i, NDIRECT, bn);
      if c.None? {
        return None;
      }
      ghost var own1, seen1 := own, Seen();
      NoEntryYet(was, own0, i, c.value, bn);
      r := MapSlot(i, bn);
      if r.Some? {
        MappedLater(was, own0, i, c.value, bn, St(), own, r.value);
        AllocatedTrans(Sb(), seen, seen1, Seen(), own0, own1, own, i, bn);
      }
    }

    /** The slot of block bn, filled if it is empty. */
    method MapSlot(i: nat, bn: nat) returns (r: Option<nat>)
      requires Ok() && i < |inodes| && bn < MAXFILE
      requires bn >= NDIRECT ==> 0 < inodes[i].addrs[NDIRECT] < size
      modifies this`image, this`writes, this`bitmap, this`used, this`data, this`inodes, this`own
      ensures Ok()
      ensures r.None? <==> BlockOf(old(St()), i, bn) == 0 && FreeCount(old(used)) == 0
      ensures r.Some? ==> FreeCount(used) == FreeCount(old(used)) - if BlockOf(old(St()), i, bn) == 0 then 1 else 0
      ensures r.Some? ==> Mapped(old(St()), old(own), St(), own, i, bn, r.value)
      ensures r.Some? ==> Allocated(Sb(), old(Seen()), Seen(), old(own), own, i, bn)
    {
      var addr := if bn < NDIRECT then inodes[i].addrs[bn]
                  else Word(data[inodes[i].addrs[NDIRECT]], bn - NDIRECT);
      assert addr == BlockOf(St(), i, bn);
      if addr != 0 {
        MappedAlready(St(), own, i, bn);
        NothingLogged(Sb(), Seen(), own, i, bn);
        return Some(addr);
      }
      ghost var was, own0 := St(), own;
      r := AllocSlot(i, SlotFor(bn), bn);
      if r.Some? {
        MappedOnce(was, own0, i, bn, r.value);
      }
    }

    /** itrunc(): never frees a free block; frees exactly the blocks of inode i. */
    method Itrunc(i: nat) returns (r: Option<()>)
      requires Ok() && Inv(St(), own) && i < |inodes|
      modifies this`image, this`writes, this`bitmap, this`used, this`data, this`inodes, this`dinodes, this`own
      ensures r.Some? && Ok() && Inv(St(), own)
      ensures own == Without(old(own), i) && St() == Truncated(old(St()), i, used)
      ensures OnlyBitmap(Sb(), old(Seen()) + {Iblock(Sb(), i)}, Seen())
      ensures forall b: nat :: b < size ==> (used[b] <==> old(used)[b] && !(b in old(own) && old(own)[b].inum == i))
    {
      ghost var was := St();
      r := FreeDirects(i, was);
      FreeIndirect(i, was);
      inodes := inodes[i := inodes[i].(size := 0)];
      Iupdate(i);
      TruncKeeps(was, own, i, used);
      assert inodes[i].addrs == NoAddrs();
      own := Without(own, i);
      assert St() == Truncated(was, i, used);
    }

    /** The direct half of itrunc(). */
    method FreeDirects(i: nat, ghost was: State) returns (r: Option<()>)
      requires OnDisk() && Owned(was, own) && was == St() && i < |inodes|
      modifies this`image, this`writes, this`bitmap, this`used, this`inodes
      ensures r.Some? && OnDisk() && FreedSoFar(was.used, used, own, i, NDIRECT, 0)
      ensures inodes == was.inodes[i := was.inodes[i].(addrs := ClearedTo(was.inodes[i].addrs, NDIRECT))]
      ensures OnlyBitmap(Sb(), old(Seen()), Seen())
    {
      r := Some(());
      var k := 0;
      assert ClearedTo(was.inodes[i].addrs, 0) == was.inodes[i].addrs;
      while k < NDIRECT
        invariant 0 <= k <= NDIRECT && r.Some? && OnDisk() && |inodes| == |was.inodes|
        invariant FreedSoFar(was.used, used, own, i, k, 0) && OnlyBitmap(Sb(), old(Seen()), Seen())
        invariant inodes == was.inodes[i := was.inodes[i].(addrs := ClearedTo(was.inodes[i].addrs, k))]
      {
        r := FreeDirect(i, k, was);
        k := k + 1;
      }
    }

    /** The indirect half of itrunc(): the entries, then the indirect block. */
    method FreeIndirect(i: nat, ghost was: State)
      requires OnDisk() && Owned(was, own) && FreedSoFar(was.used, used, own, i, NDIRECT, 0)
      requires i < |inodes| == |was.inodes| && data == was.data
      requires inodes == was.inodes[i := was.inodes[i].(addrs := ClearedTo(was.inodes[i].addrs, NDIRECT))]
      modifies this`image, this`writes, this`bitmap, this`used, this`inodes
      ensures OnDisk() && FreedSoFar(was.used, used, own, i, NDIRECT + 1, NINDIRECT)
      ensures OnlyBitmap(Sb(), old(Seen()), Seen())
      ensures inodes == was.inodes[i := was.inodes[i].(addrs := ClearedTo(was.inodes[i].addrs, NDIRECT + 1))]
    {
      ghost var addrs := was.inodes[i].addrs;
      var c := inodes[i].addrs[NDIRECT];
      if c != 0 {
        IndirectOwned(was, own, i);
        var r;
        var j := 0;
        while j < NINDIRECT
          invariant 0 <= j <= NINDIRECT && OnDisk() && inodes == old(inodes)
          invariant FreedSoFar(was.used, used, own, i, NDIRECT, j) && OnlyBitmap(Sb(), old(Seen()), Seen())
        {
          r := FreeEntry(i, c, j, was);
          j := j + 1;
        }
        FreeOne(was, own, used, i, NDIRECT, NDIRECT, NINDIRECT, NDIRECT + 1, NINDIRECT);
        r := Bfree(c);
        assert r.Some?;
        inodes := inodes[i := inodes[i].(addrs := inodes[i].addrs[NDIRECT := 0])];
      } else {
        NoEntries(was, own, used, i);
      }
      assert inodes[i].addrs == ClearedTo(addrs, NDIRECT + 1);
    }

    method FreeDirect(i: nat, k: nat, ghost was: State) returns (r: Option<()>)
      requires OnDisk() && Owned(was, own) && FreedSoFar(was.used, used, own, i, k, 0) && k < NDIRECT
      requires i < |inodes| == |was.inodes|
      requires inodes == was.inodes[i := was.inodes[i].(addrs := ClearedTo(was.inodes[i].addrs, k))]
      modifies this`image, this`writes, this`bitmap, this`used, this`inodes
      ensures r.Some? && OnDisk() && FreedSoFar(was.used, used, own, i, k + 1, 0)
      ensures OnlyBitmap(Sb(), old(Seen()), Seen())
      ensures inodes == was.inodes[i := was.inodes[i].(addrs := ClearedTo(was.inodes[i].addrs, k + 1))]
    {
      FreeOne(was, own, used, i, k, k, 0, k + 1, 0);
      r := Some(());
      ghost var addrs := was.inodes[i].addrs;
      if inodes[i].addrs[k] != 0 {
        r := Bfree(inodes[i].addrs[k]);
        inodes := inodes[i := inodes[i].(addrs := inodes[i].addrs[k := 0])];
      }
      assert inodes[i].addrs == ClearedTo(addrs, k + 1);
    }

    method FreeEntry(i: nat, c: nat, j: nat, ghost was: State) returns (r: Option<()>)
      requires OnDisk() && Owned(was, own) && FreedSoFar(was.used, used, own, i, NDIRECT, j) && j < NINDIRECT
      requires i < |was.inodes| && 0 < c < |data| && c == was.inodes[i].addrs[NDIRECT] && data == was.data
      modifies this`image, this`writes, this`bitmap, this`used
      ensures r.Some? && OnDisk() && FreedSoFar(was.used, used, own, i, NDIRECT, j + 1)
      ensures OnlyBitmap(Sb(), old(Seen()), Seen())
    {
      FreeOne(was, own, used, i, NDIRECT + 1 + j, NDIRECT, j, NDIRECT, j + 1);
      r := Some(());
      var a := Word(data[c], j);
      if a != 0 {
        r := Bfree(a);
      }
    }

    /** One pass of the loop of readi(): bmap() finds the block mapped. */
    method ReadPass(i: nat, off: nat, m: nat) returns (chunk: seq<Byte>)
      requires Ok() && Inv(St(), own) && i < |inodes| && 0 < m && off % BSIZE + m <= BSIZE
      requires off + m <= inodes[i].size <= MAXBYTES
      modifies this`image, this`writes, this`bitmap, this`used, this`data, this`inodes, this`own
      ensures Ok() && St() == old(St()) && own == old(own)
      ensures chunk == File(St(), i)[off..off + m]
    {
      ReadChunk(St(), own, i, off, m);
      var b := Bmap(i, off / BSIZE);
      assert b.Some?;
      chunk := data[b.value][off % BSIZE..off % BSIZE + m];
    }

    /** readi(): the bytes of the file from off, at most n of them; bmap() never allocates for it. */
    method Readi(i: nat, off0: nat, n0: nat) returns (r: Io, dst: seq<Byte>)
      requires Ok() && Inv(St(), own) && i < |inodes| && off0 < UINT && n0 < UINT
      modifies this`image, this`writes, this`bitmap, this`used, this`data, this`inodes, this`dinodes, this`own
      ensures Ok() && St() == old(St()) && own == old(own)
      ensures var ino := inodes[i];
              if ino.kind == T_DEV then
                && (r == ToDriver <==> 0 <= ino.major < |handlers| && handlers[ino.major])
                && (r != ToDriver ==> r == Error)
              else if off0 <= ino.size && off0 + n0 < 0x1_0000_0000 then
                r.Count? && r.n <= n0 && (r.n == n0 || off0 + r.n == ino.size)
              else r == Error
      ensures r.Count? ==> off0 + r.n <= inodes[i].size <= MAXBYTES && dst == File(St(), i)[off0..off0 + r.n]
      ensures !r.Count? ==> dst == []
    {
      dst := [];
      var ino := inodes[i];
      if ino.kind == T_DEV {
        r := if !HasHandler(ino, handlers) then Error else ToDriver;
        return;
      }
      if off0 > ino.size || (off0 + n0) % UINT < off0 {
        return Error, [];
      }
      var n := n0;
      if (off0 + n) % UINT > ino.size {
        n := ino.size - off0;
      }
      dst := ReadLoop(i, off0, n);
      r := Count(n);
    }

    method ReadLoop(i: nat, off0: nat, n: nat) returns (dst: seq<Byte>)
      requires Ok() && Inv(St(), own) && i < |inodes| && off0 + n <= inodes[i].size <= MAXBYTES
      modifies this`image, this`writes, this`bitmap, this`used, this`data, this`inodes, this`dinodes, this`own
      ensures Ok() && St() == old(St()) && own == old(own)
      ensures dst == File(St(), i)[off0..off0 + n]
    {
      dst := [];
      ghost var f := File(St(), i);
      var off, tot := off0, 0;
      while tot < n
        invariant 0 <= tot <= n && off == off0 + tot
        invariant Ok() && St() == old(St()) && own == old(own)
        invariant dst == f[off0..off]
        decreases n - tot
      {
        var m := if n - tot < BSIZE - off % BSIZE then n - tot else BSIZE - off % BSIZE;
        var chunk := ReadPass(i, off, m);
        dst := Appended(f, dst, chunk, off0, off, m);
        tot, off := tot + m, off + m;
      }
    }

    /** The write of src to file i, from was on, has come to off.  A proof looks inside by mentioning Opened(off). */
    ghost predicate Halfway(was: State, own0: Owners, i: nat, src: seq<Byte>, off0: nat, off: nat)
      reads this
    {
      forall o: nat {:trigger Opened(o)} :: o == off ==>
        Ok() && Owned(was, own0) && Writing(was, own0, St(), own, i, src, off0, o)
    }

    lemma ComeTo(was: State, own0: Owners, i: nat, src: seq<Byte>, off0: nat, off: nat)
      requires Ok() && Owned(was, own0) && Writing(was, own0, St(), own, i, src, off0, off)
      ensures Halfway(was, own0, i, src, off0, off)
    {}

    /** One pass of the loop of writei(). */
    method WriteBlock(i: nat, src: seq<Byte>, off0: nat, off: nat, m: nat, ghost was: State, ghost own0: Owners)
      returns (ok: bool)
      requires Ok() && Owned(was, own0) && Writing(was, own0, St(), own, i, src, off0, off) && Chunk(src, off0, off, m)
      modifies this`image, this`writes, this`bitmap, this`used, this`data, this`inodes, this`own
      ensures Ok() && (ok ==> Writing(was, own0, St(), own, i, src, off0, off + m))
      ensures Costs(was.inodes[i].size, off, off + m, FreeCount(old(used)), FreeCount(used), ok)
      ensures ok ==> Logging(Sb(), old(Seen()), Seen(), old(own), own, i, off / BSIZE, off / BSIZE + 1)
    {
      ghost var st, own1, seen := St(), own, Seen();
      NeedStep(st, i, was.inodes[i].size, off, m);
      var b := Bmap(i, off / BSIZE);
      if b.None? {
        return false;
      }
      PassDone(Sb(), was, own0, st, own1, St(), own, i, src, off0, off, m, b.value, seen, Seen());
      Store(b.value, Overlay(data[b.value], off % BSIZE, src, off - off0, m));
      ok := true;
    }

    /** The same, with its frame closed. */
    method WritePass(i: nat, src: seq<Byte>, off0: nat, off: nat, m: nat, ghost was: State, ghost own0: Owners)
      returns (ok: bool)
      requires i < |was.inodes| && Halfway(was, own0, i, src, off0, off) && Chunk(src, off0, off, m)
      modifies this`image, this`writes, this`bitmap, this`used, this`data, this`inodes, this`own
      ensures if ok then Halfway(was, own0, i, src, off0, off + m) else Ok()
      ensures Costs(was.inodes[i].size, off, off + m, FreeCount(old(used)), FreeCount(used), ok)
      ensures ok ==> Logging(Sb(), old(Seen()), Seen(), old(own), own, i, off / BSIZE, off / BSIZE + 1)
    {
      assert Opened(off);
      ok := WriteBlock(i, src, off0, off, m, was, own0);
      if ok {
        ComeTo(was, own0, i, src, off0, off + m);
      }
    }

    /** The write has come to off at the cost of the blocks that takes, and has logged besides t0 what that takes. */
    ghost predicate Progress(was: State, own0: Owners, t0: set<nat>, i: nat, src: seq<Byte>, off0: nat, off: nat)
      requires i < |was.inodes|
      reads this
    {
      && Halfway(was, own0, i, src, off0, off)
      && Afford(FreeCount(was.used), was.inodes[i].size, off, FreeCount(used))
      && Logging(Sb(), t0, Seen(), own0, own, i, off0 / BSIZE, Reach(off0, off))
      && (off == off0 || off % BSIZE == 0 || off == off0 + |src|)
    }

    lemma Begins(i: nat, src: seq<Byte>, off0: nat)
      requires Ok() && Inv(St(), own) && i < |inodes| && off0 <= inodes[i].size && off0 + |src| <= MAXBYTES
      ensures Progress(St(), own, Seen(), i, src, off0, off0)
    {
      NothingLogged(Sb(), Seen(), own, i, off0 / BSIZE);
      ComeTo(St(), own, i, src, off0, off0);
    }

    lemma Ends(was: State, own0: Owners, t0: set<nat>, i: nat, src: seq<Byte>, off0: nat)
      requires i < |was.inodes| && Progress(was, own0, t0, i, src, off0, off0 + |src|)
      ensures Ok() && HasRoom(was.used, was.inodes[i].size, off0, |src|)
      ensures Writing(was, own0, St(), own, i, src, off0, off0 + |src|)
      ensures Logging(Sb(), t0, Seen(), own0, own, i, off0 / BSIZE, Reach(off0, off0 + |src|))
    {
      assert Opened(off0 + |src|);
    }

    /** One pass with the size of its chunk. */
    method WriteChunk(i: nat, src: seq<Byte>, off0: nat, off: nat, left: nat,
                      ghost was: State, ghost own0: Owners, ghost t0: set<nat>)
      returns (ok: bool, m: nat)
      requires i < |was.inodes| && Progress(was, own0, t0, i, src, off0, off)
      requires off0 <= off && off + left == off0 + |src| <= MAXBYTES && left > 0
      modifies this`image, this`writes, this`bitmap, this`used, this`data, this`inodes, this`own
      ensures 0 < m <= left
      ensures if ok then Progress(was, own0, t0, i, src, off0, off + m)
              else Ok() && !HasRoom(was.used, was.inodes[i].size, off0, |src|)
    {
      ghost var before, own1, seen := FreeCount(used), own, Seen();
      m := NextChunk(src, off0, off, left);
      ok := WritePass(i, src, off0, off, m, was, own0);
      Affords(FreeCount(was.used), was.inodes[i].size, off, off + m, off + left, before, FreeCount(used), ok);
      if ok {
        LoggingNext(Sb(), t0, seen, Seen(), own0, own1, own, i, off0, off, m);
      }
    }

    method WriteLoop(i: nat, src: seq<Byte>, off0: nat, ghost was: State, ghost own0: Owners, ghost t0: set<nat>)
      returns (ok: bool, off: nat)
      requires i < |was.inodes| && Progress(was, own0, t0, i, src, off0, off0) && off0 + |src| <= MAXBYTES
      modifies this`image, this`writes, this`bitmap, this`used, this`data, this`inodes, this`own
      ensures if ok then off == off0 + |src| && Progress(was, own0, t0, i, src, off0, off)
              else Ok() && !HasRoom(was.used, was.inodes[i].size, off0, |src|)
    {
      var tot, n, m := 0, |src|, 0;
      off := off0;
      while tot < n
        invariant 0 <= tot <= n && off == off0 + tot
        invariant Progress(was, own0, t0, i, src, off0, off)
        decreases n - tot
      {
        ok, m := WriteChunk(i, src, off0, off, n - tot, was, own0, t0);
        if !ok {
          return;
        }
        tot, off := tot + m, off + m;
      }
      ok := true;
    }

    /** writei(): a splice of src into the file at off; every other file stays as it is.  It panics exactly if
        fewer blocks are free than the growth takes. */
    method Writei(i: nat, src: seq<Byte>, off0: nat) returns (r: Io)
      requires Ok() && Inv(St(), own) && i < |inodes| && off0 < UINT && |src| < UINT
      modifies this`image, this`writes, this`bitmap, this`used, this`data, this`inodes, this`dinodes, this`own
      ensures Ok()
      ensures var ino := old(inodes[i]);
              if ino.kind == T_DEV then
                && (r == ToDriver <==> 0 <= ino.major < |handlers| && handlers[ino.major])
                && (r != ToDriver ==> r == Error)
              else if off0 <= ino.size && off0 + |src| <= (12 + 128) * 512 then
                r == if HasRoom(old(used), ino.size, off0, |src|) then Count(|src|) else Panic
              else r == Error
      ensures r != Panic ==> Inv(St(), own)
      ensures r == Error || r == ToDriver ==> St() == old(St()) && own == old(own)
      ensures r.Count? ==> Wrote(old(St()), St(), i, src, off0)
      ensures r.Count? && src != [] && OneBitmap(Sb(), St()) && old(Seen()) == {} ==>
                |Seen()| == LogCount(old(inodes[i]).size, off0, off0 + |src|)
    {
      var ino := inodes[i];
      var n := |src|;
      if ino.kind == T_DEV {
        r := if !HasHandler(ino, handlers) then Error else ToDriver;
        return;
      }
      if off0 > ino.size || (off0 + n) % UINT < off0 {
        return Error;
      }
      if (off0 + n) % UINT > MAXBYTES {
        return Error;
      }
      var ok := WriteFile(i, src, off0);
      r := if ok then Count(n) else Panic;
    }

    /** writei() behind its checks: the loop and the inode update. */
    method WriteFile(i: nat, src: seq<Byte>, off0: nat) returns (ok: bool)
      requires Ok() && Inv(St(), own) && i < |inodes| && off0 <= inodes[i].size && off0 + |src| <= MAXBYTES
      modifies this`image, this`writes, this`bitmap, this`used, this`data, this`inodes, this`dinodes, this`own
      ensures Ok() && (ok <==> HasRoom(old(used), old(inodes)[i].size, off0, |src|))
      ensures ok ==> Inv(St(), own) && Wrote(old(St()), St(), i, src, off0)
      ensures ok && src != [] && OneBitmap(Sb(), St()) && old(Seen()) == {} ==>
                |Seen()| == LogCount(old(inodes[i]).size, off0, off0 + |src|)
    {
      ghost var was, own0, t0 := St(), own, Seen();
      var off;
      Begins(i, src, off0);
      ok, off := WriteLoop(i, src, off0, was, own0, t0);
      if ok {
        FinishWrite(i, src, off0, off, was, own0, t0);
      }
    }

    /** What writei() does behind its loop, and what it has done then. */
    method FinishWrite(i: nat, src: seq<Byte>, off0: nat, off: nat, ghost was: State, ghost own0: Owners,
                       ghost t0: set<nat>)
      requires Inv(was, own0) && i < |was.inodes| && off == off0 + |src|
      requires Progress(was, own0, t0, i, src, off0, off)
      modifies this`image, this`writes, this`inodes, this`dinodes
      ensures Ok() && Inv(St(), own) && Wrote(was, St(), i, src, off0)
      ensures HasRoom(was.used, was.inodes[i].size, off0, |src|)
      ensures src != [] && OneBitmap(Sb(), St()) && t0 == {} ==>
                |Seen()| == LogCount(was.inodes[i].size, off0, off0 + |src|)
    {
      Ends(was, own0, t0, i, src, off0);
      ghost var st := St();
      Counted(was, own0, i, src, off0, t0);
      Written(was, own0, st, own, i, src, off0);
      Grow(i, off, |src|);
    }

    lemma Counted(was: State, own0: Owners, i: nat, src: seq<Byte>, off0: nat, t0: set<nat>)
      requires Ok() && Inv(was, own0) && i < |was.inodes| && Writing(was, own0, St(), own, i, src, off0, off0 + |src|)
      requires Logging(Sb(), t0, Seen(), own0, own, i, off0 / BSIZE, Reach(off0, off0 + |src|))
      ensures src != [] && OneBitmap(Sb(), St()) && t0 == {} ==>
                var size, end := was.inodes[i].size, off0 + |src|;
                |Seen() + If(end > size, Iblock(Sb(), i))| == LogCount(size, off0, end)
    {
      if src != [] && OneBitmap(Sb(), St()) && t0 == {} {
        WriteCount(Sb(), was, own0, St(), own, i, src, off0, Seen());
      }
    }

    /** The last lines of writei(). */
    method Grow(i: nat, off: nat, n: nat)
      requires OnDisk() && i < |inodes| == |dinodes| && (n == 0 ==> off <= inodes[i].size)
      modifies this`image, this`writes, this`inodes, this`dinodes
      ensures OnDisk() && St() == WriteDone(old(St()), i, off)
      ensures Seen() == old(Seen()) + If(n > 0 && off > old(inodes[i].size), Iblock(Sb(), i))
    {
      if n > 0 && off > inodes[i].size {
        inodes := inodes[i := inodes[i].(size := off)];
        Iupdate(i);
      }
    }

    /** iupdate(): the inode in memory goes to disk. */
    method Iupdate(i: nat)
      requires OnDisk() && i < |inodes| == |dinodes|
      modifies this`image, this`writes, this`dinodes
      ensures OnDisk() && dinodes == old(dinodes)[i := inodes[i]] && Seen() == old(Seen()) + {Iblock(Sb(), i)}
      ensures Iblock(Sb(), i) < bmapstart
    {
      InodeChange(Sb(), image, bitmap, data, dinodes, i, inodes[i]);
      dinodes := dinodes[i := inodes[i]];
      LogWrite(Iblock(Sb(), i));
    }
  }
}
