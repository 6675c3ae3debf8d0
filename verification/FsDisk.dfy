/** The file system as blocks: inode blocks, bitmap blocks and data blocks as fs.h lays them out, and which
    block each change of the file system has to log. */
module FsDisk {
  import opened Blocks
  import opened FsState
  import opened FileContents
  import opened Disk

  const BPB := 4096
  const IPB := 8

  /** The super block: inode blocks from inodestart, bitmap blocks from bmapstart, data blocks from start. */
  datatype Super = Super(size: nat, ninodes: nat, inodestart: nat, bmapstart: nat, start: nat)

  function DataBlock(d: Data): (r: Block) {
    Block(seq(BLOCK_WORDS, j requires 0 <= j < BLOCK_WORDS => Word(d, j)))
  }

  function BitmapData(bitmap: seq<bv8>, k: nat): (d: Data)
    requires BSIZE * k + BSIZE <= |bitmap|
  {
    seq(BSIZE, p requires 0 <= p < BSIZE => bitmap[BSIZE * k + p] as int)
  }

  /** Two shorts in a word, in two's complement. */
  function Pair(lo: Short, hi: Short): (w: nat) {
    lo % 0x1_0000 + 0x1_0000 * (hi % 0x1_0000)
  }

  /** Word w of struct dinode. */
  function InodeWord(ino: Inode, w: nat): (v: nat)
    requires w < 16
  {
    if w == 0 then Pair(ino.kind, ino.major)
    else if w == 1 then Pair(ino.minor, ino.nlink)
    else if w == 2 then ino.size
    else ino.addrs[w - 3]
  }

  function InodeBlock(dinodes: seq<Inode>, k: nat): (r: Block) {
    Block(seq(BLOCK_WORDS, w requires 0 <= w < BLOCK_WORDS =>
      if IPB * k + w / 16 < |dinodes| then InodeWord(dinodes[IPB * k + w / 16], w % 16) else 0))
  }

  lemma InodeWordAt(dinodes: seq<Inode>, i: nat, w: nat)
    requires i < |dinodes| && w < 16
    ensures i % 8 * 16 + w < |InodeBlock(dinodes, i / 8).words|
    ensures InodeBlock(dinodes, i / 8).words[i % 8 * 16 + w] == InodeWord(dinodes[i], w)
  {
    var v := i % 8 * 16 + w;
    assert v / 16 == i % 8 && v % 16 == w && 8 * (i / 8) + i % 8 == i;
  }

  /** struct dinode as fs.h has it: four shorts, the size, and the block numbers. */
  lemma InodeLayout(dinodes: seq<Inode>, i: nat, s: nat)
    requires i < |dinodes| && s <= 12
    ensures var w, at, ino := InodeBlock(dinodes, i / 8).words, i % 8 * 16, dinodes[i];
            && at + 16 <= |w|
            && w[at] % 0x1_0000 == ino.kind % 0x1_0000 && w[at] / 0x1_0000 == ino.major % 0x1_0000
            && w[at + 1] % 0x1_0000 == ino.minor % 0x1_0000 && w[at + 1] / 0x1_0000 == ino.nlink % 0x1_0000
            && w[at + 2] == ino.size && w[at + 3 + s] == ino.addrs[s]
  {
    InodeWordAt(dinodes, i, 0);
    InodeWordAt(dinodes, i, 1);
    InodeWordAt(dinodes, i, 2);
    InodeWordAt(dinodes, i, s + 3);
    PairParts(dinodes[i].kind, dinodes[i].major);
    PairParts(dinodes[i].minor, dinodes[i].nlink);
  }

  lemma PairParts(lo: Short, hi: Short)
    ensures Pair(lo, hi) % 0x1_0000 == lo % 0x1_0000 && Pair(lo, hi) / 0x1_0000 == hi % 0x1_0000
  {}

  predicate Fit(sb: Super, bitmap: seq<bv8>, data: seq<Data>, dinodes: seq<Inode>) {
    && sb.inodestart <= sb.bmapstart <= sb.start <= sb.size == |data|
    && |bitmap| == BSIZE * (sb.start - sb.bmapstart) && |dinodes| == sb.ninodes <= IPB * (sb.bmapstart - sb.inodestart)
  }

  /** Bit b of the bitmap says whether block b is in use. */
  ghost predicate BitsAre(bits: seq<bv8>, used: seq<bool>) {
    && |used| <= 8 * |bits|
    && forall b: nat {:trigger Bit(bits, b)} :: b < |used| ==> (Bit(bits, b) <==> used[b])
  }

  /** A block that the file system logs. */
  predicate IsFsBlock(sb: Super, b: nat) {
    sb.inodestart <= b < sb.size
  }

  /** What block b holds. */
  function BlockAt(sb: Super, bitmap: seq<bv8>, data: seq<Data>, dinodes: seq<Inode>, b: nat): (r: Block)
    requires Fit(sb, bitmap, data, dinodes) && IsFsBlock(sb, b)
  {
    if b < sb.bmapstart then InodeBlock(dinodes, b - sb.inodestart)
    else if b < sb.start then DataBlock(BitmapData(bitmap, b - sb.bmapstart))
    else DataBlock(data[b])
  }

  /** All blocks but x hold what they should. */
  ghost predicate EncodesBut(sb: Super, img: Image, bitmap: seq<bv8>, data: seq<Data>, dinodes: seq<Inode>, x: int) {
    && Fit(sb, bitmap, data, dinodes) && |img| == sb.size
    && forall b: nat {:trigger img[b]} :: IsFsBlock(sb, b) && b != x ==> img[b] == BlockAt(sb, bitmap, data, dinodes, b)
  }

  ghost predicate Encodes(sb: Super, img: Image, bitmap: seq<bv8>, data: seq<Data>, dinodes: seq<Inode>) {
    EncodesBut(sb, img, bitmap, data, dinodes, -1)
  }

  /** The log_writes ws turned first into img. */
  ghost predicate Logged(sb: Super, first: Image, ws: seq<Write>, img: Image) {
    && |first| == sb.size && (forall i :: 0 <= i < |ws| ==> IsFsBlock(sb, ws[i].blockno))
    && img == ApplyAll(first, ws)
  }

  lemma LoggedOne(sb: Super, first: Image, ws: seq<Write>, img: Image, w: Write)
    requires Logged(sb, first, ws, img) && IsFsBlock(sb, w.blockno)
    ensures Logged(sb, first, ws + [w], img[w.blockno := w.data])
  {
    SamePrefix(first, ws, ws + [w], |ws|);
  }

  // Which block a change must log.

  function Bblock(sb: Super, b: nat): (c: nat) {
    sb.bmapstart + b / BPB
  }

  function Iblock(sb: Super, i: nat): (c: nat) {
    sb.inodestart + i / IPB
  }

  /** A changed bit is in its bitmap block alone. */
  lemma BitmapChange(sb: Super, img: Image, bits: seq<bv8>, bits': seq<bv8>, data: seq<Data>, dinodes: seq<Inode>,
                     b: nat)
    requires Encodes(sb, img, bits, data, dinodes) && b < 8 * |bits| && |bits'| == |bits|
    requires forall p: nat :: p < |bits| && p != b / 8 ==> bits'[p] == bits[p]
    ensures EncodesBut(sb, img, bits', data, dinodes, Bblock(sb, b)) && sb.bmapstart <= Bblock(sb, b) < sb.start
  {
    forall c: nat | IsFsBlock(sb, c) && c != Bblock(sb, b) ensures img[c] == BlockAt(sb, bits', data, dinodes, c) {
      if sb.bmapstart <= c < sb.start {
        assert BitmapData(bits', c - sb.bmapstart) == BitmapData(bits, c - sb.bmapstart);
      }
    }
  }

  lemma DataChange(sb: Super, img: Image, bits: seq<bv8>, data: seq<Data>, dinodes: seq<Inode>, b: nat, d: Data)
    requires Encodes(sb, img, bits, data, dinodes) && b < sb.size
    ensures EncodesBut(sb, img, bits, data[b := d], dinodes, b)
  {}

  /** A changed inode is in its inode block alone. */
  lemma InodeChange(sb: Super, img: Image, bits: seq<bv8>, data: seq<Data>, dinodes: seq<Inode>, i: nat, ino: Inode)
    requires Encodes(sb, img, bits, data, dinodes) && i < |dinodes|
    ensures EncodesBut(sb, img, bits, data, dinodes[i := ino], Iblock(sb, i))
    ensures sb.inodestart <= Iblock(sb, i) < sb.bmapstart
  {
    forall c: nat | IsFsBlock(sb, c) && c != Iblock(sb, i)
      ensures img[c] == BlockAt(sb, bits, data, dinodes[i := ino], c)
    {
      if c < sb.bmapstart {
        assert InodeBlock(dinodes[i := ino], c - sb.inodestart) == InodeBlock(dinodes, c - sb.inodestart);
      }
    }
  }

  lemma LoggedBlock(sb: Super, img: Image, bits: seq<bv8>, data: seq<Data>, dinodes: seq<Inode>, b: nat)
    requires EncodesBut(sb, img, bits, data, dinodes, b) && IsFsBlock(sb, b)
    ensures Encodes(sb, img[b := BlockAt(sb, bits, data, dinodes, b)], bits, data, dinodes)
  {}

  // A disk holds one file system only.

  lemma LastDigit(a: Byte, x: nat, a': Byte, x': nat)
    requires a + 0x100 * x == a' + 0x100 * x'
    ensures a == a' && x == x'
  {}

  lemma FourBytes(a: Byte, b: Byte, c: Byte, d: Byte, a': Byte, b': Byte, c': Byte, d': Byte)
    requires a + 0x100 * b + 0x1_0000 * c + 0x100_0000 * d == a' + 0x100 * b' + 0x1_0000 * c' + 0x100_0000 * d'
    ensures a == a' && b == b' && c == c' && d == d'
  {
    LastDigit(a, b + 0x100 * c + 0x1_0000 * d, a', b' + 0x100 * c' + 0x1_0000 * d');
    LastDigit(b, c + 0x100 * d, b', c' + 0x100 * d');
    LastDigit(c, d, c', d');
  }

  lemma WordInjective(d: Data, e: Data, j: nat)
    requires j < NINDIRECT && Word(d, j) == Word(e, j)
    ensures d[4 * j] == e[4 * j] && d[4 * j + 1] == e[4 * j + 1]
    ensures d[4 * j + 2] == e[4 * j + 2] && d[4 * j + 3] == e[4 * j + 3]
  {
    FourBytes(d[4 * j], d[4 * j + 1], d[4 * j + 2], d[4 * j + 3], e[4 * j], e[4 * j + 1], e[4 * j + 2], e[4 * j + 3]);
  }

  lemma DataBlockInjective(d: Data, e: Data)
    requires DataBlock(d) == DataBlock(e)
    ensures d == e
  {
    forall p: nat | p < BSIZE ensures d[p] == e[p] {
      var j := p / 4;
      assert DataBlock(d).words[j] == DataBlock(e).words[j];
      WordInjective(d, e, j);
      assert p == 4 * j || p == 4 * j + 1 || p == 4 * j + 2 || p == 4 * j + 3;
    }
  }

  lemma PairInjective(a: Short, b: Short, c: Short, d: Short)
    requires Pair(a, b) == Pair(c, d)
    ensures a == c && b == d
  {}

  lemma InodeInjective(x: Inode, y: Inode)
    requires forall w: nat :: w < 16 ==> InodeWord(x, w) == InodeWord(y, w)
    ensures x == y
  {
    assert InodeWord(x, 0) == InodeWord(y, 0) && InodeWord(x, 1) == InodeWord(y, 1);
    assert InodeWord(x, 2) == InodeWord(y, 2);
    PairInjective(x.kind, x.major, y.kind, y.major);
    PairInjective(x.minor, x.nlink, y.minor, y.nlink);
    assert forall s: nat :: s <= NDIRECT ==> InodeWord(x, s + 3) == x.addrs[s] && InodeWord(y, s + 3) == y.addrs[s];
    assert x.addrs == y.addrs;
  }

  lemma SameInode(x: seq<Inode>, y: seq<Inode>, i: nat)
    requires i < |x| == |y| && InodeBlock(x, i / IPB) == InodeBlock(y, i / IPB)
    ensures x[i] == y[i]
  {
    var k := i / IPB;
    forall w: nat | w < 16 ensures InodeWord(x[i], w) == InodeWord(y[i], w) {
      var v := i % IPB * 16 + w;
      assert v / 16 == i % IPB && v % 16 == w && IPB * k + v / 16 == i;
      assert InodeBlock(x, k).words[v] == InodeBlock(y, k).words[v];
    }
    InodeInjective(x[i], y[i]);
  }

  /** Bytes of the bitmap as the block shows them. */
  lemma SameByte(x: seq<bv8>, y: seq<bv8>, p: nat)
    requires p < |x| == |y| && |x| % BSIZE == 0
    requires BSIZE * (p / BSIZE) + BSIZE <= |x| && BitmapData(x, p / BSIZE) == BitmapData(y, p / BSIZE)
    ensures x[p] == y[p]
  {
    var k := p / BSIZE;
    assert BitmapData(x, k)[p % BSIZE] == BitmapData(y, k)[p % BSIZE];
    assert x[p] as int == y[p] as int;
  }

  /** The blocks of the disk are those of the file system st, which is consistent. */
  ghost predicate Holds(sb: Super, img: Image, bits: seq<bv8>, st: State, own: Owners) {
    && Encodes(sb, img, bits, st.data, st.dinodes) && BitsAre(bits, st.used)
    && st.start == sb.start && Inv(st, own)
  }

  ghost predicate Consistent(sb: Super, img: Image) {
    exists bits: seq<bv8>, st: State, own: Owners :: Holds(sb, img, bits, st, own)
  }

  /** What the blocks of a disk say is the bitmap, the inodes and the contents of the data blocks. */
  lemma EncodesOne(sb: Super, img: Image, img': Image, bits: seq<bv8>, data: seq<Data>, dinodes: seq<Inode>,
                   bits': seq<bv8>, data': seq<Data>, dinodes': seq<Inode>)
    requires Encodes(sb, img, bits, data, dinodes) && Encodes(sb, img', bits', data', dinodes')
    requires forall b: nat :: IsFsBlock(sb, b) ==> img[b] == img'[b]
    ensures bits' == bits && dinodes' == dinodes
    ensures forall b: nat :: sb.start <= b < sb.size ==> data'[b] == data[b]
  {
    forall p: nat | p < |bits| ensures bits'[p] == bits[p] {
      var b := sb.bmapstart + p / BSIZE;
      assert BlockAt(sb, bits, data, dinodes, b) == img[b] == img'[b] == BlockAt(sb, bits', data', dinodes', b);
      DataBlockInjective(BitmapData(bits, p / BSIZE), BitmapData(bits', p / BSIZE));
      SameByte(bits, bits', p);
    }
    forall i: nat | i < |dinodes| ensures dinodes'[i] == dinodes[i] {
      var b := Iblock(sb, i);
      assert BlockAt(sb, bits, data, dinodes, b) == img[b] == img'[b] == BlockAt(sb, bits', data', dinodes', b);
      SameInode(dinodes, dinodes', i);
    }
    forall b: nat | sb.start <= b < sb.size ensures data'[b] == data[b] {
      assert BlockAt(sb, bits, data, dinodes, b) == img[b] == img'[b] == BlockAt(sb, bits', data', dinodes', b);
      DataBlockInjective(data[b], data'[b]);
    }
  }

  /** Equal blocks, equal files: a disk holds one file system. */
  lemma HoldsOne(sb: Super, img: Image, img': Image, bits: seq<bv8>, st: State, own: Owners,
                 bits': seq<bv8>, st': State, own': Owners)
    requires Holds(sb, img, bits, st, own) && Holds(sb, img', bits', st', own')
    requires forall b: nat :: IsFsBlock(sb, b) ==> img[b] == img'[b]
    ensures st'.inodes == st.inodes && st'.used == st.used
    ensures forall i: nat :: i < |st.inodes| ==> File(st', i) == File(st, i)
  {
    EncodesOne(sb, img, img', bits, st.data, st.dinodes, bits', st'.data, st'.dinodes);
    forall b: nat | b < sb.size ensures st'.used[b] == st.used[b] {
      assert Bit(bits, b) <==> st.used[b];
    }
    forall i: nat | i < |st.inodes| ensures File(st', i) == File(st, i) {
      SameBytes(st, own, st', i);
    }
  }

  lemma SameBytes(st: State, own: Owners, st': State, i: nat)
    requires Inv(st, own) && st'.inodes == st.inodes && i < |st.inodes|
    requires |st'.data| == |st.data| && forall b: nat :: st.start <= b < |st.data| ==> st'.data[b] == st.data[b]
    ensures File(st', i) == File(st, i)
  {
    if st.inodes[i].addrs[NDIRECT] != 0 {
      IndirectOwned(st, own, i);
    }
    forall x: nat | x < st.inodes[i].size ensures ByteAt(st', i, x) == ByteAt(st, i, x) {
      var b := BlockOf(st, i, x / BSIZE);
      assert NoHoles(st, i, st.inodes[i].size);
      assert SlotOf(st, i, SlotFor(x / BSIZE)) == b != 0;
      assert BlockOf(st', i, x / BSIZE) == b;
    }
  }
}
