/** Blocks as bytes: the words of an indirect block and the bits of the allocation bitmap (fs.c, fs.h). */
module Blocks {
  const BSIZE := 512
  const NINDIRECT := 128

  type Byte = x: int | 0 <= x < 256
  type Data = d: seq<Byte> | |d| == BSIZE witness seq(BSIZE, _ => 0)

  function Zeroes(): (d: Data) {
    seq(BSIZE, _ => 0)
  }

  /** The uint at index j of a block: four bytes, least significant first. */
  function Word(d: Data, j: nat): (v: nat)
    requires j < NINDIRECT
    ensures v < 0x1_0000_0000
  {
    var b0: int, b1: int, b2: int, b3: int := d[4 * j], d[4 * j + 1], d[4 * j + 2], d[4 * j + 3];
    b0 + 0x100 * b1 + 0x1_0000 * b2 + 0x100_0000 * b3
  }

  function PutWord(d: Data, j: nat, v: nat): (r: Data)
    requires j < NINDIRECT && v < 0x1_0000_0000
  {
    d[4 * j := v % 0x100][4 * j + 1 := v / 0x100 % 0x100]
     [4 * j + 2 := v / 0x1_0000 % 0x100][4 * j + 3 := v / 0x100_0000]
  }

  lemma Digits(v: nat)
    ensures v == v % 0x100 + 0x100 * (v / 0x100 % 0x100)
                 + 0x1_0000 * (v / 0x1_0000 % 0x100) + 0x100_0000 * (v / 0x100_0000)
  {
    assert v / 0x1_0000 == v / 0x100 / 0x100;
    assert v / 0x100_0000 == v / 0x1_0000 / 0x100;
  }

  /** Storing a word sets word j and no other. */
  lemma PutThenGet(d: Data, j: nat, v: nat, k: nat)
    requires j < NINDIRECT && k < NINDIRECT && v < 0x1_0000_0000
    ensures Word(PutWord(d, j, v), k) == if k == j then v else Word(d, k)
  {
    if k == j {
      Digits(v);
    }
  }

  /** The word is stored least significant byte first. */
  lemma WordBytes(d: Data, j: nat)
    requires j < NINDIRECT
    ensures var w := Word(d, j);
            && w % 0x100 == d[4 * j] && w / 0x100 % 0x100 == d[4 * j + 1]
            && w / 0x1_0000 % 0x100 == d[4 * j + 2] && w / 0x100_0000 == d[4 * j + 3]
  {
    var b0: int, b1: int, b2: int, b3: int := d[4 * j], d[4 * j + 1], d[4 * j + 2], d[4 * j + 3];
    var w := Word(d, j);
    assert w == b0 + 0x100 * (b1 + 0x100 * (b2 + 0x100 * b3));
    assert w / 0x100 == b1 + 0x100 * (b2 + 0x100 * b3) && w / 0x1_0000 == b2 + 0x100 * b3;
  }

  lemma ZeroWord(k: nat)
    requires k < NINDIRECT
    ensures Word(Zeroes(), k) == 0
  {}

  // The bitmap: bit b is bit b % 8 of byte b / 8.

  /** 1 << (b % 8). */
  function Mask(b: nat): (m: bv8)
    ensures m == (1 as bv8) << (b % 8)
  {
    match b % 8
    case 0 => 0x01
    case 1 => 0x02
    case 2 => 0x04
    case 3 => 0x08
    case 4 => 0x10
    case 5 => 0x20
    case 6 => 0x40
    case _ => 0x80
  }

  predicate Bit(bytes: seq<bv8>, b: nat)
    requires b < 8 * |bytes|
  {
    bytes[b / 8] & Mask(b) != 0
  }

  function SetBit(bytes: seq<bv8>, b: nat): (r: seq<bv8>)
    requires b < 8 * |bytes|
  {
    bytes[b / 8 := bytes[b / 8] | Mask(b)]
  }

  function ClearBit(bytes: seq<bv8>, b: nat): (r: seq<bv8>)
    requires b < 8 * |bytes|
  {
    bytes[b / 8 := bytes[b / 8] & !Mask(b)]
  }

  /** Marking a block in use, or free, changes the bit of that block and no other. */
  lemma OneBitSet(bytes: seq<bv8>, b: nat, c: nat)
    requires b < 8 * |bytes| && c < 8 * |bytes|
    ensures Bit(SetBit(bytes, b), c) <==> c == b || Bit(bytes, c)
  {}

  lemma OneBitCleared(bytes: seq<bv8>, b: nat, c: nat)
    requires b < 8 * |bytes| && c < 8 * |bytes|
    ensures Bit(ClearBit(bytes, b), c) <==> c != b && Bit(bytes, c)
  {}
}
