/** The state behind fs.c: which blocks are in use, what they hold, the inodes on disk and in memory.

    A slot of an inode is a place that can hold a block number: 0..11 are the direct blocks, 12 is
    the indirect block, and 13 + j is entry j of the indirect block. */
module FsState {
  import opened Blocks

  const NDIRECT := 12
  const SLOTS := 141
  const MAXFILE := 140
  const MAXBYTES := 71680
  const T_DEV := 3
  const UINT: int := 0x1_0000_0000

  type Addrs = a: seq<nat> | |a| == NDIRECT + 1 witness seq(NDIRECT + 1, _ => 0)

  type Short = x: int | -0x8000 <= x < 0x8000

  datatype Inode = Inode(kind: Short, major: Short, minor: Short, nlink: Short, size: nat, addrs: Addrs)

  datatype State = State(start: nat, used: seq<bool>, data: seq<Data>, inodes: seq<Inode>, dinodes: seq<Inode>)

  datatype Slot = Slot(inum: nat, index: nat)

  type Owners = map<nat, Slot>

  predicate Shaped(st: State) {
    && 0 < st.start <= |st.data| == |st.used| < UINT
    && |st.dinodes| == |st.inodes|
  }

  /** What slot s of an inode holds; 0 for nothing. */
  function InSlot(ino: Inode, data: seq<Data>, s: nat): (b: nat)
    requires s < SLOTS
  {
    if s <= NDIRECT then ino.addrs[s]
    else if 0 < ino.addrs[NDIRECT] < |data| then Word(data[ino.addrs[NDIRECT]], s - NDIRECT - 1)
    else 0
  }

  function SlotOf(st: State, i: nat, s: nat): (b: nat)
    requires i < |st.inodes| && s < SLOTS
  {
    InSlot(st.inodes[i], st.data, s)
  }

  predicate IsSlot(st: State, i: nat, s: nat) {
    i < |st.inodes| && s < SLOTS
  }

  /** Every block in use past the metadata is in exactly the slot its owner says, a free one in none. */
  ghost predicate Owned(st: State, own: Owners) {
    && Shaped(st)
    && (forall b: nat {:trigger b in own} :: b in own ==>
         && st.start <= b < |st.used| && st.used[b]
         && IsSlot(st, own[b].inum, own[b].index) && SlotOf(st, own[b].inum, own[b].index) == b)
    && (forall b: nat :: b < |st.used| && st.used[b] && b >= st.start ==> b in own)
    && (forall b: nat :: b < st.start ==> st.used[b])
    && (forall i: nat, s: nat {:trigger SlotOf(st, i, s)} :: IsSlot(st, i, s) && SlotOf(st, i, s) != 0 ==>
         SlotOf(st, i, s) in own && own[SlotOf(st, i, s)] == Slot(i, s))
  }

  /** The ownership law without the ghost map: block b is in use exactly if one slot holds it. */
  ghost predicate HeldBy(st: State, b: nat, i: nat, s: nat) {
    IsSlot(st, i, s) && SlotOf(st, i, s) == b
  }

  lemma ExactlyOneSlot(st: State, own: Owners, b: nat)
    requires Owned(st, own) && st.start <= b < |st.used|
    ensures st.used[b] <==> exists i: nat, s: nat :: HeldBy(st, b, i, s)
    ensures forall i: nat, s: nat, j: nat, t: nat :: HeldBy(st, b, i, s) && HeldBy(st, b, j, t) ==> i == j && s == t
  {
    if st.used[b] {
      assert HeldBy(st, b, own[b].inum, own[b].index);
    }
  }

  /** Slot s of inode i receives block b, zeroed: balloc() and the store of its result. */
  function Assign(st: State, i: nat, s: nat, b: nat): (r: State)
    requires IsSlot(st, i, s) && b < |st.used| && b < |st.data| < UINT
    requires s > NDIRECT ==> st.inodes[i].addrs[NDIRECT] < |st.data|
  {
    var ino := st.inodes[i];
    var st1 := st.(used := st.used[b := true], data := st.data[b := Zeroes()]);
    if s <= NDIRECT then st1.(inodes := st.inodes[i := ino.(addrs := ino.addrs[s := b])])
    else
      var c := ino.addrs[NDIRECT];
      st1.(data := st1.data[c := PutWord(st1.data[c], s - NDIRECT - 1, b)])
  }

  predicate CanAssign(st: State, i: nat, s: nat, b: nat) {
    && Shaped(st) && IsSlot(st, i, s) && SlotOf(st, i, s) == 0
    && st.start <= b < |st.used| && !st.used[b]
    && (s > NDIRECT ==> 0 < st.inodes[i].addrs[NDIRECT] < |st.data|)
  }

  /** The indirect block of an inode is the inode's own. */
  lemma IndirectOwned(st: State, own: Owners, i: nat)
    requires Owned(st, own) && i < |st.inodes| && st.inodes[i].addrs[NDIRECT] != 0
    ensures var c := st.inodes[i].addrs[NDIRECT];
            c in own && own[c] == Slot(i, NDIRECT) && st.start <= c < |st.used| && st.used[c]
  {
    assert SlotOf(st, i, NDIRECT) != 0;
  }

  /** Only that slot changes: the new block is zeroed, so a new indirect block has no entries. */
  lemma AssignSlots(st: State, own: Owners, i: nat, s: nat, b: nat, j: nat, t: nat)
    requires Owned(st, own) && CanAssign(st, i, s, b) && IsSlot(st, j, t)
    ensures SlotOf(Assign(st, i, s, b), j, t) == if j == i && t == s then b else SlotOf(st, j, t)
  {
    var c := st.inodes[j].addrs[NDIRECT];
    if t > NDIRECT {
      if c != 0 {
        IndirectOwned(st, own, j);
      }
      ZeroWord(t - NDIRECT - 1);
      if s > NDIRECT {
        IndirectOwned(st, own, i);
        PutThenGet(st.data[st.inodes[i].addrs[NDIRECT]], s - NDIRECT - 1, b, t - NDIRECT - 1);
      }
    }
  }

  /** r has the slots of st but for slot s of inode i, which holds b. */
  ghost predicate OneSlot(st: State, r: State, i: nat, s: nat, b: nat) {
    && |r.inodes| == |st.inodes|
    && (forall j: nat, t: nat {:trigger SlotOf(r, j, t)} :: IsSlot(st, j, t) ==>
         SlotOf(r, j, t) == if j == i && t == s then b else SlotOf(st, j, t))
  }

  lemma OneSlotOwned(st: State, own: Owners, r: State, i: nat, s: nat, b: nat)
    requires Owned(st, own) && CanAssign(st, i, s, b) && Shaped(r) && OneSlot(st, r, i, s, b)
    requires r.used == st.used[b := true] && r.start == st.start
    ensures b !in own && Owned(r, own[b := Slot(i, s)])
  {}

  lemma AssignKeeps(st: State, own: Owners, i: nat, s: nat, b: nat)
    requires Owned(st, own) && CanAssign(st, i, s, b)
    ensures b !in own && Owned(Assign(st, i, s, b), own[b := Slot(i, s)])
  {
    var r := Assign(st, i, s, b);
    forall j: nat, t: nat | IsSlot(st, j, t)
      ensures SlotOf(r, j, t) == if j == i && t == s then b else SlotOf(st, j, t)
    {
      AssignSlots(st, own, i, s, b, j, t);
    }
    OneSlotOwned(st, own, r, i, s, b);
  }
}
