/** umalloc.c: the headers in memory, the circular list threaded through them, and the pointer-walking
    loops of free() and malloc(), proved against the heap of module HeapModel. */
module Heap {
  import opened HeapModel

  /** The header in front of every block: the next free block and the size in units. */
  datatype Header = Header(ptr: int, size: nat)

  type Memory = map<int, Header>

  /** The index after i on the circle. */
  function Next(f: seq<Blk>, i: nat): (j: nat)
    requires i < |f|
    ensures j < |f|
  {
    if i + 1 < |f| then i + 1 else 0
  }

  predicate LinkAt(m: Memory, f: seq<Blk>, i: nat) {
    i < |f| && f[i].addr in m && m[f[i].addr] == Header(f[Next(f, i)].addr, f[i].size)
  }

  /** The headers of the free blocks form one circle in address order, wrapping once, at the end. */
  predicate Linked(m: Memory, f: seq<Blk>) {
    forall i: nat :: i < |f| ==> LinkAt(m, f, i)
  }

  predicate Sized(m: Memory, live: map<int, nat>) {
    forall a: int :: a in live ==> a in m && m[a].size == live[a]
  }

  function SpliceMemory(m: Memory, p: int, b: Blk): (r: Memory)
    requires p in m
  {
    m[p := Header(b.addr, m[p].size)][b.addr := Header(m[p].ptr, b.size)]
  }

  lemma SpliceLinked(m: Memory, f: seq<Blk>, k: nat, b: Blk)
    requires Linked(m, f) && Apart(f) && Fits(f, k, b)
    ensures LinkAt(m, f, k) && Linked(SpliceMemory(m, f[k].addr, b), Splice(f, k, b))
  {
    assert LinkAt(m, f, k);
    var r, m' := Splice(f, k, b), SpliceMemory(m, f[k].addr, b);
    forall i: nat | i < |r|
      ensures LinkAt(m', r, i)
    {
      var j: nat := if i <= k then i else i - 1;
      assert LinkAt(m, f, j);
      assert j < k ==> f[j].addr + f[j].size < f[k].addr;
      assert k + 1 < j ==> f[k + 1].addr + f[k + 1].size < f[j].addr;
    }
  }

  function JoinMemory(m: Memory, p: int, q: int): (r: Memory)
    requires p in m && q in m
  {
    m[p := Header(m[q].ptr, m[p].size + m[q].size)]
  }

  predicate Sorted(f: seq<Blk>) {
    forall i, j :: 0 <= i < j < |f| ==> f[i].addr < f[j].addr
  }

  lemma SpliceSorted(f: seq<Blk>, k: nat, b: Blk)
    requires Apart(f) && Fits(f, k, b)
    ensures Sorted(Splice(f, k, b))
  {}

  lemma JoinSorted(f: seq<Blk>, i: nat)
    requires Sorted(f)
    ensures Sorted(Join(f, i))
  {}

  lemma JoinNext(f: seq<Blk>, i: nat, a: nat)
    requires Touch(f, i) && a < |f| - 1
    ensures Join(f, i)[a].addr == f[if a <= i then a else a + 1].addr
    ensures Join(f, i)[Next(Join(f, i), a)].addr == f[Next(f, if a < i then a else a + 1)].addr
  {}

  /** The joined block: one header, leading where the swallowed block led. */
  lemma JoinLinkedHere(m: Memory, f: seq<Blk>, i: nat)
    requires LinkAt(m, f, i) && LinkAt(m, f, i + 1) && Touch(f, i)
    ensures LinkAt(JoinMemory(m, f[i].addr, f[i + 1].addr), Join(f, i), i)
  {
    JoinNext(f, i, i);
    assert Join(f, i)[i] == Blk(f[i].addr, f[i].size + f[i + 1].size);
  }

  /** Every other block: the header is not touched. */
  lemma JoinLinkedThere(m: Memory, f: seq<Blk>, i: nat, a: nat)
    requires LinkAt(m, f, i) && LinkAt(m, f, i + 1) && Touch(f, i) && a < |f| - 1 && a != i
    requires LinkAt(m, f, if a < i then a else a + 1) && f[if a < i then a else a + 1].addr != f[i].addr
    ensures LinkAt(JoinMemory(m, f[i].addr, f[i + 1].addr), Join(f, i), a)
  {
    JoinNext(f, i, a);
    assert Join(f, i)[a] == f[if a < i then a else a + 1];
  }

  lemma JoinLinked(m: Memory, f: seq<Blk>, i: nat)
    requires Linked(m, f) && Sorted(f) && Touch(f, i)
    ensures LinkAt(m, f, i) && LinkAt(m, f, i + 1)
    ensures Linked(JoinMemory(m, f[i].addr, f[i + 1].addr), Join(f, i))
  {
    assert LinkAt(m, f, i) && LinkAt(m, f, i + 1);
    var r, m' := Join(f, i), JoinMemory(m, f[i].addr, f[i + 1].addr);
    forall a: nat | a < |r|
      ensures LinkAt(m', r, a)
    {
      if a == i {
        JoinLinkedHere(m, f, i);
      } else {
        var c: nat := if a < i then a else a + 1;
        assert LinkAt(m, f, c) && f[c].addr != f[i].addr;
        JoinLinkedThere(m, f, i, a);
      }
    }
  }

  /** A size is stored: the ptr of a header not written before is arbitrary. */
  function WithSize(m: Memory, p: int, n: nat): (r: Memory) {
    m[p := Header(if p in m then m[p].ptr else 0, n)]
  }

  function TakeMemory(m: Memory, prev: int, p: int, n: nat): (r: Memory)
    requires prev in m && p in m && n <= m[p].size
  {
    if m[p].size == n then m[prev := Header(m[p].ptr, m[prev].size)]
    else WithSize(m[p := Header(m[p].ptr, m[p].size - n)], p + m[p].size - n, n)
  }

  lemma TakeLinked(m: Memory, f: seq<Blk>, k: nat, n: nat)
    requires Linked(m, f) && Apart(f) && 0 < k < |f| && 0 < n <= f[k].size
    ensures LinkAt(m, f, k - 1) && LinkAt(m, f, k)
    ensures Linked(TakeMemory(m, f[k - 1].addr, f[k].addr, n), Take(f, k, n))
  {
    assert LinkAt(m, f, k - 1) && LinkAt(m, f, k);
    var r, m' := Take(f, k, n), TakeMemory(m, f[k - 1].addr, f[k].addr, n);
    forall i: nat | i < |r|
      ensures LinkAt(m', r, i)
    {
      var c: nat := if f[k].size == n && i >= k then i + 1 else i;
      assert LinkAt(m, f, c);
      assert c < k ==> f[c].addr + f[c].size < f[k].addr;
      assert k < c ==> f[k].addr + f[k].size < f[c].addr;
      assert c < k - 1 ==> f[c].addr + f[c].size < f[k - 1].addr;
    }
  }

  /** A live block's header is no free block's header. */
  lemma LiveHeaders(base: int, h: HeapModel.Heap, a: int, i: nat)
    requires Good(base, h) && a in h.live && i < |h.free|
    ensures h.free[i].addr != a
  {
    assert Has(Blk(a, h.live[a]), a);
    assert InLive(h.live, a);
    assert !InFree(h.free, a);
    assert !Has(h.free[i], a);
  }

  /** The walk of free() has a place to stop. */
  ghost function BelowLive(base: int, h: HeapModel.Heap, a: int): (k: nat)
    requires Good(base, h) && a in h.live
    ensures IsBelow(h.free, k, a) && Fits(h.free, k, Blk(a, h.live[a]))
  {
    forall i: nat | i < |h.free| ensures h.free[i].addr != a {
      LiveHeaders(base, h, a, i);
    }
    var k := FindBelow(h.free, a);
    LiveFits(base, h, a, k);
    k
  }

  lemma FreedSized(base: int, m: Memory, h: HeapModel.Heap, a: int, k: nat)
    requires Good(base, h) && Linked(m, h.free) && Sized(m, h.live) && a in h.live
    requires Fits(h.free, k, Blk(a, h.live[a]))
    ensures LinkAt(m, h.free, k) && LinkAt(m, h.free, Next(h.free, k))
    ensures Sized(FreeMemory(m, h.free[k].addr, a), h.live - {a})
  {
    assert LinkAt(m, h.free, k) && LinkAt(m, h.free, Next(h.free, k));
    forall c: int | c in h.live
      ensures c != h.free[k].addr
    {
      LiveHeaders(base, h, c, k);
    }
  }

  /** free() stores into two headers: that of the freed block and that of the free block below it. */
  function FreeMemory(m: Memory, p: int, bp: int): (r: Memory)
    requires p in m && bp in m && m[p].ptr in m
  {
    var up := bp + m[bp].size == m[p].ptr;
    var b := if up then Header(m[m[p].ptr].ptr, m[bp].size + m[m[p].ptr].size)
             else Header(m[p].ptr, m[bp].size);
    m[bp := b][p := if p + m[p].size == bp then Header(b.ptr, m[p].size + b.size) else Header(bp, m[p].size)]
  }

  /** The circle with b linked in, joined upwards if it touches. */
  function UpMemory(m: Memory, p: int, b: Blk): (r: Memory)
    requires p in m && m[p].ptr in m
  {
    var s := SpliceMemory(m, p, b);
    if b.addr + b.size == m[p].ptr then JoinMemory(s, b.addr, m[p].ptr) else s
  }

  lemma UpLinked(m: Memory, base: int, f: seq<Blk>, k: nat, b: Blk)
    requires Linked(m, f) && FreeList(base, f) && Fits(f, k, b)
    ensures LinkAt(m, f, k) && LinkAt(m, f, Next(f, k))
    ensures Linked(UpMemory(m, f[k].addr, b), Join(Splice(f, k, b), k + 1))
  {
    assert LinkAt(m, f, k) && LinkAt(m, f, Next(f, k));
    var s, ms := Splice(f, k, b), SpliceMemory(m, f[k].addr, b);
    SpliceLinked(m, f, k, b);
    SpliceSorted(f, k, b);
    if Touch(s, k + 1) {
      JoinLinked(ms, s, k + 1);
    }
  }

  lemma DownMemory(m: Memory, p: int, b: Blk)
    requires p in m && m[p].ptr in m && b.addr in m && m[b.addr].size == b.size && p < b.addr && m[p].ptr != b.addr
    ensures var u := UpMemory(m, p, b);
            FreeMemory(m, p, b.addr) == if p + m[p].size == b.addr then JoinMemory(u, p, b.addr) else u
  {}

  /** The two tests of free() are exactly the two joins of Insert. */
  lemma FreeLinked(m: Memory, base: int, f: seq<Blk>, k: nat, b: Blk)
    requires Linked(m, f) && FreeList(base, f) && Fits(f, k, b) && b.addr in m && m[b.addr].size == b.size
    ensures LinkAt(m, f, k) && LinkAt(m, f, Next(f, k))
    ensures Linked(FreeMemory(m, f[k].addr, b.addr), Insert(f, k, b))
  {
    UpLinked(m, base, f, k, b);
    DownMemory(m, f[k].addr, b);
    SpliceSorted(f, k, b);
    JoinSorted(Splice(f, k, b), k + 1);
    var s1 := Join(Splice(f, k, b), k + 1);
    assert s1[k] == f[k] && s1[k + 1].addr == b.addr;
    if Touch(s1, k) {
      JoinLinked(UpMemory(m, f[k].addr, b), s1, k);
    }
  }

  /** The new header disturbs no other. */
  lemma GrownLinked(base: int, m: Memory, h: HeapModel.Heap, a: int, n: nat)
    requires Good(base, h) && base < a && Below(h.owned, a) && Linked(m, h.free) && Sized(m, h.live)
    ensures Linked(WithSize(m, a, n), h.free) && Sized(WithSize(m, a, n), Grown(h, a, n).live)
  {
    forall i: nat | i < |h.free|
      ensures LinkAt(WithSize(m, a, n), h.free, i)
    {
      assert LinkAt(m, h.free, i);
      assert i > 0 ==> Has(h.free[i], h.free[i].addr);
      assert i > 0 ==> InFree(h.free, h.free[i].addr);
    }
  }

  /** Some free block holds the freed one. */
  lemma InsertFits(f: seq<Blk>, k: nat, b: Blk)
    requires Fits(f, k, b)
    ensures !NoneFits(Insert(f, k, b), b.size)
  {
    var s := Splice(f, k, b);
    var s1 := Join(s, k + 1);
    assert s1[k + 1].size >= b.size;
    var r := Join(s1, k);
    assert if Touch(s1, k) then r[k].size >= b.size else r[k + 1].size >= b.size;
  }

  lemma TakenSized(base: int, m: Memory, h: HeapModel.Heap, k: nat, n: nat)
    requires Good(base, h) && Linked(m, h.free) && Sized(m, h.live)
    requires 0 < k < |h.free| && 0 < n <= h.free[k].size
    ensures LinkAt(m, h.free, k - 1) && LinkAt(m, h.free, k)
    ensures Sized(TakeMemory(m, h.free[k - 1].addr, h.free[k].addr, n), Taken(h, k, n).live)
  {
    assert LinkAt(m, h.free, k - 1) && LinkAt(m, h.free, k);
    forall c: int | c in h.live
      ensures c != h.free[k].addr && c != h.free[k - 1].addr
    {
      LiveHeaders(base, h, c, k);
      LiveHeaders(base, h, c, k - 1);
    }
  }

  // Sizes.  uint and int are 32 bits wide; a header is 8 bytes.

  const WORD: int := 0x1_0000_0000

  /** nunits of malloc(), with the 32-bit sum. */
  function NUnits(nbytes: nat): (n: nat)
    ensures n > 0
  {
    ((nbytes + 7) % WORD) / 8 + 1
  }

  /** The block has room for nbytes behind its header exactly when the sum did not wrap. */
  lemma RoomExactly(nbytes: nat)
    requires nbytes < WORD
    ensures 8 * (NUnits(nbytes) - 1) >= nbytes <==> nbytes <= WORD - 8
    ensures nbytes <= WORD - 8 ==> 8 * (NUnits(nbytes) - 2) < nbytes
  {}

  function Core(n: nat): (nu: nat)
    ensures nu >= n && nu >= 4096 && (nu == n || nu == 4096)
  {
    if n < 4096 then 4096 else n
  }

  /** The int that morecore() passes to sbrk(). */
  function SbrkBytes(nu: nat): (d: int) {
    var u := nu * 8 % WORD;
    if u < WORD / 2 then u else u - WORD
  }

  /** sbrk() is asked for exactly the units that morecore() records exactly for these sizes. */
  lemma SbrkExactly(nbytes: nat)
    requires nbytes < WORD
    ensures SbrkBytes(Core(NUnits(nbytes))) == 8 * Core(NUnits(nbytes))
            <==> nbytes <= WORD / 2 - 16 || nbytes > WORD - 8
  {}

  // The walk around the circle.

  /** Block q lies behind block i and not behind block j, walking forward. */
  predicate Passed(i: nat, j: nat, q: nat) {
    if i <= j then i < q <= j else q > i || q <= j
  }

  predicate NoneFits(f: seq<Blk>, n: nat) {
    forall q :: 0 <= q < |f| ==> f[q].size < n
  }

  predicate PassedSmall(f: seq<Blk>, i: nat, j: nat, n: nat) {
    forall q :: 0 <= q < |f| && Passed(i, j, q) ==> f[q].size < n
  }

  /** The two tests of the loop of free(), at free block j. */
  predicate Stops(f: seq<Blk>, j: nat, bp: int)
    requires j < |f|
  {
    var p, next := f[j].addr, f[Next(f, j)].addr;
    (bp > p && bp < next) || (p >= next && (bp > p || bp < next))
  }

  lemma StopsExactly(f: seq<Blk>, j: nat, k: nat, bp: int)
    requires Apart(f) && IsBelow(f, k, bp) && f[0].addr < bp && j < |f|
    ensures Stops(f, j, bp) <==> j == k
  {}

  /** Steps left from j until the walk is back at i. */
  function StepsTo(f: seq<Blk>, j: nat, i: nat): (d: nat)
    requires i < |f| && j < |f|
  {
    if j < i then i - j else |f| - j + i
  }

  /** One step of the walk of malloc() past a block that is too small. */
  lemma PassOne(f: seq<Blk>, at: nat, i: nat, n: nat)
    requires i < |f| && at < |f| && PassedSmall(f, at, i, n) && f[Next(f, i)].size < n
    ensures if Next(f, i) == at then NoneFits(f, n)
            else PassedSmall(f, at, Next(f, i), n) && StepsTo(f, Next(f, i), at) < StepsTo(f, i, at)
  {}

  lemma SameHeader(f: seq<Blk>, i: nat, j: nat)
    requires Apart(f) && i < |f| && j < |f| && f[i].addr == f[j].addr
    ensures i == j
  {}

  predicate Below(owned: set<int>, a: int) {
    forall u: int :: u in owned ==> u < a
  }

  class Allocator {
    const base: int
    var mem: Memory
    var freep: int
    ghost var h: HeapModel.Heap
    ghost var at: nat

    ghost predicate Valid()
      reads this
    {
      && base > 0 && Good(base, h) && at < |h.free|
      && if freep == 0 then h == HeapModel.Heap([Blk(base, 0)], map[], {})
         else freep == h.free[at].addr && Linked(mem, h.free) && Sized(mem, h.live)
    }

    constructor (base: int)
      requires base > 0
      ensures Valid() && this.base == base && freep == 0
    {
      this.base := base;
      mem := map[];
      freep := 0;
      h := HeapModel.Heap([Blk(base, 0)], map[], {});
      at := 0;
    }

    /** The loop of free(): the walk from freep stops exactly at the free block below bp. */
    method FindPlace(bp: int) returns (p: int, ghost k: nat)
      requires Valid() && bp in h.live
      ensures IsBelow(h.free, k, bp) && p == h.free[k].addr && Fits(h.free, k, Blk(bp, h.live[bp]))
    {
      k := BelowLive(base, h, bp);
      p := freep;
      ghost var j: nat := at;
      assert LinkAt(mem, h.free, j);
      StopsExactly(h.free, j, k, bp);
      while !(bp > p && bp < mem[p].ptr)
        invariant j < |h.free| && p == h.free[j].addr && LinkAt(mem, h.free, j)
        invariant Stops(h.free, j, bp) <==> j == k
        decreases if j == k then 0 else StepsTo(h.free, j, k)
      {
        if p >= mem[p].ptr && (bp > p || bp < mem[p].ptr) {
          break;
        }
        p := mem[p].ptr;
        j := Next(h.free, j);
        assert LinkAt(mem, h.free, j);
        StopsExactly(h.free, j, k, bp);
      }
    }

    /** The stores of free(). */
    method Unite(p: int, bp: int)
      requires p in mem && bp in mem && mem[p].ptr in mem && p != bp && mem[p].ptr != bp
      modifies this`mem
      ensures mem == FreeMemory(old(mem), p, bp)
    {
      if bp + mem[bp].size == mem[p].ptr {
        mem := mem[bp := Header(mem[mem[p].ptr].ptr, mem[bp].size + mem[mem[p].ptr].size)];
      } else {
        mem := mem[bp := Header(mem[p].ptr, mem[bp].size)];
      }
      if p + mem[p].size == bp {
        mem := mem[p := Header(mem[bp].ptr, mem[p].size + mem[bp].size)];
      } else {
        mem := mem[p := Header(bp, mem[p].size)];
      }
    }

    method Free(ap: int)
      requires Valid() && ap - 1 in h.live
      modifies this
      ensures Valid() && freep != 0
      ensures Fits(old(h.free), at, Blk(ap - 1, old(h.live[ap - 1])))
      ensures h == Freed(old(h), ap - 1, at)
    {
      var bp := ap - 1;
      var p, k := FindPlace(bp);
      FreeLinked(mem, base, h.free, k, Blk(bp, h.live[bp]));
      FreedSized(base, mem, h, bp, k);
      Unite(p, bp);
      FreeKeeps(base, h, bp, k);
      InsertIsFreeList(base, h.free, k, Blk(bp, h.live[bp]));
      h := Freed(h, bp, k);
      freep := p;
      at := k;
    }

    /** morecore(): brk is what sbrk() returned for Core(n) units, -1 if it failed. */
    method Morecore(n: nat, brk: int) returns (p: int)
      requires Valid() && freep != 0 && n > 0
      requires brk == -1 || (base < brk && Below(h.owned, brk))
      modifies this
      ensures Valid() && freep != 0
      ensures brk == -1 ==> p == 0 && h == old(h)
      ensures brk != -1 ==> p == freep && Enlarged(old(h), n, brk)
    {
      var nu := n;
      if nu < 4096 {
        nu := 4096;
      }
      if brk == -1 {
        return 0;
      }
      ghost var f := h.free;
      AddCore(brk, nu);
      InsertFits(f, at, Blk(brk, nu));
      p := freep;
    }

    /** The new core gets its header and is freed into the list. */
    method AddCore(brk: int, nu: nat)
      requires Valid() && freep != 0 && nu > 0 && base < brk && Below(h.owned, brk)
      modifies this
      ensures Valid() && freep != 0 && h.live == old(h.live) && h.owned == old(h.owned) + Units(brk, nu)
      ensures Fits(old(h.free), at, Blk(brk, nu)) && h.free == Insert(old(h.free), at, Blk(brk, nu))
    {
      GrowKeeps(base, h, brk, nu);
      GrownLinked(base, mem, h, brk, nu);
      ghost var live := h.live;
      mem := WithSize(mem, brk, nu);
      h := Grown(h, brk, nu);
      Free(brk + 1);
      assert live[brk := nu] - {brk} == live;
    }

    /** The stores of malloc(). */
    method CutTail(prevp: int, p0: int, n: nat) returns (p: int)
      requires prevp in mem && p0 in mem && 0 < n <= mem[p0].size
      modifies this`mem
      ensures mem == TakeMemory(old(mem), prevp, p0, n) && p == p0 + old(mem[p0].size) - n
    {
      p := p0;
      if mem[p].size == n {
        mem := mem[prevp := Header(mem[p].ptr, mem[prevp].size)];
      } else {
        mem := mem[p := Header(mem[p].ptr, mem[p].size - n)];
        p := p + mem[p].size;
        mem := WithSize(mem, p, n);
      }
    }

    /** The successful branch of the loop of malloc(). */
    method TakeBlock(prevp: int, p0: int, n: nat, ghost i: nat) returns (r: int)
      requires Walking(prevp, p0, i, n) && 0 < n <= mem[p0].size
      modifies this
      ensures Valid() && freep != 0 && h.owned == old(h.owned)
      ensures r > 1 && r - 1 !in old(h.live) && h.live == old(h.live)[r - 1 := n]
    {
      ghost var k := Next(h.free, i);
      TakeIsFreeList(base, h.free, k, n);
      TakeKeeps(base, h, k, n);
      TakenIsNew(base, h, k, n);
      TakeLinked(mem, h.free, k, n);
      TakenSized(base, mem, h, k, n);
      var p := CutTail(prevp, p0, n);
      h, at := Taken(h, k, n), k - 1;
      freep := prevp;
      return p + 1;
    }

    /** The unsuccessful branch: at the end of the circle, ask for core and start over. */
    method PassBlock(p0: int, n: nat, brk: int, asked0: bool, ghost i0: nat, ghost prevp: int)
      returns (p: int, asked: bool, ghost i: nat)
      requires Walking(prevp, p0, i0, n) && n > mem[p0].size
      requires if asked0 then !NoneFits(h.free, n) else brk == -1 || (base < brk && Below(h.owned, brk))
      modifies this
      ensures Valid() && freep != 0 && i < |h.free|
      ensures asked == asked0 ==>
        unchanged(this) && i == Next(h.free, i0) && StepsTo(h.free, i, at) < StepsTo(h.free, i0, at)
      ensures asked != asked0 ==> asked && NoneFits(old(h.free), n)
      ensures asked != asked0 && brk == -1 ==> p == 0 && h == old(h)
      ensures asked != asked0 && brk != -1 ==> Enlarged(old(h), n, brk)
      ensures asked == asked0 || brk != -1 ==> p == h.free[i].addr && p > 0 && PassedSmall(h.free, at, i, n)
    {
      PassOne(h.free, at, i0, n);
      p, i, asked := p0, Next(h.free, i0), asked0;
      assert h.free[0].addr <= h.free[i].addr;
      if p == freep {
        SameHeader(h.free, i, at);
        p := Morecore(n, brk);
        asked, i := true, at;
        assert h.free[0].addr <= h.free[i].addr;
      }
    }

    /** malloc(): brk is what sbrk() would return if it is called; asked says whether it is. */
    method Malloc(nbytes: nat, brk: int) returns (r: int, asked: bool)
      requires Valid() && nbytes < WORD && (nbytes <= WORD / 2 - 16 || nbytes > WORD - 8)
      requires brk == -1 || (base < brk && Below(h.owned, brk))
      modifies this
      ensures Valid()
      ensures asked <==> NoneFits(old(h.free), NUnits(nbytes))
      ensures r == 0 <==> asked && brk == -1
      ensures r == 0 ==> h == old(h)
      ensures r != 0 ==> r - 1 !in old(h.live) && h.live == old(h.live)[r - 1 := NUnits(nbytes)]
      ensures h.owned == old(h.owned) + if asked && r != 0 then Units(brk, Core(NUnits(nbytes))) else {}
    {
      if freep == 0 {
        mem := mem[base := Header(base, 0)];
        freep := base;
        assert LinkAt(mem, h.free, 0);
      }
      r, asked := Search(NUnits(nbytes), brk);
    }

    /** The loop of malloc(): sbrk() is called at most once, when the whole circle was too small; after it
        the walk starts over behind freep and meets the new core, even if that core is part of freep. */
    method Search(n: nat, brk: int) returns (r: int, asked: bool)
      requires Valid() && freep != 0 && n > 0
      requires brk == -1 || (base < brk && Below(h.owned, brk))
      modifies this
      ensures Valid() && freep != 0
      ensures asked <==> NoneFits(old(h.free), n)
      ensures r == 0 <==> asked && brk == -1
      ensures r == 0 ==> h == old(h)
      ensures r != 0 ==> r - 1 !in old(h.live) && h.live == old(h.live)[r - 1 := n]
      ensures h.owned == old(h.owned) + if asked && r != 0 then Units(brk, Core(n)) else {}
    {
      asked := false;
      var prevp := freep;
      ghost var i: nat := at;
      assert LinkAt(mem, h.free, i);
      var p := mem[prevp].ptr;
      while true
        invariant Walking(prevp, p, i, n)
        invariant !asked ==> h == old(h)
        invariant asked ==> brk != -1 && NoneFits(old(h.free), n) && Enlarged(old(h), n, brk)
        decreases !asked, StepsTo(h.free, i, at)
      {
        if mem[p].size >= n {
          r := TakeBlock(prevp, p, n, i);
          return;
        }
        p, asked, i := PassBlock(p, n, brk, asked, i, prevp);
        if p == 0 {
          r := 0;
          return;
        }
        prevp := p;
        p := After(p, i);
      }
    }

    /** The state of the loop of malloc(): prevp is free block i, p the one after it, and every block
        between freep and p is too small. */
    ghost predicate Walking(prevp: int, p: int, i: nat, n: nat)
      reads this
    {
      && Valid() && freep != 0 && PassedSmall(h.free, at, i, n)
      && i < |h.free| && prevp == h.free[i].addr && p == h.free[Next(h.free, i)].addr
      && LinkAt(mem, h.free, Next(h.free, i))
    }

    /** What morecore() did to the heap was. */
    ghost predicate Enlarged(was: HeapModel.Heap, n: nat, brk: int)
      reads this
    {
      h.live == was.live && h.owned == was.owned + Units(brk, Core(n)) && !NoneFits(h.free, n)
    }

    /** The next pointer of free block i. */
    method After(p: int, ghost i: nat) returns (next: int)
      requires Valid() && freep != 0 && i < |h.free| && p == h.free[i].addr
      ensures next == h.free[Next(h.free, i)].addr && LinkAt(mem, h.free, Next(h.free, i))
    {
      assert LinkAt(mem, h.free, i) && LinkAt(mem, h.free, Next(h.free, i));
      next := mem[p].ptr;
    }
  }
}
