/** The heap that umalloc.c manages, apart from how it is linked: the free blocks in address order,
    the blocks handed out, and the units obtained from sbrk().

    Addresses and sizes count in units of sizeof(Header), as the pointer arithmetic of umalloc.c
    does.  The static header base lies below everything sbrk() returns. */
module HeapModel {

  datatype Blk = Blk(addr: int, size: nat)

  predicate Has(b: Blk, u: int) {
    b.addr <= u < b.addr + b.size
  }

  /** Address order with at least a unit between neighbours: no two free blocks touch. */
  predicate Apart(f: seq<Blk>) {
    forall i, j :: 0 <= i < j < |f| ==> f[i].addr + f[i].size < f[j].addr
  }

  /** A free list: base with size 0 first, then nonempty blocks. */
  predicate FreeList(base: int, f: seq<Blk>) {
    |f| > 0 && f[0] == Blk(base, 0) && Apart(f) && Nonempty(f)
  }

  ghost predicate InFree(f: seq<Blk>, u: int) {
    exists i :: 0 <= i < |f| && Has(f[i], u)
  }

  ghost predicate InLive(live: map<int, nat>, u: int) {
    exists a: int :: a in live && Has(Blk(a, live[a]), u)
  }

  datatype Heap = Heap(free: seq<Blk>, live: map<int, nat>, owned: set<int>)

  predicate LiveApart(live: map<int, nat>) {
    forall a: int, b: int :: a in live && b in live && a < b ==> a + live[a] <= b
  }

  /** Free and live blocks are disjoint and together are exactly the units obtained from sbrk(). */
  ghost predicate Partition(h: Heap) {
    && (forall u: int :: u in h.owned <==> InFree(h.free, u) || InLive(h.live, u))
    && (forall u: int :: !(InFree(h.free, u) && InLive(h.live, u)))
  }

  ghost predicate Good(base: int, h: Heap) {
    && FreeList(base, h.free)
    && (forall a: int :: a in h.live ==> h.live[a] > 0 && base < a)
    && LiveApart(h.live) && Partition(h)
  }

  /** Block b fits between free blocks k and k + 1. */
  predicate Fits(f: seq<Blk>, k: nat, b: Blk) {
    && k < |f| && b.size > 0
    && f[k].addr < b.addr && f[k].addr + f[k].size <= b.addr
    && (k + 1 < |f| ==> b.addr + b.size <= f[k + 1].addr)
  }

  /** b put behind block k. */
  function Splice(f: seq<Blk>, k: nat, b: Blk): (r: seq<Blk>)
    requires k < |f|
  {
    seq(|f| + 1, i requires 0 <= i <= |f| => if i <= k then f[i] else if i == k + 1 then b else f[i - 1])
  }

  predicate Touch(f: seq<Blk>, i: nat) {
    i + 1 < |f| && f[i].addr + f[i].size == f[i + 1].addr
  }

  /** Block i swallows block i + 1 if they touch. */
  function Join(f: seq<Blk>, i: nat): (r: seq<Blk>)
    ensures |r| == |f| - if Touch(f, i) then 1 else 0
  {
    if Touch(f, i) then
      seq(|f| - 1, j requires 0 <= j < |f| - 1 =>
        if j < i then f[j] else if j == i then Blk(f[i].addr, f[i].size + f[i + 1].size) else f[j + 1])
    else f
  }

  /** The free blocks after free() puts b behind block k and coalesces, upwards first. */
  function Insert(f: seq<Blk>, k: nat, b: Blk): (r: seq<Blk>)
    requires Fits(f, k, b)
  {
    Join(Join(Splice(f, k, b), k + 1), k)
  }

  predicate Gap(f: seq<Blk>, i: int, j: int, may: set<int>)
    requires 0 <= i < j < |f|
  {
    || f[i].addr + f[i].size < f[j].addr
    || (i in may && j == i + 1 && f[i].addr + f[i].size == f[j].addr)
  }

  /** Blocks in order; only the pairs starting at an index in may may touch. */
  predicate ApartBut(f: seq<Blk>, may: set<int>) {
    forall i, j :: 0 <= i < j < |f| ==> Gap(f, i, j, may)
  }

  lemma SpliceApart(f: seq<Blk>, k: nat, b: Blk)
    requires Apart(f) && Fits(f, k, b)
    ensures ApartBut(Splice(f, k, b), {k, k + 1})
  {}

  lemma JoinApart(f: seq<Blk>, i: nat, may: set<int>)
    requires ApartBut(f, may + {i}) && forall m :: m in may ==> m < i
    ensures ApartBut(Join(f, i), may)
  {
    var r := Join(f, i);
    forall a, c | 0 <= a < c < |r|
      ensures Gap(r, a, c, may)
    {
      var a' := if Touch(f, i) && a >= i then a + 1 else a;
      var c' := if Touch(f, i) && c > i then c + 1 else c;
      assert Gap(f, a', c', may + {i});
    }
  }

  /** Every block but the first is nonempty. */
  predicate Nonempty(f: seq<Blk>) {
    forall i :: 0 < i < |f| ==> f[i].size > 0
  }

  lemma LastJoinApart(f: seq<Blk>, k: nat)
    requires ApartBut(f, {k})
    ensures Apart(Join(f, k))
  {
    assert {k} == {} + {k};
    JoinApart(f, k, {});
    var r := Join(f, k);
    forall i, j | 0 <= i < j < |r|
      ensures r[i].addr + r[i].size < r[j].addr
    {
      assert Gap(r, i, j, {});
    }
  }

  lemma BothJoinsApart(f: seq<Blk>, k: nat)
    requires ApartBut(f, {k, k + 1})
    ensures Apart(Join(Join(f, k + 1), k))
  {
    assert {k, k + 1} == {k} + {k + 1};
    JoinApart(f, k + 1, {k});
    LastJoinApart(Join(f, k + 1), k);
  }

  lemma InsertApart(f: seq<Blk>, k: nat, b: Blk)
    requires Apart(f) && Fits(f, k, b)
    ensures Apart(Insert(f, k, b))
  {
    SpliceApart(f, k, b);
    BothJoinsApart(Splice(f, k, b), k);
  }

  lemma InsertFirst(f: seq<Blk>, k: nat, b: Blk)
    requires Nonempty(f) && Fits(f, k, b) && (k == 0 ==> f[0].size == 0)
    ensures Nonempty(Insert(f, k, b)) && k < |Insert(f, k, b)|
    ensures Insert(f, k, b)[k].addr == f[k].addr && Insert(f, k, b)[0] == f[0]
  {
    var s := Splice(f, k, b);
    var s' := Join(s, k + 1);
    assert Nonempty(s) && Nonempty(s') && s'[k] == f[k] && s'[0] == f[0];
  }

  lemma InsertIsFreeList(base: int, f: seq<Blk>, k: nat, b: Blk)
    requires FreeList(base, f) && Fits(f, k, b)
    ensures FreeList(base, Insert(f, k, b))
    ensures k < |Insert(f, k, b)| && Insert(f, k, b)[k].addr == f[k].addr
  {
    InsertApart(f, k, b);
    InsertFirst(f, k, b);
  }

  lemma SpliceUnits(f: seq<Blk>, k: nat, b: Blk, u: int)
    requires k < |f|
    ensures InFree(Splice(f, k, b), u) <==> InFree(f, u) || Has(b, u)
  {
    var r := Splice(f, k, b);
    if InFree(f, u) {
      var i :| 0 <= i < |f| && Has(f[i], u);
      assert Has(r[if i <= k then i else i + 1], u);
    }
    if Has(b, u) {
      assert Has(r[k + 1], u);
    }
    if InFree(r, u) && !Has(b, u) {
      var j :| 0 <= j < |r| && Has(r[j], u);
      assert Has(f[if j <= k then j else j - 1], u);
    }
  }

  lemma JoinUnits(f: seq<Blk>, i: nat, u: int)
    ensures InFree(Join(f, i), u) <==> InFree(f, u)
  {
    var r := Join(f, i);
    if Touch(f, i) {
      if InFree(f, u) {
        var j :| 0 <= j < |f| && Has(f[j], u);
        assert Has(r[if j <= i then j else j - 1], u);
      }
      if InFree(r, u) {
        var j :| 0 <= j < |r| && Has(r[j], u);
        if j == i {
          assert Has(f[if u < f[i + 1].addr then i else i + 1], u);
        } else {
          assert Has(f[if j < i then j else j + 1], u);
        }
      }
    }
  }

  /** Coalescing gains exactly the units of the freed block. */
  lemma InsertUnits(f: seq<Blk>, k: nat, b: Blk, u: int)
    requires Fits(f, k, b)
    ensures InFree(Insert(f, k, b), u) <==> InFree(f, u) || Has(b, u)
  {
    SpliceUnits(f, k, b, u);
    JoinUnits(Splice(f, k, b), k + 1, u);
    JoinUnits(Join(Splice(f, k, b), k + 1), k, u);
  }

  /** malloc() takes the last n units of free block k, all of it if that is its size. */
  function Take(f: seq<Blk>, k: nat, n: nat): (r: seq<Blk>)
    requires k < |f| && 0 < n <= f[k].size
  {
    if f[k].size == n then
      seq(|f| - 1, i requires 0 <= i < |f| - 1 => if i < k then f[i] else f[i + 1])
    else f[k := Blk(f[k].addr, f[k].size - n)]
  }

  function TakenAddr(f: seq<Blk>, k: nat, n: nat): (a: int)
    requires k < |f| && 0 < n <= f[k].size
  {
    f[k].addr + f[k].size - n
  }

  lemma TakeIsFreeList(base: int, f: seq<Blk>, k: nat, n: nat)
    requires FreeList(base, f) && k < |f| && 0 < n <= f[k].size
    ensures k > 0 && FreeList(base, Take(f, k, n))
  {}

  /** The units of f are those left after the take and those taken. */
  lemma TakeUnits(f: seq<Blk>, k: nat, n: nat, u: int)
    requires k < |f| && 0 < n <= f[k].size
    ensures InFree(f, u) <==> InFree(Take(f, k, n), u) || Has(Blk(TakenAddr(f, k, n), n), u)
  {
    var r, got := Take(f, k, n), Blk(TakenAddr(f, k, n), n);
    if InFree(f, u) && !Has(got, u) {
      var i :| 0 <= i < |f| && Has(f[i], u);
      assert Has(r[if f[k].size == n && i > k then i - 1 else i], u);
    }
    if Has(got, u) {
      assert Has(f[k], u);
    }
    if InFree(r, u) {
      var j :| 0 <= j < |r| && Has(r[j], u);
      assert Has(f[if f[k].size == n && j >= k then j + 1 else j], u);
    }
  }

  lemma TakeDisjoint(f: seq<Blk>, k: nat, n: nat, u: int)
    requires Apart(f) && k < |f| && 0 < n <= f[k].size && Has(Blk(TakenAddr(f, k, n), n), u)
    ensures !InFree(Take(f, k, n), u)
  {}

  // The heap operations.

  /** Free block k is the last one below address a. */
  predicate IsBelow(f: seq<Blk>, k: nat, a: int) {
    k < |f| && f[k].addr < a && (k + 1 < |f| ==> a < f[k + 1].addr)
  }

  /** The walk of free() ends: some free block is the last one below a. */
  ghost function FindBelow(f: seq<Blk>, a: int): (k: nat)
    requires |f| > 0 && f[0].addr < a
    ensures IsBelow(f, k, a) || exists i :: 0 <= i < |f| && f[i].addr == a
    ensures k < |f|
    decreases |f|
  {
    if f[|f| - 1].addr < a || |f| == 1 then |f| - 1 else FindBelow(f[..|f| - 1], a)
  }

  function Freed(h: Heap, a: int, k: nat): (r: Heap)
    requires a in h.live && Fits(h.free, k, Blk(a, h.live[a]))
  {
    Heap(Insert(h.free, k, Blk(a, h.live[a])), h.live - {a}, h.owned)
  }

  function Taken(h: Heap, k: nat, n: nat): (r: Heap)
    requires k < |h.free| && 0 < n <= h.free[k].size
  {
    Heap(Take(h.free, k, n), h.live[TakenAddr(h.free, k, n) := n], h.owned)
  }

  function Units(a: int, n: nat): (s: set<int>) {
    set u: int | a <= u < a + n && Has(Blk(a, n), u)
  }

  /** n new units at a from sbrk(), not yet freed into the list. */
  function Grown(h: Heap, a: int, n: nat): (r: Heap) {
    Heap(h.free, h.live[a := n], h.owned + Units(a, n))
  }

  /** A live block never overlaps a free one, so it fits where its address puts it. */
  lemma LiveFits(base: int, h: Heap, a: int, k: nat)
    requires Good(base, h) && a in h.live && IsBelow(h.free, k, a)
    ensures Fits(h.free, k, Blk(a, h.live[a]))
  {
    var b := Blk(a, h.live[a]);
    if h.free[k].addr + h.free[k].size > a {
      assert Has(h.free[k], a) && Has(b, a);
      assert InFree(h.free, a) && InLive(h.live, a);
    }
    if k + 1 < |h.free| && b.addr + b.size > h.free[k + 1].addr {
      var u := h.free[k + 1].addr;
      assert Has(h.free[k + 1], u) && Has(b, u);
      assert InFree(h.free, u) && InLive(h.live, u);
    }
  }

  lemma LiveWithout(live: map<int, nat>, a: int, u: int)
    requires a in live && LiveApart(live)
    ensures InLive(live - {a}, u) <==> InLive(live, u) && !Has(Blk(a, live[a]), u)
  {
    var rest := live - {a};
    if InLive(live, u) && !Has(Blk(a, live[a]), u) {
      var c: int :| c in live && Has(Blk(c, live[c]), u);
      assert c in rest && Has(Blk(c, rest[c]), u);
    }
    if InLive(rest, u) {
      var c: int :| c in rest && Has(Blk(c, rest[c]), u);
      assert c in live && Has(Blk(c, live[c]), u);
      assert c != a;
      assert c < a ==> c + live[c] <= a;
      assert a < c ==> a + live[a] <= c;
    }
  }

  lemma LiveWith(live: map<int, nat>, a: int, n: nat, u: int)
    requires a !in live
    ensures InLive(live[a := n], u) <==> InLive(live, u) || Has(Blk(a, n), u)
  {
    var more := live[a := n];
    if InLive(live, u) {
      var c: int :| c in live && Has(Blk(c, live[c]), u);
      assert c in more && Has(Blk(c, more[c]), u);
    }
    if Has(Blk(a, n), u) {
      assert a in more && Has(Blk(a, more[a]), u);
    }
    if InLive(more, u) {
      var c: int :| c in more && Has(Blk(c, more[c]), u);
      assert c != a ==> c in live && Has(Blk(c, live[c]), u);
    }
  }

  lemma FreeKeeps(base: int, h: Heap, a: int, k: nat)
    requires Good(base, h) && a in h.live && Fits(h.free, k, Blk(a, h.live[a]))
    ensures Good(base, Freed(h, a, k))
  {
    var r := Freed(h, a, k);
    InsertIsFreeList(base, h.free, k, Blk(a, h.live[a]));
    forall u: int
      ensures InFree(r.free, u) <==> InFree(h.free, u) || Has(Blk(a, h.live[a]), u)
      ensures InLive(r.live, u) <==> InLive(h.live, u) && !Has(Blk(a, h.live[a]), u)
      ensures Has(Blk(a, h.live[a]), u) ==> InLive(h.live, u)
    {
      InsertUnits(h.free, k, Blk(a, h.live[a]), u);
      LiveWithout(h.live, a, u);
    }
  }

  /** A block taken from the free list overlaps no live block. */
  lemma TakenIsNew(base: int, h: Heap, k: nat, n: nat)
    requires Good(base, h) && k < |h.free| && 0 < n <= h.free[k].size
    ensures var a := TakenAddr(h.free, k, n);
            && a !in h.live && base < a && LiveApart(h.live[a := n])
  {
    var a := TakenAddr(h.free, k, n);
    assert h.free[0].addr + h.free[0].size < h.free[k].addr;
    forall u: int | Has(Blk(a, n), u)
      ensures InFree(h.free, u) && !InLive(h.live, u)
    {
      assert Has(h.free[k], u);
    }
    forall c: int | c in h.live
      ensures c != a && (c < a ==> c + h.live[c] <= a) && (a < c ==> a + n <= c)
    {
      assert Has(Blk(c, h.live[c]), c);
      assert InLive(h.live, c);
      assert Has(Blk(a, n), a);
      assert !InLive(h.live, a);
      assert !Has(Blk(c, h.live[c]), a);
    }
  }

  lemma TakeKeeps(base: int, h: Heap, k: nat, n: nat)
    requires Good(base, h) && k < |h.free| && 0 < n <= h.free[k].size
    ensures Good(base, Taken(h, k, n))
  {
    var a := TakenAddr(h.free, k, n);
    var r := Taken(h, k, n);
    TakeIsFreeList(base, h.free, k, n);
    TakenIsNew(base, h, k, n);
    forall u: int
      ensures InFree(h.free, u) <==> InFree(r.free, u) || Has(Blk(a, n), u)
      ensures Has(Blk(a, n), u) ==> !InFree(r.free, u)
      ensures InLive(r.live, u) <==> InLive(h.live, u) || Has(Blk(a, n), u)
    {
      TakeUnits(h.free, k, n, u);
      LiveWith(h.live, a, n, u);
      if Has(Blk(a, n), u) {
        TakeDisjoint(h.free, k, n, u);
      }
    }
  }

  lemma GrowKeeps(base: int, h: Heap, a: int, n: nat)
    requires Good(base, h) && base < a && n > 0 && forall u: int :: u in h.owned ==> u < a
    ensures a !in h.live && Good(base, Grown(h, a, n))
  {
    forall c: int | c in h.live
      ensures c + h.live[c] <= a
    {
      assert Has(Blk(c, h.live[c]), c + h.live[c] - 1);
      assert InLive(h.live, c + h.live[c] - 1);
    }
    var r := Grown(h, a, n);
    forall u: int
      ensures InLive(r.live, u) <==> InLive(h.live, u) || Has(Blk(a, n), u)
      ensures InFree(h.free, u) ==> u in h.owned
    {
      LiveWith(h.live, a, n, u);
    }
  }

  /** The unit just past a free block is not free. */
  lemma PastIsNotFree(f: seq<Blk>, i: nat)
    requires Apart(f) && Nonempty(f) && 0 < i < |f|
    ensures !InFree(f, f[i].addr + f[i].size)
  {}

  /** If the free units are exactly those of one interval, the list is one block. */
  lemma FreeIntervalIsOneBlock(base: int, f: seq<Blk>, lo: int, n: nat)
    requires FreeList(base, f) && n > 0 && forall u: int :: InFree(f, u) <==> lo <= u < lo + n
    ensures f == [Blk(base, 0), Blk(lo, n)]
  {
    assert InFree(f, lo);
    var i :| 0 <= i < |f| && Has(f[i], lo);
    assert i > 0;
    assert Has(f[i], f[i].addr) && Has(f[i], f[i].addr + f[i].size - 1);
    assert InFree(f, f[i].addr) && InFree(f, f[i].addr + f[i].size - 1);
    PastIsNotFree(f, i);
    assert f[i] == Blk(lo, n);
    var first, last := f[1], f[|f| - 1];
    forall j | 0 < j < |f|
      ensures lo <= f[j].addr < lo + n && j == i
    {
      assert Has(f[j], f[j].addr);
      assert InFree(f, f[j].addr);
    }
  }

  /** If each sbrk() continues where the last one ended, the heap stays one stretch. */
  lemma StaysContiguous(h: Heap, lo: int, n: nat, m: nat)
    requires h.owned == Units(lo, n)
    ensures Grown(h, lo + n, m).owned == Units(lo, n + m)
  {}

  /** When nothing is live and sbrk() gave one contiguous stretch, the list is one block, the whole
      stretch. */
  lemma AllFreedIsOneBlock(base: int, h: Heap, lo: int, n: nat)
    requires Good(base, h) && h.live == map[] && n > 0 && h.owned == Units(lo, n)
    ensures h.free == [Blk(base, 0), Blk(lo, n)]
  {
    forall u: int
      ensures InFree(h.free, u) <==> lo <= u < lo + n
    {
      assert !InLive(h.live, u);
      assert u in h.owned <==> Has(Blk(lo, n), u);
    }
    FreeIntervalIsOneBlock(base, h.free, lo, n);
  }

  predicate IsBlock(f: seq<Blk>, b: Blk) {
    exists i :: 0 < i < |f| && f[i] == b
  }

  predicate BlocksOf(f: seq<Blk>, g: seq<Blk>) {
    forall i :: 0 < i < |f| ==> IsBlock(g, f[i])
  }

  /** Each block of one free list is a block of any other with the same units. */
  lemma SameBlock(f: seq<Blk>, g: seq<Blk>, i: nat)
    requires Apart(f) && Nonempty(f) && Apart(g) && Nonempty(g) && 0 < i < |f|
    requires f[0].size == 0 && |g| > 0 && g[0].size == 0
    requires forall u: int :: InFree(f, u) <==> InFree(g, u)
    ensures IsBlock(g, f[i])
  {
    var a, last := f[i].addr, f[i].addr + f[i].size - 1;
    assert Has(f[i], a);
    assert InFree(f, a);
    var j :| 0 <= j < |g| && Has(g[j], a);
    PastIsNotFree(f, i);
    PastIsNotFree(g, j);
    BeforeIsNotFree(f, i);
    BeforeIsNotFree(g, j);
    assert !Has(g[j], a - 1) && !Has(f[i], g[j].addr + g[j].size) && !Has(g[j], last + 1);
  }

  lemma BeforeIsNotFree(f: seq<Blk>, i: nat)
    requires Apart(f) && Nonempty(f) && 0 < i < |f|
    ensures !InFree(f, f[i].addr - 1)
  {}

  /** Blocks in address order that are all blocks of g come no earlier in f than in g. */
  lemma {:induction false} RankAtMost(f: seq<Blk>, g: seq<Blk>, i: nat, j: nat)
    requires Apart(f) && Apart(g) && BlocksOf(f, g)
    requires 0 < i < |f| && 0 < j < |g| && f[i] == g[j]
    ensures i <= j
    decreases i
  {
    if i > 1 {
      assert IsBlock(g, f[i - 1]);
      var c :| 0 < c < |g| && g[c] == f[i - 1];
      RankAtMost(f, g, i - 1, c);
    }
  }

  lemma SameRank(f: seq<Blk>, g: seq<Blk>, i: nat)
    requires Apart(f) && Apart(g) && BlocksOf(f, g) && BlocksOf(g, f) && 0 < i < |f|
    ensures i < |g| && g[i] == f[i]
  {
    assert IsBlock(g, f[i]);
    var j :| 0 < j < |g| && g[j] == f[i];
    RankAtMost(f, g, i, j);
    RankAtMost(g, f, j, i);
  }

  lemma SameLength(f: seq<Blk>, g: seq<Blk>)
    requires Apart(f) && Apart(g) && BlocksOf(f, g) && BlocksOf(g, f) && |f| > 0 && |g| > 0
    ensures |f| == |g|
  {
    if |f| > 1 {
      SameRank(f, g, |f| - 1);
    }
    if |g| > 1 {
      SameRank(g, f, |g| - 1);
    }
  }

  /** The free list is determined by the free units: whatever the order of calls, the same units free
      means the same list. */
  lemma FreeListUnique(base: int, f: seq<Blk>, g: seq<Blk>)
    requires FreeList(base, f) && FreeList(base, g) && forall u: int :: InFree(f, u) <==> InFree(g, u)
    ensures f == g
  {
    forall i | 0 < i < |f| ensures IsBlock(g, f[i]) {
      SameBlock(f, g, i);
    }
    forall i | 0 < i < |g| ensures IsBlock(f, g[i]) {
      SameBlock(g, f, i);
    }
    SameLength(f, g);
    forall i | 0 <= i < |f| ensures f[i] == g[i] {
      if i > 0 {
        SameRank(f, g, i);
      }
    }
  }

  /** free() undoes a malloc() that needed no new core, whatever splits and joins the two made. */
  lemma FreeUndoesTake(base: int, h: Heap, k: nat, n: nat, j: nat)
    requires Good(base, h) && k < |h.free| && 0 < n <= h.free[k].size
    requires IsBelow(Take(h.free, k, n), j, TakenAddr(h.free, k, n))
    ensures var a := TakenAddr(h.free, k, n);
            && Fits(Taken(h, k, n).free, j, Blk(a, n)) && Freed(Taken(h, k, n), a, j) == h
  {
    var a := TakenAddr(h.free, k, n);
    var t := Taken(h, k, n);
    TakeKeeps(base, h, k, n);
    TakenIsNew(base, h, k, n);
    LiveFits(base, t, a, j);
    var r := Freed(t, a, j);
    FreeKeeps(base, t, a, j);
    forall u: int
      ensures InFree(r.free, u) <==> InFree(h.free, u)
    {
      InsertUnits(t.free, j, Blk(a, n), u);
      TakeUnits(h.free, k, n, u);
    }
    FreeListUnique(base, r.free, h.free);
    assert r.live == h.live;
  }
}
