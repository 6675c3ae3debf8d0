/** kalloc.c and the user half of vm.c, storing into physical memory in place: kalloc(), kfree(),
    walkpgdir(), mappages() of a page, allocuvm(), deallocuvm() and freevm(). */
module PageTable {
  import opened PageMap

  const KERNBASE := 0x8000_0000
  const UINT: int := 0x1_0000_0000
  const USER := 7 // PTE_P | PTE_W | PTE_U

  /** PGROUNDUP, in pages. */
  function Up(sz: nat): (n: nat)
    ensures sz <= n * 4096 < sz + 4096
  {
    (sz + PGSIZE - 1) / PGSIZE
  }

  /** The free list runs through the first word of each free page; 0 ends it. */
  predicate Listed(m: Memory, lo: nat, hi: nat, head: nat, free: seq<nat>) {
    && head == (if |free| > 0 then free[0] else 0)
    && (forall i :: 0 <= i < |free| ==> ListedAt(m, lo, hi, free, i))
    && Distinct(free)
  }

  predicate ListedAt(m: Memory, lo: nat, hi: nat, free: seq<nat>, i: nat) {
    && i < |free| && lo <= free[i] < hi <= |m|
    && m[free[i]][0] == if i + 1 < |free| then free[i + 1] else 0
  }

  /** A freed page: junk, but for the link to the next one. */
  function Junk(next: nat): (p: Page)
    ensures p[0] == next && forall i :: 0 < i < 1024 ==> p[i] == 0x0101_0101
  {
    seq(ENTRIES, i requires 0 <= i < ENTRIES => if i == 0 then next else 0x0101_0101)
  }

  predicate InOne(own: Owners, free: seq<nat>, p: nat) {
    !(p in own && p in free)
  }

  ghost predicate Apart(own: Owners, free: seq<nat>) {
    forall p: nat :: InOne(own, free, p)
  }

  ghost function FreeSet(free: seq<nat>): (s: set<nat>) {
    set p | p in free
  }

  lemma PopListed(m: Memory, lo: nat, hi: nat, head: nat, free: seq<nat>)
    requires Listed(m, lo, hi, head, free) && |free| > 0 && lo > 0
    ensures lo <= head < hi <= |m| && Listed(m, lo, hi, m[head][0], free[1..]) && head == free[0] && head !in free[1..]
  {
    assert ListedAt(m, lo, hi, free, 0);
    DistinctTail(free);
    forall i | 0 <= i < |free| - 1 ensures ListedAt(m, lo, hi, free[1..], i) {
      assert ListedAt(m, lo, hi, free, i + 1);
    }
  }

  lemma PushListed(m: Memory, lo: nat, hi: nat, head: nat, free: seq<nat>, p: nat)
    requires Listed(m, lo, hi, head, free) && lo <= p < hi <= |m| && p !in free
    ensures Listed(m[p := Junk(head)], lo, hi, p, [p] + free)
  {
    var m', f := m[p := Junk(head)], [p] + free;
    DistinctCons(p, free);
    forall i | 0 <= i < |f| ensures ListedAt(m', lo, hi, f, i) {
      if i > 0 {
        assert ListedAt(m, lo, hi, free, i - 1);
      }
    }
  }

  /** Writing a page that is not free keeps the list. */
  lemma StillListed(m: Memory, lo: nat, hi: nat, head: nat, free: seq<nat>, p: nat, x: Page)
    requires Listed(m, lo, hi, head, free) && p < |m| && p !in free
    ensures Listed(m[p := x], lo, hi, head, free)
  {
    var m' := m[p := x];
    forall i | 0 <= i < |free| ensures ListedAt(m', lo, hi, free, i) {
      assert ListedAt(m, lo, hi, free, i);
    }
  }

  lemma NotFree(own: Owners, free: seq<nat>, p: nat)
    requires Apart(own, free) && p in own
    ensures p !in free
  {
    assert InOne(own, free, p);
  }

  /** A page off the free list is nobody's, or the taker's. */
  lemma PopApart(own: Owners, free: seq<nat>, p: nat, rest: seq<nat>, r: Role)
    requires Apart(own, free) && free == [p] + rest && p !in rest
    ensures p !in own && Apart(own, rest) && Apart(own[p := r], rest)
  {
    assert p in free;
    assert InOne(own, free, p);
    forall q: nat ensures InOne(own, rest, q) {
      assert InOne(own, free, q);
      assert q in rest ==> q in free;
    }
    TakeApart(own, rest, p, r);
  }

  lemma TakeApart(own: Owners, free: seq<nat>, p: nat, r: Role)
    requires Apart(own, free) && p !in free
    ensures Apart(own[p := r], free)
  {
    var more := own[p := r];
    forall q: nat ensures InOne(more, free, q) {
      assert InOne(own, free, q);
    }
  }

  lemma PushApart(own: Owners, free: seq<nat>, p: nat)
    requires Apart(own, free)
    ensures Apart(own - {p}, [p] + free) && (p !in own ==> Apart(own, [p] + free))
  {
    var less, more := own - {p}, [p] + free;
    forall q: nat ensures InOne(less, more, q) && (p !in own ==> InOne(own, more, q)) {
      assert InOne(own, free, q);
    }
  }

  /** The owned pages that are not user pages in gone. */
  function Dropped(own: Owners, gone: set<nat>): (r: Owners) {
    map p | p in own && !(own[p].Data? && own[p].n in gone) :: own[p]
  }

  /** User pages n < k keep page and contents. */
  ghost predicate UserSame(m: Memory, m': Memory, d: nat, k: nat) {
    && |m'| == |m|
    && forall n: nat {:trigger PageOf(m', d, Data(n))} :: n < k && n < USERPAGES ==>
         && PageOf(m', d, Data(n)) == PageOf(m, d, Data(n)) && EntryOf(m', d, Data(n)) == EntryOf(m, d, Data(n))
         && (0 <= PageOf(m, d, Data(n)) < |m| ==> m'[PageOf(m, d, Data(n))] == m[PageOf(m, d, Data(n))])
  }

  /** Every user page but n keeps page and contents. */
  ghost predicate UserSameBut(m: Memory, m': Memory, d: nat, n: nat) {
    && |m'| == |m|
    && forall k: nat {:trigger PageOf(m', d, Data(k))} :: k < USERPAGES && k != n ==>
         && PageOf(m', d, Data(k)) == PageOf(m, d, Data(k)) && EntryOf(m', d, Data(k)) == EntryOf(m, d, Data(k))
         && (0 <= PageOf(m, d, Data(k)) < |m| ==> m'[PageOf(m, d, Data(k))] == m[PageOf(m, d, Data(k))])
  }

  /** Pages outside the address space and the pool are untouched. */
  ghost predicate Strangers(m: Memory, m': Memory, pages: set<nat>) {
    |m'| == |m| && forall p: nat :: p < |m| && p !in pages ==> SameAt(m, m', p)
  }

  predicate SameAt(m: Memory, m': Memory, p: nat) {
    p < |m| && p < |m'| && m'[p] == m[p]
  }

  lemma StrangersTrans(m0: Memory, m: Memory, m': Memory, pages: set<nat>)
    requires Strangers(m0, m, pages) && Strangers(m, m', pages)
    ensures Strangers(m0, m', pages)
  {
    forall p: nat | p < |m0| && p !in pages ensures SameAt(m0, m', p) {
      assert SameAt(m0, m, p) && SameAt(m, m', p);
    }
  }

  /** p, taken from the pages, was written; then others of them were. */
  lemma HandStrangers(m0: Memory, m: Memory, m': Memory, pages: set<nat>, p: nat)
    requires p < |m0| && p in pages && m == m0[p := Zeroes()] && Strangers(m, m', pages - {p})
    ensures Strangers(m0, m', pages) && SameAt(m, m', p)
  {
    forall q: nat | q < |m0| && q !in pages ensures SameAt(m0, m', q) {
      assert SameAt(m, m', q);
    }
  }

  function DataOf(own: Owners): (s: set<nat>) {
    set p | p in own && own[p].Data?
  }

  lemma DataOwned(m: Memory, lo: nat, hi: nat, d: nat, own: Owners, n: nat)
    requires Owned(m, lo, hi, d, own) && n < USERPAGES && PageOf(m, d, Data(n)) != -1
    ensures var p := PageOf(m, d, Data(n)); p in own && own[p] == Data(n) && lo <= p < hi
  {
    assert OwnedAt(m, lo, hi, d, own, PageOf(m, d, Data(n)));
  }

  lemma AddTableSame(m: Memory, lo: nat, hi: nat, d: nat, own: Owners, i: nat, t: nat)
    requires Owned(m, lo, hi, d, own) && i < ENTRIES && Target(m, d, i) == -1 && lo <= t < hi && t !in own
    ensures d < |m| && UserSame(m, AddTable(m, d, i, t), d, USERPAGES)
    ensures PageOf(AddTable(m, d, i, t), d, Table(i)) == t
  {
    assert OwnedAt(m, lo, hi, d, own, d);
    AddTableRoles(m, lo, hi, d, own, i, t, Table(i));
    var m' := AddTable(m, d, i, t);
    forall n: nat | n < USERPAGES
      ensures PageOf(m', d, Data(n)) == PageOf(m, d, Data(n)) && EntryOf(m', d, Data(n)) == EntryOf(m, d, Data(n))
      ensures PageOf(m, d, Data(n)) != -1 ==> PageOf(m, d, Data(n)) in own && own[PageOf(m, d, Data(n))] == Data(n)
    {
      AddTableRoles(m, lo, hi, d, own, i, t, Data(n));
    }
  }

  lemma AddDataSame(m: Memory, lo: nat, hi: nat, d: nat, own: Owners, n: nat, p: nat)
    requires Owned(m, lo, hi, d, own) && n < USERPAGES && TableOf(m, d, n) != -1
    ensures 0 <= TableOf(m, d, n) < |m| && UserSameBut(m, AddData(m, d, n, p, USER), d, n)
    ensures PageOf(AddData(m, d, n, p, USER), d, Data(n)) == p
    ensures EntryOf(AddData(m, d, n, p, USER), d, Data(n)) % 8 == 7
  {
    TableOwned(m, lo, hi, d, own, n);
    AddDataRoles(m, lo, hi, d, own, n, p, USER, Data(n));
    var m' := AddData(m, d, n, p, USER);
    forall k: nat | k < USERPAGES && k != n
      ensures PageOf(m', d, Data(k)) == PageOf(m, d, Data(k)) && EntryOf(m', d, Data(k)) == EntryOf(m, d, Data(k))
      ensures PageOf(m, d, Data(k)) != -1 ==> PageOf(m, d, Data(k)) in own && own[PageOf(m, d, Data(k))] == Data(k)
    {
      AddDataRoles(m, lo, hi, d, own, n, p, USER, Data(k));
    }
  }

  /** The user pages in gone are unmapped, and their pages no longer owned; all else is as in m0. */
  ghost predicate DroppedAll(m0: Memory, own0: Owners, m: Memory, own: Owners, d: nat, gone: set<nat>) {
    && |m| == |m0| && d < |m| && m[d] == m0[d] && own == Dropped(own0, gone)
    && forall n: nat {:trigger PageOf(m, d, Data(n))} :: n < USERPAGES ==>
         && PageOf(m, d, Data(n)) == (if n in gone then -1 else PageOf(m0, d, Data(n)))
         && EntryOf(m, d, Data(n)) == (if n in gone then 0 else EntryOf(m0, d, Data(n)))
         && (0 <= PageOf(m, d, Data(n)) < |m| ==> m[PageOf(m, d, Data(n))] == m0[PageOf(m, d, Data(n))])
  }

  /** deallocuvm() reaches user page n on its way from page s to page e. */
  predicate Reached(m: Memory, d: nat, s: nat, e: nat, n: nat) {
    s <= n < e && !Skipped(m, d, s, n)
  }

  /** What deallocuvm() from page s to page e does to any page table: exactly the user pages it reaches are
      unmapped and no longer owned; every other keeps page and contents. */
  ghost predicate Unmapped(m0: Memory, own0: Owners, m: Memory, own: Owners, d: nat, s: nat, e: nat) {
    && |m| == |m0| && d < |m| && m[d] == m0[d]
    && own == (map p | p in own0 && !(own0[p].Data? && Reached(m0, d, s, e, own0[p].n)) :: own0[p])
    && forall n: nat {:trigger PageOf(m, d, Data(n))} :: n < USERPAGES ==>
         && PageOf(m, d, Data(n)) == (if Reached(m0, d, s, e, n) then -1 else PageOf(m0, d, Data(n)))
         && EntryOf(m, d, Data(n)) == (if Reached(m0, d, s, e, n) then 0 else EntryOf(m0, d, Data(n)))
         && (0 <= PageOf(m, d, Data(n)) < |m| ==> m[PageOf(m, d, Data(n))] == m0[PageOf(m, d, Data(n))])
  }

  /** The pages met so far and those still ahead of page a are those of the whole walk. */
  ghost predicate OnTheWay(m0: Memory, d: nat, s: nat, e: nat, a: nat, gone: set<nat>) {
    forall n: nat {:trigger Visits(m0, d, s, e, n)} :: Visits(m0, d, s, e, n) <==> n in gone || Visits(m0, d, a, e, n)
  }

  /** At the end of the walk the pages met are those it reaches. */
  lemma WalkIsExact(m0: Memory, lo: nat, hi: nat, own0: Owners, m: Memory, own: Owners, d: nat, s: nat, e: nat, a: nat,
                    gone: set<nat>)
    requires Owned(m0, lo, hi, d, own0) && DroppedAll(m0, own0, m, own, d, gone)
    requires OnTheWay(m0, d, s, e, a, gone) && a >= e
    ensures Unmapped(m0, own0, m, own, d, s, e)
  {
    forall n: nat | n < USERPAGES && TableOf(m0, d, n) != -1
      ensures n in gone <==> Reached(m0, d, s, e, n)
    {
      VisitsExactly(m0, d, s, e, n);
    }
    forall p: nat | p in own0 && own0[p].Data?
      ensures own0[p].n in gone <==> Reached(m0, d, s, e, own0[p].n)
    {
      assert OwnedAt(m0, lo, hi, d, own0, p);
    }
  }

  /** Nothing is at a, so nothing changes. */
  lemma NothingThere(m0: Memory, lo: nat, hi: nat, own0: Owners, m: Memory, own: Owners, d: nat, gone: set<nat>, a: nat)
    requires Owned(m0, lo, hi, d, own0) && Owned(m, lo, hi, d, own) && DroppedAll(m0, own0, m, own, d, gone)
    requires a < USERPAGES && PageOf(m, d, Data(a)) == -1
    ensures DroppedAll(m0, own0, m, own, d, gone + {a})
  {
    assert own == Dropped(own0, gone + {a}) by {
      forall p: nat | p in own0 && own0[p] == Data(a) ensures a in gone {
        assert OwnedAt(m0, lo, hi, d, own0, p);
      }
    }
  }

  /** The memory after kfree() of user page n and the clearing of its entry. */
  function FreedData(m: Memory, d: nat, n: nat, p: nat, next: nat): (r: Memory)
    requires p < |m| && 0 <= TableOf(m[p := Junk(next)], d, n) < |m|
  {
    DropData(m[p := Junk(next)], d, n)
  }

  lemma FreedDataKeeps(m: Memory, lo: nat, hi: nat, d: nat, own: Owners, n: nat, next: nat)
    requires Owned(m, lo, hi, d, own) && n < USERPAGES && PageOf(m, d, Data(n)) != -1
    ensures var p := PageOf(m, d, Data(n));
            && lo <= p < hi && TableOf(m[p := Junk(next)], d, n) == TableOf(m, d, n) && 0 <= TableOf(m, d, n) < |m|
            && TableOf(m, d, n) in own && own[TableOf(m, d, n)].Table?
            && Owned(FreedData(m, d, n, p, next), lo, hi, d, own - {p})
            && UserSameBut(m, FreedData(m, d, n, p, next), d, n)
            && PageOf(FreedData(m, d, n, p, next), d, Data(n)) == -1
  {
    var p := PageOf(m, d, Data(n));
    DataOwned(m, lo, hi, d, own, n);
    TableOwned(m, lo, hi, d, own, n);
    var m1 := m[p := Junk(next)];
    OutsideKeeps(m, m1, lo, hi, d, own);
    Outside(m, m1, lo, hi, d, own, Table(n / ENTRIES));
    Outside(m, m1, lo, hi, d, own, Data(n));
    DropDataKeeps(m1, lo, hi, d, own, n);
    DropDataRoles(m1, lo, hi, d, own, n, Data(n));
    var m' := DropData(m1, d, n);
    forall k: nat | k < USERPAGES && k != n
      ensures PageOf(m', d, Data(k)) == PageOf(m, d, Data(k)) && EntryOf(m', d, Data(k)) == EntryOf(m, d, Data(k))
      ensures PageOf(m, d, Data(k)) != -1 ==> PageOf(m, d, Data(k)) in own && own[PageOf(m, d, Data(k))] == Data(k)
    {
      Outside(m, m1, lo, hi, d, own, Data(k));
      DropDataRoles(m1, lo, hi, d, own, n, Data(k));
    }
  }

  lemma DropNext(m0: Memory, lo: nat, hi: nat, own0: Owners, m: Memory, own: Owners, m': Memory, d: nat, gone: set<nat>,
                 a: nat)
    requires Owned(m0, lo, hi, d, own0) && DroppedAll(m0, own0, m, own, d, gone) && a < USERPAGES
    requires Owned(m, lo, hi, d, own) && PageOf(m, d, Data(a)) != -1
    requires UserSameBut(m, m', d, a) && PageOf(m', d, Data(a)) == -1 && m'[d] == m[d]
    ensures DroppedAll(m0, own0, m', own - {PageOf(m, d, Data(a))}, d, gone + {a})
  {
    var p := PageOf(m, d, Data(a));
    DataOwned(m, lo, hi, d, own, a);
    forall q: nat | q in own0
      ensures q != p <==> own0[q] != Data(a)
    {
      assert OwnedAt(m0, lo, hi, d, own0, q);
    }
    assert own - {p} == Dropped(own0, gone + {a});
  }

  /** A page in hand may be written. */
  lemma HandSame(m: Memory, lo: nat, hi: nat, d: nat, own: Owners, p: nat)
    requires Owned(m, lo, hi, d, own) && p < |m| && p !in own
    ensures UserSame(m, m[p := Zeroes()], d, USERPAGES)
  {
    forall n: nat | n < USERPAGES
      ensures PageOf(m[p := Zeroes()], d, Data(n)) == PageOf(m, d, Data(n))
      ensures PageOf(m, d, Data(n)) != -1 ==> PageOf(m, d, Data(n)) in own
    {
      Outside(m, m[p := Zeroes()], lo, hi, d, own, Data(n));
    }
  }

  // How many pages a growth takes.

  /** Pages for mapping user page a: itself, and its table if that is missing. */
  function Cost(m: Memory, d: nat, a: nat): (n: nat) {
    1 + if TableOf(m, d, a) == -1 then 1 else 0
  }

  function Missing(m: Memory, d: nat, i: nat, j: nat): (n: nat)
    decreases j
  {
    if i >= j then 0 else Missing(m, d, i, j - 1) + if Target(m, d, j - 1) == -1 then 1 else 0
  }

  /** The first table past user page a. */
  function TableUp(a: nat): (i: nat) {
    (a + ENTRIES - 1) / ENTRIES
  }

  /** Pages for growing from k user pages to a: the pages and the tables among them that are missing. */
  function Spent(m: Memory, d: nat, k: nat, a: nat): (n: int) {
    a - k + Missing(m, d, k / ENTRIES, TableUp(a))
  }

  predicate DirAt(m: Memory, m': Memory, d: nat, i: nat) {
    EntryOf(m', d, Table(i)) == EntryOf(m, d, Table(i))
    || (EntryOf(m, d, Table(i)) == 0 && EntryOf(m', d, Table(i)) % 8 == 7)
  }

  /** Entries of the directory are as they were; new ones have PTE_P, PTE_W and PTE_U set. */
  ghost predicate DirGrown(m: Memory, m': Memory, d: nat) {
    forall i: nat :: i < ENTRIES ==> DirAt(m, m', d, i)
  }

  lemma DirGrownTrans(m0: Memory, m: Memory, m': Memory, d: nat)
    requires DirGrown(m0, m, d) && DirGrown(m, m', d)
    ensures DirGrown(m0, m', d)
  {
    forall i: nat | i < ENTRIES ensures DirAt(m0, m', d, i) {
      assert DirAt(m0, m, d, i) && DirAt(m, m', d, i);
    }
  }

  lemma SameDir(m: Memory, m': Memory, d: nat)
    requires d < |m| && d < |m'| && m'[d] == m[d]
    ensures DirGrown(m, m', d)
  {}

  lemma AddTableDir(m: Memory, lo: nat, hi: nat, d: nat, own: Owners, i: nat, t: nat)
    requires Owned(m, lo, hi, d, own) && i < ENTRIES && Target(m, d, i) == -1 && lo <= t < hi && t !in own
    ensures d < |m| && DirGrown(m, AddTable(m, d, i, t), d)
  {
    assert OwnedAt(m, lo, hi, d, own, d);
    forall j: nat | j < ENTRIES ensures DirAt(m, AddTable(m, d, i, t), d, j) {
      AddTableRoles(m, lo, hi, d, own, i, t, Table(j));
    }
  }

  /** Where all page tables could be used by the user, they still can, the new ones too. */
  lemma TablesStayOpen(m: Memory, m': Memory, d: nat, n: nat)
    requires DirGrown(m, m', d) && n < USERPAGES && TableOf(m', d, n) != -1
    requires forall i: nat {:trigger EntryOf(m, d, Table(i))} :: i < ENTRIES && EntryOf(m, d, Table(i)) != 0 ==>
               EntryOf(m, d, Table(i)) % 8 == 7
    ensures EntryOf(m', d, Table(n / ENTRIES)) % 8 == 7
  {
    assert DirAt(m, m', d, n / ENTRIES);
  }

  ghost predicate TablesSame(m: Memory, m': Memory, d: nat, but: nat) {
    forall i: nat {:trigger Target(m', d, i)} :: i < ENTRIES && i != but ==> Target(m', d, i) == Target(m, d, i)
  }

  lemma SameDirTables(m0: Memory, m: Memory, m': Memory, d: nat, but: nat)
    requires TablesSame(m0, m, d, but) && d < |m| && d < |m'| && m'[d] == m[d]
    ensures TablesSame(m0, m', d, but)
  {
    forall i: nat | i < ENTRIES && i != but ensures Target(m', d, i) == Target(m0, d, i) {
      assert Target(m', d, i) == Target(m, d, i);
    }
  }

  /** The tables past user page a are as in m0. */
  ghost predicate TablesFrom(m0: Memory, m: Memory, d: nat, a: nat) {
    forall i: nat {:trigger Target(m, d, i)} :: TableUp(a) <= i < ENTRIES ==> Target(m, d, i) == Target(m0, d, i)
  }

  lemma TablesOn(m0: Memory, m: Memory, m': Memory, d: nat, a: nat)
    requires TablesFrom(m0, m, d, a) && TablesSame(m, m', d, a / ENTRIES)
    ensures TablesFrom(m0, m', d, a + 1)
  {
    forall i: nat | TableUp(a + 1) <= i < ENTRIES ensures Target(m', d, i) == Target(m0, d, i) {
      assert Target(m', d, i) == Target(m, d, i);
    }
  }

  /** In a prefix, the table of a page that is not first in its table is there. */
  lemma TableThere(m: Memory, d: nat, a: nat)
    requires Prefix(m, d, a) && 0 < a <= USERPAGES && a % ENTRIES != 0
    ensures TableOf(m, d, a) != -1
  {
    assert PageOf(m, d, Data(a - 1)) != -1 && (a - 1) / ENTRIES == a / ENTRIES;
  }

  lemma NothingSpent(m: Memory, d: nat, k: nat)
    requires Prefix(m, d, k) && k <= USERPAGES
    ensures Spent(m, d, k, k) == 0
  {
    if k % ENTRIES != 0 {
      TableThere(m, d, k);
      assert TableUp(k) == k / ENTRIES + 1;
      assert Missing(m, d, k / ENTRIES, k / ENTRIES) == 0;
    }
  }

  lemma SpentStep(m0: Memory, m: Memory, d: nat, k: nat, a: nat)
    requires Prefix(m, d, a) && TablesFrom(m0, m, d, a) && k <= a < USERPAGES
    ensures Spent(m0, d, k, a + 1) == Spent(m0, d, k, a) + Cost(m, d, a)
  {
    if a % ENTRIES != 0 {
      TableThere(m, d, a);
      assert TableUp(a + 1) == TableUp(a);
    } else {
      assert TableUp(a) == a / ENTRIES && TableUp(a + 1) == a / ENTRIES + 1;
      assert Target(m, d, a / ENTRIES) == Target(m0, d, a / ENTRIES);
    }
  }

  lemma {:induction false} SpentGrows(m: Memory, d: nat, k: nat, a: nat, b: nat)
    requires a <= b
    ensures Spent(m, d, k, a) <= Spent(m, d, k, b)
  {
    MissingGrows(m, d, k / ENTRIES, TableUp(a), TableUp(b));
  }

  lemma {:induction false} MissingGrows(m: Memory, d: nat, i: nat, j: nat, k: nat)
    requires j <= k
    ensures Missing(m, d, i, j) <= Missing(m, d, i, k)
    decreases k
  {
    if j < k {
      MissingGrows(m, d, i, j, k - 1);
    }
  }

  /** Each user page k .. a holds zeroes, and its entry has PTE_P, PTE_W and PTE_U set. */
  ghost predicate ZeroPages(m: Memory, d: nat, k: nat, a: nat) {
    forall n: nat {:trigger PageOf(m, d, Data(n))} :: k <= n < a && n < USERPAGES ==>
      && 0 <= PageOf(m, d, Data(n)) < |m| && m[PageOf(m, d, Data(n))] == Zeroes()
      && EntryOf(m, d, Data(n)) % 8 == 7
  }

  lemma ZeroMore(m0: Memory, m: Memory, m': Memory, d: nat, k: nat, a: nat, p: nat)
    requires k <= a < USERPAGES && UserSame(m0, m, d, k) && ZeroPages(m, d, k, a) && UserSame(m, m', d, a)
    requires PageOf(m', d, Data(a)) == p < |m'| && m'[p] == Zeroes() && EntryOf(m', d, Data(a)) % 8 == 7
    ensures UserSame(m0, m', d, k) && ZeroPages(m', d, k, a + 1)
  {
    forall n: nat | k <= n < a
      ensures 0 <= PageOf(m', d, Data(n)) < |m'| && m'[PageOf(m', d, Data(n))] == Zeroes()
      ensures EntryOf(m', d, Data(n)) % 8 == 7
    {
      assert PageOf(m', d, Data(n)) == PageOf(m, d, Data(n)) && EntryOf(m', d, Data(n)) == EntryOf(m, d, Data(n));
    }
  }

  lemma ButBelow(m: Memory, m': Memory, d: nat, n: nat)
    requires UserSameBut(m, m', d, n)
    ensures UserSame(m, m', d, n)
  {}

  lemma SameThenBut(m0: Memory, m: Memory, m': Memory, d: nat, n: nat)
    requires UserSame(m0, m, d, USERPAGES) && UserSameBut(m, m', d, n)
    ensures UserSameBut(m0, m', d, n)
  {
    forall k: nat | k < USERPAGES && k != n
      ensures PageOf(m', d, Data(k)) == PageOf(m, d, Data(k)) && PageOf(m, d, Data(k)) == PageOf(m0, d, Data(k))
    {}
  }

  lemma UserSameTrans(m0: Memory, m: Memory, m': Memory, d: nat, k: nat)
    requires UserSame(m0, m, d, k) && UserSame(m, m', d, USERPAGES) && k <= USERPAGES
    ensures UserSame(m0, m', d, k)
  {}

  /** User pages k .. a have been added to m0, zeroed. */
  ghost predicate Growing(m0: Memory, m: Memory, d: nat, k: nat, a: nat) {
    Prefix(m, d, a) && UserSame(m0, m, d, k) && ZeroPages(m, d, k, a) && TablesFrom(m0, m, d, a)
  }

  /** Growing and then freeing what was added gives back the user map and the data pages. */
  lemma RolledBack(m0: Memory, own0: Owners, m1: Memory, own1: Owners, m: Memory, own: Owners, lo: nat, hi: nat, d: nat,
                   k: nat, a: nat, e: nat)
    requires Owned(m0, lo, hi, d, own0) && Owned(m1, lo, hi, d, own1) && Owned(m, lo, hi, d, own)
    requires Prefix(m0, d, k) && Prefix(m1, d, a) && UserSame(m0, m1, d, k) && k <= a <= e
    requires Unmapped(m1, own1, m, own, d, k, e)
    ensures UserSame(m0, m, d, USERPAGES) && DataOf(own) == DataOf(own0)
  {
    forall n: nat | n < USERPAGES
      ensures PageOf(m, d, Data(n)) == PageOf(m0, d, Data(n)) && EntryOf(m, d, Data(n)) == EntryOf(m0, d, Data(n))
    {
      assert PageOf(m1, d, Data(n)) != -1 <==> n < a;
      assert PageOf(m0, d, Data(n)) != -1 <==> n < k;
      if k <= n < a {
        PrefixIsReached(m1, d, a, k, n);
      }
    }
    SameData(m0, own0, m, own, lo, hi, d);
    SameData(m, own, m0, own0, lo, hi, d);
  }

  lemma SameData(m0: Memory, own0: Owners, m: Memory, own: Owners, lo: nat, hi: nat, d: nat)
    requires Owned(m0, lo, hi, d, own0) && Owned(m, lo, hi, d, own)
    requires forall n: nat {:trigger PageOf(m, d, Data(n))} {:trigger PageOf(m0, d, Data(n))} :: n < USERPAGES ==>
      PageOf(m, d, Data(n)) == PageOf(m0, d, Data(n))
    ensures DataOf(own) <= DataOf(own0)
  {
    forall p | p in DataOf(own) ensures p in DataOf(own0) {
      assert OwnedAt(m, lo, hi, d, own, p);
      DataOwned(m0, lo, hi, d, own0, own[p].n);
    }
  }

  /** Freeing the page in hand disturbs no user page. */
  lemma JunkSame(m0: Memory, m: Memory, lo: nat, hi: nat, d: nat, own: Owners, p: nat, m': Memory)
    requires Owned(m, lo, hi, d, own) && p < |m| && p !in own && |m'| == |m| && UserSame(m0, m, d, USERPAGES)
    requires forall q: nat {:trigger m'[q]} :: q < |m| && q != p ==> m'[q] == m[q]
    ensures UserSame(m0, m', d, USERPAGES)
  {
    forall n: nat | n < USERPAGES
      ensures PageOf(m', d, Data(n)) == PageOf(m, d, Data(n)) && EntryOf(m', d, Data(n)) == EntryOf(m, d, Data(n))
      ensures PageOf(m, d, Data(n)) != -1 ==> PageOf(m, d, Data(n)) in own
    {
      Outside(m, m', lo, hi, d, own, Data(n));
    }
  }

  /** freevm() has freed the user pages and the tables below i. */
  ghost predicate Unwinding(m: Memory, lo: nat, hi: nat, d: nat, own: Owners, i: nat) {
    && d in own && own[d] == Dir && d < |m|
    && (forall p: nat {:trigger own[p]} :: p in own ==>
         lo <= p < hi && (p == d || (own[p].Table? && i <= own[p].i < ENTRIES && Target(m, d, own[p].i) == p)))
    && (forall j: nat {:trigger Target(m, d, j)} :: i <= j < ENTRIES && Target(m, d, j) != -1 ==>
         Target(m, d, j) in own && own[Target(m, d, j)] == Table(j))
  }

  lemma StartUnwinding(m: Memory, lo: nat, hi: nat, d: nat, own: Owners)
    requires Owned(m, lo, hi, d, own) && forall p: nat :: p in own ==> !own[p].Data?
    ensures Unwinding(m, lo, hi, d, own, 0)
  {
    forall p: nat | p in own ensures OwnedAt(m, lo, hi, d, own, p) {}
    assert OwnedAt(m, lo, hi, d, own, d);
    forall j: nat | j < ENTRIES && Target(m, d, j) != -1
      ensures Target(m, d, j) in own && own[Target(m, d, j)] == Table(j)
    {
      assert PageOf(m, d, Table(j)) == Target(m, d, j);
    }
  }

  lemma UnwindOne(m: Memory, m': Memory, lo: nat, hi: nat, d: nat, own: Owners, i: nat)
    requires Unwinding(m, lo, hi, d, own, i) && i < ENTRIES && d < |m'| && m'[d] == m[d]
    ensures Unwinding(m', lo, hi, d, if Target(m, d, i) == -1 then own else own - {Target(m, d, i)}, i + 1)
    ensures Target(m, d, i) != -1 ==> Target(m, d, i) in own && own[Target(m, d, i)] == Table(i)
  {
    forall j: nat | j < ENTRIES
      ensures Target(m', d, j) == Target(m, d, j)
    {}
  }

  lemma OnlyDir(m: Memory, lo: nat, hi: nat, d: nat, own: Owners)
    requires Unwinding(m, lo, hi, d, own, ENTRIES)
    ensures own == map[d := Dir] && lo <= d < hi
  {}

  predicate Differ(f: seq<nat>, i: nat, j: nat) {
    i < |f| && j < |f| && f[i] != f[j]
  }

  predicate Distinct(f: seq<nat>) {
    forall i: nat, j: nat :: i < j < |f| ==> Differ(f, i, j)
  }

  lemma DistinctTail(f: seq<nat>)
    requires Distinct(f) && |f| > 0
    ensures Distinct(f[1..]) && f[0] !in f[1..]
  {
    forall i: nat, j: nat | i < j < |f| - 1 ensures Differ(f[1..], i, j) {
      assert Differ(f, i + 1, j + 1);
    }
    forall j: nat | j < |f| - 1 ensures f[1..][j] != f[0] {
      assert Differ(f, 0, j + 1);
    }
  }

  lemma DistinctCons(p: nat, f: seq<nat>)
    requires Distinct(f) && p !in f
    ensures Distinct([p] + f)
  {
    var g := [p] + f;
    forall i: nat, j: nat | i < j < |g| ensures Differ(g, i, j) {
      if i > 0 {
        assert Differ(f, i - 1, j - 1);
      } else {
        assert g[j] == f[j - 1];
      }
    }
  }

  lemma {:induction false} DistinctCount(f: seq<nat>)
    requires Distinct(f)
    ensures |FreeSet(f)| == |f|
  {
    if f != [] {
      DistinctTail(f);
      DistinctCount(f[1..]);
      assert FreeSet(f) == FreeSet(f[1..]) + {f[0]};
    }
  }

  lemma Counts(own: Owners, free: seq<nat>, free': seq<nat>)
    requires Distinct(free) && Distinct(free') && Apart(own, free) && FreeSet(free') == own.Keys + FreeSet(free)
    ensures |free'| == |free| + |own|
  {
    DistinctCount(free);
    DistinctCount(free');
    forall p: nat | p in own.Keys ensures p !in FreeSet(free) {
      assert InOne(own, free, p);
    }
    assert own.Keys !! FreeSet(free);
    assert |own.Keys| == |own|;
  }

  class Vm {
    const lo: nat
    const hi: nat
    var mem: Memory
    var freelist: nat
    ghost var free: seq<nat>
    ghost var own: Owners

    ghost predicate Pool()
      reads this
    {
      0 < lo <= hi <= |mem| && Listed(mem, lo, hi, freelist, free)
    }

    /** The address space with directory d, beside the pool. */
    ghost predicate Space(d: nat)
      reads this
    {
      Pool() && Owned(mem, lo, hi, d, own) && Apart(own, free)
    }

    /** Before kinit1(): pages lo .. hi may be given out, none is yet. */
    constructor (lo: nat, hi: nat, mem: Memory)
      requires 0 < lo <= hi <= |mem|
      ensures this.lo == lo && this.hi == hi && this.mem == mem && Pool() && free == [] && own == map[]
    {
      this.lo, this.hi, this.mem := lo, hi, mem;
      freelist, free, own := 0, [], map[];
    }

    /** freerange(): the pages from .. to enter the pool, the last one at the head. */
    method Freerange(from: nat, to: nat)
      requires Pool() && lo <= from <= to <= hi && forall p :: from <= p < to ==> p !in free
      modifies this`mem, this`freelist, this`free
      ensures Pool() && |free| == |old(free)| + (to - from)
      ensures forall p: nat :: p in free <==> p in old(free) || from <= p < to
    {
      var p := from;
      while p < to
        invariant from <= p <= to && Pool() && |free| == |old(free)| + (p - from)
        invariant forall q: nat :: q in free <==> q in old(free) || from <= q < p
      {
        var ok := Kfree(p);
        p := p + 1;
      }
    }

    method Kalloc() returns (p: nat)
      requires Pool()
      modifies this`freelist, this`free
      ensures Pool()
      ensures p == 0 <==> old(free) == []
      ensures p == 0 ==> free == old(free)
      ensures p != 0 ==> lo <= p < hi && old(free) == [p] + free && p !in free
    {
      p := freelist;
      if p != 0 {
        assert |free| > 0;
        PopListed(mem, lo, hi, freelist, free);
        freelist := mem[p][0];
        assert free == [p] + free[1..];
        free := free[1..];
      } else {
        assert |free| > 0 ==> ListedAt(mem, lo, hi, free, 0);
      }
    }

    /** kfree(): false is its panic.  Freeing a free page is not noticed. */
    method Kfree(p: nat) returns (ok: bool)
      requires Pool() && p !in free
      modifies this`mem, this`freelist, this`free
      ensures Pool() && (ok <==> lo <= p < hi)
      ensures !ok ==> mem == old(mem) && free == old(free)
      ensures ok ==> free == [p] + old(free) && mem == old(mem)[p := Junk(old(freelist))]
    {
      ok := lo <= p < hi;
      if ok {
        PushListed(mem, lo, hi, freelist, free, p);
        mem := mem[p := Junk(freelist)];
        freelist := p;
        free := [p] + free;
      }
    }

    /** All pages of the address space and the pool. */
    ghost function Pages(): (s: set<nat>)
      reads this
    {
      own.Keys + FreeSet(free)
    }

    /** walkpgdir() with alloc: the table of user page n, made if it was missing. */
    method Walk(d: nat, n: nat) returns (t: int)
      requires Space(d) && n < USERPAGES
      modifies this
      ensures Space(d) && t == TableOf(mem, d, n)
      ensures t == -1 <==> TableOf(old(mem), d, n) == -1 && old(free) == []
      ensures t == -1 ==> mem == old(mem) && free == old(free) && own == old(own)
      ensures t != -1 ==>
        |free| == |old(free)| - (Cost(old(mem), d, n) - 1) && TablesSame(old(mem), mem, d, n / ENTRIES)
      ensures Pages() == old(Pages()) && UserSame(old(mem), mem, d, USERPAGES)
      ensures Strangers(old(mem), mem, old(Pages()))
      ensures DataOf(own) == DataOf(old(own)) && DirGrown(old(mem), mem, d)
    {
      t := TableOf(mem, d, n);
      if t == -1 {
        assert OwnedAt(mem, lo, hi, d, own, d);
        var p := Kalloc();
        if p == 0 {
          return -1;
        }
        PopApart(own, old(free), p, free, Table(n / ENTRIES));
        NotFree(own, free, d);
        AddTableKeeps(mem, lo, hi, d, own, n / ENTRIES, p);
        AddTableSame(mem, lo, hi, d, own, n / ENTRIES, p);
        AddTableDir(mem, lo, hi, d, own, n / ENTRIES, p);
        StillListed(mem, lo, hi, freelist, free, p, Zeroes());
        mem := mem[p := Zeroes()];
        StillListed(mem, lo, hi, freelist, free, d, mem[d][n / ENTRIES := Entry(p, USER)]);
        mem := mem[d := mem[d][n / ENTRIES := Entry(p, USER)]];
        own := own[p := Table(n / ENTRIES)];
        t := p;
      }
    }

    /** mappages() for user page n: PTE_P must be clear, else it panics. */
    method MapPage(d: nat, n: nat, p: nat) returns (ok: bool)
      requires Space(d) && n < USERPAGES && PageOf(mem, d, Data(n)) == -1 && lo <= p < hi && p !in Pages()
      modifies this
      ensures Space(d)
      ensures !ok ==>
        Pages() == old(Pages()) && UserSame(old(mem), mem, d, USERPAGES) && DataOf(own) == DataOf(old(own))
      ensures Strangers(old(mem), mem, old(Pages()))
      ensures ok <==> |old(free)| >= Cost(old(mem), d, n) - 1
      ensures ok ==> |free| == |old(free)| - (Cost(old(mem), d, n) - 1) && TablesSame(old(mem), mem, d, n / ENTRIES)
      ensures ok ==> Pages() == old(Pages()) + {p} && PageOf(mem, d, Data(n)) == p && UserSameBut(old(mem), mem, d, n)
      ensures ok ==> DataOf(own) == DataOf(old(own)) + {p} && EntryOf(mem, d, Data(n)) % 8 == 7
      ensures DirGrown(old(mem), mem, d)
    {
      ghost var m0 := mem;
      var t := Walk(d, n);
      if t == -1 {
        return false;
      }
      ghost var m := mem;
      EnterPage(d, n, p);
      SameThenBut(m0, m, mem, d, n);
      SameDirTables(m0, m, mem, d, n / ENTRIES);
      SameDir(m, mem, d);
      DirGrownTrans(m0, m, mem, d);
      ok := true;
    }

    /** The store of mappages() into the page table. */
    method EnterPage(d: nat, n: nat, p: nat)
      requires Space(d) && n < USERPAGES && TableOf(mem, d, n) != -1 && PageOf(mem, d, Data(n)) == -1
      requires lo <= p < hi && p !in Pages()
      modifies this`mem, this`own
      ensures Space(d) && Strangers(old(mem), mem, old(Pages())) && Pages() == old(Pages()) + {p}
      ensures PageOf(mem, d, Data(n)) == p && UserSameBut(old(mem), mem, d, n) && DataOf(own) == DataOf(old(own)) + {p}
      ensures d < |mem| == |old(mem)| && mem[d] == old(mem)[d] && EntryOf(mem, d, Data(n)) % 8 == 7
    {
      TableOwned(mem, lo, hi, d, own, n);
      AddDataKeeps(mem, lo, hi, d, own, n, p, USER);
      AddDataSame(mem, lo, hi, d, own, n, p);
      var t := TableOf(mem, d, n);
      NotFree(own, free, t);
      TakeApart(own, free, p, Data(n));
      assert !Present(mem[t][n % ENTRIES]);
      StillListed(mem, lo, hi, freelist, free, t, mem[t][n % ENTRIES := Entry(p, USER)]);
      mem := mem[t := mem[t][n % ENTRIES := Entry(p, USER)]];
      own := own[p := Data(n)];
    }

    /** A pass of deallocuvm() over a user page that is present. */
    method DropPage(d: nat, n: nat)
      requires Space(d) && n < USERPAGES && PageOf(mem, d, Data(n)) != -1
      modifies this
      ensures Space(d) && Pages() == old(Pages())
      ensures PageOf(old(mem), d, Data(n)) >= 0 && own == old(own) - {PageOf(old(mem), d, Data(n))}
      ensures UserSameBut(old(mem), mem, d, n) && PageOf(mem, d, Data(n)) == -1 && d < |mem| && mem[d] == old(mem)[d]
      ensures Strangers(old(mem), mem, old(Pages())) && free == [PageOf(old(mem), d, Data(n))] + old(free)
    {
      FreedDataKeeps(mem, lo, hi, d, own, n, freelist);
      DataOwned(mem, lo, hi, d, own, n);
      assert OwnedAt(mem, lo, hi, d, own, d);
      var t := TableOf(mem, d, n);
      var p := Frame(mem[t][n % ENTRIES]);
      NotFree(own, free, p);
      NotFree(own, free, t);
      PushApart(own, free, p);
      var ok := Kfree(p);
      StillListed(mem, lo, hi, freelist, free, t, mem[t][n % ENTRIES := 0]);
      mem := mem[t := mem[t][n % ENTRIES := 0]];
      own := own - {p};
    }

    /** A pass of the loop of deallocuvm() at user page a0; the result is a after the increment. */
    method DeallocPass(d: nat, a0: nat, ghost e: nat, ghost gone0: set<nat>, ghost m0: Memory, ghost own0: Owners)
      returns (a: nat, ghost gone: set<nat>)
      requires Space(d) && Owned(m0, lo, hi, d, own0) && a0 < e <= USERPAGES
      requires DroppedAll(m0, own0, mem, own, d, gone0)
      modifies this
      ensures Space(d) && Pages() == old(Pages()) && Strangers(old(mem), mem, old(Pages()))
      ensures a0 < a && DroppedAll(m0, own0, mem, own, d, gone)
      ensures forall n: nat {:trigger n in gone} {:trigger Visits(m0, d, a, e, n)} ::
        (n in gone || Visits(m0, d, a, e, n)) <==> (n in gone0 || Visits(m0, d, a0, e, n))
    {
      ghost var m, own1 := mem, own;
      a, gone := a0, gone0;
      var t := TableOf(mem, d, a);
      assert t == TableOf(m0, d, a);
      if t == -1 {
        a := a + (ENTRIES - 1);
      } else {
        gone := gone0 + {a};
        if Target(mem, t, a % ENTRIES) != -1 {
          DropPage(d, a);
          DropNext(m0, lo, hi, own0, m, own1, mem, d, gone0, a);
        } else {
          NothingThere(m0, lo, hi, own0, mem, own, d, gone0, a);
        }
      }
      a := a + 1;
    }

    /** deallocuvm(), on any page table: exactly the pages between the sizes that its walk reaches are freed.
        Which ones the walk jumps over when it meets a missing table, Skipped says. */
    method Deallocuvm(d: nat, oldsz: nat, newsz: nat) returns (r: nat)
      requires Space(d) && oldsz <= KERNBASE && newsz < UINT
      modifies this
      ensures Space(d) && Pages() == old(Pages()) && Strangers(old(mem), mem, old(Pages()))
      ensures r == if newsz < oldsz then newsz else oldsz
      ensures newsz >= oldsz ==> mem == old(mem) && own == old(own) && free == old(free)
      ensures newsz < oldsz ==> Unmapped(old(mem), old(own), mem, own, d, Up(newsz), Up(oldsz))
    {
      if newsz >= oldsz {
        return oldsz;
      }
      ghost var m0, own0, s, e := mem, own, Up(newsz), Up(oldsz);
      ghost var gone: set<nat> := {};
      var a := Up(newsz);
      assert OwnedAt(mem, lo, hi, d, own, d);
      assert DroppedAll(m0, own0, mem, own, d, gone);
      while a * PGSIZE < oldsz
        invariant Space(d) && Pages() == old(Pages()) && Strangers(m0, mem, old(Pages()))
        invariant DroppedAll(m0, own0, mem, own, d, gone) && OnTheWay(m0, d, s, e, a, gone)
        decreases e - a
      {
        a, gone := DeallocPass(d, a, e, gone, m0, own0);
      }
      WalkIsExact(m0, lo, hi, own0, mem, own, d, s, e, a, gone);
      r := newsz;
    }

    /** A pass of the loop of allocuvm(): a zeroed page becomes user page a. */
    method AllocPass(d: nat, a: nat) returns (ok: bool, p: nat)
      requires Space(d) && a < USERPAGES && Prefix(mem, d, a)
      modifies this
      ensures Space(d) && Strangers(old(mem), mem, old(Pages()))
      ensures !ok && p == 0 ==> Pages() == old(Pages())
      ensures !ok && p != 0 ==> lo <= p < hi && p !in Pages() && Pages() + {p} == old(Pages())
      ensures !ok ==> Prefix(mem, d, a) && UserSame(old(mem), mem, d, USERPAGES) && DataOf(own) == DataOf(old(own))
      ensures ok ==> Pages() == old(Pages()) && Prefix(mem, d, a + 1) && UserSame(old(mem), mem, d, a)
      ensures ok ==> PageOf(mem, d, Data(a)) == p < |mem| && mem[p] == Zeroes() && EntryOf(mem, d, Data(a)) % 8 == 7
      ensures DirGrown(old(mem), mem, d)
      ensures ok <==> |old(free)| >= Cost(old(mem), d, a)
      ensures ok ==> |free| == |old(free)| - Cost(old(mem), d, a) && TablesSame(old(mem), mem, d, a / ENTRIES)
    {
      ghost var m0, pages := mem, Pages();
      p := TakeZeroed(d);
      SameDir(m0, mem, d);
      if p == 0 {
        return false, 0;
      }
      ghost var m := mem;
      ok := MapPage(d, a, p);
      HandStrangers(m0, m, mem, pages, p);
      DirGrownTrans(m0, m, mem, d);
      if ok {
        SameThenBut(m0, m, mem, d, a);
        ButBelow(m0, mem, d, a);
        assert SameAt(m, mem, p);
      } else {
        UserSameTrans(m0, m, mem, d, USERPAGES);
      }
    }

    /** kalloc() and memset(): a zeroed page in hand. */
    method TakeZeroed(d: nat) returns (p: nat)
      requires Space(d)
      modifies this
      ensures Space(d) && own == old(own)
      ensures p == 0 <==> old(free) == []
      ensures p == 0 ==> mem == old(mem) && free == old(free)
      ensures p != 0 ==> lo <= p < hi && old(free) == [p] + free && p !in Pages() && Pages() + {p} == old(Pages())
      ensures p != 0 ==> mem == old(mem)[p := Zeroes()] && UserSame(old(mem), mem, d, USERPAGES)
      ensures d < |mem| == |old(mem)| && mem[d] == old(mem)[d]
    {
      assert OwnedAt(mem, lo, hi, d, own, d);
      p := Kalloc();
      if p == 0 {
        return;
      }
      PopApart(own, old(free), p, free, Dir);
      StillListed(mem, lo, hi, freelist, free, p, Zeroes());
      OutsideKeeps(mem, mem[p := Zeroes()], lo, hi, d, own);
      HandSame(mem, lo, hi, d, own, p);
      assert OwnedAt(mem, lo, hi, d, own, d);
      mem := mem[p := Zeroes()];
    }

    /** The failure path of allocuvm(); p is the page in hand, 0 if there is none. */
    method Rollback(d: nat, p: nat, oldsz: nat, newsz: nat, ghost a: nat, ghost m0: Memory, ghost own0: Owners)
      requires Space(d) && Up(oldsz) <= a && oldsz < newsz < KERNBASE && a <= Up(newsz)
      requires Owned(m0, lo, hi, d, own0) && Prefix(m0, d, Up(oldsz))
      requires Prefix(mem, d, a) && UserSame(m0, mem, d, Up(oldsz))
      requires p != 0 ==> lo <= p < hi && p !in Pages()
      modifies this
      ensures Space(d) && Pages() == old(Pages()) + (if p == 0 then {} else {p})
      ensures UserSame(m0, mem, d, USERPAGES) && DataOf(own) == DataOf(own0)
      ensures Strangers(old(mem), mem, Pages()) && d < |mem| == |old(mem)| && mem[d] == old(mem)[d]
    {
      ghost var m1, own1 := mem, own;
      var r := Deallocuvm(d, newsz, oldsz);
      RolledBack(m0, own0, m1, own1, mem, own, lo, hi, d, Up(oldsz), a, Up(newsz));
      if p != 0 {
        ghost var m := mem;
        assert OwnedAt(mem, lo, hi, d, own, d);
        PushApart(own, free, p);
        var ok := Kfree(p);
        OutsideKeeps(m, mem, lo, hi, d, own);
        JunkSame(m0, m, lo, hi, d, own, p, mem);
      }
    }

    /** The body of the loop of allocuvm(). */
    method AllocOrUndo(d: nat, a: nat, oldsz: nat, newsz: nat, ghost m0: Memory, ghost own0: Owners) returns (ok: bool)
      requires Space(d) && oldsz < newsz < KERNBASE && Up(oldsz) <= a < Up(newsz)
      requires Owned(m0, lo, hi, d, own0) && Prefix(m0, d, Up(oldsz)) && Growing(m0, mem, d, Up(oldsz), a)
      modifies this
      ensures Space(d) && Pages() == old(Pages()) && Strangers(old(mem), mem, Pages())
      ensures !ok ==> UserSame(m0, mem, d, USERPAGES) && DataOf(own) == DataOf(own0)
      ensures ok ==> Growing(m0, mem, d, Up(oldsz), a + 1)
      ensures DirGrown(old(mem), mem, d)
      ensures var step := Spent(m0, d, Up(oldsz), a + 1) - Spent(m0, d, Up(oldsz), a);
              (ok <==> |old(free)| >= step) && (ok ==> |free| == |old(free)| - step)
    {
      ghost var m := mem;
      SpentStep(m0, mem, d, Up(oldsz), a);
      var p;
      ok, p := AllocPass(d, a);
      if ok {
        ZeroMore(m0, m, mem, d, Up(oldsz), a, p);
        TablesOn(m0, m, mem, d, a);
      } else {
        UserSameTrans(m0, m, mem, d, Up(oldsz));
        ghost var m1 := mem;
        Rollback(d, p, oldsz, newsz, a, m0, own0);
        SameDir(m1, mem, d);
        DirGrownTrans(m, m1, mem, d);
      }
    }

    /** allocuvm(): on success the pages up to newsz are fresh and zeroed; on failure the user map is as
        before and so is the set of data pages.  Page tables made on the way stay.  It fails exactly if the
        size is out of bounds or the pool is smaller than the pages and missing tables it takes. */
    method Allocuvm(d: nat, oldsz: nat, newsz: nat) returns (r: nat, failed: bool)
      requires Space(d) && Prefix(mem, d, Up(oldsz)) && oldsz < UINT && newsz < UINT
      modifies this
      ensures Space(d) && Pages() == old(Pages()) && Strangers(old(mem), mem, Pages())
      ensures r == if failed then 0 else if newsz < oldsz then oldsz else newsz
      ensures failed <==> newsz >= KERNBASE
                          || (newsz >= oldsz && |old(free)| < Spent(old(mem), d, Up(oldsz), Up(newsz)))
      ensures failed ==> UserSame(old(mem), mem, d, USERPAGES) && DataOf(own) == DataOf(old(own))
      ensures failed ==> Prefix(mem, d, Up(oldsz))
      ensures DirGrown(old(mem), mem, d)
      ensures !failed && newsz < oldsz ==> mem == old(mem) && own == old(own)
      ensures !failed && newsz >= oldsz ==>
        Prefix(mem, d, Up(newsz)) && UserSame(old(mem), mem, d, Up(oldsz)) && ZeroPages(mem, d, Up(oldsz), Up(newsz))
    {
      if newsz >= KERNBASE {
        return 0, true;
      }
      if newsz < oldsz {
        return oldsz, false;
      }
      NothingSpent(mem, d, Up(oldsz));
      failed := AllocLoop(d, oldsz, newsz);
      r := if failed then 0 else newsz;
    }

    method AllocLoop(d: nat, oldsz: nat, newsz: nat) returns (failed: bool)
      requires Space(d) && Prefix(mem, d, Up(oldsz)) && oldsz <= newsz < KERNBASE
      requires Spent(mem, d, Up(oldsz), Up(oldsz)) == 0
      modifies this
      ensures Space(d) && Pages() == old(Pages()) && Strangers(old(mem), mem, Pages())
      ensures failed <==> |old(free)| < Spent(old(mem), d, Up(oldsz), Up(newsz))
      ensures failed ==> UserSame(old(mem), mem, d, USERPAGES) && DataOf(own) == DataOf(old(own))
      ensures !failed ==> Growing(old(mem), mem, d, Up(oldsz), Up(newsz))
      ensures DirGrown(old(mem), mem, d)
    {
      ghost var m0, own0, pages, k, e := mem, own, Pages(), Up(oldsz), Up(newsz);
      var a := Up(oldsz);
      while a * PGSIZE < newsz
        invariant k <= a <= e && Space(d) && Pages() == pages && Strangers(m0, mem, pages)
        invariant Growing(m0, mem, d, k, a) && |free| + Spent(m0, d, k, a) == |old(free)|
        invariant DirGrown(m0, mem, d)
      {
        SpentGrows(m0, d, k, a + 1, e);
        ghost var m := mem;
        var ok := AllocOrUndo(d, a, oldsz, newsz, m0, own0);
        StrangersTrans(m0, m, mem, pages);
        DirGrownTrans(m0, m, mem, d);
        if !ok {
          return true;
        }
        a := a + 1;
      }
      return false;
    }

    /** A pass of the loop of freevm() over the page directory. */
    method FreeTable(d: nat, i: nat)
      requires Pool() && Apart(own, free) && Unwinding(mem, lo, hi, d, own, i) && i < ENTRIES
      modifies this
      ensures Pool() && Apart(own, free) && Unwinding(mem, lo, hi, d, own, i + 1) && Pages() == old(Pages())
      ensures Strangers(old(mem), mem, old(Pages()))
    {
      var t := Target(mem, d, i);
      ghost var m := mem;
      if t != -1 {
        assert t in own && own[t] == Table(i);
        NotFree(own, free, t);
        PushApart(own, free, t);
        var ok := Kfree(t);
        UnwindOne(m, mem, lo, hi, d, own, i);
        own := own - {t};
      } else {
        UnwindOne(m, mem, lo, hi, d, own, i);
      }
    }

    /** The loop of freevm(), and the directory itself. */
    method FreeTables(d: nat)
      requires Pool() && Apart(own, free) && Unwinding(mem, lo, hi, d, own, 0)
      modifies this
      ensures Pool() && own == map[] && FreeSet(free) == old(Pages())
      ensures Strangers(old(mem), mem, old(Pages()))
    {
      var i := 0;
      while i < ENTRIES
        invariant 0 <= i <= ENTRIES && Pool() && Apart(own, free) && Unwinding(mem, lo, hi, d, own, i)
        invariant Pages() == old(Pages()) && Strangers(old(mem), mem, old(Pages()))
      {
        FreeTable(d, i);
        i := i + 1;
      }
      OnlyDir(mem, lo, hi, d, own);
      NotFree(own, free, d);
      var ok := Kfree(d);
      own := map[];
    }

    /** freevm(), on any page table: every page of the address space goes back to the pool, once.  A walk
        from page 0 jumps over nothing. */
    method Freevm(d: nat)
      requires Space(d)
      modifies this
      ensures Pool() && own == map[] && FreeSet(free) == old(Pages())
      ensures |free| == |old(free)| + |old(own)|
      ensures Strangers(old(mem), mem, old(Pages()))
    {
      ghost var m0, own0, free0 := mem, own, free;
      var r := Deallocuvm(d, KERNBASE, 0);
      forall p: nat | p in own ensures !own[p].Data? {
        assert OwnedAt(m0, lo, hi, d, own0, p);
      }
      StartUnwinding(mem, lo, hi, d, own);
      FreeTables(d);
      Counts(own0, free0, free);
    }
  }
}
