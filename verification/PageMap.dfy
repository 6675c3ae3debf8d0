/** A two-level page table in physical memory (vm.c, mmu.h): which pages an address space owns and why.

    Pages are numbered by physical address / 4096.  A page is 1024 words; an entry is the number of a
    page times 4096 plus flags, bit 0 of which is PTE_P.  The layout is that of 32-bit paging, section
    4.3 of the Intel SDM, Volume 3A. */
module PageMap {
  const ENTRIES := 1024
  const USERPAGES := 524288
  const PGSIZE := 4096

  type Page = p: seq<nat> | |p| == ENTRIES witness seq(ENTRIES, _ => 0)
  type Memory = seq<Page>

  /** Why an address space owns a page: page directory, page table i, user page n. */
  datatype Role = Dir | Table(i: nat) | Data(n: nat)

  type Owners = map<nat, Role>

  predicate Present(w: nat) {
    w % 2 == 1
  }

  function Frame(w: nat): (p: nat) {
    w / PGSIZE
  }

  function Zeroes(): (p: Page) {
    seq(ENTRIES, _ => 0)
  }

  /** What an entry points to, -1 if it is not present. */
  function Target(m: Memory, p: int, i: nat): (q: int)
    ensures q >= -1
  {
    if 0 <= p < |m| && i < ENTRIES && Present(m[p][i]) then Frame(m[p][i]) else -1
  }

  predicate IsRole(r: Role) {
    match r
    case Dir => true
    case Table(i) => i < ENTRIES
    case Data(n) => n < USERPAGES
  }

  function TableOf(m: Memory, d: nat, n: nat): (t: int)
    ensures t >= -1
  {
    Target(m, d, n / ENTRIES)
  }

  function PageOf(m: Memory, d: nat, r: Role): (p: int)
    ensures p >= -1
  {
    match r
    case Dir => d
    case Table(i) => Target(m, d, i)
    case Data(n) => Target(m, TableOf(m, d, n), n % ENTRIES)
  }

  /** The entry at index i of table p if it is present, else 0. */
  function WordAt(m: Memory, p: int, i: nat): (w: nat)
    ensures w == 0 <==> Target(m, p, i) == -1
    ensures w != 0 ==> Frame(w) == Target(m, p, i)
  {
    if 0 <= p < |m| && i < ENTRIES && Present(m[p][i]) then m[p][i] else 0
  }

  /** The entry that maps a page table or a user page, flags and all; 0 for none. */
  function EntryOf(m: Memory, d: nat, r: Role): (w: nat)
    ensures !r.Dir? ==> (w == 0 <==> PageOf(m, d, r) == -1) && (w != 0 ==> Frame(w) == PageOf(m, d, r))
  {
    match r
    case Dir => 0
    case Table(i) => WordAt(m, d, i)
    case Data(n) => WordAt(m, TableOf(m, d, n), n % ENTRIES)
  }

  predicate OwnedAt(m: Memory, lo: nat, hi: nat, d: nat, own: Owners, p: nat) {
    p in own && lo <= p < hi && IsRole(own[p]) && PageOf(m, d, own[p]) == p
  }

  /** Pages lo .. hi can be given out; the address space of directory d owns exactly the pages of own. */
  ghost predicate Owned(m: Memory, lo: nat, hi: nat, d: nat, own: Owners) {
    && 0 < lo <= d < hi <= |m| && d in own && own[d] == Dir
    && (forall p: nat {:trigger OwnedAt(m, lo, hi, d, own, p)} :: p in own ==> OwnedAt(m, lo, hi, d, own, p))
    && (forall r: Role {:trigger PageOf(m, d, r)} :: IsRole(r) && PageOf(m, d, r) != -1 ==>
         PageOf(m, d, r) in own && own[PageOf(m, d, r)] == r)
  }

  /** The user pages present are the first k. */
  ghost predicate Prefix(m: Memory, d: nat, k: nat) {
    forall n: nat {:trigger PageOf(m, d, Data(n))} :: n < USERPAGES ==> (PageOf(m, d, Data(n)) != -1 <==> n < k)
  }

  function Entry(p: nat, flags: nat): (w: nat)
    requires flags < PGSIZE && flags % 2 == 1
    ensures Present(w) && Frame(w) == p && w % 8 == flags % 8
  {
    LowBits(p, flags);
    p * PGSIZE + flags
  }

  lemma Mod8(w: nat, q: nat, r: nat)
    requires w == 8 * q + r && r < 8
    ensures w % 8 == r
  {}

  lemma Mod2(w: nat, q: nat, r: nat)
    requires w == 2 * q + r && r < 2
    ensures w % 2 == r
  {}

  lemma DivPage(w: nat, q: nat, r: nat)
    requires w == 4096 * q + r && r < 4096
    ensures w / 4096 == q
  {}

  lemma LowBits(p: nat, flags: nat)
    requires flags < PGSIZE
    ensures var w := p * PGSIZE + flags; w / PGSIZE == p && w % 8 == flags % 8 && w % 2 == flags % 2
  {
    DivPage(p * PGSIZE + flags, p, flags);
    Mod2(p * PGSIZE + flags, 2048 * p + flags / 2, flags % 2);
    Mod8(p * PGSIZE + flags, 512 * p + flags / 8, flags % 8);
  }

  /** walkpgdir() adds page t, zeroed, as table i, with PTE_P, PTE_W and PTE_U. */
  function AddTable(m: Memory, d: nat, i: nat, t: nat): (r: Memory)
    requires d < |m| && t < |m| && i < ENTRIES
  {
    var z := m[t := Zeroes()];
    z[d := z[d][i := Entry(t, 7)]]
  }

  /** mappages() enters page p as user page n. */
  function AddData(m: Memory, d: nat, n: nat, p: nat, flags: nat): (r: Memory)
    requires 0 <= TableOf(m, d, n) < |m| && flags < PGSIZE && flags % 2 == 1
  {
    var t := TableOf(m, d, n);
    m[t := m[t][n % ENTRIES := Entry(p, flags)]]
  }

  /** deallocuvm() clears the entry of user page n. */
  function DropData(m: Memory, d: nat, n: nat): (r: Memory)
    requires 0 <= TableOf(m, d, n) < |m|
  {
    var t := TableOf(m, d, n);
    m[t := m[t][n % ENTRIES := 0]]
  }

  lemma TableOwned(m: Memory, lo: nat, hi: nat, d: nat, own: Owners, n: nat)
    requires Owned(m, lo, hi, d, own) && n < USERPAGES && TableOf(m, d, n) != -1
    ensures var t := TableOf(m, d, n); t in own && own[t] == Table(n / ENTRIES) && lo <= t < hi && t != d
  {
    assert PageOf(m, d, Table(n / ENTRIES)) != -1;
    assert OwnedAt(m, lo, hi, d, own, TableOf(m, d, n));
  }

  /** A page outside the address space may be written. */
  lemma Outside(m: Memory, m': Memory, lo: nat, hi: nat, d: nat, own: Owners, r: Role)
    requires Owned(m, lo, hi, d, own) && IsRole(r) && |m'| == |m|
    requires forall p: nat {:trigger m'[p]} :: p in own && p < |m| && (own[p].Dir? || own[p].Table?) ==> m'[p] == m[p]
    ensures PageOf(m', d, r) == PageOf(m, d, r) && EntryOf(m', d, r) == EntryOf(m, d, r)
  {
    assert OwnedAt(m, lo, hi, d, own, d);
    assert m'[d] == m[d];
    if r.Data? && TableOf(m, d, r.n) != -1 {
      TableOwned(m, lo, hi, d, own, r.n);
    }
  }

  lemma OutsideKeeps(m: Memory, m': Memory, lo: nat, hi: nat, d: nat, own: Owners)
    requires Owned(m, lo, hi, d, own) && |m'| == |m|
    requires forall p: nat {:trigger m'[p]} :: p in own && p < |m| && (own[p].Dir? || own[p].Table?) ==> m'[p] == m[p]
    ensures Owned(m', lo, hi, d, own)
  {
    forall r: Role | IsRole(r)
      ensures PageOf(m', d, r) == PageOf(m, d, r)
    {
      Outside(m, m', lo, hi, d, own, r);
    }
    var own' := own;
    forall p: nat | p in own' ensures OwnedAt(m', lo, hi, d, own', p) {
      assert p in own ==> OwnedAt(m, lo, hi, d, own, p);
    }
  }

  lemma AddTableRoles(m: Memory, lo: nat, hi: nat, d: nat, own: Owners, i: nat, t: nat, r: Role)
    requires Owned(m, lo, hi, d, own) && i < ENTRIES && Target(m, d, i) == -1 && lo <= t < hi && t !in own && IsRole(r)
    ensures PageOf(AddTable(m, d, i, t), d, r) == if r == Table(i) then t else PageOf(m, d, r)
    ensures EntryOf(AddTable(m, d, i, t), d, r) == if r == Table(i) then Entry(t, 7) else EntryOf(m, d, r)
  {
    assert OwnedAt(m, lo, hi, d, own, d);
    if r.Data? && TableOf(m, d, r.n) != -1 {
      TableOwned(m, lo, hi, d, own, r.n);
    }
  }

  lemma AddTableKeeps(m: Memory, lo: nat, hi: nat, d: nat, own: Owners, i: nat, t: nat)
    requires Owned(m, lo, hi, d, own) && i < ENTRIES && Target(m, d, i) == -1 && lo <= t < hi && t !in own
    ensures d < |m| && Owned(AddTable(m, d, i, t), lo, hi, d, own[t := Table(i)])
  {
    assert OwnedAt(m, lo, hi, d, own, d);
    var m' := AddTable(m, d, i, t);
    forall r: Role | IsRole(r)
      ensures PageOf(m', d, r) == if r == Table(i) then t else PageOf(m, d, r)
    {
      AddTableRoles(m, lo, hi, d, own, i, t, r);
    }
    var own' := own[t := Table(i)];
    forall p: nat | p in own' ensures OwnedAt(m', lo, hi, d, own', p) {
      assert p in own ==> OwnedAt(m, lo, hi, d, own, p);
    }
  }

  lemma AddDataRoles(m: Memory, lo: nat, hi: nat, d: nat, own: Owners, n: nat, p: nat, flags: nat, r: Role)
    requires Owned(m, lo, hi, d, own) && n < USERPAGES && TableOf(m, d, n) != -1 && IsRole(r)
    requires flags < PGSIZE && flags % 2 == 1
    ensures 0 <= TableOf(m, d, n) < |m|
    ensures PageOf(AddData(m, d, n, p, flags), d, r) == if r == Data(n) then p else PageOf(m, d, r)
    ensures EntryOf(AddData(m, d, n, p, flags), d, r) == if r == Data(n) then Entry(p, flags) else EntryOf(m, d, r)
  {
    assert OwnedAt(m, lo, hi, d, own, d);
    TableOwned(m, lo, hi, d, own, n);
    if r.Data? && TableOf(m, d, r.n) != -1 {
      TableOwned(m, lo, hi, d, own, r.n);
    }
  }

  lemma AddDataKeeps(m: Memory, lo: nat, hi: nat, d: nat, own: Owners, n: nat, p: nat, flags: nat)
    requires Owned(m, lo, hi, d, own) && n < USERPAGES && TableOf(m, d, n) != -1 && PageOf(m, d, Data(n)) == -1
    requires flags < PGSIZE && flags % 2 == 1 && lo <= p < hi && p !in own
    ensures 0 <= TableOf(m, d, n) < |m| && Owned(AddData(m, d, n, p, flags), lo, hi, d, own[p := Data(n)])
  {
    TableOwned(m, lo, hi, d, own, n);
    var m' := AddData(m, d, n, p, flags);
    forall r: Role | IsRole(r)
      ensures PageOf(m', d, r) == if r == Data(n) then p else PageOf(m, d, r)
    {
      AddDataRoles(m, lo, hi, d, own, n, p, flags, r);
    }
    var own' := own[p := Data(n)];
    forall q: nat | q in own' ensures OwnedAt(m', lo, hi, d, own', q) {
      assert q in own ==> OwnedAt(m, lo, hi, d, own, q);
    }
  }

  lemma DropDataRoles(m: Memory, lo: nat, hi: nat, d: nat, own: Owners, n: nat, r: Role)
    requires Owned(m, lo, hi, d, own) && n < USERPAGES && TableOf(m, d, n) != -1 && IsRole(r)
    ensures 0 <= TableOf(m, d, n) < |m|
    ensures PageOf(DropData(m, d, n), d, r) == if r == Data(n) then -1 else PageOf(m, d, r)
    ensures EntryOf(DropData(m, d, n), d, r) == if r == Data(n) then 0 else EntryOf(m, d, r)
  {
    assert OwnedAt(m, lo, hi, d, own, d);
    TableOwned(m, lo, hi, d, own, n);
    if r.Data? && TableOf(m, d, r.n) != -1 {
      TableOwned(m, lo, hi, d, own, r.n);
    }
  }

  lemma DropDataKeeps(m: Memory, lo: nat, hi: nat, d: nat, own: Owners, n: nat)
    requires Owned(m, lo, hi, d, own) && n < USERPAGES && PageOf(m, d, Data(n)) != -1
    ensures 0 <= TableOf(m, d, n) < |m|
    ensures Owned(DropData(m, d, n), lo, hi, d, own - {PageOf(m, d, Data(n))})
  {
    TableOwned(m, lo, hi, d, own, n);
    var m' := DropData(m, d, n);
    forall r: Role | IsRole(r)
      ensures PageOf(m', d, r) == if r == Data(n) then -1 else PageOf(m, d, r)
    {
      DropDataRoles(m, lo, hi, d, own, n, r);
    }
    var own' := own - {PageOf(m, d, Data(n))};
    forall p: nat | p in own' ensures OwnedAt(m', lo, hi, d, own', p) {
      assert p in own ==> OwnedAt(m, lo, hi, d, own, p);
    }
  }

  // The 4 MB skip of deallocuvm() on any page table, prefix or not.

  /** The loop of deallocuvm(), now at user page a, comes to the entry of user page n before page e. */
  predicate Visits(m: Memory, d: nat, a: nat, e: nat, n: nat)
    decreases e - a
  {
    a < e && if TableOf(m, d, a) == -1 then Visits(m, d, a + ENTRIES, e, n) else a == n || Visits(m, d, a + 1, e, n)
  }

  predicate MissingTo(m: Memory, d: nat, i: nat, j: nat) {
    forall t: nat {:trigger Target(m, d, t)} :: i <= t < j ==> Target(m, d, t) == -1
  }

  /** The skip jumps over n: the walk starts at s inside a table that is missing, as are all tables up
      to that of n, and n lies nearer the start of its table than s does. */
  predicate Skipped(m: Memory, d: nat, s: nat, n: nat) {
    n % ENTRIES < s % ENTRIES && MissingTo(m, d, s / ENTRIES, n / ENTRIES)
  }

  /** deallocuvm() reaches a page of its range exactly if the skip does not jump over it. */
  lemma {:induction false} VisitsExactly(m: Memory, d: nat, s: nat, e: nat, n: nat)
    requires TableOf(m, d, n) != -1
    ensures Visits(m, d, s, e, n) <==> s <= n < e && !Skipped(m, d, s, n)
    decreases e - s
  {
    if s < e {
      if TableOf(m, d, s) == -1 {
        VisitsExactly(m, d, s + ENTRIES, e, n);
        assert (s + ENTRIES) / ENTRIES == s / ENTRIES + 1 && (s + ENTRIES) % ENTRIES == s % ENTRIES;
        if s <= n {
          assert n / ENTRIES > s / ENTRIES;
          assert MissingTo(m, d, s / ENTRIES, n / ENTRIES) <==> MissingTo(m, d, s / ENTRIES + 1, n / ENTRIES);
          if n < s + ENTRIES {
            assert n / ENTRIES == s / ENTRIES + 1 && n % ENTRIES < s % ENTRIES;
          }
        }
      } else {
        VisitsExactly(m, d, s + 1, e, n);
        if s <= n {
          NotSkipped(m, d, s, n);
          if s < n {
            StillNotSkipped(m, d, s, n);
          }
        }
      }
    }
  }

  lemma NotSkipped(m: Memory, d: nat, s: nat, n: nat)
    requires TableOf(m, d, s) != -1 && s <= n
    ensures !Skipped(m, d, s, n)
  {}

  lemma StillNotSkipped(m: Memory, d: nat, s: nat, n: nat)
    requires TableOf(m, d, s) != -1 && s < n
    ensures !Skipped(m, d, s + 1, n)
  {}

  /** With the user pages a prefix, no page that is present is jumped over. */
  lemma PrefixIsReached(m: Memory, d: nat, k: nat, s: nat, n: nat)
    requires Prefix(m, d, k) && s <= n < USERPAGES && PageOf(m, d, Data(n)) != -1
    ensures !Skipped(m, d, s, n)
  {
    assert PageOf(m, d, Data(s)) != -1;
    NotSkipped(m, d, s, n);
  }

  /** Without it one can be: page 1024 present, table 0 missing, and a walk from page 1. */
  lemma SkipCanMiss()
    ensures exists m: Memory, d: nat :: PageOf(m, d, Data(1024)) != -1 && !Visits(m, d, 1, 2048, 1024)
  {
    var dir := Zeroes()[1 := Entry(1, 7)];
    var m: Memory := [dir, Zeroes()[0 := Entry(2, 7)]];
    assert Target(m, 0, 1) == 1 && Target(m, 1, 0) == 2 && Target(m, 0, 0) == -1;
    assert PageOf(m, 0, Data(1024)) == 2;
    VisitsExactly(m, 0, 1, 2048, 1024);
    assert Skipped(m, 0, 1, 1024);
  }
}
