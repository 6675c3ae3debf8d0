/** The text buffer of vi.c: opening and closing holes in place, and finding lines. */
module ViText {

  /** n characters opened in front of p. */
  function Opened(c: string, p: nat, n: nat): (r: string)
    requires p <= |c|
    ensures |r| == |c| + n && r[..p] == c[..p] && r[p + n..] == c[p..] && forall i :: p <= i < p + n ==> r[i] == ' '
  {
    c[..p] + seq(n, _ => ' ') + c[p..]
  }

  /** Characters s to e, both included, removed. */
  function Closed(c: string, s: nat, e: nat): (r: string)
    requires s <= e < |c|
  {
    c[..s] + c[e + 1..]
  }

  /** Closing a hole undoes opening it. */
  lemma CloseUndoesOpen(c: string, p: nat, n: nat)
    requires p <= |c| && n > 0
    ensures p + n - 1 < |Opened(c, p, n)| && Closed(Opened(c, p, n), p, p + n - 1) == c
  {
    var o := Opened(c, p, n);
    assert o[..p] == c[..p] && o[p + n..] == c[p..];
    assert c[..p] + c[p..] == c;
  }

  /** Opening a hole and filling it with what was closed undoes closing it. */
  lemma OpenUndoesClose(c: string, s: nat, e: nat)
    requires s <= e < |c|
    ensures s <= |Closed(c, s, e)|
    ensures var o := Opened(Closed(c, s, e), s, e - s + 1); o[..s] + c[s..e + 1] + o[e + 1..] == c
  {
    var r := Closed(c, s, e);
    assert r[..s] == c[..s] && r[s..] == c[e + 1..];
  }

  lemma OpenedPieces(c: string, p: nat, n: nat, now: string)
    requires p <= |c| && now == c[..p] + seq(n, _ => ' ') + (c[p..] + ['\0'])
    ensures now[..|c| + n] == Opened(c, p, n) && now[|c| + n] == '\0'
  {}

  lemma ClosedPieces(c: string, s: nat, e: nat, now: string)
    requires s <= e < |c| && now == c[..s] + (c[e + 1..] + ['\0'])
    ensures now[..|now| - 1] == Closed(c, s, e) && now[|now| - 1] == '\0'
  {}

  /** memmoveFormEnd2Start(): a copy towards higher addresses, right although the ranges overlap. */
  method MoveUp(a: array<char>, to: nat, from: nat, count: nat)
    requires from <= to && to + count <= a.Length
    modifies a
    ensures a[to..to + count] == old(a[from..from + count])
    ensures a[..to] == old(a[..to]) && a[to + count..] == old(a[to + count..])
  {
    ghost var was := a[..];
    var k := count;
    while k > 0
      invariant 0 <= k <= count
      invariant forall j {:trigger a[j]} :: 0 <= j < to + k || to + count <= j < a.Length ==> a[j] == was[j]
      invariant forall j {:trigger a[j]} :: to + k <= j < to + count ==> a[j] == was[j - (to - from)]
    {
      k := k - 1;
      a[to + k] := a[from + k];
    }
    ghost var got, want := a[to..to + count], was[from..from + count];
    forall i | 0 <= i < count ensures got[i] == want[i] {
      assert got[i] == a[to + i];
    }
  }

  /** text is index 0; the byte at end is 0; limit is textend, a few bytes short of the allocation. */
  class Buffer {
    const mem: array<char>
    const limit: nat
    var end: nat

    ghost predicate Valid()
      reads this, mem
    {
      end <= limit < mem.Length && mem[end] == '\0'
    }

    ghost function Contents(): (c: string)
      requires Valid()
      reads this, mem
    {
      mem[..end]
    }

    /** new_text() */
    constructor (size: nat)
      ensures Valid() && fresh(mem) && Contents() == "" && limit >= size && limit >= 10240
    {
      var n := if size < 10240 then 10240 else size;
      mem := new char[n + 8](_ => '\0');
      limit := n;
      end := 0;
    }

    /** make_hole_add(): -1 if the text would pass textend. */
    method MakeHoleAdd(p: nat, n: nat) returns (r: int)
      requires Valid() && p <= end
      modifies this, mem
      ensures Valid()
      ensures r == (if old(end) + n <= limit then n else -1)
      ensures r == -1 ==> Contents() == old(Contents())
      ensures r != -1 ==> Contents() == Opened(old(Contents()), p, n)
    {
      var q := p + n;
      var cnt := end - p + 1;
      if end + n > limit {
        return -1;
      }
      ghost var c := Contents();
      assert mem[..p] == c[..p] && mem[p..p + cnt] == c[p..] + ['\0'];
      end := end + n;
      Shift(q, p, n, cnt);
      ghost var now := mem[..q + cnt];
      OpenedPieces(c, p, n, now);
      assert mem[end] == now[end] && mem[..end] == now[..end];
      r := n;
    }

    /** The move and the blanks of make_hole_add(). */
    method Shift(q: nat, p: nat, n: nat, cnt: nat)
      requires q == p + n && q + cnt <= mem.Length
      modifies mem
      ensures mem[..q + cnt] == old(mem[..p]) + seq(n, _ => ' ') + old(mem[p..p + cnt])
    {
      assert mem[..q][..p] == mem[..p];
      MoveUp(mem, q, p, cnt);
      Blank(p, n, cnt);
      assert mem[..q + cnt] == mem[..p] + mem[p..q] + mem[q..q + cnt];
    }

    /** Fills the n bytes of a new hole with blanks; cnt bytes are behind it. */
    method Blank(p: nat, n: nat, ghost cnt: nat)
      requires p + n + cnt <= mem.Length
      modifies mem
      ensures mem[p..p + n] == seq(n, _ => ' ')
      ensures mem[..p] == old(mem[..p + n])[..p] && mem[p + n..p + n + cnt] == old(mem[p + n..p + n + cnt])
    {
      forall i | p <= i < p + n {
        mem[i] := ' ';
      }
    }

    /** make_hole_delete(), its arguments in either order. */
    method MakeHoleDelete(start0: nat, end0: nat)
      requires Valid() && start0 < end && end0 < end
      modifies this, mem
      ensures Valid()
      ensures Contents() ==
        if start0 <= end0 then Closed(old(Contents()), start0, end0) else Closed(old(Contents()), end0, start0)
    {
      var s, e := start0, end0;
      if s > e {
        s, e := e, s;
      }
      CloseUp(s, e);
    }

    method CloseUp(s: nat, e: nat)
      requires Valid() && s <= e < end
      modifies this, mem
      ensures Valid() && Contents() == Closed(old(Contents()), s, e)
    {
      var cnt := end - e;
      ghost var c := Contents();
      assert mem[..s] == c[..s] && mem[e + 1..e + 1 + cnt] == c[e + 1..] + ['\0'];
      MoveDown(s, e + 1, cnt);
      end := end - (e - s + 1);
      ghost var now := mem[..s + cnt];
      assert now == mem[..s] + mem[s..s + cnt];
      ClosedPieces(c, s, e, now);
      assert mem[end] == now[end] && mem[..end] == now[..end];
    }

    /** memmove() towards lower addresses. */
    method MoveDown(to: nat, from: nat, count: nat)
      requires to <= from && from + count <= mem.Length
      modifies mem
      ensures mem[to..to + count] == old(mem[from..from + count])
      ensures mem[..to] == old(mem[..to])
    {
      ghost var was := mem[..];
      var k := 0;
      while k < count
        invariant 0 <= k <= count
        invariant forall j {:trigger mem[j]} :: 0 <= j < to || to + k <= j < mem.Length ==> mem[j] == was[j]
        invariant forall j {:trigger mem[j]} :: to <= j < to + k ==> mem[j] == was[j + (from - to)]
      {
        mem[to + k] := mem[from + k];
        k := k + 1;
      }
      ghost var got, want := mem[to..to + count], was[from..from + count];
      forall i | 0 <= i < count ensures got[i] == want[i] {
        assert got[i] == mem[to + i];
      }
    }

    method BeginLine(p0: nat) returns (p: nat)
      requires Valid() && p0 <= end
      ensures p <= p0 && (p == 0 || mem[p - 1] == '\n')
      ensures forall i :: p <= i < p0 ==> mem[i] != '\n'
    {
      p := p0;
      while p > 0 && mem[p - 1] != '\n'
        invariant p <= p0 && forall i :: p <= i < p0 ==> mem[i] != '\n'
      {
        p := p - 1;
      }
    }

    method EndLine(p0: nat) returns (p: nat)
      requires Valid() && p0 <= end
      ensures p0 <= p <= end && (p0 < end ==> p < end)
      ensures forall i :: p0 <= i < p ==> mem[i] != '\n'
      ensures p + 1 < end ==> mem[p] == '\n'
    {
      p := p0;
      while p < end - 1 && mem[p] != '\n'
        invariant p0 <= p <= end && (p0 < end ==> p < end)
        invariant forall i :: p0 <= i < p ==> mem[i] != '\n'
      {
        p := p + 1;
      }
    }

    /** next_line(): the start of the next line if there is one, else the last character. */
    method NextLine(p0: nat) returns (p: nat)
      requires Valid() && p0 <= end
      ensures p0 <= p <= end && (p0 < end ==> p < end)
      ensures p > p0 && mem[p - 1] == '\n' ==> forall i :: p0 <= i < p - 1 ==> mem[i] != '\n'
      ensures (exists i :: p0 <= i < end - 1 && mem[i] == '\n') ==> p > p0 && mem[p - 1] == '\n'
      ensures (forall i :: p0 <= i < end - 1 ==> mem[i] != '\n') ==> p == if p0 < end then end - 1 else end
    {
      p := EndLine(p0);
      if p < end - 1 && mem[p] == '\n' {
        p := p + 1;
      }
    }
  }
}
