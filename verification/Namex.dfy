/** The inode cache and path resolution of fs.c: iget(), idup(), iput() and namex().

    The tree is what the inodes on disk say; it does not change while a path is resolved.  A reference
    to an inode is the index of its slot in the cache. */
module Namex {
  import opened Path

  datatype Node = Directory(entries: seq<Dirent>) | NotDirectory

  /** Inodes by number; an inode that is not allocated (type 0) is not in the map. */
  type Tree = map<nat, Node>

  datatype Slot = Slot(ref: nat, inum: nat)

  function Share(s: Slot, k: nat): (n: nat) {
    if s.inum == k then s.ref else 0
  }

  /** The references held to inode k. */
  function Refs(slots: seq<Slot>, k: nat): (n: nat) {
    if slots == [] then 0 else Share(slots[0], k) + Refs(slots[1..], k)
  }

  lemma {:induction false} RefsUpdate(slots: seq<Slot>, i: nat, s: Slot, k: nat)
    requires i < |slots|
    ensures Refs(slots[i := s], k) + Share(slots[i], k) == Refs(slots, k) + Share(s, k)
    decreases |slots|
  {
    var r := slots[i := s];
    if i == 0 {
      assert r[1..] == slots[1..];
    } else {
      assert r[1..] == slots[1..][i - 1 := s];
      RefsUpdate(slots[1..], i - 1, s, k);
    }
  }

  /** The cache holds an inode in one slot at most. */
  predicate OneSlotEach(slots: seq<Slot>) {
    forall i, j :: 0 <= i < j < |slots| && slots[i].ref > 0 && slots[j].ref > 0 ==> slots[i].inum != slots[j].inum
  }

  /** References differ by d, for inode k alone. */
  ghost predicate RefsMore(a: seq<Slot>, b: seq<Slot>, k: nat, d: int) {
    forall j: nat {:trigger Refs(b, j)} :: Refs(b, j) == Refs(a, j) + if j == k then d else 0
  }

  // What a path means.

  /** Broken stands for the panic of ilock() on an inode that is not allocated. */
  datatype Res = Ok(inum: nat) | Fail | Broken

  /** Fold of directory lookup over the components. */
  function Walk(t: Tree, at: nat, names: seq<string>): (r: Res)
    decreases |names|
  {
    if names == [] then Ok(at)
    else if at !in t then Broken
    else match t[at]
      case NotDirectory => Fail
      case Directory(es) =>
        var n := Lookup(es, names[0]);
        if n == 0 then Fail else Walk(t, n, names[1..])
  }

  /** Resolving in two stages, wherever the path is cut, is resolving at once. */
  lemma {:induction false} WalkConcat(t: Tree, at: nat, a: seq<string>, b: seq<string>)
    ensures Walk(t, at, a + b) == match Walk(t, at, a) case Ok(p) => Walk(t, p, b) case r => r
    decreases |a|
  {
    if a == [] {
      assert a + b == b;
    } else {
      assert (a + b)[1..] == a[1..] + b;
      if at in t && t[at].Directory? && Lookup(t[at].entries, a[0]) != 0 {
        WalkConcat(t, Lookup(t[at].entries, a[0]), a[1..], b);
      }
    }
  }

  /** No component leads nowhere else, and one where the directory's first entry in use with that name says; it fails
      if there is none, or no directory to look it up in. */
  lemma WalkOne(t: Tree, at: nat, name: string)
    ensures Walk(t, at, []) == Ok(at)
    ensures at !in t ==> Walk(t, at, [name]) == Broken
    ensures at in t && t[at].NotDirectory? ==> Walk(t, at, [name]) == Fail
    ensures at in t && t[at].Directory? ==>
              var es := t[at].entries;
              && (Walk(t, at, [name]) == Fail <==> forall i :: 0 <= i < |es| ==> !IsNamed(es[i], name))
              && forall k: nat :: FirstNamed(es, name, k) ==> Walk(t, at, [name]) == Ok(es[k].inum)
  {
    if at in t && t[at].Directory? {
      LookupExactly(t[at].entries, name);
      var n := Lookup(t[at].entries, name);
      assert Walk(t, n, [name][1..]) == Ok(n);
    }
  }

  /** The same, stopping one component early. */
  function WalkParent(t: Tree, at: nat, names: seq<string>): (r: Res)
    decreases |names|
  {
    if names == [] then Fail
    else if at !in t then Broken
    else match t[at]
      case NotDirectory => Fail
      case Directory(es) =>
        if |names| == 1 then Ok(at)
        else
          var n := Lookup(es, names[0]);
          if n == 0 then Fail else WalkParent(t, n, names[1..])
  }

  /** What was reached, if it is a directory. */
  function DirectoryAt(t: Tree, r: Res): (d: Res) {
    match r
    case Ok(p) => if p !in t then Broken else if t[p].Directory? then Ok(p) else Fail
    case _ => r
  }

  /** nameiparent() resolves all components but the last, to a directory. */
  lemma {:induction false} ParentIsAllButLast(t: Tree, at: nat, names: seq<string>)
    ensures names == [] ==> WalkParent(t, at, names) == Fail
    ensures names != [] ==> WalkParent(t, at, names) == DirectoryAt(t, Walk(t, at, names[..|names| - 1]))
    decreases |names|
  {
    if |names| > 1 {
      var but := names[..|names| - 1];
      assert but[0] == names[0] && but[1..] == names[1..][..|names| - 2];
      if at in t && t[at].Directory? {
        var n := Lookup(t[at].entries, names[0]);
        if n != 0 {
          ParentIsAllButLast(t, n, names[1..]);
        }
      }
    }
  }

  function Meaning(t: Tree, at: nat, names: seq<string>, parent: bool): (r: Res) {
    if parent then WalkParent(t, at, names) else Walk(t, at, names)
  }

  class ICache {
    const tree: Tree
    var slots: seq<Slot>

    constructor (tree: Tree)
      ensures this.tree == tree && |slots| == NINODE && OneSlotEach(slots)
      ensures forall k: nat :: Refs(slots, k) == 0
    {
      this.tree := tree;
      slots := seq(NINODE, _ => Slot(0, 0));
      new;
      forall k: nat ensures Refs(slots, k) == 0 {
        NoRefs(slots, k);
      }
    }

    /** iget(): -1 is the panic when every slot is taken by another inode. */
    method Iget(inum: nat) returns (i: int)
      requires OneSlotEach(slots)
      modifies this
      ensures OneSlotEach(slots) && |slots| == |old(slots)|
      ensures i == -1 ==> slots == old(slots)
      ensures i == -1 <==> forall j :: 0 <= j < |old(slots)| ==> old(slots)[j].ref > 0 && old(slots)[j].inum != inum
      ensures i != -1 ==> 0 <= i < |slots| && slots[i].inum == inum && RefsMore(old(slots), slots, inum, 1)
      ensures i != -1 ==> slots[i].ref == old(slots)[i].ref + 1 && Others(old(slots), slots, i)
      ensures i != -1 && old(slots)[i].ref > 0 ==> old(slots)[i].inum == inum
    {
      var empty := -1;
      i := 0;
      while i < |slots|
        invariant 0 <= i <= |slots| && slots == old(slots)
        invariant forall j :: 0 <= j < i ==> !(slots[j].ref > 0 && slots[j].inum == inum)
        invariant empty == -1 || (0 <= empty < i && slots[empty].ref == 0)
        invariant empty == -1 ==> forall j :: 0 <= j < i ==> slots[j].ref > 0
      {
        if slots[i].ref > 0 && slots[i].inum == inum {
          AddRef(slots, i);
          slots := slots[i := Slot(slots[i].ref + 1, inum)];
          return;
        }
        if empty == -1 && slots[i].ref == 0 {
          empty := i;
        }
        i := i + 1;
      }
      if empty == -1 {
        return -1;
      }
      NewRef(slots, empty, inum);
      slots := slots[empty := Slot(1, inum)];
      i := empty;
    }

    method Idup(i: nat)
      requires OneSlotEach(slots) && i < |slots| && slots[i].ref > 0
      modifies this
      ensures OneSlotEach(slots) && |slots| == |old(slots)| && slots[i].inum == old(slots)[i].inum && slots[i].ref > 0
      ensures RefsMore(old(slots), slots, slots[i].inum, 1) && Others(old(slots), slots, i)
    {
      AddRef(slots, i);
      slots := slots[i := Slot(slots[i].ref + 1, slots[i].inum)];
    }

    /** iput() of an inode that still has a link or another reference. */
    method Iput(i: nat)
      requires OneSlotEach(slots) && i < |slots| && slots[i].ref > 0
      modifies this
      ensures OneSlotEach(slots) && |slots| == |old(slots)|
      ensures RefsMore(old(slots), slots, old(slots)[i].inum, -1) && Others(old(slots), slots, i)
      ensures slots[i] == Slot(old(slots)[i].ref - 1, old(slots)[i].inum)
    {
      DropRef(slots, i);
      slots := slots[i := Slot(slots[i].ref - 1, slots[i].inum)];
    }

    /** One round of the loop of namex() in directory ip, for a name that is not where it stops: the next
        inode is referenced, then ip is let go. */
    method Descend(ip: nat, es: seq<Dirent>, name: string, ghost before: seq<Slot>) returns (next: int, full: bool)
      requires OneSlotEach(slots) && ip < |slots| && slots[ip].ref > 0 && RefsMore(before, slots, slots[ip].inum, 1)
      modifies this
      ensures OneSlotEach(slots) && |slots| == |old(slots)|
      ensures full ==> AllTaken(slots) && Lookup(es, name) != 0
      ensures !full && next == -1 ==> Lookup(es, name) == 0 && RefsSame(before, slots)
      ensures !full && next != -1 ==>
        0 <= next < |slots| && slots[next].ref > 0 && slots[next].inum == Lookup(es, name) != 0
        && RefsMore(before, slots, slots[next].inum, 1)
    {
      ghost var s0 := slots;
      var inum, off := Dirlookup(es, name);
      if inum == 0 {
        Iput(ip);
        RefsReturned(before, s0, slots, s0[ip].inum);
        return -1, false;
      }
      next := Iget(inum);
      if next == -1 {
        return -1, true;
      }
      ghost var s1 := slots;
      assert slots[ip].inum == s0[ip].inum && slots[ip].ref > 0;
      Iput(ip);
      RefsMoved(before, s0, s1, slots, s0[ip].inum, inum);
      full := false;
    }

    /** What namex() has left to do: from the inode in slot ip, with the one reference it took, the components
        of path from at on still lead to the goal. */
    ghost predicate OnTheWay(path: string, at: nat, ip: int, parent: bool, goal: Res, before: seq<Slot>)
      reads this
    {
      && at <= |path| && Toward(Components(path[at..]), ip, parent, goal, before)
      && Suffix(Components(path), Components(path[at..]))
    }

    /** From the inode in slot ip, with the one reference it took, names lead to the goal. */
    ghost predicate Toward(names: seq<string>, ip: int, parent: bool, goal: Res, before: seq<Slot>)
      reads this
    {
      && OneSlotEach(slots) && |slots| == |before|
      && 0 <= ip < |slots| && slots[ip].ref > 0 && RefsMore(before, slots, slots[ip].inum, 1)
      && Meaning(tree, slots[ip].inum, names, parent) == goal
    }

    /** What the caller of namex() gets. */
    ghost predicate Answers(r: Outcome, goal: Res, before: seq<Slot>)
      reads this
    {
      match r
      case Found(i) =>
        i < |slots| && goal == Ok(slots[i].inum) && slots[i].ref > 0 && RefsMore(before, slots, slots[i].inum, 1)
      case NotFound => goal == Fail && RefsSame(before, slots)
      case Panic => goal == Broken || AllTaken(slots)
    }

    /** iunlockput() on the way out with nothing. */
    method GiveUp(ip: nat, ghost before: seq<Slot>)
      requires OneSlotEach(slots) && ip < |slots| && slots[ip].ref > 0 && RefsMore(before, slots, slots[ip].inum, 1)
      modifies this
      ensures OneSlotEach(slots) && |slots| == |old(slots)| && RefsSame(before, slots)
    {
      ghost var s0 := slots;
      Iput(ip);
      RefsReturned(before, s0, slots, s0[ip].inum);
    }

    /** A round of the loop of namex() for component name, rest being those behind it: either the answer, or the
        inode to go on from. */
    method Round(ghost rest: seq<string>, last: bool, name: string, ip0: nat, parent: bool, ghost goal: Res,
                 ghost before: seq<Slot>) returns (done: bool, r: Outcome, ip: nat)
      requires Toward([name] + rest, ip0, parent, goal, before) && (last <==> rest == [])
      modifies this
      ensures done ==> OneSlotEach(slots) && |slots| == |before| && Answers(r, goal, before)
      ensures done && parent && r.Found? ==> last
      ensures !done ==> Toward(rest, ip, parent, goal, before)
    {
      ip := ip0;
      assert ([name] + rest)[1..] == rest;
      if slots[ip].inum !in tree {
        return true, Panic, ip;
      }
      var node := tree[slots[ip].inum];
      if node.NotDirectory? {
        GiveUp(ip, before);
        return true, NotFound, ip;
      }
      if parent && last {
        return true, Found(ip), ip;
      }
      var to, full := Descend(ip, node.entries, name, before);
      if full {
        return true, Panic, ip;
      }
      if to == -1 {
        return true, NotFound, ip;
      }
      return false, NotFound, to;
    }

    /** The loop of namex() and what follows it, from the inode in slot ip0 on. */
    method Resolve(path: string, parent: bool, ip0: nat, ghost goal: Res, ghost before: seq<Slot>)
      returns (r: Outcome, name: string)
      requires OnTheWay(path, 0, ip0, parent, goal, before)
      modifies this
      ensures OneSlotEach(slots) && |slots| == |before| && Answers(r, goal, before)
      ensures parent && r.Found? ==> Components(path) != [] && name == Components(path)[|Components(path)| - 1]
    {
      name := "";
      var at, ip := 0, ip0;
      while true
        invariant at <= |path| && OnTheWay(path, at, ip, parent, goal, before)
        decreases |path| - at
      {
        var next, elem := Skipelem(path, at);
        if next == -1 {
          break;
        }
        name := elem;
        var done;
        done, r, ip := Round(Components(path[next..]), next == |path|, name, ip, parent, goal, before);
        if done {
          return;
        }
        at := next;
      }
      if parent {
        GiveUp(ip, before);
        return NotFound, name;
      }
      r := Found(ip);
    }

    /** namex(): the inode the components lead to from the root or from cwd, with one reference more; on
        failure no reference more or less. */
    method Namex(path: string, parent: bool, cwd: nat) returns (r: Outcome, name: string)
      requires OneSlotEach(slots) && cwd < |slots| && slots[cwd].ref > 0
      modifies this
      ensures OneSlotEach(slots) && |slots| == |old(slots)|
      ensures path != "" && path[0] == '/' ==>
                Answers(r, if parent then WalkParent(tree, 1, Components(path)) else Walk(tree, 1, Components(path)),
                        old(slots))
      ensures path == "" || path[0] != '/' ==>
                var at := old(slots)[cwd].inum;
                Answers(r, if parent then WalkParent(tree, at, Components(path)) else Walk(tree, at, Components(path)),
                        old(slots))
      ensures parent && r.Found? ==> Components(path) != [] && name == Components(path)[|Components(path)| - 1]
    {
      ghost var before := slots;
      var ip := cwd;
      if |path| > 0 && path[0] == '/' {
        var root := Iget(ROOTINO);
        if root == -1 {
          return Panic, "";
        }
        ip := root;
      } else {
        Idup(cwd);
      }
      assert path[0..] == path;
      r, name := Resolve(path, parent, ip, Meaning(tree, slots[ip].inum, Components(path), parent), before);
    }
  }

  predicate Suffix(all: seq<string>, rest: seq<string>) {
    |rest| <= |all| && all[|all| - |rest|..] == rest
  }

  datatype Outcome = Found(i: nat) | NotFound | Panic

  predicate AllTaken(slots: seq<Slot>) {
    forall j :: 0 <= j < |slots| ==> slots[j].ref > 0
  }

  ghost predicate RefsSame(a: seq<Slot>, b: seq<Slot>) {
    forall j: nat {:trigger Refs(b, j)} :: Refs(b, j) == Refs(a, j)
  }

  lemma RefsMoved(a: seq<Slot>, b: seq<Slot>, c: seq<Slot>, d: seq<Slot>, k: nat, n: nat)
    requires RefsMore(a, b, k, 1) && RefsMore(b, c, n, 1) && RefsMore(c, d, k, -1)
    ensures RefsMore(a, d, n, 1)
  {}

  lemma RefsReturned(a: seq<Slot>, b: seq<Slot>, c: seq<Slot>, k: nat)
    requires RefsMore(a, b, k, 1) && RefsMore(b, c, k, -1)
    ensures RefsSame(a, c)
  {}

  predicate Others(a: seq<Slot>, b: seq<Slot>, i: nat) {
    |a| == |b| && forall j {:trigger b[j]} :: 0 <= j < |a| && j != i ==> b[j] == a[j]
  }

  lemma {:induction false} NoRefs(slots: seq<Slot>, k: nat)
    requires forall j :: 0 <= j < |slots| ==> slots[j].ref == 0
    ensures Refs(slots, k) == 0
  {
    if slots != [] {
      NoRefs(slots[1..], k);
    }
  }

  lemma AddRef(slots: seq<Slot>, i: nat)
    requires i < |slots|
    ensures RefsMore(slots, slots[i := Slot(slots[i].ref + 1, slots[i].inum)], slots[i].inum, 1)
  {
    forall k: nat
      ensures Refs(slots[i := Slot(slots[i].ref + 1, slots[i].inum)], k)
              == Refs(slots, k) + if k == slots[i].inum then 1 else 0
    {
      RefsUpdate(slots, i, Slot(slots[i].ref + 1, slots[i].inum), k);
    }
  }

  lemma DropRef(slots: seq<Slot>, i: nat)
    requires i < |slots| && slots[i].ref > 0
    ensures RefsMore(slots, slots[i := Slot(slots[i].ref - 1, slots[i].inum)], slots[i].inum, -1)
  {
    forall k: nat
      ensures Refs(slots[i := Slot(slots[i].ref - 1, slots[i].inum)], k)
              == Refs(slots, k) + if k == slots[i].inum then -1 else 0
    {
      RefsUpdate(slots, i, Slot(slots[i].ref - 1, slots[i].inum), k);
    }
  }

  lemma NewRef(slots: seq<Slot>, i: nat, inum: nat)
    requires i < |slots| && slots[i].ref == 0
    ensures RefsMore(slots, slots[i := Slot(1, inum)], inum, 1)
  {
    forall k: nat ensures Refs(slots[i := Slot(1, inum)], k) == Refs(slots, k) + if k == inum then 1 else 0 {
      RefsUpdate(slots, i, Slot(1, inum), k);
    }
  }
}
