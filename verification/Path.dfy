/** Path names and the inode cache of fs.c: skipelem(), iget(), iput(), dirlookup(), dirlink(), namex().

    A path is the characters before its terminating 0.  A name is at most DIRSIZ characters. */
module Path {
  const DIRSIZ := 14
  const ROOTINO := 1
  const NINODE := 50

  // Splitting a path.

  /** The characters up to the next slash. */
  function Word(s: string): (w: string)
    ensures |w| <= |s|
  {
    if s == [] || s[0] == '/' then [] else [s[0]] + Word(s[1..])
  }

  function Trunc(w: string): (r: string)
    ensures r <= w && |r| == if |w| < 14 then |w| else 14
  {
    if |w| >= DIRSIZ then w[..DIRSIZ] else w
  }

  /** The components between slashes, each cut to DIRSIZ. */
  function Components(s: string): (r: seq<string>)
    decreases |s|
  {
    if s == [] then []
    else if s[0] == '/' then Components(s[1..])
    else [Trunc(Word(s))] + Components(s[|Word(s)|..])
  }

  lemma {:induction false} WordIs(s: string, n: nat)
    requires n <= |s| && (forall i :: 0 <= i < n ==> s[i] != '/') && (n == |s| || s[n] == '/')
    ensures Word(s) == s[..n]
    decreases |s|
  {
    if n > 0 {
      WordIs(s[1..], n - 1);
      assert s[..n] == [s[0]] + s[1..][..n - 1];
    }
  }

  lemma {:induction false} SlashesSkip(s: string, n: nat)
    requires n <= |s| && forall i :: 0 <= i < n ==> s[i] == '/'
    ensures Components(s) == Components(s[n..])
    decreases |s|
  {
    if n > 0 {
      SlashesSkip(s[1..], n - 1);
      assert s[1..][n - 1..] == s[n..];
    } else {
      assert s[0..] == s;
    }
  }

  function Slashes(n: nat): (s: string) {
    seq(n, _ => '/')
  }

  predicate IsName(w: string) {
    w != "" && forall i :: 0 <= i < |w| ==> w[i] != '/'
  }

  /** names with runs of slashes before, between and behind them, gaps[k] being how many come before names[k]. */
  function Laid(names: seq<string>, gaps: seq<nat>): (s: string)
    requires |gaps| == |names| + 1
    decreases |names|
  {
    Slashes(gaps[0]) + if names == [] then "" else names[0] + Laid(names[1..], gaps[1..])
  }

  function Cut(names: seq<string>): (r: seq<string>) {
    seq(|names|, k requires 0 <= k < |names| => Trunc(names[k]))
  }

  lemma CutFirst(names: seq<string>)
    requires names != []
    ensures Cut(names) == [Trunc(names[0])] + Cut(names[1..])
  {}

  lemma GapSkips(n: nat, rest: string)
    ensures Components(Slashes(n) + rest) == Components(rest)
  {
    SlashesSkip(Slashes(n) + rest, n);
    assert (Slashes(n) + rest)[n..] == rest;
  }

  lemma FirstComponent(w: string, rest: string)
    requires IsName(w) && (rest == "" || rest[0] == '/')
    ensures Components(w + rest) == [Trunc(w)] + Components(rest)
  {
    WordIs(w + rest, |w|);
    assert (w + rest)[..|w|] == w && (w + rest)[|w|..] == rest;
  }

  /** A path of names without slashes, whatever the number of slashes between them, has those names, cut to
      DIRSIZ, as its components. */
  lemma {:induction false} ComponentsOfLaid(names: seq<string>, gaps: seq<nat>)
    requires |gaps| == |names| + 1 && (forall k :: 0 <= k < |names| ==> IsName(names[k]))
    requires forall k :: 0 < k < |names| ==> gaps[k] > 0
    ensures Components(Laid(names, gaps)) == Cut(names)
    decreases |names|
  {
    if names == [] {
      GapSkips(gaps[0], "");
    } else {
      var w, rest := names[0], Laid(names[1..], gaps[1..]);
      GapSkips(gaps[0], w + rest);
      FirstComponent(w, rest);
      ComponentsOfLaid(names[1..], gaps[1..]);
      CutFirst(names);
    }
  }

  /** The first loop of skipelem(), past the slashes. */
  method SkipSlashes(path: string, start: nat) returns (i: nat)
    requires start <= |path|
    ensures start <= i <= |path| && (i < |path| ==> path[i] != '/')
    ensures Components(path[start..]) == Components(path[i..])
  {
    i := start;
    while i < |path| && path[i] == '/'
      invariant start <= i <= |path|
      invariant forall k :: start <= k < i ==> path[k] == '/'
    {
      i := i + 1;
    }
    SlashesBetween(path, start, i);
  }

  lemma SlashesBetween(path: string, a: nat, b: nat)
    requires a <= b <= |path| && forall k :: a <= k < b ==> path[k] == '/'
    ensures Components(path[a..]) == Components(path[b..])
  {
    SlashesSkip(path[a..], b - a);
    assert path[a..][b - a..] == path[b..];
  }

  /** The second loop of skipelem(), to the end of the component. */
  method SkipWord(path: string, start: nat) returns (i: nat)
    requires start < |path| && path[start] != '/'
    ensures start < i <= |path|
    ensures Components(path[start..]) == [Trunc(path[start..i])] + Components(path[i..])
  {
    i := start;
    while i < |path| && path[i] != '/'
      invariant start <= i <= |path|
      invariant forall k :: start <= k < i ==> path[k] != '/'
    {
      i := i + 1;
    }
    WordBetween(path, start, i);
  }

  lemma WordBetween(path: string, a: nat, b: nat)
    requires a < b <= |path| && (forall k :: a <= k < b ==> path[k] != '/') && (b == |path| || path[b] == '/')
    ensures Components(path[a..]) == [Trunc(path[a..b])] + Components(path[b..])
  {
    WordIs(path[a..], b - a);
    assert path[a..][..b - a] == path[a..b];
    assert path[a..][b - a..] == path[b..];
  }

  /** The component, cut to DIRSIZ, goes into name. */
  method TakeName(path: string, s: nat, i: nat) returns (name: string)
    requires s <= i <= |path|
    ensures name == Trunc(path[s..i])
  {
    name := if i - s >= DIRSIZ then path[s..s + DIRSIZ] else path[s..i];
  }

  /** skipelem(): the index after the next component and its slashes, -1 if there is none. */
  method Skipelem(path: string, start: nat) returns (next: int, name: string)
    requires start <= |path|
    ensures next == -1 <==> Components(path[start..]) == []
    ensures next != -1 ==> start < next <= |path| && Components(path[start..]) == [name] + Components(path[next..])
    ensures next != -1 ==> (next == |path| <==> Components(path[next..]) == [])
  {
    var s := SkipSlashes(path, start);
    if s == |path| {
      return -1, "";
    }
    var i := SkipWord(path, s);
    name := TakeName(path, s, i);
    next := SkipSlashes(path, i);
    EndsThere(path, next);
  }

  lemma EndsThere(path: string, i: nat)
    requires i <= |path| && (i < |path| ==> path[i] != '/')
    ensures i == |path| <==> Components(path[i..]) == []
  {
    if i < |path| {
      NoSlashAhead(path[i..]);
    }
  }

  lemma NoSlashAhead(s: string)
    requires s != [] && s[0] != '/'
    ensures Components(s) != []
  {}

  // Directories.

  datatype Dirent = Dirent(inum: nat, name: string)

  /** The first entry in use with that name. */
  function Lookup(es: seq<Dirent>, name: string): (inum: nat) {
    if es == [] then 0
    else if es[0].inum != 0 && es[0].name == Trunc(name) then es[0].inum
    else Lookup(es[1..], name)
  }

  lemma {:induction false} LookupAt(es: seq<Dirent>, name: string, n: nat)
    requires n <= |es| && forall i :: 0 <= i < n ==> !(es[i].inum != 0 && es[i].name == Trunc(name))
    ensures Lookup(es, name) == Lookup(es[n..], name)
  {
    if n > 0 {
      LookupAt(es[1..], name, n - 1);
      assert es[1..][n - 1..] == es[n..];
    } else {
      assert es[0..] == es;
    }
  }

  /** An entry in use whose name agrees in DIRSIZ characters. */
  predicate IsNamed(e: Dirent, name: string) {
    e.inum != 0 && e.name == Trunc(name)
  }

  predicate FirstNamed(es: seq<Dirent>, name: string, k: nat) {
    k < |es| && IsNamed(es[k], name) && forall i :: 0 <= i < k ==> !IsNamed(es[i], name)
  }

  /** That is the first entry in use whose name agrees in DIRSIZ characters, and 0 exactly if there is none. */
  lemma {:induction false} LookupExactly(es: seq<Dirent>, name: string)
    ensures Lookup(es, name) == 0 <==> forall i :: 0 <= i < |es| ==> !IsNamed(es[i], name)
    ensures forall k: nat :: FirstNamed(es, name, k) ==> Lookup(es, name) == es[k].inum
  {
    if es != [] {
      LookupExactly(es[1..], name);
      forall k: nat | FirstNamed(es, name, k) && k > 0 ensures Lookup(es, name) == es[k].inum {
        assert FirstNamed(es[1..], name, k - 1);
      }
      if !IsNamed(es[0], name) && exists i :: 0 <= i < |es| && IsNamed(es[i], name) {
        var i :| 0 <= i < |es| && IsNamed(es[i], name);
        assert IsNamed(es[1..][i - 1], name);
      }
    }
  }

  /** The loop of dirlookup(): 0 for not found. */
  method Dirlookup(es: seq<Dirent>, name: string) returns (inum: nat, off: nat)
    ensures inum == Lookup(es, name)
    ensures inum != 0 ==> off < |es| && es[off] == Dirent(inum, Trunc(name))
  {
    off := 0;
    while off < |es|
      invariant off <= |es|
      invariant forall i :: 0 <= i < off ==> !(es[i].inum != 0 && es[i].name == Trunc(name))
    {
      if es[off].inum != 0 && Trunc(name) == es[off].name {
        LookupAt(es, name, off);
        return es[off].inum, off;
      }
      off := off + 1;
    }
    LookupAt(es, name, off);
    inum := 0;
  }

  /** Replacing a free entry, or adding one, adds one name. */
  lemma {:induction false} LookupAfterPut(es: seq<Dirent>, off: nat, e: Dirent, name: string)
    requires off <= |es| && (off < |es| ==> es[off].inum == 0)
    requires e.inum != 0 && Lookup(es, e.name) == 0 && e.name == Trunc(e.name)
    ensures Lookup(if off < |es| then es[off := e] else es + [e], name)
            == if Trunc(name) == e.name then e.inum else Lookup(es, name)
  {
    var r := if off < |es| then es[off := e] else es + [e];
    if off == 0 {
      assert |es| > 0 ==> r[1..] == es[1..];
      if Trunc(name) != e.name && |es| > 0 {
        assert Lookup(es, name) == Lookup(es[1..], name);
      }
    } else {
      assert r[1..] == if off < |es| then es[1..][off - 1 := e] else es[1..] + [e];
      LookupAfterPut(es[1..], off - 1, e, name);
    }
  }

  lemma {:induction false} SameLookup(es: seq<Dirent>, name: string)
    ensures Lookup(es, Trunc(name)) == Lookup(es, name)
  {
    if es != [] {
      SameLookup(es[1..], name);
    }
  }
}
