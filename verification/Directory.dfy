/** Directories as files: dirlookup() and dirlink() of fs.c read and write struct dirent records with readi()
    and writei(). */
module Directory {
  import opened Blocks
  import opened FsState
  import opened FileContents
  import opened FsDisk
  import opened FileSystem
  import Path

  const T_DIR := 1
  const DESIZE := 16
  const USHORT := 0x1_0000

  /** A C string: no 0 inside, one byte a character. */
  predicate CString(s: string) {
    forall k :: 0 <= k < |s| ==> 0 < s[k] as int < 256
  }

  /** The characters of name[DIRSIZ] up to the first 0. */
  function NameOf(bs: seq<Byte>): (s: string)
    ensures |s| <= |bs|
  {
    if bs == [] || bs[0] == 0 then [] else [bs[0] as char] + NameOf(bs[1..])
  }

  /** strncpy(): the name, then zeros up to n bytes. */
  function NameBytes(s: string, n: nat): (bs: seq<Byte>)
    requires CString(s)
    ensures |bs| == n
  {
    seq<Byte>(n, k requires 0 <= k < n => if k < |s| then s[k] as int else 0)
  }

  function EntryAt(f: seq<Byte>, k: nat): (e: Path.Dirent)
    requires DESIZE * k + DESIZE <= |f|
  {
    var p := DESIZE * k;
    var low: int, high: int := f[p], f[p + 1];
    Path.Dirent(low + 0x100 * high, NameOf(f[p + 2..p + DESIZE]))
  }

  /** The entries of a directory file. */
  function Entries(f: seq<Byte>): (es: seq<Path.Dirent>)
    ensures |es| == |f| / DESIZE
  {
    seq(|f| / DESIZE, k requires 0 <= k < |f| / DESIZE => EntryAt(f, k))
  }

  function EntryBytes(inum: nat, name: string): (bs: seq<Byte>)
    requires CString(name)
    ensures |bs| == 16 && (bs[0] as int) + 0x100 * (bs[1] as int) == inum % 0x1_0000
    ensures forall k :: 0 <= k < 14 ==> bs[2 + k] == if k < |name| then name[k] as int else 0
  {
    [inum % USHORT % 0x100, inum % USHORT / 0x100] + NameBytes(name, Path.DIRSIZ)
  }

  lemma NameTail(s: string, n: nat)
    requires CString(s) && s != [] && n > 0
    ensures CString(s[1..]) && NameBytes(s, n)[0] == s[0] as int && NameBytes(s, n)[1..] == NameBytes(s[1..], n - 1)
  {}

  lemma {:induction false} NameRoundTrip(s: string, n: nat)
    requires CString(s)
    ensures NameOf(NameBytes(s, n)) == if |s| >= n then s[..n] else s
  {
    if n > 0 && s != [] {
      NameTail(s, n);
      NameRoundTrip(s[1..], n - 1);
      if |s| >= n {
        assert s[..n] == [s[0]] + s[1..][..n - 1];
      } else {
        assert s == [s[0]] + s[1..];
      }
    }
  }

  /** What dirlink() writes is the entry with that name, cut to DIRSIZ, and that inode number, cut to a ushort. */
  lemma EntryRoundTrip(f: seq<Byte>, k: nat, inum: nat, name: string)
    requires CString(name) && DESIZE * k + DESIZE <= |f|
    requires f[DESIZE * k..DESIZE * k + DESIZE] == EntryBytes(inum, name)
    ensures EntryAt(f, k) == Path.Dirent(inum % USHORT, Path.Trunc(name))
  {
    var p, bs := DESIZE * k, EntryBytes(inum, name);
    assert f[p] == f[p..p + DESIZE][0] && f[p + 1] == f[p..p + DESIZE][1];
    assert f[p + 2..p + DESIZE] == f[p..p + DESIZE][2..] == NameBytes(name, Path.DIRSIZ);
    NameRoundTrip(name, Path.DIRSIZ);
  }

  /** A record written over entry k, or after the last one. */
  lemma EntriesAfterPut(f: seq<Byte>, k: nat, inum: nat, name: string)
    requires CString(name) && |f| % DESIZE == 0 && k <= |Entries(f)|
    ensures var e := Path.Dirent(inum % USHORT, Path.Trunc(name));
            Entries(Splice(f, DESIZE * k, EntryBytes(inum, name)))
            == if k < |Entries(f)| then Entries(f)[k := e] else Entries(f) + [e]
  {
    var bs := EntryBytes(inum, name);
    var g, e := Splice(f, DESIZE * k, bs), Path.Dirent(inum % USHORT, Path.Trunc(name));
    assert g[DESIZE * k..DESIZE * k + DESIZE] == bs;
    EntryRoundTrip(g, k, inum, name);
    forall l: nat | l < |Entries(f)| && l != k ensures EntryAt(g, l) == EntryAt(f, l) {
      OtherRecord(f, k, bs, l);
      SameEntry(f, g, l);
    }
  }

  lemma OtherRecord(f: seq<Byte>, k: nat, bs: seq<Byte>, l: nat)
    requires |bs| == DESIZE && DESIZE * k <= |f| && DESIZE * l + DESIZE <= |f| && l != k
    ensures var g := Splice(f, DESIZE * k, bs);
            g[DESIZE * l..DESIZE * l + DESIZE] == f[DESIZE * l..DESIZE * l + DESIZE]
  {}

  lemma SameEntry(f: seq<Byte>, g: seq<Byte>, k: nat)
    requires DESIZE * k + DESIZE <= |f| && DESIZE * k + DESIZE <= |g|
    requires g[DESIZE * k..DESIZE * k + DESIZE] == f[DESIZE * k..DESIZE * k + DESIZE]
    ensures EntryAt(g, k) == EntryAt(f, k)
  {
    var p := DESIZE * k;
    assert f[p] == f[p..p + DESIZE][0] && f[p + 1] == f[p..p + DESIZE][1];
    assert g[p] == g[p..p + DESIZE][0] && g[p + 1] == g[p..p + DESIZE][1];
    assert f[p + 2..p + DESIZE] == f[p..p + DESIZE][2..] && g[p + 2..p + DESIZE] == g[p..p + DESIZE][2..];
  }

  // dirlookup() and dirlink().

  /** Panicked is the panic; off is the byte offset of the entry. */
  datatype Found = Panicked | Missing | At(inum: nat, off: nat)

  /** Not among the first n entries. */
  ghost predicate NotBefore(es: seq<Path.Dirent>, name: string, n: nat) {
    n <= |es| && forall k :: 0 <= k < n ==> !(es[k].inum != 0 && es[k].name == Path.Trunc(name))
  }

  /** The entry at byte offset off is the one that a lookup of that name gives. */
  ghost predicate FoundIn(es: seq<Path.Dirent>, name: string, inum: nat, off: nat) {
    && inum == Path.Lookup(es, name) != 0
    && exists k: nat :: k < |es| && off == DESIZE * k && es[k] == Path.Dirent(inum, Path.Trunc(name))
  }

  lemma FoundAt(es: seq<Path.Dirent>, name: string, n: nat)
    requires NotBefore(es, name, n) && n < |es| && es[n].inum != 0 && es[n].name == Path.Trunc(name)
    ensures FoundIn(es, name, es[n].inum, DESIZE * n)
  {
    Path.LookupAt(es, name, n);
  }

  /** readi() of record k: false is the panic, when the directory ends inside it. */
  method ReadEntry(fs: Fs, i: nat, off: nat, ghost k: nat) returns (ok: bool, de: Path.Dirent)
    requires fs.Ok() && Inv(fs.St(), fs.own) && i < |fs.inodes| && fs.inodes[i].kind != T_DEV
    requires off == DESIZE * k < fs.inodes[i].size
    modifies fs`image, fs`writes, fs`bitmap, fs`used, fs`data, fs`inodes, fs`dinodes, fs`own
    ensures fs.Ok() && fs.St() == old(fs.St()) && fs.own == old(fs.own)
    ensures ok <==> k < |Entries(File(fs.St(), i))|
    ensures ok ==> de == Entries(File(fs.St(), i))[k]
  {
    var r, bs := fs.Readi(i, off, DESIZE);
    ok := r == Count(DESIZE);
    if ok {
      MovedEntry(bs, File(fs.St(), i), k);
      de := EntryAt(bs, 0);
    } else {
      de := Path.Dirent(0, "");
    }
  }

  lemma MovedEntry(bs: seq<Byte>, f: seq<Byte>, k: nat)
    requires |bs| == DESIZE && DESIZE * k + DESIZE <= |f| && bs == f[DESIZE * k..DESIZE * k + DESIZE]
    ensures EntryAt(bs, 0) == EntryAt(f, k)
  {
    var p := DESIZE * k;
    assert bs[0] == f[p] && bs[1] == f[p + 1] && bs[2..DESIZE] == f[p + 2..p + DESIZE];
  }

  /** fs is still st, and file i of it has the entries es.  A proof looks inside by mentioning Opened(st.start). */
  ghost predicate Reading(fs: Fs, st: State, own: Owners, i: nat, es: seq<Path.Dirent>)
    reads fs
  {
    && fs.inodes == st.inodes && i < |st.inodes| && DESIZE * |es| <= st.inodes[i].size < DESIZE * |es| + DESIZE
    && forall k: nat {:trigger Opened(k)} :: k == st.start ==>
         && fs.Ok() && fs.St() == st && fs.own == own && Inv(st, own)
         && st.inodes[i].size <= MAXBYTES && es == Entries(File(st, i))
  }

  lemma IsReading(fs: Fs, i: nat)
    requires fs.Ok() && Inv(fs.St(), fs.own) && i < |fs.inodes|
    ensures fs.inodes[i].size <= MAXBYTES && Reading(fs, fs.St(), fs.own, i, Entries(File(fs.St(), i)))
  {}

  lemma ReadingOk(fs: Fs, st: State, own: Owners, i: nat, es: seq<Path.Dirent>)
    requires Reading(fs, st, own, i, es)
    ensures fs.Ok() && fs.St() == st && fs.own == own && Inv(st, own)
    ensures st.inodes[i].size <= MAXBYTES && es == Entries(File(st, i))
  {
    assert Opened(st.start);
  }

  method NextEntry(fs: Fs, i: nat, off: nat, ghost k: nat, ghost st: State, ghost own: Owners,
                   ghost es: seq<Path.Dirent>)
    returns (ok: bool, de: Path.Dirent)
    requires Reading(fs, st, own, i, es) && fs.inodes[i].kind != T_DEV && off == DESIZE * k < fs.inodes[i].size
    modifies fs`image, fs`writes, fs`bitmap, fs`used, fs`data, fs`inodes, fs`dinodes, fs`own
    ensures Reading(fs, st, own, i, es)
    ensures ok <==> k < |es|
    ensures ok ==> de == es[k]
  {
    ReadingOk(fs, st, own, i, es);
    ok, de := ReadEntry(fs, i, off, k);
    IsReading(fs, i);
  }

  /** The search of dirlookup(). */
  method Search(fs: Fs, i: nat, name: string, ghost st: State, ghost own: Owners, ghost es: seq<Path.Dirent>)
    returns (r: Found)
    requires Reading(fs, st, own, i, es) && fs.inodes[i].kind == T_DIR
    modifies fs`image, fs`writes, fs`bitmap, fs`used, fs`data, fs`inodes, fs`dinodes, fs`own
    ensures Reading(fs, st, own, i, es)
    ensures r == Panicked <==> Path.Lookup(es, name) == 0 && st.inodes[i].size != DESIZE * |es|
    ensures r == Missing ==> Path.Lookup(es, name) == 0
    ensures r.At? ==> FoundIn(es, name, r.inum, r.off)
  {
    var off := 0;
    ghost var k := 0;
    while off < fs.inodes[i].size
      invariant Reading(fs, st, own, i, es)
      invariant off == DESIZE * k && NotBefore(es, name, k)
      decreases st.inodes[i].size - off
    {
      var ok, de := NextEntry(fs, i, off, k, st, own, es);
      if !ok {
        Path.LookupAt(es, name, k);
        return Panicked;
      }
      if de.inum != 0 && Path.Trunc(name) == de.name {
        FoundAt(es, name, k);
        return At(de.inum, off);
      }
      off, k := off + DESIZE, k + 1;
    }
    Path.LookupAt(es, name, k);
    r := Missing;
  }

  /** dirlookup(): the entry of that name; the panics are for what is no directory and for a torn last record
      that the search comes to. */
  method Dirlookup(fs: Fs, i: nat, name: string) returns (r: Found)
    requires fs.Ok() && Inv(fs.St(), fs.own) && i < |fs.inodes|
    modifies fs`image, fs`writes, fs`bitmap, fs`used, fs`data, fs`inodes, fs`dinodes, fs`own
    ensures fs.Ok() && fs.St() == old(fs.St()) && fs.own == old(fs.own)
    ensures fs.inodes[i].size <= MAXBYTES
    ensures var es := Entries(File(fs.St(), i));
            && (r == Panicked <==> fs.inodes[i].kind != T_DIR
                                   || (Path.Lookup(es, name) == 0 && fs.inodes[i].size % DESIZE != 0))
            && (r == Missing ==> Path.Lookup(es, name) == 0)
            && (r.At? ==> FoundIn(es, name, r.inum, r.off))
  {
    IsReading(fs, i);
    if fs.inodes[i].kind != T_DIR {
      return Panicked;
    }
    ghost var st, own, es := fs.St(), fs.own, Entries(File(fs.St(), i));
    r := Search(fs, i, name, st, own, es);
    ReadingOk(fs, st, own, i, es);
  }

  /** The index of the first entry not in use, or the number of entries. */
  function FreeEntry(es: seq<Path.Dirent>): (k: nat)
    ensures k <= |es| && (k < |es| ==> es[k].inum == 0)
  {
    if es == [] || es[0].inum == 0 then 0 else 1 + FreeEntry(es[1..])
  }

  lemma {:induction false} FirstFree(es: seq<Path.Dirent>, n: nat)
    requires n <= |es| && (forall k :: 0 <= k < n ==> es[k].inum != 0) && (n < |es| ==> es[n].inum == 0)
    ensures FreeEntry(es) == n
  {
    if n > 0 {
      FirstFree(es[1..], n - 1);
    }
  }

  /** The loop of dirlink() for an empty record; the directory has no torn one. */
  method FindFree(fs: Fs, i: nat, ghost st: State, ghost own: Owners, ghost es: seq<Path.Dirent>) returns (off: nat)
    requires Reading(fs, st, own, i, es) && fs.inodes[i].kind == T_DIR && st.inodes[i].size == DESIZE * |es|
    modifies fs`image, fs`writes, fs`bitmap, fs`used, fs`data, fs`inodes, fs`dinodes, fs`own
    ensures Reading(fs, st, own, i, es) && off == DESIZE * FreeEntry(es)
  {
    off := 0;
    ghost var k := 0;
    while off < fs.inodes[i].size
      invariant Reading(fs, st, own, i, es)
      invariant off == DESIZE * k && k <= |es| && forall l :: 0 <= l < k ==> es[l].inum != 0
      decreases st.inodes[i].size - off
    {
      var ok, de := NextEntry(fs, i, off, k, st, own, es);
      if de.inum == 0 {
        break;
      }
      off, k := off + DESIZE, k + 1;
    }
    FirstFree(es, k);
  }

  datatype Link = LinkPanic | Exists | Linked

  /** The directory's entries with one more. */
  function Put(es: seq<Path.Dirent>, e: Path.Dirent): (r: seq<Path.Dirent>) {
    var k := FreeEntry(es);
    if k < |es| then es[k := e] else es + [e]
  }

  /** Then that name, cut to DIRSIZ, leads to the inode, and every other name leads where it did. */
  lemma PutAddsName(es: seq<Path.Dirent>, inum: nat, name: string, n: string)
    requires inum != 0 && Path.Lookup(es, name) == 0
    ensures Path.Lookup(Put(es, Path.Dirent(inum, Path.Trunc(name))), n)
            == if Path.Trunc(n) == Path.Trunc(name) then inum else Path.Lookup(es, n)
  {
    Path.SameLookup(es, name);
    Path.LookupAfterPut(es, FreeEntry(es), Path.Dirent(inum, Path.Trunc(name)), n);
  }

  /** The free record is there or can be added. */
  predicate CanPut(used: seq<bool>, size: nat, es: seq<Path.Dirent>) {
    var off := DESIZE * FreeEntry(es);
    size % DESIZE == 0 && off + DESIZE <= MAXBYTES && HasRoom(used, size, off, DESIZE)
  }

  /** The store of dirlink(): a panic exactly if writei() does not take the whole record. */
  method WriteEntry(fs: Fs, i: nat, off: nat, name: string, inum: nat, ghost k: nat) returns (ok: bool)
    requires fs.Ok() && Inv(fs.St(), fs.own) && i < |fs.inodes| && fs.inodes[i].kind == T_DIR && CString(name)
    requires off == DESIZE * k <= fs.inodes[i].size && fs.inodes[i].size % DESIZE == 0
    modifies fs`image, fs`writes, fs`bitmap, fs`used, fs`data, fs`inodes, fs`dinodes, fs`own
    ensures fs.Ok()
    ensures ok <==> off + DESIZE <= MAXBYTES && HasRoom(old(fs.used), old(fs.inodes)[i].size, off, DESIZE)
    ensures ok ==> Inv(fs.St(), fs.own) && Wrote(old(fs.St()), fs.St(), i, EntryBytes(inum, name), off)
  {
    var r := fs.Writei(i, EntryBytes(inum, name), off);
    ok := r == Count(DESIZE);
  }

  /** What was written, in terms of entries. */
  lemma WroteEntry(st: State, own: Owners, st': State, i: nat, k: nat, inum: nat, name: string)
    requires Inv(st, own) && i < |st.inodes| && CString(name) && st.inodes[i].size % DESIZE == 0
    requires k <= |Entries(File(st, i))| && Wrote(st, st', i, EntryBytes(inum, name), DESIZE * k)
    ensures st'.inodes[i].size <= MAXBYTES && i < |st'.inodes|
    ensures var es, e := Entries(File(st, i)), Path.Dirent(inum % USHORT, Path.Trunc(name));
            Entries(File(st', i)) == if k < |es| then es[k := e] else es + [e]
  {
    WroteIsSplice(st, st', i, EntryBytes(inum, name), DESIZE * k, i);
    EntriesAfterPut(File(st, i), k, inum, name);
  }

  /** dirlink(): refuses a name that is there; else the entry is added and no other file changes.  It panics
      exactly for what is no directory, for a torn last record, and when the record has no place. */
  method Dirlink(fs: Fs, i: nat, name: string, inum: nat) returns (r: Link)
    requires fs.Ok() && Inv(fs.St(), fs.own) && i < |fs.inodes| && CString(name)
    modifies fs`image, fs`writes, fs`bitmap, fs`used, fs`data, fs`inodes, fs`dinodes, fs`own
    ensures fs.Ok() && old(fs.inodes)[i].size <= MAXBYTES
    ensures var es := Entries(File(old(fs.St()), i));
            && (r == Exists <==> old(fs.inodes)[i].kind == T_DIR && Path.Lookup(es, name) != 0)
            && (r == LinkPanic <==> old(fs.inodes)[i].kind != T_DIR
                                    || (Path.Lookup(es, name) == 0
                                        && !CanPut(old(fs.used), old(fs.inodes)[i].size, es)))
    ensures r == Exists ==> fs.St() == old(fs.St()) && fs.own == old(fs.own)
    ensures r == Linked ==> Inv(fs.St(), fs.own)
    ensures r == Linked ==>
              var es := Entries(File(old(fs.St()), i));
              && Wrote(old(fs.St()), fs.St(), i, EntryBytes(inum, name), DESIZE * FreeEntry(es))
              && Entries(File(fs.St(), i)) == Put(es, Path.Dirent(inum % USHORT, Path.Trunc(name)))
  {
    ghost var st, own := fs.St(), fs.own;
    var found := Dirlookup(fs, i, name);
    if found == Panicked {
      return LinkPanic;
    }
    if found.At? {
      return Exists;
    }
    IsReading(fs, i);
    ghost var es := Entries(File(st, i));
    var off := FindFree(fs, i, st, own, es);
    ReadingOk(fs, st, own, i, es);
    var ok := WriteEntry(fs, i, off, name, inum, FreeEntry(es));
    if ok {
      WroteEntry(st, own, fs.St(), i, FreeEntry(es), inum, name);
    }
    r := if ok then Linked else LinkPanic;
  }
}
