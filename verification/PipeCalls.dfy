/** What each call of pipewrite() and piperead() does over a whole run: which positions of the pipe's stream a
    write has filled, and how many bytes a read gets.  The record is kept beside the run, from its actions and
    the length of the stream alone. */
module PipeCalls {
  import opened Pipe

  /** A call of pipewrite() by p; at[j] is the position of the stream that its byte j went to. */
  datatype Call = Call(p: nat, addr: Bytes, at: seq<nat>)

  function Range(a: nat, b: nat): (r: seq<nat>) {
    seq<nat>(if a < b then b - a else 0, k requires 0 <= k => a + k)
  }

  /** The last call of p, -1 for none. */
  function Latest(calls: seq<Call>, p: nat): (k: int)
    ensures -1 <= k < |calls| && (k >= 0 ==> calls[k].p == p)
    ensures forall j :: k < j < |calls| ==> calls[j].p != p
  {
    if calls == [] then -1
    else if calls[|calls| - 1].p == p then |calls| - 1
    else Latest(calls[..|calls| - 1], p)
  }

  /** The bytes that entered the stream during an action are those of the call that made it. */
  function Noted(calls: seq<Call>, a: Action, before: nat, after: nat): (r: seq<Call>) {
    match a
    case Write(p, addr) => calls + [Call(p, addr, Range(before, after))]
    case WriteAgain(p) =>
      var k := Latest(calls, p);
      if k < 0 then calls else calls[k := calls[k].(at := calls[k].at + Range(before, after))]
    case _ => calls
  }

  function Calls(n: nat, acts: seq<Action>): (r: seq<Call>)
    decreases |acts|
  {
    if acts == [] then []
    else
      var front := acts[..|acts| - 1];
      var o, o' := Exec(Boot(n), front), Exec(Boot(n), acts);
      if o.Reached? && o'.Reached?
      then Noted(Calls(n, front), acts[|acts| - 1], |o.state.written|, |o'.state.written|)
      else []
  }

  /** Byte j of the call is at position at[j], and the positions ascend. */
  ghost predicate InOrder(written: Bytes, c: Call) {
    && |c.at| <= |c.addr|
    && (forall j :: 0 <= j < |c.at| ==> c.at[j] < |written| && written[c.at[j]] == c.addr[j])
    && (forall i, j :: 0 <= i < j < |c.at| ==> c.at[i] < c.at[j])
  }

  ghost predicate Fills(calls: seq<Call>, k: nat, j: nat, q: nat) {
    k < |calls| && j < |calls[k].at| && calls[k].at[j] == q
  }

  ghost predicate Filled(calls: seq<Call>, q: nat) {
    exists k: nat, j: nat :: Fills(calls, k, j, q)
  }

  /** Every byte of the stream came from one byte of one call. */
  ghost predicate Once(written: Bytes, calls: seq<Call>) {
    && (forall q: nat :: q < |written| ==> Filled(calls, q))
    && (forall k: nat, j: nat, k': nat, j': nat, q: nat {:trigger Fills(calls, k, j, q), Fills(calls, k', j', q)} ::
          Fills(calls, k, j, q) && Fills(calls, k', j', q) ==> k == k' && j == j')
  }

  /** A process inside pipewrite() has put exactly the first i bytes of its argument. */
  ghost predicate Inside(s: State, calls: seq<Call>, p: nat)
    requires p < |s.procs|
  {
    IsWriting(s.procs[p]) ==>
      var k := Latest(calls, p);
      k >= 0 && calls[k].addr == s.procs[p].addr && |calls[k].at| == s.procs[p].i
  }

  /** A call that is over has put all its bytes, unless the read end is closed or the caller was killed. */
  ghost predicate Over(s: State, calls: seq<Call>, k: nat)
    requires k < |calls|
  {
    var p := calls[k].p;
    || (p < |s.procs| && IsWriting(s.procs[p]) && k == Latest(calls, p))
    || |calls[k].at| == |calls[k].addr| || !s.readopen || p in s.killed
  }

  ghost predicate StreamOk(written: Bytes, calls: seq<Call>) {
    Once(written, calls) && forall k: nat {:trigger calls[k]} :: k < |calls| ==> InOrder(written, calls[k])
  }

  ghost predicate WritersOk(s: State, calls: seq<Call>) {
    && (forall p: nat {:trigger s.procs[p]} :: p < |s.procs| ==> Inside(s, calls, p))
    && (forall k: nat {:trigger Over(s, calls, k)} :: k < |calls| ==> Over(s, calls, k))
  }

  ghost predicate Recorded(s: State, calls: seq<Call>) {
    StreamOk(s.written, calls) && WritersOk(s, calls)
  }

  /** The stream grows by the bytes of one call, recorded as positions of call k. */
  lemma OnceGrows(written: Bytes, calls: seq<Call>, more: Bytes, k: nat, c: Call)
    requires Once(written, calls) && (forall i: nat {:trigger calls[i]} :: i < |calls| ==> InOrder(written, calls[i]))
    requires k <= |calls| && c.at == (if k < |calls| then calls[k].at else []) + Range(|written|, |written| + |more|)
    ensures Once(written + more, if k < |calls| then calls[k := c] else calls + [c])
  {
    var next, w := if k < |calls| then calls[k := c] else calls + [c], written + more;
    var n := if k < |calls| then |calls[k].at| else 0;
    forall q: nat | q < |w| ensures Filled(next, q) {
      if q < |written| {
        assert Filled(calls, q);
        var i: nat, j: nat :| Fills(calls, i, j, q);
        assert Fills(next, i, j, q);
      } else {
        assert Fills(next, k, n + (q - |written|), q);
      }
    }
    forall i: nat, j: nat, i': nat, j': nat, q: nat {:trigger Fills(next, i, j, q), Fills(next, i', j', q)}
      | Fills(next, i, j, q) && Fills(next, i', j', q)
      ensures i == i' && j == j'
    {
      OldOrNew(written, calls, c, k, more, next, i, j, q);
      OldOrNew(written, calls, c, k, more, next, i', j', q);
    }
  }

  lemma OldOrNew(written: Bytes, calls: seq<Call>, c: Call, k: nat, more: Bytes, next: seq<Call>,
                 i: nat, j: nat, q: nat)
    requires (forall i: nat {:trigger calls[i]} :: i < |calls| ==> InOrder(written, calls[i])) && k <= |calls|
    requires c.at == (if k < |calls| then calls[k].at else []) + Range(|written|, |written| + |more|)
    requires next == (if k < |calls| then calls[k := c] else calls + [c]) && Fills(next, i, j, q)
    ensures if q < |written| then Fills(calls, i, j, q)
            else i == k && j == (if k < |calls| then |calls[k].at| else 0) + (q - |written|)
  {
    if i < |calls| {
      assert InOrder(written, calls[i]);
    }
  }

  /** A call goes on: its next bytes enter the stream. */
  lemma InOrderGrows(written: Bytes, c: Call, more: Bytes)
    requires InOrder(written, c) && |c.at| + |more| <= |c.addr| && more == c.addr[|c.at|..|c.at| + |more|]
    ensures InOrder(written + more, c.(at := c.at + Range(|written|, |written| + |more|)))
  {
    var at, n := c.at + Range(|written|, |written| + |more|), |c.at|;
    forall j | 0 <= j < |at| ensures at[j] < |written + more| && (written + more)[at[j]] == c.addr[j] {
      if j >= n {
        assert more[j - n] == c.addr[j];
      }
    }
  }

  lemma InOrderStays(written: Bytes, c: Call, more: Bytes)
    requires InOrder(written, c)
    ensures InOrder(written + more, c)
  {}

  lemma {:induction false} LatestSame(calls: seq<Call>, k: nat, c: Call, p: nat)
    requires k < |calls| && c.p == calls[k].p
    ensures Latest(calls[k := c], p) == Latest(calls, p)
  {
    var n := |calls| - 1;
    if calls[n].p != p {
      if k < n {
        assert calls[k := c][..n] == calls[..n][k := c];
        LatestSame(calls[..n], k, c, p);
      } else {
        assert calls[k := c][..n] == calls[..n];
      }
    }
  }

  lemma LatestAppend(calls: seq<Call>, c: Call, p: nat)
    ensures Latest(calls + [c], p) == if c.p == p then |calls| else Latest(calls, p)
  {
    assert (calls + [c])[..|calls|] == calls;
  }

  /** What a process is writing and how far it has come. */
  predicate SameWrite(x: Proc, y: Proc) {
    IsWriting(x) == IsWriting(y) && (IsWriting(x) ==> y.addr == x.addr && y.i == x.i)
  }

  /** The process whose pipewrite() an action is a stretch of, -1 for none. */
  function Writer(a: Action): (p: int) {
    if a.Write? || a.WriteAgain? then a.p else -1
  }

  lemma OthersStay(s: State, a: Action, q: nat)
    requires Enabled(s, a) && q < |s.procs| && q != Writer(a)
    ensures var t := After(s, a);
            && |t.procs| == |s.procs| && SameWrite(s.procs[q], t.procs[q])
            && (t.readopen ==> s.readopen) && s.killed <= t.killed
  {}

  /** The argument of the call that an action is a stretch of, and how far it had come. */
  function Argument(s: State, a: Action): (r: (Bytes, nat))
    requires Enabled(s, a) && Writer(a) >= 0
  {
    if a.Write? then (a.addr, 0) else (s.procs[a.p].addr, s.procs[a.p].i)
  }

  /** A stretch of pipewrite() puts the next bytes of its argument, and ends with all of them put, or asleep, or
      in vain. */
  lemma WriterPuts(s: State, a: Action)
    requires Enabled(s, a) && Writer(a) >= 0
    ensures var t := After(s, a);
            var (addr, i) := Argument(s, a);
            var m := |t.written| - |s.written|;
            && 0 <= m && i + m <= |addr| && t.written == s.written + addr[i..i + m]
            && |t.procs| == |s.procs| && t.readopen == s.readopen && t.killed == s.killed
            && if IsWriting(t.procs[a.p]) then t.procs[a.p].addr == addr && t.procs[a.p].i == i + m
               else i + m == |addr| || !s.readopen || a.p in s.killed
  {}

  /** The call that a stretch of pipewrite() belongs to, before and after it. */
  ghost predicate Stretch(s: State, calls: seq<Call>, a: Action, next: seq<Call>, k: nat, c: Call, c': Call,
                          more: Bytes) {
    && k <= |calls| && Enabled(s, a) && Writer(a) == c.p && InOrder(s.written, c)
    && (if k < |calls| then k == Latest(calls, c.p) && c == calls[k] else s.procs[c.p].Idle? && c.at == [])
    && (c.addr, |c.at|) == Argument(s, a) && After(s, a).written == s.written + more
    && |c.at| + |more| <= |c.addr| && more == c.addr[|c.at|..|c.at| + |more|]
    && c' == c.(at := c.at + Range(|s.written|, |s.written| + |more|))
    && next == if k < |calls| then calls[k := c'] else calls + [c']
  }

  lemma StretchOf(s: State, calls: seq<Call>, a: Action) returns (k: nat, c: Call, c': Call, more: Bytes)
    requires Recorded(s, calls) && Enabled(s, a) && Writer(a) >= 0
    ensures Stretch(s, calls, a, Noted(calls, a, |s.written|, |After(s, a).written|), k, c, c', more)
  {
    WriterPuts(s, a);
    var (addr, i) := Argument(s, a);
    var m := |After(s, a).written| - |s.written|;
    more := addr[i..i + m];
    if a.Write? {
      k, c := |calls|, Call(a.p, addr, []);
      assert c.at + Range(|s.written|, |s.written| + m) == Range(|s.written|, |s.written| + m);
    } else {
      assert Inside(s, calls, a.p) by { var x := s.procs[a.p]; }
      k := Latest(calls, a.p);
      c := calls[k];
    }
    c' := c.(at := c.at + Range(|s.written|, |s.written| + m));
  }

  lemma StreamRecorded(s: State, calls: seq<Call>, a: Action, next: seq<Call>, k: nat, c: Call, c': Call, more: Bytes)
    requires Recorded(s, calls) && Stretch(s, calls, a, next, k, c, c', more)
    ensures StreamOk(After(s, a).written, next)
  {
    OnceGrows(s.written, calls, more, k, c');
    InOrderGrows(s.written, c, more);
    forall j: nat | j < |next| ensures InOrder(After(s, a).written, next[j]) {
      if j != k {
        InOrderStays(s.written, calls[j], more);
      }
    }
  }

  lemma WritersRecorded(s: State, calls: seq<Call>, a: Action, next: seq<Call>, k: nat, c: Call, c': Call, more: Bytes)
    requires Recorded(s, calls) && Stretch(s, calls, a, next, k, c, c', more)
    ensures WritersOk(After(s, a), next)
  {
    Frame(s, a);
    forall j: nat | j < |next| ensures Over(After(s, a), next, j) {
      if j != k {
        assert Over(s, calls, j);
        OverStays(s, calls, a, next, k, c, c', more, j);
      } else {
        StretchOver(s, calls, a, next, k, c, c', more);
      }
    }
    forall q: nat | q < |s.procs| ensures Inside(After(s, a), next, q) {
      assert Inside(s, calls, q) by { var x := s.procs[q]; }
      InsideStays(s, calls, a, next, k, c, c', more, q);
    }
  }

  lemma WriteRecorded(s: State, calls: seq<Call>, a: Action)
    requires Recorded(s, calls) && Enabled(s, a) && Writer(a) >= 0
    ensures var t := After(s, a); Recorded(t, Noted(calls, a, |s.written|, |t.written|))
  {
    var next := Noted(calls, a, |s.written|, |After(s, a).written|);
    var k, c, c', more := StretchOf(s, calls, a);
    StreamRecorded(s, calls, a, next, k, c, c', more);
    WritersRecorded(s, calls, a, next, k, c, c', more);
  }

  lemma StretchOver(s: State, calls: seq<Call>, a: Action, next: seq<Call>, k: nat, c: Call, c': Call, more: Bytes)
    requires Stretch(s, calls, a, next, k, c, c', more)
    ensures Over(After(s, a), next, k)
  {
    WriterPuts(s, a);
    LatestNow(calls, next, k, c', c.p);
  }

  lemma InsideStays(s: State, calls: seq<Call>, a: Action, next: seq<Call>, k: nat, c: Call, c': Call, more: Bytes,
                    q: nat)
    requires Stretch(s, calls, a, next, k, c, c', more) && q < |s.procs| && Inside(s, calls, q)
    ensures |After(s, a).procs| == |s.procs| && Inside(After(s, a), next, q)
  {
    WriterPuts(s, a);
    LatestNow(calls, next, k, c', q);
    if q != c.p {
      OthersStay(s, a, q);
    }
  }

  lemma LatestNow(calls: seq<Call>, next: seq<Call>, k: nat, c: Call, q: nat)
    requires k <= |calls| && next == if k < |calls| then calls[k := c] else calls + [c]
    requires k < |calls| ==> c.p == calls[k].p && k == Latest(calls, c.p)
    ensures Latest(next, q) == if c.p == q then k else Latest(calls, q)
  {
    if k < |calls| {
      LatestSame(calls, k, c, q);
    } else {
      LatestAppend(calls, c, q);
    }
  }

  lemma OverStays(s: State, calls: seq<Call>, a: Action, next: seq<Call>, k: nat, c: Call, c': Call, more: Bytes,
                  j: nat)
    requires Stretch(s, calls, a, next, k, c, c', more) && j < |calls| && j != k && Over(s, calls, j)
    ensures Over(After(s, a), next, j)
  {
    var q := calls[j].p;
    Frame(s, a);
    LatestNow(calls, next, k, c', q);
    if q < |s.procs| && q != c.p {
      OthersStay(s, a, q);
    }
  }

  lemma Frame(s: State, a: Action)
    requires Enabled(s, a)
    ensures var t := After(s, a); |t.procs| == |s.procs| && (t.readopen ==> s.readopen) && s.killed <= t.killed
    ensures Writer(a) < 0 ==> After(s, a).written == s.written
  {}

  lemma OtherRecorded(s: State, calls: seq<Call>, a: Action)
    requires Recorded(s, calls) && Enabled(s, a) && Writer(a) < 0
    ensures Recorded(After(s, a), calls)
  {
    var t := After(s, a);
    Frame(s, a);
    forall q: nat | q < |s.procs| ensures SameWrite(s.procs[q], t.procs[q]) && Inside(t, calls, q) {
      OthersStay(s, a, q);
      assert Inside(s, calls, q) by { var x := s.procs[q]; }
    }
    forall k: nat | k < |calls| ensures Over(t, calls, k) {
      assert Over(s, calls, k);
    }
  }

  lemma OneMore(n: nat, acts: seq<Action>)
    requires acts != [] && Exec(Boot(n), acts).Reached?
    ensures var front, a := acts[..|acts| - 1], acts[|acts| - 1];
            && Exec(Boot(n), front).Reached? && Enabled(Exec(Boot(n), front).state, a)
            && Exec(Boot(n), acts).state == After(Exec(Boot(n), front).state, a)
            && Calls(n, acts) == Noted(Calls(n, front), a, |Exec(Boot(n), front).state.written|,
                                       |Exec(Boot(n), acts).state.written|)
  {}

  lemma NothingRecorded(n: nat)
    ensures Recorded(Boot(n), [])
  {
    forall p: nat | p < n ensures Inside(Boot(n), [], p) {
      assert Boot(n).procs[p] == Idle;
    }
  }

  /** In every run the bytes of a write enter the stream in order and once, wherever other writers come between;
      a writer inside the call has put exactly as many as it thinks; one that is back has put all of them, unless
      the read end is closed or it was killed; and the stream holds nothing else. */
  lemma {:induction false} WritesEnterOnce(n: nat, acts: seq<Action>)
    requires Exec(Boot(n), acts).Reached?
    ensures Recorded(Exec(Boot(n), acts).state, Calls(n, acts))
    decreases |acts|
  {
    if acts == [] {
      NothingRecorded(n);
    } else {
      var front, a := acts[..|acts| - 1], acts[|acts| - 1];
      OneMore(n, acts);
      WritesEnterOnce(n, front);
      if Writer(a) >= 0 {
        WriteRecorded(Exec(Boot(n), front).state, Calls(n, front), a);
      } else {
        OtherRecorded(Exec(Boot(n), front).state, Calls(n, front), a);
      }
    }
  }

  // A single writer.

  predicate OneWriter(acts: seq<Action>, p: nat) {
    forall i :: 0 <= i < |acts| && Writer(acts[i]) >= 0 ==> acts[i].p == p
  }

  /** All that was passed to pipewrite(), in the order of the calls. */
  function Passed(acts: seq<Action>): (r: Bytes)
    decreases |acts|
  {
    if acts == [] then []
    else
      var a := acts[|acts| - 1];
      Passed(acts[..|acts| - 1]) + if a.Write? then a.addr else []
  }

  /** What a process has yet to put. */
  function Rest(x: Proc): (r: Bytes) {
    if IsWriting(x) && x.i <= |x.addr| then x.addr[x.i..] else []
  }

  ghost predicate Streams(s: State, p: nat, passed: Bytes) {
    && p < |s.procs| && s.killed == {}
    && (s.readopen ==> s.written + Rest(s.procs[p]) == passed)
  }

  lemma Sums(w: Bytes, r: Bytes, passed: Bytes, more: Bytes, put: Bytes, rest: Bytes)
    requires w + r == passed && r + more == put + rest
    ensures (w + put) + rest == passed + more
  {
    assert (w + put) + rest == w + (put + rest) == w + (r + more) == (w + r) + more;
  }

  lemma RestPut(s: State, a: Action, t: State, p: nat, addr: Bytes, i: nat, m: nat)
    requires Enabled(s, a) && Writer(a) == p && (addr, i) == Argument(s, a) && i + m <= |addr| && p < |t.procs|
    requires if IsWriting(t.procs[p]) then t.procs[p].addr == addr && t.procs[p].i == i + m else i + m == |addr|
    ensures Rest(t.procs[p]) == addr[i + m..] && addr[i..i + m] + addr[i + m..] == addr[i..]
    ensures Rest(s.procs[p]) + (if a.Write? then a.addr else []) == addr[i..]
  {}

  lemma WriterStreams(s: State, a: Action, p: nat, passed: Bytes)
    requires Streams(s, p, passed) && Enabled(s, a) && Writer(a) == p
    ensures Streams(After(s, a), p, passed + if a.Write? then a.addr else [])
  {
    var t := After(s, a);
    WriterPuts(s, a);
    if t.readopen {
      var (addr, i) := Argument(s, a);
      var m := |t.written| - |s.written|;
      RestPut(s, a, t, p, addr, i, m);
      Sums(s.written, Rest(s.procs[p]), passed, if a.Write? then a.addr else [], addr[i..i + m], addr[i + m..]);
    }
  }

  lemma OtherStreams(s: State, a: Action, p: nat, passed: Bytes)
    requires Streams(s, p, passed) && Enabled(s, a) && !a.Kill? && Writer(a) < 0
    ensures Streams(After(s, a), p, passed)
  {
    Frame(s, a);
    OthersStay(s, a, p);
  }

  /** With one writer, not killed, and the read end open, the stream and what the writer has yet to put are together
      what it passed; so when it is back, the stream is the concatenation of its arguments. */
  lemma {:induction false} OneWriterStream(n: nat, acts: seq<Action>, p: nat)
    requires OneWriter(acts, p) && NoKill(acts) && Exec(Boot(n), acts).Reached? && p < n
    ensures Streams(Exec(Boot(n), acts).state, p, Passed(acts))
    decreases |acts|
  {
    if acts == [] {
      assert Boot(n).procs[p] == Idle;
    } else {
      var front := acts[..|acts| - 1];
      OneMore(n, acts);
      OneWriterStream(n, front, p);
      if Writer(acts[|acts| - 1]) >= 0 {
        WriterStreams(Exec(Boot(n), front).state, acts[|acts| - 1], p, Passed(front));
      } else {
        OtherStreams(Exec(Boot(n), front).state, acts[|acts| - 1], p, Passed(front));
        assert Passed(front) + [] == Passed(front);
      }
    }
  }

  // Reading.

  /** What a read asked for: the argument of p's last piperead(). */
  function Asked(acts: seq<Action>, p: nat): (n: nat)
    decreases |acts|
  {
    if acts == [] then 0
    else
      var a := acts[|acts| - 1];
      if a.Read? && a.p == p then a.n else Asked(acts[..|acts| - 1], p)
  }

  predicate Reader(a: Action) {
    a.Read? || a.ReadAgain?
  }

  /** A stretch of piperead() by p for n bytes: on an empty pipe that may still be written to it sleeps, or gives up
      if killed; else it delivers the next bytes of the stream, n or all there are, and no writer sleeps on. */
  predicate Delivers(s: State, t: State, p: nat, n: nat) {
    && p < |s.procs| == |t.procs| && s.taken <= |s.written| && t.written == s.written
    && if s.taken == |s.written| && s.writeopen then
         t.taken == s.taken && t.delivered == s.delivered && t.procs[p] == if p in s.killed then Idle else ReadSleep(n)
       else
         && t.taken <= |s.written| && t.taken == (if |s.written| - s.taken < n then |s.written| else s.taken + n)
         && t.delivered == s.delivered + s.written[s.taken..t.taken]
         && t.procs[p] == Idle && forall q :: 0 <= q < |t.procs| ==> !t.procs[q].WriteSleep?
  }

  /** Whoever is inside piperead() wants what its call asked for. */
  ghost predicate Wants(s: State, acts: seq<Action>) {
    forall p: nat {:trigger s.procs[p]} :: p < |s.procs| && IsReading(s.procs[p]) ==> s.procs[p].n == Asked(acts, p)
  }

  lemma ReaderKeeps(s: State, a: Action, p: nat)
    requires Enabled(s, a) && p < |s.procs| && IsReading(After(s, a).procs[p])
    ensures if a.Read? && a.p == p then After(s, a).procs[p].n == a.n
            else IsReading(s.procs[p]) && After(s, a).procs[p].n == s.procs[p].n
  {}

  lemma {:induction false} ReadersWant(n: nat, acts: seq<Action>)
    requires Exec(Boot(n), acts).Reached?
    ensures Wants(Exec(Boot(n), acts).state, acts)
    decreases |acts|
  {
    if acts != [] {
      var front, a := acts[..|acts| - 1], acts[|acts| - 1];
      OneMore(n, acts);
      ReadersWant(n, front);
      var s, t := Exec(Boot(n), front).state, Exec(Boot(n), acts).state;
      Frame(s, a);
      forall p: nat | p < |t.procs| && IsReading(t.procs[p]) ensures t.procs[p].n == Asked(acts, p) {
        ReaderKeeps(s, a, p);
      }
    }
  }

  lemma ReadDelivers(s: State, a: Action)
    requires Enabled(s, a) && Reader(a)
    ensures Delivers(s, After(s, a), a.p, if a.Read? then a.n else s.procs[a.p].n)
  {}

  /** In every run each stretch of a read delivers min(n, bytes there are), n being what the call asked for. */
  lemma ReadsDeliver(n: nat, acts: seq<Action>, a: Action)
    requires Exec(Boot(n), acts).Reached? && Enabled(Exec(Boot(n), acts).state, a) && Reader(a)
    ensures var s := Exec(Boot(n), acts).state; Delivers(s, After(s, a), a.p, Asked(acts + [a], a.p))
  {
    ReadersWant(n, acts);
    ReadDelivers(Exec(Boot(n), acts).state, a);
    assert (acts + [a])[..|acts|] == acts;
  }
}
