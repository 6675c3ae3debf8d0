/** begin_op()'s space reservation, and exactly when it keeps log_write() from panicking.

    The argument in log.c is that no operation appends more than MAXOPBLOCKS block numbers.
    Here the per-operation limit is a parameter, since filewrite() sizes its chunks from LOGSIZE
    instead, and the size of the on-disk log is the layout's, since mkfs chooses it.  log_write()
    tests for a full log before it looks whether the block is listed already, so what must not
    happen is that the log is full while an operation is outstanding. */
module LogReservation {
  import opened Disk
  import opened LogCrash
  import opened LogRuns

  /** What the operations may still append if each may append each in all. */
  function Spare(ops: seq<Op>, each: nat): (r: int)
    decreases |ops|
  {
    if ops == [] then 0
    else Spare(ops[..|ops| - 1], each) + each - ops[|ops| - 1].used
  }

  /** Every log_write of the run that appended did so within the operation's limit. */
  predicate Obeys(L: Layout, s: State, acts: seq<Action>, limit: nat)
    decreases |acts|
  {
    acts == [] ||
    var front, a := acts[..|acts| - 1], acts[|acts| - 1];
    && Obeys(L, s, front, limit)
    && (var o := Exec(L, s, front); o.Reached? ==> Permitted(o.state, a, limit))
  }

  predicate Permitted(s: State, a: Action, limit: nat) {
    a.LogWrite? && a.k < |s.ops| && a.blockno !in s.lh ==> s.ops[a.k].used < limit
  }

  predicate WithinLimit(s: State, limit: nat) {
    forall k :: 0 <= k < |s.ops| ==> s.ops[k].used <= limit
  }

  lemma {:induction false} SpareSplit(a: seq<Op>, b: seq<Op>, each: nat)
    ensures Spare(a + b, each) == Spare(a, each) + Spare(b, each)
    decreases |b|
  {
    if b == [] {
      assert a + b == a;
    } else {
      assert (a + b)[..|a + b| - 1] == a + b[..|b| - 1];
      SpareSplit(a, b[..|b| - 1], each);
    }
  }

  lemma SpareOne(op: Op, each: nat)
    ensures Spare([op], each) == each - op.used
  {
    assert [op][..0] == [];
  }

  lemma SpareMiddle(a: seq<Op>, op: Op, b: seq<Op>, each: nat)
    ensures Spare(a + [op] + b, each) == Spare(a, each) + each - op.used + Spare(b, each)
  {
    SpareSplit(a, [op], each);
    SpareSplit(a + [op], b, each);
    SpareOne(op, each);
  }

  lemma SpareWithout(ops: seq<Op>, k: nat, each: nat)
    requires k < |ops|
    ensures Spare(ops, each) == Spare(ops[..k] + ops[k + 1..], each) + each - ops[k].used
  {
    var a, b := ops[..k], ops[k + 1..];
    assert ops == a + [ops[k]] + b;
    SpareMiddle(a, ops[k], b, each);
    SpareSplit(a, b, each);
  }

  lemma SpareUpdate(ops: seq<Op>, k: nat, op: Op, each: nat)
    requires k < |ops|
    ensures Spare(ops[k := op], each) == Spare(ops, each) + ops[k].used - op.used
  {
    var a, b := ops[..k], ops[k + 1..];
    assert ops == a + [ops[k]] + b && ops[k := op] == a + [op] + b;
    SpareMiddle(a, ops[k], b, each);
    SpareMiddle(a, op, b, each);
  }

  lemma {:induction false} SpareBounds(ops: seq<Op>, each: nat)
    requires forall k :: 0 <= k < |ops| ==> ops[k].used <= each
    ensures 0 <= Spare(ops, each) <= |ops| * each
    decreases |ops|
  {
    if ops != [] {
      SpareBounds(ops[..|ops| - 1], each);
    }
  }

  // What the reservation achieves.

  /** Logged blocks and unused reservations fit in LOGSIZE; and, with the limit in the place of the
      reservation, they fit in what one transaction can come to. */
  ghost predicate Reserved(s: State, limit: nat) {
    && Distinct(s.lh) && WithinLimit(s, limit)
    && |s.lh| + Spare(s.ops, MAXOPBLOCKS) <= LOGSIZE
    && (s.phase.Running? ==> |s.lh| + Spare(s.ops, limit) <= Most(limit))
    && (s.phase.Running? && s.ops == [] ==> s.lh == [])
    && (!s.phase.Running? ==> s.ops == [])
  }

  /** The most block numbers a transaction can collect when each operation appends at most limit. */
  function Most(limit: nat): (n: nat) {
    if limit == 0 then 0 else MAXOPBLOCKS + 2 * limit
  }

  /** What begin_op() admits: with o operations outstanding and n blocks logged. */
  lemma AdmittedFits(n: nat, o: nat, limit: nat, spare: int)
    requires limit <= MAXOPBLOCKS && n + (o + 1) * MAXOPBLOCKS <= LOGSIZE && spare <= o * limit && (o == 0 ==> n == 0)
    ensures n + spare + limit <= if limit == 0 then n else MAXOPBLOCKS + 2 * limit
  {
    assert o == 0 || o == 1 || o == 2;
  }

  lemma BeginOpReserved(L: Layout, s: State, limit: nat)
    requires limit <= MAXOPBLOCKS && Reserved(s, limit) && Enabled(L, s, BeginOp)
    ensures Reserved(After(L, s, BeginOp), limit)
  {
    assert After(L, s, BeginOp).ops[..|s.ops|] == s.ops;
    SpareBounds(s.ops, limit);
    SpareBounds(s.ops, MAXOPBLOCKS);
    AdmittedFits(|s.lh|, |s.ops|, limit, Spare(s.ops, limit));
  }

  lemma LogWriteReserved(L: Layout, s: State, a: Action, limit: nat)
    requires limit <= MAXOPBLOCKS && Reserved(s, limit) && Enabled(L, s, a) && a.LogWrite? && Permitted(s, a, limit)
    ensures Reserved(After(L, s, a), limit)
  {
    var op := After(L, s, a).ops[a.k];
    SpareUpdate(s.ops, a.k, op, limit);
    SpareUpdate(s.ops, a.k, op, MAXOPBLOCKS);
  }

  lemma EndOpReserved(L: Layout, s: State, k: nat, limit: nat)
    requires limit <= MAXOPBLOCKS && Reserved(s, limit) && Enabled(L, s, EndOp(k))
    ensures Reserved(After(L, s, EndOp(k)), limit)
  {
    SpareWithout(s.ops, k, limit);
    SpareWithout(s.ops, k, MAXOPBLOCKS);
  }

  lemma StepReserved(L: Layout, s: State, a: Action, limit: nat)
    requires limit <= MAXOPBLOCKS && Reserved(s, limit) && Enabled(L, s, a) && Permitted(s, a, limit)
    ensures Reserved(After(L, s, a), limit)
  {
    match a
    case BeginOp => BeginOpReserved(L, s, limit);
    case LogWrite(_, _, _) => LogWriteReserved(L, s, a, limit);
    case EndOp(k) => EndOpReserved(L, s, k, limit);
    case DiskWrite =>
    case Finish =>
    case Crash =>
  }

  /** The reservation argument: whatever the operations do within their limit, the block numbers
      logged so far and all reservations not yet used fit in LOGSIZE, absorption keeps the logged
      block numbers distinct, and no transaction collects more than Most(limit) of them. */
  lemma {:induction false} ReservationHolds(L: Layout, init: Image, acts: seq<Action>, limit: nat)
    requires limit <= MAXOPBLOCKS && Obeys(L, Boot(init), acts, limit)
    ensures var o := Exec(L, Boot(init), acts); o.Reached? ==> Reserved(o.state, limit)
    decreases |acts|
  {
    if acts != [] {
      ReservationHolds(L, init, acts[..|acts| - 1], limit);
      var o := Exec(L, Boot(init), acts[..|acts| - 1]);
      if o.Reached? && Enabled(L, o.state, acts[|acts| - 1]) {
        StepReserved(L, o.state, acts[|acts| - 1], limit);
      }
    }
  }

  // When log_write() can panic.

  /** A state that operations within their limit can bring about. */
  ghost predicate Comes(L: Layout, init: Image, limit: nat, s: State) {
    exists acts :: Obeys(L, Boot(init), acts, limit) && Exec(L, Boot(init), acts) == Reached(s)
  }

  /** Operation k may log b: the block is listed already, or the operation is below its limit. */
  predicate MayLog(s: State, k: nat, b: nat, limit: nat) {
    s.phase.Running? && k < |s.ops| && (b in s.lh || s.ops[k].used < limit)
  }

  /** No log_write() that an operation may make panics. */
  ghost predicate WriteSafe(L: Layout, init: Image, limit: nat) {
    forall s, k, b :: Comes(L, init, limit, s) && MayLog(s, k, b, limit) ==> !WouldPanic(L, s)
  }

  /** No log_write() of a block that is not listed panics. */
  ghost predicate AppendSafe(L: Layout, init: Image, limit: nat) {
    forall s, k, b :: Comes(L, init, limit, s) && MayLog(s, k, b, limit) && b !in s.lh ==> !WouldPanic(L, s)
  }

  /** What log_write() has room for. */
  function Room(L: Layout): (n: int) {
    if L.size - 1 < LOGSIZE then L.size - 1 else LOGSIZE
  }

  lemma StaysBelow(L: Layout, init: Image, limit: nat, s: State, k: nat, b: nat)
    requires limit <= MAXOPBLOCKS && Comes(L, init, limit, s) && MayLog(s, k, b, limit)
    ensures limit > 0 && |s.lh| <= Most(limit) && (b !in s.lh ==> |s.lh| < Most(limit))
  {
    var acts :| Obeys(L, Boot(init), acts, limit) && Exec(L, Boot(init), acts) == Reached(s);
    ReservationHolds(L, init, acts, limit);
    SpareWithout(s.ops, k, limit);
    SpareBounds(s.ops[..k] + s.ops[k + 1..], limit);
  }

  // Runs that fill the log.

  /** One more action of a run. */
  lemma OneMorePermitted(L: Layout, s: State, acts: seq<Action>, a: Action, limit: nat)
    requires Obeys(L, s, acts, limit) && Exec(L, s, acts).Reached?
    requires var t := Exec(L, s, acts).state; Enabled(L, t, a) && Permitted(t, a, limit)
    ensures Obeys(L, s, acts + [a], limit) && Exec(L, s, acts + [a]) == Reached(After(L, Exec(L, s, acts).state, a))
  {
    LogRuns.OneMore(L, s, acts, a);
    assert (acts + [a])[..|acts + [a]| - 1] == acts;
  }

  /** The i-th block past the log. */
  function Home(L: Layout, i: nat): (b: nat) {
    L.start + L.size + i
  }

  /** The first operation waits while others come, log one block each and go, until MAXOPBLOCKS blocks
      are logged; then a second operation comes, and the first and the second log up to their limit. */
  function FillStep(L: Layout, limit: nat, n: nat): (acts: seq<Action>) {
    var write := LogWrite(if n < MAXOPBLOCKS || n >= MAXOPBLOCKS + limit then 1 else 0, Home(L, n), ZeroBlock());
    if n < MAXOPBLOCKS then [BeginOp, write, EndOp(1)]
    else if n == MAXOPBLOCKS then [BeginOp, write]
    else [write]
  }

  function Fill(L: Layout, limit: nat, n: nat): (acts: seq<Action>) {
    if n == 0 then [BeginOp] else Fill(L, limit, n - 1) + FillStep(L, limit, n - 1)
  }

  predicate UsedAt(ops: seq<Op>, limit: nat, n: nat) {
    if n <= MAXOPBLOCKS then |ops| == 1 && ops[0].used == 0
    else
      var more := n - MAXOPBLOCKS;
      && |ops| == 2
      && ops[0].used == (if more <= limit then more else limit)
      && ops[1].used == (if more <= limit then 0 else more - limit)
  }

  ghost predicate Filled(L: Layout, init: Image, limit: nat, n: nat, s: State) {
    && s.phase.Running? && |s.view| == |s.disk| == |init|
    && |s.lh| == n && (forall j :: 0 <= j < n ==> s.lh[j] == Home(L, j))
    && UsedAt(s.ops, limit, n)
  }

  /** Blocks enough past the log to fill it. */
  predicate Roomy(L: Layout, init: Image) {
    Fits(L, init) && Home(L, LOGSIZE) < |init|
  }

  /** Another operation comes, logs a block and goes. */
  lemma ComeAndGo(L: Layout, init: Image, limit: nat, n: nat, s: State)
    requires 1 <= limit <= MAXOPBLOCKS && Roomy(L, init) && n < Room(L) && n < MAXOPBLOCKS
    requires Filled(L, init, limit, n, s)
    ensures var w := LogWrite(1, Home(L, n), ZeroBlock());
            && Enabled(L, s, BeginOp)
            && var s1 := After(L, s, BeginOp);
            && Enabled(L, s1, w) && Permitted(s1, w, limit)
            && var s2 := After(L, s1, w);
            && Enabled(L, s2, EndOp(1)) && Filled(L, init, limit, n + 1, After(L, s2, EndOp(1)))
  {
    var s2 := After(L, After(L, s, BeginOp), LogWrite(1, Home(L, n), ZeroBlock()));
    assert forall i :: 0 <= i < |s2.lh| ==> s2.lh[i] == Home(L, i);
    assert s2.ops[..1] + s2.ops[2..] == s.ops;
  }

  lemma FillEarly(L: Layout, init: Image, limit: nat, n: nat, acts: seq<Action>)
    requires 1 <= limit <= MAXOPBLOCKS && Roomy(L, init) && n < Room(L) && n < MAXOPBLOCKS
    requires Obeys(L, Boot(init), acts, limit) && Exec(L, Boot(init), acts).Reached?
    requires Filled(L, init, limit, n, Exec(L, Boot(init), acts).state)
    ensures var r := acts + FillStep(L, limit, n);
            && Obeys(L, Boot(init), r, limit) && Exec(L, Boot(init), r).Reached?
            && Filled(L, init, limit, n + 1, Exec(L, Boot(init), r).state)
  {
    var b, w := Boot(init), LogWrite(1, Home(L, n), ZeroBlock());
    ComeAndGo(L, init, limit, n, Exec(L, b, acts).state);
    var acts1, acts2 := acts + [BeginOp], acts + [BeginOp] + [w];
    OneMorePermitted(L, b, acts, BeginOp, limit);
    OneMorePermitted(L, b, acts1, w, limit);
    OneMorePermitted(L, b, acts2, EndOp(1), limit);
    assert acts + FillStep(L, limit, n) == acts2 + [EndOp(1)];
  }

  lemma FillLate(L: Layout, init: Image, limit: nat, n: nat, acts: seq<Action>)
    requires 1 <= limit <= MAXOPBLOCKS && Roomy(L, init) && MAXOPBLOCKS <= n < Room(L) && n < Most(limit)
    requires Obeys(L, Boot(init), acts, limit) && Exec(L, Boot(init), acts).Reached?
    requires Filled(L, init, limit, n, Exec(L, Boot(init), acts).state)
    ensures var r := acts + FillStep(L, limit, n);
            && Obeys(L, Boot(init), r, limit) && Exec(L, Boot(init), r).Reached?
            && Filled(L, init, limit, n + 1, Exec(L, Boot(init), r).state)
  {
    var b, w := Boot(init), LogWrite(if n >= MAXOPBLOCKS + limit then 1 else 0, Home(L, n), ZeroBlock());
    if n == MAXOPBLOCKS {
      OneMorePermitted(L, b, acts, BeginOp, limit);
      OneMorePermitted(L, b, acts + [BeginOp], w, limit);
      assert acts + FillStep(L, limit, n) == acts + [BeginOp] + [w];
    } else {
      OneMorePermitted(L, b, acts, w, limit);
    }
  }

  lemma FillBegins(L: Layout, init: Image, limit: nat)
    ensures Obeys(L, Boot(init), [BeginOp], limit) && Exec(L, Boot(init), [BeginOp]).Reached?
    ensures Filled(L, init, limit, 0, Exec(L, Boot(init), [BeginOp]).state)
  {
    OneMorePermitted(L, Boot(init), [], BeginOp, limit);
    assert [] + [BeginOp] == [BeginOp];
  }

  /** Every number of logged blocks up to Most(limit) comes about, if the log has room for it. */
  lemma {:induction false} FillReaches(L: Layout, init: Image, limit: nat, n: nat)
    requires 1 <= limit <= MAXOPBLOCKS && Roomy(L, init) && n <= Room(L) && n <= Most(limit)
    ensures Obeys(L, Boot(init), Fill(L, limit, n), limit) && Exec(L, Boot(init), Fill(L, limit, n)).Reached?
    ensures Filled(L, init, limit, n, Exec(L, Boot(init), Fill(L, limit, n)).state)
  {
    if n == 0 {
      FillBegins(L, init, limit);
    } else {
      FillReaches(L, init, limit, n - 1);
      if n - 1 < MAXOPBLOCKS {
        FillEarly(L, init, limit, n - 1, Fill(L, limit, n - 1));
      } else {
        FillLate(L, init, limit, n - 1, Fill(L, limit, n - 1));
      }
    }
  }

  lemma {:induction false} ObeysMore(L: Layout, s: State, acts: seq<Action>, limit: nat, more: nat)
    requires Obeys(L, s, acts, limit) && limit <= more
    ensures Obeys(L, s, acts, more)
    decreases |acts|
  {
    if acts != [] {
      ObeysMore(L, s, acts[..|acts| - 1], limit, more);
    }
  }

  /** The log comes to be full while operations are outstanding, and one of them is below its limit
      unless Most(limit) is just what there is room for. */
  lemma GetsFull(L: Layout, init: Image, limit: nat) returns (s: State)
    requires limit >= 1 && Roomy(L, init) && (limit <= MAXOPBLOCKS ==> Room(L) <= Most(limit))
    ensures Comes(L, init, limit, s) && s.phase.Running? && s.ops != [] && |s.lh| == Room(L)
    ensures Home(L, |s.lh|) !in s.lh
    ensures limit > MAXOPBLOCKS || Room(L) < Most(limit) ==> s.ops[|s.ops| - 1].used < limit
  {
    var least := if limit < MAXOPBLOCKS then limit else MAXOPBLOCKS;
    FillReaches(L, init, least, Room(L));
    var acts := Fill(L, least, Room(L));
    ObeysMore(L, Boot(init), acts, least, limit);
    s := Exec(L, Boot(init), acts).state;
    FullState(L, init, least, Room(L), s);
  }

  lemma FullState(L: Layout, init: Image, limit: nat, n: nat, s: State)
    requires limit >= 1 && Filled(L, init, limit, n, s) && n <= Most(limit)
    ensures s.ops != [] && Home(L, n) !in s.lh && s.ops[|s.ops| - 1].used <= limit
    ensures n < Most(limit) ==> s.ops[|s.ops| - 1].used < limit
  {}

  /** Exactly when no log_write() of any kind panics, for every limit that operations may keep to. */
  lemma WriteSafeExactly(L: Layout, init: Image, limit: nat)
    requires Roomy(L, init)
    ensures WriteSafe(L, init, limit) <==> limit == 0 || MAXOPBLOCKS + 2 * limit < Room(L)
  {
    if limit == 0 || MAXOPBLOCKS + 2 * limit < Room(L) {
      forall s, k, b | Comes(L, init, limit, s) && MayLog(s, k, b, limit)
        ensures !WouldPanic(L, s)
      {
        StaysBelow(L, init, limit, s, k, b);
      }
    } else {
      var s := GetsFull(L, init, limit);
      if s.lh == [] {
        assert MayLog(s, |s.ops| - 1, 0, limit);
      } else {
        assert MayLog(s, 0, s.lh[0], limit);
      }
      assert WouldPanic(L, s);
    }
  }

  /** Exactly when no append panics. */
  lemma AppendSafeExactly(L: Layout, init: Image, limit: nat)
    requires Roomy(L, init)
    ensures AppendSafe(L, init, limit)
            <==> limit == 0 || (limit <= MAXOPBLOCKS && MAXOPBLOCKS + 2 * limit <= L.size - 1)
  {
    if limit == 0 || (limit <= MAXOPBLOCKS && MAXOPBLOCKS + 2 * limit <= L.size - 1) {
      forall s, k, b | Comes(L, init, limit, s) && MayLog(s, k, b, limit) && b !in s.lh
        ensures !WouldPanic(L, s)
      {
        StaysBelow(L, init, limit, s, k, b);
      }
    } else {
      var s := GetsFull(L, init, limit);
      assert MayLog(s, |s.ops| - 1, Home(L, |s.lh|), limit) && WouldPanic(L, s);
    }
  }

  /** On the log that mkfs makes, LOGSIZE blocks with the header, operations must keep to one block less
      than MAXOPBLOCKS. */
  lemma OnMkfsDisk(L: Layout, init: Image, limit: nat)
    requires Roomy(L, init) && L.size == LOGSIZE
    ensures WriteSafe(L, init, limit) <==> limit < MAXOPBLOCKS
    ensures AppendSafe(L, init, limit) <==> limit < MAXOPBLOCKS
  {
    WriteSafeExactly(L, init, limit);
    AppendSafeExactly(L, init, limit);
  }
}
