/** What the history kept by module LogRuns has to do with the calls that were made: operations are numbered as
    they begin, an entry is the log_write() that was made, by the operation that made it, and while nothing
    crashes the cache holds what the log_write()s say. */
module LogHistory {
  import opened Disk
  import opened LogCrash
  import opened LogRuns

  /** How many operations have begun. */
  function Begun(acts: seq<Action>): (n: nat)
    decreases |acts|
  {
    if acts == [] then 0 else Begun(acts[..|acts| - 1]) + if acts[|acts| - 1].BeginOp? then 1 else 0
  }

  /** The numbers of the operations that are outstanding; a crash ends them all. */
  function Open(acts: seq<Action>): (ids: seq<nat>)
    decreases |acts|
  {
    if acts == [] then []
    else
      var front := acts[..|acts| - 1];
      match acts[|acts| - 1]
      case BeginOp => Open(front) + [Begun(front)]
      case EndOp(k) => if k < |Open(front)| then Open(front)[..k] + Open(front)[k + 1..] else Open(front)
      case Crash => []
      case _ => Open(front)
  }

  /** The log_write()s made, each with the number of its operation. */
  function Made(acts: seq<Action>): (es: seq<Entry>)
    decreases |acts|
  {
    if acts == [] then []
    else
      var front := acts[..|acts| - 1];
      match acts[|acts| - 1]
      case LogWrite(k, b, data) => Made(front) + if k < |Open(front)| then [Entry(Open(front)[k], b, data)] else []
      case _ => Made(front)
  }

  ghost predicate Recorded(s: State, acts: seq<Action>) {
    && s.nextOp == Begun(acts) && s.issued == Made(acts) && |s.ops| == |Open(acts)|
    && forall k :: 0 <= k < |s.ops| ==> s.ops[k].id == Open(acts)[k]
  }

  lemma WriteRecorded(L: Layout, s: State, acts: seq<Action>)
    requires acts != [] && acts[|acts| - 1].LogWrite? && Enabled(L, s, acts[|acts| - 1])
    requires Recorded(s, acts[..|acts| - 1])
    ensures Recorded(After(L, s, acts[|acts| - 1]), acts)
  {}

  lemma BeginRecorded(L: Layout, s: State, acts: seq<Action>)
    requires acts != [] && acts[|acts| - 1].BeginOp? && Enabled(L, s, acts[|acts| - 1])
    requires Recorded(s, acts[..|acts| - 1])
    ensures Recorded(After(L, s, acts[|acts| - 1]), acts)
  {}

  lemma EndRecorded(L: Layout, s: State, acts: seq<Action>)
    requires acts != [] && acts[|acts| - 1].EndOp? && Enabled(L, s, acts[|acts| - 1])
    requires Recorded(s, acts[..|acts| - 1])
    ensures Recorded(After(L, s, acts[|acts| - 1]), acts)
  {}

  lemma OtherRecorded(L: Layout, s: State, acts: seq<Action>)
    requires acts != [] && Enabled(L, s, acts[|acts| - 1]) && Recorded(s, acts[..|acts| - 1])
    requires acts[|acts| - 1].DiskWrite? || acts[|acts| - 1].Finish? || acts[|acts| - 1].Crash?
    ensures Recorded(After(L, s, acts[|acts| - 1]), acts)
  {}

  /** In every run. */
  lemma {:induction false} HistoryIsCalls(L: Layout, init: Image, acts: seq<Action>)
    requires Exec(L, Boot(init), acts).Reached?
    ensures Recorded(Exec(L, Boot(init), acts).state, acts)
    decreases |acts|
  {
    if acts != [] {
      var front := acts[..|acts| - 1];
      HistoryIsCalls(L, init, front);
      var s := Exec(L, Boot(init), front).state;
      match acts[|acts| - 1]
      case LogWrite(_, _, _) => WriteRecorded(L, s, acts);
      case BeginOp => BeginRecorded(L, s, acts);
      case EndOp(_) => EndRecorded(L, s, acts);
      case _ => OtherRecorded(L, s, acts);
    }
  }

  predicate NoCrash(acts: seq<Action>) {
    forall i :: 0 <= i < |acts| ==> !acts[i].Crash?
  }

  lemma GroupsHoldAll(L: Layout, init: Image, s: State, a: Action)
    requires Flatten(s.durable) + s.current == s.issued && Enabled(L, s, a) && !a.Crash?
    ensures var t := After(L, s, a); Flatten(t.durable) + t.current == t.issued
  {
    var t := After(L, s, a);
    if a == DiskWrite && AtCommitPoint(s) {
      assert t.durable[..|t.durable| - 1] == s.durable;
      assert Flatten(t.durable) + [] == Flatten(t.durable);
    } else if a.LogWrite? {
      var e := Entry(s.ops[a.k].id, a.blockno, a.data);
      assert Flatten(s.durable) + (s.current + [e]) == (Flatten(s.durable) + s.current) + [e];
    }
  }

  lemma {:induction false} NothingForgotten(L: Layout, init: Image, acts: seq<Action>)
    requires Exec(L, Boot(init), acts).Reached? && NoCrash(acts)
    ensures var s := Exec(L, Boot(init), acts).state; Flatten(s.durable) + s.current == s.issued
    ensures !Exec(L, Boot(init), acts).state.phase.Recovering?
    decreases |acts|
  {
    if acts != [] {
      var front := acts[..|acts| - 1];
      NothingForgotten(L, init, front);
      GroupsHoldAll(L, init, Exec(L, Boot(init), front).state, acts[|acts| - 1]);
    }
  }

  /** While nothing crashes, every block in the cache holds what was last logged for it, or what mkfs left. */
  lemma ViewIsCalls(L: Layout, init: Image, acts: seq<Action>)
    requires Fits(L, init) && init[L.start].words[0] == 0
    requires Exec(L, Boot(init), acts).Reached? && NoCrash(acts)
    ensures AllHome(L, init, Made(acts))
    ensures SameHome(L, Exec(L, Boot(init), acts).state.view, Play(L, init, Made(acts)))
  {
    var s := Exec(L, Boot(init), acts).state;
    RunKeeps(L, init, acts);
    HistoryIsCalls(L, init, acts);
    NothingForgotten(L, init, acts);
    PlayConcat(L, init, Flatten(s.durable), s.current);
  }
}
