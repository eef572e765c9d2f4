/** Any number of forward_write calls at the same time: their tasks reach the backends in any order, and
    RPCs and handlers may fail. */
module Concurrent {
  import opened Arith
  import opened Layout
  import opened Placement
  import opened ChunkStorage
  import opened FlatFile
  import opened Runs
  import opened ForwardData
  import opened StripedIO

  /** One call: what it writes, the client's forwarder, what became of its RPCs, and the targets it
      posted to. */
  datatype Sent = Sent(w: Write, fwd: nat, outcome: nat -> Rpc, tried: seq<nat>) {

    /** The posting loop went through the planned targets up to the first that cannot be reached. */
    ghost predicate Made(e: Env, cl: Cluster) {
      var r := RangeOf(e, w);
      var targets := TargetList(e, fwd, w.path, r.First(), r.Last() + 1);
      WellFormed(e, cl, w) && StoppedAt(targets, outcome, |tried|) && tried == targets[..|tried|]
    }

    function Tasks(e: Env): seq<Task> { HostsRun(e, tried, w, outcome) }

    ghost function Took(e: Env): set<nat> { TookWrite(e, fwd, w.path, RangeOf(e, w), outcome) }

    /** The call puts byte p of path. */
    ghost predicate Puts(e: Env, path: string, p: nat) { w.path == path && Reached(e, w, Took(e), p) }
  }

  /** The run executes the tasks of the calls and no others, in any order. */
  ghost predicate Interleaves(e: Env, run: seq<Task>, calls: seq<Sent>) {
    forall t :: t in run <==> exists i :: 0 <= i < |calls| && t in calls[i].Tasks(e)
  }

  ghost predicate AllMade(e: Env, cl: Cluster, calls: seq<Sent>) {
    forall i :: 0 <= i < |calls| ==> calls[i].Made(e, cl)
  }

  /** No call uses the chunk directory of path under another name. */
  ghost predicate OneName(calls: seq<Sent>, path: string) {
    forall i :: 0 <= i < |calls| && calls[i].w.path != path ==> ChunkDir(calls[i].w.path) != ChunkDir(path)
  }

  function WritesOf(calls: seq<Sent>): seq<Write> {
    seq(|calls|, i requires 0 <= i < |calls| => calls[i].w)
  }

  lemma CallTakes(e: Env, cl: Cluster, c: Sent)
    requires c.Made(e, cl)
    ensures RunTakes(e, c.Tasks(e), c.w, c.Took(e))
  {
    var r := RangeOf(e, c.w);
    ListsPlanned(e, c.fwd, c.w.path, r.First(), r.Last() + 1);
    PostedTakes(e, c.fwd, c.w, TargetList(e, c.fwd, c.w.path, r.First(), r.Last() + 1), c.outcome, |c.tried|, c.tried);
  }

  /** Which task of a call runs. */
  lemma CallTask(e: Env, cl: Cluster, c: Sent, t: Task)
    requires c.Made(e, cl)
    ensures t in c.Tasks(e) <==> t.w == c.w && RangeOf(e, c.w).Touches(t.id) && t.id in c.Took(e)
  {
    CallTakes(e, cl, c);
    if t in c.Tasks(e) { var i :| 0 <= i < |c.Tasks(e)| && c.Tasks(e)[i] == t; }
  }

  lemma RunIsValid(e: Env, cl: Cluster, run: seq<Task>, calls: seq<Sent>, path: string)
    requires AllMade(e, cl, calls) && OneName(calls, path) && Interleaves(e, run, calls)
    ensures ValidRun(e, cl, run) && NoAlias(run, path) && From(run, WritesOf(calls))
  {
    forall k | 0 <= k < |run|
      ensures ValidTask(e, cl, run[k]) && run[k].w in WritesOf(calls)
      ensures run[k].w.path != path ==> ChunkDir(run[k].w.path) != ChunkDir(path)
    {
      assert run[k] in run;
      var i :| 0 <= i < |calls| && run[k] in calls[i].Tasks(e);
      CallTask(e, cl, calls[i], run[k]);
      assert WritesOf(calls)[i] == run[k].w;
    }
  }

  lemma {:induction false} NoneCovers(e: Env, run: seq<Task>, path: string, p: nat, was: byte)
    requires forall t :: t in run ==> !TaskCovers(e, t, path, p)
    ensures LastValue(e, run, path, p, was) == was
  {
    if run != [] {
      assert run[|run| - 1] in run;
      NoneCovers(e, run[..|run| - 1], path, p, was);
    }
  }

  /** A byte that no call puts. */
  lemma {:induction false} UntouchedByte(e: Env, cl: Cluster, run: seq<Task>, calls: seq<Sent>, path: string, p: nat,
                                         was: byte)
    requires AllMade(e, cl, calls) && Interleaves(e, run, calls)
    requires forall i :: 0 <= i < |calls| ==> !calls[i].Puts(e, path, p)
    ensures LastValue(e, run, path, p, was) == was
  {
    forall t | t in run ensures !TaskCovers(e, t, path, p) {
      var i :| 0 <= i < |calls| && t in calls[i].Tasks(e);
      CallTask(e, cl, calls[i], t);
    }
    NoneCovers(e, run, path, p, was);
  }

  /** A byte that call i puts. */
  lemma {:induction false} PutByte(e: Env, cl: Cluster, run: seq<Task>, calls: seq<Sent>, path: string, p: nat,
                                   was: byte, i: nat)
    requires AllMade(e, cl, calls) && Interleaves(e, run, calls) && PairwiseDisjoint(WritesOf(calls))
    requires From(run, WritesOf(calls)) && i < |calls| && calls[i].Puts(e, path, p)
    ensures LastValue(e, run, path, p, was) == calls[i].w.data[p - calls[i].w.offset]
  {
    var w := calls[i].w;
    PositionInPiece(RangeOf(e, w), p);
    CallTask(e, cl, calls[i], Task(w, Quot(p, e.c)));
    assert WritesOf(calls)[i] == w;
    LastValueHit(e, run, WritesOf(calls), path, p, was, w);
  }

  /** Calls that write disjoint ranges do not disturb each other, whatever the interleaving and whatever
      fails: every byte whose chunk took its piece has the byte of its call, and every other byte is
      the old one. */
  lemma {:induction false} ConcurrentCalls(e: Env, cl: Cluster, run: seq<Task>, calls: seq<Sent>, path: string, p: nat)
    requires AllMade(e, cl, calls) && OneName(calls, path) && Interleaves(e, run, calls)
    requires PairwiseDisjoint(WritesOf(calls)) && Fits(e, p)
    ensures forall i :: 0 <= i < |calls| && calls[i].Puts(e, path, p) ==>
      FlatAt(e, After(e, cl, run), path, p) == calls[i].w.data[p - calls[i].w.offset]
    ensures (forall i :: 0 <= i < |calls| ==> !calls[i].Puts(e, path, p)) ==>
      FlatAt(e, After(e, cl, run), path, p) == FlatAt(e, cl, path, p)
  {
    var was := FlatAt(e, cl, path, p);
    RunIsValid(e, cl, run, calls, path);
    LastWriterWins(e, cl, run, path, p);
    forall i | 0 <= i < |calls| && calls[i].Puts(e, path, p)
      ensures LastValue(e, run, path, p, was) == calls[i].w.data[p - calls[i].w.offset]
    {
      PutByte(e, cl, run, calls, path, p, was, i);
    }
    if forall i :: 0 <= i < |calls| ==> !calls[i].Puts(e, path, p) { UntouchedByte(e, cl, run, calls, path, p, was); }
  }

  /** Every RPC of every call did its share. */
  ghost predicate AllSucceed(e: Env, calls: seq<Sent>) {
    forall i :: 0 <= i < |calls| ==>
      AllWritten(e, calls[i].fwd, calls[i].w.path, RangeOf(e, calls[i].w), calls[i].outcome)
  }

  /** Calls that all return their size: the run is complete. */
  lemma SuccessIsComplete(e: Env, cl: Cluster, run: seq<Task>, calls: seq<Sent>)
    requires AllMade(e, cl, calls) && Interleaves(e, run, calls) && AllSucceed(e, calls)
    ensures Complete(e, run, WritesOf(calls))
  {
    forall w, id: nat | w in WritesOf(calls) && RangeOf(e, w).Touches(id) ensures Task(w, id) in run {
      var i :| 0 <= i < |calls| && WritesOf(calls)[i] == w;
      WrittenTook(e, calls[i].fwd, w.path, RangeOf(e, w), calls[i].outcome);
      CallTask(e, cl, calls[i], Task(w, id));
    }
  }

  /** Successful calls that write disjoint ranges leave the file of applying them one after the other. */
  lemma {:induction false} ConcurrentSuccess(e: Env, cl: Cluster, run: seq<Task>, calls: seq<Sent>, path: string,
                                             p: nat)
    requires e.c > 0 && AllMade(e, cl, calls) && OneName(calls, path) && Interleaves(e, run, calls)
    requires PairwiseDisjoint(WritesOf(calls)) && Fits(e, p) && AllSucceed(e, calls)
    ensures FlatAt(e, After(e, cl, run), path, p) == Sequential(WritesOf(calls), path, p, FlatAt(e, cl, path, p))
  {
    RunIsValid(e, cl, run, calls, path);
    SuccessIsComplete(e, cl, run, calls);
    ConcurrentWrites(e, cl, run, WritesOf(calls), path, p);
  }
}
