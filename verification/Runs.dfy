/** Interleaved runs of chunk write tasks from any number of clients. */
module Runs {
  import opened Arith
  import opened Layout
  import opened Placement
  import opened ChunkStorage
  import opened FlatFile

  /** One write task reaching its backend: the piece of w in chunk id. */
  datatype Task = Task(w: Write, id: nat)

  ghost predicate ValidTask(e: Env, cl: Cluster, t: Task) {
    WellFormed(e, cl, t.w) && RangeOf(e, t.w).Touches(t.id)
  }

  ghost predicate ValidRun(e: Env, cl: Cluster, run: seq<Task>) {
    forall i :: 0 <= i < |run| ==> ValidTask(e, cl, run[i])
  }

  /** The cluster after the tasks of a run, in order. */
  function After(e: Env, cl: Cluster, run: seq<Task>): (cl': Cluster)
    ensures |cl'| == |cl|
  {
    if run == [] then cl
    else ApplyPiece(e, After(e, cl, run[..|run| - 1]), run[|run| - 1].w, run[|run| - 1].id)
  }

  /** No task of the run uses the chunk directory of path under another name. */
  ghost predicate NoAlias(run: seq<Task>, path: string) {
    forall i :: 0 <= i < |run| && run[i].w.path != path ==> ChunkDir(run[i].w.path) != ChunkDir(path)
  }

  predicate TaskCovers(e: Env, t: Task, path: string, p: nat) { Covers(e, t.w, t.id, path, p) }

  /** The value left by the last task that covers p, or was if there is none. */
  function LastValue(e: Env, run: seq<Task>, path: string, p: nat, was: byte): byte {
    if run == [] then was
    else if TaskCovers(e, run[|run| - 1], path, p) then run[|run| - 1].w.data[p - run[|run| - 1].w.offset]
    else LastValue(e, run[..|run| - 1], path, p, was)
  }

  lemma TaskEffect(e: Env, cl: Cluster, t: Task, path: string, p: nat)
    requires ValidTask(e, cl, t) && Fits(e, p)
    requires t.w.path != path ==> ChunkDir(t.w.path) != ChunkDir(path)
    ensures FlatAt(e, ApplyPiece(e, cl, t.w, t.id), path, p)
         == if TaskCovers(e, t, path, p) then t.w.data[p - t.w.offset] else FlatAt(e, cl, path, p)
  {
    if t.w.path == path {
      PieceEffect(e, cl, t.w, t.id, p);
    } else {
      OtherPathUnchanged(e, cl, t.w, t.id, path, Quot(p, e.c));
    }
  }

  lemma TaskStores(e: Env, cl: Cluster, t: Task, path: string, p: nat)
    requires ValidTask(e, cl, t) && Fits(e, p)
    requires t.w.path != path ==> ChunkDir(t.w.path) != ChunkDir(path)
    ensures Stored(e, ApplyPiece(e, cl, t.w, t.id), path, p)
       <==> Stored(e, cl, path, p) || Extends(e, t.w, t.id, path, p)
  {
    if t.w.path == path {
      PieceEffect(e, cl, t.w, t.id, p);
    } else {
      OtherPathUnchanged(e, cl, t.w, t.id, path, Quot(p, e.c));
    }
  }

  /** Some task of the run stores p. */
  predicate Extended(e: Env, run: seq<Task>, path: string, p: nat) {
    run != [] && (Extends(e, run[|run| - 1].w, run[|run| - 1].id, path, p) || Extended(e, run[..|run| - 1], path, p))
  }

  /** In every run, every byte of every file is the one written by the last task that covers it. */
  lemma {:induction false} LastWriterWins(e: Env, cl: Cluster, run: seq<Task>, path: string, p: nat)
    requires ValidRun(e, cl, run) && NoAlias(run, path) && Fits(e, p)
    ensures FlatAt(e, After(e, cl, run), path, p) == LastValue(e, run, path, p, FlatAt(e, cl, path, p))
  {
    if run != [] {
      var init, last := run[..|run| - 1], run[|run| - 1];
      InitOfRun(e, cl, run, path);
      LastWriterWins(e, cl, init, path, p);
      LastOfRun(e, cl, run, path);
      TaskEffect(e, After(e, cl, init), last, path, p);
    }
  }

  lemma InitOfRun(e: Env, cl: Cluster, run: seq<Task>, path: string)
    requires ValidRun(e, cl, run) && NoAlias(run, path) && run != []
    ensures ValidRun(e, cl, run[..|run| - 1]) && NoAlias(run[..|run| - 1], path)
  {
  }

  /** The last task of a run works on the cluster that the others leave. */
  lemma {:induction false} LastOfRun(e: Env, cl: Cluster, run: seq<Task>, path: string)
    requires ValidRun(e, cl, run) && NoAlias(run, path) && run != []
    ensures var last := run[|run| - 1];
      && ValidTask(e, After(e, cl, run[..|run| - 1]), last)
      && (last.w.path != path ==> ChunkDir(last.w.path) != ChunkDir(path))
  {
    assert ValidTask(e, cl, run[|run| - 1]);
  }

  /** The stored bytes after a run: those before it and those that a task wrote or filled up to. */
  lemma {:induction false} RunStores(e: Env, cl: Cluster, run: seq<Task>, path: string, p: nat)
    requires ValidRun(e, cl, run) && NoAlias(run, path) && Fits(e, p)
    ensures Stored(e, After(e, cl, run), path, p) <==> Stored(e, cl, path, p) || Extended(e, run, path, p)
  {
    if run != [] {
      var init, last := run[..|run| - 1], run[|run| - 1];
      InitOfRun(e, cl, run, path);
      RunStores(e, cl, init, path, p);
      LastOfRun(e, cl, run, path);
      TaskStores(e, After(e, cl, init), last, path, p);
    }
  }

  lemma {:induction false} AfterAppend(e: Env, cl: Cluster, run: seq<Task>, t: Task)
    ensures After(e, cl, run + [t]) == ApplyPiece(e, After(e, cl, run), t.w, t.id)
  {
    Snoc(run, t);
  }

  lemma {:induction false} AfterConcat(e: Env, cl: Cluster, a: seq<Task>, b: seq<Task>)
    ensures After(e, cl, a + b) == After(e, After(e, cl, a), b)
  {
    if b == [] {
      assert a + b == a;
    } else {
      AfterConcat(e, cl, a, b[..|b| - 1]);
      AppendLast(a, b);
      AfterAppend(e, cl, a + b[..|b| - 1], b[|b| - 1]);
    }
  }

  /** The ranges of two writes of the same file share no byte. */
  predicate Disjoint(v: Write, w: Write) {
    v.path != w.path || v.offset + |v.data| <= w.offset || w.offset + |w.data| <= v.offset
  }

  ghost predicate PairwiseDisjoint(ws: seq<Write>) {
    forall i, j :: 0 <= i < j < |ws| ==> Disjoint(ws[i], ws[j])
  }

  predicate WriteHolds(w: Write, path: string, p: nat) {
    w.path == path && w.offset <= p < w.offset + |w.data|
  }

  /** The writes applied one after the other to a plain byte array. */
  function Sequential(ws: seq<Write>, path: string, p: nat, was: byte): byte {
    if ws == [] then was
    else if WriteHolds(ws[|ws| - 1], path, p) then ws[|ws| - 1].data[p - ws[|ws| - 1].offset]
    else Sequential(ws[..|ws| - 1], path, p, was)
  }

  /** The run executes tasks of the given writes only. */
  ghost predicate From(run: seq<Task>, ws: seq<Write>) {
    forall i :: 0 <= i < |run| ==> run[i].w in ws
  }

  /** The run executes every task of every given write, at least once. */
  ghost predicate Complete(e: Env, run: seq<Task>, ws: seq<Write>) {
    forall w, id: nat :: w in ws && RangeOf(e, w).Touches(id) ==> Task(w, id) in run
  }

  lemma {:induction false} SequentialHit(ws: seq<Write>, path: string, p: nat, was: byte, w: Write)
    requires PairwiseDisjoint(ws) && w in ws && WriteHolds(w, path, p)
    ensures Sequential(ws, path, p, was) == w.data[p - w.offset]
  {
    var last := ws[|ws| - 1];
    if w != last {
      var i :| 0 <= i < |ws| && ws[i] == w;
      assert Disjoint(ws[i], last);
      assert ws[..|ws| - 1][i] == w;
      SequentialHit(ws[..|ws| - 1], path, p, was, w);
    }
  }

  lemma {:induction false} SequentialMiss(ws: seq<Write>, path: string, p: nat, was: byte)
    requires forall w :: w in ws ==> !WriteHolds(w, path, p)
    ensures Sequential(ws, path, p, was) == was
  {
    if ws != [] { SequentialMiss(ws[..|ws| - 1], path, p, was); }
  }

  lemma {:induction false} LastValueHit(e: Env, run: seq<Task>, ws: seq<Write>, path: string, p: nat, was: byte,
                                        w: Write)
    requires PairwiseDisjoint(ws) && From(run, ws) && w in ws && WriteHolds(w, path, p)
    ensures LastValue(e, run, path, p, was) == w.data[p - w.offset]
         || (LastValue(e, run, path, p, was) == was && Task(w, Quot(p, e.c)) !in run)
  {
    if run != [] {
      var init, last := run[..|run| - 1], run[|run| - 1];
      LastValueHit(e, init, ws, path, p, was, w);
      if TaskCovers(e, last, path, p) {
        var i, j :| 0 <= i < |ws| && 0 <= j < |ws| && ws[i] == w && ws[j] == last.w;
      }
    }
  }

  lemma {:induction false} LastValueMiss(e: Env, run: seq<Task>, ws: seq<Write>, path: string, p: nat, was: byte)
    requires From(run, ws) && forall w :: w in ws ==> !WriteHolds(w, path, p)
    ensures LastValue(e, run, path, p, was) == was
  {
    if run != [] {
      assert run[|run| - 1].w in ws;
      LastValueMiss(e, run[..|run| - 1], ws, path, p, was);
    }
  }

  /** Writers of disjoint ranges: every run leaves the bytes outside their ranges alone, shows in each
      range either the old or the new byte, and, once complete, the file of applying the writes
      one after the other, in whatever order ws lists them. */
  lemma {:induction false} ConcurrentWrites(e: Env, cl: Cluster, run: seq<Task>, ws: seq<Write>, path: string, p: nat)
    requires e.c > 0 && ValidRun(e, cl, run) && NoAlias(run, path) && Fits(e, p)
    requires PairwiseDisjoint(ws) && From(run, ws)
    ensures (forall w :: w in ws ==> !WriteHolds(w, path, p))
      ==> FlatAt(e, After(e, cl, run), path, p) == FlatAt(e, cl, path, p)
    ensures FlatAt(e, After(e, cl, run), path, p)
      in {FlatAt(e, cl, path, p), Sequential(ws, path, p, FlatAt(e, cl, path, p))}
    ensures Complete(e, run, ws)
      ==> FlatAt(e, After(e, cl, run), path, p) == Sequential(ws, path, p, FlatAt(e, cl, path, p))
  {
    var was := FlatAt(e, cl, path, p);
    LastWriterWins(e, cl, run, path, p);
    if w :| w in ws && WriteHolds(w, path, p) {
      SequentialHit(ws, path, p, was, w);
      LastValueHit(e, run, ws, path, p, was, w);
      PositionInPiece(RangeOf(e, w), p);
    } else {
      SequentialMiss(ws, path, p, was);
      LastValueMiss(e, run, ws, path, p, was);
    }
  }
}
