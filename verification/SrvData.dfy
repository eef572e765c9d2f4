/** src/daemon/handler/srv_data.cpp, rpc_srv_write: how a daemon finds its own chunks of a request,
    pulls their bytes and runs one task per chunk. */
module SrvData {
  import opened Arith
  import opened Layout
  import opened Placement
  import opened ChunkStorage
  import opened FlatFile

  /** The request a daemon receives (rpc_write_data_in_t, rpc_read_data_in_t). */
  datatype DataIn = DataIn(path: string, offset: nat, hostId: nat, hostSize: nat, chunkN: nat,
                           chunkStart: nat, chunkEnd: nat, totalChunkSize: nat)

  /** write_chunk_args and read_chunk_args; buf is an index into the bulk buffer. */
  datatype TaskArg = TaskArg(chnkId: nat, buf: nat, size: nat, off: nat)

  /** What goes wrong inside a handler: the transfers of the chunks from stop on fail, and the write
      tasks of the chunks in failed have no effect, because they fail or are cancelled. */
  datatype Fault = Fault(stop: nat, failed: set<nat>) {
    predicate Writes(id: nat) { id < stop && id !in failed }
  }

  /** The share of daemon h in range r of path. */
  datatype Share = Share(e: Env, h: nat, path: string, r: Range) {

    ghost predicate Valid() {
      && e.Valid() && r.c == e.c && r.NonEmpty() && IsAbsolute(path)
      && Addressable(e, r.offset, r.size)
    }

    predicate Serves(id: nat) { e.Serves(h, path, id) }

    /** Bytes of the pieces this daemon serves below chunk hi. */
    function Size(hi: nat): nat {
      if hi <= r.First() then 0
      else if Serves(hi - 1) then Size(hi - 1) + r.PieceAt(hi - 1).size
      else Size(hi - 1)
    }

    /** The tasks for the pieces below chunk hi, packed one behind the other in the bulk buffer. */
    function Tasks(hi: nat): seq<TaskArg> {
      if hi <= r.First() then []
      else if Serves(hi - 1) then Tasks(hi - 1) + [TaskOf(hi - 1)]
      else Tasks(hi - 1)
    }

    function TaskOf(id: nat): TaskArg {
      TaskArg(id, Size(id), r.PieceAt(id).size, r.PieceAt(id).chunkOff)
    }

    function AllSize(): nat { Size(r.Last() + 1) }

    function AllTasks(): seq<TaskArg> { Tasks(r.Last() + 1) }

    /** What the client has to send for this share. */
    function Request(): DataIn
      requires r.c > 0
    {
      DataIn(path, r.offset % r.c, h, e.hosts, |AllTasks()|, r.First(), r.Last(), AllSize())
    }
  }

  /** More chunks give more tasks and bytes; equally many tasks are the same tasks. */
  lemma {:induction false} ShareGrows(s: Share, a: nat, b: nat)
    requires a <= b
    ensures |s.Tasks(a)| <= |s.Tasks(b)| && s.Size(a) <= s.Size(b)
    ensures |s.Tasks(a)| == |s.Tasks(b)| ==> s.Tasks(a) == s.Tasks(b) && s.Size(a) == s.Size(b)
    decreases b
  {
    if a < b { ShareGrows(s, a, b - 1); }
  }

  /** The pieces of data for this share, one behind the other. */
  function Gather(s: Share, data: seq<byte>, hi: nat): seq<byte> {
    if hi <= s.r.First() then []
    else if s.Serves(hi - 1) then
      Gather(s, data, hi - 1) + Slice(data, s.r.PieceAt(hi - 1).origin, s.r.PieceAt(hi - 1).size)
    else Gather(s, data, hi - 1)
  }

  lemma {:induction false} GatherSize(s: Share, data: seq<byte>, hi: nat)
    requires s.r.NonEmpty() && |data| == s.r.size && hi <= s.r.Last() + 1
    ensures |Gather(s, data, hi)| == s.Size(hi)
  {
    if hi > s.r.First() {
      GatherSize(s, data, hi - 1);
      PieceBounds(s.r, hi - 1);
    }
  }

  lemma {:induction false} GatherSame(s: Share, data: seq<byte>, a: nat, b: nat)
    requires a <= b && |s.Tasks(a)| == |s.Tasks(b)|
    ensures Gather(s, data, a) == Gather(s, data, b)
    decreases b
  {
    if a < b {
      ShareGrows(s, a, b - 1);
      GatherSame(s, data, a, b - 1);
    }
  }

  function ShareOf(e: Env, h: nat, w: Write): Share { Share(e, h, w.path, RangeOf(e, w)) }

  /** The daemon's disk after those of its pieces of w below chunk hi that the fault leaves alone. */
  function PutShare(e: Env, h: nat, store: Store, w: Write, f: Fault, hi: nat): Store {
    if hi <= RangeOf(e, w).First() then store
    else if e.Serves(h, w.path, hi - 1) && f.Writes(hi - 1)
      then PutPiece(e, PutShare(e, h, store, w, f, hi - 1), w, hi - 1)
    else PutShare(e, h, store, w, f, hi - 1)
  }

  lemma {:induction false} PutShareSame(e: Env, h: nat, store: Store, w: Write, f: Fault, a: nat, b: nat)
    requires a <= b && forall id: nat :: a <= id < b ==> !(e.Serves(h, w.path, id) && f.Writes(id))
    ensures PutShare(e, h, store, w, f, a) == PutShare(e, h, store, w, f, b)
    decreases b
  {
    if a < b { PutShareSame(e, h, store, w, f, a, b - 1); }
  }

  function RunTask(store: Store, dir: string, t: TaskArg, buf: seq<byte>): Store {
    WriteChunk(store, dir, t.chnkId, Slice(buf, t.buf, t.size), t.off)
  }

  /** The I/O pool: write_file_abt for each task. */
  function RunTasks(store: Store, dir: string, tasks: seq<TaskArg>, buf: seq<byte>, failed: set<nat>): Store {
    if tasks == [] then store
    else if tasks[|tasks| - 1].chnkId in failed then RunTasks(store, dir, tasks[..|tasks| - 1], buf, failed)
    else RunTask(RunTasks(store, dir, tasks[..|tasks| - 1], buf, failed), dir, tasks[|tasks| - 1], buf)
  }

  lemma {:induction false} RunTasksAppend(store: Store, dir: string, tasks: seq<TaskArg>, t: TaskArg, buf: seq<byte>,
                                          failed: set<nat>)
    ensures var before := RunTasks(store, dir, tasks, buf, failed);
      RunTasks(store, dir, tasks + [t], buf, failed) == if t.chnkId in failed then before
        else RunTask(before, dir, t, buf)
  {
    Snoc(tasks, t);
  }

  /** The buffer starts with the gathered pieces below chunk hi. */
  ghost predicate Holding(s: Share, data: seq<byte>, buf: seq<byte>, hi: nat) {
    s.Size(hi) <= |buf| && buf[..s.Size(hi)] == Gather(s, data, hi)
  }

  lemma HoldingLess(s: Share, data: seq<byte>, buf: seq<byte>, id: nat)
    requires s.r.Touches(id) && |data| == s.r.size && Holding(s, data, buf, id + 1)
    ensures Holding(s, data, buf, id)
  {
    PieceBounds(s.r, id);
    GatherSize(s, data, id);
  }

  /** The daemon serves no chunk of [lo, hi). */
  ghost predicate NoneServed(s: Share, lo: nat, hi: nat) {
    forall id: nat :: s.r.First() <= id && lo <= id < hi ==> !s.Serves(id)
  }

  /** A task reads its own piece out of the bulk buffer. */
  lemma TaskPutsPiece(e: Env, h: nat, store: Store, w: Write, buf: seq<byte>, id: nat)
    requires RangeOf(e, w).Touches(id) && e.Serves(h, w.path, id)
    requires Holding(ShareOf(e, h, w), w.data, buf, id + 1)
    ensures RunTask(store, ChunkDir(w.path), ShareOf(e, h, w).TaskOf(id), buf) == PutPiece(e, store, w, id)
  {
    PieceBounds(RangeOf(e, w), id);
    GatherSize(ShareOf(e, h, w), w.data, id);
    SliceBehind(Gather(ShareOf(e, h, w), w.data, id), PieceData(e, w, id), buf);
  }

  lemma TasksPutStep(e: Env, h: nat, store: Store, w: Write, buf: seq<byte>, f: Fault, id: nat)
    requires RangeOf(e, w).Touches(id) && e.Serves(h, w.path, id) && id < f.stop
    requires Holding(ShareOf(e, h, w), w.data, buf, id + 1)
    requires RunTasks(store, ChunkDir(w.path), ShareOf(e, h, w).Tasks(id), buf, f.failed)
      == PutShare(e, h, store, w, f, id)
    ensures RunTasks(store, ChunkDir(w.path), ShareOf(e, h, w).Tasks(id + 1), buf, f.failed)
      == PutShare(e, h, store, w, f, id + 1)
  {
    TaskPutsPiece(e, h, PutShare(e, h, store, w, f, id), w, buf, id);
    RunTasksAppend(store, ChunkDir(w.path), ShareOf(e, h, w).Tasks(id), ShareOf(e, h, w).TaskOf(id), buf, f.failed);
  }

  /** Tasks over a buffer that starts with the gathered pieces put exactly those pieces. */
  lemma {:induction false} TasksPutShare(e: Env, h: nat, store: Store, w: Write, buf: seq<byte>, f: Fault, hi: nat)
    requires e.c > 0 && |w.data| > 0 && hi <= RangeOf(e, w).Last() + 1
    requires Holding(ShareOf(e, h, w), w.data, buf, hi) && NoneServed(ShareOf(e, h, w), f.stop, hi)
    ensures RunTasks(store, ChunkDir(w.path), ShareOf(e, h, w).Tasks(hi), buf, f.failed)
      == PutShare(e, h, store, w, f, hi)
  {
    if hi > RangeOf(e, w).First() {
      var id := hi - 1;
      if e.Serves(h, w.path, id) { HoldingLess(ShareOf(e, h, w), w.data, buf, id); }
      TasksPutShare(e, h, store, w, buf, f, id);
      if e.Serves(h, w.path, id) { TasksPutStep(e, h, store, w, buf, f, id); }
    }
  }

  function SumSizes(tasks: seq<TaskArg>): nat {
    if tasks == [] then 0 else SumSizes(tasks[..|tasks| - 1]) + tasks[|tasks| - 1].size
  }

  lemma {:induction false} SumSizesAppend(tasks: seq<TaskArg>, t: TaskArg)
    ensures SumSizes(tasks + [t]) == SumSizes(tasks) + t.size
  {
    Snoc(tasks, t);
  }

  /** The tasks together have the size of the share. */
  lemma {:induction false} TasksFillBuffer(s: Share, hi: nat)
    ensures SumSizes(s.Tasks(hi)) == s.Size(hi)
  {
    if hi > s.r.First() {
      TasksFillBuffer(s, hi - 1);
      if s.Serves(hi - 1) { SumSizesAppend(s.Tasks(hi - 1), s.TaskOf(hi - 1)); }
    }
  }

  lemma ShareStep(s: Share, id: nat)
    requires s.r.First() <= id && s.Serves(id)
    ensures |s.Tasks(id + 1)| == |s.Tasks(id)| + 1 && s.Size(id + 1) == s.Size(id) + s.r.PieceAt(id).size
  {
  }

  /** What the share promises about a chunk the daemon serves, in the loop's own terms. */
  lemma ChunkStep(s: Share, id: nat)
    requires s.r.Touches(id) && s.Serves(id)
    ensures var curr, n := |s.Tasks(id)|, |s.AllTasks()|;
      && curr < n
      && s.Size(id + 1) == s.Size(id) + s.r.PieceAt(id).size <= s.AllSize()
      && (curr == n - 1 ==> s.Size(id + 1) == s.AllSize())
      && (curr < n - 1 ==> id < s.r.Last())
  {
    ShareStep(s, id);
    var last := s.r.Last() + 1;
    ShareGrows(s, id + 1, last);
    assert id + 1 < last || id + 1 == last;
  }

  /** The branch of the loop body that sizes the transfer for a served chunk and finds it in the
      client's buffer. */
  method PlaceChunk(input: DataIn, c: nat, bulkSize: nat, chnkIdFile: nat, chnkIdCurr: nat,
                    chnkSizeLeftHost: nat, transferSize0: nat, ghost s: Share)
    returns (size: nat, originOffset: nat, transferSize: nat)
    requires s.Valid() && input == s.Request() && c == s.e.c && bulkSize == s.r.size
    requires s.r.Touches(chnkIdFile) && s.Serves(chnkIdFile)
    requires chnkIdCurr == |s.Tasks(chnkIdFile)| && chnkSizeLeftHost + s.Size(chnkIdFile) == s.AllSize()
    requires transferSize0 == Min(bulkSize, c)
    ensures s.r.PieceAt(chnkIdFile)
         == Piece(chnkIdFile, if chnkIdFile == input.chunkStart then input.offset else 0, size, originOffset)
    ensures size <= chnkSizeLeftHost && originOffset + size <= bulkSize
    ensures chnkIdCurr + 1 < input.chunkN ==> transferSize == transferSize0
  {
    ChunkStep(s, chnkIdFile);
    PieceOrigin(s.r, chnkIdFile);
    PieceBounds(s.r, chnkIdFile);
    transferSize := transferSize0;
    if chnkIdFile == input.chunkStart && input.offset > 0 {
      FirstPieceSize(s.r);
      size := if input.offset + bulkSize <= c then bulkSize else c - input.offset;
      originOffset := 0;
    } else {
      if input.offset > 0 {
        originOffset := (c - input.offset) + ((chnkIdFile - input.chunkStart) - 1) * c;
      } else {
        originOffset := (chnkIdFile - input.chunkStart) * c;
      }
      if chnkIdCurr == input.chunkN - 1 {
        transferSize := chnkSizeLeftHost;
      } else {
        InnerPieceIsWhole(s.r, chnkIdFile);
      }
      size := transferSize;
    }
  }

  /** The loop state after the chunks below id: the first tasks are set up, the bulk buffer starts
      with their bytes, and the rest of the total is still to come. */
  ghost predicate Pulled(s: Share, data: seq<byte>, id: nat, taskArgs: seq<TaskArg>, bulkBuf: seq<byte>,
                         curr: nat, ptr: nat, left: nat)
  {
    && s.r.First() <= id <= s.r.Last() + 1
    && |taskArgs| == |s.AllTasks()| && |bulkBuf| == s.AllSize()
    && curr <= |taskArgs| && taskArgs[..curr] == s.Tasks(id)
    && ptr == s.Size(id) && ptr + left == s.AllSize()
    && bulkBuf[..ptr] == Gather(s, data, id)
  }

  lemma UpdateAt(taskArgs: seq<TaskArg>, curr: nat, t: TaskArg)
    requires curr < |taskArgs|
    ensures taskArgs[curr := t][..curr + 1] == taskArgs[..curr] + [t]
  {
  }

  lemma PulledStep(s: Share, data: seq<byte>, q: Piece, taskArgs: seq<TaskArg>, bulkBuf: seq<byte>,
                   curr: nat, ptr: nat, left: nat, taskArgs': seq<TaskArg>, bulkBuf': seq<byte>)
    requires |data| == s.r.size && q.origin + q.size <= |data|
    requires s.r.Touches(q.id) && s.Serves(q.id) && q == s.r.PieceAt(q.id)
    requires Pulled(s, data, q.id, taskArgs, bulkBuf, curr, ptr, left) && curr < |taskArgs| && q.size <= left
    requires taskArgs' == taskArgs[curr := TaskArg(q.id, ptr, q.size, q.chunkOff)]
    requires bulkBuf' == Copy(bulkBuf, ptr, Slice(data, q.origin, q.size))
    ensures Pulled(s, data, q.id + 1, taskArgs', bulkBuf', curr + 1, ptr + q.size, left - q.size)
  {
    UpdateAt(taskArgs, curr, s.TaskOf(q.id));
    CopySlice(bulkBuf, ptr, Slice(data, q.origin, q.size));
  }

  /** When all tasks are set up the whole total has been pulled. */
  lemma {:induction false} PulledAll(s: Share, data: seq<byte>, id: nat, taskArgs: seq<TaskArg>, bulkBuf: seq<byte>,
                  curr: nat, ptr: nat, left: nat)
    requires s.r.NonEmpty() && |data| == s.r.size
    requires Pulled(s, data, id, taskArgs, bulkBuf, curr, ptr, left)
    ensures id == s.r.Last() + 1 ==> curr == |taskArgs|
    ensures curr == |taskArgs| ==>
      left == 0 && taskArgs == s.AllTasks() && bulkBuf == Gather(s, data, s.r.Last() + 1)
  {
    ShareGrows(s, id, s.r.Last() + 1);
    if curr == |taskArgs| { GatherSame(s, data, id, s.r.Last() + 1); }
  }

  /** The loop body of rpc_srv_write for a chunk this daemon serves: size the transfer, pull the
      bytes behind the earlier ones and set up the task. */
  method PullChunk(input: DataIn, c: nat, exposed: seq<byte>, chnkIdFile: nat, chnkIdCurr0: nat, chnkPtr0: nat,
                   left0: nat, transferSize0: nat, taskArgs0: seq<TaskArg>, bulkBuf0: seq<byte>, ghost s: Share)
    returns (chnkIdCurr: nat, chnkPtr: nat, left: nat, transferSize: nat, taskArgs: seq<TaskArg>, bulkBuf: seq<byte>)
    requires s.Valid() && c == s.e.c && input == s.Request() && |exposed| == s.r.size
    requires s.r.Touches(chnkIdFile) && s.Serves(chnkIdFile)
    requires Pulled(s, exposed, chnkIdFile, taskArgs0, bulkBuf0, chnkIdCurr0, chnkPtr0, left0)
    requires chnkIdCurr0 < input.chunkN ==> transferSize0 == Min(|exposed|, c)
    ensures Pulled(s, exposed, chnkIdFile + 1, taskArgs, bulkBuf, chnkIdCurr, chnkPtr, left)
    ensures chnkIdCurr < input.chunkN ==> transferSize == Min(|exposed|, c)
  {
    ChunkStep(s, chnkIdFile);
    var size, originOffset;
    size, originOffset, transferSize := PlaceChunk(input, c, |exposed|, chnkIdFile, chnkIdCurr0,
                                                   left0, transferSize0, s);
    var off := if chnkIdFile == input.chunkStart then input.offset else 0;
    bulkBuf := Copy(bulkBuf0, chnkPtr0, Slice(exposed, originOffset, size));
    taskArgs := taskArgs0[chnkIdCurr0 := TaskArg(chnkIdFile, chnkPtr0, size, off)];
    chnkPtr, left, chnkIdCurr := chnkPtr0 + size, left0 - size, chnkIdCurr0 + 1;
    PulledStep(s, exposed, Piece(chnkIdFile, off, size, originOffset), taskArgs0, bulkBuf0,
               chnkIdCurr0, chnkPtr0, left0, taskArgs, bulkBuf);
  }

  /** The loop of rpc_srv_write that finds this daemon's chunks and pulls their bytes, up to the first
      transfer that fails. It ends because the client's chunk count is the number of chunks the
      filter accepts. */
  method PullChunks(e: Env, input: DataIn, exposed: seq<byte>, stop: nat, ghost s: Share)
    returns (taskArgs: seq<TaskArg>, bulkBuf: seq<byte>, chnkIdCurr: nat, left: nat, broken: bool, ghost id: nat)
    requires s.Valid() && s.e == e && input == s.Request() && |exposed| == s.r.size
    ensures Pulled(s, exposed, id, taskArgs, bulkBuf, chnkIdCurr, s.Size(id), left) && NoneServed(s, stop, id)
    ensures if broken then stop <= id && s.r.Touches(id) && s.Serves(id) else chnkIdCurr == |taskArgs|
  {
    bulkBuf := Zeros(input.totalChunkSize);
    taskArgs := seq(input.chunkN, i => TaskArg(0, 0, 0, 0));
    chnkIdCurr, left, broken := 0, input.totalChunkSize, false;
    var chnkPtr: nat := 0;
    var transferSize: nat := if |exposed| <= e.c then |exposed| else e.c;
    var chnkIdFile := input.chunkStart;
    FirstLastTouched(s.r);
    while chnkIdFile < input.chunkEnd || chnkIdCurr < input.chunkN
      invariant Pulled(s, exposed, chnkIdFile, taskArgs, bulkBuf, chnkIdCurr, chnkPtr, left)
      invariant NoneServed(s, stop, chnkIdFile)
      invariant chnkIdCurr < input.chunkN ==> transferSize == Min(|exposed|, e.c)
      decreases s.r.Last() + 1 - chnkIdFile
    {
      PulledAll(s, exposed, chnkIdFile, taskArgs, bulkBuf, chnkIdCurr, chnkPtr, left);
      if e.forwarding || e.locate(input.path, chnkIdFile) == input.hostId {
        if stop <= chnkIdFile {
          return taskArgs, bulkBuf, chnkIdCurr, left, true, chnkIdFile;
        }
        chnkIdCurr, chnkPtr, left, transferSize, taskArgs, bulkBuf :=
          PullChunk(input, e.c, exposed, chnkIdFile, chnkIdCurr, chnkPtr, left, transferSize, taskArgs, bulkBuf, s);
      }
      chnkIdFile := chnkIdFile + 1;
    }
    id := chnkIdFile;
  }

  /** What the task for a chunk leaves in its eventual: the bytes it wrote, or a negative error. */
  function Written(t: TaskArg, failed: set<nat>): int { if t.chnkId in failed then -1 else t.size }

  /** The last part of rpc_srv_write: the results of the tasks are summed until one is an error. */
  method CollectWrites(taskArgs: seq<TaskArg>, failed: set<nat>) returns (ioSize: nat, err: bool)
    ensures err <==> exists i :: 0 <= i < |taskArgs| && taskArgs[i].chnkId in failed
    ensures !err ==> ioSize == SumSizes(taskArgs)
  {
    ioSize, err := 0, false;
    for curr := 0 to |taskArgs|
      invariant forall i :: 0 <= i < curr ==> taskArgs[i].chnkId !in failed
      invariant !err && ioSize == SumSizes(taskArgs[..curr])
    {
      var written := Written(taskArgs[curr], failed);
      if written < 0 {
        return ioSize, true;
      }
      SumSizesAppend(taskArgs[..curr], taskArgs[curr]);
      assert taskArgs[..curr + 1] == taskArgs[..curr] + [taskArgs[curr]];
      ioSize := ioSize + written;
    }
    assert taskArgs[..|taskArgs|] == taskArgs;
  }

  /** The fault touches no chunk of the share. */
  ghost predicate ShareWritten(s: Share, f: Fault) {
    forall id: nat :: s.r.Touches(id) && s.Serves(id) ==> f.Writes(id)
  }

  /** The chunks of the tasks below hi are the chunks served there. */
  lemma {:induction false} TaskHasChunk(s: Share, hi: nat, id: nat)
    requires s.r.First() <= id < hi && s.Serves(id)
    ensures exists i :: 0 <= i < |s.Tasks(hi)| && s.Tasks(hi)[i].chnkId == id
  {
    if id < hi - 1 {
      TaskHasChunk(s, hi - 1, id);
      var i :| 0 <= i < |s.Tasks(hi - 1)| && s.Tasks(hi - 1)[i].chnkId == id;
      assert s.Tasks(hi)[i].chnkId == id;
    } else {
      assert s.Tasks(hi)[|s.Tasks(hi)| - 1] == s.TaskOf(id);
    }
  }

  lemma {:induction false} TaskChunkServed(s: Share, hi: nat, i: nat)
    requires i < |s.Tasks(hi)|
    ensures var id := s.Tasks(hi)[i].chnkId; s.r.First() <= id < hi && s.Serves(id)
  {
    if !s.Serves(hi - 1) || i < |s.Tasks(hi)| - 1 { TaskChunkServed(s, hi - 1, i); }
  }

  /** A served chunk beyond id leaves the task list short. */
  lemma {:induction false} NoneLeft(s: Share, id: nat, k: nat)
    requires s.r.First() <= id <= k <= s.r.Last() && |s.Tasks(id)| == |s.AllTasks()|
    ensures !s.Serves(k)
  {
    ShareGrows(s, id, k);
    ShareGrows(s, k + 1, s.r.Last() + 1);
  }

  /** Behind the chunk where the pulling loop ended there is nothing to write. */
  lemma {:induction false} NothingBeyond(s: Share, f: Fault, id: nat, broken: bool)
    requires s.r.First() <= id <= s.r.Last() + 1
    requires if broken then f.stop <= id else |s.Tasks(id)| == |s.AllTasks()|
    ensures forall k: nat :: id <= k < s.r.Last() + 1 ==> !(s.e.Serves(s.h, s.path, k) && f.Writes(k))
  {
    forall k: nat | id <= k < s.r.Last() + 1 ensures !(s.e.Serves(s.h, s.path, k) && f.Writes(k)) {
      if !broken { NoneLeft(s, id, k); }
    }
  }

  /** Where the pulling loop ended, the tasks set up put everything that the fault leaves of the share. */
  lemma {:induction false} PulledPuts(e: Env, h: nat, store: Store, w: Write, f: Fault, buf: seq<byte>, broken: bool,
                                      id: nat)
    requires e.c > 0 && |w.data| > 0 && RangeOf(e, w).First() <= id <= RangeOf(e, w).Last() + 1
    requires Holding(ShareOf(e, h, w), w.data, buf, id) && NoneServed(ShareOf(e, h, w), f.stop, id)
    requires if broken then f.stop <= id else |ShareOf(e, h, w).Tasks(id)| == |ShareOf(e, h, w).AllTasks()|
    ensures RunTasks(store, ChunkDir(w.path), ShareOf(e, h, w).Tasks(id), buf, f.failed)
         == PutShare(e, h, store, w, f, RangeOf(e, w).Last() + 1)
  {
    TasksPutShare(e, h, store, w, buf, f, id);
    NothingBeyond(ShareOf(e, h, w), f, id, broken);
    PutShareSame(e, h, store, w, f, id, RangeOf(e, w).Last() + 1);
  }

  /** The handler reports an error exactly when the fault touches the share. */
  lemma {:induction false} ErrorIsFault(s: Share, f: Fault, id: nat, tasks: seq<TaskArg>, broken: bool, err: bool)
    requires s.r.First() <= id <= s.r.Last() + 1 && s.r.NonEmpty() && NoneServed(s, f.stop, id)
    requires if broken then f.stop <= id && s.r.Touches(id) && s.Serves(id) else |s.Tasks(id)| == |s.AllTasks()|
    requires tasks == s.Tasks(id) && (err <==> exists i :: 0 <= i < |tasks| && tasks[i].chnkId in f.failed)
    ensures broken || err <==> !ShareWritten(s, f)
  {
    if err {
      var i :| 0 <= i < |tasks| && tasks[i].chnkId in f.failed;
      TaskChunkServed(s, id, i);
      assert s.r.Touches(tasks[i].chnkId);
    }
    if !broken && !err {
      forall k: nat | s.r.Touches(k) && s.Serves(k) ensures f.Writes(k) {
        if id <= k { NoneLeft(s, id, k); }
        TaskHasChunk(s, id, k);
      }
    }
  }

  /** rpc_srv_write, for the request its client has to send: the daemon writes those of its pieces of
      the client's buffer that the fault leaves alone. If these are all, it reports their total size
      and never warns about chunks it did not detect; otherwise it reports an error. */
  method SrvWrite(e: Env, input: DataIn, exposed: seq<byte>, store: Store, f: Fault, ghost w: Write)
    returns (store': Store, ioSize: nat, err: bool, undetected: bool)
    requires exposed == w.data && ShareOf(e, input.hostId, w).Valid()
    requires input == ShareOf(e, input.hostId, w).Request()
    ensures store' == PutShare(e, input.hostId, store, w, f, RangeOf(e, w).Last() + 1)
    ensures err <==> !ShareWritten(ShareOf(e, input.hostId, w), f)
    ensures !err ==> ioSize == input.totalChunkSize
    ensures !undetected
  {
    ghost var s := ShareOf(e, input.hostId, w);
    var taskArgs, bulkBuf, curr, left, broken, id := PullChunks(e, input, exposed, f.stop, s);
    PulledPuts(e, input.hostId, store, w, f, bulkBuf, broken, id);
    PulledAll(s, exposed, id, taskArgs, bulkBuf, curr, s.Size(id), left);
    store' := RunTasks(store, ChunkDir(input.path), taskArgs[..curr], bulkBuf, f.failed);
    undetected := !broken && left != 0;
    ioSize, err := CollectWrites(taskArgs[..curr], f.failed);
    ErrorIsFault(s, f, id, taskArgs[..curr], broken, err);
    TasksFillBuffer(s, id);
    err := broken || err;
  }
}
