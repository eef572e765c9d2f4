/** src/daemon/handler/srv_data.cpp, rpc_srv_read: the same chunk loop as for writes, then the bytes
    that are there are pushed into the client's buffer. */
module SrvRead {
  import opened Arith
  import opened Layout
  import opened Placement
  import opened ChunkStorage
  import opened SrvData

  /** A read task with the offsets of its later push: local is an index into the bulk buffer,
      origin one into the client's buffer. */
  datatype ReadArg = ReadArg(task: TaskArg, local: nat, origin: nat)

  /** ChunkStorage::read_chunk: the bytes of the chunk file from off, at most size of them. */
  function ReadData(chunk: seq<byte>, off: nat, size: nat): seq<byte> {
    if off >= |chunk| then [] else chunk[off..Min(off + size, |chunk|)]
  }

  function ReadOf(s: Share, id: nat): ReadArg {
    ReadArg(s.TaskOf(id), s.Size(id), s.r.PieceAt(id).origin)
  }

  /** The read tasks for the chunks below hi that the daemon serves. */
  function Reads(s: Share, hi: nat): seq<ReadArg> {
    if hi <= s.r.First() then []
    else if s.Serves(hi - 1) then Reads(s, hi - 1) + [ReadOf(s, hi - 1)]
    else Reads(s, hi - 1)
  }

  function AllReads(s: Share): seq<ReadArg> { Reads(s, s.r.Last() + 1) }

  lemma {:induction false} ReadsSame(s: Share, a: nat, b: nat)
    requires a <= b && |s.Tasks(a)| == |s.Tasks(b)|
    ensures Reads(s, a) == Reads(s, b)
    decreases b
  {
    if a < b {
      ShareGrows(s, a, b - 1);
      ReadsSame(s, a, b - 1);
    }
  }

  /** State of the planning loop after the chunks below id. */
  ghost predicate Located(s: Share, id: nat, args: seq<ReadArg>, curr: nat, left: nat) {
    && s.r.First() <= id <= s.r.Last() + 1
    && |args| == |s.AllTasks()| && curr <= |args| && args[..curr] == Reads(s, id)
    && curr == |s.Tasks(id)| && left + s.Size(id) == s.AllSize()
  }

  lemma UpdateReadAt(args: seq<ReadArg>, curr: nat, a: ReadArg)
    requires curr < |args|
    ensures args[curr := a][..curr + 1] == args[..curr] + [a]
  {
  }

  lemma LocatedStep(s: Share, q: Piece, args: seq<ReadArg>, curr: nat, left: nat, args': seq<ReadArg>)
    requires s.r.Touches(q.id) && s.Serves(q.id) && q == s.r.PieceAt(q.id)
    requires Located(s, q.id, args, curr, left) && curr < |args| && q.size <= left
    requires args' == args[curr := ReadArg(TaskArg(q.id, s.AllSize() - left, q.size, q.chunkOff),
                                           s.AllSize() - left, q.origin)]
    ensures Located(s, q.id + 1, args', curr + 1, left - q.size)
  {
    ShareStep(s, q.id);
    UpdateReadAt(args, curr, ReadOf(s, q.id));
  }

  lemma LocatedAll(s: Share, id: nat, args: seq<ReadArg>, curr: nat, left: nat)
    requires Located(s, id, args, curr, left)
    ensures id == s.r.Last() + 1 ==> curr == |args|
    ensures curr == |args| ==> left == 0 && args == AllReads(s)
  {
    ShareGrows(s, id, s.r.Last() + 1);
    if curr == |args| { ReadsSame(s, id, s.r.Last() + 1); }
  }

  /** The loop body for a served chunk. */
  method LocateChunk(input: DataIn, c: nat, bulkSize: nat, chnkIdFile: nat, curr0: nat, left0: nat,
                     transferSize0: nat, args0: seq<ReadArg>, ghost s: Share)
    returns (curr: nat, left: nat, transferSize: nat, args: seq<ReadArg>)
    requires s.Valid() && c == s.e.c && input == s.Request() && bulkSize == s.r.size
    requires s.r.Touches(chnkIdFile) && s.Serves(chnkIdFile)
    requires Located(s, chnkIdFile, args0, curr0, left0)
    requires curr0 < input.chunkN ==> transferSize0 == Min(bulkSize, c)
    ensures Located(s, chnkIdFile + 1, args, curr, left)
    ensures curr < input.chunkN ==> transferSize == Min(bulkSize, c)
  {
    ChunkStep(s, chnkIdFile);
    var size, originOffset;
    size, originOffset, transferSize := PlaceChunk(input, c, bulkSize, chnkIdFile, curr0, left0, transferSize0, s);
    var off := if chnkIdFile == input.chunkStart then input.offset else 0;
    var localOffset := input.totalChunkSize - left0;
    args := args0[curr0 := ReadArg(TaskArg(chnkIdFile, localOffset, size, off), localOffset, originOffset)];
    LocatedStep(s, Piece(chnkIdFile, off, size, originOffset), args0, curr0, left0, args);
    curr, left := curr0 + 1, left0 - size;
  }

  /** The loop of rpc_srv_read that finds this daemon's chunks. */
  method LocateChunks(e: Env, input: DataIn, bulkSize: nat, ghost s: Share)
    returns (args: seq<ReadArg>, left: nat)
    requires s.Valid() && s.e == e && input == s.Request() && bulkSize == s.r.size
    ensures args == AllReads(s) && left == 0
  {
    args := seq(input.chunkN, i => ReadArg(TaskArg(0, 0, 0, 0), 0, 0));
    var curr: nat := 0;
    left := input.totalChunkSize;
    var transferSize: nat := if bulkSize <= e.c then bulkSize else e.c;
    var chnkIdFile := input.chunkStart;
    FirstLastTouched(s.r);
    while chnkIdFile < input.chunkEnd || curr < input.chunkN
      invariant Located(s, chnkIdFile, args, curr, left)
      invariant curr < input.chunkN ==> transferSize == Min(bulkSize, e.c)
      decreases s.r.Last() + 1 - chnkIdFile
    {
      LocatedAll(s, chnkIdFile, args, curr, left);
      if e.forwarding || e.locate(input.path, chnkIdFile) == input.hostId {
        curr, left, transferSize, args :=
          LocateChunk(input, e.c, bulkSize, chnkIdFile, curr, left, transferSize, args, s);
      }
      chnkIdFile := chnkIdFile + 1;
    }
    LocatedAll(s, chnkIdFile, args, curr, left);
  }

  /** The bytes a read task finds. */
  function Fetched(store: Store, dir: string, t: TaskArg): seq<byte> {
    ReadData(ChunkOf(store, dir, t.chnkId % KEYS), t.off, t.size)
  }

  /** The client's buffer after the pushes of the given read tasks. */
  function Push(store: Store, dir: string, args: seq<ReadArg>, buf: seq<byte>): (r: seq<byte>)
    ensures |r| == |buf|
  {
    if args == [] then buf
    else Copy(Push(store, dir, args[..|args| - 1], buf), args[|args| - 1].origin,
              Fetched(store, dir, args[|args| - 1].task))
  }

  function FetchedSize(store: Store, dir: string, args: seq<ReadArg>): nat {
    if args == [] then 0
    else FetchedSize(store, dir, args[..|args| - 1]) + |Fetched(store, dir, args[|args| - 1].task)|
  }

  lemma {:induction false} PushAppend(store: Store, dir: string, args: seq<ReadArg>, a: ReadArg, buf: seq<byte>)
    ensures Push(store, dir, args + [a], buf)
         == Copy(Push(store, dir, args, buf), a.origin, Fetched(store, dir, a.task))
    ensures FetchedSize(store, dir, args + [a]) == FetchedSize(store, dir, args) + |Fetched(store, dir, a.task)|
  {
    Snoc(args, a);
  }

  /** Tasks read into their place of a bulk buffer of n bytes and push from there into one of m bytes. */
  ghost predicate ReadsIn(args: seq<ReadArg>, n: nat, m: nat) {
    forall i :: 0 <= i < |args| ==>
      args[i].local == args[i].task.buf && args[i].local + args[i].task.size <= n
        && args[i].origin + args[i].task.size <= m
  }

  /** One finished read task: a missing or empty chunk is skipped, other bytes go to the client. */
  method PushRead(dir: string, a: ReadArg, store: Store, bulkBuf0: seq<byte>, buf0: seq<byte>, ioSize0: nat)
    returns (bulkBuf: seq<byte>, buf: seq<byte>, ioSize: nat)
    requires a.local == a.task.buf && a.local + a.task.size <= |bulkBuf0| && a.origin + a.task.size <= |buf0|
    ensures |bulkBuf| == |bulkBuf0|
    ensures buf == Copy(buf0, a.origin, Fetched(store, dir, a.task))
    ensures ioSize == ioSize0 + |Fetched(store, dir, a.task)|
  {
    buf, ioSize := buf0, ioSize0;
    var data := Fetched(store, dir, a.task);
    CopySlice(bulkBuf0, a.local, data);
    bulkBuf := Copy(bulkBuf0, a.task.buf, data);
    if |data| == 0 {
      assert Copy(buf0, a.origin, data) == buf0;
    } else {
      buf := Copy(buf, a.origin, bulkBuf[a.local..a.local + |data|]);
      ioSize := ioSize + |data|;
    }
  }

  /** State of the collecting loop after the first done tasks, all of them below stop. */
  ghost predicate Collected(dir: string, args: seq<ReadArg>, store: Store, clientBuf: seq<byte>, stop: nat,
                            done: nat, buf: seq<byte>, ioSize: nat)
  {
    && done <= |args| && buf == Push(store, dir, args[..done], clientBuf)
       && ioSize == FetchedSize(store, dir, args[..done])
    && (forall i :: 0 <= i < done ==> args[i].task.chnkId < stop)
  }

  lemma CollectedStep(dir: string, args: seq<ReadArg>, store: Store, clientBuf: seq<byte>, stop: nat,
                      done: nat, buf: seq<byte>, ioSize: nat)
    requires Collected(dir, args, store, clientBuf, stop, done, buf, ioSize) && done < |args|
      && args[done].task.chnkId < stop
    ensures var data := Fetched(store, dir, args[done].task);
      Collected(dir, args, store, clientBuf, stop, done + 1, Copy(buf, args[done].origin, data), ioSize + |data|)
  {
    assert args[..done + 1] == args[..done] + [args[done]];
    PushAppend(store, dir, args[..done], args[done], clientBuf);
  }

  /** The last part of rpc_srv_read: the finished tasks in order, up to the first one that failed or
      whose bytes cannot be pushed. */
  method CollectReads(dir: string, args: seq<ReadArg>, total: nat, store: Store, clientBuf: seq<byte>, stop: nat)
    returns (buf: seq<byte>, ioSize: nat, done: nat)
    requires ReadsIn(args, total, |clientBuf|)
    ensures Collected(dir, args, store, clientBuf, stop, done, buf, ioSize)
    ensures done < |args| ==> stop <= args[done].task.chnkId
  {
    buf, ioSize, done := clientBuf, 0, 0;
    var bulkBuf := Zeros(total);
    while done < |args| && args[done].task.chnkId < stop
      invariant |bulkBuf| == total && Collected(dir, args, store, clientBuf, stop, done, buf, ioSize)
    {
      CollectedStep(dir, args, store, clientBuf, stop, done, buf, ioSize);
      bulkBuf, buf, ioSize := PushRead(dir, args[done], store, bulkBuf, buf, ioSize);
      done := done + 1;
    }
  }

  /** The first chunk of r that a transfer fault at stop affects, or the end of r. */
  function UpTo(r: Range, stop: nat): nat { Min(Max(stop, r.First()), r.Last() + 1) }

  lemma {:induction false} ReadChunkServed(s: Share, hi: nat, i: nat)
    requires i < |Reads(s, hi)|
    ensures var id := Reads(s, hi)[i].task.chnkId; s.r.First() <= id < hi && s.Serves(id)
  {
    if !s.Serves(hi - 1) || i < |Reads(s, hi)| - 1 { ReadChunkServed(s, hi - 1, i); }
  }

  /** The tasks before the first chunk from stop on are the tasks below stop. */
  lemma {:induction false} ReadsBelow(s: Share, stop: nat, hi: nat, args: seq<ReadArg>, done: nat)
    requires s.r.First() <= stop <= hi && args == Reads(s, hi) && done <= |args|
    requires forall i :: 0 <= i < done ==> args[i].task.chnkId < stop
    requires done < |args| ==> stop <= args[done].task.chnkId
    ensures args[..done] == Reads(s, stop)
    decreases hi
  {
    if stop == hi {
      if done < |args| { ReadChunkServed(s, hi, done); }
      assert args[..|args|] == args;
    } else if s.Serves(hi - 1) {
      var init := Reads(s, hi - 1);
      assert args == init + [ReadOf(s, hi - 1)] && args[|init|].task.chnkId == hi - 1;
      assert done <= |init|;
      assert args[..done] == init[..done];
      ReadsBelow(s, stop, hi - 1, init, done);
    } else {
      ReadsBelow(s, stop, hi - 1, args, done);
    }
  }

  /** The fault touches no read of the share. */
  ghost predicate ShareRead(s: Share, f: Fault) {
    forall id: nat :: s.r.Touches(id) && s.Serves(id) ==> id < f.stop
  }

  lemma {:induction false} ReadHasChunk(s: Share, hi: nat, id: nat)
    requires s.r.First() <= id < hi && s.Serves(id)
    ensures exists i :: 0 <= i < |Reads(s, hi)| && Reads(s, hi)[i].task.chnkId == id
  {
    if id < hi - 1 {
      ReadHasChunk(s, hi - 1, id);
      var i :| 0 <= i < |Reads(s, hi - 1)| && Reads(s, hi - 1)[i].task.chnkId == id;
      assert Reads(s, hi)[i].task.chnkId == id;
    } else {
      assert Reads(s, hi)[|Reads(s, hi)| - 1] == ReadOf(s, id);
    }
  }

  /** What the collecting loop leaves: the tasks below the fault, and an error exactly if there are more. */
  lemma {:induction false} CollectedUpTo(s: Share, f: Fault, args: seq<ReadArg>, done: nat)
    requires s.r.NonEmpty() && args == AllReads(s) && done <= |args|
    requires forall i :: 0 <= i < done ==> args[i].task.chnkId < f.stop
    requires done < |args| ==> f.stop <= args[done].task.chnkId
    ensures args[..done] == Reads(s, UpTo(s.r, f.stop))
    ensures done == |args| <==> ShareRead(s, f)
  {
    FirstLastTouched(s.r);
    forall i | 0 <= i < |args| ensures s.r.Touches(args[i].task.chnkId) && s.Serves(args[i].task.chnkId) {
      ReadChunkServed(s, s.r.Last() + 1, i);
    }
    ReadsBelow(s, UpTo(s.r, f.stop), s.r.Last() + 1, args, done);
    if done == |args| {
      forall id: nat | s.r.Touches(id) && s.Serves(id) ensures id < f.stop { ReadHasChunk(s, s.r.Last() + 1, id); }
    }
  }

  lemma {:induction false} ReadsFit(s: Share, hi: nat)
    requires s.r.NonEmpty() && hi <= s.r.Last() + 1
    ensures ReadsIn(Reads(s, hi), s.Size(hi), s.r.size)
  {
    if hi > s.r.First() {
      ReadsFit(s, hi - 1);
      PieceBounds(s.r, hi - 1);
    }
  }

  /** rpc_srv_read, for the request its client has to send: the stored bytes of the daemon's chunks
      below the fault go into the client's buffer. If these are all its chunks, it reports their
      number and never warns about chunks it did not detect; otherwise it reports an error. */
  method SrvRead(e: Env, input: DataIn, store: Store, clientBuf: seq<byte>, f: Fault, ghost s: Share)
    returns (buf: seq<byte>, ioSize: nat, err: bool, undetected: bool)
    requires s.Valid() && s.e == e && input == s.Request() && |clientBuf| == s.r.size
    ensures buf == Push(store, ChunkDir(s.path), Reads(s, UpTo(s.r, f.stop)), clientBuf)
    ensures err <==> !ShareRead(s, f)
    ensures !err ==> ioSize == FetchedSize(store, ChunkDir(s.path), AllReads(s))
    ensures !undetected
  {
    var args, left := LocateChunks(e, input, |clientBuf|, s);
    undetected := left != 0;
    ReadsFit(s, s.r.Last() + 1);
    var done;
    buf, ioSize, done := CollectReads(ChunkDir(input.path), args, input.totalChunkSize, store, clientBuf, f.stop);
    CollectedUpTo(s, f, args, done);
    assert args[..|args|] == args;
    err := done < |args|;
  }
}
