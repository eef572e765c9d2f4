/** src/client/gkfs_functions.cpp, gkfs_pwritev and gkfs_preadv: a list of buffers, one inner call each. */
module Vectored {
  import opened Arith
  import opened Layout
  import opened Placement
  import opened ChunkStorage
  import opened FlatFile
  import opened SrvRead
  import opened StripedIO
  import opened StripedRead
  import opened PlainFile

  /** The buffers one after the other. */
  function Concat(iov: seq<seq<byte>>): seq<byte> {
    if iov == [] then [] else Concat(iov[..|iov| - 1]) + iov[|iov| - 1]
  }

  lemma ConcatSnoc(iov: seq<seq<byte>>, i: nat)
    requires i < |iov|
    ensures Concat(iov[..i + 1]) == Concat(iov[..i]) + iov[i]
  {
    assert iov[..i + 1][..i] == iov[..i];
  }

  lemma {:induction false} ConcatGrows(iov: seq<seq<byte>>, i: nat)
    requires i <= |iov|
    ensures |Concat(iov[..i])| <= |Concat(iov)|
    decreases |iov| - i
  {
    if i == |iov| {
      assert iov[..i] == iov;
    } else {
      ConcatSnoc(iov, i);
      ConcatGrows(iov, i + 1);
    }
  }

  // ---- pwritev ----

  /** Two writes, the second where the first ended, are one write. */
  lemma PwriteTwice(file: seq<byte>, off: nat, a: seq<byte>, b: seq<byte>)
    ensures Pwrite(Pwrite(file, off, a), off + |a|, b) == Pwrite(file, off, a + b)
  {
    var once, twice := Pwrite(file, off, a + b), Pwrite(Pwrite(file, off, a), off + |a|, b);
    forall i | 0 <= i < |once| ensures once[i] == twice[i] {
      PwriteByte(file, off, a, i);
      PwriteByte(Pwrite(file, off, a), off + |a|, b, i);
      PwriteByte(file, off, a + b, i);
    }
  }

  /** The file after the prefix data of the vector was written. */
  ghost predicate WrittenTo(e: Env, cl0: Cluster, cl: Cluster, path: string, file: seq<byte>, offset: nat,
                            data: seq<byte>) {
    if data == [] then cl == cl0 else |cl| == |cl0| && Contents(e, cl, path, Pwrite(file, offset, data))
  }

  lemma WrittenMore(e: Env, cl: Cluster, cl': Cluster, file: seq<byte>,
                    offset: nat, data: seq<byte>, w: Write, took: set<nat>)
    requires Contents(e, cl, w.path, Pwrite(file, offset, data)) && w.offset == offset + |data|
    requires WellFormed(e, cl, w) && Wrote(e, cl, cl', w, took) && AllTook(RangeOf(e, w), took)
    ensures Contents(e, cl', w.path, Pwrite(file, offset, data + w.data))
  {
    PwriteTwice(file, offset, data, w.data);
    WriteContents(e, cl, cl', w, took, Pwrite(file, offset, data), Pwrite(file, offset, data + w.data));
  }

  lemma WrittenFirst(e: Env, cl: Cluster, cl': Cluster, file: seq<byte>, w: Write, data: seq<byte>, took: set<nat>)
    requires Contents(e, cl, w.path, file) && data == w.data
    requires WellFormed(e, cl, w) && Wrote(e, cl, cl', w, took) && AllTook(RangeOf(e, w), took)
    ensures Contents(e, cl', w.path, Pwrite(file, w.offset, data))
  {
    WriteContents(e, cl, cl', w, took, file, Pwrite(file, w.offset, data));
  }

  lemma WrittenStep(e: Env, cl0: Cluster, cl: Cluster, cl': Cluster, file: seq<byte>,
                    offset: nat, data: seq<byte>, w: Write, took: set<nat>)
    requires WrittenTo(e, cl0, cl, w.path, file, offset, data) && Contents(e, cl0, w.path, file)
    requires w.offset == offset + |data|
    requires WellFormed(e, cl, w) && Wrote(e, cl, cl', w, took) && AllTook(RangeOf(e, w), took)
    ensures WrittenTo(e, cl0, cl', w.path, file, offset, data + w.data)
  {
    if data == [] {
      WrittenFirst(e, cl, cl', file, w, data + w.data, took);
    } else {
      WrittenMore(e, cl, cl', file, offset, data, w, took);
    }
  }

  /** A failed inner write: the size step failed, or some chunks took their piece of w and others did not. */
  ghost predicate Stopped(e: Env, fwd: nat, mid: Cluster, cl: Cluster, w: Write, sized: bool, outcome: nat -> Rpc) {
    && |w.data| > 0
    && if sized then Wrote(e, mid, cl, w, TookWrite(e, fwd, w.path, RangeOf(e, w), outcome))
                     && !AllWritten(e, fwd, w.path, RangeOf(e, w), outcome)
       else cl == mid
  }

  /** One inner gkfs_pwrite. */
  method WriteNext(e: Env, fwd: nat, cl: Cluster, w: Write, sized: bool, outcome: nat -> Rpc,
                   ghost cl0: Cluster, ghost file: seq<byte>, ghost offset: nat, ghost data: seq<byte>)
    returns (ret: int, cl': Cluster)
    requires WellFormed(e, cl, w) && w.offset == offset + |data|
    requires Contents(e, cl0, w.path, file)
    requires WrittenTo(e, cl0, cl, w.path, file, offset, data)
    ensures (ret == |w.data| || ret == -1) && OthersKept(e, cl, cl', w.path)
    ensures ret == -1 ==> Stopped(e, fwd, cl, cl', w, sized, outcome)
    ensures ret == |w.data| ==> WrittenTo(e, cl0, cl', w.path, file, offset, data + w.data)
  {
    ret, cl' := WriteAt(e, fwd, cl, w, sized, outcome);
    if ret != -1 {
      WrittenStep(e, cl0, cl, cl', file, offset, data, w, TookWrite(e, fwd, w.path, RangeOf(e, w), outcome));
    }
  }

  lemma {:induction false} AddressablePart(e: Env, offset: nat, iov: seq<seq<byte>>, i: nat)
    requires i < |iov| && Addressable(e, offset, |Concat(iov)|)
    ensures Addressable(e, offset + |Concat(iov[..i])|, |iov[i]|)
  {
    ConcatSnoc(iov, i);
    ConcatGrows(iov, i + 1);
  }

  /** gkfs_pwritev. The first done buffers reach the file as one pwrite of their concatenation; if the
      call stopped there, the write w of the next buffer failed and mid is the state before it. */
  method Pwritev(e: Env, fwd: nat, cl: Cluster, path: string, iov: seq<seq<byte>>, offset: nat,
                 sized: nat -> bool, outcome: nat -> nat -> Rpc, ghost file: seq<byte>)
    returns (ret: int, cl': Cluster, done: nat, mid: Cluster, w: Write)
    requires e.Valid() && |cl| == e.Backends() && IsAbsolute(path) && Addressable(e, offset, |Concat(iov)|)
    requires Contents(e, cl, path, file)
    ensures done <= |iov| && WrittenTo(e, cl, mid, path, file, offset, Concat(iov[..done]))
    ensures ret == if Concat(iov[..done]) == [] then -1 else |Concat(iov[..done])|
    ensures OthersKept(e, cl, cl', path)
    ensures if done == |iov| then cl' == mid
            else
              && w == Write(path, offset + |Concat(iov[..done])|, iov[done])
              && Stopped(e, fwd, mid, cl', w, sized(done), outcome(done))
  {
    cl', mid, done, w := cl, cl, 0, Write(path, offset, []);
    var pos, written: nat := offset, 0;
    while done < |iov|
      invariant done <= |iov| && cl' == mid && OthersKept(e, cl, cl', path)
      invariant WrittenTo(e, cl, cl', path, file, offset, Concat(iov[..done]))
      invariant written == |Concat(iov[..done])| && pos == offset + written
      decreases |iov| - done
    {
      ConcatSnoc(iov, done);
      var count := |iov[done]|;
      if count == 0 {
        assert Concat(iov[..done]) + iov[done] == Concat(iov[..done]);
        done := done + 1;
        continue;
      }
      AddressablePart(e, offset, iov, done);
      w := Write(path, pos, iov[done]);
      var n;
      n, cl' := WriteNext(e, fwd, cl', w, sized(done), outcome(done), cl, file, offset, Concat(iov[..done]));
      OthersKeptTwice(e, cl, mid, cl', path);
      if n == -1 { break; }
      written, pos, mid, done := written + n, pos + n, cl', done + 1;
      if n < count { break; }
    }
    ret := if written == 0 then -1 else written;
  }

  // ---- preadv ----

  /** pread of one buffer. */
  function PreadInto(file: seq<byte>, off: nat, buf: seq<byte>): seq<byte> {
    seq(|buf|, j requires 0 <= j < |buf| => if off + j < |file| then file[off + j] else buf[j])
  }

  /** The buffers after reading each where the previous one ends. */
  function PreadAll(file: seq<byte>, off: nat, bufs: seq<seq<byte>>): seq<seq<byte>> {
    if bufs == [] then []
    else PreadAll(file, off, bufs[..|bufs| - 1]) + [PreadInto(file, off + |Concat(bufs[..|bufs| - 1])|, bufs[|bufs| - 1])]
  }

  lemma {:induction false} PreadSnoc(file: seq<byte>, off: nat, bufs: seq<seq<byte>>, i: nat)
    requires i < |bufs|
    ensures PreadAll(file, off, bufs[..i + 1])
         == PreadAll(file, off, bufs[..i]) + [PreadInto(file, off + |Concat(bufs[..i])|, bufs[i])]
  {
    assert bufs[..i + 1][..i] == bufs[..i];
  }

  /** Two reads, the second where the first buffer ends, are one read. */
  lemma PreadTwice(file: seq<byte>, off: nat, a: seq<byte>, b: seq<byte>)
    ensures PreadInto(file, off, a + b) == PreadInto(file, off, a) + PreadInto(file, off + |a|, b)
  {
  }

  /** Reading the buffers one by one is one contiguous read into their concatenation. */
  lemma {:induction false} PreadAllIsOne(file: seq<byte>, off: nat, bufs: seq<seq<byte>>)
    ensures Concat(PreadAll(file, off, bufs)) == PreadInto(file, off, Concat(bufs))
  {
    if bufs != [] {
      var init, last := bufs[..|bufs| - 1], bufs[|bufs| - 1];
      PreadAllIsOne(file, off, init);
      ConcatAppend(PreadAll(file, off, init), PreadInto(file, off + |Concat(init)|, last));
      PreadTwice(file, off, Concat(init), last);
    }
  }

  lemma {:induction false} ConcatAppend(iov: seq<seq<byte>>, x: seq<byte>)
    ensures Concat(iov + [x]) == Concat(iov) + x
  {
    Snoc(iov, x);
  }

  lemma NothingBehind(file: seq<byte>, off: nat, buf: seq<byte>)
    requires off >= |file|
    ensures PreadInto(file, off, buf) == buf
  {
  }

  lemma SplitLast(bufs: seq<seq<byte>>, i: nat, a: seq<seq<byte>>)
    requires i < |bufs|
    ensures a + bufs[i..] == (a + bufs[..|bufs| - 1][i..]) + [bufs[|bufs| - 1]]
  {
  }

  /** Behind the end of the file nothing is read. */
  lemma {:induction false} PreadBeyond(file: seq<byte>, off: nat, bufs: seq<seq<byte>>, i: nat)
    requires i <= |bufs| && off + |Concat(bufs[..i])| >= |file|
    ensures PreadAll(file, off, bufs) == PreadAll(file, off, bufs[..i]) + bufs[i..]
    decreases |bufs|
  {
    if i == |bufs| {
      assert bufs[..i] == bufs;
    } else {
      var init, last := bufs[..|bufs| - 1], bufs[|bufs| - 1];
      assert init[..i] == bufs[..i];
      PreadBeyond(file, off, init, i);
      ConcatGrows(init, i);
      NothingBehind(file, off + |Concat(init)|, last);
      SplitLast(bufs, i, PreadAll(file, off, bufs[..i]));
    }
  }

  /** A failed inner read: the stored bytes of the delivered chunks have arrived, some chunk was not read. */
  ghost predicate ReadFailed(e: Env, fwd: nat, cl: Cluster, path: string, r: Range, buf0: seq<byte>, buf: seq<byte>,
                             outcome: nat -> Rpc)
  {
    && Received(e, cl, path, r, buf0, TookRead(e, fwd, path, r, outcome), buf)
    && !AllRead(e, fwd, path, r, outcome)
  }

  /** One inner gkfs_pread on a plain file. */
  method ReadNext(e: Env, fwd: nat, cl: Cluster, path: string, buf0: seq<byte>, pos: nat, outcome: nat -> Rpc,
                  ghost file: seq<byte>)
    returns (ret: int, buf: seq<byte>)
    requires Readable(e, cl, path, Range(e.c, pos, |buf0|)) && Represents(e, cl, path, file)
    ensures ret == -1 ==> ReadFailed(e, fwd, cl, path, Range(e.c, pos, |buf0|), buf0, buf, outcome)
    ensures Received(e, cl, path, Range(e.c, pos, |buf0|), buf0,
                     TookRead(e, fwd, path, Range(e.c, pos, |buf0|), outcome), buf)
    ensures ret == if AllRead(e, fwd, path, Range(e.c, pos, |buf0|), outcome) then |ReadData(file, pos, |buf0|)| else -1
    ensures ret >= 0 ==> buf == PreadInto(file, pos, buf0)
  {
    ret, buf := ForwardRead(e, fwd, cl, path, buf0, pos, outcome);
    if ret >= 0 {
      ghost var r := Range(e.c, pos, |buf0|);
      ReadRefines(e, cl, path, r, buf0, TookRead(e, fwd, path, r, outcome), buf, file);
      PreadBytes(buf0, PreadInto(file, pos, buf0), file, pos);
    }
  }

  /** The first i buffers have been read in full. */
  ghost predicate ReadSoFar(file: seq<byte>, offset: nat, bufs0: seq<seq<byte>>, bufs: seq<seq<byte>>, i: nat,
                            read: nat) {
    && i <= |bufs| == |bufs0| && bufs == PreadAll(file, offset, bufs0[..i]) + bufs0[i..]
    && read == |Concat(bufs0[..i])| && (read > 0 ==> offset + read <= |file|)
  }

  lemma {:induction false} ReadStep(file: seq<byte>, offset: nat, bufs0: seq<seq<byte>>, bufs: seq<seq<byte>>, i: nat,
                                    read: nat)
    requires ReadSoFar(file, offset, bufs0, bufs, i, read) && i < |bufs0|
    ensures |PreadAll(file, offset, bufs0[..i])| == i
    ensures bufs[i := PreadInto(file, offset + read, bufs0[i])]
         == PreadAll(file, offset, bufs0[..i + 1]) + bufs0[i + 1..]
  {
    PreadLength(file, offset, bufs0[..i]);
    PreadSnoc(file, offset, bufs0, i);
  }

  lemma {:induction false} PreadLength(file: seq<byte>, off: nat, bufs: seq<seq<byte>>)
    ensures |PreadAll(file, off, bufs)| == |bufs|
  {
    if bufs != [] { PreadLength(file, off, bufs[..|bufs| - 1]); }
  }

  function PreadCount(file: seq<byte>, off: nat, n: nat): nat { |ReadData(file, off, n)| }

  /** The vectored calls return -1 instead of 0. */
  function AsRet(n: nat): int { if n == 0 then -1 else n }

  /** The whole vector has been read. */
  ghost predicate ReadDone(file: seq<byte>, offset: nat, bufs0: seq<seq<byte>>, bufs: seq<seq<byte>>, ret: int) {
    bufs == PreadAll(file, offset, bufs0) && ret == AsRet(PreadCount(file, offset, |Concat(bufs0)|))
  }

  lemma {:induction false} DoneReturns(file: seq<byte>, offset: nat, bufs0: seq<seq<byte>>, bufs: seq<seq<byte>>,
                                       ret: int)
    requires ReadDone(file, offset, bufs0, bufs, ret)
    ensures var n := Min(offset + |Concat(bufs0)|, |file|) - offset; ret == if n <= 0 then -1 else n
  {
  }

  /** A buffer that was read in full, or was empty. */
  lemma ReadFull(file: seq<byte>, offset: nat, bufs0: seq<seq<byte>>, bufs: seq<seq<byte>>, i: nat, read: nat)
    requires ReadSoFar(file, offset, bufs0, bufs, i, read) && i < |bufs0|
    requires PreadCount(file, offset + read, |bufs0[i]|) == |bufs0[i]|
    ensures ReadSoFar(file, offset, bufs0, bufs[i := PreadInto(file, offset + read, bufs0[i])], i + 1,
                      read + |bufs0[i]|)
  {
    ReadStep(file, offset, bufs0, bufs, i, read);
    ConcatSnoc(bufs0, i);
  }

  /** A short read ends at the end of the file: the whole vector has been read. */
  lemma ReadShort(file: seq<byte>, offset: nat, bufs0: seq<seq<byte>>, bufs: seq<seq<byte>>, i: nat, read: nat)
    requires ReadSoFar(file, offset, bufs0, bufs, i, read) && i < |bufs0|
    requires PreadCount(file, offset + read, |bufs0[i]|) < |bufs0[i]|
    ensures ReadDone(file, offset, bufs0, bufs[i := PreadInto(file, offset + read, bufs0[i])],
                     AsRet(read + PreadCount(file, offset + read, |bufs0[i]|)))
  {
    ReadStep(file, offset, bufs0, bufs, i, read);
    ConcatSnoc(bufs0, i);
    ConcatGrows(bufs0, i + 1);
    PreadBeyond(file, offset, bufs0, i + 1);
  }

  lemma ReadAllFull(file: seq<byte>, offset: nat, bufs0: seq<seq<byte>>, bufs: seq<seq<byte>>, read: nat)
    requires ReadSoFar(file, offset, bufs0, bufs, |bufs0|, read)
    ensures ReadDone(file, offset, bufs0, bufs, AsRet(read))
  {
    assert bufs0[..|bufs0|] == bufs0;
  }

  /** An empty buffer is skipped. */
  lemma ReadEmpty(file: seq<byte>, offset: nat, bufs0: seq<seq<byte>>, bufs: seq<seq<byte>>, i: nat, read: nat)
    requires ReadSoFar(file, offset, bufs0, bufs, i, read) && i < |bufs0| && bufs0[i] == []
    ensures ReadSoFar(file, offset, bufs0, bufs, i + 1, read)
  {
    ReadStep(file, offset, bufs0, bufs, i, read);
    ConcatSnoc(bufs0, i);
    var b := PreadInto(file, offset + read, bufs0[i]);
    assert b == [] && bufs[i] == bufs0[i];
    assert bufs[i := b] == bufs;
  }

  /** Buffers before i are read, those behind are as they were, and the read into buffer i failed. */
  ghost predicate FailedAt(e: Env, fwd: nat, cl: Cluster, path: string, file: seq<byte>, offset: nat,
                           bufs0: seq<seq<byte>>, bufs: seq<seq<byte>>, i: nat, read: nat, outcome: nat -> Rpc)
  {
    && i < |bufs0| == |bufs|
    && ReadSoFar(file, offset, bufs0, bufs[i := bufs0[i]], i, read)
    && ReadFailed(e, fwd, cl, path, Range(e.c, offset + read, |bufs0[i]|), bufs0[i], bufs[i], outcome)
  }

  lemma UndoUpdate(file: seq<byte>, offset: nat, bufs0: seq<seq<byte>>, bufs: seq<seq<byte>>, i: nat, read: nat,
                   buf: seq<byte>)
    requires ReadSoFar(file, offset, bufs0, bufs, i, read) && i < |bufs0|
    ensures bufs[i := buf][i := bufs0[i]] == bufs
  {
    NextUnread(file, offset, bufs0, bufs, i, read);
  }

  lemma SameFailure(e: Env, fwd: nat, cl: Cluster, path: string, r: Range, was: seq<byte>, buf: seq<byte>,
                    r': Range, was': seq<byte>, buf': seq<byte>, outcome: nat -> Rpc)
    requires ReadFailed(e, fwd, cl, path, r, was, buf, outcome) && r == r' && was == was' && buf == buf'
    ensures ReadFailed(e, fwd, cl, path, r', was', buf', outcome)
  {
  }

  lemma ReadFails(e: Env, fwd: nat, cl: Cluster, path: string, file: seq<byte>, offset: nat, bufs0: seq<seq<byte>>,
                  bufs: seq<seq<byte>>, i: nat, read: nat, was: seq<byte>, buf: seq<byte>, pos: nat,
                  outcome: nat -> Rpc)
    requires ReadSoFar(file, offset, bufs0, bufs, i, read) && i < |bufs0|
    requires was == bufs0[i] && pos == offset + read
      && ReadFailed(e, fwd, cl, path, Range(e.c, pos, |was|), was, buf, outcome)
    ensures FailedAt(e, fwd, cl, path, file, offset, bufs0, bufs[i := buf], i, read, outcome)
  {
    UndoUpdate(file, offset, bufs0, bufs, i, read, buf);
    SameFailure(e, fwd, cl, path, Range(e.c, pos, |was|), was, buf,
                Range(e.c, offset + read, |bufs0[i]|), bufs0[i], bufs[i := buf][i], outcome);
  }

  /** The loop body for a non-empty buffer. */
  method ReadOne(e: Env, fwd: nat, cl: Cluster, path: string, bufs: seq<seq<byte>>, i: nat, pos: nat,
                 outcome: nat -> Rpc,
                 ghost bufs0: seq<seq<byte>>, ghost read: nat, ghost offset: nat, ghost file: seq<byte>)
    returns (ret: int, bufs': seq<seq<byte>>)
    requires ReadSoFar(file, offset, bufs0, bufs, i, read) && i < |bufs0| && bufs[i] == bufs0[i] && pos == offset + read
    requires Readable(e, cl, path, Range(e.c, pos, |bufs[i]|)) && Represents(e, cl, path, file)
    ensures -1 <= ret <= |bufs0[i]| && |bufs'| == |bufs0|
    ensures ret == -1 ==> FailedAt(e, fwd, cl, path, file, offset, bufs0, bufs', i, read, outcome)
    ensures 0 <= ret < |bufs0[i]| ==> ReadDone(file, offset, bufs0, bufs', AsRet(read + ret))
    ensures ret == |bufs0[i]| ==> ReadSoFar(file, offset, bufs0, bufs', i + 1, read + ret)
  {
    var buf;
    ret, buf := ReadNext(e, fwd, cl, path, bufs[i], pos, outcome, file);
    bufs' := bufs[i := buf];
    if ret == -1 {
      ReadFails(e, fwd, cl, path, file, offset, bufs0, bufs, i, read, bufs[i], buf, pos, outcome);
    } else if ret < |bufs[i]| {
      ReadShort(file, offset, bufs0, bufs, i, read);
    } else {
      ReadFull(file, offset, bufs0, bufs, i, read);
    }
  }

  lemma NextUnread(file: seq<byte>, offset: nat, bufs0: seq<seq<byte>>, bufs: seq<seq<byte>>, i: nat, read: nat)
    requires ReadSoFar(file, offset, bufs0, bufs, i, read) && i < |bufs0|
    ensures bufs[i] == bufs0[i]
  {
    PreadLength(file, offset, bufs0[..i]);
  }

  /** How one turn of the loop ends: go on, the vector is read, or the inner read failed. */
  datatype Turn = More | Done | Failure

  /** One turn of the loop. */
  method ReadTurn(e: Env, fwd: nat, cl: Cluster, path: string, bufs: seq<seq<byte>>, i: nat, pos: nat, read: nat,
                  outcome: nat -> Rpc, ghost bufs0: seq<seq<byte>>, ghost offset: nat, ghost file: seq<byte>)
    returns (turn: Turn, bufs': seq<seq<byte>>, pos': nat, read': nat)
    requires e.Valid() && |cl| == e.Backends() && IsAbsolute(path) && Addressable(e, offset, |Concat(bufs0)|)
    requires Represents(e, cl, path, file) && ReadSoFar(file, offset, bufs0, bufs, i, read) && i < |bufs0|
      && pos == offset + read
    ensures turn.More? ==> ReadSoFar(file, offset, bufs0, bufs', i + 1, read') && pos' == offset + read'
    ensures turn.Done? ==> ReadDone(file, offset, bufs0, bufs', AsRet(read'))
    ensures turn.Failure? ==> FailedAt(e, fwd, cl, path, file, offset, bufs0, bufs', i, read', outcome)
  {
    NextUnread(file, offset, bufs0, bufs, i, read);
    turn, bufs', pos', read' := More, bufs, pos, read;
    var count := |bufs[i]|;
    if count == 0 {
      ReadEmpty(file, offset, bufs0, bufs, i, read);
      return;
    }
    AddressablePart(e, offset, bufs0, i);
    var n;
    n, bufs' := ReadOne(e, fwd, cl, path, bufs, i, pos, outcome, bufs0, read, offset, file);
    if n == -1 {
      turn := Failure;
      return;
    }
    read', pos' := read + n, pos + n;
    if n < count {
      turn := Done;
    }
  }

  /** gkfs_preadv. Without a failed inner read the buffers get one contiguous read of the plain file and
      the call returns its length, or -1 if that is 0. A failed inner read of buffer done ends the call
      with what was read before it. */
  method Preadv(e: Env, fwd: nat, cl: Cluster, path: string, bufs0: seq<seq<byte>>, offset: nat,
                outcome: nat -> nat -> Rpc, ghost file: seq<byte>)
    returns (ret: int, bufs: seq<seq<byte>>, failed: bool, done: nat, read: nat)
    requires e.Valid() && |cl| == e.Backends() && IsAbsolute(path) && Addressable(e, offset, |Concat(bufs0)|)
    requires Represents(e, cl, path, file)
    ensures !failed ==> ReadDone(file, offset, bufs0, bufs, ret)
    ensures failed ==> FailedAt(e, fwd, cl, path, file, offset, bufs0, bufs, done, read, outcome(done))
    ensures failed ==> ret == if read == 0 then -1 else read
    ensures !failed ==> var n := Min(offset + |Concat(bufs0)|, |file|) - offset; ret == if n <= 0 then -1 else n
  {
    bufs, failed, done, read := bufs0, false, 0, 0;
    var pos: nat := offset;
    while done < |bufs0|
      invariant ReadSoFar(file, offset, bufs0, bufs, done, read) && pos == offset + read
      decreases |bufs0| - done
    {
      var turn;
      turn, bufs, pos, read := ReadTurn(e, fwd, cl, path, bufs, done, pos, read, outcome(done), bufs0, offset, file);
      if !turn.More? {
        if turn.Done? { DoneReturns(file, offset, bufs0, bufs, AsRet(read)); }
        return AsRet(read), bufs, turn.Failure?, done, read;
      }
      done := done + 1;
    }
    ReadAllFull(file, offset, bufs0, bufs, read);
    ret := AsRet(read);
    DoneReturns(file, offset, bufs0, bufs, ret);
  }
}
