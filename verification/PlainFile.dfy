/** The striped file refines a plain file: pwrite and pread through any number of daemons have the
    effect and the results of pwrite and pread on one sequence of bytes. */
module PlainFile {
  import opened Arith
  import opened Layout
  import opened Placement
  import opened ChunkStorage
  import opened FlatFile
  import opened SrvRead
  import opened StripedIO
  import opened StripedRead

  /** The bytes of path are those of file; a hole counts as zeros. */
  ghost predicate Contents(e: Env, cl: Cluster, path: string, file: seq<byte>) {
    forall p: nat :: Fits(e, p) ==> FlatAt(e, cl, path, p) == ByteOr0(file, p)
  }

  /** The chunk files of path hold exactly the bytes of file. */
  ghost predicate Represents(e: Env, cl: Cluster, path: string, file: seq<byte>) {
    && Contents(e, cl, path, file)
    && (forall p: nat :: Fits(e, p) ==> (Stored(e, cl, path, p) <==> p < |file|))
  }

  lemma WriteBytes(e: Env, cl: Cluster, cl': Cluster, w: Write, took: set<nat>, file: seq<byte>, p: nat)
    requires WellFormed(e, cl, w) && Wrote(e, cl, cl', w, took) && AllTook(RangeOf(e, w), took)
    requires Contents(e, cl, w.path, file) && Fits(e, p)
    ensures FlatAt(e, cl', w.path, p) == ByteOr0(Pwrite(file, w.offset, w.data), p)
  {
    PwriteByte(file, w.offset, w.data, p);
    if RangeOf(e, w).Holds(p) { PositionInPiece(RangeOf(e, w), p); }
  }

  /** The bytes after a successful write, with or without holes. */
  lemma WriteContents(e: Env, cl: Cluster, cl': Cluster, w: Write, took: set<nat>, file: seq<byte>, file': seq<byte>)
    requires WellFormed(e, cl, w) && Wrote(e, cl, cl', w, took) && AllTook(RangeOf(e, w), took)
    requires Contents(e, cl, w.path, file) && file' == Pwrite(file, w.offset, w.data)
    ensures Contents(e, cl', w.path, file')
  {
    forall p: nat | Fits(e, p) ensures FlatAt(e, cl', w.path, p) == ByteOr0(file', p) {
      WriteBytes(e, cl, cl', w, took, file, p);
    }
  }

  /** No chunk lies wholly between the end of the file and the write. */
  predicate NoHole(e: Env, size: nat, w: Write) {
    w.offset <= size || Quot(size, e.c) == Quot(w.offset, e.c)
  }

  /** Position p is in a chunk of w or before it, and before the end of w. */
  lemma {:induction false} BeforeWriteEnd(e: Env, w: Write, size: nat, p: nat)
    requires e.c > 0 && |w.data| > 0 && NoHole(e, size, w) && size <= p < w.offset + |w.data|
    ensures RangeOf(e, w).Touches(Quot(p, e.c))
  {
    QuotMonotone(p, w.offset + |w.data| - 1, e.c);
    QuotMonotone(size, p, e.c);
    if w.offset <= p { QuotMonotone(w.offset, p, e.c); }
  }

  lemma WriteStores(e: Env, cl: Cluster, cl': Cluster, w: Write, took: set<nat>, file: seq<byte>, p: nat)
    requires WellFormed(e, cl, w) && Wrote(e, cl, cl', w, took) && AllTook(RangeOf(e, w), took)
    requires Represents(e, cl, w.path, file) && Fits(e, p) && NoHole(e, |file|, w)
    ensures Stored(e, cl', w.path, p) <==> p < |Pwrite(file, w.offset, w.data)|
  {
    PwriteByte(file, w.offset, w.data, p);
    if |file| <= p < w.offset + |w.data| { BeforeWriteEnd(e, w, |file|, p); }
  }

  /** A write that skips a whole chunk leaves that chunk without bytes. */
  lemma HoleNotStored(e: Env, cl: Cluster, cl': Cluster, w: Write, took: set<nat>, file: seq<byte>)
    requires WellFormed(e, cl, w) && Wrote(e, cl, cl', w, took)
    requires Represents(e, cl, w.path, file) && !NoHole(e, |file|, w)
    ensures Fits(e, |file|) && |file| < |Pwrite(file, w.offset, w.data)| && !Stored(e, cl', w.path, |file|)
  {
    PwriteByte(file, w.offset, w.data, 0);
    AddressableFits(e, w.offset, |w.data|, |file|);
    QuotMonotone(|file|, w.offset, e.c);
  }

  /** forward_write refines pwrite. The bytes are always right; the stored bytes are those of the plain
      file exactly when the write does not skip a whole chunk. */
  lemma WriteRefines(e: Env, cl: Cluster, cl': Cluster, w: Write, took: set<nat>, file: seq<byte>)
    requires WellFormed(e, cl, w) && Wrote(e, cl, cl', w, took) && AllTook(RangeOf(e, w), took)
    requires Represents(e, cl, w.path, file)
    ensures Contents(e, cl', w.path, Pwrite(file, w.offset, w.data))
    ensures Represents(e, cl', w.path, Pwrite(file, w.offset, w.data)) <==> NoHole(e, |file|, w)
  {
    WriteContents(e, cl, cl', w, took, file, Pwrite(file, w.offset, w.data));
    if NoHole(e, |file|, w) {
      forall p: nat | Fits(e, p) ensures Stored(e, cl', w.path, p) <==> p < |Pwrite(file, w.offset, w.data)| {
        WriteStores(e, cl, cl', w, took, file, p);
      }
    } else {
      HoleNotStored(e, cl, cl', w, took, file);
    }
  }

  lemma ReadByte(e: Env, cl: Cluster, path: string, r: Range, buf0: seq<byte>, took: set<nat>,
                 buf: seq<byte>, file: seq<byte>, j: nat)
    requires e.c > 0 && r.c == e.c && Addressable(e, r.offset, r.size) && j < |buf0| == r.size
    requires Received(e, cl, path, r, buf0, took, buf) && AllTook(r, took)
    requires Represents(e, cl, path, file)
    ensures buf[j] == if r.offset + j < |file| then file[r.offset + j] else buf0[j]
  {
    AddressableFits(e, r.offset, r.size, r.offset + j);
    PositionInPiece(r, r.offset + j);
  }

  /** A buffer that got the bytes of file from off is the result of pread. */
  lemma PreadBytes(buf0: seq<byte>, buf: seq<byte>, file: seq<byte>, off: nat)
    requires |buf| == |buf0|
    requires forall j :: 0 <= j < |buf| ==> buf[j] == if off + j < |file| then file[off + j] else buf0[j]
    ensures buf == Copy(buf0, 0, ReadData(file, off, |buf0|))
  {
    var data := ReadData(file, off, |buf0|);
    assert Copy(buf0, 0, data) == data + buf0[|data|..];
  }

  /** forward_read refines pread: the bytes from offset up to the end of the file, and their number. */
  lemma ReadRefines(e: Env, cl: Cluster, path: string, r: Range, buf0: seq<byte>, took: set<nat>,
                    buf: seq<byte>, file: seq<byte>)
    requires e.c > 0 && r.c == e.c && Addressable(e, r.offset, r.size) && |buf0| == r.size
    requires Received(e, cl, path, r, buf0, took, buf) && AllTook(r, took)
    requires Represents(e, cl, path, file)
    ensures buf == Copy(buf0, 0, ReadData(file, r.offset, r.size))
    ensures StoredIn(e, cl, path, r) == |ReadData(file, r.offset, r.size)|
  {
    DenseCount(e, cl, path, |file|, r);
    forall j | 0 <= j < |buf| ensures buf[j] == if r.offset + j < |file| then file[r.offset + j] else buf0[j] {
      ReadByte(e, cl, path, r, buf0, took, buf, file, j);
    }
    PreadBytes(buf0, buf, file, r.offset);
  }

  // ---- Whole histories ----

  /** A successful call on one path, with the daemons that handled it. */
  datatype Call =
    | WriteCall(took: set<nat>, offset: nat, data: seq<byte>)
    | ReadCall(took: set<nat>, offset: nat, before: seq<byte>, ret: int, after: seq<byte>)

  /** What the contracts of forward_write and forward_read say of a call that returned no error. */
  ghost predicate Done(e: Env, path: string, cl: Cluster, call: Call, cl': Cluster) {
    match call
    case WriteCall(took, offset, data) =>
      var w := Write(path, offset, data);
      WellFormed(e, cl, w) && Wrote(e, cl, cl', w, took) && AllTook(RangeOf(e, w), took)
    case ReadCall(took, offset, before, ret, after) =>
      var r := Range(e.c, offset, |before|);
      && cl' == cl && Readable(e, cl, path, r) && Received(e, cl, path, r, before, took, after)
      && AllTook(r, took) && ret == StoredIn(e, cl, path, r)
  }

  /** The plain file after the calls. */
  function Plain(file: seq<byte>, calls: seq<Call>): seq<byte> {
    if calls == [] then file
    else
      var f, last := Plain(file, calls[..|calls| - 1]), calls[|calls| - 1];
      if last.WriteCall? then Pwrite(f, last.offset, last.data) else f
  }

  /** What pread on a plain file gives. */
  predicate PlainRead(file: seq<byte>, call: Call) {
    call.ReadCall? ==>
      var data := ReadData(file, call.offset, |call.before|);
      call.ret == |data| && call.after == Copy(call.before, 0, data)
  }

  /** Every read of the history is a read of the plain file at that point. */
  predicate PlainReads(file: seq<byte>, calls: seq<Call>) {
    calls == [] ||
    var init, last := calls[..|calls| - 1], calls[|calls| - 1];
    PlainReads(file, init) && PlainRead(Plain(file, init), last)
  }

  predicate SkipsNoChunk(e: Env, path: string, file: seq<byte>, calls: seq<Call>) {
    calls == [] ||
    var init, last := calls[..|calls| - 1], calls[|calls| - 1];
    && SkipsNoChunk(e, path, file, init)
    && (last.WriteCall? ==> NoHole(e, |Plain(file, init)|, Write(path, last.offset, last.data)))
  }

  /** The calls, done one after the other, lead through the clusters. */
  ghost predicate History(e: Env, path: string, cls: seq<Cluster>, calls: seq<Call>) {
    && |cls| == |calls| + 1
    && (calls == [] ||
        var n := |calls| - 1;
        History(e, path, cls[..n + 1], calls[..n]) && Done(e, path, cls[n], calls[n], cls[n + 1]))
  }

  lemma StepRefines(e: Env, path: string, cl: Cluster, call: Call, cl': Cluster, file: seq<byte>)
    requires e.c > 0 && Done(e, path, cl, call, cl') && Represents(e, cl, path, file)
    requires call.WriteCall? ==> NoHole(e, |file|, Write(path, call.offset, call.data))
    ensures PlainRead(file, call)
    ensures Represents(e, cl', path, if call.WriteCall? then Pwrite(file, call.offset, call.data) else file)
  {
    match call
    case WriteCall(took, offset, data) =>
      WriteRefines(e, cl, cl', Write(path, offset, data), took, file);
    case ReadCall(took, offset, before, ret, after) =>
      ReadRefines(e, cl, path, Range(e.c, offset, |before|), before, took, after, file);
  }

  /** Over every history of successful calls that skips no chunk, from any clients, in both modes:
      every read returns what it would return on the plain file, and the chunk files hold that file. */
  lemma {:induction false} HistoryRefines(e: Env, path: string, cls: seq<Cluster>, calls: seq<Call>, file: seq<byte>)
    requires e.c > 0 && History(e, path, cls, calls) && Represents(e, cls[0], path, file)
    requires SkipsNoChunk(e, path, file, calls)
    ensures Represents(e, cls[|calls|], path, Plain(file, calls)) && PlainReads(file, calls)
    decreases |calls|
  {
    if calls != [] {
      var n := |calls| - 1;
      HistoryRefines(e, path, cls[..n + 1], calls[..n], file);
      StepRefines(e, path, cls[n], calls[n], cls[n + 1], Plain(file, calls[..n]));
    }
  }

  /** Hash distribution and forwarding, or two host counts, cannot be told apart: clusters that hold
      the same file hold the same file after the same write. */
  lemma ModesAgree(e: Env, e': Env, cl0: Cluster, cl1: Cluster, cl0': Cluster, cl1': Cluster,
                   w: Write, took: set<nat>, took': set<nat>, p: nat)
    requires e.c == e'.c && WellFormed(e, cl0, w) && WellFormed(e', cl0', w) && Fits(e, p)
    requires FlatAt(e, cl0, w.path, p) == FlatAt(e', cl0', w.path, p)
    requires Stored(e, cl0, w.path, p) <==> Stored(e', cl0', w.path, p)
    requires Wrote(e, cl0, cl1, w, took) && AllTook(RangeOf(e, w), took)
    requires Wrote(e', cl0', cl1', w, took') && AllTook(RangeOf(e, w), took')
    ensures FlatAt(e, cl1, w.path, p) == FlatAt(e', cl1', w.path, p)
    ensures Stored(e, cl1, w.path, p) <==> Stored(e', cl1', w.path, p)
  {
    assert RangeOf(e, w) == RangeOf(e', w);
    if RangeOf(e, w).Holds(p) { PositionInPiece(RangeOf(e, w), p); }
  }

  /** A read through any daemons and forwarders of clusters that hold the same bytes gives the same buffer. */
  lemma ReadsAgree(e: Env, e': Env, cl: Cluster, cl': Cluster, path: string, r: Range,
                   buf0: seq<byte>, took: set<nat>, took': set<nat>, buf: seq<byte>, buf': seq<byte>)
    requires e.c == e'.c == r.c > 0 && |buf0| == r.size
    requires forall p: nat :: r.Holds(p) ==>
      FlatAt(e, cl, path, p) == FlatAt(e', cl', path, p) && (Stored(e, cl, path, p) <==> Stored(e', cl', path, p))
    requires Received(e, cl, path, r, buf0, took, buf) && AllTook(r, took)
    requires Received(e', cl', path, r, buf0, took', buf') && AllTook(r, took')
    ensures buf == buf'
  {
    forall j | 0 <= j < |buf| ensures buf[j] == buf'[j] {
      assert r.Holds(r.offset + j);
      PositionInPiece(r, r.offset + j);
    }
  }

  lemma WrittenByte(e: Env, cl: Cluster, cl': Cluster, w: Write, took: set<nat>, j: nat)
    requires WellFormed(e, cl, w) && Wrote(e, cl, cl', w, took) && AllTook(RangeOf(e, w), took)
    requires j < |w.data|
    ensures Stored(e, cl', w.path, w.offset + j) && FlatAt(e, cl', w.path, w.offset + j) == w.data[j]
  {
    AddressableFits(e, w.offset, |w.data|, w.offset + j);
    PositionInPiece(RangeOf(e, w), w.offset + j);
  }

  lemma WrittenCount(e: Env, cl: Cluster, cl': Cluster, w: Write, took: set<nat>)
    requires WellFormed(e, cl, w) && Wrote(e, cl, cl', w, took) && AllTook(RangeOf(e, w), took)
    ensures StoredIn(e, cl', w.path, RangeOf(e, w)) == |w.data|
  {
    forall p: nat | RangeOf(e, w).Holds(p) ensures Stored(e, cl', w.path, p) {
      WrittenByte(e, cl, cl', w, took, p - w.offset);
    }
    FullCount(e, cl', w.path, RangeOf(e, w));
  }

  lemma ReceivedByte(e: Env, cl: Cluster, path: string, r: Range, buf0: seq<byte>, took: set<nat>, buf: seq<byte>,
                     j: nat)
    requires e.c == r.c > 0 && j < r.size == |buf0| && Stored(e, cl, path, r.offset + j)
    requires Received(e, cl, path, r, buf0, took, buf) && AllTook(r, took)
    ensures buf[j] == FlatAt(e, cl, path, r.offset + j)
  {
    PositionInPiece(r, r.offset + j);
  }

  /** A successful write followed by a successful read of its range returns the written buffer and its
      size, whatever the file held before and whichever forwarders the two calls use. */
  lemma ReadBack(e: Env, cl: Cluster, cl': Cluster, w: Write, took: set<nat>,
                 buf0: seq<byte>, took': set<nat>, buf: seq<byte>)
    requires WellFormed(e, cl, w) && Wrote(e, cl, cl', w, took) && AllTook(RangeOf(e, w), took)
    requires |buf0| == |w.data|
    requires Received(e, cl', w.path, RangeOf(e, w), buf0, took', buf) && AllTook(RangeOf(e, w), took')
    ensures buf == w.data && StoredIn(e, cl', w.path, RangeOf(e, w)) == |w.data|
  {
    WrittenCount(e, cl, cl', w, took);
    forall j | 0 <= j < |buf| ensures buf[j] == w.data[j] {
      WrittenByte(e, cl, cl', w, took, j);
      ReceivedByte(e, cl', w.path, RangeOf(e, w), buf0, took', buf, j);
    }
  }
}
