/** forward_read end to end, against the flat file: every stored byte of the range arrives at its
    place of the user's buffer, and the call returns how many there were. */
module StripedRead {
  import opened Arith
  import opened Layout
  import opened Placement
  import opened ChunkStorage
  import opened FlatFile
  import opened SrvData
  import opened SrvRead
  import opened ForwardData
  import opened StripedIO

  /** A range that forward_read can be asked for. */
  ghost predicate Readable(e: Env, cl: Cluster, path: string, r: Range) {
    && e.Valid() && |cl| == e.Backends() && IsAbsolute(path)
    && r.c == e.c && r.size > 0 && Addressable(e, r.offset, r.size)
  }

  /** Byte p is stored in a chunk below hi that daemon h serves. */
  predicate Arrives(e: Env, cl: Cluster, h: nat, path: string, p: nat, hi: nat) {
    Quot(p, e.c) < hi && e.Serves(h, path, Quot(p, e.c)) && Stored(e, cl, path, p)
  }

  lemma ServedChunk(e: Env, cl: Cluster, h: nat, path: string, id: nat)
    requires e.Serves(h, path, id)
    ensures ChunkOf(StoreAt(cl, e.Backend(h)), ChunkDir(path), id % KEYS) == Chunk(e, cl, path, id)
  {
  }

  /** The bytes found for a piece, pushed to its origin: index j gets the chunk byte it stands for. */
  lemma PushPiece(chunk: seq<byte>, q: Piece, buf: seq<byte>, j: nat)
    requires q.origin + q.size <= |buf| && j < |buf|
    ensures var d := ReadData(chunk, q.chunkOff, q.size);
      var i := q.chunkOff + (j - q.origin);
      && |Copy(buf, q.origin, d)| == |buf|
      && Copy(buf, q.origin, d)[j] == if q.origin <= j < q.origin + q.size && i < |chunk| then chunk[i] else buf[j]
  {
    CopyAt(buf, q.origin, ReadData(chunk, q.chunkOff, q.size), j);
  }

  lemma {:induction false} PushStep(e: Env, cl: Cluster, h: nat, path: string, r: Range, buf: seq<byte>, id: nat,
                                    j: nat)
    requires r.c == e.c && r.Touches(id) && e.Serves(h, path, id) && j < r.size == |buf|
    ensures var d := Fetched(StoreAt(cl, e.Backend(h)), ChunkDir(path), Share(e, h, path, r).TaskOf(id));
      && |Copy(buf, r.PieceAt(id).origin, d)| == |buf|
      && Copy(buf, r.PieceAt(id).origin, d)[j]
         == if Quot(r.offset + j, e.c) == id && Stored(e, cl, path, r.offset + j)
            then FlatAt(e, cl, path, r.offset + j) else buf[j]
  {
    PieceBounds(r, id);
    ServedChunk(e, cl, h, path, id);
    PushPiece(Chunk(e, cl, path, id), r.PieceAt(id), buf, j);
    IndexInPiece(r, id, j);
  }

  /** The byte at index j after the pushes for the chunks below hi. */
  function Pushed(e: Env, cl: Cluster, h: nat, path: string, r: Range, buf: seq<byte>, hi: nat, j: nat): byte {
    var after := Push(StoreAt(cl, e.Backend(h)), ChunkDir(path), Reads(Share(e, h, path, r), hi), buf);
    if j < |after| then after[j] else 0
  }

  /** Byte p after the push of chunk id. */
  function Overlay(e: Env, cl: Cluster, h: nat, path: string, p: nat, id: nat, was: byte): byte {
    if e.Serves(h, path, id) && Quot(p, e.c) == id && Stored(e, cl, path, p) then FlatAt(e, cl, path, p) else was
  }

  /** Byte p after the pushes of the chunks below hi. */
  function Shown(e: Env, cl: Cluster, h: nat, path: string, p: nat, hi: nat, was: byte): byte {
    if Arrives(e, cl, h, path, p, hi) then FlatAt(e, cl, path, p) else was
  }

  lemma ShownStep(e: Env, cl: Cluster, h: nat, path: string, p: nat, id: nat, was: byte)
    ensures Shown(e, cl, h, path, p, id + 1, was) == Overlay(e, cl, h, path, p, id, Shown(e, cl, h, path, p, id, was))
  {
    if Quot(p, e.c) == id { assert e.Serves(h, path, Quot(p, e.c)) <==> e.Serves(h, path, id); }
  }

  lemma PushNext(e: Env, cl: Cluster, h: nat, path: string, r: Range, buf: seq<byte>, id: nat, j: nat)
    requires r.c == e.c && r.Touches(id) && j < r.size == |buf|
    ensures Pushed(e, cl, h, path, r, buf, id + 1, j)
         == Overlay(e, cl, h, path, r.offset + j, id, Pushed(e, cl, h, path, r, buf, id, j))
  {
    var s, store, dir := Share(e, h, path, r), StoreAt(cl, e.Backend(h)), ChunkDir(path);
    if e.Serves(h, path, id) {
      assert Reads(s, id + 1) == Reads(s, id) + [ReadOf(s, id)];
      PushAppend(store, dir, Reads(s, id), ReadOf(s, id), buf);
      PushStep(e, cl, h, path, r, Push(store, dir, Reads(s, id), buf), id, j);
    } else {
      assert Reads(s, id + 1) == Reads(s, id);
    }
  }

  /** Byte p after the pushes of the chunks in [lo, hi), one after the other. */
  function Layered(e: Env, cl: Cluster, h: nat, path: string, p: nat, lo: nat, hi: nat, was: byte): byte
    decreases hi
  {
    if hi <= lo then was else Overlay(e, cl, h, path, p, hi - 1, Layered(e, cl, h, path, p, lo, hi - 1, was))
  }

  lemma {:induction false} LayeredShown(e: Env, cl: Cluster, h: nat, path: string, p: nat, lo: nat, hi: nat, was: byte)
    requires lo <= Quot(p, e.c)
    ensures Layered(e, cl, h, path, p, lo, hi, was) == Shown(e, cl, h, path, p, hi, was)
    decreases hi
  {
    if lo < hi {
      LayeredShown(e, cl, h, path, p, lo, hi - 1, was);
      ShownStep(e, cl, h, path, p, hi - 1, was);
    }
  }

  lemma PushNone(e: Env, cl: Cluster, h: nat, path: string, r: Range, buf: seq<byte>, hi: nat, j: nat)
    requires hi <= r.First() && j < |buf|
    ensures Pushed(e, cl, h, path, r, buf, hi, j) == buf[j]
  {
    assert Reads(Share(e, h, path, r), hi) == [];
  }

  lemma {:induction false} PushLayers(e: Env, cl: Cluster, h: nat, path: string, r: Range, buf: seq<byte>, hi: nat,
                                      j: nat)
    requires r.c == e.c && r.NonEmpty() && j < r.size == |buf| && hi <= r.Last() + 1
    ensures Pushed(e, cl, h, path, r, buf, hi, j) == Layered(e, cl, h, path, r.offset + j, r.First(), hi, buf[j])
  {
    if hi <= r.First() {
      PushNone(e, cl, h, path, r, buf, hi, j);
    } else {
      PushLayers(e, cl, h, path, r, buf, hi - 1, j);
      PushNext(e, cl, h, path, r, buf, hi - 1, j);
    }
  }

  /** One daemon's pushes, byte by byte. */
  lemma PushByte(e: Env, cl: Cluster, h: nat, path: string, r: Range, buf: seq<byte>, hi: nat, j: nat)
    requires r.c == e.c && r.NonEmpty() && j < r.size == |buf| && hi <= r.Last() + 1
    ensures Pushed(e, cl, h, path, r, buf, hi, j) == Shown(e, cl, h, path, r.offset + j, hi, buf[j])
  {
    PushLayers(e, cl, h, path, r, buf, hi, j);
    QuotMonotone(r.offset, r.offset + j, r.c);
    LayeredShown(e, cl, h, path, r.offset + j, r.First(), hi, buf[j]);
  }

  // ---- How many bytes arrive ----

  /** The positions of the range that are stored. */
  function StoredSet(e: Env, cl: Cluster, path: string, r: Range): set<nat> {
    set p: nat | r.offset <= p < r.offset + r.size && Stored(e, cl, path, p)
  }

  /** Number of stored bytes of the range. */
  function StoredIn(e: Env, cl: Cluster, path: string, r: Range): nat { |StoredSet(e, cl, path, r)| }

  /** Number of members of s in [lo, hi). */
  function Count(s: set<nat>, lo: nat, hi: nat): nat
    decreases hi
  {
    if hi <= lo then 0 else Count(s, lo, hi - 1) + if hi - 1 in s then 1 else 0
  }

  lemma {:induction false} CountSame(s: set<nat>, t: set<nat>, lo: nat, hi: nat)
    requires forall p: nat :: p < hi ==> (p in s <==> p in t)
    ensures Count(s, lo, hi) == Count(t, lo, hi)
    decreases hi
  {
    if lo < hi { CountSame(s, t, lo, hi - 1); }
  }

  /** Counting the members of a set one by one gives its size. */
  lemma {:induction false} CountIsSize(s: set<nat>, lo: nat, hi: nat)
    requires forall p: nat :: p in s ==> lo <= p < hi
    ensures Count(s, lo, hi) == |s|
    decreases hi
  {
    if lo < hi {
      var t := s - {hi - 1};
      CountIsSize(t, lo, hi - 1);
      CountSame(s, t, lo, hi - 1);
      if hi - 1 in s { assert s == t + {hi - 1}; } else { assert s == t; }
    } else {
      assert s == {};
    }
  }

  lemma {:induction false} CountAdditive(s: set<nat>, a: nat, b: nat, c: nat)
    requires a <= b <= c
    ensures Count(s, a, c) == Count(s, a, b) + Count(s, b, c)
    decreases c
  {
    if b < c { CountAdditive(s, a, b, c - 1); }
  }

  /** When the members up to b are those below end. */
  lemma {:induction false} CountPrefix(s: set<nat>, end: nat, a: nat, b: nat)
    requires a <= b && forall p: nat :: a <= p < b ==> (p in s <==> p < end)
    ensures Count(s, a, b) == Max(0, Min(b, end) - a)
    decreases b
  {
    if a < b { CountPrefix(s, end, a, b - 1); }
  }

  /** Number of members of s in the part of r in chunk id. */
  function PieceStored(s: set<nat>, r: Range, id: nat): nat {
    Count(s, r.offset + Before(r, id), r.offset + Before(r, id + 1))
  }

  /** f gives the members of s in r per chunk. */
  ghost predicate Counts(s: set<nat>, r: Range, f: map<nat, nat>) {
    forall id: nat :: r.Touches(id) ==> At(f, id) == PieceStored(s, r, id)
  }

  function CountMap(s: set<nat>, r: Range): map<nat, nat> {
    map id: nat | r.First() <= id <= r.Last() :: PieceStored(s, r, id)
  }

  /** Where in the file the piece of chunk id lies. */
  lemma PieceSpan(r: Range, id: nat)
    requires r.Touches(id)
    ensures var q, base := r.PieceAt(id), Times(r.c, id);
      && r.offset + Before(r, id) == base + q.chunkOff && r.offset + Before(r, id + 1) == base + (q.chunkOff + q.size)
      && base + (q.chunkOff + q.size) <= r.offset + r.size && q.chunkOff + q.size <= r.c
  {
    TileStep(r, id);
    PieceBounds(r, id);
  }

  /** s has the bytes of r that chunk id holds: inside the chunk they are a prefix. */
  ghost predicate Shows(s: set<nat>, r: Range, id: nat, chunk: seq<byte>) {
    forall p: nat :: r.Holds(p) && Quot(p, r.c) == id ==> (p in s <==> Rem(p, r.c) < |chunk|)
  }

  lemma ReadCount(s: set<nat>, r: Range, id: nat, chunk: seq<byte>)
    requires r.Touches(id) && Shows(s, r, id, chunk)
    ensures |ReadData(chunk, r.PieceAt(id).chunkOff, r.PieceAt(id).size)| == PieceStored(s, r, id)
  {
    var q, base := r.PieceAt(id), Times(r.c, id);
    var a, b := base + q.chunkOff, base + (q.chunkOff + q.size);
    PieceSpan(r, id);
    forall p: nat | a <= p < b ensures p in s <==> p < base + |chunk| {
      QuotUnique(p, r.c, id);
    }
    CountPrefix(s, base + |chunk|, a, b);
  }

  /** Number of bytes that a read task for chunk id finds. */
  function FoundSize(e: Env, cl: Cluster, path: string, r: Range, id: nat): nat {
    |ReadData(Chunk(e, cl, path, id), r.PieceAt(id).chunkOff, r.PieceAt(id).size)|
  }

  /** A read task finds the stored bytes of its piece. */
  lemma PieceCount(e: Env, cl: Cluster, path: string, r: Range, id: nat)
    requires r.c == e.c && r.Touches(id)
    ensures FoundSize(e, cl, path, r, id) == PieceStored(StoredSet(e, cl, path, r), r, id)
  {
    ReadCount(StoredSet(e, cl, path, r), r, id, Chunk(e, cl, path, id));
  }

  /** f gives what the read tasks find. */
  ghost predicate Finds(e: Env, cl: Cluster, path: string, r: Range, f: map<nat, nat>) {
    forall id: nat :: r.Touches(id) ==> At(f, id) == FoundSize(e, cl, path, r, id)
  }

  /** What daemon h finds in the chunks below each chunk. */
  function FetchedMap(e: Env, cl: Cluster, h: nat, path: string, r: Range): map<nat, nat> {
    map id: nat | r.First() <= id <= r.Last() + 1 ::
      FetchedSize(StoreAt(cl, e.Backend(h)), ChunkDir(path), Reads(Share(e, h, path, r), id))
  }

  lemma FetchedStep(e: Env, cl: Cluster, h: nat, path: string, r: Range, id: nat)
    requires r.First() <= id
    ensures var s, store, dir := Share(e, h, path, r), StoreAt(cl, e.Backend(h)), ChunkDir(path);
      FetchedSize(store, dir, Reads(s, id + 1))
      == FetchedSize(store, dir, Reads(s, id)) + if e.Serves(h, path, id) then FoundSize(e, cl, path, r, id) else 0
  {
    var s := Share(e, h, path, r);
    if e.Serves(h, path, id) {
      assert Reads(s, id + 1) == Reads(s, id) + [ReadOf(s, id)];
      PushAppend(StoreAt(cl, e.Backend(h)), ChunkDir(path), Reads(s, id), ReadOf(s, id), []);
      ServedChunk(e, cl, h, path, id);
    } else {
      assert Reads(s, id + 1) == Reads(s, id);
    }
  }

  lemma FetchedGrows(e: Env, cl: Cluster, h: nat, path: string, r: Range, f: map<nat, nat>, id: nat)
    requires r.Touches(id) && Finds(e, cl, path, r, f)
    ensures PartGrows(e, h, path, f, FetchedMap(e, cl, h, path, r), id)
  {
    FetchedStep(e, cl, h, path, r, id);
  }

  lemma {:induction false} FetchedIsPart(e: Env, cl: Cluster, h: nat, path: string, r: Range, f: map<nat, nat>)
    requires r.NonEmpty() && Finds(e, cl, path, r, f)
    ensures FetchedSize(StoreAt(cl, e.Backend(h)), ChunkDir(path), AllReads(Share(e, h, path, r)))
         == Part(e, h, path, f, r.First(), r.Last() + 1)
  {
    var total := FetchedMap(e, cl, h, path, r);
    FirstLastTouched(r);
    forall id: nat | r.First() <= id < r.Last() + 1 ensures PartGrows(e, h, path, f, total, id) {
      FetchedGrows(e, cl, h, path, r, f, id);
    }
    assert Reads(Share(e, h, path, r), r.First()) == [];
    PartTelescopes(e, h, path, f, total, r.First(), r.Last() + 1);
  }

  lemma {:induction false} CountStep(s: set<nat>, r: Range, id: nat)
    requires r.Touches(id)
    ensures Count(s, r.offset, r.offset + Before(r, id + 1))
         == Count(s, r.offset, r.offset + Before(r, id)) + PieceStored(s, r, id)
  {
    TileStep(r, id);
    CountAdditive(s, r.offset, r.offset + Before(r, id), r.offset + Before(r, id + 1));
  }

  /** Members of s in the range before each chunk. */
  function CountBefore(s: set<nat>, r: Range): map<nat, nat> {
    map id: nat | r.First() <= id <= r.Last() + 1 :: Count(s, r.offset, r.offset + Before(r, id))
  }

  lemma CountGrows(s: set<nat>, r: Range, f: map<nat, nat>, id: nat)
    requires r.Touches(id) && Counts(s, r, f)
    ensures Grows(f, CountBefore(s, r), id)
  {
    CountStep(s, r, id);
  }

  /** The chunks together hold every member of s in the range. */
  lemma {:induction false} CountAll(s: set<nat>, r: Range, f: map<nat, nat>)
    requires r.NonEmpty() && Counts(s, r, f)
    ensures Sum(f, r.First(), r.Last() + 1) == Count(s, r.offset, r.offset + r.size)
  {
    FirstLastTouched(r);
    forall id: nat | r.First() <= id < r.Last() + 1 ensures Grows(f, CountBefore(s, r), id) { CountGrows(s, r, f, id); }
    SumTelescopes(f, CountBefore(s, r), r.First(), r.Last() + 1);
    BeforeEnd(r);
    assert r.offset + Before(r, r.Last() + 1) == r.offset + r.size;
  }

  /** The file holds the bytes below its size and no others. */
  ghost predicate Dense(e: Env, cl: Cluster, path: string, size: nat) {
    forall p: nat :: Fits(e, p) ==> (Stored(e, cl, path, p) <==> p < size)
  }

  /** In a dense file the count is what a plain file would return. */
  lemma DenseCount(e: Env, cl: Cluster, path: string, size: nat, r: Range)
    requires e.c > 0 && Dense(e, cl, path, size) && Addressable(e, r.offset, r.size)
    ensures StoredIn(e, cl, path, r) == Max(0, Min(r.offset + r.size, size) - r.offset)
  {
    var s, end := StoredSet(e, cl, path, r), r.offset + r.size;
    forall p: nat | r.offset <= p < end ensures p in s <==> p < size {
      AddressableFits(e, r.offset, r.size, p);
    }
    CountPrefix(s, size, r.offset, end);
    CountIsSize(s, r.offset, end);
  }

  lemma {:induction false} CountFull(s: set<nat>, a: nat, b: nat)
    requires a <= b
    ensures Count(s, a, b) <= b - a
    ensures Count(s, a, b) == b - a <==> forall p: nat :: a <= p < b ==> p in s
    decreases b
  {
    if a < b { CountFull(s, a, b - 1); }
  }

  /** The count is full exactly when every byte of the range is stored: a hole makes a read look short
      although bytes behind the hole arrive. */
  lemma FullCount(e: Env, cl: Cluster, path: string, r: Range)
    ensures StoredIn(e, cl, path, r) == r.size <==> forall p: nat :: r.Holds(p) ==> Stored(e, cl, path, p)
  {
    var s, end := StoredSet(e, cl, path, r), r.offset + r.size;
    CountFull(s, r.offset, end);
    CountIsSize(s, r.offset, end);
    if p: nat :| r.Holds(p) && !Stored(e, cl, path, p) {
      assert p !in s;
    } else {
      forall p: nat | r.offset <= p < end ensures p in s {
        assert r.Holds(p);
      }
    }
  }

  // ---- The client ----

  /** Byte p of the user's buffer after the stored bytes of the chunks in took have arrived. */
  function Arrived(e: Env, cl: Cluster, path: string, took: set<nat>, p: nat, was: byte): byte {
    if Quot(p, e.c) in took && Stored(e, cl, path, p) then FlatAt(e, cl, path, p) else was
  }

  /** The buffer after the stored bytes of the chunks in took have arrived, and no others. */
  ghost predicate Received(e: Env, cl: Cluster, path: string, r: Range, buf0: seq<byte>, took: set<nat>,
                           buf: seq<byte>) {
    |buf| == |buf0| && forall j :: 0 <= j < |buf| ==> buf[j] == Arrived(e, cl, path, took, r.offset + j, buf0[j])
  }

  /** Daemon hs was asked for byte p of path and came to its chunk. */
  predicate Delivered(e: Env, fwd: nat, path: string, outcome: nat -> Rpc, hs: seq<nat>, p: nat) {
    e.ClientLoc(fwd, path, Quot(p, e.c)) in hs && outcome(e.ClientLoc(fwd, path, Quot(p, e.c))).Reads(Quot(p, e.c))
  }

  /** Byte p of the user's buffer after the daemons in hs were tried. */
  function Delivery(e: Env, fwd: nat, cl: Cluster, path: string, outcome: nat -> Rpc, hs: seq<nat>, p: nat,
                    was: byte): byte {
    if Delivered(e, fwd, path, outcome, hs, p) && Stored(e, cl, path, p) then FlatAt(e, cl, path, p) else was
  }

  /** State of the posting loop: the buffer after the daemons in hs were tried. */
  ghost predicate Filling(e: Env, fwd: nat, cl: Cluster, path: string, r: Range, buf0: seq<byte>, outcome: nat -> Rpc,
                          hs: seq<nat>, buf: seq<byte>)
  {
    |buf| == |buf0| && forall j :: 0 <= j < |buf| ==>
      buf[j] == Delivery(e, fwd, cl, path, outcome, hs, r.offset + j, buf0[j])
  }

  lemma FillingNothing(e: Env, fwd: nat, cl: Cluster, path: string, r: Range, buf: seq<byte>, outcome: nat -> Rpc)
    ensures Filling(e, fwd, cl, path, r, buf, outcome, [], buf)
  {
  }

  /** One more daemon, for one byte of a touched chunk. */
  lemma {:induction false} DeliveryStep(e: Env, fwd: nat, cl: Cluster, path: string, r: Range, outcome: nat -> Rpc,
                                        hs: seq<nat>, h: nat,
                     p: nat, was: byte)
    requires r.Touches(Quot(p, e.c)) && (e.forwarding ==> h == fwd)
    ensures var before := Delivery(e, fwd, cl, path, outcome, hs, p, was);
      Delivery(e, fwd, cl, path, outcome, hs + [h], p, was)
      == if outcome(h).Ran? then Shown(e, cl, h, path, p, UpTo(r, outcome(h).fault.stop), before) else before
  {
    TargetServes(e, fwd, path, Quot(p, e.c), h);
  }

  lemma FillingByte(e: Env, fwd: nat, cl: Cluster, path: string, r: Range, outcome: nat -> Rpc, hs: seq<nat>, h: nat,
                    p: nat, was: byte, before: byte, after: byte)
    requires r.c == e.c && r.NonEmpty() && r.Holds(p) && (e.forwarding ==> h == fwd)
    requires before == Delivery(e, fwd, cl, path, outcome, hs, p, was)
    requires after == if outcome(h).Ran? then Shown(e, cl, h, path, p, UpTo(r, outcome(h).fault.stop), before)
      else before
    ensures after == Delivery(e, fwd, cl, path, outcome, hs + [h], p, was)
  {
    PositionInPiece(r, p);
    DeliveryStep(e, fwd, cl, path, r, outcome, hs, h, p, was);
  }

  lemma {:induction false} FillingStep(e: Env, fwd: nat, cl: Cluster, path: string, r: Range, buf0: seq<byte>,
                                       outcome: nat -> Rpc,
                    hs: seq<nat>, buf: seq<byte>, h: nat, buf': seq<byte>)
    requires r.c == e.c && r.NonEmpty() && |buf0| == r.size && (e.forwarding ==> h == fwd)
    requires Filling(e, fwd, cl, path, r, buf0, outcome, hs, buf)
    requires if outcome(h).Ran?
             then buf' == Push(StoreAt(cl, e.Backend(h)), ChunkDir(path),
                               Reads(Share(e, h, path, r), UpTo(r, outcome(h).fault.stop)), buf)
             else buf' == buf
    ensures Filling(e, fwd, cl, path, r, buf0, outcome, hs + [h], buf')
  {
    forall j | 0 <= j < |buf'| ensures buf'[j] == Delivery(e, fwd, cl, path, outcome, hs + [h], r.offset + j, buf0[j]) {
      if outcome(h).Ran? { PushByte(e, cl, h, path, r, buf, UpTo(r, outcome(h).fault.stop), j); }
      FillingByte(e, fwd, cl, path, r, outcome, hs, h, r.offset + j, buf0[j], buf[j], buf'[j]);
    }
  }

  /** The chunks whose stored bytes arrive, for a read of range r of path. */
  ghost function TookRead(e: Env, fwd: nat, path: string, r: Range, outcome: nat -> Rpc): set<nat> {
    set id: nat | r.First() <= id <= r.Last() && Gets(e, fwd, path, r, outcome, e.ClientLoc(fwd, path, id))
                  && outcome(e.ClientLoc(fwd, path, id)).Reads(id)
  }

  /** The daemons in hs deliver the chunks of r in took. */
  ghost predicate TookBy(e: Env, fwd: nat, path: string, r: Range, outcome: nat -> Rpc, hs: seq<nat>, took: set<nat>) {
    forall p: nat :: r.Holds(p) ==> (Delivered(e, fwd, path, outcome, hs, p) <==> Quot(p, e.c) in took)
  }

  lemma {:induction false} DeliveredTook(e: Env, fwd: nat, path: string, r: Range, outcome: nat -> Rpc,
                                         targets: seq<nat>, n: nat, hs: seq<nat>, p: nat)
    requires r.c == e.c && r.NonEmpty() && r.Holds(p)
    requires targets == TargetList(e, fwd, path, r.First(), r.Last() + 1) && StoppedAt(targets, outcome, n)
      && hs == targets[..n]
    ensures Delivered(e, fwd, path, outcome, hs, p) <==> Quot(p, e.c) in TookRead(e, fwd, path, r, outcome)
  {
    PositionInPiece(r, p);
    PostedTargets(e, fwd, path, r, targets, outcome, n, e.ClientLoc(fwd, path, Quot(p, e.c)));
  }

  /** The chunks delivered by the targets that got their RPC. */
  lemma {:induction false} PostedTook(e: Env, fwd: nat, path: string, r: Range, outcome: nat -> Rpc,
                                      targets: seq<nat>, n: nat, hs: seq<nat>)
    requires r.c == e.c && r.NonEmpty()
    requires targets == TargetList(e, fwd, path, r.First(), r.Last() + 1) && StoppedAt(targets, outcome, n)
      && hs == targets[..n]
    ensures TookBy(e, fwd, path, r, outcome, hs, TookRead(e, fwd, path, r, outcome))
  {
    forall p: nat | r.Holds(p)
      ensures Delivered(e, fwd, path, outcome, hs, p) <==> Quot(p, e.c) in TookRead(e, fwd, path, r, outcome)
    {
      DeliveredTook(e, fwd, path, r, outcome, targets, n, hs, p);
    }
  }

  /** The buffer of a finished posting loop. */
  lemma FilledIsReceived(e: Env, fwd: nat, cl: Cluster, path: string, r: Range, buf0: seq<byte>, outcome: nat -> Rpc,
                         hs: seq<nat>, took: set<nat>, buf: seq<byte>)
    requires |buf0| == r.size && Filling(e, fwd, cl, path, r, buf0, outcome, hs, buf)
    requires TookBy(e, fwd, path, r, outcome, hs, took)
    ensures Received(e, cl, path, r, buf0, took, buf)
  {
    forall j | 0 <= j < |buf| ensures buf[j] == Arrived(e, cl, path, took, r.offset + j, buf0[j]) {
      assert r.Holds(r.offset + j);
    }
  }

  /** The bytes each target finds. */
  function FoundSizes(e: Env, cl: Cluster, path: string, r: Range, targets: seq<nat>): seq<int> {
    seq(|targets|, i requires 0 <= i < |targets| =>
      FetchedSize(StoreAt(cl, e.Backend(targets[i])), ChunkDir(path), AllReads(Share(e, targets[i], path, r))))
  }

  /** What the client gets from target h: the number of bytes it found, or -1. */
  ghost function ReadAnswer(e: Env, cl: Cluster, h: nat, path: string, r: Range, o: Rpc): int {
    if o.Answers() && ShareRead(Share(e, h, path, r), o.fault)
    then FetchedSize(StoreAt(cl, e.Backend(h)), ChunkDir(path), AllReads(Share(e, h, path, r))) else -1
  }

  ghost function ReadAnswers(e: Env, cl: Cluster, path: string, r: Range, targets: seq<nat>,
                             outcome: nat -> Rpc): seq<int> {
    seq(|targets|, i requires 0 <= i < |targets| => ReadAnswer(e, cl, targets[i], path, r, outcome(targets[i])))
  }

  /** One posted read. */
  method PostRead(e: Env, fwd: nat, cl: Cluster, path: string, offset: nat, buf: seq<byte>, target: nat,
                  chunks: seq<nat>,
                  chnkStart: nat, chnkEnd: nat, startTarget: nat, endTarget: nat, outcome: nat -> Rpc,
                  ghost buf0: seq<byte>, ghost hs: seq<nat>)
    returns (buf': seq<byte>, answer: int)
    requires Readable(e, cl, path, Range(e.c, offset, |buf|)) && |buf0| == |buf|
    requires e.Backend(target) < |cl| && (e.forwarding ==> target == fwd)
    requires chnkStart == Range(e.c, offset, |buf|).First() && chnkEnd == Range(e.c, offset, |buf|).Last()
    requires chunks == e.Owned(target, path, chnkStart, chnkEnd + 1)
    requires startTarget == e.ClientLoc(fwd, path, chnkStart) && endTarget == e.ClientLoc(fwd, path, chnkEnd)
    requires Filling(e, fwd, cl, path, Range(e.c, offset, |buf|), buf0, outcome, hs, buf)
    ensures Filling(e, fwd, cl, path, Range(e.c, offset, |buf|), buf0, outcome, hs + [target], buf')
    ensures answer == ReadAnswer(e, cl, target, path, Range(e.c, offset, |buf|), outcome(target))
  {
    buf', answer := buf, -1;
    if outcome(target).Ran? {
      var input := BuildRequest(e, fwd, path, offset, |buf|, target, chunks, chnkStart, chnkEnd, startTarget,
                                endTarget);
      ghost var s := Share(e, target, path, Range(e.c, offset, |buf|));
      var ioSize, err, undetected;
      buf', ioSize, err, undetected := SrvRead.SrvRead(e, input, cl[e.Backend(target)], buf, outcome(target).fault, s);
      if outcome(target).answered && !err { answer := ioSize; }
    }
    FillingStep(e, fwd, cl, path, Range(e.c, offset, |buf|), buf0, outcome, hs, buf, target, buf');
  }

  /** State of the posting loop: the targets tried, the buffer and the answers. */
  ghost predicate PostedReads(e: Env, fwd: nat, cl: Cluster, path: string, r: Range, buf0: seq<byte>, targets: seq<nat>,
                              outcome: nat -> Rpc, full: seq<int>, tried: seq<nat>, buf: seq<byte>, answers: seq<int>)
  {
    && Tallied(targets, outcome, full, answers) && tried == targets[..|answers|]
    && Filling(e, fwd, cl, path, r, buf0, outcome, tried, buf)
  }

  /** One turn of the posting loop of forward_read. */
  method PostNextRead(e: Env, fwd: nat, cl: Cluster, path: string, offset: nat, buf: seq<byte>, targets: seq<nat>,
                      targetChnks: map<nat, seq<nat>>, chnkStart: nat, chnkEnd: nat, startTarget: nat, endTarget: nat,
                      outcome: nat -> Rpc, answers: seq<int>, ghost r: Range, ghost buf0: seq<byte>,
                      ghost tried: seq<nat>, ghost full: seq<int>)
    returns (buf': seq<byte>, answers': seq<int>, ghost tried': seq<nat>)
    requires r == Range(e.c, offset, |buf|) && |buf0| == |buf|
    requires Readable(e, cl, path, r) && PlanFor(e, fwd, path, r, targets, targetChnks)
    requires chnkStart == r.First() && chnkEnd == r.Last()
    requires startTarget == e.ClientLoc(fwd, path, chnkStart) && endTarget == e.ClientLoc(fwd, path, chnkEnd)
    requires full == ReadAnswers(e, cl, path, r, targets, outcome)
    requires PostedReads(e, fwd, cl, path, r, buf0, targets, outcome, full, tried, buf, answers)
    requires |answers| < |targets| && !outcome(targets[|answers|]).Unsendable?
    ensures PostedReads(e, fwd, cl, path, r, buf0, targets, outcome, full, tried', buf', answers')
    ensures |answers'| == |answers| + 1
  {
    var target := targets[|answers|];
    ghost var id := PlannedTarget(e, fwd, path, r, targets, targetChnks, |answers|);
    var answer;
    buf', answer := PostRead(e, fwd, cl, path, offset, buf, target, targetChnks[target], chnkStart, chnkEnd,
                             startTarget, endTarget, outcome, buf0, tried);
    TalliedStep(targets, outcome, full, answers, answer);
    answers', tried' := answers + [answer], tried + [target];
  }

  /** The posting loop of forward_read. It stops at the first target that cannot be reached. */
  method PostReads(e: Env, fwd: nat, cl: Cluster, path: string, offset: nat, buf0: seq<byte>, targets: seq<nat>,
                   targetChnks: map<nat, seq<nat>>, chnkStart: nat, chnkEnd: nat, startTarget: nat, endTarget: nat,
                   outcome: nat -> Rpc, ghost r: Range)
    returns (buf: seq<byte>, answers: seq<int>, ghost tried: seq<nat>)
    requires r == Range(e.c, offset, |buf0|) && Readable(e, cl, path, r)
      && PlanFor(e, fwd, path, r, targets, targetChnks)
    requires chnkStart == r.First() && chnkEnd == r.Last()
    requires startTarget == e.ClientLoc(fwd, path, chnkStart) && endTarget == e.ClientLoc(fwd, path, chnkEnd)
    ensures PostedReads(e, fwd, cl, path, r, buf0, targets, outcome, ReadAnswers(e, cl, path, r, targets, outcome),
                        tried, buf, answers)
    ensures StoppedAt(targets, outcome, |answers|)
  {
    buf, answers, tried := buf0, [], [];
    ghost var full := ReadAnswers(e, cl, path, r, targets, outcome);
    FillingNothing(e, fwd, cl, path, r, buf0, outcome);
    while |answers| < |targets| && !outcome(targets[|answers|]).Unsendable?
      invariant PostedReads(e, fwd, cl, path, r, buf0, targets, outcome, full, tried, buf, answers)
      decreases |targets| - |answers|
    {
      buf, answers, tried := PostNextRead(e, fwd, cl, path, offset, buf, targets, targetChnks, chnkStart, chnkEnd,
                                          startTarget, endTarget, outcome, answers, r, buf0, tried, full);
    }
  }

  lemma CountMapFinds(e: Env, cl: Cluster, path: string, r: Range, s: set<nat>)
    requires r.c == e.c && s == StoredSet(e, cl, path, r)
    ensures Finds(e, cl, path, r, CountMap(s, r))
  {
    var f := CountMap(s, r);
    forall id: nat | r.Touches(id) ensures At(f, id) == FoundSize(e, cl, path, r, id) {
      PieceCount(e, cl, path, r, id);
    }
  }

  lemma {:induction false} FoundIsParts(e: Env, cl: Cluster, path: string, r: Range, targets: seq<nat>, f: map<nat,
                                        nat>)
    requires r.NonEmpty() && Finds(e, cl, path, r, f)
    ensures Total(FoundSizes(e, cl, path, r, targets)) == SumParts(e, path, f, targets, r.First(), r.Last() + 1)
  {
    var sizes := FoundSizes(e, cl, path, r, targets);
    forall i | 0 <= i < |targets| ensures sizes[i] == Part(e, targets[i], path, f, r.First(), r.Last() + 1) {
      FetchedIsPart(e, cl, targets[i], path, r, f);
    }
    TotalIsParts(e, path, f, targets, sizes, r.First(), r.Last() + 1);
  }

  /** What the targets find adds up over the chunks. */
  lemma {:induction false} FoundIsSum(e: Env, fwd: nat, cl: Cluster, path: string, r: Range, targets: seq<nat>,
                                      targetChnks: map<nat, seq<nat>>,
                   f: map<nat, nat>)
    requires r.NonEmpty() && PlanFor(e, fwd, path, r, targets, targetChnks) && Finds(e, cl, path, r, f)
    ensures Total(FoundSizes(e, cl, path, r, targets)) == Sum(f, r.First(), r.Last() + 1)
  {
    FoundIsParts(e, cl, path, r, targets, f);
    PlanAddsUp(e, fwd, path, r, targets, targetChnks, f);
  }

  lemma MapCounts(s: set<nat>, r: Range)
    ensures Counts(s, r, CountMap(s, r))
  {
  }

  lemma CountMapSum(s: set<nat>, r: Range)
    requires r.NonEmpty() && forall p: nat :: p in s ==> r.offset <= p < r.offset + r.size
    ensures Sum(CountMap(s, r), r.First(), r.Last() + 1) == |s|
  {
    MapCounts(s, r);
    CountAll(s, r, CountMap(s, r));
    CountIsSize(s, r.offset, r.offset + r.size);
  }

  /** What the targets find adds up to the stored bytes of the range. */
  lemma FoundAddUp(e: Env, fwd: nat, cl: Cluster, path: string, r: Range, targets: seq<nat>, targetChnks: map<nat,
                   seq<nat>>)
    requires r.c == e.c && r.NonEmpty() && PlanFor(e, fwd, path, r, targets, targetChnks)
    ensures Total(FoundSizes(e, cl, path, r, targets)) == StoredIn(e, cl, path, r)
  {
    var s := StoredSet(e, cl, path, r);
    CountMapFinds(e, cl, path, r, s);
    FoundIsSum(e, fwd, cl, path, r, targets, targetChnks, CountMap(s, r));
    CountMapSum(s, r);
  }

  /** Every chunk of the range was read and its target answered. */
  ghost predicate AllRead(e: Env, fwd: nat, path: string, r: Range, outcome: nat -> Rpc) {
    forall id: nat :: r.Touches(id) ==>
      outcome(e.ClientLoc(fwd, path, id)).Answers() && outcome(e.ClientLoc(fwd, path, id)).Reads(id)
  }

  /** The answer of one target is an error exactly when one of its chunks failed. */
  lemma ReadIsGood(e: Env, fwd: nat, cl: Cluster, path: string, r: Range, outcome: nat -> Rpc, h: nat, id: nat)
    requires r.Touches(id) && e.ClientLoc(fwd, path, id) == h && (e.forwarding ==> h == fwd)
    ensures AllRead(e, fwd, path, r, outcome) ==> ReadAnswer(e, cl, h, path, r, outcome(h)) >= 0
    ensures ReadAnswer(e, cl, h, path, r, outcome(h)) >= 0 ==> outcome(h).Answers() && outcome(h).Reads(id)
  {
    TargetServes(e, fwd, path, id, h);
    if AllRead(e, fwd, path, r, outcome) {
      forall k: nat | r.Touches(k) && e.Serves(h, path, k) ensures k < outcome(h).fault.stop {
        TargetServes(e, fwd, path, k, h);
      }
    }
  }

  /** The answers of all targets are the numbers of bytes they found, or one is an error. */
  lemma ReadsAreGood(e: Env, fwd: nat, cl: Cluster, path: string, r: Range, targets: seq<nat>,
                     targetChnks: map<nat, seq<nat>>, outcome: nat -> Rpc)
    requires e.Valid() && r.NonEmpty() && PlanFor(e, fwd, path, r, targets, targetChnks)
    ensures Decided(targets, outcome, ReadAnswers(e, cl, path, r, targets, outcome),
                    FoundSizes(e, cl, path, r, targets),
                    AllRead(e, fwd, path, r, outcome))
  {
    var full, sizes := ReadAnswers(e, cl, path, r, targets, outcome), FoundSizes(e, cl, path, r, targets);
    if AllRead(e, fwd, path, r, outcome) {
      forall i | 0 <= i < |targets| ensures !outcome(targets[i]).Unsendable? && full[i] == sizes[i] {
        var id := PlannedTarget(e, fwd, path, r, targets, targetChnks, i);
        ReadIsGood(e, fwd, cl, path, r, outcome, targets[i], id);
      }
    } else {
      var id: nat :| r.Touches(id) && !(outcome(e.ClientLoc(fwd, path, id)).Answers()
                                        && outcome(e.ClientLoc(fwd, path, id)).Reads(id));
      var i :| 0 <= i < |targets| && targets[i] == e.ClientLoc(fwd, path, id);
      ReadIsGood(e, fwd, cl, path, r, outcome, targets[i], id);
      assert full[i] < 0;
    }
  }

  /** If every target answered, every chunk was delivered. */
  lemma ReadTook(e: Env, fwd: nat, path: string, r: Range, outcome: nat -> Rpc)
    requires AllRead(e, fwd, path, r, outcome)
    ensures AllTook(r, TookRead(e, fwd, path, r, outcome))
  {
    forall id: nat | r.Touches(id) ensures id in TookRead(e, fwd, path, r, outcome) {
      forall k: nat | r.First() <= k < id + 1 ensures !outcome(e.ClientLoc(fwd, path, k)).Unsendable? {
        assert r.Touches(k);
      }
      assert Gets(e, fwd, path, r, outcome, e.ClientLoc(fwd, path, id));
    }
  }

  /** forward_read: whatever happens to the RPCs and inside the handlers, the stored bytes of the
      delivered chunks, and only those, arrive at their place; the call returns the number of stored
      bytes of the range if every chunk was read and every target answered, -1 otherwise. */
  method ForwardRead(e: Env, fwd: nat, cl: Cluster, path: string, buf0: seq<byte>, offset: nat, outcome: nat -> Rpc)
    returns (ret: int, buf: seq<byte>)
    requires Readable(e, cl, path, Range(e.c, offset, |buf0|))
    ensures var r := Range(e.c, offset, |buf0|);
      && Received(e, cl, path, r, buf0, TookRead(e, fwd, path, r, outcome), buf)
      && ret == (if AllRead(e, fwd, path, r, outcome) then StoredIn(e, cl, path, r) else -1)
      && (ret >= 0 ==> AllTook(r, TookRead(e, fwd, path, r, outcome)))
  {
    ghost var r := Range(e.c, offset, |buf0|);
    var targets, targetChnks, chnkStart, chnkEnd, startTarget, endTarget := PlanRange(e, fwd, path, offset, |buf0|);
    var answers;
    ghost var tried;
    buf, answers, tried := PostReads(e, fwd, cl, path, offset, buf0, targets, targetChnks, chnkStart, chnkEnd,
                                     startTarget, endTarget, outcome, r);
    PostedTook(e, fwd, path, r, outcome, targets, |answers|, tried);
    FilledIsReceived(e, fwd, cl, path, r, buf0, outcome, tried, TookRead(e, fwd, path, r, outcome), buf);
    ReadsAreGood(e, fwd, cl, path, r, targets, targetChnks, outcome);
    AnswersDecide(targets, outcome, ReadAnswers(e, cl, path, r, targets, outcome), FoundSizes(e, cl, path, r, targets),
                  AllRead(e, fwd, path, r, outcome), answers);
    FoundAddUp(e, fwd, cl, path, r, targets, targetChnks);
    if |answers| < |targets| {
      return -1, buf;
    }
    ret := SumAnswers(answers);
    if ret >= 0 { ReadTook(e, fwd, path, r, outcome); }
  }
}
