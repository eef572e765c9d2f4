/** The file a user sees, read off the chunk files of all backends, and what one chunk write does to it. */
module FlatFile {
  import opened Arith
  import opened ChunkCalc
  import opened Layout
  import opened Placement
  import opened ChunkStorage

  type Cluster = seq<Store>

  /** A write of data at offset of path. */
  datatype Write = Write(path: string, offset: nat, data: seq<byte>)

  function RangeOf(e: Env, w: Write): Range { Range(e.c, w.offset, |w.data|) }

  /** Below these limits the 64-bit shifts are division and 32-bit chunk numbers are distinct. */
  predicate Addressable(e: Env, offset: nat, size: nat) {
    offset + size < OFFSET_LIMIT && offset + size <= e.c * KEYS
  }

  ghost predicate WellFormed(e: Env, cl: Cluster, w: Write) {
    && e.Valid() && |cl| == e.Backends()
    && IsAbsolute(w.path) && |w.data| > 0 && Addressable(e, w.offset, |w.data|)
  }

  /** Positions whose chunk number fits in 32 bits. */
  predicate Fits(e: Env, p: nat) { Quot(p, e.c) < KEYS }

  lemma AddressableFits(e: Env, offset: nat, size: nat, p: nat)
    requires e.c > 0 && Addressable(e, offset, size) && p < offset + size
    ensures Fits(e, p)
  {
    TimesIsProduct(e.c, KEYS);
    QuotBelow(p, e.c, KEYS);
  }

  function StoreAt(cl: Cluster, b: nat): Store { if b < |cl| then cl[b] else map[] }

  /** The stored bytes of the chunk with the given id. */
  function Chunk(e: Env, cl: Cluster, path: string, id: nat): seq<byte> {
    ChunkOf(StoreAt(cl, e.Home(path, id)), ChunkDir(path), id % KEYS)
  }

  predicate Stored(e: Env, cl: Cluster, path: string, p: nat) {
    Rem(p, e.c) < |Chunk(e, cl, path, Quot(p, e.c))|
  }

  /** Byte p of the file; a byte that no chunk file holds counts as zero. */
  function FlatAt(e: Env, cl: Cluster, path: string, p: nat): byte {
    ByteOr0(Chunk(e, cl, path, Quot(p, e.c)), Rem(p, e.c))
  }

  function PieceData(e: Env, w: Write, id: nat): seq<byte> {
    Slice(w.data, RangeOf(e, w).PieceAt(id).origin, RangeOf(e, w).PieceAt(id).size)
  }

  /** One backend after the write task for chunk id. */
  function PutPiece(e: Env, store: Store, w: Write, id: nat): Store {
    WriteChunk(store, ChunkDir(w.path), id, PieceData(e, w, id), RangeOf(e, w).PieceAt(id).chunkOff)
  }

  /** The cluster after the write task for chunk id. */
  function ApplyPiece(e: Env, cl: Cluster, w: Write, id: nat): Cluster {
    var b := e.Home(w.path, id);
    if b < |cl| then cl[b := PutPiece(e, cl[b], w, id)] else cl
  }

  /** Byte p of path lies in the piece of w in chunk id. */
  predicate Covers(e: Env, w: Write, id: nat, path: string, p: nat) {
    w.path == path && Quot(p, e.c) == id && RangeOf(e, w).Holds(p)
  }

  /** Byte p lies in chunk id before the end of w: stored once the piece of w is written, because
      pwrite fills a gap. */
  predicate Extends(e: Env, w: Write, id: nat, path: string, p: nat) {
    w.path == path && Quot(p, e.c) == id && p < w.offset + |w.data|
  }

  lemma HomeExists(e: Env, cl: Cluster, path: string, id: nat)
    requires e.Valid() && |cl| == e.Backends()
    ensures e.Home(path, id) < |cl|
  {
  }

  lemma ChunkOfWritten(store: Store, dir: string, id: nat, data: seq<byte>, off: nat, key: nat)
    requires id < KEYS
    ensures ChunkOf(WriteChunk(store, dir, id, data, off), dir, key)
         == if key == id then Pwrite(ChunkOf(store, dir, id), off, data) else ChunkOf(store, dir, key)
  {
  }

  /** Chunk files of one path: only the written one changes. */
  lemma ChunkAfterPiece(e: Env, cl: Cluster, w: Write, id: nat, other: nat)
    requires e.Home(w.path, id) < |cl| && id < KEYS && other < KEYS
    ensures Chunk(e, ApplyPiece(e, cl, w, id), w.path, other)
         == if other == id
            then Pwrite(Chunk(e, cl, w.path, id), RangeOf(e, w).PieceAt(id).chunkOff, PieceData(e, w, id))
            else Chunk(e, cl, w.path, other)
  {
    ChunkOfWritten(StoreAt(cl, e.Home(w.path, id)), ChunkDir(w.path), id, PieceData(e, w, id),
                   RangeOf(e, w).PieceAt(id).chunkOff, other);
  }

  lemma TouchedIdFits(e: Env, w: Write, id: nat)
    requires e.c > 0 && |w.data| > 0 && Addressable(e, w.offset, |w.data|) && RangeOf(e, w).Touches(id)
    ensures id < KEYS
  {
    AddressableFits(e, w.offset, |w.data|, w.offset + |w.data| - 1);
  }

  /** A chunk file after a piece was written to it, byte by byte. */
  lemma {:induction false} PieceByte(chunk: seq<byte>, r: Range, data: seq<byte>, p: nat)
    requires r.Touches(Quot(p, r.c)) && |data| == r.size
    ensures var q, i := r.PieceAt(Quot(p, r.c)), Rem(p, r.c);
      var after := Pwrite(chunk, q.chunkOff, Slice(data, q.origin, q.size));
      && ByteOr0(after, i) == (if r.Holds(p) then data[p - r.offset] else ByteOr0(chunk, i))
      && (i < |after| <==> i < |chunk| || p < r.offset + r.size)
  {
    var q := r.PieceAt(Quot(p, r.c));
    PieceBounds(r, Quot(p, r.c));
    PositionOfPiece(r, p);
    PwriteByte(chunk, q.chunkOff, Slice(data, q.origin, q.size), Rem(p, r.c));
  }

  /** A write task changes exactly the bytes of the range inside its chunk. */
  lemma PieceEffect(e: Env, cl: Cluster, w: Write, id: nat, p: nat)
    requires WellFormed(e, cl, w) && RangeOf(e, w).Touches(id) && Fits(e, p)
    ensures FlatAt(e, ApplyPiece(e, cl, w, id), w.path, p)
         == if Covers(e, w, id, w.path, p) then w.data[p - w.offset] else FlatAt(e, cl, w.path, p)
    ensures Stored(e, ApplyPiece(e, cl, w, id), w.path, p)
       <==> Stored(e, cl, w.path, p) || Extends(e, w, id, w.path, p)
  {
    TouchedIdFits(e, w, id);
    HomeExists(e, cl, w.path, id);
    ChunkAfterPiece(e, cl, w, id, Quot(p, e.c));
    if Quot(p, e.c) == id { PieceByte(Chunk(e, cl, w.path, id), RangeOf(e, w), w.data, p); }
  }

  /** Paths with different chunk directories do not see each other's writes. */
  lemma OtherPathUnchanged(e: Env, cl: Cluster, w: Write, id: nat, path: string, other: nat)
    requires ChunkDir(path) != ChunkDir(w.path)
    ensures Chunk(e, ApplyPiece(e, cl, w, id), path, other) == Chunk(e, cl, path, other)
  {
  }

  /** Files whose chunk directory is not that of path have the same bytes, and the same bytes stored. */
  ghost predicate OthersKept(e: Env, cl: Cluster, cl': Cluster, path: string) {
    forall q: string, p: nat :: ChunkDir(q) != ChunkDir(path) ==>
      FlatAt(e, cl', q, p) == FlatAt(e, cl, q, p) && (Stored(e, cl', q, p) <==> Stored(e, cl, q, p))
  }

  lemma SameChunks(e: Env, cl: Cluster, cl': Cluster, path: string)
    requires forall q: string, id: nat :: ChunkDir(q) != ChunkDir(path) ==> Chunk(e, cl', q, id) == Chunk(e, cl, q, id)
    ensures OthersKept(e, cl, cl', path)
  {
  }

  lemma OthersKeptTwice(e: Env, cl: Cluster, mid: Cluster, cl': Cluster, path: string)
    requires OthersKept(e, cl, mid, path) && OthersKept(e, mid, cl', path)
    ensures OthersKept(e, cl, cl', path)
  {
    forall q: string, p: nat | ChunkDir(q) != ChunkDir(path)
      ensures FlatAt(e, cl', q, p) == FlatAt(e, cl, q, p) && (Stored(e, cl', q, p) <==> Stored(e, cl, q, p))
    {
      assert FlatAt(e, mid, q, p) == FlatAt(e, cl, q, p);
    }
  }

  /** A write task leaves the other files alone. */
  lemma PieceKeepsOthers(e: Env, cl: Cluster, w: Write, id: nat)
    ensures OthersKept(e, cl, ApplyPiece(e, cl, w, id), w.path)
  {
    forall q: string, other: nat | ChunkDir(q) != ChunkDir(w.path)
      ensures Chunk(e, ApplyPiece(e, cl, w, id), q, other) == Chunk(e, cl, q, other)
    {
      OtherPathUnchanged(e, cl, w, id, q, other);
    }
    SameChunks(e, cl, ApplyPiece(e, cl, w, id), w.path);
  }
}
