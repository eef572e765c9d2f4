/** Which cells of the chunk store different names share: chunk numbers are narrowed to 32 bits, and a
    chunk directory name does not keep slashes and colons apart. */
module Aliasing {
  import opened Arith
  import opened Layout
  import opened Placement
  import opened ChunkStorage
  import opened FlatFile

  // ---- 32-bit chunk numbers ----

  /** Two chunk numbers name the same chunk file of a path. */
  predicate SameKey(id: nat, id': nat) { id % KEYS == id' % KEYS }

  lemma SameKeySameHome(e: Env, path: string, id: nat, id': nat)
    requires Narrow(e) && SameKey(id, id')
    ensures e.Home(path, id) == e.Home(path, id')
  {
    assert e.locate(path, id) == e.locate(path, id % KEYS);
    assert e.locate(path, id') == e.locate(path, id' % KEYS);
  }

  /** n zeros and v, in the chunk file of the given key. */
  function OneChunk(dir: string, key: nat, n: nat, v: byte): Store { map[dir := map[key := Zeros(n) + [v]]] }

  /** A cluster whose only non-zero byte is v, in the given chunk, behind n zeros. */
  function OneByte(e: Env, path: string, id: nat, n: nat, v: byte): Cluster {
    seq(e.Backends(), b => if b == e.Home(path, id) then OneChunk(ChunkDir(path), id % KEYS, n, v) else map[])
  }

  lemma OneChunkAt(dir: string, key: nat, n: nat, v: byte, key': nat, i: nat)
    ensures ByteOr0(ChunkOf(OneChunk(dir, key, n, v), dir, key'), i) == if key == key' && i == n then v else 0
  {
  }

  lemma {:induction false} OneByteAt(e: Env, path: string, p: nat, v: byte, q: nat)
    requires e.Valid() && Narrow(e)
    ensures var cl := OneByte(e, path, Quot(p, e.c), Rem(p, e.c), v);
      && |cl| == e.Backends()
      && FlatAt(e, cl, path, q) == if SameKey(Quot(p, e.c), Quot(q, e.c)) && Rem(p, e.c) == Rem(q, e.c) then v else 0
  {
    var id, id' := Quot(p, e.c), Quot(q, e.c);
    HomeExists(e, OneByte(e, path, id, Rem(p, e.c), v), path, id);
    HomeExists(e, OneByte(e, path, id, Rem(p, e.c), v), path, id');
    OneChunkAt(ChunkDir(path), id % KEYS, Rem(p, e.c), v, id' % KEYS, Rem(q, e.c));
    if SameKey(id, id') { SameKeySameHome(e, path, id, id'); }
  }

  /** Bytes p and q of a file are one cell exactly when they have the same place in chunks whose numbers
      agree in 32 bits, that is, when they are a multiple of 2^32 chunks apart. */
  lemma {:induction false} WrappedBytes(e: Env, path: string, p: nat, q: nat)
    requires e.Valid() && Narrow(e)
    ensures (forall cl: Cluster :: |cl| == e.Backends() ==> FlatAt(e, cl, path, p) == FlatAt(e, cl, path, q))
       <==> SameKey(Quot(p, e.c), Quot(q, e.c)) && Rem(p, e.c) == Rem(q, e.c)
  {
    if SameKey(Quot(p, e.c), Quot(q, e.c)) {
      SameKeySameHome(e, path, Quot(p, e.c), Quot(q, e.c));
    }
    var cl := OneByte(e, path, Quot(p, e.c), Rem(p, e.c), 1);
    OneByteAt(e, path, p, 1, p);
    OneByteAt(e, path, p, 1, q);
    assert |cl| == e.Backends();
  }

  /** A write task of a chunk 2^32 higher overwrites the low chunk of the same file. */
  lemma WriteWraps(e: Env, cl: Cluster, w: Write, id: nat)
    requires Narrow(e) && e.Home(w.path, id + KEYS) < |cl|
    ensures Chunk(e, ApplyPiece(e, cl, w, id + KEYS), w.path, id)
         == Pwrite(Chunk(e, cl, w.path, id), RangeOf(e, w).PieceAt(id + KEYS).chunkOff, PieceData(e, w, id + KEYS))
  {
    assert SameKey(id, id + KEYS);
    SameKeySameHome(e, w.path, id, id + KEYS);
  }

  // ---- Directory names ----

  predicate ColonFree(path: string) { forall i :: 0 <= i < |path| ==> path[i] != ':' }

  lemma ChunkDirIndex(path: string)
    requires IsAbsolute(path)
    ensures |ChunkDir(path)| == |path| - 1
    ensures forall i :: 1 <= i < |path| ==> ChunkDir(path)[i - 1] == DirChar(path[i])
  {
  }

  /** Paths without colons have directories of their own. */
  lemma ColonFreeInjective(p: string, q: string)
    requires IsAbsolute(p) && IsAbsolute(q) && ColonFree(p) && ColonFree(q) && ChunkDir(p) == ChunkDir(q)
    ensures p == q
  {
    ChunkDirIndex(p);
    ChunkDirIndex(q);
    forall i | 0 <= i < |p| ensures p[i] == q[i] {
      if i > 0 { assert DirChar(p[i]) == ChunkDir(p)[i - 1] == DirChar(q[i]); }
    }
  }

  /** The other name of a slash or colon. */
  function Other(ch: char): char { if ch == '/' then ':' else '/' }

  predicate Separator(ch: char) { ch == '/' || ch == ':' }

  lemma SwapKeepsDir(p: string, i: nat)
    requires IsAbsolute(p) && 1 <= i < |p| && Separator(p[i])
    ensures var q := p[i := Other(p[i])];
      IsAbsolute(q) && q != p && ChunkDir(q) == ChunkDir(p)
  {
    var q := p[i := Other(p[i])];
    assert q[i] != p[i];
    ChunkDirIndex(p);
    ChunkDirIndex(q);
    forall j | 0 <= j < |p| - 1 ensures ChunkDir(q)[j] == ChunkDir(p)[j] {
      assert DirChar(q[j + 1]) == DirChar(p[j + 1]);
    }
  }

  lemma NoSeparatorInjective(p: string, q: string)
    requires IsAbsolute(p) && IsAbsolute(q) && ChunkDir(p) == ChunkDir(q)
    requires forall i :: 1 <= i < |p| ==> !Separator(p[i])
    ensures p == q
  {
    ChunkDirIndex(p);
    ChunkDirIndex(q);
    forall i | 0 <= i < |p| ensures p[i] == q[i] {
      if i > 0 { assert DirChar(p[i]) == ChunkDir(p)[i - 1] == DirChar(q[i]); }
    }
  }

  /** A path shares its chunk directory with no other path exactly when no slash or colon follows its
      leading slash; /a/b and /a:b share one. */
  lemma OwnDirectory(p: string)
    requires IsAbsolute(p)
    ensures (forall q :: IsAbsolute(q) && ChunkDir(q) == ChunkDir(p) ==> q == p)
       <==> forall i :: 1 <= i < |p| ==> !Separator(p[i])
  {
    if i :| 1 <= i < |p| && Separator(p[i]) {
      SwapKeepsDir(p, i);
    } else {
      forall q | IsAbsolute(q) && ChunkDir(q) == ChunkDir(p) ensures q == p {
        NoSeparatorInjective(p, q);
      }
    }
  }
}
