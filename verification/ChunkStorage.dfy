/** src/daemon/backend/data/chunk_storage.cpp: one file per chunk, in one directory per path.
    The disk is a value: directory name to chunk number to bytes. */
module ChunkStorage {
  import opened Arith
  import opened Layout
  import opened Placement

  type Chunks = map<nat, seq<byte>>
  type Store = map<string, Chunks>

  predicate IsAbsolute(path: string) { |path| > 0 && path[0] == '/' }

  function DirChar(ch: char): char { if ch == '/' then ':' else ch }

  /** Directory of a path: the leading slash dropped, the others replaced by colons. */
  function ChunkDir(path: string): string {
    if path == "" then "" else seq(|path| - 1, i requires 0 <= i < |path| - 1 => DirChar(path[i + 1]))
  }

  function Zeros(n: nat): seq<byte> { seq(n, i => 0) }

  function ByteOr0(file: seq<byte>, i: nat): byte { if i < |file| then file[i] else 0 }

  /** pwrite on a regular file: a gap before the write is filled with zeros. */
  function Pwrite(file: seq<byte>, off: nat, data: seq<byte>): seq<byte> {
    seq(Max(|file|, off + |data|),
        i requires i >= 0 => if off <= i < off + |data| then data[i - off] else ByteOr0(file, i))
  }

  /** pwrite, byte by byte: the data where it was put, and otherwise the file with zeros behind it. */
  lemma PwriteByte(file: seq<byte>, off: nat, data: seq<byte>, i: nat)
    ensures |Pwrite(file, off, data)| == Max(|file|, off + |data|)
    ensures ByteOr0(Pwrite(file, off, data), i)
         == if off <= i < off + |data| then data[i - off] else ByteOr0(file, i)
  {
  }

  function DirOf(store: Store, dir: string): Chunks {
    if dir in store then store[dir] else map[]
  }

  function ChunkOf(store: Store, dir: string, key: nat): seq<byte> {
    var chunks := DirOf(store, dir);
    if key in chunks then chunks[key] else []
  }

  /** init_chunk_space, then open with O_CREAT, then pwrite. */
  function WriteChunk(store: Store, dir: string, id: nat, data: seq<byte>, off: nat): Store {
    store[dir := DirOf(store, dir)[id % KEYS := Pwrite(ChunkOf(store, dir, id % KEYS), off, data)]]
  }

  /** n bytes of buf from index at; one bulk transfer reads such a slice. */
  function Slice(buf: seq<byte>, at: nat, n: nat): seq<byte> {
    if at + n <= |buf| then buf[at..at + n] else []
  }

  /** Copy of src over dst at index at: one bulk transfer. */
  function Copy(dst: seq<byte>, at: nat, src: seq<byte>): seq<byte> {
    if at + |src| <= |dst| then dst[..at] + src + dst[at + |src|..] else dst
  }

  lemma CopyAt(dst: seq<byte>, at: nat, src: seq<byte>, j: nat)
    requires at + |src| <= |dst| && j < |dst|
    ensures |Copy(dst, at, src)| == |dst|
    ensures Copy(dst, at, src)[j] == if at <= j < at + |src| then src[j - at] else dst[j]
  {
  }

  lemma CopySlice(dst: seq<byte>, at: nat, src: seq<byte>)
    requires at + |src| <= |dst|
    ensures |Copy(dst, at, src)| == |dst|
    ensures Copy(dst, at, src)[..at + |src|] == dst[..at] + src
    ensures Copy(dst, at, src)[at..at + |src|] == src
  {
  }

  lemma SliceBehind(g: seq<byte>, d: seq<byte>, buf: seq<byte>)
    requires |g| + |d| <= |buf| && buf[..|g| + |d|] == g + d
    ensures buf[..|g|] == g && Slice(buf, |g|, |d|) == d
  {
    assert (g + d)[..|g|] == g && (g + d)[|g|..] == d;
    assert buf[..|g|] == buf[..|g| + |d|][..|g|];
    assert buf[|g|..|g| + |d|] == buf[..|g| + |d|][|g|..];
  }
}
