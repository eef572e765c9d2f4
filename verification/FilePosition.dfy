/** src/client/gkfs_functions.cpp, gkfs_read and gkfs_write: the position belongs to the open file, so
    descriptors made by dup move it together. */
module FilePosition {
  import opened Arith
  import opened Layout
  import opened Placement
  import opened ChunkStorage
  import opened FlatFile
  import opened StripedIO
  import opened StripedRead
  import opened PlainFile
  import opened OpenFileMap
  import opened Vectored

  /** gkfs_read: a read at the position, which moves by the bytes read. */
  method GkfsRead(e: Env, fwd: nat, cl: Cluster, file: OpenFile, buf0: seq<byte>, outcome: nat -> Rpc,
                  ghost contents: seq<byte>)
    returns (ret: int, buf: seq<byte>)
    requires Readable(e, cl, file.path, Range(e.c, file.pos, |buf0|)) && Represents(e, cl, file.path, contents)
    modifies file`pos
    ensures var r := Range(e.c, old(file.pos), |buf0|);
      && ret == (if AllRead(e, fwd, file.path, r, outcome) then PreadCount(contents, old(file.pos), |buf0|) else -1)
      && Received(e, cl, file.path, r, buf0, TookRead(e, fwd, file.path, r, outcome), buf)
    ensures ret >= 0 ==> buf == PreadInto(contents, old(file.pos), buf0)
    ensures file.pos == old(file.pos) + Max(0, ret)
  {
    ret, buf := ReadNext(e, fwd, cl, file.path, buf0, file.pos, outcome, contents);
    if ret > 0 { file.pos := file.pos + ret; }
  }

  /** gkfs_write: a write at the position, which moves by the size of the buffer if the write succeeds. */
  method GkfsWrite(e: Env, fwd: nat, cl: Cluster, file: OpenFile, buf: seq<byte>, sized: bool, outcome: nat -> Rpc)
    returns (ret: int, cl': Cluster)
    requires WellFormed(e, cl, Write(file.path, file.pos, buf))
    modifies file`pos
    ensures var w := Write(file.path, old(file.pos), buf);
      && (if sized then Wrote(e, cl, cl', w, TookWrite(e, fwd, file.path, RangeOf(e, w), outcome)) else cl' == cl)
      && OthersKept(e, cl, cl', file.path)
      && ret == (if sized && AllWritten(e, fwd, file.path, RangeOf(e, w), outcome) then |buf| else -1)
    ensures file.pos == if ret >= 0 then old(file.pos) + |buf| else old(file.pos)
  {
    var w := Write(file.path, file.pos, buf);
    ret, cl' := WriteAt(e, fwd, cl, w, sized, outcome);
    if ret > 0 { file.pos := file.pos + |buf|; }
  }

  /** Two reads, through any descriptors of one open file, deliver consecutive bytes: together one read. */
  method ReadTwice(e: Env, fwd: nat, cl: Cluster, table: FileMap, fd: int, fd': int, a0: seq<byte>, b0: seq<byte>,
                   outcome: nat -> Rpc, ghost contents: seq<byte>)
    returns (a: seq<byte>, b: seq<byte>, n: int)
    requires fd in table.files && fd' in table.files && table.files[fd] == table.files[fd']
    requires var f := table.files[fd];
      && e.Valid() && |cl| == e.Backends() && IsAbsolute(f.path) && a0 != [] && b0 != []
      && Addressable(e, f.pos, |a0| + |b0|) && f.pos + |a0| <= |contents| && Represents(e, cl, f.path, contents)
    requires var f := table.files[fd];
      && AllRead(e, fwd, f.path, Range(e.c, f.pos, |a0|), outcome)
      && AllRead(e, fwd, f.path, Range(e.c, f.pos + |a0|, |b0|), outcome)
    modifies table.files[fd]
    ensures a + b == PreadInto(contents, old(table.files[fd].pos), a0 + b0)
    ensures n == PreadCount(contents, old(table.files[fd].pos), |a0| + |b0|)
  {
    var f := table.files[fd];
    ghost var pos := f.pos;
    var m;
    n, a := GkfsRead(e, fwd, cl, f, a0, outcome, contents);
    m, b := GkfsRead(e, fwd, cl, table.files[fd'], b0, outcome, contents);
    n := n + m;
    PreadTwice(contents, pos, a0, b0);
  }
}
