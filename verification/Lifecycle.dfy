/** Metadata size and chunk files together, over runs of create, write, truncate and remove by any
    number of clients. A write is a size step at the metadata host and then one task per chunk, in
    any order and interleaving. Truncate and remove are quiescent: no task of an earlier write follows. */
module Lifecycle {
  import opened Arith
  import opened Layout
  import opened Placement
  import opened ChunkStorage
  import opened FlatFile
  import opened Aliasing
  import opened StripedIO
  import opened Truncate
  import Runs

  // ---- Removal ----

  /** The hosts numbered below n. */
  function Hosts(n: nat): set<nat> { if n == 0 then {} else Hosts(n - 1) + {n - 1} }

  lemma {:induction false} HostsHas(n: nat, h: nat)
    ensures h in Hosts(n) <==> h < n
  {
    if n > 0 { HostsHas(n - 1, h); }
  }

  /** The hosts that forward_remove contacts for a file of the given size; mdHost keeps its metadata. */
  function RemoveHosts(e: Env, fwd: nat, mdHost: nat, path: string, size: nat): set<nat> {
    if size == 0 then {mdHost}
    else if Quot(size, e.c) < e.hosts then {mdHost} + Targets(e, fwd, path, 0, Quot(size, e.c) + 1)
    else Hosts(e.hosts)
  }

  /** The cluster after remove_node on the daemons in ran: destroy_chunk_space deletes the directory. */
  function DropAll(e: Env, cl: Cluster, path: string, ran: set<nat>): Cluster {
    seq(|cl|, b requires 0 <= b < |cl| => if Reaches(e, ran, b) then cl[b] - {ChunkDir(path)} else cl[b])
  }

  lemma DropOneMore(e: Env, cl: Cluster, path: string, ran: set<nat>, h: nat)
    requires |cl| == e.Backends() && e.Backend(h) < |cl|
    ensures var mid, b := DropAll(e, cl, path, ran), e.Backend(h);
      DropAll(e, cl, path, ran + {h}) == mid[b := mid[b] - {ChunkDir(path)}]
  {
    var store, dir := cl[e.Backend(h)], ChunkDir(path);
    assert (store - {dir}) - {dir} == store - {dir};
  }

  /** A removal leaves the other files alone. */
  lemma DropKeepsOthers(e: Env, cl: Cluster, path: string, ran: set<nat>)
    ensures OthersKept(e, cl, DropAll(e, cl, path, ran), path)
  {
    SameChunks(e, cl, DropAll(e, cl, path, ran), path);
  }

  /** The requests of forward_remove, in order: the metadata host alone for an empty file, then also
      the owners of the chunks up to size / C, or every host when the file may be on all of them. */
  function RemoveList(e: Env, fwd: nat, mdHost: nat, path: string, size: nat): seq<nat> {
    if size == 0 then [mdHost]
    else if Quot(size, e.c) < e.hosts then [mdHost] + Owners(e, fwd, path, Quot(size, e.c) + 1)
    else seq(e.hosts, h requires h >= 0 => h)
  }

  function Owners(e: Env, fwd: nat, path: string, n: nat): seq<nat> {
    if n == 0 then [] else Owners(e, fwd, path, n - 1) + [e.ClientLoc(fwd, path, n - 1)]
  }

  lemma {:induction false} OwnersAreTargets(e: Env, fwd: nat, path: string, n: nat, h: nat)
    ensures h in Owners(e, fwd, path, n) <==> h in Targets(e, fwd, path, 0, n)
  {
    if n > 0 { OwnersAreTargets(e, fwd, path, n - 1, h); }
  }

  lemma RemoveListHosts(e: Env, fwd: nat, mdHost: nat, path: string, size: nat, h: nat)
    ensures h in RemoveList(e, fwd, mdHost, path, size) <==> h in RemoveHosts(e, fwd, mdHost, path, size)
  {
    OwnersAreTargets(e, fwd, path, Quot(size, e.c) + 1, h);
    HostsHas(e.hosts, h);
    var all := seq(e.hosts, k requires k >= 0 => k);
    if h < e.hosts { assert all[h] == h; }
  }

  /** The list that forward_remove works through. */
  method RemoveTargets(e: Env, fwd: nat, mdHost: nat, path: string, size: nat) returns (hs: seq<nat>)
    requires e.Valid()
    ensures hs == RemoveList(e, fwd, mdHost, path, size)
  {
    QuotRemIsDivision(size, e.c);
    hs := [];
    if size == 0 {
      hs := [mdHost];
    } else if size / e.c < e.hosts {
      hs := [mdHost];
      for chnkId := 0 to size / e.c + 1
        invariant hs == [mdHost] + Owners(e, fwd, path, chnkId)
      {
        hs := hs + [e.ClientLoc(fwd, path, chnkId)];
      }
    } else {
      for host := 0 to e.hosts
        invariant hs == seq(host, h requires h >= 0 => h)
      {
        hs := hs + [host];
      }
    }
  }

  function Elems(hs: seq<nat>): set<nat> { set h | h in hs }

  /** rpc_srv_remove on the daemon of host h: idempotent, and never an error. */
  method RemoveAt(e: Env, cl: Cluster, path: string, h: nat, outcome: nat -> Rpc, ghost cl0: Cluster,
                  ghost posted: seq<nat>)
    returns (cl': Cluster)
    requires |cl0| == e.Backends() && e.Backend(h) < |cl0|
      && cl == DropAll(e, cl0, path, Handlers(Elems(posted), outcome))
    ensures cl' == DropAll(e, cl0, path, Handlers(Elems(posted + [h]), outcome))
  {
    assert Elems(posted + [h]) == Elems(posted) + {h};
    HandlersMore(Elems(posted), outcome, h);
    cl' := cl;
    if outcome(h).Ran? {
      DropOneMore(e, cl0, path, Handlers(Elems(posted), outcome), h);
      var b := e.Backend(h);
      cl' := cl[b := cl[b] - {ChunkDir(path)}];
    }
  }

  /** Posting and collecting: the first host that cannot be reached ends the posting. */
  method PostRemoves(e: Env, cl: Cluster, path: string, hs: seq<nat>, outcome: nat -> Rpc)
    returns (cl': Cluster, n: nat, error: bool)
    requires |cl| == e.Backends() && forall i :: 0 <= i < |hs| ==> e.Backend(hs[i]) < |cl|
    ensures StoppedAt(hs, outcome, n) && cl' == DropAll(e, cl, path, Handlers(Elems(hs[..n]), outcome))
    ensures error <==> exists i :: 0 <= i < n && !outcome(hs[i]).Answers()
  {
    cl', n, error := cl, 0, false;
    assert DropAll(e, cl, path, {}) == cl;
    while n < |hs| && !outcome(hs[n]).Unsendable?
      invariant n <= |hs| && forall i :: 0 <= i < n ==> !outcome(hs[i]).Unsendable?
      invariant cl' == DropAll(e, cl, path, Handlers(Elems(hs[..n]), outcome))
      invariant error <==> exists i :: 0 <= i < n && !outcome(hs[i]).Answers()
    {
      assert hs[..n + 1] == hs[..n] + [hs[n]];
      cl' := RemoveAt(e, cl', path, hs[n], outcome, cl, hs[..n]);
      error, n := error || !outcome(hs[n]).Answers(), n + 1;
    }
  }

  datatype Removal = Removed | Failed | Threw

  /** forward_remove, as gkfs_remove calls it: the hosts on its list get the request in order, up to the
      first that cannot be reached, and those whose daemon handles it drop the chunk directory. The
      call succeeds exactly when every host answered; then every contacted backend has dropped it. */
  method ForwardRemove(e: Env, fwd: nat, mdHost: nat, cl: Cluster, path: string, size: nat, outcome: nat -> Rpc)
    returns (ret: Removal, cl': Cluster, n: nat)
    requires e.Valid() && |cl| == e.Backends() && mdHost < e.hosts
    ensures var hs := RemoveList(e, fwd, mdHost, path, size);
      && StoppedAt(hs, outcome, n) && cl' == DropAll(e, cl, path, Handlers(Elems(hs[..n]), outcome))
      && (ret.Threw? <==> n < |hs| && size != 0)
      && (ret.Removed? <==> forall h :: h in hs ==> outcome(h).Answers())
      && (ret.Removed? ==> cl' == DropAll(e, cl, path, RemoveHosts(e, fwd, mdHost, path, size)))
      && OthersKept(e, cl, cl', path)
  {
    var hs := RemoveTargets(e, fwd, mdHost, path, size);
    RemoveListKnown(e, fwd, mdHost, path, size);
    var error;
    cl', n, error := PostRemoves(e, cl, path, hs, outcome);
    DropKeepsOthers(e, cl, path, Handlers(Elems(hs[..n]), outcome));
    if n < |hs| {
      ret := if size == 0 then Failed else Threw;
    } else {
      ret := if error then Failed else Removed;
      assert hs[..n] == hs;
      if !error { AllDropped(e, fwd, mdHost, path, size, outcome); }
    }
  }

  lemma RemoveListKnown(e: Env, fwd: nat, mdHost: nat, path: string, size: nat)
    requires e.Valid() && mdHost < e.hosts
    ensures forall i :: 0 <= i < |RemoveList(e, fwd, mdHost, path, size)| ==>
      e.Backend(RemoveList(e, fwd, mdHost, path, size)[i]) < e.Backends()
  {
    var hs := RemoveList(e, fwd, mdHost, path, size);
    forall i | 0 <= i < |hs| ensures e.Backend(hs[i]) < e.Backends() {
      RemoveListHosts(e, fwd, mdHost, path, size, hs[i]);
      TargetOf(e, fwd, path, 0, Quot(size, e.c) + 1, hs[i]);
      HostsHas(e.hosts, hs[i]);
    }
  }

  lemma AllDropped(e: Env, fwd: nat, mdHost: nat, path: string, size: nat, outcome: nat -> Rpc)
    requires forall h :: h in RemoveList(e, fwd, mdHost, path, size) ==> outcome(h).Ran?
    ensures Handlers(Elems(RemoveList(e, fwd, mdHost, path, size)), outcome) == RemoveHosts(e, fwd, mdHost, path, size)
  {
    forall h: nat ensures h in Handlers(Elems(RemoveList(e, fwd, mdHost, path, size)), outcome)
                     <==> h in RemoveHosts(e, fwd, mdHost, path, size)
    {
      RemoveListHosts(e, fwd, mdHost, path, size, h);
    }
  }

  /** Who is asked to remove a file: the host of its metadata, and, when it has data, the owners of the
      chunks up to size / C, or every host when there are as many chunks as hosts. */
  lemma RemoveContacts(e: Env, fwd: nat, mdHost: nat, path: string, size: nat, h: nat)
    requires e.Valid() && mdHost < e.hosts
    ensures h in RemoveList(e, fwd, mdHost, path, size)
       <==> || h == mdHost
            || (size > 0 && if size / e.c < e.hosts then exists id: nat :: id <= size / e.c && e.ClientLoc(fwd, path, id) == h
                            else h < e.hosts)
  {
    QuotRemIsDivision(size, e.c);
    RemoveListHosts(e, fwd, mdHost, path, size, h);
    TargetOf(e, fwd, path, 0, Quot(size, e.c) + 1, h);
    HostsHas(e.hosts, h);
  }

  // ---- The run ----

  /** The names in use. */
  type Names = iset<string>

  predicate Apart(p: string, q: string) { p == q || ChunkDir(p) != ChunkDir(q) }

  /** Absolute paths, no two of which share a chunk directory. */
  ghost predicate AliasFree(ns: Names) {
    (forall p :: p in ns ==> IsAbsolute(p)) && (forall p, q :: p in ns && q in ns ==> Apart(p, q))
  }

  /** Sizes of the existing files, writes whose size step is done, and the chunk files. */
  datatype State = State(md: map<string, nat>, started: set<Write>, cl: Cluster)

  /** ran has the hosts whose daemons handle the truncation. */
  datatype Event =
    | Create(path: string)
    | GrowSize(w: Write)
    | WriteTask(w: Write, id: nat)
    | Truncate(path: string, length: nat, ran: set<nat>)
    | Remove(fwd: nat, mdHost: nat, path: string)

  /** Backend b keeps a chunk file for path under the given number. */
  predicate Keeps(cl: Cluster, path: string, b: nat, key: nat) { key in DirOf(StoreAt(cl, b), ChunkDir(path)) }

  function Length(cl: Cluster, path: string, b: nat, key: nat): nat { |ChunkOf(StoreAt(cl, b), ChunkDir(path), key)| }

  /** Where the bytes of a chunk file end in the file. */
  function End(e: Env, cl: Cluster, path: string, b: nat, key: nat): nat { Times(e.c, key) + Length(cl, path, b, key) }

  /** Backend b is trimmed, or has no chunk file that reaches beyond length. */
  predicate Clears(e: Env, cl: Cluster, path: string, length: nat, ran: set<nat>, b: nat, key: nat) {
    Keeps(cl, path, b, key) && length < End(e, cl, path, b, key) ==>
      Reaches(e, ran, b) && CanTrim(StoreAt(cl, b), ChunkDir(path), e.c, length)
  }

  /** Every chunk file of path that reaches beyond length is on a backend that is trimmed. */
  ghost predicate Cuts(e: Env, cl: Cluster, path: string, length: nat, ran: set<nat>) {
    forall b: nat, key: nat :: Clears(e, cl, path, length, ran, b, key)
  }

  ghost predicate Enabled(e: Env, ns: Names, s: State, ev: Event) {
    match ev
    case Create(path) => path in ns
    case GrowSize(w) =>
      w.path in ns && w.path in s.md && WellFormed(e, s.cl, w) && w.offset + |w.data| <= Times(e.c, KEYS - 1)
    case WriteTask(w, id) => w in s.started && RangeOf(e, w).Touches(id)
    case Truncate(path, length, ran) => path in s.md && length < s.md[path] && Cuts(e, s.cl, path, length, ran)
    case Remove(fwd, mdHost, path) => path in s.md && mdHost < e.hosts
  }

  function Quiet(started: set<Write>, path: string): set<Write> { set w | w in started && w.path != path }

  /** One step. Create leaves an existing entry alone, and the size step is a maximum. */
  function Next(e: Env, s: State, ev: Event): State {
    match ev
    case Create(path) => if path in s.md then s else s.(md := s.md[path := 0])
    case GrowSize(w) =>
      if w.path !in s.md then s
      else s.(md := s.md[w.path := Max(s.md[w.path], w.offset + |w.data|)], started := s.started + {w})
    case WriteTask(w, id) => s.(cl := ApplyPiece(e, s.cl, w, id))
    case Truncate(path, length, ran) => State(s.md[path := length], Quiet(s.started, path),
                                              TrimAll(e, s.cl, path, length, ran))
    case Remove(fwd, mdHost, path) =>
      if path !in s.md then s
      else State(s.md - {path}, Quiet(s.started, path),
                 DropAll(e, s.cl, path, RemoveHosts(e, fwd, mdHost, path, s.md[path])))
  }

  /** A chunk file belongs to an existing file, lies on its own backend, is not empty, fits in a chunk
      and ends below the metadata size. */
  predicate Sound(e: Env, s: State, path: string, b: nat, key: nat) {
    Keeps(s.cl, path, b, key) ==>
      && key < KEYS && e.Home(path, key) == b && path in s.md
      && 0 < Length(s.cl, path, b, key) <= e.c && End(e, s.cl, path, b, key) <= s.md[path]
  }

  /** A started write is well-formed and inside the metadata size. */
  ghost predicate Covered(e: Env, ns: Names, s: State, w: Write) {
    w in s.started ==>
      && w.path in ns && WellFormed(e, s.cl, w) && w.path in s.md && w.offset + |w.data| <= s.md[w.path]
  }

  ghost predicate Bounded(e: Env, ns: Names, s: State, path: string) {
    path in s.md ==> path in ns && s.md[path] <= Times(e.c, KEYS - 1)
  }

  ghost predicate Inv(e: Env, ns: Names, s: State) {
    && e.Valid() && |s.cl| == e.Backends()
    && (forall path, b: nat, key: nat :: path in ns ==> Sound(e, s, path, b, key))
    && (forall w :: Covered(e, ns, s, w))
    && (forall path :: Bounded(e, ns, s, path))
  }

  // ---- The steps keep the invariant ----

  lemma WriteElsewhere(store: Store, dir: string, id: nat, data: seq<byte>, off: nat, dir': string, key: nat)
    requires dir != dir' || key != id % KEYS
    ensures var store' := WriteChunk(store, dir, id, data, off);
      && (key in DirOf(store', dir') <==> key in DirOf(store, dir'))
         && ChunkOf(store', dir', key) == ChunkOf(store, dir', key)
  {
  }

  /** The directory of another path, and the other chunk files, are not touched by a write task. */
  lemma TaskElsewhere(e: Env, cl: Cluster, w: Write, id: nat, path: string, b: nat, key: nat)
    requires Apart(path, w.path) && id < KEYS
    requires path != w.path || b != e.Home(path, id) || key != id
    ensures var cl' := ApplyPiece(e, cl, w, id);
      Keeps(cl', path, b, key) == Keeps(cl, path, b, key) && Length(cl', path, b, key) == Length(cl, path, b, key)
  {
    if b == e.Home(w.path, id) {
      WriteElsewhere(StoreAt(cl, b), ChunkDir(w.path), id, PieceData(e, w, id), RangeOf(e, w).PieceAt(id).chunkOff,
                     ChunkDir(path), key);
    }
  }

  lemma {:induction false} PieceEnd(e: Env, w: Write, id: nat)
    requires RangeOf(e, w).Touches(id)
    ensures var q := RangeOf(e, w).PieceAt(id);
      && 0 < q.size == |PieceData(e, w, id)| && q.chunkOff + q.size <= e.c
      && Times(e.c, id) + q.chunkOff + q.size <= w.offset + |w.data|
  {
    PieceBounds(RangeOf(e, w), id);
  }

  /** The written chunk file grows at most to the end of the write and of the chunk. */
  lemma {:induction false} TaskHere(e: Env, cl: Cluster, w: Write, id: nat)
    requires WellFormed(e, cl, w) && RangeOf(e, w).Touches(id)
    ensures var n, n' := |Chunk(e, cl, w.path, id)|, |Chunk(e, ApplyPiece(e, cl, w, id), w.path, id)|;
      0 < n' <= Max(n, e.c) && Times(e.c, id) + n' <= Max(Times(e.c, id) + n, w.offset + |w.data|)
  {
    HomeExists(e, cl, w.path, id);
    TouchedIdFits(e, w, id);
    PieceEnd(e, w, id);
    ChunkAfterPiece(e, cl, w, id, id);
  }

  /** The chunk that the task writes. */
  lemma TaskHereSound(e: Env, s: State, w: Write, id: nat)
    requires WellFormed(e, s.cl, w) && RangeOf(e, w).Touches(id) && w.path in s.md
      && w.offset + |w.data| <= s.md[w.path]
    requires Sound(e, s, w.path, e.Home(w.path, id), id)
    ensures Sound(e, s.(cl := ApplyPiece(e, s.cl, w, id)), w.path, e.Home(w.path, id), id)
  {
    var b, cl' := e.Home(w.path, id), ApplyPiece(e, s.cl, w, id);
    TouchedIdFits(e, w, id);
    TaskHere(e, s.cl, w, id);
    PieceStarts(e, w, id);
    assert Length(s.cl, w.path, b, id) == |Chunk(e, s.cl, w.path, id)|;
    assert Length(cl', w.path, b, id) == |Chunk(e, cl', w.path, id)|;
  }

  lemma {:induction false} PieceStarts(e: Env, w: Write, id: nat)
    requires RangeOf(e, w).Touches(id)
    ensures Times(e.c, id) < w.offset + |w.data|
  {
    PieceEnd(e, w, id);
  }

  lemma WriteTaskSound(e: Env, ns: Names, s: State, w: Write, id: nat, path: string, b: nat, key: nat)
    requires AliasFree(ns) && Inv(e, ns, s) && w in s.started && RangeOf(e, w).Touches(id) && path in ns
    ensures Sound(e, Next(e, s, WriteTask(w, id)), path, b, key)
  {
    assert Covered(e, ns, s, w);
    assert Sound(e, s, path, b, key) && Apart(path, w.path);
    TouchedIdFits(e, w, id);
    if path == w.path && b == e.Home(path, id) && key == id {
      TaskHereSound(e, s, w, id);
    } else {
      TaskElsewhere(e, s.cl, w, id, path, b, key);
    }
  }

  /** A chunk file that ends below size starts in a chunk below it. */
  lemma ChunkBelowSize(e: Env, key: nat, n: nat, size: nat)
    requires e.c > 0 && n > 0 && Times(e.c, key) + n <= size
    ensures key <= Quot(size - 1, e.c) <= Quot(size, e.c)
  {
    QuotRem(size - 1, e.c);
    QuotMonotone(size - 1, size, e.c);
    if Quot(size - 1, e.c) < key { TimesMonotone(e.c, Quot(size - 1, e.c), key); }
  }

  /** A chunk file that reaches beyond length starts in the chunk of length or behind it. */
  lemma {:induction false} ChunkBeyond(e: Env, key: nat, n: nat, length: nat)
    requires e.c > 0 && n <= e.c && length < Times(e.c, key) + n
    ensures Quot(length, e.c) <= key
  {
    QuotRem(length, e.c);
    if key < Quot(length, e.c) { TimesMonotone(e.c, key, Quot(length, e.c)); }
  }

  /** What trimming leaves of a chunk file. */
  lemma TrimKeeps(e: Env, cl: Cluster, path: string, length: nat, ran: set<nat>, b: nat, key: nat)
    requires e.c > 0 && 0 < Length(cl, path, b, key) <= e.c
    ensures var cl' := TrimAll(e, cl, path, length, ran);
      var cut := Reaches(e, ran, b) && CanTrim(StoreAt(cl, b), ChunkDir(path), e.c, length);
      && (!cut ==> Keeps(cl', path, b, key) == Keeps(cl, path, b, key) && Length(cl', path, b, key) == Length(cl, path, b, key))
      && (cut && Keeps(cl', path, b, key) ==>
            Keeps(cl, path, b, key) && 0 < Length(cl', path, b, key) <= e.c && End(e, cl', path, b, key) <= length)
  {
    QuotRem(length, e.c);
    if key < Quot(length, e.c) { TimesMonotone(e.c, key, Quot(length, e.c)); }
  }

  lemma TrimElsewhere(e: Env, cl: Cluster, path: string, length: nat, ran: set<nat>, q: string, b: nat, key: nat)
    requires q != path && Apart(path, q)
    ensures var cl' := TrimAll(e, cl, path, length, ran);
      Keeps(cl', q, b, key) == Keeps(cl, q, b, key) && Length(cl', q, b, key) == Length(cl, q, b, key)
  {
  }

  lemma TrimNothing(e: Env, cl: Cluster, path: string, length: nat, ran: set<nat>, b: nat, key: nat)
    requires !Keeps(cl, path, b, key)
    ensures !Keeps(TrimAll(e, cl, path, length, ran), path, b, key)
  {
  }

  /** A chunk file is sound after a truncation exactly when its backend was trimmed or it ends below. */
  lemma TrimSound(e: Env, s: State, path: string, length: nat, ran: set<nat>, b: nat, key: nat)
    requires e.c > 0 && path in s.md && length < s.md[path] && Sound(e, s, path, b, key)
    ensures Sound(e, Next(e, s, Truncate(path, length, ran)), path, b, key)
      <==> Clears(e, s.cl, path, length, ran, b, key)
  {
    if Keeps(s.cl, path, b, key) {
      TrimKeeps(e, s.cl, path, length, ran, b, key);
    } else {
      TrimNothing(e, s.cl, path, length, ran, b, key);
    }
  }

  lemma TruncateSound(e: Env, ns: Names, s: State, path: string, length: nat, ran: set<nat>, q: string, b: nat,
                      key: nat)
    requires AliasFree(ns) && Inv(e, ns, s) && Enabled(e, ns, s, Truncate(path, length, ran)) && q in ns
    ensures Sound(e, Next(e, s, Truncate(path, length, ran)), q, b, key)
  {
    assert Sound(e, s, q, b, key) && Bounded(e, ns, s, path) && Apart(path, q);
    if q == path {
      assert Clears(e, s.cl, path, length, ran, b, key);
      TrimSound(e, s, path, length, ran, b, key);
    } else {
      TrimElsewhere(e, s.cl, path, length, ran, q, b, key);
    }
  }

  /** A truncation keeps the invariant exactly when it cuts every chunk file that reaches beyond the new
      length. */
  lemma TruncateKeepsInv(e: Env, ns: Names, s: State, path: string, length: nat, ran: set<nat>)
    requires AliasFree(ns) && Inv(e, ns, s) && path in s.md && length < s.md[path]
    ensures Inv(e, ns, Next(e, s, Truncate(path, length, ran))) <==> Cuts(e, s.cl, path, length, ran)
  {
    var s' := Next(e, s, Truncate(path, length, ran));
    assert Bounded(e, ns, s, path);
    if Inv(e, ns, s') {
      forall b: nat, key: nat ensures Clears(e, s.cl, path, length, ran, b, key) {
        assert Sound(e, s, path, b, key) && Sound(e, s', path, b, key);
        TrimSound(e, s, path, length, ran, b, key);
      }
    }
    if Cuts(e, s.cl, path, length, ran) { NextKeepsInv(e, ns, s, Truncate(path, length, ran)); }
  }

  /** When the contacted hosts cut enough: the new length is at most the place of the last byte in its
      chunk, and it is 0 or the chunk of the cut has a file whose backend keeps every chunk behind it. */
  lemma {:induction false} ContactedCuts(e: Env, ns: Names, s: State, fwd: nat, path: string, length: nat)
    requires Inv(e, ns, s) && path in s.md && length < s.md[path] && length <= Rem(s.md[path] - 1, e.c)
    requires var cut := Quot(length, e.c);
      || length == 0
      || (Keeps(s.cl, path, e.Home(path, cut), cut)
          && forall id: nat :: Doomed(e, s.md[path], length, id) ==> e.Home(path, id) == e.Home(path, cut))
    ensures Cuts(e, s.cl, path, length, Contacted(e, fwd, path, s.md[path], length))
  {
    var size, cut := s.md[path], Quot(length, e.c);
    assert Bounded(e, ns, s, path);
    forall b: nat, key: nat | Keeps(s.cl, path, b, key) && length < End(e, s.cl, path, b, key)
      ensures Reaches(e, Contacted(e, fwd, path, size, length), b)
        && CanTrim(StoreAt(s.cl, b), ChunkDir(path), e.c, length)
    {
      assert Sound(e, s, path, b, key);
      ChunkBelowSize(e, key, Length(s.cl, path, b, key), size);
      ChunkBeyond(e, key, Length(s.cl, path, b, key), length);
      AllContacted(e, fwd, path, size, length, key);
    }
  }

  lemma DropKeeps(e: Env, cl: Cluster, path: string, ran: set<nat>, q: string, b: nat, key: nat)
    requires Apart(path, q)
    ensures var cl' := DropAll(e, cl, path, ran);
      && (Keeps(cl', q, b, key) ==> Keeps(cl, q, b, key) && Length(cl', q, b, key) == Length(cl, q, b, key))
      && (q == path && Reaches(e, ran, b) ==> !Keeps(cl', q, b, key))
  {
  }

  /** The contacted hosts include the home of every chunk that ends below the size. */
  lemma {:induction false} RemoveReaches(e: Env, fwd: nat, mdHost: nat, path: string, size: nat, key: nat, n: nat)
    requires e.Valid() && n > 0 && Times(e.c, key) + n <= size
    ensures Reaches(e, RemoveHosts(e, fwd, mdHost, path, size), e.Home(path, key))
  {
    ChunkBelowSize(e, key, n, size);
    var h := e.ClientLoc(fwd, path, key);
    TargetOf(e, fwd, path, 0, Quot(size, e.c) + 1, h);
    HostsHas(e.hosts, e.Home(path, key));
    HostsHas(e.hosts, 0);
  }

  lemma RemoveSound(e: Env, ns: Names, s: State, fwd: nat, mdHost: nat, path: string, q: string, b: nat, key: nat)
    requires AliasFree(ns) && Inv(e, ns, s) && path in s.md && q in ns
    ensures Sound(e, Next(e, s, Remove(fwd, mdHost, path)), q, b, key)
  {
    var size := s.md[path];
    assert Sound(e, s, q, b, key) && Bounded(e, ns, s, path) && Apart(path, q);
    DropKeeps(e, s.cl, path, RemoveHosts(e, fwd, mdHost, path, size), q, b, key);
    if q == path && Keeps(s.cl, q, b, key) {
      RemoveReaches(e, fwd, mdHost, path, size, key, Length(s.cl, q, b, key));
    }
  }

  lemma NextSound(e: Env, ns: Names, s: State, ev: Event, q: string, b: nat, key: nat)
    requires AliasFree(ns) && Inv(e, ns, s) && Enabled(e, ns, s, ev) && q in ns
    ensures Sound(e, Next(e, s, ev), q, b, key)
  {
    assert Sound(e, s, q, b, key);
    match ev
    case Create(path) =>
    case GrowSize(w) =>
    case WriteTask(w, id) => WriteTaskSound(e, ns, s, w, id, q, b, key);
    case Truncate(path, length, ran) => TruncateSound(e, ns, s, path, length, ran, q, b, key);
    case Remove(fwd, mdHost, path) => RemoveSound(e, ns, s, fwd, mdHost, path, q, b, key);
  }

  lemma NextCovered(e: Env, ns: Names, s: State, ev: Event, w: Write)
    requires Inv(e, ns, s) && Enabled(e, ns, s, ev)
    ensures Covered(e, ns, Next(e, s, ev), w)
  {
    assert Covered(e, ns, s, w);
  }

  lemma NextBounded(e: Env, ns: Names, s: State, ev: Event, path: string)
    requires Inv(e, ns, s) && Enabled(e, ns, s, ev)
    ensures Bounded(e, ns, Next(e, s, ev), path)
  {
    assert Bounded(e, ns, s, path);
  }

  lemma NextKeepsInv(e: Env, ns: Names, s: State, ev: Event)
    requires AliasFree(ns) && Inv(e, ns, s) && Enabled(e, ns, s, ev)
    ensures Inv(e, ns, Next(e, s, ev))
  {
    var s' := Next(e, s, ev);
    forall q, b: nat, key: nat | q in ns ensures Sound(e, s', q, b, key) { NextSound(e, ns, s, ev, q, b, key); }
    forall w ensures Covered(e, ns, s', w) { NextCovered(e, ns, s, ev, w); }
    forall path ensures Bounded(e, ns, s', path) { NextBounded(e, ns, s, ev, path); }
  }

  // ---- Whole runs ----

  function After(e: Env, s: State, run: seq<Event>): State {
    if run == [] then s else Next(e, After(e, s, run[..|run| - 1]), run[|run| - 1])
  }

  ghost predicate Possible(e: Env, ns: Names, s: State, run: seq<Event>) {
    run == [] || (Possible(e, ns, s, run[..|run| - 1]) && Enabled(e, ns, After(e, s, run[..|run| - 1]), run[|run| - 1]))
  }

  lemma {:induction false} RunSnoc(e: Env, ns: Names, s: State, run: seq<Event>, ev: Event)
    ensures After(e, s, run + [ev]) == Next(e, After(e, s, run), ev)
    ensures Possible(e, ns, s, run + [ev]) <==> Possible(e, ns, s, run) && Enabled(e, ns, After(e, s, run), ev)
  {
    Snoc(run, ev);
  }

  /** The write tasks of a run as events. */
  function TaskEvents(tasks: seq<Runs.Task>): seq<Event> {
    if tasks == [] then [] else TaskEvents(tasks[..|tasks| - 1]) + [WriteTask(tasks[|tasks| - 1].w, tasks[|tasks| - 1].id)]
  }

  /** Any interleaving of tasks of started writes is a possible run and has the effect on the chunk files
      that the striping lemmas speak of; it changes no metadata. */
  lemma {:induction false} TasksAreSteps(e: Env, ns: Names, s: State, tasks: seq<Runs.Task>)
    requires forall i :: 0 <= i < |tasks| ==> tasks[i].w in s.started && RangeOf(e, tasks[i].w).Touches(tasks[i].id)
    ensures Possible(e, ns, s, TaskEvents(tasks))
    ensures After(e, s, TaskEvents(tasks)) == s.(cl := Runs.After(e, s.cl, tasks))
  {
    if tasks != [] {
      var init, last := tasks[..|tasks| - 1], tasks[|tasks| - 1];
      TasksAreSteps(e, ns, s, init);
      RunSnoc(e, ns, s, TaskEvents(init), WriteTask(last.w, last.id));
    }
  }

  function Empty(e: Env): State { State(map[], {}, seq(e.Backends(), b => map[])) }

  lemma {:induction false} RunKeepsInv(e: Env, ns: Names, run: seq<Event>)
    requires e.Valid() && AliasFree(ns) && Possible(e, ns, Empty(e), run)
    ensures Inv(e, ns, After(e, Empty(e), run))
  {
    if run != [] {
      RunKeepsInv(e, ns, run[..|run| - 1]);
      NextKeepsInv(e, ns, After(e, Empty(e), run[..|run| - 1]), run[|run| - 1]);
    }
  }

  lemma {:induction false} SoundStored(e: Env, s: State, path: string, p: nat)
    requires e.c > 0 && Sound(e, s, path, e.Home(path, Quot(p, e.c)), Quot(p, e.c))
    requires Fits(e, p) && Stored(e, s.cl, path, p)
    ensures path in s.md && p < s.md[path]
  {
    QuotRem(p, e.c);
  }

  /** In every reachable state every stored byte lies below the metadata size of an existing file. */
  lemma {:induction false} StoredBelowSize(e: Env, ns: Names, run: seq<Event>, path: string, p: nat)
    requires e.Valid() && AliasFree(ns) && Possible(e, ns, Empty(e), run) && path in ns && Fits(e, p)
    requires Stored(e, After(e, Empty(e), run).cl, path, p)
    ensures path in After(e, Empty(e), run).md && p < After(e, Empty(e), run).md[path]
  {
    RunKeepsInv(e, ns, run);
    SoundStored(e, After(e, Empty(e), run), path, p);
  }

  lemma GoneIsClean(e: Env, ns: Names, s: State, path: string, b: nat)
    requires Inv(e, ns, s) && path in ns && path !in s.md
    ensures DirOf(StoreAt(s.cl, b), ChunkDir(path)) == map[]
  {
    var chunks := DirOf(StoreAt(s.cl, b), ChunkDir(path));
    forall key: nat ensures key !in chunks {
      assert Sound(e, s, path, b, key);
    }
    assert chunks.Keys == {};
  }

  /** In every reachable state no host keeps a chunk of a file that does not exist: after a remove
      nothing is left behind, although a small file's remove does not go to all hosts. */
  lemma {:induction false} NothingLeft(e: Env, ns: Names, run: seq<Event>, path: string, b: nat)
    requires e.Valid() && AliasFree(ns) && Possible(e, ns, Empty(e), run) && path in ns
      && path !in After(e, Empty(e), run).md
    ensures DirOf(StoreAt(After(e, Empty(e), run).cl, b), ChunkDir(path)) == map[]
  {
    RunKeepsInv(e, ns, run);
    GoneIsClean(e, ns, After(e, Empty(e), run), path, b);
  }

  lemma InvPlaced(e: Env, ns: Names, s: State, path: string)
    requires Inv(e, ns, s) && path in ns
    ensures Placed(e, s.cl, path)
  {
    forall b: nat, key: nat ensures AtHome(e, s.cl, path, b, key) {
      assert Sound(e, s, path, b, key);
    }
  }

  /** Chunks are found only where the striping expects them. */
  lemma {:induction false} ReachablePlaced(e: Env, ns: Names, run: seq<Event>, path: string)
    requires e.Valid() && AliasFree(ns) && Possible(e, ns, Empty(e), run) && path in ns
    ensures Placed(e, After(e, Empty(e), run).cl, path)
  {
    RunKeepsInv(e, ns, run);
    InvPlaced(e, ns, After(e, Empty(e), run), path);
  }

  /** The state in which the first file has been created and grown for w. */
  function Begun(e: Env, w: Write): State { State(map[w.path := w.offset + |w.data|], {w}, Empty(e).cl) }

  lemma {:induction false} BeginWrite(e: Env, ns: Names, w: Write, created: seq<Event>, begun: seq<Event>)
    requires WellFormed(e, Empty(e).cl, w) && w.path in ns && w.offset + |w.data| <= Times(e.c, KEYS - 1)
    requires created == [] + [Create(w.path)] && begun == created + [GrowSize(w)]
    ensures Possible(e, ns, Empty(e), begun) && After(e, Empty(e), begun) == Begun(e, w)
  {
    RunSnoc(e, ns, Empty(e), [], Create(w.path));
    RunSnoc(e, ns, Empty(e), created, GrowSize(w));
  }

  /** Every well-formed write can be part of a run: the file is created, grown, and written. */
  lemma {:induction false} WriteIsPossible(e: Env, ns: Names, w: Write, tasks: seq<Runs.Task>)
    requires WellFormed(e, Empty(e).cl, w) && w.path in ns && w.offset + |w.data| <= Times(e.c, KEYS - 1)
    requires forall i :: 0 <= i < |tasks| ==> tasks[i].w == w && RangeOf(e, w).Touches(tasks[i].id)
    ensures exists begun ::
      && Possible(e, ns, Empty(e), begun) && After(e, Empty(e), begun) == Begun(e, w)
      && Possible(e, ns, Begun(e, w), TaskEvents(tasks))
      && After(e, Begun(e, w), TaskEvents(tasks)) == Begun(e, w).(cl := Runs.After(e, Empty(e).cl, tasks))
  {
    var created := [] + [Create(w.path)];
    BeginWrite(e, ns, w, created, created + [GrowSize(w)]);
    TasksAreSteps(e, ns, Begun(e, w), tasks);
  }

  // ---- What a run leaves ----

  predicate Removes(ev: Event, path: string) { ev.Remove? && ev.path == path }

  /** A Create of path occurs behind its last Remove. */
  ghost predicate Lives(run: seq<Event>, path: string) {
    exists i :: 0 <= i < |run| && run[i] == Create(path) && forall j :: i < j < |run| ==> !Removes(run[j], path)
  }

  lemma LivesSnoc(run: seq<Event>, path: string)
    requires run != []
    ensures Lives(run, path)
       <==> run[|run| - 1] == Create(path) || (Lives(run[..|run| - 1], path) && !Removes(run[|run| - 1], path))
  {
    var init, last := run[..|run| - 1], run[|run| - 1];
    if Lives(run, path) && last != Create(path) {
      var i :| 0 <= i < |run| && run[i] == Create(path) && forall j :: i < j < |run| ==> !Removes(run[j], path);
      assert init[i] == Create(path) && forall j :: i < j < |init| ==> init[j] == run[j];
    }
    if Lives(init, path) && !Removes(last, path) {
      var i :| 0 <= i < |init| && init[i] == Create(path) && forall j :: i < j < |init| ==> !Removes(init[j], path);
      assert run[i] == Create(path) && forall j :: i < j < |init| ==> init[j] == run[j];
    }
    if last == Create(path) { assert run[|run| - 1] == Create(path); }
  }

  lemma NextKeys(e: Env, ns: Names, s: State, ev: Event, path: string)
    requires Enabled(e, ns, s, ev)
    ensures path in Next(e, s, ev).md <==> ev == Create(path) || (path in s.md && !Removes(ev, path))
  {
  }

  /** In every run, a file exists exactly when a Create of it occurs behind its last Remove. */
  lemma {:induction false} ExistsIff(e: Env, ns: Names, run: seq<Event>, path: string)
    requires Possible(e, ns, Empty(e), run)
    ensures path in After(e, Empty(e), run).md <==> Lives(run, path)
  {
    if run != [] {
      ExistsIff(e, ns, run[..|run| - 1], path);
      NextKeys(e, ns, After(e, Empty(e), run[..|run| - 1]), run[|run| - 1], path);
      LivesSnoc(run, path);
    }
  }

  /** After its removal a file is gone: it has no metadata, and no host keeps a chunk of it. */
  lemma {:induction false} RemovedIsGone(e: Env, ns: Names, run: seq<Event>, path: string, b: nat)
    requires e.Valid() && AliasFree(ns) && Possible(e, ns, Empty(e), run) && path in ns && !Lives(run, path)
    ensures path !in After(e, Empty(e), run).md
    ensures DirOf(StoreAt(After(e, Empty(e), run).cl, b), ChunkDir(path)) == map[]
  {
    ExistsIff(e, ns, run, path);
    NothingLeft(e, ns, run, path, b);
  }

  /** In particular after a run that ends in it. */
  lemma {:induction false} RemoveEnds(e: Env, ns: Names, run: seq<Event>, path: string, b: nat)
    requires e.Valid() && AliasFree(ns) && Possible(e, ns, Empty(e), run) && path in ns
    requires run != [] && Removes(run[|run| - 1], path)
    ensures path !in After(e, Empty(e), run).md
    ensures DirOf(StoreAt(After(e, Empty(e), run).cl, b), ChunkDir(path)) == map[]
  {
    LivesSnoc(run, path);
    RemovedIsGone(e, ns, run, path, b);
  }

  // ---- The size of a file ----

  predicate Resets(ev: Event, path: string) { (ev.Truncate? || ev.Remove?) && ev.path == path }

  predicate Enlarges(ev: Event, path: string) { ev.GrowSize? && ev.w.path == path }

  /** Where the size step of an event ends. */
  function EndOf(ev: Event): nat { if ev.GrowSize? then ev.w.offset + |ev.w.data| else 0 }

  /** Nothing from index k on truncates or removes path, and v is the length that it had there: that of a
      truncation, or 0. */
  ghost predicate Since(run: seq<Event>, path: string, k: nat, v: nat) {
    && k <= |run| && (forall i :: k <= i < |run| ==> !Resets(run[i], path))
    && (if k == 0 then v == 0
        else Resets(run[k - 1], path) && v == if run[k - 1].Truncate? then run[k - 1].length else 0)
  }

  /** The largest of v and the ends of the size steps of path from index k on. */
  ghost predicate Largest(run: seq<Event>, path: string, k: nat, v: nat, size: nat) {
    && v <= size
    && (forall i: nat :: k <= i < |run| && Enlarges(run[i], path) ==> EndOf(run[i]) <= size)
    && (size == v || exists i: nat :: k <= i < |run| && Enlarges(run[i], path) && EndOf(run[i]) == size)
  }

  /** There is always such an index. */
  lemma {:induction false} LastReset(run: seq<Event>, path: string) returns (k: nat, v: nat)
    ensures Since(run, path, k, v)
  {
    if run == [] {
      k, v := 0, 0;
    } else if Resets(run[|run| - 1], path) {
      k, v := |run|, if run[|run| - 1].Truncate? then run[|run| - 1].length else 0;
    } else {
      k, v := LastReset(run[..|run| - 1], path);
    }
  }

  lemma SinceInit(run: seq<Event>, path: string, k: nat, v: nat)
    requires Since(run, path, k, v) && k < |run|
    ensures Since(run[..|run| - 1], path, k, v) && !Resets(run[|run| - 1], path)
  {
    var init := run[..|run| - 1];
    assert forall i :: 0 <= i < |init| ==> init[i] == run[i];
  }

  lemma LargestSnoc(run: seq<Event>, path: string, k: nat, v: nat, size: nat)
    requires k < |run| && Largest(run[..|run| - 1], path, k, v, size)
    ensures var last := run[|run| - 1];
      Largest(run, path, k, v, if Enlarges(last, path) then Max(size, EndOf(last)) else size)
  {
    var init, last := run[..|run| - 1], run[|run| - 1];
    var now := if Enlarges(last, path) then Max(size, EndOf(last)) else size;
    assert forall i :: 0 <= i < |init| ==> init[i] == run[i];
    if now != v {
      if now == size {
        var i: nat :| k <= i < |init| && Enlarges(init[i], path) && EndOf(init[i]) == size;
        assert Enlarges(run[i], path) && EndOf(run[i]) == now;
      } else {
        assert Enlarges(run[|run| - 1], path) && EndOf(run[|run| - 1]) == now;
      }
    }
  }

  lemma NextSize(e: Env, ns: Names, s: State, ev: Event, path: string)
    requires Enabled(e, ns, s, ev) && path in Next(e, s, ev).md
    ensures Next(e, s, ev).md[path]
         == if ev.Truncate? && ev.path == path then ev.length
            else if path !in s.md then 0
            else if Enlarges(ev, path) then Max(s.md[path], EndOf(ev))
            else s.md[path]
  {
  }

  /** While a file does not exist it has no size steps. */
  lemma {:induction false} AbsentIsFresh(e: Env, ns: Names, run: seq<Event>, path: string, k: nat, v: nat)
    requires Possible(e, ns, Empty(e), run) && Since(run, path, k, v) && path !in After(e, Empty(e), run).md
    ensures v == 0 && forall i: nat :: k <= i < |run| ==> !Enlarges(run[i], path)
  {
    if run != [] {
      var init, last := run[..|run| - 1], run[|run| - 1];
      NextKeys(e, ns, After(e, Empty(e), init), last, path);
      if k < |run| {
        SinceInit(run, path, k, v);
        AbsentIsFresh(e, ns, init, path, k, v);
        assert forall i :: 0 <= i < |init| ==> init[i] == run[i];
      }
    }
  }

  /** In every run, the size of a file is the maximum of its last truncation length, or 0, and of the ends
      of the size steps behind it. */
  lemma {:induction false} SizeIs(e: Env, ns: Names, run: seq<Event>, path: string, k: nat, v: nat)
    requires Possible(e, ns, Empty(e), run) && Since(run, path, k, v) && path in After(e, Empty(e), run).md
    ensures Largest(run, path, k, v, After(e, Empty(e), run).md[path])
  {
    if run != [] {
      var init, last := run[..|run| - 1], run[|run| - 1];
      var s := After(e, Empty(e), init);
      NextKeys(e, ns, s, last, path);
      NextSize(e, ns, s, last, path);
      if k < |run| {
        SinceInit(run, path, k, v);
        if path in s.md {
          SizeIs(e, ns, init, path, k, v);
          LargestSnoc(run, path, k, v, s.md[path]);
        } else {
          AbsentIsFresh(e, ns, init, path, k, v);
          assert forall i :: 0 <= i < |init| ==> init[i] == run[i];
        }
      }
    }
  }

  // ---- The bytes of a file ----

  predicate SetsByte(e: Env, ev: Event, path: string, p: nat) { ev.WriteTask? && Covers(e, ev.w, ev.id, path, p) }

  predicate ClearsByte(ev: Event, path: string, p: nat) {
    Removes(ev, path) || (ev.Truncate? && ev.path == path && ev.length <= p)
  }

  /** Byte p of path behind an event, if it was was before it. */
  function ByteBehind(e: Env, ev: Event, path: string, p: nat, was: byte): byte {
    if SetsByte(e, ev, path, p) then ev.w.data[p - ev.w.offset] else if ClearsByte(ev, path, p) then 0 else was
  }

  lemma TaskByte(e: Env, ns: Names, s: State, w: Write, id: nat, path: string, p: nat)
    requires AliasFree(ns) && Inv(e, ns, s) && w in s.started && RangeOf(e, w).Touches(id) && path in ns && Fits(e, p)
    ensures FlatAt(e, ApplyPiece(e, s.cl, w, id), path, p)
         == ByteBehind(e, WriteTask(w, id), path, p, FlatAt(e, s.cl, path, p))
  {
    assert Covered(e, ns, s, w) && Apart(path, w.path);
    Runs.TaskEffect(e, s.cl, Runs.Task(w, id), path, p);
  }

  /** A stored byte lies in a chunk file that reaches beyond it. */
  lemma {:induction false} StoredReaches(e: Env, cl: Cluster, path: string, p: nat)
    requires e.c > 0 && Fits(e, p) && Stored(e, cl, path, p)
    ensures var b, key := e.Home(path, Quot(p, e.c)), Quot(p, e.c);
      Keeps(cl, path, b, key) && p < End(e, cl, path, b, key)
  {
    QuotRem(p, e.c);
    FileOfByte(e, cl, path, p);
  }

  lemma TrimByte(e: Env, cl: Cluster, path: string, length: nat, ran: set<nat>, p: nat)
    requires e.Valid() && |cl| == e.Backends() && Fits(e, p) && Cuts(e, cl, path, length, ran)
    ensures FlatAt(e, TrimAll(e, cl, path, length, ran), path, p) == if length <= p then 0 else FlatAt(e, cl, path, p)
  {
    ByteAfterTrim(e, cl, path, length, ran, p);
    if length <= p && Stored(e, cl, path, p) {
      StoredReaches(e, cl, path, p);
      assert Clears(e, cl, path, length, ran, e.Home(path, Quot(p, e.c)), Quot(p, e.c));
    }
  }

  lemma {:induction false} DropByte(e: Env, cl: Cluster, path: string, ran: set<nat>, p: nat)
    requires e.Home(path, Quot(p, e.c)) < |cl|
    requires Stored(e, cl, path, p) ==> Reaches(e, ran, e.Home(path, Quot(p, e.c)))
    ensures FlatAt(e, DropAll(e, cl, path, ran), path, p) == 0
  {
  }

  lemma RemoveByte(e: Env, ns: Names, s: State, fwd: nat, mdHost: nat, path: string, p: nat)
    requires Inv(e, ns, s) && path in s.md && Fits(e, p)
    ensures FlatAt(e, DropAll(e, s.cl, path, RemoveHosts(e, fwd, mdHost, path, s.md[path])), path, p) == 0
  {
    var b, key := e.Home(path, Quot(p, e.c)), Quot(p, e.c);
    HomeExists(e, s.cl, path, key);
    if Stored(e, s.cl, path, p) {
      assert Bounded(e, ns, s, path);
      assert Sound(e, s, path, b, key);
      StoredReaches(e, s.cl, path, p);
      RemoveReaches(e, fwd, mdHost, path, s.md[path], key, Length(s.cl, path, b, key));
    }
    DropByte(e, s.cl, path, RemoveHosts(e, fwd, mdHost, path, s.md[path]), p);
  }

  lemma NextByte(e: Env, ns: Names, s: State, ev: Event, path: string, p: nat)
    requires AliasFree(ns) && Inv(e, ns, s) && Enabled(e, ns, s, ev) && path in ns && Fits(e, p)
    ensures FlatAt(e, Next(e, s, ev).cl, path, p) == ByteBehind(e, ev, path, p, FlatAt(e, s.cl, path, p))
  {
    match ev
    case Create(q) =>
    case GrowSize(w) =>
    case WriteTask(w, id) => TaskByte(e, ns, s, w, id, path, p);
    case Truncate(q, length, ran) =>
      assert Bounded(e, ns, s, q) && Apart(path, q);
      if q == path { TrimByte(e, s.cl, path, length, ran, p); } else { TrimKeepsOthers(e, s.cl, q, length, ran); }
    case Remove(fwd, mdHost, q) =>
      assert Bounded(e, ns, s, q) && Apart(path, q);
      if q == path {
        RemoveByte(e, ns, s, fwd, mdHost, path, p);
      } else {
        DropKeepsOthers(e, s.cl, q, RemoveHosts(e, fwd, mdHost, q, s.md[q]));
      }
  }

  /** The last event of a run that sets or clears byte p of path is the one before index k; 0 for none. */
  ghost predicate LastTouch(e: Env, run: seq<Event>, path: string, p: nat, k: nat) {
    && k <= |run| && (forall i :: k <= i < |run| ==> !SetsByte(e, run[i], path, p) && !ClearsByte(run[i], path, p))
    && (k > 0 ==> SetsByte(e, run[k - 1], path, p) || ClearsByte(run[k - 1], path, p))
  }

  lemma EmptyByte(e: Env, path: string, p: nat)
    ensures FlatAt(e, Empty(e).cl, path, p) == 0
  {
  }

  /** In every run, every byte of every file is the one of the last task that covers it, unless the file
      was removed or cut before that byte since, and 0 then and without such a task. */
  lemma {:induction false} ByteIs(e: Env, ns: Names, run: seq<Event>, path: string, p: nat, k: nat)
    requires e.Valid() && AliasFree(ns) && Possible(e, ns, Empty(e), run) && path in ns && Fits(e, p)
    requires LastTouch(e, run, path, p, k)
    ensures FlatAt(e, After(e, Empty(e), run).cl, path, p)
         == if k > 0 && SetsByte(e, run[k - 1], path, p) then run[k - 1].w.data[p - run[k - 1].w.offset] else 0
  {
    if run == [] {
      EmptyByte(e, path, p);
    } else {
      var init, last := run[..|run| - 1], run[|run| - 1];
      RunKeepsInv(e, ns, init);
      NextByte(e, ns, After(e, Empty(e), init), last, path, p);
      if k < |run| {
        assert forall i :: 0 <= i < |init| ==> init[i] == run[i];
        ByteIs(e, ns, init, path, p, k);
      }
    }
  }

  // ---- Which names ----

  /** Absolute paths without colons are such names. */
  lemma ColonFreeNames(ns: Names)
    requires forall p :: p in ns ==> IsAbsolute(p) && ColonFree(p)
    ensures AliasFree(ns)
  {
    forall p, q | p in ns && q in ns ensures Apart(p, q) {
      if ChunkDir(p) == ChunkDir(q) { ColonFreeInjective(p, q); }
    }
  }

  /** After one byte was written to p, q seems to have a chunk file but does not exist. */
  lemma AliasUnsound(e: Env, s: State, w: Write, q: string)
    requires e.Home(w.path, 0) < |s.cl| && q !in s.md && ChunkDir(q) == ChunkDir(w.path)
    ensures !Sound(e, Next(e, s, WriteTask(w, 0)), q, e.Home(w.path, 0), 0)
  {
  }

  /** A run that breaks the invariant for two names of one directory. */
  lemma AliasBreaks(e: Env, ns: Names, p: string, q: string) returns (run: seq<Event>)
    requires e.Valid() && p in ns && q in ns && IsAbsolute(p) && !Apart(p, q)
    ensures Possible(e, ns, Empty(e), run) && !Inv(e, ns, After(e, Empty(e), run))
  {
    var w := Write(p, 0, [0]);
    var created := [] + [Create(p)];
    var begun := created + [GrowSize(w)];
    BeginWrite(e, ns, w, created, begun);
    RunSnoc(e, ns, Empty(e), begun, WriteTask(w, 0));
    HomeExists(e, Empty(e).cl, p, 0);
    AliasUnsound(e, Begun(e, w), w, q);
    run := begun + [WriteTask(w, 0)];
  }

  /** For a set of absolute paths, all runs keep the invariant exactly when no two share a directory. */
  lemma {:induction false} InvIffAliasFree(e: Env, ns: Names)
    requires e.Valid() && forall p :: p in ns ==> IsAbsolute(p)
    ensures AliasFree(ns) <==> forall run :: Possible(e, ns, Empty(e), run) ==> Inv(e, ns, After(e, Empty(e), run))
  {
    if AliasFree(ns) {
      forall run | Possible(e, ns, Empty(e), run)
        ensures Inv(e, ns, After(e, Empty(e), run)) { RunKeepsInv(e, ns, run); }
    } else {
      var p, q :| p in ns && q in ns && !Apart(p, q);
      var run := AliasBreaks(e, ns, p, q);
    }
  }
}
