/** Truncation: forward_truncate on the client and rpc_srv_truncate on the daemons. */
module Truncate {
  import opened Arith
  import opened ChunkCalc
  import opened Layout
  import opened Placement
  import opened ChunkStorage
  import opened FlatFile
  import opened StripedIO
  import opened PlainFile

  // ---- The daemon ----

  /** truncate(2) on a chunk file: cut, or filled with zeros. */
  function Resize(chunk: seq<byte>, n: nat): seq<byte> { seq(n, i requires i >= 0 => ByteOr0(chunk, i)) }

  /** The chunk files with a number below bound. */
  function Below(chunks: Chunks, bound: nat): Chunks { map k | k in chunks && k < bound :: chunks[k] }

  /** Both the directory and, when the cut is inside a chunk, that chunk file have to be there. */
  predicate CanTrim(store: Store, dir: string, c: nat, length: nat) {
    dir in store && (Rem(length, c) == 0 || Quot(length, c) in store[dir])
  }

  /** A chunk directory cut pad bytes into chunk start. */
  function TrimDir(chunks: Chunks, start: nat, pad: nat): Chunks {
    if pad == 0 || start !in chunks then Below(chunks, start)
    else Below(chunks[start := Resize(chunks[start], pad)], start + 1)
  }

  /** A backend after the handler; one that throws has changed nothing. */
  function Trim(store: Store, dir: string, c: nat, length: nat): Store {
    if !CanTrim(store, dir, c, length) then store
    else store[dir := TrimDir(store[dir], Quot(length, c), Rem(length, c))]
  }

  /** trim_chunk_space: unlinks the files from chunkStart, going through the directory in some order. */
  method TrimChunkSpace(chunks0: Chunks, chunkStart: nat) returns (chunks: Chunks)
    ensures chunks == Below(chunks0, chunkStart)
  {
    chunks := chunks0;
    var files := chunks0.Keys;
    while files != {}
      invariant files <= chunks0.Keys
      invariant chunks == map k | k in chunks0 && (k in files || k < chunkStart) :: chunks0[k]
      decreases |files|
    {
      var id :| id in files;
      if id >= chunkStart { chunks := chunks - {id}; }
      files := files - {id};
    }
  }

  /** Cut inside a chunk, or not, and unlink the rest. */
  method TrimFiles(chunks0: Chunks, chunkStart0: nat, leftPad: nat) returns (chunks: Chunks)
    requires leftPad != 0 ==> chunkStart0 in chunks0
    ensures chunks == TrimDir(chunks0, chunkStart0, leftPad)
  {
    var chunkStart := chunkStart0;
    chunks := chunks0;
    if leftPad != 0 {
      chunks := chunks[chunkStart := Resize(chunks[chunkStart], leftPad)];
      chunkStart := chunkStart + 1;
    }
    chunks := TrimChunkSpace(chunks, chunkStart);
  }

  /** Chunk of an offset and place in it, as computed with shift and mask. */
  lemma {:induction false} ChunkOfOffset(offset: nat, c: nat)
    requires c > 0 && ChunkSize(c) && offset < OFFSET_LIMIT
    ensures IdForOffset(offset, c) == Quot(offset, c) && Lpad(offset, c) == Rem(offset, c)
  {
    QuotRemIsDivision(offset, c);
  }

  /** rpc_srv_truncate. */
  method SrvTruncate(e: Env, store0: Store, path: string, length: nat) returns (store: Store, ok: bool)
    requires e.c > 0 && ChunkSize(e.c) && length < OFFSET_LIMIT
    ensures ok <==> CanTrim(store0, ChunkDir(path), e.c, length)
    ensures store == Trim(store0, ChunkDir(path), e.c, length)
    ensures forall dir: string :: dir != ChunkDir(path) ==> DirOf(store, dir) == DirOf(store0, dir)
  {
    store := store0;
    var dir, chunkStart, leftPad := ChunkDir(path), IdForOffset(length, e.c), Lpad(length, e.c);
    ChunkOfOffset(length, e.c);
    if dir !in store { return store, false; }
    if leftPad != 0 && chunkStart !in store[dir] { return store, false; }
    var chunks := TrimFiles(store[dir], chunkStart, leftPad);
    store, ok := store[dir := chunks], true;
  }

  /** A chunk file after a successful handler. */
  function TrimmedChunk(chunk: seq<byte>, id: nat, c: nat, length: nat): seq<byte> {
    if id < Quot(length, c) then chunk
    else if id == Quot(length, c) then Resize(chunk, Rem(length, c))
    else []
  }

  lemma TrimChunk(store: Store, dir: string, c: nat, length: nat, id: nat)
    requires CanTrim(store, dir, c, length)
    ensures ChunkOf(Trim(store, dir, c, length), dir, id) == TrimmedChunk(ChunkOf(store, dir, id), id, c, length)
  {
  }

  // ---- The client ----

  /** The limits below which the 32-bit chunk numbers of both sides do not wrap. */
  ghost predicate Truncatable(e: Env, cl: Cluster, path: string, current: nat, length: nat) {
    && e.Valid() && |cl| == e.Backends() && IsAbsolute(path)
    && length < current < OFFSET_LIMIT && current <= Times(e.c, KEYS - 1)
  }

  /** The targets of the chunks in [lo, hi). */
  function Targets(e: Env, fwd: nat, path: string, lo: nat, hi: nat): set<nat>
    decreases hi
  {
    if hi <= lo then {} else Targets(e, fwd, path, lo, hi - 1) + {e.ClientLoc(fwd, path, hi - 1)}
  }

  lemma {:induction false} TargetOf(e: Env, fwd: nat, path: string, lo: nat, hi: nat, h: nat)
    ensures h in Targets(e, fwd, path, lo, hi) <==> exists id: nat :: lo <= id < hi && e.ClientLoc(fwd, path, id) == h
    decreases hi
  {
    if lo < hi { TargetOf(e, fwd, path, lo, hi - 1, h); }
  }

  /** The hosts that forward_truncate contacts. The upper end is the chunk of current - length - 1. */
  function Contacted(e: Env, fwd: nat, path: string, current: nat, length: nat): set<nat> {
    if current <= length then {}
    else Targets(e, fwd, path, Quot(length, e.c), Quot(current - length - 1, e.c) + 1)
  }

  /** Backend b belongs to a host in ran. */
  predicate Reaches(e: Env, ran: set<nat>, b: nat) { if e.forwarding then ran != {} else b in ran }

  /** The cluster after the daemons in ran have handled the request. */
  function TrimAll(e: Env, cl: Cluster, path: string, length: nat, ran: set<nat>): Cluster {
    seq(|cl|, b requires 0 <= b < |cl| =>
      if Reaches(e, ran, b) then Trim(cl[b], ChunkDir(path), e.c, length) else cl[b])
  }

  /** Host h can carry the request out. */
  predicate HostCan(e: Env, cl: Cluster, path: string, length: nat, h: nat) {
    CanTrim(StoreAt(cl, e.Backend(h)), ChunkDir(path), e.c, length)
  }

  /** Those of the hosts asked whose daemon handled the request. */
  function Handlers(posted: set<nat>, outcome: nat -> Rpc): set<nat> { set h | h in posted && outcome(h).Ran? }

  lemma HandlersMore(posted: set<nat>, outcome: nat -> Rpc, h: nat)
    ensures Handlers(posted + {h}, outcome)
         == if outcome(h).Ran? then Handlers(posted, outcome) + {h} else Handlers(posted, outcome)
  {
  }

  lemma TrimOneMore(e: Env, cl: Cluster, path: string, length: nat, ran: set<nat>, h: nat)
    requires |cl| == e.Backends() && e.Backend(h) < |cl| && h !in ran && (e.forwarding ==> ran == {})
    ensures var mid, b := TrimAll(e, cl, path, length, ran), e.Backend(h);
      && mid[b] == cl[b]
      && TrimAll(e, cl, path, length, ran + {h}) == mid[b := Trim(cl[b], ChunkDir(path), e.c, length)]
  {
  }

  /** The loop over chunk ids. */
  method TargetsOf(e: Env, fwd: nat, path: string, chunkStart: nat, chunkEnd: nat) returns (hosts: set<nat>)
    ensures hosts == Targets(e, fwd, path, chunkStart, chunkEnd + 1)
  {
    hosts := {};
    var chunkId := chunkStart;
    while chunkId <= chunkEnd
      invariant chunkStart <= chunkId && (chunkId <= chunkEnd + 1 || chunkId == chunkStart)
      invariant hosts == Targets(e, fwd, path, chunkStart, chunkId)
      decreases chunkEnd + 1 - chunkId
    {
      hosts := hosts + {e.ClientLoc(fwd, path, chunkId)};
      chunkId := chunkId + 1;
    }
  }

  /** The hosts that forward_truncate will ask. */
  method CollectHosts(e: Env, fwd: nat, path: string, current: nat, length: nat) returns (hosts: set<nat>)
    requires e.Valid() && length < current < OFFSET_LIMIT
    ensures hosts == Contacted(e, fwd, path, current, length)
  {
    var chunkStart, chunkEnd := IdForOffset(length, e.c), IdForOffset(current - length - 1, e.c);
    ChunkOfOffset(length, e.c);
    ChunkOfOffset(current - length - 1, e.c);
    hosts := TargetsOf(e, fwd, path, chunkStart, chunkEnd);
  }

  /** Host h answers and carries the request out. */
  predicate Does(e: Env, cl: Cluster, path: string, length: nat, outcome: nat -> Rpc, h: nat) {
    outcome(h).Answers() && HostCan(e, cl, path, length, h)
  }

  ghost predicate AllDone(e: Env, cl: Cluster, path: string, length: nat, outcome: nat -> Rpc, hosts: set<nat>) {
    forall h :: h in hosts ==> Does(e, cl, path, length, outcome, h)
  }

  /** One posted truncate. */
  method PostTruncate(e: Env, cl: Cluster, path: string, length: nat, outcome: nat -> Rpc, h: nat,
                      ghost cl0: Cluster, ghost posted: set<nat>)
    returns (cl': Cluster, done: bool)
    requires e.Valid() && |cl0| == e.Backends() && length < OFFSET_LIMIT
    requires e.Backend(h) < |cl0| && h !in posted && (e.forwarding ==> posted == {})
    requires cl == TrimAll(e, cl0, path, length, Handlers(posted, outcome))
    ensures cl' == TrimAll(e, cl0, path, length, Handlers(posted + {h}, outcome))
    ensures done <==> Does(e, cl0, path, length, outcome, h)
  {
    cl', done := cl, false;
    HandlersMore(posted, outcome, h);
    if outcome(h).Ran? {
      TrimOneMore(e, cl0, path, length, Handlers(posted, outcome), h);
      var store, ok := SrvTruncate(e, cl[e.Backend(h)], path, length);
      cl', done := cl[e.Backend(h) := store], ok && outcome(h).answered;
    }
  }

  /** The hosts that got their request: all of them, unless one cannot be reached. */
  ghost predicate AskedOf(hosts: set<nat>, outcome: nat -> Rpc, posted: set<nat>) {
    && (forall h :: h in posted ==> h in hosts && !outcome(h).Unsendable?)
    && (posted == hosts || exists h :: h in hosts && outcome(h).Unsendable?)
  }

  /** State of the posting loop: the hosts asked so far, those left, and whether one has not carried it out. */
  ghost predicate Asking(e: Env, cl: Cluster, path: string, length: nat, outcome: nat -> Rpc, hosts: set<nat>,
                         left: set<nat>, posted: set<nat>, error: bool)
  {
    && left <= hosts && posted == hosts - left
    && (forall h :: h in posted ==> !outcome(h).Unsendable?)
    && (error <==> !AllDone(e, cl, path, length, outcome, posted))
  }

  lemma AskingStep(e: Env, cl: Cluster, path: string, length: nat, outcome: nat -> Rpc, hosts: set<nat>,
                   left: set<nat>, posted: set<nat>, error: bool, h: nat)
    requires Asking(e, cl, path, length, outcome, hosts, left, posted, error) && h in left && !outcome(h).Unsendable?
    ensures Asking(e, cl, path, length, outcome, hosts, left - {h}, posted + {h},
                   error || !Does(e, cl, path, length, outcome, h))
  {
    assert posted + {h} == hosts - (left - {h});
    if AllDone(e, cl, path, length, outcome, posted + {h}) {
      assert forall k :: k in posted ==> k in posted + {h};
      assert h in posted + {h};
    }
  }

  lemma AskingEnds(e: Env, cl: Cluster, path: string, length: nat, outcome: nat -> Rpc, hosts: set<nat>,
                   left: set<nat>, posted: set<nat>, error: bool)
    requires Asking(e, cl, path, length, outcome, hosts, left, posted, error)
    ensures left == {} ==> AskedOf(hosts, outcome, posted) && (error <==> !AllDone(e, cl, path, length, outcome, hosts))
    ensures forall h :: h in left && outcome(h).Unsendable? ==>
      AskedOf(hosts, outcome, posted) && !AllDone(e, cl, path, length, outcome, hosts)
  {
    if left == {} { assert posted == hosts; }
    forall h | h in left && outcome(h).Unsendable?
      ensures AskedOf(hosts, outcome, posted) && !AllDone(e, cl, path, length, outcome, hosts)
    {
      assert h in hosts && !Does(e, cl, path, length, outcome, h);
    }
  }

  /** Posting and collecting; the hosts come in any order, and the first that cannot be reached ends the call. */
  method PostTruncates(e: Env, fwd: nat, cl: Cluster, path: string, length: nat, outcome: nat -> Rpc, hosts: set<nat>)
    returns (ret: int, cl': Cluster, posted: set<nat>)
    requires e.Valid() && |cl| == e.Backends() && length < OFFSET_LIMIT
    requires forall h :: h in hosts ==> e.Backend(h) < |cl|
    requires e.forwarding ==> forall h :: h in hosts ==> h == fwd
    ensures cl' == TrimAll(e, cl, path, length, Handlers(posted, outcome)) && AskedOf(hosts, outcome, posted)
    ensures ret == if AllDone(e, cl, path, length, outcome, hosts) then 0 else -1
  {
    posted, cl' := {}, cl;
    var left, error := hosts, false;
    assert TrimAll(e, cl, path, length, {}) == cl;
    while left != {}
      invariant Asking(e, cl, path, length, outcome, hosts, left, posted, error)
      invariant cl' == TrimAll(e, cl, path, length, Handlers(posted, outcome))
      decreases |left|
    {
      var h :| h in left;
      AskingEnds(e, cl, path, length, outcome, hosts, left, posted, error);
      if outcome(h).Unsendable? { return -1, cl', posted; }
      AskingStep(e, cl, path, length, outcome, hosts, left, posted, error, h);
      var done;
      cl', done := PostTruncate(e, cl', path, length, outcome, h, cl, posted);
      posted, left, error := posted + {h}, left - {h}, error || !done;
    }
    AskingEnds(e, cl, path, length, outcome, hosts, left, posted, error);
    ret := if error then -1 else 0;
  }

  /** If the call succeeds, every host has handled the request. */
  lemma AllHandled(e: Env, cl: Cluster, path: string, length: nat, outcome: nat -> Rpc, hosts: set<nat>,
                   posted: set<nat>)
    requires AskedOf(hosts, outcome, posted) && AllDone(e, cl, path, length, outcome, hosts)
    ensures Handlers(posted, outcome) == hosts
  {
    forall h | h in hosts ensures outcome(h).Ran? {
      assert Does(e, cl, path, length, outcome, h);
    }
  }

  /** Every contacted host is a host; in forwarding mode it is the client's forwarder. */
  lemma ContactedHosts(e: Env, fwd: nat, path: string, current: nat, length: nat)
    requires e.Valid()
    ensures forall h :: h in Contacted(e, fwd, path, current, length) ==> e.Backend(h) < e.Backends()
    ensures e.forwarding ==> forall h :: h in Contacted(e, fwd, path, current, length) ==> h == fwd
  {
    forall h | h in Contacted(e, fwd, path, current, length)
      ensures e.Backend(h) < e.Backends() && (e.forwarding ==> h == fwd)
    {
      TargetOf(e, fwd, path, Quot(length, e.c), Quot(current - length - 1, e.c) + 1, h);
    }
  }

  /** forward_truncate: the backends of the hosts that got and handled the request are trimmed and no
      other is touched; every contacted host gets it unless one cannot be reached; the call succeeds
      exactly when every contacted host answered and could carry the request out. */
  method ForwardTruncate(e: Env, fwd: nat, cl: Cluster, path: string, current: nat, length: nat, outcome: nat -> Rpc)
    returns (ret: int, cl': Cluster, posted: set<nat>)
    requires Truncatable(e, cl, path, current, length)
    ensures cl' == TrimAll(e, cl, path, length, Handlers(posted, outcome))
    ensures AskedOf(Contacted(e, fwd, path, current, length), outcome, posted) && OthersKept(e, cl, cl', path)
    ensures ret == if AllDone(e, cl, path, length, outcome, Contacted(e, fwd, path, current, length)) then 0 else -1
    ensures ret == 0 ==> Handlers(posted, outcome) == Contacted(e, fwd, path, current, length)
  {
    ContactedHosts(e, fwd, path, current, length);
    var hosts := CollectHosts(e, fwd, path, current, length);
    ret, cl', posted := PostTruncates(e, fwd, cl, path, length, outcome, hosts);
    TrimKeepsOthers(e, cl, path, length, Handlers(posted, outcome));
    if ret == 0 { AllHandled(e, cl, path, length, outcome, hosts, posted); }
  }

  // ---- What a truncation does to the file ----

  /** Byte p after its chunk was trimmed. */
  lemma {:induction false} TrimmedByte(chunk: seq<byte>, c: nat, length: nat, p: nat)
    requires c > 0
    ensures var after := TrimmedChunk(chunk, Quot(p, c), c, length);
      && ByteOr0(after, Rem(p, c)) == (if p < length then ByteOr0(chunk, Rem(p, c)) else 0)
      && (Rem(p, c) < |after| <==> p < length && (Rem(p, c) < |chunk| || Quot(p, c) == Quot(length, c)))
  {
    QuotRem(p, c);
    QuotRem(length, c);
    if Quot(p, c) < Quot(length, c) { TimesMonotone(c, Quot(p, c), Quot(length, c)); }
    if Quot(length, c) < Quot(p, c) { TimesMonotone(c, Quot(length, c), Quot(p, c)); }
  }

  /** A truncation leaves the other files alone. */
  lemma TrimKeepsOthers(e: Env, cl: Cluster, path: string, length: nat, ran: set<nat>)
    ensures OthersKept(e, cl, TrimAll(e, cl, path, length, ran), path)
  {
    SameChunks(e, cl, TrimAll(e, cl, path, length, ran), path);
  }

  /** The backend of chunk id was trimmed. */
  predicate Cut(e: Env, cl: Cluster, path: string, length: nat, ran: set<nat>, id: nat) {
    && Reaches(e, ran, e.Home(path, id))
    && CanTrim(StoreAt(cl, e.Home(path, id)), ChunkDir(path), e.c, length)
  }

  lemma ChunkAfterTrim(e: Env, cl: Cluster, path: string, length: nat, ran: set<nat>, id: nat)
    requires e.Home(path, id) < |cl| && id < KEYS
    ensures Chunk(e, TrimAll(e, cl, path, length, ran), path, id)
         == if Cut(e, cl, path, length, ran, id) then TrimmedChunk(Chunk(e, cl, path, id), id, e.c, length)
            else Chunk(e, cl, path, id)
  {
    if Cut(e, cl, path, length, ran, id) {
      TrimChunk(cl[e.Home(path, id)], ChunkDir(path), e.c, length, id);
    }
  }

  /** Every byte of the file after any truncation, complete or not. */
  lemma {:induction false} ByteAfterTrim(e: Env, cl: Cluster, path: string, length: nat, ran: set<nat>, p: nat)
    requires e.Valid() && |cl| == e.Backends() && Fits(e, p)
    ensures var cl', cut := TrimAll(e, cl, path, length, ran), Cut(e, cl, path, length, ran, Quot(p, e.c));
      && FlatAt(e, cl', path, p) == (if cut && p >= length then 0 else FlatAt(e, cl, path, p))
      && (Stored(e, cl', path, p)
          <==> if cut then p < length && (Stored(e, cl, path, p) || Quot(p, e.c) == Quot(length, e.c))
               else Stored(e, cl, path, p))
  {
    HomeExists(e, cl, path, Quot(p, e.c));
    ChunkAfterTrim(e, cl, path, length, ran, Quot(p, e.c));
    TrimmedByte(Chunk(e, cl, path, Quot(p, e.c)), e.c, length, p);
  }

  /** Chunk id holds bytes of [length, current). */
  predicate Doomed(e: Env, current: nat, length: nat, id: nat) {
    length < current && Quot(length, e.c) <= id <= Quot(current - 1, e.c)
  }

  /** A byte to be removed in a doomed chunk. */
  lemma DoomedByte(e: Env, current: nat, length: nat, id: nat) returns (p: nat)
    requires e.c > 0 && Doomed(e, current, length, id)
    ensures length <= p < current && Quot(p, e.c) == id
  {
    p := Max(length, Times(e.c, id));
    QuotRem(length, e.c);
    QuotRem(current - 1, e.c);
    if id > Quot(length, e.c) { TimesMonotone(e.c, Quot(length, e.c), id); }
    if id < Quot(current - 1, e.c) { TimesMonotone(e.c, id, Quot(current - 1, e.c)); }
    QuotUnique(p, e.c, id);
  }

  /** Truncation refines truncation of the plain file exactly when every doomed chunk is cut. */
  lemma TruncateRefines(e: Env, cl: Cluster, path: string, length: nat, ran: set<nat>, file: seq<byte>)
    requires Truncatable(e, cl, path, |file|, length) && Represents(e, cl, path, file)
    ensures Represents(e, TrimAll(e, cl, path, length, ran), path, file[..length])
       <==> forall id: nat :: Doomed(e, |file|, length, id) ==> Cut(e, cl, path, length, ran, id)
  {
    var cl' := TrimAll(e, cl, path, length, ran);
    if id: nat :| Doomed(e, |file|, length, id) && !Cut(e, cl, path, length, ran, id) {
      var p := DoomedByte(e, |file|, length, id);
      QuotBelow(p, e.c, KEYS - 1);
      ByteAfterTrim(e, cl, path, length, ran, p);
    } else {
      forall p: nat | Fits(e, p)
        ensures FlatAt(e, cl', path, p) == ByteOr0(file[..length], p)
        ensures Stored(e, cl', path, p) <==> p < |file[..length]|
      {
        ByteAfterTrim(e, cl, path, length, ran, p);
        if length <= p < |file| {
          QuotMonotone(length, p, e.c);
          QuotMonotone(p, |file| - 1, e.c);
        }
      }
    }
  }

  // ---- Which chunks the contacted hosts cover ----

  /** Subtracting length keeps x in its chunk exactly when length is at most x's place in the chunk. */
  lemma {:induction false} SameChunkBack(x: nat, length: nat, c: nat)
    requires c > 0 && length <= x
    ensures Quot(x - length, c) == Quot(x, c) <==> length <= Rem(x, c)
    decreases x
  {
    if x >= c {
      if length <= x - c {
        SameChunkBack(x - c, length, c);
      } else {
        QuotRem(x - c, c);
      }
    }
  }

  /** The contacted id range reaches the last chunk exactly when the new length is at most the place of
      the last byte in its chunk: always for 0, never for a length of a chunk or more. */
  lemma RangeReaches(e: Env, current: nat, length: nat)
    requires e.c > 0 && length < current
    ensures (forall id: nat :: Doomed(e, current, length, id) ==> id <= Quot(current - length - 1, e.c))
       <==> length <= Rem(current - 1, e.c)
  {
    var last := Quot(current - 1, e.c);
    SameChunkBack(current - 1, length, e.c);
    QuotMonotone(current - 1 - length, current - 1, e.c);
    QuotMonotone(length, current - 1, e.c);
    assert Doomed(e, current, length, last);
  }

  /** Then, whatever the placement, the host of every doomed chunk is contacted. */
  lemma {:induction false} AllContacted(e: Env, fwd: nat, path: string, current: nat, length: nat, id: nat)
    requires e.Valid() && Doomed(e, current, length, id) && length <= Rem(current - 1, e.c)
    ensures Reaches(e, Contacted(e, fwd, path, current, length), e.Home(path, id))
  {
    RangeReaches(e, current, length);
    TargetOf(e, fwd, path, Quot(length, e.c), Quot(current - length - 1, e.c) + 1, e.ClientLoc(fwd, path, id));
  }

  /** Two hosts: the chunks up to id on the first, the others on the second. */
  function SplitAt(id: nat): (string, nat) -> nat { (path: string, n: nat) => if n <= id then 0 else 1 }

  /** Otherwise there is a placement in which the host of the last chunk is not contacted. */
  lemma LastMissed(c: nat, path: string, current: nat, length: nat)
    requires c > 0 && ChunkSize(c) && length < current && length > Rem(current - 1, c)
    ensures var e := Env(c, 2, false, SplitAt(Quot(current - length - 1, c)));
      && e.Valid() && Doomed(e, current, length, Quot(current - 1, c))
      && !Reaches(e, Contacted(e, 0, path, current, length), e.Home(path, Quot(current - 1, c)))
  {
    var e := Env(c, 2, false, SplitAt(Quot(current - length - 1, c)));
    SameChunkBack(current - 1, length, c);
    QuotMonotone(current - 1 - length, current - 1, c);
    QuotMonotone(length, current - 1, c);
    TargetOf(e, 0, path, Quot(length, c), Quot(current - length - 1, c) + 1, 1);
  }

  // ---- When the daemons can carry it out ----

  predicate AtHome(e: Env, cl: Cluster, path: string, b: nat, key: nat) {
    key in DirOf(StoreAt(cl, b), ChunkDir(path)) ==> key < KEYS && e.Home(path, key) == b
  }

  /** Chunk files of path lie on their own backend only, under 32-bit numbers. */
  ghost predicate Placed(e: Env, cl: Cluster, path: string) {
    forall b: nat, key: nat :: AtHome(e, cl, path, b, key)
  }

  /** A chunk that has a stored byte has a file. */
  lemma {:induction false} FileOfByte(e: Env, cl: Cluster, path: string, p: nat)
    requires Fits(e, p) && Stored(e, cl, path, p)
    ensures var store := StoreAt(cl, e.Home(path, Quot(p, e.c)));
      ChunkDir(path) in store && Quot(p, e.c) in store[ChunkDir(path)]
  {
  }

  /** Every chunk of a plain file has a file. */
  lemma {:induction false} FileOfChunk(e: Env, cl: Cluster, path: string, file: seq<byte>, id: nat)
    requires e.c > 0 && Represents(e, cl, path, file) && 0 < |file| <= Times(e.c, KEYS - 1)
      && id <= Quot(|file| - 1, e.c)
    ensures var store := StoreAt(cl, e.Home(path, id));
      ChunkDir(path) in store && id in store[ChunkDir(path)]
  {
    var p := DoomedByte(e, |file|, 0, id);
    QuotBelow(p, e.c, KEYS - 1);
    FileOfByte(e, cl, path, p);
  }

  lemma TargetCan(e: Env, fwd: nat, cl: Cluster, path: string, file: seq<byte>, length: nat, id: nat)
    requires Truncatable(e, cl, path, |file|, length) && Represents(e, cl, path, file) && Placed(e, cl, path)
    requires id <= Quot(|file| - 1, e.c)
    ensures HostCan(e, cl, path, length, e.ClientLoc(fwd, path, id))
       <==> Rem(length, e.c) == 0 || e.Home(path, id) == e.Home(path, Quot(length, e.c))
  {
    var start := Quot(length, e.c);
    HomeExists(e, cl, path, id);
    FileOfChunk(e, cl, path, file, id);
    QuotMonotone(length, |file| - 1, e.c);
    FileOfChunk(e, cl, path, file, start);
    assert AtHome(e, cl, path, e.Home(path, id), start);
    assert e.Backend(e.ClientLoc(fwd, path, id)) == e.Home(path, id);
  }

  /** On an intact file with all RPCs answered, truncation succeeds exactly when the cut is on a chunk
      boundary or all contacted chunks live with the chunk that is cut. */
  lemma TruncateSucceeds(e: Env, fwd: nat, cl: Cluster, path: string, file: seq<byte>, length: nat, outcome: nat -> Rpc)
    requires Truncatable(e, cl, path, |file|, length) && Represents(e, cl, path, file) && Placed(e, cl, path)
    requires forall h :: h in Contacted(e, fwd, path, |file|, length) ==> outcome(h).Answers()
    ensures AllDone(e, cl, path, length, outcome, Contacted(e, fwd, path, |file|, length))
       <==> || Rem(length, e.c) == 0
            || forall id: nat :: Quot(length, e.c) <= id <= Quot(|file| - length - 1, e.c) ==>
                 e.Home(path, id) == e.Home(path, Quot(length, e.c))
  {
    var lo, hi, hosts := Quot(length, e.c), Quot(|file| - length - 1, e.c) + 1, Contacted(e, fwd, path, |file|, length);
    QuotMonotone(|file| - length - 1, |file| - 1, e.c);
    forall id: nat | lo <= id < hi
      ensures e.ClientLoc(fwd, path, id) in hosts
      ensures HostCan(e, cl, path, length, e.ClientLoc(fwd, path, id))
         <==> Rem(length, e.c) == 0 || e.Home(path, id) == e.Home(path, lo)
    {
      TargetOf(e, fwd, path, lo, hi, e.ClientLoc(fwd, path, id));
      TargetCan(e, fwd, cl, path, file, length, id);
    }
    forall h | h in hosts ensures exists id: nat :: lo <= id < hi && e.ClientLoc(fwd, path, id) == h {
      TargetOf(e, fwd, path, lo, hi, h);
    }
  }

  /** O_TRUNC on an intact file: it succeeds and leaves the empty file. */
  lemma TruncateToZero(e: Env, fwd: nat, cl: Cluster, path: string, file: seq<byte>, outcome: nat -> Rpc)
    requires Truncatable(e, cl, path, |file|, 0) && Represents(e, cl, path, file) && Placed(e, cl, path)
    requires forall h :: h in Contacted(e, fwd, path, |file|, 0) ==> outcome(h).Answers()
    ensures AllDone(e, cl, path, 0, outcome, Contacted(e, fwd, path, |file|, 0))
    ensures Represents(e, TrimAll(e, cl, path, 0, Contacted(e, fwd, path, |file|, 0)), path, [])
  {
    var ran := Contacted(e, fwd, path, |file|, 0);
    TruncateSucceeds(e, fwd, cl, path, file, 0, outcome);
    forall id: nat | Doomed(e, |file|, 0, id) ensures Cut(e, cl, path, 0, ran, id) {
      AllContacted(e, fwd, path, |file|, 0, id);
      TargetCan(e, fwd, cl, path, file, 0, id);
    }
    TruncateRefines(e, cl, path, 0, ran, file);
    assert file[..0] == [];
  }
}
