/** forward_write end to end: client plan, one RPC per target, daemon loops, and the sum of the
    answers, against the flat file. */
module StripedIO {
  import opened Arith
  import opened ChunkCalc
  import opened Layout
  import opened Placement
  import opened ChunkStorage
  import opened FlatFile
  import opened Runs
  import opened SrvData
  import opened ForwardData

  // ---- Sums over chunks, split by target ----

  function At(f: map<nat, nat>, id: nat): nat { if id in f then f[id] else 0 }

  /** Sum of f over [lo, hi). */
  function Sum(f: map<nat, nat>, lo: nat, hi: nat): nat
    decreases hi
  {
    if hi <= lo then 0 else Sum(f, lo, hi - 1) + At(f, hi - 1)
  }

  /** Sum of f over the chunks of [lo, hi) that daemon h serves. */
  function Part(e: Env, h: nat, path: string, f: map<nat, nat>, lo: nat, hi: nat): nat
    decreases hi
  {
    if hi <= lo then 0
    else if e.Serves(h, path, hi - 1) then Part(e, h, path, f, lo, hi - 1) + At(f, hi - 1)
    else Part(e, h, path, f, lo, hi - 1)
  }

  /** total grows by f at the chunks that h serves. */
  predicate PartGrows(e: Env, h: nat, path: string, f: map<nat, nat>, total: map<nat, nat>, id: nat) {
    At(total, id + 1) == At(total, id) + if e.Serves(h, path, id) then At(f, id) else 0
  }

  lemma {:induction false} PartTelescopes(e: Env, h: nat, path: string, f: map<nat, nat>, total: map<nat, nat>,
                                          lo: nat, hi: nat)
    requires lo <= hi && At(total, lo) == 0 && forall id: nat :: lo <= id < hi ==> PartGrows(e, h, path, f, total, id)
    ensures Part(e, h, path, f, lo, hi) == At(total, hi)
    decreases hi
  {
    if lo < hi {
      PartTelescopes(e, h, path, f, total, lo, hi - 1);
      assert PartGrows(e, h, path, f, total, hi - 1);
    }
  }

  function SumParts(e: Env, path: string, f: map<nat, nat>, hs: seq<nat>, lo: nat, hi: nat): nat {
    if hs == [] then 0
    else SumParts(e, path, f, hs[..|hs| - 1], lo, hi) + Part(e, hs[|hs| - 1], path, f, lo, hi)
  }

  /** How often chunk id is served by the listed daemons. */
  function ServedBy(e: Env, path: string, hs: seq<nat>, id: nat): nat {
    if hs == [] then 0
    else ServedBy(e, path, hs[..|hs| - 1], id) + if e.Serves(hs[|hs| - 1], path, id) then 1 else 0
  }

  lemma {:induction false} PartsStep(e: Env, path: string, f: map<nat, nat>, hs: seq<nat>, lo: nat, hi: nat)
    requires lo <= hi
    ensures SumParts(e, path, f, hs, lo, hi + 1)
         == SumParts(e, path, f, hs, lo, hi) + Times(At(f, hi), ServedBy(e, path, hs, hi))
  {
    if hs != [] { PartsStep(e, path, f, hs[..|hs| - 1], lo, hi); }
  }

  lemma {:induction false} NoParts(e: Env, path: string, f: map<nat, nat>, hs: seq<nat>, lo: nat)
    ensures SumParts(e, path, f, hs, lo, lo) == 0
  {
    if hs != [] { NoParts(e, path, f, hs[..|hs| - 1], lo); }
  }

  /** When every chunk is served exactly once, the parts add up to the whole. */
  lemma {:induction false} PartsAddUp(e: Env, path: string, f: map<nat, nat>, hs: seq<nat>, lo: nat, hi: nat)
    requires lo <= hi && forall id: nat :: lo <= id < hi ==> ServedBy(e, path, hs, id) == 1
    ensures SumParts(e, path, f, hs, lo, hi) == Sum(f, lo, hi)
    decreases hi
  {
    if lo == hi {
      NoParts(e, path, f, hs, lo);
    } else {
      PartsAddUp(e, path, f, hs, lo, hi - 1);
      PartsStep(e, path, f, hs, lo, hi - 1);
      assert Times(At(f, hi - 1), 1) == Times(At(f, hi - 1), 0) + At(f, hi - 1);
    }
  }

  /** No listed daemon but the target itself serves the chunk. */
  lemma {:induction false} ServedByTarget(e: Env, fwd: nat, path: string, hs: seq<nat>, id: nat)
    requires e.forwarding ==> forall i :: 0 <= i < |hs| ==> hs[i] == fwd
    requires Distinct(hs)
    ensures ServedBy(e, path, hs, id) == if e.ClientLoc(fwd, path, id) in hs then 1 else 0
  {
    if hs != [] {
      var init, h := hs[..|hs| - 1], hs[|hs| - 1];
      ServedByTarget(e, fwd, path, init, id);
      TargetServes(e, fwd, path, id, h);
      assert hs == init + [h];
    }
  }

  /** f gives the piece sizes of r. */
  ghost predicate Sizes(r: Range, f: map<nat, nat>) {
    forall id :: r.Touches(id) ==> id in f && f[id] == r.PieceAt(id).size
  }

  function SizeMap(r: Range): map<nat, nat> {
    map id: nat | r.First() <= id <= r.Last() :: r.PieceAt(id).size
  }

  lemma {:induction false} ShareIsPart(s: Share, f: map<nat, nat>, hi: nat)
    requires s.r.NonEmpty() && hi <= s.r.Last() + 1 && Sizes(s.r, f)
    ensures s.Size(hi) == Part(s.e, s.h, s.path, f, s.r.First(), hi)
  {
    if hi > s.r.First() {
      ShareIsPart(s, f, hi - 1);
      assert s.r.Touches(hi - 1);
    }
  }

  /** total grows by f at id. */
  predicate Grows(f: map<nat, nat>, total: map<nat, nat>, id: nat) { At(total, id + 1) == At(total, id) + At(f, id) }

  lemma {:induction false} SumTelescopes(f: map<nat, nat>, total: map<nat, nat>, lo: nat, hi: nat)
    requires lo <= hi && At(total, lo) == 0 && forall id: nat :: lo <= id < hi ==> Grows(f, total, id)
    ensures Sum(f, lo, hi) == At(total, hi)
    decreases hi
  {
    if lo < hi {
      SumTelescopes(f, total, lo, hi - 1);
      assert Grows(f, total, hi - 1);
    }
  }

  /** Byte counts before each chunk of the range. */
  function BeforeMap(r: Range): map<nat, nat> { map id: nat | r.First() <= id <= r.Last() + 1 :: Before(r, id) }

  lemma TileGrows(r: Range, f: map<nat, nat>, id: nat)
    requires r.Touches(id) && Sizes(r, f)
    ensures Grows(f, BeforeMap(r), id)
  {
    TileStep(r, id);
    assert At(f, id) == r.PieceAt(id).size;
  }

  /** The pieces tile the range: together they have its size. */
  lemma {:induction false} PiecesTile(r: Range, f: map<nat, nat>)
    requires r.NonEmpty() && Sizes(r, f)
    ensures Sum(f, r.First(), r.Last() + 1) == r.size
  {
    FirstLastTouched(r);
    forall id: nat | r.First() <= id < r.Last() + 1 ensures Grows(f, BeforeMap(r), id) { TileGrows(r, f, id); }
    SumTelescopes(f, BeforeMap(r), r.First(), r.Last() + 1);
    BeforeEnd(r);
  }

  /** Every chunk is served by exactly one target of the plan. */
  lemma {:induction false} PlanServesOnce(e: Env, fwd: nat, path: string, lo: nat, hi: nat,
                       targets: seq<nat>, targetChnks: map<nat, seq<nat>>)
    requires Planned(e, fwd, path, lo, hi, targets, targetChnks)
    ensures forall id: nat :: lo <= id < hi ==> ServedBy(e, path, targets, id) == 1
  {
    forall id: nat | lo <= id < hi ensures ServedBy(e, path, targets, id) == 1 {
      ServedByTarget(e, fwd, path, targets, id);
    }
  }

  /** The client's plan for range r. */
  ghost predicate PlanFor(e: Env, fwd: nat, path: string, r: Range, targets: seq<nat>, targetChnks: map<nat,
                          seq<nat>>) {
    Planned(e, fwd, path, r.First(), r.Last() + 1, targets, targetChnks)
  }

  /** What a plan's targets have of any numbers per chunk adds up. */
  lemma PlanAddsUp(e: Env, fwd: nat, path: string, r: Range, targets: seq<nat>, targetChnks: map<nat, seq<nat>>,
                   f: map<nat, nat>)
    requires r.NonEmpty() && PlanFor(e, fwd, path, r, targets, targetChnks)
    ensures SumParts(e, path, f, targets, r.First(), r.Last() + 1) == Sum(f, r.First(), r.Last() + 1)
  {
    FirstLastTouched(r);
    PlanServesOnce(e, fwd, path, r.First(), r.Last() + 1, targets, targetChnks);
    PartsAddUp(e, path, f, targets, r.First(), r.Last() + 1);
  }

  /** The client's per-host totals add up to the number of bytes of the range. */
  lemma {:induction false} TotalsAddUp(e: Env, fwd: nat, path: string, r: Range, f: map<nat, nat>,
                    targets: seq<nat>, targetChnks: map<nat, seq<nat>>)
    requires r.NonEmpty() && Sizes(r, f) && PlanFor(e, fwd, path, r, targets, targetChnks)
    ensures SumParts(e, path, f, targets, r.First(), r.Last() + 1) == r.size
  {
    PlanAddsUp(e, fwd, path, r, targets, targetChnks, f);
    PiecesTile(r, f);
  }

  // ---- The run behind a forward_write ----

  /** What becomes of one RPC: it cannot be posted, it is lost before its daemon sees it, or the daemon
      handles it, with a fault or without, and then the answer arrives or not. */
  datatype Rpc = Unsendable | Lost | Ran(answered: bool, fault: Fault) {

    predicate Writes(id: nat) { Ran? && fault.Writes(id) }

    predicate Reads(id: nat) { Ran? && id < fault.stop }

    predicate Answers() { Ran? && answered }
  }

  /** The tasks of one daemon for write w that take effect, in chunk order. */
  function ShareRun(e: Env, h: nat, w: Write, f: Fault, hi: nat): seq<Task> {
    if hi <= RangeOf(e, w).First() then []
    else if e.Serves(h, w.path, hi - 1) && f.Writes(hi - 1) then ShareRun(e, h, w, f, hi - 1) + [Task(w, hi - 1)]
    else ShareRun(e, h, w, f, hi - 1)
  }

  function HostRun(e: Env, h: nat, w: Write, o: Rpc): seq<Task> {
    if o.Ran? then ShareRun(e, h, w, o.fault, RangeOf(e, w).Last() + 1) else []
  }

  /** The tasks of the given daemons, one daemon after the other. */
  function HostsRun(e: Env, hs: seq<nat>, w: Write, outcome: nat -> Rpc): seq<Task> {
    if hs == [] then []
    else HostsRun(e, hs[..|hs| - 1], w, outcome) + HostRun(e, hs[|hs| - 1], w, outcome(hs[|hs| - 1]))
  }

  lemma {:induction false} InShareRun(e: Env, h: nat, w: Write, f: Fault, hi: nat, t: Task)
    ensures t in ShareRun(e, h, w, f, hi)
       <==> t.w == w && RangeOf(e, w).First() <= t.id < hi && e.Serves(h, w.path, t.id) && f.Writes(t.id)
  {
    if hi > RangeOf(e, w).First() { InShareRun(e, h, w, f, hi - 1, t); }
  }

  /** With targets of a plan, a chunk's task takes effect exactly when its own target did it. */
  lemma {:induction false} InHostsRun(e: Env, fwd: nat, hs: seq<nat>, w: Write, outcome: nat -> Rpc, t: Task)
    requires AllForwarder(e, fwd, hs)
    ensures t in HostsRun(e, hs, w, outcome)
       <==> && t.w == w && RangeOf(e, w).First() <= t.id <= RangeOf(e, w).Last()
            && e.ClientLoc(fwd, w.path, t.id) in hs && outcome(e.ClientLoc(fwd, w.path, t.id)).Writes(t.id)
  {
    if hs != [] {
      var init, h := hs[..|hs| - 1], hs[|hs| - 1];
      InHostsRun(e, fwd, init, w, outcome, t);
      if outcome(h).Ran? { InShareRun(e, h, w, outcome(h).fault, RangeOf(e, w).Last() + 1, t); }
      TargetServes(e, fwd, w.path, t.id, h);
      assert hs == init + [h];
    }
  }

  ghost predicate AllForwarder(e: Env, fwd: nat, hs: seq<nat>) {
    e.forwarding ==> forall i :: 0 <= i < |hs| ==> hs[i] == fwd
  }

  lemma {:induction false} HandlerStep(e: Env, cl: Cluster, run: seq<Task>, h: nat, store: Store, w: Write, id: nat)
    requires e.Backend(h) < |cl| && e.Serves(h, w.path, id) && After(e, cl, run) == cl[e.Backend(h) := store]
    ensures After(e, cl, run + [Task(w, id)]) == cl[e.Backend(h) := PutPiece(e, store, w, id)]
  {
    AfterAppend(e, cl, run, Task(w, id));
  }

  lemma {:induction false} HandlerNext(e: Env, cl: Cluster, h: nat, w: Write, f: Fault, id: nat)
    requires e.Backend(h) < |cl| && RangeOf(e, w).First() <= id
    requires After(e, cl, ShareRun(e, h, w, f, id)) == cl[e.Backend(h) := PutShare(e, h, cl[e.Backend(h)], w, f, id)]
    ensures After(e, cl, ShareRun(e, h, w, f, id + 1))
         == cl[e.Backend(h) := PutShare(e, h, cl[e.Backend(h)], w, f, id + 1)]
  {
    if e.Serves(h, w.path, id) && f.Writes(id) {
      HandlerStep(e, cl, ShareRun(e, h, w, f, id), h, PutShare(e, h, cl[e.Backend(h)], w, f, id), w, id);
    }
  }

  /** A daemon's handler is the run of its tasks. */
  lemma {:induction false} HandlerIsRun(e: Env, cl: Cluster, h: nat, w: Write, f: Fault, hi: nat)
    requires e.Backend(h) < |cl|
    ensures After(e, cl, ShareRun(e, h, w, f, hi)) == cl[e.Backend(h) := PutShare(e, h, cl[e.Backend(h)], w, f, hi)]
  {
    var b := e.Backend(h);
    if hi <= RangeOf(e, w).First() {
      assert cl[b := cl[b]] == cl;
    } else {
      HandlerIsRun(e, cl, h, w, f, hi - 1);
      HandlerNext(e, cl, h, w, f, hi - 1);
    }
  }

  /** One more target: its daemon handles its share of w, or never sees it. */
  lemma {:induction false} HostsRunStep(e: Env, cl: Cluster, hs: seq<nat>, h: nat, w: Write, outcome: nat -> Rpc)
    requires e.Backend(h) < |cl|
    ensures var mid, b, o := After(e, cl, HostsRun(e, hs, w, outcome)), e.Backend(h), outcome(h);
      After(e, cl, HostsRun(e, hs + [h], w, outcome))
      == if o.Ran? then mid[b := PutShare(e, h, mid[b], w, o.fault, RangeOf(e, w).Last() + 1)] else mid
  {
    Snoc(hs, h);
    AfterConcat(e, cl, HostsRun(e, hs, w, outcome), HostRun(e, h, w, outcome(h)));
    if outcome(h).Ran? {
      HandlerIsRun(e, After(e, cl, HostsRun(e, hs, w, outcome)), h, w, outcome(h).fault, RangeOf(e, w).Last() + 1);
    }
  }

  /** A run of one write leaves the new byte where a covering task ran, and the old one elsewhere. */
  lemma {:induction false} OneWriteRun(e: Env, run: seq<Task>, w: Write, p: nat, was: byte)
    requires forall i :: 0 <= i < |run| ==> run[i].w == w
    ensures LastValue(e, run, w.path, p, was)
         == if RangeOf(e, w).Holds(p) && Task(w, Quot(p, e.c)) in run then w.data[p - w.offset] else was
    ensures Extended(e, run, w.path, p) <==> p < w.offset + |w.data| && Task(w, Quot(p, e.c)) in run
  {
    if run != [] {
      OneWriteRun(e, run[..|run| - 1], w, p, was);
      assert run == run[..|run| - 1] + [run[|run| - 1]];
    }
  }

  /** Byte p is one of the range, in a chunk that took w. */
  predicate Reached(e: Env, w: Write, took: set<nat>, p: nat) {
    RangeOf(e, w).Holds(p) && Quot(p, e.c) in took
  }

  /** Byte p is stored once its chunk took w: it is before the end of w, in a touched chunk. */
  predicate Filled(e: Env, w: Write, took: set<nat>, p: nat) {
    p < w.offset + |w.data| && RangeOf(e, w).Touches(Quot(p, e.c)) && Quot(p, e.c) in took
  }

  /** Every byte of the file after the chunks in took have taken their piece of w, and no others. */
  ghost predicate Wrote(e: Env, cl: Cluster, cl': Cluster, w: Write, took: set<nat>) {
    && |cl'| == |cl|
    && (forall p: nat :: Fits(e, p) ==>
          FlatAt(e, cl', w.path, p) == if Reached(e, w, took, p) then w.data[p - w.offset]
            else FlatAt(e, cl, w.path, p))
    && (forall p: nat :: Fits(e, p) ==>
          (Stored(e, cl', w.path, p) <==> Stored(e, cl, w.path, p) || Filled(e, w, took, p)))
  }

  /** The run consists of the tasks of w for the chunks in took. */
  ghost predicate RunTakes(e: Env, run: seq<Task>, w: Write, took: set<nat>) {
    && (forall i :: 0 <= i < |run| ==> run[i].w == w && RangeOf(e, w).Touches(run[i].id))
    && (forall id: nat :: RangeOf(e, w).Touches(id) ==> (Task(w, id) in run <==> id in took))
  }

  lemma {:induction false} RunByte(e: Env, cl: Cluster, run: seq<Task>, w: Write, took: set<nat>, p: nat)
    requires WellFormed(e, cl, w) && RunTakes(e, run, w, took) && Fits(e, p)
    ensures FlatAt(e, After(e, cl, run), w.path, p)
         == if Reached(e, w, took, p) then w.data[p - w.offset] else FlatAt(e, cl, w.path, p)
    ensures Stored(e, After(e, cl, run), w.path, p) <==> Stored(e, cl, w.path, p) || Filled(e, w, took, p)
  {
    LastWriterWins(e, cl, run, w.path, p);
    RunStores(e, cl, run, w.path, p);
    OneWriteRun(e, run, w, p, FlatAt(e, cl, w.path, p));
    if RangeOf(e, w).Holds(p) { PositionInPiece(RangeOf(e, w), p); }
  }

  /** The flat file after a run of one write. */
  lemma {:induction false} RunWrote(e: Env, cl: Cluster, run: seq<Task>, w: Write, took: set<nat>)
    requires WellFormed(e, cl, w) && RunTakes(e, run, w, took)
    ensures Wrote(e, cl, After(e, cl, run), w, took)
  {
    forall p: nat | Fits(e, p)
      ensures FlatAt(e, After(e, cl, run), w.path, p)
           == if Reached(e, w, took, p) then w.data[p - w.offset] else FlatAt(e, cl, w.path, p)
    {
      RunByte(e, cl, run, w, took, p);
    }
    forall p: nat | Fits(e, p)
      ensures Stored(e, After(e, cl, run), w.path, p) <==> Stored(e, cl, w.path, p) || Filled(e, w, took, p)
    {
      RunByte(e, cl, run, w, took, p);
    }
  }

  /** A run of one write leaves the other files alone. */
  lemma {:induction false} RunKeepsOthers(e: Env, cl: Cluster, run: seq<Task>, w: Write)
    requires forall i :: 0 <= i < |run| ==> run[i].w == w
    ensures OthersKept(e, cl, After(e, cl, run), w.path)
  {
    if run != [] {
      var mid := After(e, cl, run[..|run| - 1]);
      RunKeepsOthers(e, cl, run[..|run| - 1], w);
      PieceKeepsOthers(e, mid, w, run[|run| - 1].id);
      OthersKeptTwice(e, cl, mid, After(e, cl, run), w.path);
    }
  }

  // ---- Which RPCs are posted ----

  /** A plan's targets are the targets of the chunks. */
  lemma PlannedTarget(e: Env, fwd: nat, path: string, r: Range, targets: seq<nat>, targetChnks: map<nat, seq<nat>>,
                      i: nat)
    returns (id: nat)
    requires e.Valid() && r.NonEmpty() && PlanFor(e, fwd, path, r, targets, targetChnks) && i < |targets|
    ensures r.Touches(id) && e.ClientLoc(fwd, path, id) == targets[i]
    ensures e.Backend(targets[i]) < e.Backends() && (e.forwarding ==> targets[i] == fwd) && targets[i] in targetChnks
    ensures targetChnks[targets[i]] == e.Owned(targets[i], path, r.First(), r.Last() + 1)
  {
    id := targetChnks[targets[i]][0];
    OwnedMember(e, targets[i], path, r.First(), r.Last() + 1, id);
    TargetServes(e, fwd, path, id, targets[i]);
  }

  /** No chunk of [lo, hi) has a target that cannot be reached. */
  ghost predicate Sendable(e: Env, fwd: nat, path: string, lo: nat, hi: nat, outcome: nat -> Rpc) {
    forall id: nat :: lo <= id < hi ==> !outcome(e.ClientLoc(fwd, path, id)).Unsendable?
  }

  /** The loop that posts one RPC per target, in the order of the chunks, gets as far as h: no chunk up
      to one of h's has a target that cannot be reached. */
  ghost predicate Gets(e: Env, fwd: nat, path: string, r: Range, outcome: nat -> Rpc, h: nat) {
    exists id: nat :: r.Touches(id) && e.ClientLoc(fwd, path, id) == h
        && Sendable(e, fwd, path, r.First(), id + 1, outcome)
  }

  /** The posting loop stopped behind n targets: at the end or at the first that cannot be reached. */
  ghost predicate StoppedAt(targets: seq<nat>, outcome: nat -> Rpc, n: nat) {
    && n <= |targets| && (forall i :: 0 <= i < n ==> !outcome(targets[i]).Unsendable?)
    && (n < |targets| ==> outcome(targets[n]).Unsendable?)
  }

  lemma {:induction false} PostedGets(e: Env, fwd: nat, path: string, r: Range, targets: seq<nat>,
                                      outcome: nat -> Rpc, n: nat, i: nat)
    requires r.NonEmpty() && targets == TargetList(e, fwd, path, r.First(), r.Last() + 1)
      && StoppedAt(targets, outcome, n) && i < n
    ensures Gets(e, fwd, path, r, outcome, targets[i])
  {
    var lo := r.First();
    var id := ListCut(e, fwd, path, lo, r.Last() + 1, i);
    forall k: nat | lo <= k < id + 1 ensures !outcome(e.ClientLoc(fwd, path, k)).Unsendable? {
      ListMember(e, fwd, path, lo, id, e.ClientLoc(fwd, path, k));
    }
    assert Sendable(e, fwd, path, lo, id + 1, outcome) && r.Touches(id);
  }

  lemma {:induction false} GetsPosted(e: Env, fwd: nat, path: string, r: Range, targets: seq<nat>,
                                      outcome: nat -> Rpc, n: nat, id: nat)
    requires targets == TargetList(e, fwd, path, r.First(), r.Last() + 1) && StoppedAt(targets, outcome, n)
    requires r.Touches(id) && Sendable(e, fwd, path, r.First(), id + 1, outcome)
    ensures e.ClientLoc(fwd, path, id) in targets[..n]
  {
    var lo, hi, h := r.First(), r.Last() + 1, e.ClientLoc(fwd, path, id);
    if n < |targets| {
      var stop := ListCut(e, fwd, path, lo, hi, n);
      assert id < stop;
      ListMember(e, fwd, path, lo, stop, h);
    } else {
      ListMember(e, fwd, path, lo, hi, h);
      assert targets[..n] == targets;
    }
  }

  /** The targets that got their RPC are those that the posting loop gets to. */
  lemma {:induction false} PostedTargets(e: Env, fwd: nat, path: string, r: Range, targets: seq<nat>,
                                         outcome: nat -> Rpc, n: nat, h: nat)
    requires r.NonEmpty() && targets == TargetList(e, fwd, path, r.First(), r.Last() + 1)
      && StoppedAt(targets, outcome, n)
    ensures h in targets[..n] <==> Gets(e, fwd, path, r, outcome, h)
  {
    if h in targets[..n] {
      var i :| 0 <= i < n && targets[i] == h;
      PostedGets(e, fwd, path, r, targets, outcome, n, i);
    }
    if Gets(e, fwd, path, r, outcome, h) {
      var id: nat :| r.Touches(id) && e.ClientLoc(fwd, path, id) == h
          && Sendable(e, fwd, path, r.First(), id + 1, outcome);
      GetsPosted(e, fwd, path, r, targets, outcome, n, id);
    }
  }

  /** The chunks that take their piece of a write of range r of path. */
  ghost function TookWrite(e: Env, fwd: nat, path: string, r: Range, outcome: nat -> Rpc): set<nat> {
    set id: nat | r.First() <= id <= r.Last() && Gets(e, fwd, path, r, outcome, e.ClientLoc(fwd, path, id))
                  && outcome(e.ClientLoc(fwd, path, id)).Writes(id)
  }

  /** The run of the targets that got their RPC takes exactly those chunks. */
  lemma {:induction false} PostedTakes(e: Env, fwd: nat, w: Write, targets: seq<nat>, outcome: nat -> Rpc, n: nat,
                                       hs: seq<nat>)
    requires RangeOf(e, w).NonEmpty() && AllForwarder(e, fwd, targets) && StoppedAt(targets, outcome, n)
    requires targets == TargetList(e, fwd, w.path, RangeOf(e, w).First(), RangeOf(e, w).Last() + 1)
    requires hs == targets[..n]
    ensures RunTakes(e, HostsRun(e, hs, w, outcome), w, TookWrite(e, fwd, w.path, RangeOf(e, w), outcome))
  {
    var r, run := RangeOf(e, w), HostsRun(e, hs, w, outcome);
    forall i | 0 <= i < |run| ensures run[i].w == w && r.Touches(run[i].id) {
      InHostsRun(e, fwd, hs, w, outcome, run[i]);
    }
    forall id: nat | r.Touches(id)
      ensures Task(w, id) in run <==> id in TookWrite(e, fwd, w.path, r, outcome)
    {
      InHostsRun(e, fwd, hs, w, outcome, Task(w, id));
      PostedTargets(e, fwd, w.path, r, targets, outcome, n, e.ClientLoc(fwd, w.path, id));
    }
  }

  // ---- The client ----

  /** What the client gets from target h: the size of its share, or -1. */
  ghost function WriteAnswer(e: Env, h: nat, w: Write, o: Rpc): int {
    if o.Answers() && ShareWritten(ShareOf(e, h, w), o.fault) then ShareOf(e, h, w).AllSize() else -1
  }

  /** One posted write: the request goes to the target's daemon, which works on its backend. */
  method PostWrite(e: Env, fwd: nat, cl: Cluster, target: nat, chunks: seq<nat>, chnkStart: nat, chnkEnd: nat,
                   startTarget: nat, endTarget: nat, w: Write, outcome: nat -> Rpc, ghost cl0: Cluster,
                   ghost hs: seq<nat>)
    returns (cl': Cluster, answer: int)
    requires WellFormed(e, cl0, w) && e.Backend(target) < |cl0| && (e.forwarding ==> target == fwd)
    requires chnkStart == RangeOf(e, w).First() && chnkEnd == RangeOf(e, w).Last()
    requires chunks == e.Owned(target, w.path, chnkStart, chnkEnd + 1)
    requires startTarget == e.ClientLoc(fwd, w.path, chnkStart) && endTarget == e.ClientLoc(fwd, w.path, chnkEnd)
    requires cl == After(e, cl0, HostsRun(e, hs, w, outcome))
    ensures cl' == After(e, cl0, HostsRun(e, hs + [target], w, outcome))
    ensures answer == WriteAnswer(e, target, w, outcome(target))
  {
    cl', answer := cl, -1;
    HostsRunStep(e, cl0, hs, target, w, outcome);
    if outcome(target).Ran? {
      var input := BuildRequest(e, fwd, w.path, w.offset, |w.data|, target, chunks, chnkStart, chnkEnd, startTarget,
                                endTarget);
      var b := e.Backend(target);
      var store, ioSize, err, undetected := SrvWrite(e, input, w.data, cl[b], outcome(target).fault, w);
      cl' := cl[b := store];
      if outcome(target).answered && !err { answer := ioSize; }
    }
  }

  /** What the client gets from each target. */
  ghost function WriteAnswers(e: Env, w: Write, targets: seq<nat>, outcome: nat -> Rpc): seq<int> {
    seq(|targets|, i requires 0 <= i < |targets| => WriteAnswer(e, targets[i], w, outcome(targets[i])))
  }

  /** One answer per target tried; full has the answers of all targets. */
  ghost predicate Tallied(targets: seq<nat>, outcome: nat -> Rpc, full: seq<int>, answers: seq<int>) {
    && |answers| <= |targets| == |full|
    && (forall i :: 0 <= i < |answers| ==> !outcome(targets[i]).Unsendable?)
    && (forall i :: 0 <= i < |answers| ==> answers[i] == full[i])
  }

  lemma TalliedStep(targets: seq<nat>, outcome: nat -> Rpc, full: seq<int>, answers: seq<int>, answer: int)
    requires Tallied(targets, outcome, full, answers) && |answers| < |targets|
    requires !outcome(targets[|answers|]).Unsendable? && answer == full[|answers|]
    ensures Tallied(targets, outcome, full, answers + [answer])
  {
  }

  /** State of the posting loop: the targets tried, their effect and their answers. */
  ghost predicate Posted(e: Env, cl: Cluster, w: Write, targets: seq<nat>, outcome: nat -> Rpc, full: seq<int>,
                         tried: seq<nat>, cl': Cluster, answers: seq<int>)
  {
    && Tallied(targets, outcome, full, answers) && tried == targets[..|answers|]
    && cl' == After(e, cl, HostsRun(e, tried, w, outcome))
  }

  /** One turn of the posting loop of forward_write. */
  method PostNextWrite(e: Env, fwd: nat, cl: Cluster, w: Write, targets: seq<nat>, targetChnks: map<nat, seq<nat>>,
                       chnkStart: nat, chnkEnd: nat, startTarget: nat, endTarget: nat, outcome: nat -> Rpc,
                       answers: seq<int>, ghost cl0: Cluster, ghost tried: seq<nat>, ghost full: seq<int>)
    returns (cl': Cluster, answers': seq<int>, ghost tried': seq<nat>)
    requires WellFormed(e, cl0, w) && PlanFor(e, fwd, w.path, RangeOf(e, w), targets, targetChnks)
    requires chnkStart == RangeOf(e, w).First() && chnkEnd == RangeOf(e, w).Last()
    requires startTarget == e.ClientLoc(fwd, w.path, chnkStart) && endTarget == e.ClientLoc(fwd, w.path, chnkEnd)
    requires full == WriteAnswers(e, w, targets, outcome)
      && Posted(e, cl0, w, targets, outcome, full, tried, cl, answers)
    requires |answers| < |targets| && !outcome(targets[|answers|]).Unsendable?
    ensures Posted(e, cl0, w, targets, outcome, full, tried', cl', answers') && |answers'| == |answers| + 1
  {
    var target := targets[|answers|];
    ghost var id := PlannedTarget(e, fwd, w.path, RangeOf(e, w), targets, targetChnks, |answers|);
    var answer;
    cl', answer := PostWrite(e, fwd, cl, target, targetChnks[target], chnkStart, chnkEnd, startTarget,
                             endTarget, w, outcome, cl0, tried);
    TalliedStep(targets, outcome, full, answers, answer);
    answers', tried' := answers + [answer], tried + [target];
  }

  /** The posting loop of forward_write. It stops at the first target that cannot be reached. */
  method PostWrites(e: Env, fwd: nat, cl: Cluster, w: Write, targets: seq<nat>, targetChnks: map<nat, seq<nat>>,
                    chnkStart: nat, chnkEnd: nat, startTarget: nat, endTarget: nat, outcome: nat -> Rpc)
    returns (cl': Cluster, answers: seq<int>, ghost tried: seq<nat>)
    requires WellFormed(e, cl, w) && PlanFor(e, fwd, w.path, RangeOf(e, w), targets, targetChnks)
    requires chnkStart == RangeOf(e, w).First() && chnkEnd == RangeOf(e, w).Last()
    requires startTarget == e.ClientLoc(fwd, w.path, chnkStart) && endTarget == e.ClientLoc(fwd, w.path, chnkEnd)
    ensures Posted(e, cl, w, targets, outcome, WriteAnswers(e, w, targets, outcome), tried, cl', answers)
    ensures StoppedAt(targets, outcome, |answers|)
  {
    cl', answers, tried := cl, [], [];
    ghost var full := WriteAnswers(e, w, targets, outcome);
    while |answers| < |targets| && !outcome(targets[|answers|]).Unsendable?
      invariant Posted(e, cl, w, targets, outcome, full, tried, cl', answers)
      decreases |targets| - |answers|
    {
      cl', answers, tried := PostNextWrite(e, fwd, cl', w, targets, targetChnks, chnkStart, chnkEnd, startTarget,
                                           endTarget, outcome, answers, cl, tried, full);
    }
  }

  function Total(answers: seq<int>): int {
    if answers == [] then 0 else Total(answers[..|answers| - 1]) + answers[|answers| - 1]
  }

  /** The collecting loop: a missing answer makes the whole call fail, but every answer is awaited. */
  method SumAnswers(answers: seq<int>) returns (ret: int)
    ensures if exists i :: 0 <= i < |answers| && answers[i] < 0 then ret == -1 else ret == Total(answers)
  {
    var error, outSize := false, 0;
    for i := 0 to |answers|
      invariant error <==> exists j :: 0 <= j < i && answers[j] < 0
      invariant !error ==> outSize == Total(answers[..i])
    {
      assert answers[..i + 1][..i] == answers[..i];
      if answers[i] < 0 {
        error := true;
      } else {
        outSize := outSize + answers[i];
      }
    }
    assert answers[..|answers|] == answers;
    ret := if error then -1 else outSize;
  }

  lemma {:induction false} TotalIsParts(e: Env, path: string, f: map<nat, nat>, hs: seq<nat>, answers: seq<int>,
                                        lo: nat, hi: nat)
    requires |answers| == |hs|
    requires forall i :: 0 <= i < |hs| ==> answers[i] == Part(e, hs[i], path, f, lo, hi)
    ensures Total(answers) == SumParts(e, path, f, hs, lo, hi)
  {
    if hs != [] { TotalIsParts(e, path, f, hs[..|hs| - 1], answers[..|hs| - 1], lo, hi); }
  }

  /** The sizes of the targets' shares. */
  function ShareSizes(e: Env, path: string, r: Range, targets: seq<nat>): seq<int> {
    seq(|targets|, i requires 0 <= i < |targets| => Share(e, targets[i], path, r).AllSize())
  }

  /** The totals that the client computes for its targets add up to the size of the range. */
  lemma SharesAddUp(e: Env, fwd: nat, path: string, r: Range, targets: seq<nat>, targetChnks: map<nat, seq<nat>>)
    requires r.NonEmpty() && PlanFor(e, fwd, path, r, targets, targetChnks)
    ensures Total(ShareSizes(e, path, r, targets)) == r.size
  {
    var f := SizeMap(r);
    var sizes := ShareSizes(e, path, r, targets);
    forall i | 0 <= i < |targets| ensures sizes[i] == Part(e, targets[i], path, f, r.First(), r.Last() + 1) {
      ShareIsPart(Share(e, targets[i], path, r), f, r.Last() + 1);
    }
    TotalIsParts(e, path, f, targets, sizes, r.First(), r.Last() + 1);
    TotalsAddUp(e, fwd, path, r, f, targets, targetChnks);
  }

  /** Every chunk of the range was written and its target answered. */
  ghost predicate AllWritten(e: Env, fwd: nat, path: string, r: Range, outcome: nat -> Rpc) {
    forall id: nat :: r.Touches(id) ==>
      outcome(e.ClientLoc(fwd, path, id)).Answers() && outcome(e.ClientLoc(fwd, path, id)).Writes(id)
  }

  /** Every chunk of the range took its piece. */
  ghost predicate AllTook(r: Range, took: set<nat>) { forall id: nat :: r.Touches(id) ==> id in took }

  /** The answer of one target is an error exactly when one of its chunks failed. */
  lemma AnswerIsGood(e: Env, fwd: nat, w: Write, outcome: nat -> Rpc, h: nat, id: nat)
    requires RangeOf(e, w).Touches(id) && e.ClientLoc(fwd, w.path, id) == h && (e.forwarding ==> h == fwd)
    ensures AllWritten(e, fwd, w.path, RangeOf(e, w), outcome)
      ==> WriteAnswer(e, h, w, outcome(h)) == ShareOf(e, h, w).AllSize()
    ensures WriteAnswer(e, h, w, outcome(h)) >= 0 ==> outcome(h).Answers() && outcome(h).Writes(id)
  {
    TargetServes(e, fwd, w.path, id, h);
    if AllWritten(e, fwd, w.path, RangeOf(e, w), outcome) {
      forall k: nat | RangeOf(e, w).Touches(k) && e.Serves(h, w.path, k) ensures outcome(h).Writes(k) {
        TargetServes(e, fwd, w.path, k, h);
      }
    }
  }

  /** The answers of all targets are the sizes of their shares, or one is an error. */
  lemma AnswersAreGood(e: Env, fwd: nat, w: Write, targets: seq<nat>, targetChnks: map<nat, seq<nat>>,
                       outcome: nat -> Rpc)
    requires e.Valid() && |w.data| > 0 && PlanFor(e, fwd, w.path, RangeOf(e, w), targets, targetChnks)
    ensures Decided(targets, outcome, WriteAnswers(e, w, targets, outcome),
                    ShareSizes(e, w.path, RangeOf(e, w), targets),
                    AllWritten(e, fwd, w.path, RangeOf(e, w), outcome))
  {
    var full := WriteAnswers(e, w, targets, outcome);
    if AllWritten(e, fwd, w.path, RangeOf(e, w), outcome) {
      forall i | 0 <= i < |targets|
        ensures !outcome(targets[i]).Unsendable? && full[i] == ShareOf(e, targets[i], w).AllSize()
      {
        var id := PlannedTarget(e, fwd, w.path, RangeOf(e, w), targets, targetChnks, i);
        AnswerIsGood(e, fwd, w, outcome, targets[i], id);
      }
    } else {
      var id: nat :| RangeOf(e, w).Touches(id) && !(outcome(e.ClientLoc(fwd, w.path, id)).Answers()
                                                   && outcome(e.ClientLoc(fwd, w.path, id)).Writes(id));
      var i :| 0 <= i < |targets| && targets[i] == e.ClientLoc(fwd, w.path, id);
      AnswerIsGood(e, fwd, w, outcome, targets[i], id);
      assert full[i] < 0;
    }
  }

  /** If ok, every target is reached and answers with its size; otherwise one of the answers is an error. */
  ghost predicate Decided(targets: seq<nat>, outcome: nat -> Rpc, full: seq<int>, sizes: seq<int>, ok: bool) {
    if ok then full == sizes && forall i :: 0 <= i < |targets| ==> !outcome(targets[i]).Unsendable?
    else exists i :: 0 <= i < |full| && full[i] < 0
  }

  /** What the answers of a finished posting loop decide. */
  lemma AnswersDecide(targets: seq<nat>, outcome: nat -> Rpc, full: seq<int>, sizes: seq<int>, ok: bool,
                      answers: seq<int>)
    requires Tallied(targets, outcome, full, answers) && StoppedAt(targets, outcome, |answers|)
    requires Decided(targets, outcome, full, sizes, ok)
    ensures if ok then |answers| == |targets| && answers == sizes
            else |answers| < |targets| || exists i :: 0 <= i < |answers| && answers[i] < 0
  {
    if !ok && |answers| == |targets| {
      var i :| 0 <= i < |full| && full[i] < 0;
      assert answers[i] < 0;
    }
  }

  /** If every target answered, every chunk took its piece. */
  lemma WrittenTook(e: Env, fwd: nat, path: string, r: Range, outcome: nat -> Rpc)
    requires AllWritten(e, fwd, path, r, outcome)
    ensures AllTook(r, TookWrite(e, fwd, path, r, outcome))
  {
    forall id: nat | r.Touches(id) ensures id in TookWrite(e, fwd, path, r, outcome) {
      forall k: nat | r.First() <= k < id + 1 ensures !outcome(e.ClientLoc(fwd, path, k)).Unsendable? {
        assert r.Touches(k);
      }
      assert Gets(e, fwd, path, r, outcome, e.ClientLoc(fwd, path, id));
    }
  }

  /** Chunk boundaries and targets of a range, as forward_write and forward_read start. */
  method PlanRange(e: Env, fwd: nat, path: string, offset: nat, size: nat)
    returns (targets: seq<nat>, targetChnks: map<nat, seq<nat>>, chnkStart: nat, chnkEnd: nat, startTarget: nat,
             endTarget: nat)
    requires e.Valid() && size > 0 && offset + size < OFFSET_LIMIT
    ensures PlanFor(e, fwd, path, Range(e.c, offset, size), targets, targetChnks)
    ensures chnkStart == Range(e.c, offset, size).First() && chnkEnd == Range(e.c, offset, size).Last()
    ensures startTarget == e.ClientLoc(fwd, path, chnkStart) && endTarget == e.ClientLoc(fwd, path, chnkEnd)
  {
    chnkStart := IdForOffset(offset, e.c);
    chnkEnd := IdForOffset((offset + size) - 1, e.c);
    QuotRemIsDivision(offset, e.c);
    QuotRemIsDivision(offset + size - 1, e.c);
    FirstLastTouched(Range(e.c, offset, size));
    targets, targetChnks, startTarget, endTarget := PlanTargets(e, fwd, path, chnkStart, chnkEnd);
  }

  /** forward_write: whatever happens to the RPCs and inside the handlers, exactly the bytes of the
      range whose chunk took its piece change, to the bytes of the buffer; and the call returns the
      size of the buffer if every chunk was written and every target answered, -1 otherwise. */
  method ForwardWrite(e: Env, fwd: nat, cl: Cluster, path: string, buf: seq<byte>, updatedSize: nat,
                      outcome: nat -> Rpc)
    returns (ret: int, cl': Cluster)
    requires |buf| <= updatedSize && WellFormed(e, cl, Write(path, updatedSize - |buf|, buf))
    ensures var w := Write(path, updatedSize - |buf|, buf);
      && Wrote(e, cl, cl', w, TookWrite(e, fwd, path, RangeOf(e, w), outcome)) && OthersKept(e, cl, cl', path)
      && ret == (if AllWritten(e, fwd, path, RangeOf(e, w), outcome) then |buf| else -1)
      && (ret >= 0 ==> AllTook(RangeOf(e, w), TookWrite(e, fwd, path, RangeOf(e, w), outcome)))
  {
    var w := Write(path, updatedSize - |buf|, buf);
    var targets, targetChnks, chnkStart, chnkEnd, startTarget, endTarget := PlanRange(e, fwd, path, w.offset, |buf|);
    var answers;
    ghost var tried;
    cl', answers, tried := PostWrites(e, fwd, cl, w, targets, targetChnks, chnkStart, chnkEnd, startTarget, endTarget,
                                      outcome);
    PostedTakes(e, fwd, w, targets, outcome, |answers|, tried);
    RunWrote(e, cl, HostsRun(e, tried, w, outcome), w, TookWrite(e, fwd, path, RangeOf(e, w), outcome));
    RunKeepsOthers(e, cl, HostsRun(e, tried, w, outcome), w);
    AnswersAreGood(e, fwd, w, targets, targetChnks, outcome);
    AnswersDecide(targets, outcome, WriteAnswers(e, w, targets, outcome), ShareSizes(e, path, RangeOf(e, w), targets),
                  AllWritten(e, fwd, path, RangeOf(e, w), outcome), answers);
    SharesAddUp(e, fwd, path, RangeOf(e, w), targets, targetChnks);
    if |answers| < |targets| {
      return -1, cl';
    }
    ret := SumAnswers(answers);
    if ret >= 0 { WrittenTook(e, fwd, path, RangeOf(e, w), outcome); }
  }

  /** gkfs_pwrite of a regular file: the size step at the metadata host, which answers with the end of
      the write or fails, and then forward_write. */
  method WriteAt(e: Env, fwd: nat, cl: Cluster, w: Write, sized: bool, outcome: nat -> Rpc)
    returns (ret: int, cl': Cluster)
    requires WellFormed(e, cl, w)
    ensures var took := TookWrite(e, fwd, w.path, RangeOf(e, w), outcome);
      && (if sized then Wrote(e, cl, cl', w, took) else cl' == cl) && OthersKept(e, cl, cl', w.path)
      && ret == (if sized && AllWritten(e, fwd, w.path, RangeOf(e, w), outcome) then |w.data| else -1)
      && (ret >= 0 ==> AllTook(RangeOf(e, w), took))
  {
    if !sized {
      return -1, cl;
    }
    var updatedSize := w.offset + |w.data|;
    assert Write(w.path, updatedSize - |w.data|, w.data) == w;
    ret, cl' := ForwardWrite(e, fwd, cl, w.path, w.data, updatedSize, outcome);
  }
}
