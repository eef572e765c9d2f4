/** src/client/rpc/forward_data.cpp: the client side of striped reads and writes. */
module ForwardData {
  import opened Arith
  import opened ChunkCalc
  import opened Layout
  import opened Placement
  import opened SrvData

  /** The targets of the chunks in [lo, hi), each once, in the order of their first chunks. */
  function TargetList(e: Env, fwd: nat, path: string, lo: nat, hi: nat): seq<nat>
    decreases hi
  {
    if hi <= lo then []
    else if e.ClientLoc(fwd, path, hi - 1) in TargetList(e, fwd, path, lo, hi - 1)
      then TargetList(e, fwd, path, lo, hi - 1)
    else TargetList(e, fwd, path, lo, hi - 1) + [e.ClientLoc(fwd, path, hi - 1)]
  }

  lemma {:induction false} ListMember(e: Env, fwd: nat, path: string, lo: nat, hi: nat, h: nat)
    ensures h in TargetList(e, fwd, path, lo, hi)
      <==> exists id: nat :: lo <= id < hi && e.ClientLoc(fwd, path, id) == h
    decreases hi
  {
    if lo < hi { ListMember(e, fwd, path, lo, hi - 1, h); }
  }

  /** The chunk that put the target at index i on the list, behind the targets of the chunks before it. */
  lemma {:induction false} ListCut(e: Env, fwd: nat, path: string, lo: nat, hi: nat, i: nat) returns (id: nat)
    requires i < |TargetList(e, fwd, path, lo, hi)|
    ensures lo <= id < hi && e.ClientLoc(fwd, path, id) == TargetList(e, fwd, path, lo, hi)[i]
    ensures TargetList(e, fwd, path, lo, hi)[..i] == TargetList(e, fwd, path, lo, id)
    decreases hi
  {
    var init := TargetList(e, fwd, path, lo, hi - 1);
    if i < |init| {
      id := ListCut(e, fwd, path, lo, hi - 1, i);
      assert TargetList(e, fwd, path, lo, hi)[..i] == init[..i];
    } else {
      id := hi - 1;
      assert TargetList(e, fwd, path, lo, hi)[..i] == init;
    }
  }

  ghost predicate Distinct(hs: seq<nat>) { forall i, j :: 0 <= i < j < |hs| ==> hs[i] != hs[j] }

  /** Every listed target once, with the chunks of [lo, hi) its daemon will find for itself. */
  ghost predicate Planned(e: Env, fwd: nat, path: string, lo: nat, hi: nat,
                          targets: seq<nat>, targetChnks: map<nat, seq<nat>>)
  {
    && targets == TargetList(e, fwd, path, lo, hi)
    && Distinct(targets)
    && (forall h :: h in targetChnks <==> h in targets)
    && (forall h :: h in targets ==> targetChnks[h] == e.Owned(h, path, lo, hi))
    && (forall id: nat :: lo <= id < hi ==> e.ClientLoc(fwd, path, id) in targets)
    && (forall h :: h in targets ==> targetChnks[h] != [])
    && (e.forwarding ==> forall i :: 0 <= i < |targets| ==> targets[i] == fwd)
  }

  /** How a target's list grows with the next chunk. */
  lemma OwnedGrows(e: Env, fwd: nat, path: string, lo: nat, hi: nat, h: nat)
    requires lo <= hi && (e.forwarding ==> h == fwd)
    ensures e.Owned(h, path, lo, hi + 1)
         == if e.ClientLoc(fwd, path, hi) == h then e.Owned(h, path, lo, hi) + [hi] else e.Owned(h, path, lo, hi)
  {
    TargetServes(e, fwd, path, hi, h);
  }

  /** A chunk filed under its target. */
  function Filed(lists: map<nat, seq<nat>>, t: nat, id: nat): map<nat, seq<nat>> {
    lists[t := if t in lists then lists[t] + [id] else [id]]
  }

  /** The chunks of [lo, hi) filed one after the other. */
  function ChunkLists(e: Env, fwd: nat, path: string, lo: nat, hi: nat): map<nat, seq<nat>>
    decreases hi
  {
    if hi <= lo then map[] else Filed(ChunkLists(e, fwd, path, lo, hi - 1), e.ClientLoc(fwd, path, hi - 1), hi - 1)
  }

  lemma {:induction false} ListedAre(e: Env, fwd: nat, path: string, lo: nat, hi: nat, h: nat)
    ensures h in ChunkLists(e, fwd, path, lo, hi) <==> h in TargetList(e, fwd, path, lo, hi)
    decreases hi
  {
    if lo < hi { ListedAre(e, fwd, path, lo, hi - 1, h); }
  }

  /** The chunks filed under a target are those that its daemon will find for itself. */
  lemma {:induction false} FiledIsOwned(e: Env, fwd: nat, path: string, lo: nat, hi: nat, h: nat)
    requires e.forwarding ==> h == fwd
    ensures (if h in ChunkLists(e, fwd, path, lo, hi) then ChunkLists(e, fwd, path, lo, hi)[h] else [])
         == e.Owned(h, path, lo, hi)
    decreases hi
  {
    if lo < hi {
      FiledIsOwned(e, fwd, path, lo, hi - 1, h);
      OwnedGrows(e, fwd, path, lo, hi - 1, h);
    }
  }

  lemma {:induction false} ListDistinct(e: Env, fwd: nat, path: string, lo: nat, hi: nat)
    ensures Distinct(TargetList(e, fwd, path, lo, hi))
    decreases hi
  {
    if lo < hi { ListDistinct(e, fwd, path, lo, hi - 1); }
  }

  /** The lists of the planning loop are a plan. */
  lemma {:induction false} ListsPlanned(e: Env, fwd: nat, path: string, lo: nat, hi: nat)
    ensures Planned(e, fwd, path, lo, hi, TargetList(e, fwd, path, lo, hi), ChunkLists(e, fwd, path, lo, hi))
  {
    var targets, lists := TargetList(e, fwd, path, lo, hi), ChunkLists(e, fwd, path, lo, hi);
    ListDistinct(e, fwd, path, lo, hi);
    forall id: nat | lo <= id < hi ensures e.ClientLoc(fwd, path, id) in targets {
      ListMember(e, fwd, path, lo, hi, e.ClientLoc(fwd, path, id));
    }
    forall h ensures h in lists <==> h in targets { ListedAre(e, fwd, path, lo, hi, h); }
    forall h | h in targets ensures lists[h] == e.Owned(h, path, lo, hi) != [] && (e.forwarding ==> h == fwd) {
      ListMember(e, fwd, path, lo, hi, h);
      var id: nat :| lo <= id < hi && e.ClientLoc(fwd, path, id) == h;
      FiledIsOwned(e, fwd, path, lo, hi, h);
      OwnedHas(e, h, path, lo, hi, id);
    }
    forall i | 0 <= i < |targets| ensures e.forwarding ==> targets[i] == fwd { assert targets[i] in targets; }
  }

  /** The planning loop. */
  method FileChunks(e: Env, fwd: nat, path: string, chnkStart: nat, chnkEnd: nat)
    returns (targets: seq<nat>, targetChnks: map<nat, seq<nat>>, startTarget: nat, endTarget: nat)
    requires chnkStart <= chnkEnd
    ensures targets == TargetList(e, fwd, path, chnkStart, chnkEnd + 1)
    ensures targetChnks == ChunkLists(e, fwd, path, chnkStart, chnkEnd + 1)
    ensures startTarget == e.ClientLoc(fwd, path, chnkStart)
    ensures endTarget == e.ClientLoc(fwd, path, chnkEnd)
  {
    targets, targetChnks, startTarget, endTarget := [], map[], 0, 0;
    var chnkId := chnkStart;
    while chnkId <= chnkEnd
      invariant chnkStart <= chnkId <= chnkEnd + 1
      invariant targets == TargetList(e, fwd, path, chnkStart, chnkId)
      invariant targetChnks == ChunkLists(e, fwd, path, chnkStart, chnkId)
      invariant chnkId > chnkStart ==> startTarget == e.ClientLoc(fwd, path, chnkStart)
      invariant chnkId > chnkEnd ==> endTarget == e.ClientLoc(fwd, path, chnkEnd)
    {
      var target := e.ClientLoc(fwd, path, chnkId);
      ListedAre(e, fwd, path, chnkStart, chnkId, target);
      if target !in targetChnks {
        targetChnks := targetChnks[target := [chnkId]];
        targets := targets + [target];
      } else {
        targetChnks := targetChnks[target := targetChnks[target] + [chnkId]];
      }
      if chnkId == chnkStart { startTarget := target; }
      if chnkId == chnkEnd { endTarget := target; }
      chnkId := chnkId + 1;
    }
  }

  /** How forward_write and forward_read plan: each target is listed once, with exactly
      the chunks that its daemon will pick with its own filter. */
  method PlanTargets(e: Env, fwd: nat, path: string, chnkStart: nat, chnkEnd: nat)
    returns (targets: seq<nat>, targetChnks: map<nat, seq<nat>>, startTarget: nat, endTarget: nat)
    requires chnkStart <= chnkEnd
    ensures Planned(e, fwd, path, chnkStart, chnkEnd + 1, targets, targetChnks)
    ensures startTarget == e.ClientLoc(fwd, path, chnkStart)
    ensures endTarget == e.ClientLoc(fwd, path, chnkEnd)
  {
    targets, targetChnks, startTarget, endTarget := FileChunks(e, fwd, path, chnkStart, chnkEnd);
    ListsPlanned(e, fwd, path, chnkStart, chnkEnd + 1);
  }

  /** The chunks of the daemon's tasks, in order. */
  function TaskIds(tasks: seq<TaskArg>): seq<nat> {
    seq(|tasks|, i requires 0 <= i < |tasks| => tasks[i].chnkId)
  }

  /** The chunks the daemon finds are the chunks the client counted, in the same order. */
  lemma {:induction false} TasksFollowPlan(s: Share, hi: nat)
    ensures TaskIds(s.Tasks(hi)) == s.e.Owned(s.h, s.path, s.r.First(), hi)
  {
    if hi > s.r.First() {
      TasksFollowPlan(s, hi - 1);
      if s.Serves(hi - 1) { TaskIdsAppend(s.Tasks(hi - 1), s.TaskOf(hi - 1)); }
    }
  }

  lemma TaskIdsAppend(tasks: seq<TaskArg>, t: TaskArg)
    ensures TaskIds(tasks + [t]) == TaskIds(tasks) + [t.chnkId]
  {
  }

  function LeftPad(r: Range): nat { if r.c == 0 then 0 else r.offset % r.c }

  /** Padding that the totals of daemon s leave out below chunk hi. */
  function Padding(s: Share, hi: nat): nat {
    (if s.r.First() < hi && s.Serves(s.r.First()) then LeftPad(s.r) else 0)
    + (if s.r.Last() < hi && s.Serves(s.r.Last()) then NegMod(s.r.offset + s.r.size, s.r.c) else 0)
  }

  /** A daemon's total: whole chunks, less the padding of the first and the last one it serves. */
  lemma {:induction false} ShareTotal(s: Share, hi: nat)
    requires s.Valid() && hi <= s.r.Last() + 1
    ensures s.Size(hi) + Padding(s, hi) == Times(s.r.c, |s.Tasks(hi)|)
  {
    FirstLastTouched(s.r);
    if hi > s.r.First() {
      ShareTotal(s, hi - 1);
      if s.Serves(hi - 1) {
        ShareStep(s, hi - 1);
        PieceSize(s.r, hi - 1);
      }
    }
  }

  /** The client's formula for the total of one target. */
  lemma ClientTotal(s: Share, n: nat)
    requires s.Valid() && n == |s.AllTasks()|
    ensures n * s.r.c - (if s.Serves(s.r.First()) then LeftPad(s.r) else 0)
              - (if s.Serves(s.r.Last()) then NegMod(s.r.offset + s.r.size, s.r.c) else 0) == s.AllSize()
  {
    FirstLastTouched(s.r);
    ShareTotal(s, s.r.Last() + 1);
    TimesIsProduct(s.r.c, n);
  }

  /** The size a client sends: whole chunks, less the padding of the range's ends if they are the target's. */
  method TotalChunkSize(e: Env, offset: nat, size: nat, target: nat, chunkN: nat, startTarget: nat, endTarget: nat,
                        ghost s: Share)
    returns (total: nat)
    requires s.Valid() && e == s.e && s.r == Range(e.c, offset, size) && chunkN == |s.AllTasks()|
    requires target == startTarget <==> s.Serves(s.r.First())
    requires target == endTarget <==> s.Serves(s.r.Last())
    ensures total == s.AllSize()
  {
    ClientTotal(s, chunkN);
    var sum: int := chunkN * e.c;
    if target == startTarget {
      sum := sum - Lpad(offset, e.c);
    }
    if target == endTarget {
      sum := sum - Rpad(offset + size, e.c);
    }
    total := sum;
  }

  /** The request the client builds for one target: count, padding and totals from its own plan. */
  method BuildRequest(e: Env, fwd: nat, path: string, offset: nat, size: nat, target: nat, chunks: seq<nat>,
                      chnkStart: nat, chnkEnd: nat, startTarget: nat, endTarget: nat)
    returns (input: DataIn)
    requires Share(e, target, path, Range(e.c, offset, size)).Valid() && (e.forwarding ==> target == fwd)
    requires chnkStart == Range(e.c, offset, size).First() && chnkEnd == Range(e.c, offset, size).Last()
    requires chunks == e.Owned(target, path, chnkStart, chnkEnd + 1)
    requires startTarget == e.ClientLoc(fwd, path, chnkStart) && endTarget == e.ClientLoc(fwd, path, chnkEnd)
    ensures input == Share(e, target, path, Range(e.c, offset, size)).Request()
  {
    ghost var s := Share(e, target, path, Range(e.c, offset, size));
    TasksFollowPlan(s, chnkEnd + 1);
    TargetServes(e, fwd, path, chnkStart, target);
    TargetServes(e, fwd, path, chnkEnd, target);
    var total := TotalChunkSize(e, offset, size, target, |chunks|, startTarget, endTarget, s);
    input := DataIn(path, Lpad(offset, e.c), target, e.hosts, |chunks|, chnkStart, chnkEnd, total);
  }
}
