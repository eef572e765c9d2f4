/** src/global/rpc/distributor.cpp: which host serves a chunk, seen by the client and by the daemon,
    and the backend (directory tree on disk) that host works on. */
module Placement {
  import opened Arith
  import opened ChunkCalc

  /** Chunk ids are narrowed to 32 bits by the distributor and by the chunk storage. */
  const KEYS: nat := 0x1_0000_0000

  /** A deployment: chunk size, number of daemons, hash or forwarding mode, and the placement
      function that the hash distributors of client and daemons share. */
  datatype Env = Env(c: nat, hosts: nat, forwarding: bool, locate: (string, nat) -> nat) {

    ghost predicate Valid() {
      c > 0 && hosts > 0 && ChunkSize(c) && forall path, id :: locate(path, id) < hosts
    }

    /** The target a client picks; fwd is the forwarder it was assigned to. */
    function ClientLoc(fwd: nat, path: string, id: nat): nat {
      if forwarding then fwd else locate(path, id)
    }

    /** The daemon's filter; compiled out in forwarding mode. */
    predicate Serves(h: nat, path: string, id: nat) {
      forwarding || locate(path, id) == h
    }

    /** Daemons have their own root directory, except in forwarding mode, where they share one. */
    function Backends(): nat { if forwarding then 1 else hosts }

    function Backend(h: nat): nat { if forwarding then 0 else h }

    /** The backend that keeps a chunk. */
    function Home(path: string, id: nat): nat {
      if forwarding then 0 else locate(path, id)
    }

    /** The chunks in [lo, hi) that daemon h serves, in order. */
    function Owned(h: nat, path: string, lo: nat, hi: nat): seq<nat> {
      if hi <= lo then []
      else if Serves(h, path, hi - 1) then Owned(h, path, lo, hi - 1) + [hi - 1]
      else Owned(h, path, lo, hi - 1)
    }
  }

  /** A client's target and a daemon's filter agree. In forwarding mode there is one target. */
  lemma TargetServes(e: Env, fwd: nat, path: string, id: nat, h: nat)
    requires e.forwarding ==> h == fwd
    ensures e.Serves(h, path, id) <==> e.ClientLoc(fwd, path, id) == h
  {
  }

  lemma {:induction false} OwnedMember(e: Env, h: nat, path: string, lo: nat, hi: nat, id: nat)
    requires id in e.Owned(h, path, lo, hi)
    ensures lo <= id < hi && e.Serves(h, path, id)
    decreases hi
  {
    if lo < hi && !(e.Serves(h, path, hi - 1) && id == hi - 1) { OwnedMember(e, h, path, lo, hi - 1, id); }
  }

  lemma {:induction false} OwnedHas(e: Env, h: nat, path: string, lo: nat, hi: nat, id: nat)
    requires lo <= id < hi && e.Serves(h, path, id)
    ensures id in e.Owned(h, path, lo, hi)
    decreases hi
  {
    if id < hi - 1 { OwnedHas(e, h, path, lo, hi - 1, id); }
  }

  /** SimpleHashDistributor: hash(path, n) is the string hash of path followed by the decimal form of
      n, the chunk id narrowed to 32 bits. */
  function HashPlacement(hash: (string, nat) -> nat, hosts: nat): (string, nat) -> nat {
    (path: string, id: nat) => Rem(hash(path, id % KEYS), hosts)
  }

  /** Any string hash gives a deployment. */
  lemma HashDeployment(c: nat, hosts: nat, forwarding: bool, hash: (string, nat) -> nat)
    requires ChunkSize(c) && c > 0 && hosts > 0
    ensures Env(c, hosts, forwarding, HashPlacement(hash, hosts)).Valid()
  {
    forall path, id: nat ensures HashPlacement(hash, hosts)(path, id) < hosts {
      QuotRem(hash(path, id % KEYS), hosts);
    }
  }

  /** Every placement on the existing hosts that looks at 32 bits of the chunk number comes from a hash:
      with it, the client sends each chunk to that host, only that host's daemon takes it, and that
      host keeps it. */
  lemma AnyPlacement(c: nat, hosts: nat, locate: (string, nat) -> nat)
    requires c > 0 && ChunkSize(c) && hosts > 0 && (forall path, id: nat :: locate(path, id) < hosts)
    requires forall path, id: nat :: locate(path, id) == locate(path, id % KEYS)
    ensures exists hash ::
      var e := Env(c, hosts, false, HashPlacement(hash, hosts));
      && e.Valid()
      && (forall fwd: nat, path, id: nat :: e.ClientLoc(fwd, path, id) == locate(path, id))
      && (forall h: nat, path, id: nat :: e.Serves(h, path, id) <==> h == locate(path, id))
      && (forall path, id: nat :: e.Home(path, id) == locate(path, id) && e.Backend(locate(path, id)) == locate(path, id))
  {
    var e := Env(c, hosts, false, HashPlacement(locate, hosts));
    HashDeployment(c, hosts, false, locate);
    forall path, id: nat ensures e.locate(path, id) == locate(path, id) {
      RemSmall(locate(path, id % KEYS), hosts);
    }
  }

  lemma {:induction false} RemSmall(x: nat, d: nat)
    requires x < d
    ensures Rem(x, d) == x
  {
  }

  /** Chunk ids that agree in 32 bits share a host. */
  ghost predicate Narrow(e: Env) {
    forall path, id: nat :: e.locate(path, id) == e.locate(path, id % KEYS)
  }

  lemma HashIsNarrow(e: Env, hash: (string, nat) -> nat, hosts: nat)
    requires e.locate == HashPlacement(hash, hosts)
    ensures Narrow(e)
  {
  }
}
