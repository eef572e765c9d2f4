/** Directory listings on the wire: rpc_srv_get_dirents in src/daemon/handler/srv_metadata.cpp packs them,
    forward_get_dirents in src/client/rpc/forward_metadata.cpp takes them apart. */
module Dirents {
  import opened Arith
  import opened Layout
  import opened ChunkStorage

  datatype Entry = Entry(name: seq<byte>, isDir: bool)

  predicate NulFree(s: seq<byte>) { forall i :: 0 <= i < |s| ==> s[i] != 0 }

  ghost predicate Clean(es: seq<Entry>) { forall i :: 0 <= i < |es| ==> NulFree(es[i].name) }

  function Flag(isDir: bool): byte { if isDir then 1 else 0 }

  function Flags(es: seq<Entry>): seq<byte> { seq(|es|, i requires 0 <= i < |es| => Flag(es[i].isDir)) }

  /** The names one after the other, each with its terminator. */
  function Names(es: seq<Entry>): seq<byte> {
    if es == [] then [] else Names(es[..|es| - 1]) + es[|es| - 1].name + [0]
  }

  function Packed(es: seq<Entry>): seq<byte> { Flags(es) + Names(es) }

  /** The layout, by example: a directory d and a file f. */
  lemma PackedByExample()
    ensures Packed([Entry([100], true), Entry([102], false)]) == [1, 0, 100, 0, 102, 0]
  {
    var es := [Entry([100], true), Entry([102], false)];
    assert es[..1] == [es[0]] && es[..1][..0] == [];
    assert Names(es[..1]) == [100, 0];
    assert Flags(es) == [1, 0];
  }

  lemma NamesSnoc(es: seq<Entry>, j: nat)
    requires j < |es|
    ensures Names(es[..j + 1]) == Names(es[..j]) + es[j].name + [0]
  {
    assert es[..j + 1][..j] == es[..j];
  }

  lemma {:induction false} NamesPrefix(es: seq<Entry>, j: nat)
    requires j <= |es|
    ensures |Names(es[..j])| <= |Names(es)| && Names(es)[..|Names(es[..j])|] == Names(es[..j])
    decreases |es| - j
  {
    if j == |es| {
      assert es[..j] == es;
    } else {
      NamesSnoc(es, j);
      NamesPrefix(es, j + 1);
      var a, b := Names(es[..j]), Names(es[..j + 1]);
      assert b[..|a|] == a;
      assert Names(es)[..|b|][..|a|] == Names(es)[..|a|];
    }
  }

  // ---- The daemon ----

  /** strcpy of a terminated name. */
  method Strcpy(a: array<byte>, at: nat, name: seq<byte>, ghost before: seq<byte>)
    requires at + |name| + 1 <= a.Length && before == a[..]
    modifies a
    ensures a[..] == before[..at] + name + [0] + before[at + |name| + 1..]
  {
    for i := 0 to |name|
      invariant a[..at] == before[..at] && a[at..at + i] == name[..i]
        && a[at + |name| + 1..] == before[at + |name| + 1..]
    {
      a[at + i] := name[i];
    }
    a[at + |name|] := 0;
  }

  /** The size that rpc_srv_get_dirents computes. */
  method TotalSize(es: seq<Entry>) returns (n: nat)
    ensures n == |Packed(es)|
  {
    var names := 0;
    for i := 0 to |es|
      invariant names + i == |Names(es[..i])|
    {
      NamesSnoc(es, i);
      names := names + |es[i].name|;
    }
    assert es[..|es|] == es;
    n := names + |es| * 2;
  }

  /** The buffer after the first j entries. */
  ghost predicate PackedUpTo(buf: seq<byte>, es: seq<Entry>, j: nat) {
    && j <= |es| && |buf| == |Packed(es)|
    && buf[..j] == Flags(es[..j]) && Slice(buf, |es|, |Names(es[..j])|) == Names(es[..j])
  }

  /** Setting byte j and copying name behind the n + |a| first bytes. */
  lemma PutEntry(buf: seq<byte>, j: nat, flag: byte, n: nat, a: seq<byte>, name: seq<byte>, buf': seq<byte>)
    requires j < n && n + |a| + |name| + 1 <= |buf| && Slice(buf, n, |a|) == a
    requires buf' == buf[j := flag][..n + |a|] + name + [0] + buf[j := flag][n + |a| + |name| + 1..]
    ensures |buf'| == |buf| && buf'[..j + 1] == buf[..j] + [flag]
    ensures Slice(buf', n, |a| + |name| + 1) == a + name + [0]
  {
    var kept := buf[j := flag][..n + |a|];
    assert kept[..j + 1] == buf[..j] + [flag];
    assert kept[n..] == buf[n..n + |a|];
    assert buf'[..n + |a| + |name| + 1] == kept + name + [0];
    assert buf'[n..n + |a| + |name| + 1] == kept[n..] + name + [0];
  }

  /** There is room for entry j behind the names before it. */
  lemma PackRoom(es: seq<Entry>, j: nat)
    requires j < |es|
    ensures |es| + |Names(es[..j])| + |es[j].name| + 1 <= |Packed(es)|
    ensures |Names(es[..j + 1])| == |Names(es[..j])| + |es[j].name| + 1
  {
    NamesSnoc(es, j);
    NamesPrefix(es, j + 1);
  }

  lemma PackStep(buf: seq<byte>, flagged: seq<byte>, buf': seq<byte>, es: seq<Entry>, j: nat, at: nat)
    requires PackedUpTo(buf, es, j) && j < |es| && at == |es| + |Names(es[..j])| && at + |es[j].name| + 1 <= |buf|
    requires flagged == buf[j := Flag(es[j].isDir)]
    requires buf' == flagged[..at] + es[j].name + [0] + flagged[at + |es[j].name| + 1..]
    ensures PackedUpTo(buf', es, j + 1)
  {
    NamesSnoc(es, j);
    PutEntry(buf, j, Flag(es[j].isDir), |es|, Names(es[..j]), es[j].name, buf');
    FlagStep(buf, buf', es, j);
  }

  lemma FlagStep(buf: seq<byte>, buf': seq<byte>, es: seq<Entry>, j: nat)
    requires j < |es| <= |buf| == |buf'| && buf[..j] == Flags(es[..j])
    requires buf'[..j + 1] == buf[..j] + [Flag(es[j].isDir)]
    ensures buf'[..j + 1] == Flags(es[..j + 1])
  {
    assert Flags(es[..j + 1]) == Flags(es[..j]) + [Flag(es[j].isDir)];
  }

  lemma PackedAll(buf: seq<byte>, es: seq<Entry>)
    requires PackedUpTo(buf, es, |es|)
    ensures buf == Packed(es)
  {
    assert es[..|es|] == es;
    assert buf == buf[..|es|] + buf[|es|..];
  }

  /** One entry: its flag, and its name behind the others. */
  method PackEntry(out: array<byte>, es: seq<Entry>, boolPtr: nat, namesPtr: nat, ghost before: seq<byte>)
    returns (ghost after: seq<byte>)
    requires before == out[..] && PackedUpTo(before, es, boolPtr) && boolPtr < |es|
    requires namesPtr == |es| + |Names(es[..boolPtr])|
    modifies out
    ensures after == out[..] && PackedUpTo(after, es, boolPtr + 1)
  {
    PackRoom(es, boolPtr);
    out[boolPtr] := Flag(es[boolPtr].isDir);
    ghost var flagged := out[..];
    assert flagged == before[boolPtr := Flag(es[boolPtr].isDir)];
    Strcpy(out, namesPtr, es[boolPtr].name, flagged);
    after := out[..];
    PackStep(before, flagged, after, es, boolPtr, namesPtr);
  }

  /** The packing loop of rpc_srv_get_dirents. */
  method Pack(es: seq<Entry>) returns (out: array<byte>)
    ensures fresh(out) && out[..] == Packed(es)
  {
    var outSize := TotalSize(es);
    out := new byte[outSize](_ => 0);
    var boolPtr, namesPtr := 0, |es|;
    ghost var buf := out[..];
    while boolPtr < |es|
      invariant buf == out[..] && PackedUpTo(buf, es, boolPtr) && namesPtr == |es| + |Names(es[..boolPtr])|
    {
      PackRoom(es, boolPtr);
      buf := PackEntry(out, es, boolPtr, namesPtr, buf);
      namesPtr := namesPtr + |es[boolPtr].name| + 1;
      boolPtr := boolPtr + 1;
    }
    PackedAll(buf, es);
  }

  // ---- The client ----

  /** The C string at index at. */
  function CString(buf: seq<byte>, at: nat): seq<byte>
    decreases |buf| - at
  {
    if at >= |buf| || buf[at] == 0 then [] else [buf[at]] + CString(buf, at + 1)
  }

  lemma {:induction false} CStringFound(buf: seq<byte>, at: nat, name: seq<byte>)
    requires NulFree(name) && Slice(buf, at, |name| + 1) == name + [0]
    ensures CString(buf, at) == name
    decreases |name|
  {
    assert buf[at..at + |name| + 1] == name + [0];
    if name == [] {
      assert buf[at] == (name + [0])[0];
    } else {
      assert buf[at] == (name + [0])[0] == name[0];
      assert buf[at + 1..at + |name| + 1] == name[1..] + [0] by {
        assert buf[at..at + |name| + 1][1..] == (name + [0])[1..];
      }
      CStringFound(buf, at + 1, name[1..]);
    }
  }

  lemma SliceInside(buf: seq<byte>, base: nat, whole: seq<byte>, i: nat, n: nat)
    requires base + |whole| <= |buf| && Slice(buf, base, |whole|) == whole && i + n <= |whole|
    ensures Slice(buf, base + i, n) == whole[i..i + n]
  {
    var a, b := buf[base + i..base + i + n], whole[i..i + n];
    forall k | 0 <= k < n ensures a[k] == b[k] {
      assert whole[i + k] == buf[base..base + |whole|][i + k];
    }
  }

  /** Where entry j is in a packed listing. */
  lemma EntryPlace(es: seq<Entry>, j: nat)
    requires j < |es|
    ensures var at := |es| + |Names(es[..j])|;
      && Packed(es)[j] == Flag(es[j].isDir)
      && at + |es[j].name| + 1 <= |Packed(es)| && Packed(es)[at..at + |es[j].name| + 1] == es[j].name + [0]
  {
    NamesSnoc(es, j);
    NamesPrefix(es, j + 1);
    var n, a, name := |es|, Names(es[..j]), es[j].name;
    var b := |a| + |name| + 1;
    assert Names(es)[..b] == a + (name + [0]);
    assert Packed(es)[n + |a|..n + b] == Names(es)[..b][|a|..];
  }

  /** A listing lies at index base of the buffer. */
  ghost predicate PackedAt(buf: seq<byte>, base: nat, es: seq<Entry>) {
    Clean(es) && base + |Packed(es)| <= |buf| && Slice(buf, base, |Packed(es)|) == Packed(es)
  }

  lemma FlagInBuffer(buf: seq<byte>, base: nat, es: seq<Entry>, j: nat)
    requires PackedAt(buf, base, es) && j < |es|
    ensures buf[base + j] == Flag(es[j].isDir)
  {
    EntryPlace(es, j);
    SliceInside(buf, base, Packed(es), j, 1);
    assert buf[base + j] == Slice(buf, base + j, 1)[0];
  }

  /** data is found at index at of the buffer. */
  predicate Found(buf: seq<byte>, at: nat, data: seq<byte>) { Slice(buf, at, |data|) == data }

  lemma NameInBuffer(buf: seq<byte>, base: nat, es: seq<Entry>, j: nat, at: nat)
    requires PackedAt(buf, base, es) && j < |es| && at == |es| + |Names(es[..j])|
    ensures at < |Packed(es)| && NulFree(es[j].name) && Found(buf, base + at, es[j].name + [0])
  {
    EntryPlace(es, j);
    SliceInside(buf, base, Packed(es), at, |es[j].name| + 1);
  }

  lemma {:induction false} FoundName(buf: seq<byte>, at: nat, name: seq<byte>)
    requires NulFree(name) && Found(buf, at, name + [0])
    ensures CString(buf, at) == name
  {
    CStringFound(buf, at, name);
  }

  /** The parsing loop: it recovers the listing, and both in-bounds assertions hold. */
  method Unpack(buf: seq<byte>, base: nat, perHost: nat, count: nat, ghost es: seq<Entry>) returns (out: seq<Entry>)
    requires PackedAt(buf, base, es) && count == |es| && |Packed(es)| <= perHost
    ensures out == es
  {
    out := [];
    var boolPtr, namesPtr := base, base + count;
    for j := 0 to count
      invariant out == es[..j] && boolPtr == base + j && namesPtr == base + (|es| + |Names(es[..j])|)
    {
      FlagInBuffer(buf, base, es, j);
      NameInBuffer(buf, base, es, j, |es| + |Names(es[..j])|);
      FoundName(buf, base + (|es| + |Names(es[..j])|), es[j].name);
      NamesSnoc(es, j);
      var isDir := buf[boolPtr] != 0;
      boolPtr := boolPtr + 1;
      assert 0 < namesPtr - base < perHost;
      var name := CString(buf, namesPtr);
      namesPtr := namesPtr + |name| + 1;
      out := out + [Entry(name, isDir)];
    }
  }

  // ---- All hosts ----

  /** The regions of the shared buffer do not overlap and stay inside it. */
  lemma {:induction false} RegionInside(n: nat, perHost: nat, size: nat, i: nat)
    requires Times(perHost, n) <= size && i < n
    ensures Times(perHost, i) + perHost <= size
  {
    TimesMonotone(perHost, i, n);
  }

  /** Region i holds the listing of host i. */
  ghost predicate Delivered(buf: seq<byte>, perHost: nat, hosts: seq<seq<Entry>>, i: nat) {
    i < |hosts| ==>
      |Packed(hosts[i])| <= perHost && PackedAt(buf, Times(perHost, i), hosts[i])
  }

  lemma CopyElsewhere(buf: seq<byte>, at: nat, data: seq<byte>, i: nat, n: nat)
    requires at + |data| <= |buf| && i + n <= |buf| && (i + n <= at || at + |data| <= i)
    ensures Slice(Copy(buf, at, data), i, n) == Slice(buf, i, n)
  {
    CopySlice(buf, at, data);
    forall k | i <= k < i + n ensures Copy(buf, at, data)[k] == buf[k] { CopyAt(buf, at, data, k); }
    assert Copy(buf, at, data)[i..i + n] == buf[i..i + n];
  }

  /** One push: its own region is filled and the others stay. */
  lemma {:induction false} DeliverStep(buf: seq<byte>, perHost: nat, hosts: seq<seq<Entry>>, h: nat, i: nat)
    requires h < |hosts| && Clean(hosts[h]) && |Packed(hosts[h])| <= perHost && Times(perHost, |hosts|) <= |buf|
    requires i == h || Delivered(buf, perHost, hosts, i)
    ensures Delivered(Copy(buf, Times(perHost, h), Packed(hosts[h])), perHost, hosts, i)
    ensures |Copy(buf, Times(perHost, h), Packed(hosts[h]))| == |buf|
  {
    RegionInside(|hosts|, perHost, |buf|, h);
    CopySlice(buf, Times(perHost, h), Packed(hosts[h]));
    if i != h && i < |hosts| {
      RegionInside(|hosts|, perHost, |buf|, i);
      if i < h { TimesMonotone(perHost, i, h); } else { TimesMonotone(perHost, h, i); }
      CopyElsewhere(buf, Times(perHost, h), Packed(hosts[h]), Times(perHost, i), |Packed(hosts[i])|);
    }
  }

  ghost predicate AllClean(hosts: seq<seq<Entry>>) { forall i :: 0 <= i < |hosts| ==> Clean(hosts[i]) }

  predicate Fits(perHost: nat, es: seq<Entry>) { |Packed(es)| <= perHost }

  /** The regions after the daemons listed in done have answered. */
  ghost predicate AllDelivered(buf: seq<byte>, perHost: nat, hosts: seq<seq<Entry>>, done: seq<nat>) {
    forall i: nat :: i in done && i < |hosts| && Fits(perHost, hosts[i]) ==> Delivered(buf, perHost, hosts, i)
  }

  lemma {:induction false} AllDeliveredStep(buf: seq<byte>, perHost: nat, hosts: seq<seq<Entry>>, done: seq<nat>,
                                            h: nat)
    requires AllClean(hosts) && Times(perHost, |hosts|) <= |buf| && AllDelivered(buf, perHost, hosts, done)
    requires h < |hosts| && Fits(perHost, hosts[h])
    ensures AllDelivered(Copy(buf, Times(perHost, h), Packed(hosts[h])), perHost, hosts, done + [h])
    ensures |Copy(buf, Times(perHost, h), Packed(hosts[h]))| == |buf|
  {
    var buf' := Copy(buf, Times(perHost, h), Packed(hosts[h]));
    DeliverStep(buf, perHost, hosts, h, h);
    forall i: nat | i in done + [h] && i < |hosts| && Fits(perHost, hosts[i])
      ensures Delivered(buf', perHost, hosts, i) {
      DeliverStep(buf, perHost, hosts, h, i);
    }
  }

  /** The daemons push their listings, in any order. One whose listing does not fit answers ENOBUFS. */
  method PushListings(buf0: seq<byte>, perHost: nat, hosts: seq<seq<Entry>>, order: seq<nat>) returns (buf: seq<byte>)
    requires AllClean(hosts) && Times(perHost, |hosts|) <= |buf0| && forall k :: 0 <= k < |order| ==> order[k] < |hosts|
    ensures |buf| == |buf0| && AllDelivered(buf, perHost, hosts, order)
  {
    buf := buf0;
    for k := 0 to |order|
      invariant |buf| == |buf0| && AllDelivered(buf, perHost, hosts, order[..k])
    {
      var h := order[k];
      assert order[..k + 1] == order[..k] + [h];
      var outSize := TotalSize(hosts[h]);
      if outSize <= perHost {
        AllDeliveredStep(buf, perHost, hosts, order[..k], h);
        TimesIsProduct(perHost, h);
        var out := Pack(hosts[h]);
        buf := Copy(buf, h * perHost, out[..]);
      }
    }
    assert order[..|order|] == order;
  }

  function Flatten(hosts: seq<seq<Entry>>): seq<Entry> {
    if hosts == [] then [] else Flatten(hosts[..|hosts| - 1]) + hosts[|hosts| - 1]
  }

  /** forward_get_dirents: whatever the order of the answers, the client gets the listings of all hosts,
      host by host, unless one does not fit its share of the buffer. */
  method GetDirents(hosts: seq<seq<Entry>>, largeBuffer: seq<byte>, order: seq<nat>) returns (ok: bool, out: seq<Entry>)
    requires AllClean(hosts) && |hosts| > 0
    requires (forall k :: 0 <= k < |order| ==> order[k] < |hosts|) && forall i: nat :: i < |hosts| ==> i in order
    ensures ok <==> forall i :: 0 <= i < |hosts| ==> Fits(|largeBuffer| / |hosts|, hosts[i])
    ensures ok ==> out == Flatten(hosts)
  {
    var perHost := |largeBuffer| / |hosts|;
    TimesIsProduct(perHost, |hosts|);
    assert perHost * |hosts| <= |largeBuffer|;
    var buf := PushListings(largeBuffer, perHost, hosts, order);
    out := [];
    for i := 0 to |hosts|
      invariant out == Flatten(hosts[..i])
      invariant forall j :: 0 <= j < i ==> Fits(perHost, hosts[j])
    {
      var size := TotalSize(hosts[i]);
      if size > perHost { return false, []; }
      assert Delivered(buf, perHost, hosts, i);
      TimesIsProduct(perHost, i);
      var es := Unpack(buf, i * perHost, perHost, |hosts[i]|, hosts[i]);
      assert hosts[..i + 1][..i] == hosts[..i];
      out := out + es;
    }
    assert hosts[..|hosts|] == hosts;
    ok := true;
  }
}
