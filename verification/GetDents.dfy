/** src/client/gkfs_functions.cpp, gkfs_getdents and gkfs_getdents64: resumable packing of directory
    entries into the user's buffer. The two differ in where type byte and name go. */
module GetDents {
  import opened Arith
  import opened Bits
  import opened ChunkCalc
  import opened Layout
  import opened ChunkStorage
  import opened Dirents

  const DT_DIR: byte := 4
  const DT_REG: byte := 8

  /** struct linux_dirent, with the type in the last byte of the record, or struct linux_dirent64. */
  datatype Form = Dirent | Dirent64 {
    function NameAt(): nat { if Dirent? then 18 else 19 }

    /** Space behind the name that the rounded size must at least have. */
    function Extra(): nat { if Dirent? then 3 else 1 }

    function TypeAt(total: nat): nat { if Dirent64? then 18 else if total == 0 then 0 else total - 1 }
  }

  /** ALIGN(x, 8) of the kernel. */
  function Align(x: nat): nat { x + 7 - (x + 7) % 8 }

  /** It is computed by adding the mask and clearing it. */
  lemma AlignIsMask(x: nat)
    requires x < 0x1_0000_0000
    ensures ChunkSize(8) && Lalign(x + 7, 8) == Align(x)
  {
    assert Pow2(3) == 2 * Pow2(2);
    assert Pow2(3) == 8;
  }

  /** Names that fit a 16-bit record length; file names are far shorter. */
  predicate ShortName(e: Entry) { NulFree(e.name) && |e.name| <= 0xff00 }

  ghost predicate AllShort(es: seq<Entry>) { forall i :: 0 <= i < |es| ==> ShortName(es[i]) }

  /** Size of the record of an entry. */
  function RecordSize(f: Form, e: Entry): nat { Align(f.NameAt() + |e.name| + f.Extra()) }

  lemma RecordSizeBounds(f: Form, e: Entry)
    ensures var n := f.NameAt() + |e.name| + f.Extra(); n <= RecordSize(f, e) < n + 8
  {
  }

  function TypeCode(e: Entry): byte { if e.isDir then DT_DIR else DT_REG }

  // ---- Little-endian numbers ----

  /** Byte i of x. */
  function Digit(x: nat, i: nat): byte
    decreases i
  {
    if i == 0 then x % 256 else Digit(x / 256, i - 1)
  }

  /** The n low bytes of x, lowest first. */
  function Le(x: nat, n: nat): seq<byte> { seq(n, i requires i >= 0 => Digit(x, i)) }

  function FromLe(s: seq<byte>): nat { if s == [] then 0 else s[0] + 256 * FromLe(s[1..]) }

  function Pow256(n: nat): nat { if n == 0 then 1 else 256 * Pow256(n - 1) }

  lemma {:induction false} LeRoundTrip(x: nat, n: nat)
    requires x < Pow256(n)
    ensures FromLe(Le(x, n)) == x
    decreases n
  {
    if n > 0 {
      LeRoundTrip(x / 256, n - 1);
      assert Le(x, n)[1..] == Le(x / 256, n - 1);
    }
  }

  lemma Pow256Values()
    ensures Pow256(2) == 0x1_0000 && Pow256(8) == WORD
  {
    assert Pow256(4) == 256 * Pow256(3) && Pow256(6) == 256 * Pow256(5);
  }

  // ---- One record ----

  /** data lies at index at of the buffer. */
  predicate Field(buf: seq<byte>, at: nat, data: seq<byte>) { at + |data| <= |buf| && Slice(buf, at, |data|) == data }

  lemma PutField(buf: seq<byte>, at: nat, data: seq<byte>)
    requires at + |data| <= |buf|
    ensures |Copy(buf, at, data)| == |buf| && Field(Copy(buf, at, data), at, data)
  {
    CopySlice(buf, at, data);
  }

  lemma KeepField(buf: seq<byte>, at: nat, data: seq<byte>, i: nat, d: seq<byte>)
    requires at + |data| <= |buf| && Field(buf, i, d) && (i + |d| <= at || at + |data| <= i)
    ensures |Copy(buf, at, data)| == |buf| && Field(Copy(buf, at, data), i, d)
  {
    CopySlice(buf, at, data);
    CopyElsewhere(buf, at, data, i, |d|);
  }

  predicate Four(buf: seq<byte>, a: nat, x: seq<byte>, b: nat, y: seq<byte>, c: nat, z: seq<byte>, d: nat,
                 w: seq<byte>) {
    Field(buf, a, x) && Field(buf, b, y) && Field(buf, c, z) && Field(buf, d, w)
  }

  /** A record with the given d_off, d_reclen, type and name. */
  predicate Fields(buf: seq<byte>, at: nat, off: seq<byte>, len: seq<byte>, typeAt: nat, code: byte, nameAt: nat,
                   name: seq<byte>) {
    Four(buf, at + 16, len, at + typeAt, [code], at + nameAt, name + [0], at + 8, off)
  }

  /** The record of entry e at index at, with d_off off; d_ino is a hash that nobody interprets. */
  predicate RecordAt(f: Form, buf: seq<byte>, at: nat, e: Entry, off: nat) {
    var total := RecordSize(f, e);
    Fields(buf, at, Le(off, 8), Le(total, 2), f.TypeAt(total), TypeCode(e), f.NameAt(), e.name)
  }

  /** Sizes of the encoded numbers of a record. */
  lemma RecordNumbers(f: Form, e: Entry, off: nat)
    requires ShortName(e) && off < WORD
    ensures |Le(off, 8)| == 8 && FromLe(Le(off, 8)) == off
    ensures |Le(RecordSize(f, e), 2)| == 2 && FromLe(Le(RecordSize(f, e), 2)) == RecordSize(f, e)
  {
    Pow256Values();
    RecordSizeBounds(f, e);
    LeRoundTrip(off, 8);
    LeRoundTrip(RecordSize(f, e), 2);
  }

  predicate Apart(a: nat, x: seq<byte>, b: nat, y: seq<byte>) { a + |x| <= b || b + |y| <= a }

  /** Four copies to places apart from each other. */
  lemma FourCopies(b1: seq<byte>, b2: seq<byte>, b3: seq<byte>, b4: seq<byte>, b5: seq<byte>,
                   a: nat, x: seq<byte>, b: nat, y: seq<byte>, c: nat, z: seq<byte>, d: nat, w: seq<byte>)
    requires a + |x| <= |b1| && b + |y| <= |b1| && c + |z| <= |b1| && d + |w| <= |b1|
    requires Apart(a, x, b, y) && Apart(a, x, c, z) && Apart(a, x, d, w)
    requires Apart(b, y, c, z) && Apart(b, y, d, w) && Apart(c, z, d, w)
    requires b2 == Copy(b1, a, x) && b3 == Copy(b2, b, y) && b4 == Copy(b3, c, z) && b5 == Copy(b4, d, w)
    ensures |b5| == |b1| && Four(b5, a, x, b, y, c, z, d, w)
  {
    PutField(b1, a, x);
    PutField(b2, b, y);
    KeepField(b2, b, y, a, x);
    PutField(b3, c, z);
    KeepField(b3, c, z, a, x);
    KeepField(b3, c, z, b, y);
    PutField(b4, d, w);
    KeepField(b4, d, w, a, x);
    KeepField(b4, d, w, b, y);
    KeepField(b4, d, w, c, z);
  }

  lemma FieldsApart(at: nat, off: seq<byte>, len: seq<byte>, typeAt: nat, code: byte, nameAt: nat, name: seq<byte>)
    requires |off| == 8 && |len| == 2 && 18 <= nameAt && (18 <= typeAt < nameAt || nameAt + |name| < typeAt)
    ensures Apart(at + 16, len, at + typeAt, [code]) && Apart(at + 16, len, at + nameAt, name + [0])
    ensures Apart(at + 16, len, at + 8, off) && Apart(at + typeAt, [code], at + nameAt, name + [0])
    ensures Apart(at + typeAt, [code], at + 8, off) && Apart(at + nameAt, name + [0], at + 8, off)
  {
  }

  // ---- A buffer of records ----

  /** Total size of the records of es. */
  function SizeSum(f: Form, es: seq<Entry>): nat {
    if es == [] then 0 else SizeSum(f, es[..|es| - 1]) + RecordSize(f, es[|es| - 1])
  }

  lemma {:induction false} SizeSnoc(f: Form, es: seq<Entry>, k: nat)
    requires k < |es|
    ensures SizeSum(f, es[..k + 1]) == SizeSum(f, es[..k]) + RecordSize(f, es[k])
  {
    assert es[..k + 1][..k] == es[..k];
  }

  lemma {:induction false} SizeGrows(f: Form, es: seq<Entry>, k: nat)
    requires k <= |es|
    ensures SizeSum(f, es[..k]) <= SizeSum(f, es)
    decreases |es| - k
  {
    if k == |es| {
      assert es[..k] == es;
    } else {
      SizeSnoc(f, es, k);
      SizeGrows(f, es, k + 1);
    }
  }

  /** The buffer starts with the records of es; end is the directory position behind the last one. */
  predicate Records(f: Form, buf: seq<byte>, es: seq<Entry>, end: nat) {
    es == [] ||
    var init, last := es[..|es| - 1], es[|es| - 1];
    end > 0 && Records(f, buf, init, end - 1) && RecordAt(f, buf, SizeSum(f, init), last, end)
  }

  lemma SamePrefixField(buf: seq<byte>, buf': seq<byte>, n: nat, i: nat, d: seq<byte>)
    requires n <= |buf| == |buf'| && buf[..n] == buf'[..n] && i + |d| <= n && Field(buf, i, d)
    ensures Field(buf', i, d)
  {
    assert buf'[i..i + |d|] == buf'[..n][i..i + |d|];
    assert buf[i..i + |d|] == buf[..n][i..i + |d|];
  }

  lemma SamePrefixFields(buf: seq<byte>, buf': seq<byte>, n: nat, at: nat, off: seq<byte>, len: seq<byte>, typeAt: nat,
                         code: byte, nameAt: nat, name: seq<byte>)
    requires n <= |buf| == |buf'| && buf[..n] == buf'[..n] && Fields(buf, at, off, len, typeAt, code, nameAt, name)
    requires at + 8 + |off| <= n && at + 16 + |len| <= n && at + typeAt < n && at + nameAt + |name| + 1 <= n
    ensures Fields(buf', at, off, len, typeAt, code, nameAt, name)
  {
    SamePrefixField(buf, buf', n, at + 8, off);
    SamePrefixField(buf, buf', n, at + 16, len);
    SamePrefixField(buf, buf', n, at + typeAt, [code]);
    SamePrefixField(buf, buf', n, at + nameAt, name + [0]);
  }

  lemma NumberSizes(off: nat, total: nat)
    ensures |Le(off, 8)| == 8 && |Le(total, 2)| == 2
  {
  }

  /** A record only depends on its own bytes. */
  lemma SamePrefixRecord(f: Form, buf: seq<byte>, buf': seq<byte>, n: nat, at: nat, e: Entry, off: nat)
    requires n <= |buf| == |buf'| && buf[..n] == buf'[..n]
    requires at + RecordSize(f, e) <= n && RecordAt(f, buf, at, e, off)
    ensures RecordAt(f, buf', at, e, off)
  {
    var total := RecordSize(f, e);
    NumberSizes(off, total);
    RecordSizeBounds(f, e);
    SamePrefixFields(buf, buf', n, at, Le(off, 8), Le(total, 2), f.TypeAt(total), TypeCode(e), f.NameAt(), e.name);
  }

  lemma CopyKeepsPrefix(buf: seq<byte>, n: nat, at: nat, data: seq<byte>)
    requires n <= at && n <= |buf|
    ensures |Copy(buf, at, data)| == |buf| && Copy(buf, at, data)[..n] == buf[..n]
  {
  }

  lemma {:induction false} RecordsKept(f: Form, buf: seq<byte>, buf': seq<byte>, es: seq<Entry>, end: nat, n: nat)
    requires Records(f, buf, es, end)
    requires SizeSum(f, es) <= n <= |buf| == |buf'| && buf'[..n] == buf[..n]
    ensures Records(f, buf', es, end)
  {
    if es != [] {
      var init, last := es[..|es| - 1], es[|es| - 1];
      RecordsKept(f, buf, buf', init, end - 1, n);
      SamePrefixRecord(f, buf, buf', n, SizeSum(f, init), last, end);
    }
  }

  lemma RecordsAppend(f: Form, buf: seq<byte>, es: seq<Entry>, end: nat, e: Entry)
    requires Records(f, buf, es, end) && RecordAt(f, buf, SizeSum(f, es), e, end + 1)
    ensures Records(f, buf, es + [e], end + 1) && SizeSum(f, es + [e]) == SizeSum(f, es) + RecordSize(f, e)
  {
    Snoc(es, e);
  }

  /** One more record behind the others. */
  lemma RecordsPut(f: Form, buf: seq<byte>, buf': seq<byte>, es: seq<Entry>, end: nat, e: Entry, all: seq<Entry>)
    requires Records(f, buf, es, end)
    requires SizeSum(f, es) <= |buf| == |buf'| && buf'[..SizeSum(f, es)] == buf[..SizeSum(f, es)]
    requires RecordAt(f, buf', SizeSum(f, es), e, end + 1) && all == es + [e]
    ensures Records(f, buf', all, end + 1)
  {
    RecordsKept(f, buf, buf', es, end, SizeSum(f, es));
    RecordsAppend(f, buf', es, end, e);
  }

  // ---- The reader ----

  /** What a program sees of a record. */
  datatype Seen = Seen(name: seq<byte>, code: byte, off: nat)

  function RecLen(buf: seq<byte>, at: nat): nat { FromLe(Slice(buf, at + 16, 2)) }

  function ByteAt(buf: seq<byte>, i: nat): byte { if i < |buf| then buf[i] else 0 }

  /** A record as programs read it: struct linux_dirent64 has the type at 18 and the name at 19, struct
      linux_dirent the name at 18 and the type in the last byte; both have d_off at 8 and d_reclen at 16. */
  function Decode(wide: bool, buf: seq<byte>, at: nat): Seen {
    var off := FromLe(Slice(buf, at + 8, 8));
    if wide then Seen(CString(buf, at + 19), ByteAt(buf, at + 18), off)
    else Seen(CString(buf, at + 18), if RecLen(buf, at) == 0 then 0 else ByteAt(buf, at + (RecLen(buf, at) - 1)), off)
  }

  /** The records from index at to end, found by their d_reclen. */
  function WalkRecords(wide: bool, buf: seq<byte>, at: nat, end: nat): seq<Seen>
    decreases end - at
  {
    if at >= end || RecLen(buf, at) == 0 then []
    else [Decode(wide, buf, at)] + WalkRecords(wide, buf, at + RecLen(buf, at), end)
  }

  /** What a program must see of an entry: type 4 for a directory, 8 for a file. */
  function SeenAs(e: Entry, off: nat): Seen { Seen(e.name, if e.isDir then 4 else 8, off) }

  /** The entries in order, each with the position behind it. */
  function Listing(es: seq<Entry>, pos: nat): seq<Seen> {
    seq(|es|, k requires 0 <= k < |es| => SeenAs(es[k], pos + k + 1))
  }

  lemma {:induction false} DecodeFields(f: Form, buf: seq<byte>, at: nat, off: seq<byte>, len: seq<byte>, code: byte,
                                        name: seq<byte>)
    requires |off| == 8 && |len| == 2 && NulFree(name) && FromLe(len) > 0
    requires Fields(buf, at, off, len, f.TypeAt(FromLe(len)), code, f.NameAt(), name)
    ensures RecLen(buf, at) == FromLe(len) && Decode(f.Dirent64?, buf, at) == Seen(name, code, FromLe(off))
  {
    CStringFound(buf, at + f.NameAt(), name);
    assert Slice(buf, at + f.TypeAt(FromLe(len)), 1)[0] == code;
  }

  lemma DecodeRecord(f: Form, buf: seq<byte>, at: nat, e: Entry, off: nat)
    requires RecordAt(f, buf, at, e, off) && ShortName(e) && off < WORD
    ensures RecLen(buf, at) == RecordSize(f, e) > 0 && Decode(f.Dirent64?, buf, at) == SeenAs(e, off)
  {
    RecordNumbers(f, e, off);
    RecordSizeBounds(f, e);
    DecodeFields(f, buf, at, Le(off, 8), Le(RecordSize(f, e), 2), TypeCode(e), e.name);
  }

  lemma {:induction false} DecodeEntry(f: Form, buf: seq<byte>, es: seq<Entry>, end: nat, k: nat)
    requires Records(f, buf, es, end) && AllShort(es) && |es| <= end < WORD && k < |es|
    ensures var at := SizeSum(f, es[..k]);
      RecLen(buf, at) == RecordSize(f, es[k]) > 0 && Decode(f.Dirent64?, buf, at) == SeenAs(es[k], end - |es| + k + 1)
  {
    var init, last := es[..|es| - 1], es[|es| - 1];
    if k == |init| {
      DecodeRecord(f, buf, SizeSum(f, init), last, end);
    } else {
      assert init[..k] == es[..k] && init[k] == es[k];
      DecodeEntry(f, buf, init, end - 1, k);
    }
  }

  /** Entry k can be read where the sizes of the entries before it end. */
  predicate Decodes(f: Form, buf: seq<byte>, es: seq<Entry>, pos: nat, k: nat) {
    k < |es| ==>
      var at := SizeSum(f, es[..k]);
      RecLen(buf, at) == RecordSize(f, es[k]) > 0 && Decode(f.Dirent64?, buf, at) == SeenAs(es[k], pos + k + 1)
  }

  lemma {:induction false} WalkOne(f: Form, buf: seq<byte>, es: seq<Entry>, pos: nat, k: nat)
    requires k < |es| && Decodes(f, buf, es, pos, k)
    ensures WalkRecords(f.Dirent64?, buf, SizeSum(f, es[..k]), SizeSum(f, es))
         == [SeenAs(es[k], pos + k + 1)] + WalkRecords(f.Dirent64?, buf, SizeSum(f, es[..k + 1]), SizeSum(f, es))
  {
    SizeSnoc(f, es, k);
    SizeGrows(f, es, k + 1);
  }

  lemma {:induction false} WalkDecodes(f: Form, buf: seq<byte>, es: seq<Entry>, pos: nat, k: nat)
    requires k <= |es| && forall i: nat :: Decodes(f, buf, es, pos, i)
    ensures WalkRecords(f.Dirent64?, buf, SizeSum(f, es[..k]), SizeSum(f, es)) == Listing(es, pos)[k..]
    decreases |es| - k
  {
    if k == |es| {
      assert es[..k] == es;
    } else {
      assert Decodes(f, buf, es, pos, k);
      WalkOne(f, buf, es, pos, k);
      WalkDecodes(f, buf, es, pos, k + 1);
      ListingStep(es, pos, k);
    }
  }

  /** Walking the buffer gives every packed entry exactly once, in order, with name, type and d_off. */
  lemma {:induction false} WalkSees(f: Form, buf: seq<byte>, es: seq<Entry>, pos: nat, end: nat)
    requires Records(f, buf, es, end) && AllShort(es) && pos + |es| == end < WORD
    ensures WalkRecords(f.Dirent64?, buf, 0, SizeSum(f, es)) == Listing(es, pos)
  {
    forall i: nat ensures Decodes(f, buf, es, pos, i) {
      if i < |es| { DecodeEntry(f, buf, es, end, i); }
    }
    WalkDecodes(f, buf, es, pos, 0);
  }

  lemma ListingStep(es: seq<Entry>, pos: nat, k: nat)
    requires k < |es|
    ensures Listing(es, pos)[k..] == [SeenAs(es[k], pos + k + 1)] + Listing(es, pos)[k + 1..]
  {
  }

  // ---- The system calls ----

  /** A store to a field of the record, or strcpy. */
  method PutBytes(a: array<byte>, at: nat, data: seq<byte>)
    requires at + |data| <= a.Length
    modifies a
    ensures a[..] == Copy(old(a[..]), at, data)
  {
    for i := 0 to |data|
      invariant a[..] == Copy(old(a[..]), at, data[..i])
    {
      CopyOneMore(old(a[..]), at, data, i);
      a[at + i] := data[i];
    }
    assert data[..|data|] == data;
  }

  lemma CopyOneMore(buf: seq<byte>, at: nat, data: seq<byte>, i: nat)
    requires at + |data| <= |buf| && i < |data|
    ensures Copy(buf, at, data[..i + 1]) == Copy(buf, at, data[..i])[at + i := data[i]]
  {
  }

  method PutTwo(a: array<byte>, i: nat, x: seq<byte>, j: nat, y: seq<byte>, ghost before: seq<byte>)
    returns (ghost mid: seq<byte>, ghost after: seq<byte>)
    requires i + |x| <= a.Length && j + |y| <= a.Length && before == a[..]
    modifies a
    ensures mid == Copy(before, i, x) && after == Copy(mid, j, y) && after == a[..]
  {
    PutBytes(a, i, x);
    mid := a[..];
    PutBytes(a, j, y);
    after := a[..];
  }

  /** The five stores of a record. */
  method PutFive(dirp: array<byte>, i: nat, v: seq<byte>, a: nat, x: seq<byte>, b: nat, y: seq<byte>, c: nat,
                 z: seq<byte>, d: nat, w: seq<byte>, ghost before: seq<byte>)
    returns (ghost b1: seq<byte>, ghost b2: seq<byte>, ghost b3: seq<byte>, ghost b4: seq<byte>, ghost after: seq<byte>)
    requires i + |v| <= dirp.Length && a + |x| <= dirp.Length && b + |y| <= dirp.Length && c + |z| <= dirp.Length
    requires d + |w| <= dirp.Length && before == dirp[..]
    modifies dirp
    ensures b1 == Copy(before, i, v) && b2 == Copy(b1, a, x) && b3 == Copy(b2, b, y) && b4 == Copy(b3, c, z)
    ensures after == Copy(b4, d, w) && after == dirp[..]
  {
    b1, b2 := PutTwo(dirp, i, v, a, x, before);
    b3, b4 := PutTwo(dirp, b, y, c, z, b2);
    PutBytes(dirp, d, w);
    after := dirp[..];
  }

  lemma FiveKeepPrefix(b0: seq<byte>, b1: seq<byte>, b2: seq<byte>, b3: seq<byte>, b4: seq<byte>, b5: seq<byte>, n: nat,
                       i: nat, v: seq<byte>, a: nat, x: seq<byte>, b: nat, y: seq<byte>, c: nat, z: seq<byte>, d: nat,
                       w: seq<byte>)
    requires n <= |b0| && n <= i && n <= a && n <= b && n <= c && n <= d && b1 == Copy(b0, i, v)
    requires b2 == Copy(b1, a, x) && b3 == Copy(b2, b, y) && b4 == Copy(b3, c, z) && b5 == Copy(b4, d, w)
    ensures |b1| == |b5| == |b0| && b5[..n] == b0[..n]
  {
    CopyKeepsPrefix(b0, n, i, v);
    CopyKeepsPrefix(b1, n, a, x);
    CopyKeepsPrefix(b2, n, b, y);
    CopyKeepsPrefix(b3, n, c, z);
    CopyKeepsPrefix(b4, n, d, w);
  }

  /** d_reclen, the type, the name and d_off, stored in that order: none overwrites another, in
      particular the name with its terminator does not touch the type byte. */
  lemma WrittenFields(b1: seq<byte>, b2: seq<byte>, b3: seq<byte>, b4: seq<byte>, b5: seq<byte>,
                      at: nat, off: seq<byte>, len: seq<byte>, typeAt: nat, code: byte, nameAt: nat, name: seq<byte>)
    requires |off| == 8 && |len| == 2 && 18 <= nameAt && at + nameAt + |name| + 1 <= |b1| && at + typeAt < |b1|
    requires 18 <= typeAt < nameAt || nameAt + |name| < typeAt
    requires b2 == Copy(b1, at + 16, len) && b3 == Copy(b2, at + typeAt, [code])
    requires b4 == Copy(b3, at + nameAt, name + [0]) && b5 == Copy(b4, at + 8, off)
    ensures Fields(b5, at, off, len, typeAt, code, nameAt, name)
  {
    FieldsApart(at, off, len, typeAt, code, nameAt, name);
    FourCopies(b1, b2, b3, b4, b5, at + 16, len, at + typeAt, [code], at + nameAt, name + [0], at + 8, off);
  }

  lemma WrittenRecord(b0: seq<byte>, b1: seq<byte>, b2: seq<byte>, b3: seq<byte>, b4: seq<byte>, b5: seq<byte>, at: nat,
                      ino: seq<byte>, off: seq<byte>, len: seq<byte>, typeAt: nat, code: byte, nameAt: nat,
                      name: seq<byte>)
    requires |off| == 8 && |len| == 2 && 18 <= nameAt && at + nameAt + |name| + 1 <= |b0| && at + typeAt < |b0|
    requires 18 <= typeAt < nameAt || nameAt + |name| < typeAt
    requires b1 == Copy(b0, at, ino) && b2 == Copy(b1, at + 16, len) && b3 == Copy(b2, at + typeAt, [code])
    requires b4 == Copy(b3, at + nameAt, name + [0]) && b5 == Copy(b4, at + 8, off)
    ensures Fields(b5, at, off, len, typeAt, code, nameAt, name) && |b5| == |b0| && b5[..at] == b0[..at]
  {
    var a, b, c, d, text := at + 16, at + typeAt, at + nameAt, at + 8, name + [0];
    FiveKeepPrefix(b0, b1, b2, b3, b4, b5, at, at, ino, a, len, b, [code], c, text, d, off);
    WrittenFields(b1, b2, b3, b4, b5, at, off, len, typeAt, code, nameAt, name);
  }

  /** The fields of a record, in the order of the source; after is the buffer then. */
  method WriteFields(dirp: array<byte>, at: nat, ino: seq<byte>, off: seq<byte>, len: seq<byte>, typeAt: nat,
                     code: byte, nameAt: nat, name: seq<byte>, ghost before: seq<byte>)
    returns (ghost after: seq<byte>)
    requires |ino| == 8 && |off| == 8 && |len| == 2 && 18 <= nameAt && before == dirp[..]
    requires at + nameAt + |name| + 1 <= dirp.Length && at + typeAt < dirp.Length
    requires 18 <= typeAt < nameAt || nameAt + |name| < typeAt
    modifies dirp
    ensures after == dirp[..] && Fields(after, at, off, len, typeAt, code, nameAt, name)
    ensures |after| == |before| && after[..at] == before[..at]
  {
    ghost var b1, b2, b3, b4;
    b1, b2, b3, b4, after := PutFive(dirp, at, ino, at + 16, len, at + typeAt, [code], at + nameAt, name + [0],
                                     at + 8, off,
                                     before);
    WrittenRecord(before, b1, b2, b3, b4, after, at, ino, off, len, typeAt, code, nameAt, name);
  }

  /** One record; after is the buffer then. */
  method WriteRecord(f: Form, dirp: array<byte>, at: nat, e: Entry, ino: nat, off: nat, ghost before: seq<byte>)
    returns (ghost after: seq<byte>)
    requires at + RecordSize(f, e) <= dirp.Length && before == dirp[..]
    modifies dirp
    ensures after == dirp[..] && |after| == |before| && RecordAt(f, after, at, e, off) && after[..at] == before[..at]
  {
    var total := RecordSize(f, e);
    RecordSizeBounds(f, e);
    after := WriteFields(dirp, at, Le(ino, 8), Le(off, 8), Le(total, 2), f.TypeAt(total), TypeCode(e), f.NameAt(),
                         e.name, before);
  }

  /** The position behind the last entry that fits into count bytes. */
  function FitEnd(f: Form, es: seq<Entry>, pos: nat, count: nat): nat
    decreases |es| - pos
  {
    if pos >= |es| || RecordSize(f, es[pos]) > count then pos
      else FitEnd(f, es, pos + 1, count - RecordSize(f, es[pos]))
  }

  /** State of the packing loop: the entries packed so far, and the room behind them. */
  ghost predicate Filling(f: Form, done: seq<Entry>, pos: nat, written: nat, room: nat, buf: seq<byte>) {
    && Records(f, buf, done, pos) && written == SizeSum(f, done) && written + room == |buf|
  }

  lemma FillStep(f: Form, done: seq<Entry>, e: Entry, pos: nat, written: nat, room: nat, buf: seq<byte>,
                 buf': seq<byte>, all: seq<Entry>)
    requires Filling(f, done, pos, written, room, buf) && RecordSize(f, e) <= room
    requires |buf'| == |buf| && buf'[..written] == buf[..written] && RecordAt(f, buf', written, e, pos + 1)
      && all == done + [e]
    ensures Filling(f, all, pos + 1, written + RecordSize(f, e), room - RecordSize(f, e), buf')
  {
    RecordsPut(f, buf, buf', done, pos, e, all);
    Snoc(done, e);
  }

  /** The body of the packing loop for an entry that fits. */
  method PackNext(f: Form, e: Entry, pos: nat, written: nat, room: nat, dirp: array<byte>, ino: nat,
                  ghost done: seq<Entry>, ghost before: seq<byte>)
    returns (written': nat, room': nat, ghost after: seq<byte>)
    requires Filling(f, done, pos, written, room, before) && RecordSize(f, e) <= room
    requires before == dirp[..]
    modifies dirp
    ensures Filling(f, done + [e], pos + 1, written', room', after) && after == dirp[..]
    ensures written' == written + RecordSize(f, e) > 0 && room' == room - RecordSize(f, e)
  {
    RecordSizeBounds(f, e);
    after := WriteRecord(f, dirp, written, e, ino, pos + 1, before);
    written', room' := written + RecordSize(f, e), room - RecordSize(f, e);
    FillStep(f, done, e, pos, written, room, before, after, done + [e]);
  }

  /** The entries from pos on that fit into count bytes. */
  function Fitting(f: Form, es: seq<Entry>, pos: nat, count: nat): seq<Entry>
    decreases |es| - pos
  {
    if pos >= |es| || RecordSize(f, es[pos]) > count then []
    else [es[pos]] + Fitting(f, es, pos + 1, count - RecordSize(f, es[pos]))
  }

  lemma {:induction false} FittingIsPart(f: Form, es: seq<Entry>, pos: nat, count: nat)
    requires pos <= |es|
    ensures pos <= FitEnd(f, es, pos, count) <= |es| && Fitting(f, es, pos, count) == es[pos..FitEnd(f, es, pos, count)]
    decreases |es| - pos
  {
    if pos < |es| && RecordSize(f, es[pos]) <= count {
      FittingIsPart(f, es, pos + 1, count - RecordSize(f, es[pos]));
    }
  }

  /** What is packed and what will be packed make up what fits. */
  ghost predicate Taken(f: Form, es: seq<Entry>, pos0: nat, count: nat, pos: nat, room: nat, done: seq<Entry>) {
    && FitEnd(f, es, pos0, count) == FitEnd(f, es, pos, room)
    && Fitting(f, es, pos0, count) == done + Fitting(f, es, pos, room)
  }

  lemma TakenStep(f: Form, es: seq<Entry>, pos0: nat, count: nat, pos: nat, room: nat, done: seq<Entry>, room': nat,
                  done': seq<Entry>)
    requires Taken(f, es, pos0, count, pos, room, done) && pos < |es| && RecordSize(f, es[pos]) <= room
    requires room' == room - RecordSize(f, es[pos]) && done' == done + [es[pos]]
    ensures Taken(f, es, pos0, count, pos + 1, room', done')
  {
    assert done + ([es[pos]] + Fitting(f, es, pos + 1, room')) == done' + Fitting(f, es, pos + 1, room');
  }

  lemma {:induction false} TakenAll(f: Form, es: seq<Entry>, pos0: nat, count: nat, pos: nat, room: nat,
                                    done: seq<Entry>)
    requires Taken(f, es, pos0, count, pos, room, done) && (pos >= |es| || RecordSize(f, es[pos]) > room)
    ensures pos == FitEnd(f, es, pos0, count) && done == Fitting(f, es, pos0, count)
  {
    assert done + [] == done;
  }

  /** State of the packing loop. */
  ghost predicate Packing(f: Form, es: seq<Entry>, pos0: nat, count: nat, pos: nat, written: nat, room: nat,
                          done: seq<Entry>, buf: seq<byte>)
  {
    && pos0 <= pos <= |es| && (written == 0 <==> pos == pos0)
    && Filling(f, done, pos, written, room, buf) && Taken(f, es, pos0, count, pos, room, done)
  }

  lemma PackNothing(f: Form, es: seq<Entry>, pos0: nat, buf: seq<byte>)
    requires pos0 <= |es|
    ensures Packing(f, es, pos0, |buf|, pos0, 0, |buf|, [], buf)
  {
    assert [] + Fitting(f, es, pos0, |buf|) == Fitting(f, es, pos0, |buf|);
  }

  /** One turn of the packing loop, for an entry that fits. */
  method PackTurn(f: Form, es: seq<Entry>, pos: nat, written: nat, room: nat, dirp: array<byte>, ino: nat,
                  ghost pos0: nat, ghost done: seq<Entry>, ghost before: seq<byte>)
    returns (written': nat, room': nat, ghost done': seq<Entry>, ghost after: seq<byte>)
    requires Packing(f, es, pos0, dirp.Length, pos, written, room, done, before) && before == dirp[..]
    requires pos < |es| && RecordSize(f, es[pos]) <= room
    modifies dirp
    ensures Packing(f, es, pos0, dirp.Length, pos + 1, written', room', done', after) && after == dirp[..]
  {
    written', room', after := PackNext(f, es[pos], pos, written, room, dirp, ino, done, before);
    done' := done + [es[pos]];
    TakenStep(f, es, pos0, dirp.Length, pos, room, done, room', done');
  }

  /** When the next entry does not fit, or there is none. */
  lemma {:induction false} PackedAll(f: Form, es: seq<Entry>, pos0: nat, count: nat, pos: nat, written: nat, room: nat,
                  done: seq<Entry>, buf: seq<byte>)
    requires Packing(f, es, pos0, count, pos, written, room, done, buf)
      && (pos == |es| || RecordSize(f, es[pos]) > room)
    ensures pos == FitEnd(f, es, pos0, count) && done == Fitting(f, es, pos0, count)
    ensures written == SizeSum(f, done) <= |buf| && Records(f, buf, done, pos) && (written == 0 <==> pos == pos0)
  {
    TakenAll(f, es, pos0, count, pos, room, done);
  }

  /** The packing loop. */
  method PackEntries(f: Form, es: seq<Entry>, pos0: nat, dirp: array<byte>, ino: nat -> nat)
    returns (written: nat, pos: nat, ghost done: seq<Entry>)
    requires Clean(es) && pos0 <= |es|
    modifies dirp
    ensures pos == FitEnd(f, es, pos0, dirp.Length) && done == Fitting(f, es, pos0, dirp.Length)
    ensures written == SizeSum(f, done) <= dirp.Length && Records(f, dirp[..], done, pos)
    ensures written == 0 <==> pos == pos0
  {
    pos, done, written := pos0, [], 0;
    var room: nat := dirp.Length;
    ghost var buf := dirp[..];
    PackNothing(f, es, pos0, buf);
    while pos < |es| && RecordSize(f, es[pos]) <= room
      invariant buf == dirp[..] && Packing(f, es, pos0, dirp.Length, pos, written, room, done, buf)
      decreases |es| - pos
    {
      written, room, done, buf := PackTurn(f, es, pos, written, room, dirp, ino(pos), pos0, done, buf);
      pos := pos + 1;
    }
    PackedAll(f, es, pos0, dirp.Length, pos, written, room, done, buf);
  }

  /** One call at directory position pos0, on a buffer that was buf0: as many records as fit, 0 at the
      end of the directory, -1 when not even one fits. */
  predicate Call(f: Form, es: seq<Entry>, pos0: nat, buf0: seq<byte>, buf: seq<byte>, ret: int, pos: nat) {
    var done := Fitting(f, es, pos0, |buf0|);
    && |buf| == |buf0| && pos == FitEnd(f, es, pos0, |buf0|)
    && (if pos0 >= |es| then ret == 0 && buf == buf0
        else && Records(f, buf, done, pos) && SizeSum(f, done) <= |buf|
             && ret == if pos == pos0 then -1 else SizeSum(f, done))
  }

  /** gkfs_getdents and gkfs_getdents64. */
  method GetDents(f: Form, es: seq<Entry>, pos0: nat, dirp: array<byte>, ino: nat -> nat)
    returns (ret: int, pos: nat)
    requires Clean(es)
    modifies dirp
    ensures Call(f, es, pos0, old(dirp[..]), dirp[..], ret, pos)
  {
    if pos0 >= |es| { return 0, pos0; }
    var written;
    ghost var done;
    written, pos, done := PackEntries(f, es, pos0, dirp, ino);
    ret := if written == 0 then -1 else written;
  }

  /** What a program sees of a call: the records of the part of the buffer that was filled. */
  function SeenIn(wide: bool, buf: seq<byte>, ret: int): seq<Seen> {
    if ret <= 0 then [] else WalkRecords(wide, buf, 0, ret)
  }

  /** What one call shows: the entries from its position up to the one it leaves. */
  lemma {:induction false} CallSees(f: Form, es: seq<Entry>, pos0: nat, buf0: seq<byte>, buf: seq<byte>, ret: int,
                                    pos: nat)
    requires pos0 <= |es| < WORD && AllShort(es) && Call(f, es, pos0, buf0, buf, ret, pos)
    ensures pos0 <= pos <= |es| && SeenIn(f.Dirent64?, buf, ret) == Listing(es[pos0..pos], pos0)
    ensures ret == 0 <==> pos0 == |es|
  {
    FittingIsPart(f, es, pos0, |buf0|);
    if pos0 < pos {
      ShortPart(es, pos0, pos);
      WalkSees(f, buf, Fitting(f, es, pos0, |buf0|), pos0, pos);
      SizePositive(f, Fitting(f, es, pos0, |buf0|));
    }
  }

  lemma {:induction false} SizePositive(f: Form, es: seq<Entry>)
    requires es != []
    ensures SizeSum(f, es) > 0
  {
    RecordSizeBounds(f, es[|es| - 1]);
  }

  lemma ShortPart(es: seq<Entry>, pos0: nat, pos: nat)
    requires AllShort(es) && pos0 <= pos <= |es|
    ensures AllShort(es[pos0..pos])
  {
  }

  // ---- Many calls ----

  /** One call of a program: the buffer before and after it, what it returned, and the position then. */
  datatype Round = Round(before: seq<byte>, buf: seq<byte>, ret: int, pos: nat)

  function PosAfter(calls: seq<Round>): nat { if calls == [] then 0 else calls[|calls| - 1].pos }

  /** The calls of a program on one open directory, from the start of the directory. */
  predicate Session(f: Form, es: seq<Entry>, calls: seq<Round>) {
    calls == [] ||
    var init, c := calls[..|calls| - 1], calls[|calls| - 1];
    Session(f, es, init) && Call(f, es, PosAfter(init), c.before, c.buf, c.ret, c.pos)
  }

  /** What the program sees over those calls: in each filled buffer the records found by d_reclen. */
  function SeenOver(wide: bool, calls: seq<Round>): seq<Seen> {
    if calls == [] then []
    else SeenOver(wide, calls[..|calls| - 1]) + SeenIn(wide, calls[|calls| - 1].buf, calls[|calls| - 1].ret)
  }

  /** Every buffer fits the record that comes next. */
  predicate EachFits(f: Form, es: seq<Entry>, calls: seq<Round>) {
    calls == [] ||
    var p := PosAfter(calls[..|calls| - 1]);
    EachFits(f, es, calls[..|calls| - 1]) && (p < |es| ==> RecordSize(f, es[p]) <= |calls[|calls| - 1].before|)
  }

  lemma {:induction false} FitEndBounds(f: Form, es: seq<Entry>, pos: nat, count: nat)
    requires pos <= |es|
    ensures pos <= FitEnd(f, es, pos, count) <= |es|
    ensures pos < |es| && RecordSize(f, es[pos]) <= count ==> FitEnd(f, es, pos, count) > pos
    decreases |es| - pos
  {
    if pos < |es| && RecordSize(f, es[pos]) <= count {
      FitEndBounds(f, es, pos + 1, count - RecordSize(f, es[pos]));
    }
  }

  lemma ListingAppend(es: seq<Entry>, p: nat, q: nat)
    requires p <= q <= |es|
    ensures Listing(es[..p], 0) + Listing(es[p..q], p) == Listing(es[..q], 0)
  {
  }

  lemma {:induction false} CallsProgress(f: Form, es: seq<Entry>, calls: seq<Round>)
    requires Session(f, es, calls)
    ensures PosAfter(calls) <= |es|
    ensures EachFits(f, es, calls) ==> PosAfter(calls) >= Min(|calls|, |es|)
  {
    if calls != [] {
      var init, c := calls[..|calls| - 1], calls[|calls| - 1];
      CallsProgress(f, es, init);
      FitEndBounds(f, es, PosAfter(init), |c.before|);
    }
  }

  lemma {:induction false} CallsSeePrefix(f: Form, es: seq<Entry>, calls: seq<Round>)
    requires |es| < WORD && AllShort(es) && Session(f, es, calls)
    ensures PosAfter(calls) <= |es| && SeenOver(f.Dirent64?, calls) == Listing(es[..PosAfter(calls)], 0)
  {
    if calls != [] {
      var init, c := calls[..|calls| - 1], calls[|calls| - 1];
      CallsSeePrefix(f, es, init);
      CallSees(f, es, PosAfter(init), c.before, c.buf, c.ret, c.pos);
      ListingAppend(es, PosAfter(init), c.pos);
    }
  }

  lemma {:induction false} ZeroIsEnd(f: Form, es: seq<Entry>, calls: seq<Round>)
    requires |es| < WORD && AllShort(es) && Session(f, es, calls) && calls != [] && calls[|calls| - 1].ret == 0
    ensures PosAfter(calls) == |es|
  {
    var init, c := calls[..|calls| - 1], calls[|calls| - 1];
    CallsProgress(f, es, init);
    CallSees(f, es, PosAfter(init), c.before, c.buf, c.ret, c.pos);
  }

  /** The record form of getdents64, or of getdents. */
  function FormOf(wide: bool): Form { if wide then Dirent64 else Dirent }

  /** Over any calls of getdents64, or of getdents, with buffers of any sizes, walking the filled buffers
      shows the first entries of the directory, each once and in order. A program that calls until it
      gets 0 has seen all of them; and if every buffer fits the next record, as many calls as there
      are entries show them all. */
  lemma {:induction false} CallsSeeAll(wide: bool, es: seq<Entry>, calls: seq<Round>)
    requires |es| < WORD && AllShort(es) && Session(FormOf(wide), es, calls)
    ensures PosAfter(calls) <= |es| && SeenOver(wide, calls) == Listing(es[..PosAfter(calls)], 0)
    ensures calls != [] && calls[|calls| - 1].ret == 0 ==> SeenOver(wide, calls) == Listing(es, 0)
    ensures EachFits(FormOf(wide), es, calls) && |calls| >= |es| ==> SeenOver(wide, calls) == Listing(es, 0)
  {
    var f := FormOf(wide);
    CallsProgress(f, es, calls);
    CallsSeePrefix(f, es, calls);
    assert es[..|es|] == es;
    if calls != [] && calls[|calls| - 1].ret == 0 { ZeroIsEnd(f, es, calls); }
  }

  /** Entry by entry: its name, the type 4 exactly for a directory and 8 exactly for a file, and the
      position behind it. */
  lemma {:induction false} EntrySeen(wide: bool, es: seq<Entry>, calls: seq<Round>, k: nat)
    requires |es| < WORD && AllShort(es) && Session(FormOf(wide), es, calls) && k < |SeenOver(wide, calls)|
    ensures k < |es| && var seen := SeenOver(wide, calls)[k];
      && seen.name == es[k].name && seen.off == k + 1
      && (seen.code == 4 <==> es[k].isDir) && (seen.code == 8 <==> !es[k].isDir)
  {
    CallsSeeAll(wide, es, calls);
    assert es[..PosAfter(calls)][k] == es[k];
  }

  // ---- A call is full ----

  lemma {:induction false} SizeCons(f: Form, e: Entry, es: seq<Entry>)
    ensures SizeSum(f, [e] + es) == RecordSize(f, e) + SizeSum(f, es)
  {
    if es == [] {
      assert [e] + es == [e] && [e][..0] == [];
    } else {
      var init := es[..|es| - 1];
      SizeCons(f, e, init);
      assert ([e] + es)[..|es|] == [e] + init;
    }
  }

  lemma {:induction false} FitStep(f: Form, es: seq<Entry>, pos: nat, count: nat, size: nat, room: nat)
    requires pos < |es| && size == RecordSize(f, es[pos]) && size + room == count
    ensures FitEnd(f, es, pos, count) == FitEnd(f, es, pos + 1, room)
    ensures SizeSum(f, Fitting(f, es, pos, count)) == size + SizeSum(f, Fitting(f, es, pos + 1, room))
  {
    SizeCons(f, es[pos], Fitting(f, es, pos + 1, room));
  }

  /** The fitting entries leave no room for the next one. */
  lemma {:induction false} FitIsFull(f: Form, es: seq<Entry>, pos: nat, count: nat)
    requires pos <= |es|
    ensures var end := FitEnd(f, es, pos, count);
      && pos <= end <= |es| && SizeSum(f, Fitting(f, es, pos, count)) <= count
      && (end < |es| ==> SizeSum(f, Fitting(f, es, pos, count)) + RecordSize(f, es[end]) > count)
    decreases |es| - pos
  {
    if pos < |es| && RecordSize(f, es[pos]) <= count {
      var size := RecordSize(f, es[pos]);
      FitIsFull(f, es, pos + 1, count - size);
      FitStep(f, es, pos, count, size, count - size);
    }
  }

  /** Record sizes by the numbers: 20 or 21 bytes and the name, rounded up to a multiple of 8. */
  lemma SizeByNumbers(wide: bool, e: Entry)
    ensures var n, size := (if wide then 20 else 21) + |e.name|, RecordSize(FormOf(wide), e);
      size % 8 == 0 && n <= size < n + 8
  {
  }

  /** A call stops only at the end of the directory or when the next record does not fit the room left. */
  lemma {:induction false} CallIsFull(f: Form, es: seq<Entry>, pos0: nat, buf0: seq<byte>, buf: seq<byte>, ret: int,
                                      pos: nat)
    requires pos0 <= |es| && Call(f, es, pos0, buf0, buf, ret, pos)
    ensures pos0 <= pos <= |es| && SizeSum(f, es[pos0..pos]) <= |buf|
    ensures pos < |es| ==> SizeSum(f, es[pos0..pos]) + RecordSize(f, es[pos]) > |buf|
    ensures ret == -1 <==> pos0 < |es| && RecordSize(f, es[pos0]) > |buf|
  {
    FittingIsPart(f, es, pos0, |buf0|);
    FitIsFull(f, es, pos0, |buf0|);
    FitEndBounds(f, es, pos0, |buf0|);
  }
}
