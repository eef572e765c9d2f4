/** include/global/chunk_calc_util.hpp: the shift, mask and table arithmetic that client and
    daemon share to cut a file into chunks. */
module ChunkCalc {
  import opened Arith
  import opened Bits

  const OFFSET_LIMIT: nat := 0x8000_0000_0000_0000
  const MAGIC: nat := 0x03f6eaf2cd271461

  /** The 64-entry lookup table, eight entries a row. */
  const TABLE: seq<seq<nat>> := [
    [0, 58, 1, 59, 47, 53, 2, 60], [39, 48, 27, 54, 33, 42, 3, 61],
    [51, 37, 40, 49, 18, 28, 20, 55], [30, 34, 11, 43, 14, 22, 4, 62],
    [57, 46, 52, 38, 26, 32, 41, 50], [36, 17, 19, 29, 10, 13, 21, 56],
    [45, 25, 31, 35, 16, 9, 12, 44], [24, 15, 8, 23, 7, 6, 5, 63]]

  /** Chunk sizes are powers of two. */
  ghost predicate ChunkSize(c: nat) {
    exists k: nat :: k < 63 && c == Pow2(k)
  }

  /** Bits k, k-1, ..., k-w+1 of n are set and no bit above k is. */
  ghost predicate Smeared(n: nat, k: nat, w: nat) {
    && (forall i: nat :: k < i + w && i <= k ==> Bit(n, i))
    && (forall i: nat :: i > k ==> !Bit(n, i))
  }

  /** One smearing step doubles the run of ones under the top bit. */
  lemma {:induction false} SmearStep(n: nat, k: nat, w: nat)
    requires Smeared(n, k, w)
    ensures Smeared(Or(n, Shr(n, w)), k, 2 * w)
  {
    var m := Or(n, Shr(n, w));
    forall i: nat
      ensures i > k ==> !Bit(m, i)
      ensures k < i + 2 * w && i <= k ==> Bit(m, i)
    {
      BitOfOr(n, Shr(n, w), i);
      BitOfShr(n, w, i);
      var above := i + w;
      assert above > k ==> !Bit(n, above);
    }
  }

  lemma {:induction false} SmearedIsOnes(n: nat, k: nat)
    requires k < 64 && Smeared(n, k, 64)
    ensures n == Pow2(k + 1) - 1
  {
    forall i: nat
      ensures Bit(n, i) <==> Bit(Pow2(k + 1) - 1, i)
    {
      BitOfOnes(k + 1, i);
    }
    BitExtensionality(n, Pow2(k + 1) - 1);
  }

  /** The table entry selected by the top six bits of a 64-bit product. */
  function Entry(product: nat): nat {
    var i := product / 0x400_0000_0000_0000;
    if i < 64 then TABLE[i / 8][i % 8] else 0
  }

  /** From the product of n to the product of 2n + 1. */
  function NextProduct(product: nat): nat {
    var x := 2 * product + MAGIC;
    if x >= 2 * WORD then x - 2 * WORD else if x >= WORD then x - WORD else x
  }

  /** The product of 2^(k+1) - 1, by doubling steps. */
  function Product(k: nat): nat {
    if k == 0 then MAGIC else NextProduct(Product(k - 1))
  }

  lemma {:induction false} ProductIs(k: nat)
    ensures Product(k) == (Pow2(k + 1) - 1) * MAGIC % WORD
  {
    if k > 0 {
      ProductIs(k - 1);
      var n, x := Pow2(k) - 1, 2 * Product(k - 1) + MAGIC;
      var q := n * MAGIC / WORD;
      assert n * MAGIC == WORD * q + Product(k - 1);
      assert (2 * n + 1) * MAGIC == WORD * (2 * q) + x;
      DivModUnique((2 * n + 1) * MAGIC, WORD, 2 * q + (x - Product(k)) / WORD, Product(k));
    }
  }

  /** Products k, k+1, ..., m-1 starting from the given one select entries k, ..., m-1, and product m is last. */
  predicate EntriesMatch(k: nat, product: nat, m: nat, last: nat)
    decreases m - k
  {
    if k >= m then product == last
    else Entry(product) == k && EntriesMatch(k + 1, NextProduct(product), m, last)
  }

  lemma {:induction false} EntriesMatchAt(k: nat, j: nat, m: nat, last: nat)
    requires k <= j <= m && EntriesMatch(k, Product(k), m, last)
    ensures EntriesMatch(j, Product(j), m, last)
    decreases j - k
  {
    if k < j {
      EntriesMatchAt(k + 1, j, m, last);
    }
  }

  /** Multiplying 2^(k+1) - 1 by the constant selects table entry k. */
  ghost predicate Selects(k: nat) {
    Entry(Product(k)) == k
  }

  lemma {:induction false} EntryAt(j: nat, k: nat, m: nat, last: nat)
    requires j <= k < m && EntriesMatch(j, Product(j), m, last)
    ensures Selects(k) && Product(m) == last
  {
    EntriesMatchAt(j, k, m, last);
    EntriesMatchAt(j, m, m, last);
  }

  lemma Row0(k: nat)
    requires 0 <= k < 8
    ensures Selects(k) && Product(8) == 0xe9de_faa7_8101_ad9f
  {
    assert EntriesMatch(0, 0x3f6_eaf2_cd27_1461, 8, 0xe9de_faa7_8101_ad9f);
    EntryAt(0, k, 8, 0xe9de_faa7_8101_ad9f);
  }

  lemma Row1(k: nat)
    requires 8 <= k < 16
    ensures Selects(k) && Product(16) == 0xd1ee_af5b_5b9a_eb9f
  {
    assert EntriesMatch(8, 0xe9de_faa7_8101_ad9f, 16, 0xd1ee_af5b_5b9a_eb9f);
    Row0(7);
    EntryAt(8, k, 16, 0xd1ee_af5b_5b9a_eb9f);
  }

  lemma Row2(k: nat)
    requires 16 <= k < 24
    ensures Selects(k) && Product(24) == 0xe1a3_6335_f4d8_eb9f
  {
    assert EntriesMatch(16, 0xd1ee_af5b_5b9a_eb9f, 24, 0xe1a3_6335_f4d8_eb9f);
    Row1(15);
    EntryAt(16, k, 24, 0xe1a3_6335_f4d8_eb9f);
  }

  lemma Row3(k: nat)
    requires 24 <= k < 32
    ensures Selects(k) && Product(32) == 0x9657_3dcf_32d8_eb9f
  {
    assert EntriesMatch(24, 0xe1a3_6335_f4d8_eb9f, 32, 0x9657_3dcf_32d8_eb9f);
    Row2(23);
    EntryAt(24, k, 32, 0x9657_3dcf_32d8_eb9f);
  }

  lemma Row4(k: nat)
    requires 32 <= k < 40
    ensures Selects(k) && Product(40) == 0x4a31_d70d_32d8_eb9f
  {
    assert EntriesMatch(32, 0x9657_3dcf_32d8_eb9f, 40, 0x4a31_d70d_32d8_eb9f);
    Row3(31);
    EntryAt(32, k, 40, 0x4a31_d70d_32d8_eb9f);
  }

  lemma Row5(k: nat)
    requires 40 <= k < 48
    ensures Selects(k) && Product(48) == 0x24cb_150d_32d8_eb9f
  {
    assert EntriesMatch(40, 0x4a31_d70d_32d8_eb9f, 48, 0x24cb_150d_32d8_eb9f);
    Row4(39);
    EntryAt(40, k, 48, 0x24cb_150d_32d8_eb9f);
  }

  lemma Row6(k: nat)
    requires 48 <= k < 56
    ensures Selects(k) && Product(56) == 0xbe09_150d_32d8_eb9f
  {
    assert EntriesMatch(48, 0x24cb_150d_32d8_eb9f, 56, 0xbe09_150d_32d8_eb9f);
    Row5(47);
    EntryAt(48, k, 56, 0xbe09_150d_32d8_eb9f);
  }

  lemma Row7(k: nat)
    requires 56 <= k < 64
    ensures Selects(k) && Product(64) == 0xfc09_150d_32d8_eb9f
  {
    assert EntriesMatch(56, 0xbe09_150d_32d8_eb9f, 64, 0xfc09_150d_32d8_eb9f);
    Row6(55);
    EntryAt(56, k, 64, 0xfc09_150d_32d8_eb9f);
  }

  lemma {:induction false} SelectsAll(k: nat)
    requires k < 64
    ensures Entry(Product(k)) == k
  {
    if k < 8 { Row0(k); } else if k < 16 { Row1(k); }
    else if k < 24 { Row2(k); } else if k < 32 { Row3(k); }
    else if k < 40 { Row4(k); } else if k < 48 { Row5(k); }
    else if k < 56 { Row6(k); } else { Row7(k); }
  }

  /** The 64-bit logarithm: smear the top bit downwards, then one multiplication and a lookup. */
  method Log2(n0: nat) returns (r: nat)
    requires 0 < n0 < WORD
    ensures r == FloorLog2(n0)
  {
    ghost var k := FloorLog2(n0);
    var n := n0;
    assert Smeared(n, k, 1) by { TopBit(n0); }
    n := Or(n, Shr(n, 1));  SmearStep(n0, k, 1);
    ghost var n1 := n;
    n := Or(n, Shr(n, 2));  SmearStep(n1, k, 2);
    ghost var n2 := n;
    n := Or(n, Shr(n, 4));  SmearStep(n2, k, 4);
    ghost var n3 := n;
    n := Or(n, Shr(n, 8));  SmearStep(n3, k, 8);
    ghost var n4 := n;
    n := Or(n, Shr(n, 16)); SmearStep(n4, k, 16);
    ghost var n5 := n;
    n := Or(n, Shr(n, 32)); SmearStep(n5, k, 32);
    assert k < 64 by {
      Pow2Literals();
      FloorLog2Bounds(n0);
      if k >= 64 { Pow2Monotone(64, k); }
    }
    SmearedIsOnes(n, k);
    ProductIs(k);
    SelectsAll(k);
    var product := n * MAGIC % WORD;
    assert product == Product(k);
    r := Entry(product);
  }

  /** Offset rounded down to a chunk boundary, by masking with ~(c - 1). */
  function Lalign(offset: nat, c: nat): (r: nat)
    requires offset < WORD && ChunkSize(c)
    ensures r == offset - offset % c
  {
    LalignIsRounding(offset, c);
    And(offset, WORD - c)
  }

  lemma LalignIsRounding(offset: nat, c: nat)
    requires offset < WORD && ChunkSize(c)
    ensures c <= WORD && And(offset, WORD - c) == offset - offset % c
  {
    var k: nat :| k < 63 && c == Pow2(k);
    Pow2Literals();
    AndHighMask(offset, 64, k);
  }

  /** The first chunk boundary after the offset; a boundary is moved to the next one. */
  function Ralign(offset: nat, c: nat): (r: nat)
    requires ChunkSize(c) && offset + c < WORD
    ensures r % c == 0 && offset < r <= offset + c
  {
    AlignedRemainder(offset + c, c);
    Lalign(offset + c, c)
  }

  lemma AlignedRemainder(x: nat, c: nat)
    requires c > 0
    ensures (x - x % c) % c == 0
  {
    DivModUnique(x - x % c, c, x / c, 0);
  }

  function Lpad(offset: nat, c: nat): (r: nat)
    requires c > 0
    ensures r < c
  {
    offset % c
  }

  /** The 64-bit negation of x, modulo c. */
  function NegMod(x: nat, c: nat): nat { if c == 0 || x > WORD then 0 else (WORD - x) % WORD % c }

  /** Distance to the next chunk boundary. */
  function Rpad(offset: nat, c: nat): (r: nat)
    requires offset < WORD && ChunkSize(c)
    ensures r < c && (offset + r) % c == 0
  {
    RpadReachesBoundary(offset, c);
    NegMod(offset, c)
  }

  lemma RpadReachesBoundary(offset: nat, c: nat)
    requires offset < WORD && ChunkSize(c)
    ensures NegMod(offset, c) < c && (offset + NegMod(offset, c)) % c == 0
  {
    ChunkSizeDividesWord(c);
    if offset == 0 {
      assert (WORD - offset) % WORD == 0;
    } else {
      assert (WORD - offset) % WORD == WORD - offset;
      RemainderFills(WORD, c, WORD - offset);
    }
  }

  lemma ChunkSizeDividesWord(c: nat)
    requires ChunkSize(c)
    ensures c * (WORD / c) == WORD && c <= 0x4000_0000_0000_0000
  {
    var k: nat :| k < 63 && c == Pow2(k);
    Pow2Literals();
    Pow2Sum(k, 64 - k);
    DivModUnique(WORD, c, Pow2(64 - k), 0);
    Pow2Monotone(k, 62);
  }

  lemma {:induction false} ShrByChunk(x: nat, c: nat)
    requires ChunkSize(c)
    ensures Shr(x, FloorLog2(c)) == x / c
  {
    var k: nat :| k < 63 && c == Pow2(k);
    FloorLog2OfPow2(k);
    ShrIsDiv(x, k);
  }

  lemma AlignedQuotient(x: nat, c: nat)
    requires c > 0
    ensures (x - x % c) / c == x / c
  {
    DivModUnique(x - x % c, c, x / c, 0);
  }

  /** The chunk holding an offset. The mask and the arithmetic shift of the signed 64-bit value
      agree with division below 2^63; above it the shift copies the sign bit. */
  function IdForOffset(offset: nat, c: nat): (r: nat)
    requires offset < WORD && ChunkSize(c)
    ensures offset < OFFSET_LIMIT ==> r == offset / c
  {
    var aligned := Lalign(offset, c);
    ShrByChunk(aligned, c);
    AlignedQuotient(offset, c);
    if aligned < OFFSET_LIMIT then
      Shr(aligned, FloorLog2(c))
    else
      ShrByChunk(WORD - aligned, c);
      QuotientBound(WORD - aligned, c);
      WORD - Shr(WORD - aligned, FloorLog2(c))
  }

  lemma QuotientBound(x: nat, c: nat)
    requires c >= 1
    ensures x / c <= x
    ensures c >= 2 ==> 2 * (x / c) <= x
    ensures c == 1 ==> x / c == x
  {
    MulMonotone(x / c, if c >= 2 then 2 else 1, c);
  }

  /** When the shift form is division, exactly. */
  lemma IdForOffsetIsDivision(offset: nat, c: nat)
    requires offset < WORD && ChunkSize(c)
    ensures IdForOffset(offset, c) == offset / c <==> offset < OFFSET_LIMIT || c == 1
  {
    var aligned := Lalign(offset, c);
    ShrByChunk(WORD - aligned, c);
    QuotientBound(WORD - aligned, c);
    QuotientBound(offset, c);
    if offset >= OFFSET_LIMIT {
      HighStaysHigh(offset, c);
    }
  }

  lemma HighStaysHigh(offset: nat, c: nat)
    requires OFFSET_LIMIT <= offset && ChunkSize(c)
    ensures offset - offset % c >= OFFSET_LIMIT
  {
    var k: nat :| k < 63 && c == Pow2(k);
    Pow2Literals();
    Pow2Sum(k, 63 - k);
    RoundDownAbove(c, Pow2(63 - k), offset);
  }

  /** Chunks touched by count bytes at offset. */
  function CountForOffset(offset: nat, count: nat, c: nat): (r: nat)
    requires ChunkSize(c) && count > 0 && offset + count <= OFFSET_LIMIT
    ensures r == (offset + count - 1) / c - offset / c + 1
  {
    var start, end := Lalign(offset, c), Lalign(offset + count - 1, c);
    ShrByChunk(start, c);
    ShrByChunk(end, c);
    AlignedQuotient(offset, c);
    AlignedQuotient(offset + count - 1, c);
    QuotientMonotone(offset, offset + count - 1, c);
    Shr(end, FloorLog2(c)) - Shr(start, FloorLog2(c)) + 1
  }

  lemma BytesBefore(x: nat, c: nat)
    requires c > 0 && x > 0
    ensures (x - 1) / c == if x % c == 0 then x / c - 1 else x / c
  {
    var q, r := x / c, x % c;
    assert x == c * q + r;
    if r > 0 {
      DivModUnique(x - 1, c, q, r - 1);
    } else {
      assert q > 0;
      MulSucc(c, q - 1);
      DivModUnique(x - 1, c, q - 1, c - 1);
    }
  }

  /** The largest 64-bit value is aligned to WORD - c and shifted with its sign. */
  lemma LargestId(c: nat)
    requires ChunkSize(c)
    ensures IdForOffset(WORD - 1, c) == WORD - 1
  {
    ChunkSizeDividesWord(c);
    var m := WORD / c;
    MulSucc(c, m - 1);
    DivModUnique(WORD - 1, c, m - 1, c - 1);
    assert Lalign(WORD - 1, c) == WORD - c;
    ShrByChunk(c, c);
    DivModUnique(c, c, 1, 0);
  }

  /** The 64-bit value before x. */
  function Before64(x: nat): nat { if x == 0 then WORD - 1 else x - 1 }

  /** A read of no bytes, which forward_read does not single out: behind the first byte the id range is
      empty on a chunk boundary and the one chunk of the offset elsewhere, but at offset 0 the end of
      the range wraps to the largest 64-bit id. */
  lemma ZeroCountRead(offset: nat, c: nat)
    requires ChunkSize(c) && offset < OFFSET_LIMIT
    ensures var chnkStart, chnkEnd := IdForOffset(offset, c), IdForOffset(Before64(offset), c);
      if offset == 0 then chnkEnd == WORD - 1
      else chnkEnd == if offset % c == 0 then chnkStart - 1 else chnkStart
  {
    if offset == 0 {
      LargestId(c);
    } else {
      BytesBefore(offset, c);
    }
  }
}
