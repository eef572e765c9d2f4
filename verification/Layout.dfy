/** How a byte range [offset, offset + size) is cut into chunk pieces. The reference definition is
    the intersection of the range with each chunk; the lemmas give the forms client and daemon use. */
module Layout {
  import opened Arith
  import opened Bits
  import opened ChunkCalc

  type byte = b: int | 0 <= b < 256

  /** The part of a range inside one chunk: where it starts in the chunk and in the user buffer. */
  datatype Piece = Piece(id: nat, chunkOff: nat, size: nat, origin: nat)

  /** size bytes at offset, in a file cut into chunks of c bytes. */
  datatype Range = Range(c: nat, offset: nat, size: nat) {

    predicate NonEmpty() { c > 0 && size > 0 }

    function First(): nat { Quot(offset, c) }

    function Last(): nat { if size == 0 then Quot(offset, c) else Quot(offset + size - 1, c) }

    predicate Touches(id: nat) { NonEmpty() && First() <= id <= Last() }

    predicate Holds(p: nat) { offset <= p < offset + size }

    /** The intersection of the range with chunk id, which starts at byte c * id. */
    function PieceAt(id: nat): Piece {
      var base := Times(c, id);
      var lo, hi := Max(offset, base), Min(offset + size, base + c);
      Piece(id, lo - base, Max(0, hi - lo), lo - offset)
    }
  }

  /** Chunk boundaries around a touched chunk. */
  lemma {:induction false} Boundaries(r: Range, id: nat)
    requires r.Touches(id)
    ensures var first, last := Times(r.c, r.First()), Times(r.c, r.Last());
      && first <= r.offset < first + r.c && Rem(r.offset, r.c) == r.offset - first
      && last <= r.offset + r.size - 1 < last + r.c
      && (id > r.First() ==> first + r.c <= Times(r.c, id))
      && (id < r.Last() ==> Times(r.c, id) + r.c <= last)
  {
    QuotRem(r.offset, r.c);
    QuotRem(r.offset + r.size - 1, r.c);
    if id > r.First() { TimesMonotone(r.c, r.First(), id); }
    if id < r.Last() { TimesMonotone(r.c, id, r.Last()); }
  }

  lemma PieceBounds(r: Range, id: nat)
    requires r.Touches(id)
    ensures var q := r.PieceAt(id);
      q.size > 0 && q.chunkOff + q.size <= r.c && q.origin + q.size <= r.size
  {
    Boundaries(r, id);
  }

  lemma FirstLastTouched(r: Range)
    requires r.NonEmpty()
    ensures r.First() <= r.Last()
  {
    QuotMonotone(r.offset, r.offset + r.size - 1, r.c);
  }

  /** A position of the range belongs to the piece of its own chunk, at the matching buffer index. */
  lemma {:induction false} PositionInPiece(r: Range, p: nat)
    requires r.c > 0 && r.Holds(p)
    ensures r.Touches(Quot(p, r.c))
    ensures var q, i := r.PieceAt(Quot(p, r.c)), Rem(p, r.c);
      q.chunkOff <= i < q.chunkOff + q.size && q.origin + (i - q.chunkOff) == p - r.offset
  {
    QuotMonotone(r.offset, p, r.c);
    QuotMonotone(p, r.offset + r.size - 1, r.c);
    QuotRem(p, r.c);
  }

  /** A position of a touched chunk: whether it is in the range, at which index, and before its end. */
  lemma {:induction false} PositionOfPiece(r: Range, p: nat)
    requires r.Touches(Quot(p, r.c))
    ensures var q, i := r.PieceAt(Quot(p, r.c)), Rem(p, r.c);
      && (q.chunkOff <= i < q.chunkOff + q.size <==> r.Holds(p))
      && (r.Holds(p) ==> q.origin + (i - q.chunkOff) == p - r.offset)
      && (i < q.chunkOff + q.size <==> p < r.offset + r.size)
  {
    QuotRem(p, r.c);
    PieceBounds(r, Quot(p, r.c));
  }

  /** Buffer index j lies in the piece of chunk id exactly when byte offset + j is in that chunk. */
  lemma IndexInPiece(r: Range, id: nat, j: nat)
    requires r.Touches(id) && j < r.size
    ensures var q := r.PieceAt(id);
      && (q.origin <= j < q.origin + q.size <==> Quot(r.offset + j, r.c) == id)
      && (Quot(r.offset + j, r.c) == id ==> Rem(r.offset + j, r.c) == q.chunkOff + (j - q.origin))
  {
    var q, p := r.PieceAt(id), r.offset + j;
    if q.origin <= j < q.origin + q.size {
      QuotUnique(p, r.c, id);
    }
    if Quot(p, r.c) == id {
      PositionInPiece(r, p);
    }
  }

  /** The boundary that closes the last chunk is the range end plus its right padding. */
  lemma LastBoundary(r: Range)
    requires ChunkSize(r.c) && r.NonEmpty() && r.offset + r.size < WORD
    ensures Times(r.c, r.Last()) + r.c == r.offset + r.size + Rpad(r.offset + r.size, r.c)
  {
    var e := r.offset + r.size;
    QuotRem(e - 1, r.c);
    TimesIsProduct(r.c, r.Last());
    UniqueMultiple(r.c, r.Last(), e, Rpad(e, r.c));
  }

  /** The only multiple of c in [e, e + c), for e just above c * k. */
  lemma UniqueMultiple(c: nat, k: nat, e: nat, pad: nat)
    requires c * k < e <= c * k + c && pad < c && (e + pad) % c == 0
    ensures c * k + c == e + pad
  {
    var t := e + pad - c * k;
    MulSucc(c, k);
    if t < c {
      DivModUnique(e + pad, c, k, t);
    } else if t > c {
      DivModUnique(e + pad, c, k + 1, t - c);
    }
  }

  /** The size both sides compute: a whole chunk, less the left padding of the first
      and the right padding of the last. */
  lemma PieceSize(r: Range, id: nat)
    requires ChunkSize(r.c) && r.offset + r.size < WORD && r.Touches(id)
    ensures r.PieceAt(id).size == r.c - (if id == r.First() then Lpad(r.offset, r.c) else 0)
                                      - (if id == r.Last() then Rpad(r.offset + r.size, r.c) else 0)
  {
    LastBoundary(r);
    Boundaries(r, id);
    QuotRemIsDivision(r.offset, r.c);
  }

  /** The daemon's offsets: only the first chunk starts inside; the others follow at chunk distance. */
  lemma PieceOrigin(r: Range, id: nat)
    requires r.Touches(id)
    ensures var q, lpad := r.PieceAt(id), r.offset % r.c;
      && q.chunkOff == (if id == r.First() then lpad else 0)
      && (id == r.First() ==> q.origin == 0)
      && (id > r.First() ==> q.origin == (r.c - lpad) + (id - r.First() - 1) * r.c)
      && (lpad == 0 ==> q.origin == (id - r.First()) * r.c)
  {
    Boundaries(r, id);
    QuotRemIsDivision(r.offset, r.c);
    if id > r.First() {
      TimesIsProduct(r.c, id);
      TimesIsProduct(r.c, r.First());
      assert r.c * id == r.c * r.First() + r.c + (id - r.First() - 1) * r.c;
    }
  }

  /** A chunk that is neither last nor cut by the left padding is transferred whole, and the buffer is larger. */
  lemma InnerPieceIsWhole(r: Range, id: nat)
    requires r.Touches(id) && id < r.Last()
    requires id > r.First() || r.offset % r.c == 0
    ensures r.PieceAt(id).size == r.c < r.size
  {
    Boundaries(r, id);
    QuotRemIsDivision(r.offset, r.c);
  }

  /** The first piece, when it starts inside its chunk. */
  lemma FirstPieceSize(r: Range)
    requires r.NonEmpty() && r.Touches(r.First())
    ensures r.PieceAt(r.First()).size
         == if r.offset % r.c + r.size <= r.c then r.size else r.c - r.offset % r.c
  {
    Boundaries(r, r.First());
    QuotRemIsDivision(r.offset, r.c);
  }

  /** Byte count of the range before chunk id. */
  function Before(r: Range, id: nat): nat {
    if id <= r.First() then 0 else Max(0, Min(r.offset + r.size, Times(r.c, id)) - r.offset)
  }

  /** A piece fills the range from the count before its chunk to the count before the next. */
  lemma TileStep(r: Range, id: nat)
    requires r.Touches(id)
    ensures Before(r, id) == r.PieceAt(id).origin
    ensures Before(r, id + 1) == r.PieceAt(id).origin + r.PieceAt(id).size
  {
    Boundaries(r, id);
  }

  lemma BeforeEnd(r: Range)
    requires r.NonEmpty()
    ensures Before(r, r.Last() + 1) == r.size
  {
    FirstLastTouched(r);
    Boundaries(r, r.Last());
  }
}
