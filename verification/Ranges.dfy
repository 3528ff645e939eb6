/** Which bytes one download asks for: blockcache.vfs.go and deeppool.reader.at.cache.go. */
module Ranges {
  import opened Common

  /** First byte of the block holding x. */
  function BlockStart(x: nat, L: nat): (r: nat)
    requires 0 < L
    ensures r == x - Rem(x, L) && Rem(r, L) == 0 && Quot(r, L) == Quot(x, L)
  {
    AtStart(x, L);
    x - Rem(x, L)
  }

  lemma {:induction false} AtStart(x: nat, L: nat)
    requires 0 < L
    ensures Rem(x - Rem(x, L), L) == 0 && Quot(x - Rem(x, L), L) == Quot(x, L)
  {
    if x < L {
    } else {
      AtStart(x - L, L);
    }
  }

  /** The source computes it by division and multiplication. */
  lemma BlockStartIs(x: nat, L: nat)
    requires 0 < L
    ensures BlockStart(x, L) == (x / L) * L
  {
    QuotRem(x, L);
    assert x == (x / L) * L + x % L;
  }

  /** calculateBlockRange, in uint64 arithmetic. */
  function CalculateBlockRange(blocklength: nat, offset: nat, length: nat): (nat, nat)
    requires 0 < blocklength
  {
    var doffset := (offset / blocklength) * blocklength;
    var end := Min((doffset + blocklength) % TWO_64, length);
    (doffset, (end - doffset) % TWO_64)
  }

  lemma RangeFromStart(L: nat, offset: nat, length: nat)
    requires 0 < L
    ensures var start := BlockStart(offset, L);
            CalculateBlockRange(L, offset, length) == (start, (Min((start + L) % TWO_64, length) - start) % TWO_64)
  {
    BlockStartIs(offset, L);
    hide BlockStart;
  }

  /** The second formula, by remainders, of DeeppoolReaderAtCache.downloadChunk. */
  function ModuloRange(blocklength: nat, offset: nat, length: nat): (nat, nat)
    requires 0 < blocklength
  {
    var doffset := BlockStart(offset, blocklength);
    var dlength := Rem(Min((doffset + blocklength) % TWO_64, length), blocklength);
    (doffset, if dlength == 0 then blocklength else dlength)
  }

  predicate Holds(r: (nat, nat), offset: nat) {
    r.0 <= offset < r.0 + r.1
  }

  /** The range holds its offset and ends within the object, exactly when the block's end fits uint64. */
  lemma RangeWithinExactly(L: nat, offset: nat, length: nat)
    requires 0 < L < TWO_64 && offset < length < TWO_64
    ensures var r := CalculateBlockRange(L, offset, length);
            && (Holds(r, offset) && r.0 + r.1 <= length <==> BlockStart(offset, L) + L < TWO_64)
            && (BlockStart(offset, L) + L < TWO_64 ==>
                  r == (BlockStart(offset, L), Min(L, length - BlockStart(offset, L))))
  {
    hide CalculateBlockRange, BlockStart, Rem, Quot;
    RangeFromStart(L, offset, length);
  }

  /** The range at or before the end of the object, as the lookup allows. */
  lemma RangeIs(L: nat, offset: nat, length: nat)
    requires 0 < L && offset <= length && length + L < TWO_64
    ensures CalculateBlockRange(L, offset, length)
            == (BlockStart(offset, L), Min(L, length - BlockStart(offset, L)))
  {
    hide CalculateBlockRange, BlockStart, Rem, Quot;
    RangeFromStart(L, offset, length);
  }

  /** Two offsets share their range or have disjoint ones; as each range holds its offset, they partition the object. */
  lemma RangesPartition(L: nat, x: nat, y: nat, length: nat)
    requires 0 < L && x <= y < length && length + L < TWO_64
    ensures var r, s := CalculateBlockRange(L, x, length), CalculateBlockRange(L, y, length);
            && Holds(r, x) && Holds(s, y) && r.0 + r.1 <= length && s.0 + s.1 <= length
            && (if Quot(x, L) == Quot(y, L) then r == s else r.0 + r.1 <= s.0)
  {
    hide CalculateBlockRange, BlockStart, Rem, Quot;
    RangeIs(L, x, length);
    RangeIs(L, y, length);
    BlockOrder(x, y, L);
    BlocksApart(BlockStart(x, L), BlockStart(y, L), L);
  }

  /** Two different block starts are at least a block apart. */
  lemma BlocksApart(x: nat, y: nat, L: nat)
    requires 0 < L && Rem(x, L) == 0 && Rem(y, L) == 0 && x <= y
    ensures x == y || x + L <= y
  {
    if y < x + L {
      SameBlock(x, L, y - x);
    }
  }

  /** The remainder of an end inside the block: the bytes past its start, 0 standing for a full block. */
  lemma EndRemainder(start: nat, m: nat, L: nat)
    requires 0 < m <= L && Rem(start, L) == 0
    ensures Rem(start + m, L) == if m == L then 0 else m
  {
    if m < L {
      SameBlock(start, L, m);
    } else {
      NextBlock(start, L);
    }
  }

  /** The two formulas agree exactly when the block starts inside the object. */
  lemma FormulasAgreeExactly(L: nat, offset: nat, length: nat)
    requires 0 < L && length < TWO_64 && BlockStart(offset, L) + L < TWO_64
    ensures CalculateBlockRange(L, offset, length) == ModuloRange(L, offset, length)
            <==> BlockStart(offset, L) < length
  {
    hide CalculateBlockRange, BlockStart, Rem, Quot;
    RangeFromStart(L, offset, length);
    var start := BlockStart(offset, L);
    if start < length {
      EndRemainder(start, Min(L, length - start), L);
    }
  }
}
