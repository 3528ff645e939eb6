/** Values shared by every component: bytes, optional results, errors, identifiers. */
module Common {
  type Byte = bv8

  datatype Option<+T> = None | Some(value: T)

  /** The errors that callers tell apart. */
  datatype Error =
    | NotExist                       // the block file is absent
    | EndOfFile                      // the block file ends before the range does
    | CacheUnrecoverable             // the fallback latched an earlier unrecoverable failure
    | Remote(unrecoverable: bool)    // the download failed
    | Query                          // the metadata lookup failed

  /** A uuid column; the source gives the all-zero and the all-one value a meaning. */
  datatype Uuid = Nil | Max | Id(n: nat)

  const TWO_32: int := 0x1_0000_0000
  const TWO_63: int := 0x8000_0000_0000_0000
  const TWO_64: int := 0x1_0000_0000_0000_0000

  function Min(a: nat, b: nat): nat {
    if a < b then a else b
  }

  /** A multiple of L strictly between -L and L is zero. */
  lemma SmallMultiple(e: int, L: int)
    requires -L < e * L < L
    ensures e == 0
  {
    assert 0 < e ==> 0 <= (e - 1) * L;
    assert e < 0 ==> 0 <= (-e - 1) * L;
  }

  /** The only quotient and remainder of x by L. */
  lemma DivModUnique(x: nat, L: nat, q: nat, r: nat)
    requires 0 < L && r < L && x == q * L + r
    ensures x / L == q && x % L == r
  {
    var y := x / L;
    assert x == y * L + x % L;
    assert (y - q) * L == y * L - q * L;
    SmallMultiple(y - q, L);
  }

  // Quotient and remainder by repeated subtraction: the same numbers as / and %
  // (QuotRem), in a form that keeps every other proof linear.

  function Quot(x: nat, L: nat): nat
    requires 0 < L
  {
    if x < L then 0 else 1 + Quot(x - L, L)
  }

  function Rem(x: nat, L: nat): (r: nat)
    requires 0 < L
    ensures r < L && r <= x
  {
    if x < L then x else Rem(x - L, L)
  }

  lemma {:induction false} QuotRem(x: nat, L: nat)
    requires 0 < L
    ensures Quot(x, L) == x / L && Rem(x, L) == x % L
  {
    if x < L {
      DivModUnique(x, L, 0, x);
    } else {
      QuotRem(x - L, L);
      var q := (x - L) / L;
      assert x - L == q * L + (x - L) % L;
      assert (1 + q) * L == L + q * L;
      DivModUnique(x, L, 1 + q, (x - L) % L);
    }
  }

  /** Moving j on without leaving the block keeps the quotient and adds j to the remainder. */
  lemma {:induction false} SameBlock(x: nat, L: nat, j: nat)
    requires 0 < L && Rem(x, L) + j < L
    ensures Quot(x + j, L) == Quot(x, L) && Rem(x + j, L) == Rem(x, L) + j
  {
    if x < L {
    } else {
      SameBlock(x - L, L, j);
    }
  }

  /** The first position of the next block. */
  lemma {:induction false} NextBlock(x: nat, L: nat)
    requires 0 < L
    ensures Quot(x + (L - Rem(x, L)), L) == Quot(x, L) + 1 && Rem(x + (L - Rem(x, L)), L) == 0
  {
    if x < L {
    } else {
      NextBlock(x - L, L);
    }
  }

  /** Positions are ordered by block first, by remainder inside a block. */
  lemma {:induction false} BlockOrder(x: nat, y: nat, L: nat)
    requires 0 < L && x <= y
    ensures Quot(x, L) <= Quot(y, L)
    ensures Quot(x, L) == Quot(y, L) <==> y - x == Rem(y, L) - Rem(x, L)
  {
    if x < L {
    } else {
      BlockOrder(x - L, y - L, L);
    }
  }
}
