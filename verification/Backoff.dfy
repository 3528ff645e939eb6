/** backoff.go: the saturating exponential and the composition of bounds. */
module Backoff {
  import opened Common

  const MAX_INT64: int := TWO_63 - 1

  /** time.Duration is an int64. */
  type Duration = d: int | -TWO_63 <= d < TWO_63
  type Strategy = int -> Duration

  // ----- exponential --------------------------------------------------------

  function Pow2(n: nat): nat {
    if n == 0 then 1 else 2 * Pow2(n - 1)
  }

  /** int64(1 << uint64(attempt)): the bit falls out above 63, and bit 63 is the sign. */
  function ShiftedOne(attempt: int): Duration {
    var shift := attempt % TWO_64;
    if shift < 63 then PowFits(shift); Pow2(shift)
    else if shift == 63 then -TWO_63
    else 0
  }

  lemma {:induction false} PowMonotone(a: nat, b: nat)
    requires a <= b
    ensures 0 < Pow2(a) <= Pow2(b) && (a < b ==> 2 * Pow2(a) <= Pow2(b))
    decreases b
  {
    if a < b {
      PowMonotone(a, b - 1);
    } else if 0 < a {
      PowMonotone(a - 1, b - 1);
    }
  }

  lemma PowFits(n: nat)
    requires n < 63
    ensures 0 < Pow2(n) < TWO_63
  {
    PowMonotone(n, 62);
    Pow62();
  }

  lemma Pow62()
    ensures Pow2(62) * 2 == TWO_63
  {
    assert Pow2(10) == 1024 by { assert Pow2(5) == 32; }
    PowPlus(10, 10);
    PowPlus(20, 20);
    PowPlus(40, 20);
    PowPlus(60, 2);
    assert Pow2(2) == 4;
  }

  lemma {:induction false} PowPlus(a: nat, b: nat)
    ensures Pow2(a + b) == Pow2(a) * Pow2(b)
    decreases b
  {
    if b == 0 {
    } else {
      PowPlus(a, b - 1);
      assert Pow2(a + b) == 2 * (Pow2(a) * Pow2(b - 1));
    }
  }

  /** exponential.Backoff: a 128-bit product, cut off at any overflow. */
  function Exponential(scale: Duration, attempt: int): Duration {
    var exp := ShiftedOne(attempt);
    if exp <= 0 then MAX_INT64
    else
      CutOff(exp * (scale % TWO_64))
  }

  /** The two halves of the product; any bit above 2^63 - 1 means the maximum. */
  function CutOff(product: nat): Duration {
    var hi, lo := product / TWO_64, product % TWO_64;
    if hi != 0 || TWO_63 <= lo then MAX_INT64 else lo
  }

  lemma CutOffIs(product: nat)
    ensures CutOff(product) == if product < TWO_63 then product else MAX_INT64
  {
  }

  /** What the product should be, saturated, for attempts of any size. */
  function Saturated(scale: nat, attempt: nat): int {
    if Pow2(attempt) * scale < TWO_63 then Pow2(attempt) * scale else MAX_INT64
  }

  /** The arithmetic of the overflow test: the result is the product when it fits, the maximum otherwise. */
  lemma ExponentialIs(scale: Duration, attempt: int)
    requires -TWO_63 <= attempt < TWO_63
    ensures Exponential(scale, attempt)
            == if attempt < 0 || 63 <= attempt then MAX_INT64
               else if scale < 0 then MAX_INT64
               else Saturated(scale, attempt)
  {
    if 0 <= attempt < 63 {
      hide Pow2, CutOff;
      PowFits(attempt);
      var exp := ShiftedOne(attempt);
      assert exp == Pow2(attempt);
      CutProduct(exp, scale);
    }
  }

  /** The cut-off product of exp and the unsigned form of the scale: a negative scale becomes too large a factor. */
  lemma CutProduct(exp: int, scale: Duration)
    requires 1 <= exp
    ensures CutOff(exp * (scale % TWO_64))
            == if scale < 0 || TWO_63 <= exp * scale then MAX_INT64 else exp * scale
  {
    hide CutOff;
    if scale < 0 {
      assert scale % TWO_64 == scale + TWO_64;
      Product(exp, scale + TWO_64);
      CutOffIs(exp * (scale + TWO_64));
    } else {
      assert scale % TWO_64 == scale;
      CutOffIs(exp * scale);
    }
  }

  /** exp times a factor of at least 2^63 leaves no room below 2^63. */
  lemma Product(exp: int, factor: int)
    requires 1 <= exp && TWO_63 <= factor
    ensures TWO_63 <= exp * factor
  {
    assert exp * factor == (exp - 1) * factor + factor;
  }

  /** For positive scales and attempts of any size: exactly min(2^attempt * scale, 2^63 - 1). */
  lemma ExponentialSaturates(scale: Duration, attempt: nat)
    requires 0 < scale && attempt < TWO_63
    ensures Exponential(scale, attempt) == Saturated(scale, attempt)
  {
    ExponentialIs(scale, attempt);
    if 63 <= attempt {
      hide Pow2;
      Pow62();
      PowMonotone(62, attempt);
      assert Pow2(attempt) * scale == Pow2(attempt) * (scale - 1) + Pow2(attempt);
    }
  }

  lemma ScaleMonotone(x: nat, y: nat, scale: nat)
    requires x <= y
    ensures x * scale <= y * scale
  {
    assert y * scale == x * scale + (y - x) * scale;
  }

  lemma ExponentialMonotone(scale: Duration, a: nat, b: nat)
    requires 0 < scale && a <= b < TWO_63
    ensures Exponential(scale, a) <= Exponential(scale, b)
  {
    ExponentialSaturates(scale, a);
    ExponentialSaturates(scale, b);
    hide Pow2, Exponential;
    PowMonotone(a, b);
    ScaleMonotone(Pow2(a), Pow2(b), scale);
  }

  // ----- bounds -------------------------------------------------------------

  datatype Bound = Maximum(d: Duration) | Minimum(d: Duration)

  function Bounded(o: Bound, s: Strategy): Strategy {
    match o
    case Maximum(d) => (attempt: int) => if s(attempt) < d then s(attempt) else d
    case Minimum(d) => (attempt: int) => if s(attempt) > d then s(attempt) else d
  }

  /** New: each option wraps the strategy built so far. */
  function New(s: Strategy, options: seq<Bound>): Strategy
    decreases |options|
  {
    if options == [] then s else New(Bounded(options[0], s), options[1..])
  }

  /** The clamp to the largest minimum and the smallest maximum of the list. */
  function Low(options: seq<Bound>): Duration {
    if options == [] then -TWO_63
    else if options[0].Minimum? && Low(options[1..]) < options[0].d then options[0].d
    else Low(options[1..])
  }

  function High(options: seq<Bound>): Duration {
    if options == [] then MAX_INT64
    else if options[0].Maximum? && options[0].d < High(options[1..]) then options[0].d
    else High(options[1..])
  }

  function Clamp(x: int, low: int, high: int): int {
    if x < low then low else if high < x then high else x
  }

  /** With every minimum at most every maximum, folding the options is the clamp between them. */
  lemma {:induction false} NewClamps(s: Strategy, options: seq<Bound>, attempt: int)
    requires Low(options) <= High(options)
    ensures New(s, options)(attempt) == Clamp(s(attempt), Low(options), High(options))
    decreases |options|
  {
    if options == [] {
    } else {
      NewClamps(Bounded(options[0], s), options[1..], attempt);
    }
  }

  /** Low and High are what they are called. */
  lemma {:induction false} BoundsAre(options: seq<Bound>)
    ensures forall o :: o in options && o.Minimum? ==> o.d <= Low(options)
    ensures forall o :: o in options && o.Maximum? ==> High(options) <= o.d
    ensures Low(options) == -TWO_63 || Minimum(Low(options)) in options
    ensures High(options) == MAX_INT64 || Maximum(High(options)) in options
    decreases |options|
  {
    if options == [] {
    } else {
      BoundsAre(options[1..]);
      assert options == [options[0]] + options[1..];
    }
  }

  /** Bounds keep a strategy monotone, whatever the bounds are. */
  lemma {:induction false} NewMonotone(s: Strategy, options: seq<Bound>, a: int, b: int)
    requires s(a) <= s(b)
    ensures New(s, options)(a) <= New(s, options)(b)
    decreases |options|
  {
    if options == [] {
    } else {
      NewMonotone(Bounded(options[0], s), options[1..], a, b);
    }
  }

  /** Every order of the same options gives the same strategy. */
  ghost predicate OrderFree(options: seq<Bound>) {
    forall other: seq<Bound>, s: Strategy, attempt: int | multiset(other) == multiset(options) ::
      New(s, other)(attempt) == New(s, options)(attempt)
  }

  /** The order is irrelevant exactly when no minimum exceeds a maximum. */
  lemma OrderFreeExactly(options: seq<Bound>)
    ensures OrderFree(options) <==> Low(options) <= High(options)
  {
    if Low(options) <= High(options) {
      forall other: seq<Bound>, s: Strategy, attempt: int | multiset(other) == multiset(options)
        ensures New(s, other)(attempt) == New(s, options)(attempt)
      {
        SameBounds(options, other);
        NewClamps(s, options, attempt);
        NewClamps(s, other, attempt);
      }
    } else {
      OrderMatters(options);
    }
  }

  lemma SameBounds(options: seq<Bound>, other: seq<Bound>)
    requires multiset(other) == multiset(options)
    ensures Low(other) == Low(options) && High(other) == High(options)
  {
    BoundsAre(options);
    BoundsAre(other);
    forall o ensures o in options <==> o in other {
      assert o in options <==> o in multiset(options);
      assert o in other <==> o in multiset(other);
    }
  }

  /** The option applied last decides: the same options, moved to the end in turn, end up apart. */
  lemma OrderMatters(options: seq<Bound>)
    requires High(options) < Low(options)
    ensures !OrderFree(options)
  {
    BoundsAre(options);
    var low, high := Minimum(Low(options)), Maximum(High(options));
    var s: Strategy := (attempt: int) => 0;
    var a := MoveLast(options, low);
    var b := MoveLast(options, high);
    NewSnoc(s, a, low, 0);
    NewSnoc(s, b, high, 0);
    assert New(s, a + [low])(0) >= Low(options) && New(s, b + [high])(0) <= High(options);
  }

  lemma MoveLast(options: seq<Bound>, o: Bound) returns (rest: seq<Bound>)
    requires o in options
    ensures multiset(rest + [o]) == multiset(options)
  {
    var i :| 0 <= i < |options| && options[i] == o;
    rest := options[..i] + options[i + 1..];
    assert options == options[..i] + [o] + options[i + 1..];
  }

  lemma {:induction false} NewSnoc(s: Strategy, options: seq<Bound>, o: Bound, attempt: int)
    ensures New(s, options + [o])(attempt) == Bounded(o, New(s, options))(attempt)
    decreases |options|
  {
    if options == [] {
      assert [] + [o] == [o] && [o][1..] == [];
    } else {
      assert (options + [o])[1..] == options[1..] + [o];
      NewSnoc(Bounded(options[0], s), options[1..], o, attempt);
    }
  }
}
