/** Integers crossing the float64 boundary: rounding to nearest, ties to even (section 4.3.1 of
    IEEE 754-2019), and what it does to a capability mask sent as a number. */
module Float64 {

  const TWO_52: nat := 0x10_0000_0000_0000
  const TWO_53: nat := 0x20_0000_0000_0000

  function Pow2(e: nat): (p: nat)
    ensures p > 0
  {
    if e == 0 then 1 else 2 * Pow2(e - 1)
  }

  lemma MulLe(a: nat, b: nat, c: nat)
    ensures a <= b ==> a * c <= b * c
  {}

  lemma MulAssoc(a: nat, b: nat, c: nat)
    ensures a * (b * c) == (a * b) * c
  {}

  lemma {:induction false} Pow2Add(a: nat, b: nat)
    ensures Pow2(a + b) == Pow2(a) * Pow2(b)
  {
    if a > 0 {
      Pow2Add(a - 1, b);
      MulAssoc(2, Pow2(a - 1), Pow2(b));
    }
  }

  /** Integers with a significand of at most 53 bits. */
  ghost predicate Representable(m: nat) {
    exists q: nat, e: nat :: q < TWO_53 && IsScaled(m, q, e)
  }

  predicate IsScaled(m: nat, q: nat, e: nat) { m == q * Pow2(e) }

  /** How many low bits do not fit a 53-bit significand. */
  function Excess(n: nat): (e: nat)
  {
    if n < TWO_53 then 0 else 1 + Excess(n / 2)
  }

  /** The nearer of two neighbouring multiples q * u == low and low + u, ties to the even one. */
  function Nearer(n: int, q: nat, low: nat, u: nat): nat {
    if 2 * (n - low) < u || (2 * (n - low) == u && q % 2 == 0) then low else low + u
  }

  function Quotient(n: nat, u: nat): nat
    requires u > 0
  {
    n / u
  }

  /** The largest multiple of u not above n. */
  function Below(n: nat, u: nat): (low: nat)
    requires u > 0
    ensures low <= n < low + u
  {
    n - n % u
  }

  function Round(n: nat): nat {
    var u := Pow2(Excess(n));
    Nearer(n, Quotient(n, u), Below(n, u), u)
  }

  lemma {:induction false} ExcessBounds(n: nat)
    ensures Quotient(n, Pow2(Excess(n))) < TWO_53
    ensures Excess(n) > 0 ==> Quotient(n, Pow2(Excess(n))) >= TWO_52
    decreases n
  {
    if n >= TWO_53 {
      ExcessBounds(n / 2);
      HalfDiv(n, Pow2(Excess(n / 2)));
    }
  }

  lemma HalfDiv(n: nat, u: nat)
    requires u > 0
    ensures Quotient(n, 2 * u) == Quotient(n / 2, u)
  {
    var q := n / 2 / u;
    var r := n / 2 - q * u;
    assert 0 <= r < u;
    assert n == (2 * u) * q + (2 * r + n % 2);
    DivUnique(n, 2 * u, q, 2 * r + n % 2);
  }

  lemma DivUnique(n: int, u: int, q: int, r: int)
    requires u > 0 && n == u * q + r && 0 <= r < u
    ensures n / u == q
  {
    var d := n / u - q;
    assert u * d == r - n % u;
  }

  lemma MultipleApart(k: nat, q: nat, u: nat)
    ensures k * u <= q * u || k * u >= q * u + u
  {
    if k <= q {
      MulLe(k, q, u);
    } else {
      MulLe(q + 1, k, u);
      assert (q + 1) * u == q * u + u;
    }
  }

  lemma HalfPow(x: nat)
    requires x > 0
    ensures TWO_53 * Pow2(x - 1) == TWO_52 * Pow2(x)
  {}

  lemma SmallScale(q': nat, e': nat, x: nat)
    requires q' < TWO_53 && e' < x
    ensures q' * Pow2(e') <= TWO_52 * Pow2(x)
  {
    Pow2Add(x - 1 - e', e');
    MulLe(1, Pow2(x - 1 - e'), Pow2(e'));
    MulLe(q', TWO_53, Pow2(e'));
    MulLe(Pow2(e'), Pow2(x - 1), TWO_53);
    HalfPow(x);
  }

  lemma LargeScale(q': nat, e': nat, x: nat) returns (k: nat)
    requires e' >= x
    ensures q' * Pow2(e') == k * Pow2(x)
  {
    Pow2Add(e' - x, x);
    MulAssoc(q', Pow2(e' - x), Pow2(x));
    k := q' * Pow2(e' - x);
  }

  /** Between two neighbouring multiples of the unit nothing is representable. */
  lemma NothingBetween(q: nat, x: nat, m: nat)
    requires Representable(m) && (x > 0 ==> q >= TWO_52)
    ensures forall low: nat :: IsScaled(low, q, x) ==> m <= low || m >= low + Pow2(x)
  {
    var q': nat, e': nat :| q' < TWO_53 && IsScaled(m, q', e');
    if e' >= x {
      var k := LargeScale(q', e', x);
      MultipleApart(k, q, Pow2(x));
    } else {
      SmallScale(q', e', x);
      MulLe(TWO_52, q, Pow2(x));
    }
  }

  lemma DivParts(n: nat, u: nat)
    requires u > 0
    ensures Below(n, u) == Quotient(n, u) * u
  {}

  lemma Distribute(q: nat, u: nat)
    ensures (q + 1) * u == q * u + u
  {}

  /** Round picks one of the two multiples of the unit around its argument. */
  lemma RoundParts(n: nat) returns (q: nat, low: nat)
    ensures var x := Excess(n);
            && IsScaled(low, q, x) && low <= n < low + Pow2(x) && q < TWO_53 && (x > 0 ==> q >= TWO_52)
            && Round(n) == Nearer(n, q, low, Pow2(x))
  {
    var u := Pow2(Excess(n));
    q, low := Quotient(n, u), Below(n, u);
    DivParts(n, u);
    ExcessBounds(n);
  }

  lemma NextScaled(low: nat, q: nat, x: nat)
    requires IsScaled(low, q, x)
    ensures IsScaled(low + Pow2(x), q + 1, x)
    ensures q + 1 == TWO_53 ==> IsScaled(low + Pow2(x), TWO_52, x + 1)
  {
    Distribute(q, Pow2(x));
    HalfPow(x + 1);
  }

  lemma RoundRepresentable(n: nat)
    ensures Representable(Round(n))
  {
    var q, low := RoundParts(n);
    NextScaled(low, q, Excess(n));
    assert q + 1 < TWO_53 || q + 1 == TWO_53;
  }

  function Distance(a: nat, b: nat): nat { if a < b then b - a else a - b }

  lemma NearerOf(n: nat, low: nat, u: nat, m: nat, chosen: nat)
    requires low <= n < low + u && (m <= low || m >= low + u)
    requires chosen == low || chosen == low + u
    requires chosen == low ==> 2 * (n - low) <= u
    requires chosen == low + u ==> 2 * (n - low) >= u
    ensures Distance(n, chosen) <= Distance(n, m) && 2 * Distance(n, chosen) <= u
  {}

  /** Round gives a representable number, none is nearer, and the error is at most half a unit in the
      last place. */
  lemma RoundIsNearest(n: nat, m: nat)
    requires Representable(m)
    ensures Representable(Round(n)) && Distance(n, Round(n)) <= Distance(n, m)
    ensures 2 * Distance(n, Round(n)) <= Pow2(Excess(n))
  {
    var q, low := RoundParts(n);
    NothingBetween(q, Excess(n), m);
    RoundRepresentable(n);
    NearerOf(n, low, Pow2(Excess(n)), m, Round(n));
  }

  /** Halfway cases go to the even multiple of the unit. */
  lemma TiesToEven(n: nat) returns (k: nat)
    requires 2 * Distance(n, Round(n)) == Pow2(Excess(n))
    ensures IsScaled(Round(n), 2 * k, Excess(n))
  {
    var q, low := RoundParts(n);
    NextScaled(low, q, Excess(n));
    TieParity(n, q, low, Pow2(Excess(n)));
    k := if q % 2 == 0 then q / 2 else (q + 1) / 2;
    assert 2 * k == if q % 2 == 0 then q else q + 1;
  }

  lemma TieParity(n: nat, q: nat, low: nat, u: nat)
    requires low <= n < low + u && 2 * Distance(n, Nearer(n, q, low, u)) == u
    ensures Nearer(n, q, low, u) == if q % 2 == 0 then low else low + u
  {}

  /** An integer survives the crossing exactly when it fits a 53-bit significand. */
  lemma ExactIff(n: nat)
    ensures Round(n) == n <==> Representable(n)
  {
    RoundRepresentable(n);
    if Representable(n) {
      RoundIsNearest(n, n);
    }
  }

  lemma SmallExact(n: nat)
    requires n < TWO_53
    ensures Representable(n) && Round(n) == n
  {
    assert IsScaled(n, n, 0);
    ExactIff(n);
  }

  // ----- Capability masks -----

  function And(a: nat, b: nat): nat {
    if a == 0 || b == 0 then 0 else (a % 2) * (b % 2) + 2 * And(a / 2, b / 2)
  }

  /** GetCapabilities after Init took the robot's mask out of a float64. */
  function Negotiated(robotMask: nat, packageMask: nat): nat {
    And(Round(robotMask), packageMask)
  }

  const CAPABILITY_LMO: nat := 16

  /** The mask of the k lowest bits. */
  function Ones(k: nat): nat {
    Pow2(k) - 1
  }

  lemma OnesStep(k: nat)
    requires k > 0
    ensures Ones(k) % 2 == 1 && Ones(k) / 2 == Ones(k - 1)
  {}

  /** Intersecting with enough ones changes nothing. */
  lemma {:induction false} AndOnes(n: nat, k: nat)
    requires n < Pow2(k)
    ensures And(n, Ones(k)) == n
    decreases k
  {
    if k > 0 && n > 0 {
      OnesStep(k);
      AndOnes(n / 2, k - 1);
    }
  }

  lemma {:induction false} BelowPow2(n: nat, k: nat)
    requires n <= k
    ensures n < Pow2(k)
    decreases k
  {
    if k > 0 {
      BelowPow2(if n == 0 then 0 else n - 1, k - 1);
    }
  }

  /** A package that has every capability sees the mask itself. */
  lemma AllOnesReveals(robotMask: nat) returns (packageMask: nat)
    ensures Negotiated(robotMask, packageMask) == Round(robotMask) && And(robotMask, packageMask) == robotMask
  {
    var k := robotMask + Round(robotMask);
    packageMask := Ones(k);
    BelowPow2(robotMask, k);
    BelowPow2(Round(robotMask), k);
    AndOnes(robotMask, k);
    AndOnes(Round(robotMask), k);
  }

  /** A robot's mask is negotiated exactly with every package exactly when it fits a 53-bit significand;
      masks using bits 0 to 52 always do. */
  lemma NegotiationExactIff(robotMask: nat)
    ensures (forall packageMask: nat :: Negotiated(robotMask, packageMask) == And(robotMask, packageMask)) <==>
            Representable(robotMask)
    ensures robotMask < TWO_53 ==> Representable(robotMask)
  {
    ExactIff(robotMask);
    var packageMask := AllOnesReveals(robotMask);
    if robotMask < TWO_53 {
      SmallExact(robotMask);
    }
  }

  const BIT_57: nat := 0x200_0000_0000_0000

  lemma RoundBit57()
    ensures Round(BIT_57 + CAPABILITY_LMO) == BIT_57
  {
    var n := BIT_57 + CAPABILITY_LMO;
    assert Excess(n / 32) == 0;
    assert Excess(n / 16) == 1;
    assert Excess(n / 8) == 2;
    assert Excess(n / 4) == 3;
    assert Excess(n / 2) == 4;
    assert Excess(n) == 5;
    assert Pow2(3) == 8 && Pow2(5) == 32;
    assert n / 32 == TWO_52 && n % 32 == 16;
  }

  lemma AndLmo(a: nat)
    ensures And(a, CAPABILITY_LMO) == if a / 16 % 2 == 1 then CAPABILITY_LMO else 0
  {
    AndOne(a / 16);
    AndDouble(a / 8, 1);
    AndDouble(a / 4, 2);
    AndDouble(a / 2, 4);
    AndDouble(a, 8);
  }

  lemma AndDouble(a: nat, b: nat)
    ensures And(a, 2 * b) == 2 * And(a / 2, b)
  {}

  lemma AndOne(a: nat)
    ensures And(a, 1) == a % 2
  {}

  /** Beyond the bound a capability both sides have is lost: with bit 57 set, the LMO bit is rounded
      away. */
  lemma HighBitLosesLmo()
    ensures And(BIT_57 + CAPABILITY_LMO, CAPABILITY_LMO) == CAPABILITY_LMO
    ensures Negotiated(BIT_57 + CAPABILITY_LMO, CAPABILITY_LMO) == 0
  {
    RoundBit57();
    AndLmo(BIT_57 + CAPABILITY_LMO);
    AndLmo(BIT_57);
  }

  /** The k-th lowest bit. */
  function Bit(n: nat, k: nat): nat {
    if k == 0 then n % 2 else Bit(n / 2, k - 1)
  }

  /** Intersecting masks keeps exactly the bits both have. */
  lemma {:induction false} AndBits(a: nat, b: nat, k: nat)
    ensures Bit(And(a, b), k) == if Bit(a, k) == 1 && Bit(b, k) == 1 then 1 else 0
    decreases k
  {
    if a == 0 || b == 0 {
      NoBits(k);
    } else if k > 0 {
      assert And(a, b) / 2 == And(a / 2, b / 2);
      AndBits(a / 2, b / 2, k - 1);
    }
  }

  lemma {:induction false} NoBits(k: nat)
    ensures Bit(0, k) == 0
  {
    if k > 0 {
      NoBits(k - 1);
    }
  }
}
