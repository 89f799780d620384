/**
 Why exact arithmetic is a faithful reading of the es5-shim `toFixed`: every number its two limb loops form
 is below 2^53, and the one inexact operation left, a quotient rounded before Math.floor, keeps its floor.
 */
module EsRounding {
  import opened EsNumbers
  import opened EsLimbs
  import opened EsToFixed

  function Limit(): real {
    9007199254740992.0
  }

  /** Every sum formed by multiply(t, e) is below 2^53. */
  predicate SmallSums(s: seq<real>, t: nat, e: real)
    decreases s
  {
    s == [] || (var n := e + t as real * s[0]; n < Limit() && SmallSums(s[1..], t, Quotient(n, BASE) as real))
  }

  /** Enough for each call made: (0, a) with a below 2^53, (10^u, 0) and (2^u, 0) up to 10^7, and (1, 1). */
  lemma {:induction false} MultiplyStaysSmall(s: seq<real>, t: nat, e: real)
    requires Limbs(s) && t <= BASE && e >= 0.0
    requires e + (t * BASE) as real <= Limit() && (t == 0 ==> e < Limit())
    ensures SmallSums(s, t, e)
    decreases s
  {
    hide Quotient;
    if s != [] {
      var n := e + t as real * s[0];
      LimbProduct(s[0], t);
      QuotientSmall(n);
      RemainderRange(n, BASE);
      assert (t * BASE) as real <= 100_000_000_000_000.0 by { assert t * BASE <= BASE * BASE; }
      MultiplyStaysSmall(s[1..], t, Quotient(n, BASE) as real);
    }
  }

  lemma LimbProduct(x: real, t: nat)
    requires 0.0 <= x < BaseReal()
    ensures 0.0 <= t as real * x <= (t * BASE) as real && (t > 0 ==> t as real * x < (t * BASE) as real)
  {
  }

  lemma QuotientSmall(n: real)
    requires 0.0 <= n < Limit()
    ensures Quotient(n, BASE) as real < 900_719_926.0
  {
  }

  /** Every number formed by divide(t), for the divisors 2 to 2^23, is below 2^53. */
  predicate SmallRemainders(s: seq<real>, t: nat)
    requires t > 0
    decreases s
  {
    s == [] || (SmallRemainders(s[1..], t) && Divided(s[1..], t).rest * BaseReal() + s[0] < Limit())
  }

  lemma RemainderSmall(rest: real, limb: real, t: nat)
    requires 0.0 <= rest < t as real && t <= 8388608 && limb < BaseReal()
    ensures rest * BaseReal() + limb < Limit()
  {
  }

  lemma {:induction false} DivideStaysSmall(s: seq<real>, t: nat)
    requires Limbs(s) && 0 < t <= 8388608
    ensures SmallRemainders(s, t)
    decreases s
  {
    hide Divided;
    if s != [] {
      DivideStaysSmall(s[1..], t);
      assert WholeLimbs(s[1..]);
      DivideExact(s[1..], t);
      RemainderSmall(Divided(s[1..], t).rest, s[0], t);
    }
  }

  /** A double quotient: within half a unit in the last place, and never below an integer the true one reaches. */
  predicate RoundsTo(x: real, q: real) {
    x.Floor as real <= q && q <= x + x / Limit()
  }

  /** Math.floor(n / 10^7) is exact for whole n below 2^53 and for halves below 2^52. */
  lemma FloorSurvivesRounding(n: real, q: real)
    requires 0.0 <= n < Limit() && RoundsTo(n / BaseReal(), q)
    requires Whole(n) || (Whole(2.0 * n) && 2.0 * n < Limit())
    ensures q.Floor == Quotient(n, BASE)
  {
    var k := Quotient(n, BASE) + 1;
    // the next integer is a whole number of units away, the rounding error less than one unit
    assert n < (k * BASE) as real;
    if Whole(n) {
      assert n.Floor + 1 <= k * BASE;
      assert n + 1.0 <= (k * BASE) as real;
    } else {
      var twice := (2.0 * n).Floor;
      assert twice < 2 * (k * BASE);
      assert 2.0 * n + 1.0 <= 2.0 * (k * BASE) as real;
    }
    assert q < k as real;
    FloorUnique(q, k - 1);
  }

  /** The first factor loaded is a whole number below 2^53 or, for numbers below 2^-69, a half below 2^52. */
  lemma FirstFactorLoads(x: Double, l: nat, a: real)
    requires x.Finite? && IsDouble(x) && Magnitude(x) > Tiny() && a == Magnitude(x) * Two(121 - l)
    requires Magnitude(x) * Two(69) < Two(l + 1) && (Magnitude(x) * Two(69) >= Two(l) || l == 0)
    ensures 0.0 <= a < Limit() && (Whole(a) || (Whole(2.0 * a) && 2.0 * a < Limit()))
  {
    hide Two, Tiny, Pow, Magnitude;
    FactorBound(Magnitude(x), l);
    PowFiftyThree();
    TwoNatural(53);
    if Magnitude(x) * Two(69) >= Two(l) {
      FactorWhole(x, l, 121 - l, a);
    } else {
      TwoZero();
      SmallFactor(Magnitude(x), a);
      var k := x.exponent + 122;
      if k < 0 {
        NotTiny(x);
      }
      Doubled(x, a, k);
    }
  }

  lemma SmallFactor(r: real, a: real)
    requires r >= 0.0 && r * Two(69) < Two(0) && a == r * Two(121)
    ensures 2.0 * a < Limit()
  {
    hide Two, Pow;
    TwoAdd(69, 52);
    TwoZero();
    PowFiftyThree();
    ProductOrder(r, Two(69), Two(52), Two(0));
  }

  lemma NotTiny(x: Double)
    requires x.Finite? && IsDouble(x) && x.exponent + 122 < 0
    ensures Magnitude(x) <= Tiny()
  {
    hide Two, Pow, Tiny;
    PowFiftyThree();
    TwoMonotone(x.exponent, -123);
    BelowHalf(x.mantissa as real, Two(x.exponent), Pow(2, 53) as real, Two(-123));
    TwoNatural(53);
    TwoAdd(53, -123);
    SeventyBits();
    TwoAdd(70, -70);
    TwoZero();
    AboveTiny(Two(70), Two(-70));
  }

  lemma AboveTiny(p: real, q: real)
    requires p == 1180591620717411303424.0 && p * q == 1.0
    ensures q <= Tiny()
  {
  }

  lemma Doubled(x: Double, a: real, k: nat)
    requires x.Finite? && k == x.exponent + 122 && a == Magnitude(x) * Two(121)
    ensures Whole(2.0 * a)
  {
    hide Two, Pow, Whole;
    TwoAdd(x.exponent, 121);
    TwoStep(x.exponent + 121);
    TwoNatural(k);
    var m := x.mantissa as real;
    assert (m * Two(x.exponent)) * Two(121) == m * (Two(x.exponent) * Two(121));
    assert 2.0 * a == m * Two(k);
    WholeProduct(x.mantissa, k, 2.0 * a);
  }

  lemma {:induction false} TwoNatural(n: nat)
    ensures Two(n) == Pow(2, n) as real
  {
  }

  // ----- the whole run on doubles -----

  ghost predicate Representable(x: real) {
    exists d: Double :: IsDouble(d) && d.Finite? && -1074 <= d.exponent <= 971 && x == Magnitude(d)
  }

  /** Rounding to doubles, as far as it is used: what is representable stays, and quotients are rounded as RoundsTo says. */
  ghost predicate Rounding(rd: real -> real) {
    && (forall x :: Representable(x) ==> rd(x) == x)
    && (forall x :: (x == 0.0 || 0.00000001 <= x <= Limit()) ==> RoundsTo(x, rd(x)))
  }

  /** No rounding at all is one of them. */
  lemma ExactRounds()
    ensures Rounding((x: real) => x)
  {
    hide Representable;
  }

  /** A whole number below 2^53 or a half below 2^52. */
  predicate Loadable(n: real) {
    0.0 <= n < Limit() && (Whole(n) || (Whole(2.0 * n) && 2.0 * n < Limit()))
  }

  lemma WholeIsRepresentable(x: real)
    requires 0.0 <= x < Limit() && Whole(x)
    ensures Representable(x)
  {
    hide Two, Pow;
    PowFiftyThree();
    TwoZero();
    var d := Finite(false, x.Floor, 0);
    assert IsDouble(d) && x == Magnitude(d);
  }

  /** A half divided by a power of two. */
  lemma QuotientIsRepresentable(x: real, j: nat, q: real)
    requires x >= 0.0 && Whole(2.0 * x) && 2.0 * x < Limit() && j <= 23 && q == x / Pow(2, j) as real
    ensures Representable(q)
  {
    hide Two, Pow, Whole;
    PowFiftyThree();
    var m := (2.0 * x).Floor;
    assert 2.0 * x == m as real by { WholeIsFloor(2.0 * x); }
    TwoAdd(j + 1, -1 - j);
    TwoIsPow(j);
    TwoStep(j);
    TwoZero();
    HalfQuotient(x, m, Pow(2, j) as real, Two(-1 - j), q);
    var d := Finite(false, m, -1 - j);
    assert IsDouble(d) && q == Magnitude(d);
  }

  lemma WholeIsFloor(x: real)
    requires Whole(x)
    ensures x == x.Floor as real
  {
  }

  lemma HalfQuotient(x: real, m: int, p: real, h: real, q: real)
    requires p > 0.0 && (2.0 * p) * h == 1.0 && 2.0 * x == m as real && q == x / p
    ensures q == m as real * h
  {
    assert q * p == x;
    assert m as real * h == (2.0 * (q * p)) * h == q * ((2.0 * p) * h);
  }

  lemma {:induction false} LoadableStays(rd: real -> real, n: real)
    requires Rounding(rd) && Loadable(n)
    ensures rd(n) == n && rd(n / BaseReal()).Floor == Quotient(n, BASE)
  {
    hide Representable, RoundsTo, Whole, Quotient;
    if Whole(n) {
      WholeIsRepresentable(n);
    } else {
      assert Pow(2, 0) == 1 && n / 1.0 == n;
      QuotientIsRepresentable(n, 0, n);
    }
    LoadableQuotient(n);
    assert RoundsTo(n / BaseReal(), rd(n / BaseReal()));
    FloorSurvivesRounding(n, rd(n / BaseReal()));
  }

  lemma LoadableQuotient(n: real)
    requires Loadable(n)
    ensures n / BaseReal() == 0.0 || 0.00000001 <= n / BaseReal() <= Limit()
  {
    if n > 0.0 {
      assert if Whole(n) then n.Floor >= 1 else (2.0 * n).Floor >= 1;
    }
  }

  function RoundedMultiplied(rd: real -> real, s: seq<real>, t: nat, e: real): seq<real>
    decreases s
  {
    if s == [] then []
    else
      var n := rd(e + rd(t as real * s[0]));
      [Remainder(n, BASE)] + RoundedMultiplied(rd, s[1..], t, rd(n / BaseReal()).Floor as real)
  }

  /** The rounded quotient, floored. */
  function RoundedQuotient(rd: real -> real, n: real, d: nat): int
    requires d > 0
  {
    rd(n / d as real).Floor
  }

  function RoundedDivided(rd: real -> real, s: seq<real>, t: nat): Division
    requires t > 0
    decreases s
  {
    if s == [] then Division([], 0.0)
    else
      var above := RoundedDivided(rd, s[1..], t);
      var r := rd(rd(above.rest * BaseReal()) + s[0]);
      Division([RoundedQuotient(rd, r, t) as real] + above.limbs, Remainder(r, t))
  }

  function RoundedCalled(rd: real -> real, s: seq<real>, call: Call): seq<real> {
    match call
    case MultiplyBy(t, e) => RoundedMultiplied(rd, s, t, e)
    case DivideBy(t) => if t == 0 then s else RoundedDivided(rd, s, t).limbs
  }

  function AfterRoundedCalls(rd: real -> real, s: seq<real>, calls: seq<Call>): seq<real>
    decreases calls
  {
    if calls == [] then s else AfterRoundedCalls(rd, RoundedCalled(rd, s, calls[0]), calls[1..])
  }

  /** Limbs of which the lowest may be a half. */
  predicate HalfLimbs(s: seq<real>) {
    Limbs(s) && (s != [] ==> Whole(2.0 * s[0]))
  }

  predicate CallFits(call: Call) {
    match call
    case MultiplyBy(t, e) => if t == 0 then Loadable(e) else t <= BASE && Whole(e) && 0.0 <= e <= 1.0
    case DivideBy(t) => exists j :: 0 <= j <= 23 && t == Pow(2, j)
  }

  lemma WholeLoadable(e: real, t: nat, x: real, p: real)
    requires Whole(e) && 0.0 <= e <= 900_719_926.0 && t <= BASE && 0.0 <= x < BaseReal() && Whole(x) && p == t as real * x
    ensures Loadable(p) && Loadable(e + p)
  {
    hide Whole;
    WholeTimes(t, x);
    WholeSum(e + p, e, t, x);
    SmallProductOf(t, x, p);
  }

  lemma SmallProductOf(t: nat, x: real, p: real)
    requires t <= BASE && 0.0 <= x < BaseReal() && p == t as real * x
    ensures 0.0 <= p <= 100_000_000_000_000.0
  {
    TimesNonNegative(t, x);
    TimesNonNegative(BASE - t, x);
    assert (BASE - t) as real == 10_000_000.0 - t as real;
    assert (BASE - t) as real * x == 10_000_000.0 * x - p;
  }

  lemma {:induction false} HigherRounds(rd: real -> real, s: seq<real>, t: nat, e: real)
    requires Rounding(rd) && WholeLimbs(s) && t <= BASE && Whole(e) && 0.0 <= e <= 900_719_926.0
    ensures RoundedMultiplied(rd, s, t, e) == Multiplied(s, t, e).limbs
    decreases s
  {
    hide Rounding, Quotient, Remainder, Loadable, Whole;
    if s != [] {
      var p := t as real * s[0];
      WholeLoadable(e, t, s[0], p);
      StepRounds(rd, e, p);
      HigherRounds(rd, s[1..], t, Quotient(e + p, BASE) as real);
    }
  }

  lemma {:induction false} StepRounds(rd: real -> real, e: real, p: real)
    requires Rounding(rd) && Loadable(p) && Loadable(e + p)
    ensures rd(e + rd(p)) == e + p && rd((e + p) / BaseReal()).Floor == Quotient(e + p, BASE)
    ensures Whole(Quotient(e + p, BASE) as real) && 0.0 <= Quotient(e + p, BASE) as real <= 900_719_926.0
  {
    hide Rounding, Quotient, Whole;
    LoadableStays(rd, p);
    LoadableStays(rd, e + p);
    QuotientSmall(e + p);
    RemainderRange(e + p, BASE);
    WholeInt(Quotient(e + p, BASE));
  }

  /** The lowest limb may be a half, and so may what is loaded. */
  lemma {:induction false} MultiplyRounds(rd: real -> real, s: seq<real>, t: nat, e: real)
    requires Rounding(rd) && HalfLimbs(s) && CallFits(MultiplyBy(t, e))
    ensures RoundedMultiplied(rd, s, t, e) == Multiplied(s, t, e).limbs && HalfLimbs(Multiplied(s, t, e).limbs)
  {
    hide Rounding, Quotient, Remainder, Loadable, Whole, CallFits, Value, Weight;
    FitsAreNonNegative(t, e);
    MultiplyExact(s, t, e);
    if s != [] {
      var p := t as real * s[0];
      LowestLoadable(s[0], t, e, p);
      StepRounds(rd, e, p);
      HigherRounds(rd, s[1..], t, Quotient(e + p, BASE) as real);
      HalfRemainder(e + p);
    }
  }

  lemma FitsAreNonNegative(t: nat, e: real)
    requires CallFits(MultiplyBy(t, e))
    ensures e >= 0.0 && t <= BASE
  {
  }

  lemma LowestLoadable(x: real, t: nat, e: real, p: real)
    requires 0.0 <= x < BaseReal() && Whole(2.0 * x) && CallFits(MultiplyBy(t, e)) && p == t as real * x
    ensures Loadable(p) && Loadable(e + p) && Whole(2.0 * (e + p))
  {
    if t == 0 {
      ZeroLoadable(x, e);
    } else {
      MulDouble(t as real, x);
      WholeTimes(t, 2.0 * x);
      var n := t * (2.0 * x).Floor;
      assert 2.0 * p == n as real;
      FloorUnique(2.0 * p, n);
      SmallProductOf(t, x, p);
      HalfLoadable(e, p);
    }
  }

  lemma HalfLoadable(e: real, p: real)
    requires Whole(e) && 0.0 <= e <= 1.0 && Whole(2.0 * p) && 0.0 <= p <= 100_000_000_000_000.0
    ensures Loadable(p) && Loadable(e + p) && Whole(2.0 * (e + p))
  {
    FloorUnique(2.0 * (e + p), 2 * e.Floor + (2.0 * p).Floor);
  }

  lemma ZeroLoadable(x: real, e: real)
    requires Loadable(e)
    ensures 0 as real * x == 0.0 && Loadable(0.0) && e + 0.0 == e && Whole(2.0 * e)
  {
    if Whole(e) {
      WholeTimes(2, e);
    }
  }

  lemma HalfRemainder(n: real)
    requires Whole(2.0 * n)
    ensures Whole(2.0 * Remainder(n, BASE))
  {
    hide Quotient;
    var q := Quotient(n, BASE);
    FloorUnique(2.0 * Remainder(n, BASE), (2.0 * n).Floor - 2 * (BASE * q));
  }

  lemma {:induction false} LoadRounds(rd: real -> real, s: seq<real>, z: seq<real>, e: real)
    requires |s| == |z|
    ensures RoundedMultiplied(rd, s, 0, e) == RoundedMultiplied(rd, z, 0, e)
    decreases s
  {
    hide Remainder, RoundedMultiplied;
    if s != [] {
      var n := rd(e + rd(0.0));
      LoadStep(rd, s, e, 0 as real * s[0], n);
      LoadStep(rd, z, e, 0 as real * z[0], n);
      LoadRounds(rd, s[1..], z[1..], rd(n / BaseReal()).Floor as real);
    } else {
      assert s == z;
    }
  }

  lemma {:induction false} LoadStep(rd: real -> real, s: seq<real>, e: real, p: real, n: real)
    requires s != [] && p == 0 as real * s[0] && n == rd(e + rd(0.0))
    ensures RoundedMultiplied(rd, s, 0, e) == [Remainder(n, BASE)] + RoundedMultiplied(rd, s[1..], 0, rd(n / BaseReal()).Floor as real)
  {
    hide RoundedMultiplied, Remainder;
    NothingTimes(s[0], p);
    assert rd(p) == rd(0.0);
    ProductStepOf(rd, s, 0, e, p, n);
  }

  lemma NothingTimes(x: real, p: real)
    requires p == 0 as real * x
    ensures p == 0.0
  {
  }

  lemma {:induction false} ProductStepOf(rd: real -> real, s: seq<real>, t: nat, e: real, p: real, n: real)
    requires s != [] && p == t as real * s[0] && n == rd(e + rd(p))
    ensures RoundedMultiplied(rd, s, t, e) == [Remainder(n, BASE)] + RoundedMultiplied(rd, s[1..], t, rd(n / BaseReal()).Floor as real)
  {
    hide Remainder;
  }

  lemma {:induction false} DivideRounds(rd: real -> real, s: seq<real>, j: nat)
    requires Rounding(rd) && HalfLimbs(s) && j <= 23
    ensures RoundedDivided(rd, s, Pow(2, j)) == Divided(s, Pow(2, j))
    decreases s
  {
    hide Rounding, Quotient, Remainder, Pow, Loadable, Whole, Value, Divided, RoundedDivided;
    if s == [] {
      DividedNone(rd, Pow(2, j));
    } else {
      var t := Pow(2, j);
      WholesAreHalves(s);
      DivideRounds(rd, s[1..], j);
      DivideExact(s[1..], t);
      PowMonotone(2, j, 23);
      Shift23();
      var rest := Divided(s[1..], t).rest;
      DigitRounds(rd, rest, s[0], j, rest * BaseReal());
      DividedTop(rd, s, t, rest * BaseReal(), rest * BaseReal() + s[0]);
    }
  }

  lemma {:induction false} DividedNone(rd: real -> real, t: nat)
    requires t > 0
    ensures RoundedDivided(rd, [], t) == Divided([], t)
  {
  }

  lemma WholesAreHalves(s: seq<real>)
    requires HalfLimbs(s) && s != []
    ensures WholeLimbs(s[1..]) && HalfLimbs(s[1..])
  {
    if |s| > 1 {
      WholeTimes(2, s[1]);
    }
  }

  lemma {:induction false} DigitRounds(rd: real -> real, rest: real, x: real, j: nat, v: real)
    requires Rounding(rd) && j <= 23 && Pow(2, j) <= 8388608
    requires 0.0 <= rest < Pow(2, j) as real && Whole(rest) && 0.0 <= x < BaseReal() && Whole(2.0 * x) && v == rest * BaseReal()
    ensures rd(rd(v) + x) == v + x && RoundedQuotient(rd, v + x, Pow(2, j)) == Quotient(v + x, Pow(2, j))
  {
    hide Rounding, Pow, Whole, Representable;
    WholeBase(rest, v);
    DigitLoadable(rest, Pow(2, j) as real, x, v);
    LoadableStays(rd, v);
    LoadableStays(rd, v + x);
    var q := (v + x) / Pow(2, j) as real;
    QuotientIsRepresentable(v + x, j, q);
    Stays(rd, q);
  }

  lemma WholeBase(rest: real, v: real)
    requires Whole(rest) && v == rest * BaseReal()
    ensures Whole(v)
  {
    FloorUnique(v, 10_000_000 * rest.Floor);
  }

  lemma DigitLoadable(rest: real, t: real, x: real, v: real)
    requires 0.0 <= rest < t <= 8388608.0 && v == rest * BaseReal() && Whole(v) && 0.0 <= x < BaseReal() && Whole(2.0 * x)
    ensures Loadable(v) && Loadable(v + x) && Whole(2.0 * (v + x)) && 2.0 * (v + x) < Limit()
  {
    FloorUnique(2.0 * (v + x), 2 * v.Floor + (2.0 * x).Floor);
  }

  lemma {:induction false} DividedTop(rd: real -> real, s: seq<real>, t: nat, v: real, r: real)
    requires s != [] && t > 0 && RoundedDivided(rd, s[1..], t) == Divided(s[1..], t)
    requires v == Divided(s[1..], t).rest * BaseReal() && r == v + s[0]
    requires rd(rd(v) + s[0]) == r && RoundedQuotient(rd, r, t) == Quotient(r, t)
    ensures RoundedDivided(rd, s, t) == Divided(s, t)
  {
    hide Quotient, Remainder, RoundedQuotient, Divided, RoundedDivided;
    var above := Divided(s[1..], t);
    ExactStep(s, t, above, v, r);
    RoundedStep(rd, s, t, above, v, r);
  }

  lemma {:induction false} ExactStep(s: seq<real>, t: nat, above: Division, v: real, r: real)
    requires s != [] && t > 0 && above == Divided(s[1..], t) && v == above.rest * BaseReal() && r == v + s[0]
    ensures Divided(s, t) == Division([Quotient(r, t) as real] + above.limbs, Remainder(r, t))
  {
    hide Remainder, Quotient;
  }

  lemma {:induction false} RoundedStep(rd: real -> real, s: seq<real>, t: nat, above: Division, v: real, r: real)
    requires s != [] && t > 0 && above == RoundedDivided(rd, s[1..], t) && v == above.rest * BaseReal() && r == rd(rd(v) + s[0])
    ensures RoundedDivided(rd, s, t) == Division([RoundedQuotient(rd, r, t) as real] + above.limbs, Remainder(r, t))
  {
    hide Remainder, RoundedQuotient;
  }

  lemma Stays(rd: real -> real, x: real)
    requires Rounding(rd) && Representable(x)
    ensures rd(x) == x
  {
    hide Representable, RoundsTo;
  }

  lemma {:induction false} CallRounds(rd: real -> real, s: seq<real>, call: Call)
    requires Rounding(rd) && HalfLimbs(s) && CallFits(call)
    ensures RoundedCalled(rd, s, call) == Called(s, call) && HalfLimbs(Called(s, call))
  {
    hide Rounding, HalfLimbs, Multiplied, Divided, Loadable, Pow;
    match call
    case MultiplyBy(t, e) => MultiplyRounds(rd, s, t, e);
    case DivideBy(t) =>
      var j :| 0 <= j <= 23 && t == Pow(2, j);
      DivideRounds(rd, s, j);
      QuotientHalves(s, t);
  }

  lemma {:induction false} QuotientHalves(s: seq<real>, t: nat)
    requires HalfLimbs(s) && t > 0
    ensures HalfLimbs(Divided(s, t).limbs)
  {
    hide Divided, Whole;
    DivideExact(s, t);
    var limbs := Divided(s, t).limbs;
    if limbs != [] {
      WholeTimes(2, limbs[0]);
    }
  }

  lemma {:induction false} CallsRound(rd: real -> real, s: seq<real>, calls: seq<Call>)
    requires Rounding(rd) && HalfLimbs(s) && forall i :: 0 <= i < |calls| ==> CallFits(calls[i])
    ensures AfterRoundedCalls(rd, s, calls) == AfterCalls(s, calls)
    decreases calls
  {
    hide Rounding, HalfLimbs, Called, RoundedCalled, CallFits;
    if calls != [] {
      CallRounds(rd, s, calls[0]);
      CallsRound(rd, Called(s, calls[0]), calls[1..]);
    }
  }

  lemma {:induction false} TenCallsFit(e: nat)
    ensures forall i :: 0 <= i < |TenCalls(e)| ==> CallFits(TenCalls(e)[i])
    decreases e
  {
    WholeInt(0);
    if e >= 7 {
      TenCallsFit(e - 7);
    } else {
      PowTen7();
      PowMonotone(10, e, 7);
      assert TenCalls(e) == [MultiplyBy(Pow(10, e), 0.0)];
      assert CallFits(MultiplyBy(Pow(10, e), 0.0));
    }
  }

  lemma {:induction false} HalvingCallsFit(n: nat)
    ensures forall i :: 0 <= i < |HalvingCalls(n)| ==> CallFits(HalvingCalls(n)[i])
    decreases n
  {
    hide Pow;
    if n >= 23 {
      HalvingCallsFit(n - 23);
      Shift23();
      assert CallFits(DivideBy(8388608));
    } else {
      assert CallFits(DivideBy(Pow(2, n)));
    }
  }

  lemma {:induction false} FixedCallsFit(a: real, i: int, e: nat)
    requires Loadable(a) && -i <= 17
    ensures forall k :: 0 <= k < |FixedCalls(a, i, e)| ==> CallFits(FixedCalls(a, i, e)[k])
  {
    hide Loadable, TenCalls, HalvingCalls, CallFits, Pow;
    WholeInt(0);
    WholeInt(1);
    if i > 0 {
      TenCallsFit(e);
      HalvingCallsFit(i - 1);
      LastCallsFit();
      LoadFits(a);
    } else {
      LoadFits(a);
      ShiftFits(-i);
    }
  }

  lemma LoadFits(a: real)
    requires Loadable(a)
    ensures CallFits(MultiplyBy(0, a))
  {
  }

  lemma LastCallsFit()
    ensures CallFits(MultiplyBy(1, 1.0)) && CallFits(DivideBy(2))
  {
    assert Pow(2, 1) == 2 * Pow(2, 0) == 2;
  }

  lemma ShiftFits(n: nat)
    requires n <= 17
    ensures CallFits(MultiplyBy(Pow(2, n), 0.0))
  {
    PowMonotone(2, n, 17);
    PowSeventeen();
  }

  lemma PowSeventeen()
    ensures Pow(2, 17) == 131072
  {
    assert Pow(2, 0) == 1 && Pow(2, 1) == 2 && Pow(2, 2) == 4 && Pow(2, 3) == 8 && Pow(2, 4) == 16;
    PowAdd(2, 4, 4);
    PowAdd(2, 8, 8);
    assert Pow(2, 17) == 2 * Pow(2, 16);
  }

  /**
   The whole run of toFixed on doubles leaves the limbs that it leaves in exact arithmetic, whatever they held before:
   for a first factor as FirstFactorLoads gives it, and a shift as FirstFactor bounds it.
   */
  lemma {:induction false} DoublesSuffice(rd: real -> real, s: seq<real>, a: real, i: int, e: nat)
    requires Rounding(rd) && |s| == SIZE && Loadable(a) && -i <= 17
    ensures AfterRoundedCalls(rd, s, FixedCalls(a, i, e)) == AfterCalls(s, FixedCalls(a, i, e))
  {
    hide Rounding, Called, RoundedCalled, TenCalls, HalvingCalls, Loadable, CallFits, Multiplied, RoundedMultiplied;
    var calls := FixedCalls(a, i, e);
    FixedCallsFit(a, i, e);
    assert calls[0] == MultiplyBy(0, a);
    var zeros := seq(SIZE, _ => 0.0);
    ZerosAreLimbs(zeros);
    CallRounds(rd, zeros, calls[0]);
    SameLoad(rd, s, zeros, a);
    CallsRound(rd, Called(s, calls[0]), calls[1..]);
  }

  lemma {:induction false} SameLoad(rd: real -> real, s: seq<real>, z: seq<real>, a: real)
    requires |s| == |z|
    ensures Called(s, MultiplyBy(0, a)) == Called(z, MultiplyBy(0, a))
    ensures RoundedCalled(rd, s, MultiplyBy(0, a)) == RoundedCalled(rd, z, MultiplyBy(0, a))
  {
    hide Multiplied, RoundedMultiplied;
    ZeroFactor(s, z, a);
    LoadRounds(rd, s, z, a);
  }

  lemma {:induction false} ZerosAreLimbs(z: seq<real>)
    requires |z| == SIZE && forall i :: 0 <= i < SIZE ==> z[i] == 0.0
    ensures HalfLimbs(z)
  {
    hide Value;
    ZeroLimbs(z);
    assert 2.0 * z[0] == 0.0;
  }
}
