/**
 `Number.prototype.toFixed` of es5-shim, on every finite double, against sections 15.7.4.5 and 9.8.1
 of ECMA-262 edition 5. Doubles are exact reals m * 2^k; the lemmas on rounding say why that loses nothing.
 */
module EsToFixed {
  import opened Wrappers
  import opened EsNumbers
  import opened EsLimbs

  datatype Double =
    | NotANumber
    | Infinite(negative: bool)
    | Finite(negative: bool, mantissa: nat, exponent: int)

  predicate IsDouble(x: Double) {
    x.Finite? ==> x.mantissa < Pow(2, 53)
  }

  function Magnitude(x: Double): (r: real)
    requires x.Finite?
    ensures r >= 0.0
  {
    x.mantissa as real * Two(x.exponent)
  }

  /** The double nearest to 10^-21, which is 5316911983139663 * 2^-122. */
  function Tiny(): real {
    5316911983139663.0 / 5316911983139663491615228241121378304.0
  }

  /** It is within half a unit of the last place of 10^-21. */
  lemma TinyIsNearest()
    ensures Tiny() * Pow(2, 122) as real == 5316911983139663.0
    ensures 2 * (5316911983139663 * 1000000000000000000000 - Pow(2, 122)) <= 1000000000000000000000
    ensures 2 * (Pow(2, 122) - 5316911983139663 * 1000000000000000000000) <= 1000000000000000000000
  {
    PowSmall();
    hide Pow;
    PowAdd(2, 16, 16);
    PowAdd(2, 32, 32);
    PowAdd(2, 32, 26);
    PowAdd(2, 16, 10);
    PowAdd(2, 64, 58);
    assert Pow(2, 122) == 5316911983139663491615228241121378304;
  }

  lemma PowSmall()
    ensures Pow(2, 10) == 1024 && Pow(2, 16) == 65536
  {
    assert Pow(2, 0) == 1 && Pow(2, 1) == 2 && Pow(2, 2) == 4 && Pow(2, 3) == 8 && Pow(2, 4) == 16;
    PowAdd(2, 4, 4);
    PowAdd(2, 8, 2);
    PowAdd(2, 8, 8);
  }

  function Huge(): real {
    1000000000000000000000.0
  }

  // ----- what the standard asks for -----

  /** n / 10^f is as close to v as possible, and of two such n the larger is taken. */
  ghost predicate IsNearest(n: int, v: real, f: nat) {
    var y := v * Pow(10, f) as real;
    forall k: int :: k != n ==> Distance(n, y) < Distance(k, y) || (Distance(n, y) == Distance(k, y) && k < n)
  }

  function Distance(n: int, y: real): real {
    if n as real >= y then n as real - y else y - n as real
  }

  function Nearest(v: real, f: nat): (n: int)
    ensures v >= 0.0 ==> n >= 0
  {
    var y := v * Pow(10, f) as real;
    ScaledNonNegative(v, f);
    (y + 0.5).Floor
  }

  lemma {:induction false} ScaledNonNegative(v: real, f: nat)
    ensures v >= 0.0 ==> v * Pow(10, f) as real >= 0.0
  {
  }

  lemma NearestIsNearest(v: real, f: nat)
    ensures IsNearest(Nearest(v, f), v, f)
  {
    var y := v * Pow(10, f) as real;
    var n := Nearest(v, f);
    assert n as real <= y + 0.5 < n as real + 1.0;
    forall k: int | k != n ensures Distance(n, y) < Distance(k, y) || (Distance(n, y) == Distance(k, y) && k < n) {
      if k < n {
        assert k <= n - 1;
      } else {
        assert k >= n + 1;
      }
    }
  }

  /** At least f + 1 digits of n. */
  function Widened(n: nat, f: nat): (s: string)
    ensures |s| > f
  {
    var m := Decimal(n);
    if |m| <= f then Zeros(f + 1 - |m|) + m else m
  }

  /** The digits of n with f of them after the point. */
  function FixedText(n: nat, f: nat): string {
    if f == 0 then Decimal(n)
    else
      var digits := Widened(n, f);
      digits[..|digits| - f] + "." + digits[|digits| - f..]
  }

  lemma WidenedReads(n: nat, f: nat)
    ensures IsDigits(Widened(n, f)) && Read(Widened(n, f)) == n
    ensures Widened(n, f)[0] == '0' ==> |Widened(n, f)| == f + 1
  {
    hide Decimal, Read;
    var m := Decimal(n);
    ReadDecimal(n);
    if |m| <= f {
      ReadZeros(f + 1 - |m|);
      ReadConcat(Zeros(f + 1 - |m|), m);
    } else if n == 0 {
      DecimalZero();
    }
  }

  /** Read back, the text is exactly n / 10^f: f fraction digits, and no leading zero but a single one. */
  lemma {:induction false} FixedTextReads(n: nat, f: nat)
    requires f > 0
    ensures var t := FixedText(n, f);
            var point := |t| - f - 1;
            point >= 1 && t[point] == '.' && IsDigits(t[..point]) && IsDigits(t[point + 1..])
            && Read(t[..point]) * Pow(10, f) + Read(t[point + 1..]) == n
            && (t[0] == '0' ==> point == 1)
  {
    hide Read, Pow, Widened;
    var digits := Widened(n, f);
    WidenedReads(n, f);
    var a, b := digits[..|digits| - f], digits[|digits| - f..];
    assert digits == a + b;
    ReadConcat(a, b);
    var t := FixedText(n, f);
    var point := |t| - f - 1;
    assert t == a + "." + b;
    assert t[..point] == a && t[point + 1..] == b;
  }

  // ----- the pieces of the program -----

  /** pow: repeated squaring with an accumulator. */
  function PowFrom(t: nat, e: nat, acc: nat): nat
    decreases e
  {
    if e == 0 then acc
    else if e % 2 == 1 then PowFrom(t, e - 1, acc * t)
    else PowFrom(t * t, e / 2, acc)
  }

  lemma {:induction false} PowSquare(t: nat, h: nat)
    ensures Pow(t * t, h) == Pow(t, 2 * h)
    decreases h
  {
    if h > 0 {
      PowSquare(t, h - 1);
      assert Pow(t, 2 * h) == t * Pow(t, 2 * h - 1) == t * (t * Pow(t, 2 * h - 2));
      assert 2 * (h - 1) == 2 * h - 2;
      var p := Pow(t, 2 * h - 2);
      assert (t * t) * p == t * (t * p);
    }
  }

  lemma {:induction false} PowFromIsPow(t: nat, e: nat, acc: nat)
    ensures PowFrom(t, e, acc) == acc * Pow(t, e)
    decreases e
  {
    if e == 0 {
    } else if e % 2 == 1 {
      PowFromIsPow(t, e - 1, acc * t);
      var p := Pow(t, e - 1);
      assert (acc * t) * p == acc * (t * p);
    } else {
      PowFromIsPow(t * t, e / 2, acc);
      PowSquare(t, e / 2);
    }
  }

  ghost predicate Split(x: real, r: real, e: nat) {
    r >= 0.0 && x == r * Two(e) && (e > 0 ==> r >= 1.0)
  }

  /** log: for x >= 1 the exponent of the largest power of two not above x, otherwise 0. */
  method Log(x: real) returns (e: nat)
    requires x >= 0.0
    ensures x < Two(e + 1)
    ensures x >= 1.0 ==> Two(e) <= x
    ensures x < 1.0 ==> e == 0
  {
    hide Two, Split;
    e := 0;
    var r := x;
    SplitStart(x);
    TwoSmall();
    while r >= 4096.0
      invariant Split(x, r, e)
      decreases r.Floor
    {
      var q := r / 4096.0;
      LogStep(x, r, e, 12, 4096.0, q, e + 12);
      e, r := e + 12, q;
    }
    while r >= 2.0
      invariant Split(x, r, e)
      decreases r.Floor
    {
      var q := r / 2.0;
      LogStep(x, r, e, 1, 2.0, q, e + 1);
      e, r := e + 1, q;
    }
    LogFound(x, r, e);
  }

  lemma SplitStart(x: real)
    requires x >= 0.0
    ensures Split(x, x, 0)
  {
    TwoZero();
  }

  lemma LogFound(x: real, r: real, e: nat)
    requires Split(x, r, e) && r < 2.0
    ensures x < Two(e + 1) && (x >= 1.0 ==> Two(e) <= x) && (x < 1.0 ==> e == 0)
  {
    hide Two;
    TwoZero();
    TwoStep(e);
    LogBounds(x, r, Two(e));
    if e > 0 {
      TwoAtLeastOne(e);
    }
  }

  lemma LogStep(x: real, r: real, e: nat, step: nat, d: real, q: real, further: nat)
    requires Split(x, r, e) && r >= d == Two(step) && step > 0 && q == r / d && further == e + step
    ensures Split(x, q, further) && q.Floor < r.Floor
  {
    hide Two;
    TwoAdd(e, step);
    ScaleBack(r, Two(e), d);
    TwoAtLeastOne(step);
    FloorShrinks(r, d);
  }

  lemma FloorShrinks(r: real, d: real)
    requires r >= d >= 2.0
    ensures r / d >= 1.0 && (r / d).Floor < r.Floor
  {
    var q := r / d;
    assert q * d == r;
    assert q >= 1.0;
    assert q * 2.0 <= q * d;
    assert q + 1.0 <= r;
  }

  lemma {:induction false} TwoAtLeastOne(e: nat)
    ensures Two(e) >= 1.0 && (e > 0 ==> Two(e) >= 2.0)
    decreases e
  {
    if e > 0 {
      TwoAtLeastOne(e - 1);
      TwoStep(e - 1);
    }
  }

  lemma LogBounds(x: real, r: real, p: real)
    requires p > 0.0 && x == r * p && r >= 0.0 && r < 2.0
    ensures x < 2.0 * p && (r >= 1.0 ==> x >= p)
  {
  }

  lemma TwoSmall()
    ensures Two(0) == 1.0 && Two(1) == 2.0 && Two(12) == 4096.0
  {
    assert Pow(2, 1) == 2 * Pow(2, 0) && Pow(2, 2) == 2 * Pow(2, 1) && Pow(2, 3) == 2 * Pow(2, 2) && Pow(2, 4) == 2 * Pow(2, 3);
    PowAdd(2, 4, 4);
    PowAdd(2, 8, 4);
  }

  lemma ScaleBack(r: real, p: real, d: real)
    requires d > 0.0
    ensures (r / d) * (p * d) == r * p
  {
    var q := r / d;
    assert q * d == r;
    assert q * (p * d) == (q * d) * p;
  }

  // ----- the scaling by powers of two -----

  /** The first factor: r * 2^(52 - L) for the exponent L found by log. */
  lemma Scaled(r: real, l: int)
    ensures (r / Two(l)) * Two(52) == r * Two(52 - l)
    ensures (r * Two(-l)) * Two(52) == r * Two(52 - l)
  {
    hide Two;
    TwoAdd(-l, 52);
    TwoAdd(l, -l);
    TwoZero();
    Reciprocal(r, Two(l), Two(-l));
    assert (r * Two(-l)) * Two(52) == r * (Two(-l) * Two(52));
  }

  lemma Reciprocal(r: real, p: real, q: real)
    requires p > 0.0 && p * q == 1.0
    ensures r / p == r * q
  {
    assert (r * q) * p == r * (p * q);
    assert (r / p) * p == r;
    assert ((r * q) - (r / p)) * p == 0.0;
  }

  lemma PowFiftyThree()
    ensures Pow(2, 52) == 4503599627370496 && Pow(2, 53) == 9007199254740992 && Two(52) == 4503599627370496.0
  {
    assert Pow(2, 1) == 2 && Pow(2, 2) == 4 && Pow(2, 3) == 8 && Pow(2, 4) == 16 by {
      assert Pow(2, 0) == 1;
    }
    PowAdd(2, 4, 4);
    PowAdd(2, 8, 8);
    PowAdd(2, 16, 16);
    PowAdd(2, 32, 16);
    PowAdd(2, 48, 4);
    assert Pow(2, 53) == 2 * Pow(2, 52);
  }

  /** The first factor is below 2^53. */
  lemma FactorBound(r: real, l: nat)
    requires r >= 0.0 && r * Two(69) < Two(l + 1)
    ensures 0.0 <= r * Two(121 - l) < Two(53)
  {
    hide Two;
    TwoAdd(69, 52 - l);
    TwoAdd(l + 1, 52 - l);
    ProductOrder(r, Two(69), Two(52 - l), Two(l + 1));
  }

  lemma ProductOrder(r: real, p: real, q: real, b: real)
    requires r >= 0.0 && p > 0.0 && q > 0.0 && r * p < b
    ensures 0.0 <= r * (p * q) < b * q
  {
    assert r * (p * q) == (r * p) * q;
    assert r * p >= 0.0;
  }

  /** A double whose scaled value reaches 2^52 is a whole number at that scale. */
  lemma FactorWhole(x: Double, l: nat, i: int, a: real)
    requires x.Finite? && IsDouble(x) && Magnitude(x) * Two(69) >= Two(l)
    requires i == 121 - l && a == Magnitude(x) * Two(i)
    ensures Whole(a)
  {
    hide Two, Pow;
    var m, k := x.mantissa, x.exponent + i;
    TwoAdd(x.exponent, i);
    assert a == m as real * Two(k) by {
      assert (m as real * Two(x.exponent)) * Two(i) == m as real * (Two(x.exponent) * Two(i));
    }
    TwoAdd(69, 52 - l);
    TwoAdd(l, 52 - l);
    ProductAtLeast(Magnitude(x), Two(69), Two(52 - l), Two(l));
    if k < 0 {
      SmallProduct(m, k);
      assert false;
    }
    WholeProduct(m, k, a);
  }

  lemma ProductAtLeast(r: real, p: real, q: real, b: real)
    requires q > 0.0 && r * p >= b
    ensures r * (p * q) >= b * q
  {
    assert r * (p * q) == (r * p) * q;
  }

  lemma SmallProduct(m: nat, k: int)
    requires m < Pow(2, 53) && k < 0
    ensures m as real * Two(k) < Two(52)
  {
    PowFiftyThree();
    hide Pow;
    TwoHalf(k);
    assert m as real * Two(k) <= m as real * 0.5;
  }

  lemma {:induction false} TwoHalf(k: int)
    requires k < 0
    ensures 0.0 < Two(k) <= 0.5
    decreases -k
  {
    hide Two;
    TwoStep(k);
    if k == -1 {
      TwoZero();
    } else {
      TwoHalf(k + 1);
    }
  }

  lemma WholeProduct(m: nat, k: nat, v: real)
    requires v == m as real * Two(k)
    ensures Whole(v)
  {
    assert v == (m * Pow(2, k)) as real;
    WholeInt(m * Pow(2, k));
  }

  // ----- the calls that toFixed makes on the limbs -----

  datatype Call = MultiplyBy(t: nat, e: real) | DivideBy(t: nat)

  function Called(s: seq<real>, call: Call): seq<real> {
    match call
    case MultiplyBy(t, e) => Multiplied(s, t, e).limbs
    case DivideBy(t) => if t == 0 then s else Divided(s, t).limbs
  }

  function AfterCalls(s: seq<real>, calls: seq<Call>): seq<real>
    decreases calls
  {
    if calls == [] then s else AfterCalls(Called(s, calls[0]), calls[1..])
  }

  function TenCalls(e: nat): seq<Call> {
    if e >= 7 then [MultiplyBy(BASE, 0.0)] + TenCalls(e - 7) else [MultiplyBy(Pow(10, e), 0.0)]
  }

  function HalvingCalls(n: nat): seq<Call> {
    if n >= 23 then [DivideBy(8388608)] + HalvingCalls(n - 23) else [DivideBy(Pow(2, n))]
  }

  /** For the first factor a, scaled by 2^i, and e digits. */
  function FixedCalls(a: real, i: int, e: nat): seq<Call> {
    if i > 0 then [MultiplyBy(0, a)] + (TenCalls(e) + (HalvingCalls(i - 1) + [MultiplyBy(1, 1.0), DivideBy(2)]))
    else [MultiplyBy(0, a), MultiplyBy(Pow(2, -i), 0.0)]
  }

  lemma {:induction false} AfterBoth(s: seq<real>, a: seq<Call>, b: seq<Call>)
    ensures AfterCalls(s, a + b) == AfterCalls(AfterCalls(s, a), b)
    decreases a
  {
    hide Called;
    if a == [] {
      assert a + b == b;
    } else {
      assert (a + b)[0] == a[0] && (a + b)[1..] == a[1..] + b;
      AfterBoth(Called(s, a[0]), a[1..], b);
    }
  }

  lemma {:induction false} AfterOne(s: seq<real>, call: Call)
    ensures AfterCalls(s, [call]) == Called(s, call)
  {
    hide Called;
    assert [call][1..] == [];
    assert AfterCalls(Called(s, call), []) == Called(s, call);
  }

  lemma {:induction false} AfterTwo(s: seq<real>, one: Call, two: Call)
    ensures AfterCalls(s, [one, two]) == Called(Called(s, one), two)
  {
    hide Called;
    assert [one, two] == [one] + [two];
    AfterBoth(s, [one], [two]);
    AfterOne(s, one);
    AfterOne(Called(s, one), two);
  }

  lemma {:induction false} TenStep(s: seq<real>, e: nat)
    ensures e >= 7 ==> AfterCalls(s, TenCalls(e)) == AfterCalls(Multiplied(s, BASE, 0.0).limbs, TenCalls(e - 7))
    ensures e < 7 ==> AfterCalls(s, TenCalls(e)) == Multiplied(s, Pow(10, e), 0.0).limbs
  {
    hide Multiplied, Pow;
    if e >= 7 {
      AfterBoth(s, [MultiplyBy(BASE, 0.0)], TenCalls(e - 7));
      AfterOne(s, MultiplyBy(BASE, 0.0));
    } else {
      AfterOne(s, MultiplyBy(Pow(10, e), 0.0));
    }
  }

  lemma {:induction false} HalvingStep(s: seq<real>, n: nat)
    ensures n >= 23 ==> AfterCalls(s, HalvingCalls(n)) == AfterCalls(Divided(s, 8388608).limbs, HalvingCalls(n - 23))
    ensures n < 23 ==> AfterCalls(s, HalvingCalls(n)) == Divided(s, Pow(2, n)).limbs
  {
    hide Divided, Pow;
    if n >= 23 {
      AfterBoth(s, [DivideBy(8388608)], HalvingCalls(n - 23));
      AfterOne(s, DivideBy(8388608));
    } else {
      AfterOne(s, DivideBy(Pow(2, n)));
    }
  }

  // ----- loading, scaling by ten, halving -----

  lemma {:induction false} ZeroFactor(s: seq<real>, z: seq<real>, e: real)
    requires |s| == |z|
    ensures Multiplied(s, 0, e) == Multiplied(z, 0, e)
    decreases s
  {
    if s != [] {
      ZeroFactor(s[1..], z[1..], Quotient(e + 0.0 * s[0], BASE) as real);
    }
  }

  lemma SizeWeights()
    ensures Weight(SIZE) == Pow(10, 42) as real && Two(53) < Pow(10, 16) as real
    ensures Pow(10, 36) <= Pow(10, 42)
  {
    assert Pow(BASE, 1) == BASE && Pow(BASE, 2) == BASE * Pow(BASE, 1) && Pow(BASE, 3) == BASE * Pow(BASE, 2) by {
      assert Pow(BASE, 0) == 1;
    }
    assert Pow(BASE, 4) == BASE * Pow(BASE, 3) && Pow(BASE, 5) == BASE * Pow(BASE, 4) && Pow(BASE, 6) == BASE * Pow(BASE, 5);
    PowTen7();
    PowAdd(10, 7, 7);
    PowAdd(10, 14, 14);
    PowAdd(10, 28, 14);
    PowAdd(10, 14, 2);
    PowFiftyThree();
    PowMonotone(10, 36, 42);
  }

  /** Whatever the shared limbs held before, multiply(0, a) makes them hold a. */
  method Load(ge: ScratchNumber, a: real)
    requires ge.data.Length == SIZE && 0.0 <= a < Weight(SIZE)
    modifies ge.data
    ensures Limbs(ge.data[..]) && Value(ge.data[..]) == a
    ensures Whole(a) ==> WholeLimbs(ge.data[..])
    ensures ge.data[..] == Multiplied(old(ge.data[..]), 0, a).limbs
  {
    hide Multiplied, Value, Weight;
    ghost var s := ge.data[..];
    ghost var zeros := seq(SIZE, _ => 0.0);
    ge.Multiply(0, a);
    ZeroFactor(s, zeros, a);
    ZeroLimbs(zeros);
    MultiplyExact(zeros, 0, a);
    MultiplyModulo(zeros, 0, a, a);
  }

  lemma {:induction false} ZeroLimbs(z: seq<real>)
    requires |z| == SIZE && forall i :: 0 <= i < SIZE ==> z[i] == 0.0
    ensures Limbs(z) && WholeLimbs(z)
    ensures 0.0 * Value(z) == 0.0
  {
  }

  method Scale(ge: ScratchNumber, t: nat, ghost product: real)
    requires ge.data.Length == SIZE && Limbs(ge.data[..])
    requires product == Value(ge.data[..]) * t as real && product < Weight(SIZE)
    modifies ge.data
    ensures Limbs(ge.data[..]) && Value(ge.data[..]) == product
    ensures ge.data[..] == Multiplied(old(ge.data[..]), t, 0.0).limbs
    ensures old(WholeLimbs(ge.data[..])) ==> WholeLimbs(ge.data[..])
  {
    hide Multiplied, Value, Weight;
    ghost var s := ge.data[..];
    ge.Multiply(t, 0.0);
    MultiplyExact(s, t, 0.0);
    assert product == 0.0 + t as real * Value(s);
    MultiplyModulo(s, t, 0.0, product);
    WholeInt(0);
  }

  function Tens(v: real, n: nat): real {
    v * Pow(10, n) as real
  }

  /** The loop of multiplications by 10^7 and the last one by the remaining power. */
  method TimesTen(ge: ScratchNumber, e: nat)
    requires ge.data.Length == SIZE && Limbs(ge.data[..])
    requires Value(ge.data[..]) >= 0.0 && Tens(Value(ge.data[..]), e) < Weight(SIZE)
    modifies ge.data
    ensures Limbs(ge.data[..]) && Value(ge.data[..]) == Tens(old(Value(ge.data[..])), e)
    ensures ge.data[..] == AfterCalls(old(ge.data[..]), TenCalls(e))
  {
    hide Value, Weight, Pow, Limbs, Tens, AfterCalls, TenCalls, Multiplied;
    ghost var v := Value(ge.data[..]);
    var u := e;
    PowZero(v);
    while u >= 7
      invariant 0 <= u <= e && Limbs(ge.data[..])
      invariant AfterCalls(ge.data[..], TenCalls(u)) == AfterCalls(old(ge.data[..]), TenCalls(e))
      invariant Value(ge.data[..]) == Tens(v, e - u)
    {
      TenMore(v, e - u, 7, e, Weight(SIZE));
      PowTen7();
      TenStep(ge.data[..], u);
      Scale(ge, BASE, Tens(v, e - u + 7));
      u := u - 7;
    }
    PowFromIsPow(10, u, 1);
    TenMore(v, e - u, u, e, Weight(SIZE));
    TenStep(ge.data[..], u);
    Scale(ge, PowFrom(10, u, 1), Tens(v, e - u + u));
  }

  lemma PowZero(v: real)
    ensures Tens(v, 0) == v
  {
  }

  lemma {:induction false} TenMore(v: real, done: nat, more: nat, e: nat, limit: real)
    requires v >= 0.0 && done + more <= e && Tens(v, e) < limit
    ensures Tens(v, done) * Pow(10, more) as real == Tens(v, done + more) < limit
  {
    hide Pow;
    PowAdd(10, done, more);
    PowMonotone(10, done + more, e);
    var a, b, c, d := Pow(10, done) as real, Pow(10, more) as real, Pow(10, done + more) as real, Pow(10, e) as real;
    assert c == a * b;
    Chain(v, a, b, c, d, limit);
  }

  lemma Chain(v: real, a: real, b: real, c: real, d: real, limit: real)
    requires v >= 0.0 && c == a * b && c <= d && v * d < limit
    ensures (v * a) * b == v * c < limit
  {
    assert (v * a) * b == v * (a * b);
    assert v * (d - c) >= 0.0;
  }

  /** The chain of divisions: by 2^23 while that fits, then by the rest. */
  method DivideByTwos(ge: ScratchNumber, count: nat)
    requires ge.data.Length == SIZE && Limbs(ge.data[..])
    modifies ge.data
    ensures WholeLimbs(ge.data[..]) && Limbs(ge.data[..])
    ensures Value(ge.data[..]) == Quotient(old(Value(ge.data[..])), Pow(2, count)) as real
    ensures ge.data[..] == AfterCalls(old(ge.data[..]), HalvingCalls(count))
  {
    hide Value, Pow, Quotient, Divided, AfterCalls, HalvingCalls;
    ghost var v := Value(ge.data[..]);
    var u := count;
    while u >= 23
      invariant 0 <= u <= count && Limbs(ge.data[..])
      invariant Quotient(Value(ge.data[..]), Pow(2, u)) == Quotient(v, Pow(2, count))
      invariant AfterCalls(ge.data[..], HalvingCalls(u)) == AfterCalls(old(ge.data[..]), HalvingCalls(count))
    {
      HalvingStep(ge.data[..], u);
      PowAdd(2, 23, u - 23);
      Shift23();
      ghost var s := ge.data[..];
      ValueRange(s);
      DivideExact(s, 8388608);
      DivideFloors(s, 8388608);
      TwoQuotients(Value(s), 8388608, Pow(2, u - 23));
      ge.Divide(8388608);
      WholeLimbsAreLimbs(ge.data[..]);
      u := u - 23;
    }
    ghost var s := ge.data[..];
    HalvingStep(s, u);
    DivideExact(s, Pow(2, u));
    DivideFloors(s, Pow(2, u));
    ge.Divide(OneShift(u));
    WholeLimbsAreLimbs(ge.data[..]);
  }

  /** `1 << n` on 32-bit integers: the count is taken modulo 32 and the top bit is the sign. */
  function OneShift(n: nat): (r: int)
    ensures n < 31 ==> r == Pow(2, n)
  {
    if n % 32 == 31 then -2147483648 else Pow(2, n % 32)
  }

  lemma Shift23()
    ensures Pow(2, 23) == 8388608
  {
    assert Pow(2, 0) == 1 && Pow(2, 1) == 2 && Pow(2, 2) == 4 && Pow(2, 3) == 8 && Pow(2, 4) == 16;
    PowAdd(2, 4, 4);
    PowAdd(2, 8, 8);
    PowAdd(2, 16, 4);
    PowAdd(2, 20, 3);
  }

  lemma WholeLimbsAreLimbs(s: seq<real>)
    requires WholeLimbs(s)
    ensures Limbs(s)
  {
  }

  lemma TwoQuotients(v: real, s: nat, t: nat)
    requires v >= 0.0 && s > 0 && t > 0
    ensures s * t > 0 && Quotient(Quotient(v, s) as real, t) == Quotient(v, s * t)
  {
    FloorTwice(v, s, t);
  }

  /** Twice the scaled value floored, plus one, halved: rounding to nearest with ties upwards. */
  lemma RoundHalfUp(y: real)
    requires y >= 0.0
    ensures Quotient(((2.0 * y).Floor + 1) as real, 2) == (y + 0.5).Floor
  {
    var q := (2.0 * y).Floor;
    var n := Quotient((q + 1) as real, 2);
    assert n as real <= (q + 1) as real / 2.0 < (n + 1) as real;
    assert 2 * n <= q + 1 < 2 * n + 2;
    assert n as real <= y + 0.5 < (n + 1) as real;
  }

  // ----- the two branches -----

  /** For 2^i > 1 the scaled double may have a fraction: multiply, divide, add one and halve. */
  method RoundedDigits(ge: ScratchNumber, r: real, a: real, i: nat, e: nat) returns (o: string)
    requires ge.data.Length == SIZE
    requires r >= 0.0 && i > 0 && e <= 20 && a == r * Two(i) && a < Two(53)
    modifies ge.data
    ensures o == Decimal(Nearest(r, e))
    ensures ge.data[..] == AfterCalls(old(ge.data[..]), FixedCalls(a, i, e))
  {
    hide FixedCalls, Two, Pow, Value, Weight, Multiplied, Divided, Tens, Decimal, Limbs, WholeLimbs, Nearest, Quotient, Whole;
    hide AfterCalls, TenCalls, HalvingCalls;
    RoundedCalls(ge.data[..], a, i, e);
    ScaledFits(a, r, Two(i), e);
    Load(ge, a);
    TimesTen(ge, e);
    DivideByTwos(ge, i - 1);
    ghost var q := Quotient(Tens(a, e), Pow(2, i - 1));
    Halved(r, i, e, a);
    OneMoreFits(a, e, i - 1);
    AddOne(ge, q);
    HalveOnce(ge, q + 1);
    o := ge.NumToString();
    FloorOfInt(Quotient((q + 1) as real, 2));
  }

  lemma {:induction false} RoundedCalls(s: seq<real>, a: real, i: nat, e: nat)
    requires i > 0
    ensures var tens := AfterCalls(Multiplied(s, 0, a).limbs, TenCalls(e));
            var one := Multiplied(AfterCalls(tens, HalvingCalls(i - 1)), 1, 1.0).limbs;
            AfterCalls(s, FixedCalls(a, i, e)) == Divided(one, 2).limbs
  {
    hide AfterCalls, TenCalls, HalvingCalls, Multiplied, Divided;
    var last := [MultiplyBy(1, 1.0), DivideBy(2)];
    AfterBoth(s, [MultiplyBy(0, a)], TenCalls(e) + (HalvingCalls(i - 1) + last));
    AfterOne(s, MultiplyBy(0, a));
    var loaded := Multiplied(s, 0, a).limbs;
    AfterBoth(loaded, TenCalls(e), HalvingCalls(i - 1) + last);
    var tens := AfterCalls(loaded, TenCalls(e));
    AfterBoth(tens, HalvingCalls(i - 1), last);
    AfterTwo(AfterCalls(tens, HalvingCalls(i - 1)), MultiplyBy(1, 1.0), DivideBy(2));
  }

  lemma FloorOfInt(n: int)
    ensures (n as real).Floor == n
  {
  }

  method AddOne(ge: ScratchNumber, ghost q: int)
    requires ge.data.Length == SIZE && WholeLimbs(ge.data[..]) && Value(ge.data[..]) == q as real
    requires (q + 1) as real < Weight(SIZE)
    modifies ge.data
    ensures WholeLimbs(ge.data[..]) && Value(ge.data[..]) == (q + 1) as real
    ensures ge.data[..] == Multiplied(old(ge.data[..]), 1, 1.0).limbs
  {
    hide Multiplied, Value, Weight;
    ghost var s := ge.data[..];
    ge.Multiply(1, 1.0);
    WholeInt(1);
    MultiplyExact(s, 1, 1.0);
    MultiplyModulo(s, 1, 1.0, (q + 1) as real);
  }

  method HalveOnce(ge: ScratchNumber, ghost q: int)
    requires ge.data.Length == SIZE && WholeLimbs(ge.data[..]) && Value(ge.data[..]) == q as real
    modifies ge.data
    ensures WholeLimbs(ge.data[..]) && Value(ge.data[..]) == Quotient(q as real, 2) as real
    ensures ge.data[..] == Divided(old(ge.data[..]), 2).limbs
  {
    hide Divided, Value;
    ghost var s := ge.data[..];
    WholeLimbsAreLimbs(s);
    ge.Divide(2);
    DivideExact(s, 2);
    DivideFloors(s, 2);
  }

  lemma ScaledFits(a: real, r: real, p: real, e: nat)
    requires r >= 0.0 && p > 0.0 && a == r * p && a < Two(53) && e <= 20
    ensures 0.0 <= a < Weight(SIZE) && Tens(a, e) < (Pow(10, 36)) as real < Weight(SIZE)
  {
    hide Two, Pow, Weight;
    assert a >= 0.0;
    SizeWeights();
    PowMonotone(10, e, 20);
    PowAdd(10, 16, 20);
    PowMonotone(10, 16, 36);
    PowMonotone(10, 36, 42);
    assert Pow(10, 36) < Pow(10, 42) by {
      PowAdd(10, 36, 6);
      PowSix();
    }
    ProductBelow(a, Pow(10, e) as real, Pow(10, 16) as real, Pow(10, 20) as real);
    assert Pow(10, 36) as real == Pow(10, 16) as real * Pow(10, 20) as real;
  }

  lemma PowSix()
    ensures Pow(10, 6) == 1000000
  {
    assert Pow(10, 1) == 10 * Pow(10, 0) && Pow(10, 2) == 10 * Pow(10, 1) && Pow(10, 3) == 10 * Pow(10, 2);
  }

  lemma ProductBelow(a: real, p: real, b: real, q: real)
    requires 0.0 <= a < b && 0.0 < p <= q
    ensures a * p < b * q
  {
    assert a * p <= a * q;
    assert a * q < b * q;
  }

  lemma {:induction false} OneMoreFits(a: real, e: nat, n: nat)
    requires a >= 0.0 && Tens(a, e) < Pow(10, 36) as real
    requires Pow(10, 36) as real < Weight(SIZE)
    ensures (Quotient(Tens(a, e), Pow(2, n)) + 1) as real < Weight(SIZE)
  {
    hide Pow, Weight;
    SizeWeights();
    var v, d := Tens(a, e), Pow(2, n);
    assert v >= 0.0;
    DivisionShrinks(v, d);
    assert Quotient(v, d) as real <= v;
    assert Quotient(v, d) < Pow(10, 36);
    WeightIsWhole();
  }

  lemma WeightIsWhole()
    ensures Weight(SIZE) == Pow(BASE, SIZE) as real
  {
  }

  lemma DivisionShrinks(v: real, d: nat)
    requires v >= 0.0 && d > 0
    ensures v / d as real <= v
  {
    var q, dr := v / d as real, d as real;
    assert q * dr == v && q >= 0.0;
    assert q * (dr - 1.0) >= 0.0;
  }

  lemma {:induction false} Halved(r: real, i: nat, e: nat, a: real)
    requires r >= 0.0 && i > 0 && a == r * Two(i)
    ensures Quotient(((Quotient(Tens(a, e), Pow(2, i - 1)) + 1)) as real, 2) == Nearest(r, e)
  {
    hide Two, Pow, Quotient, Tens, Nearest;
    TwoStep(i - 1);
    TwoIsPow(i - 1);
    TensQuotient(a, r, e, Pow(2, i - 1));
    NearestHalves(r, e);
  }

  lemma TensQuotient(a: real, r: real, e: nat, d: nat)
    requires d > 0 && a == r * (2.0 * d as real)
    ensures Quotient(Tens(a, e), d) == (2.0 * Tens(r, e)).Floor
  {
    hide Pow;
    var p, dr := Pow(10, e) as real, d as real;
    ScaledDivision(r, dr, p, a);
    assert Tens(a, e) / dr == 2.0 * Tens(r, e);
  }

  lemma NearestHalves(r: real, e: nat)
    requires r >= 0.0
    ensures Quotient(((2.0 * Tens(r, e)).Floor + 1) as real, 2) == Nearest(r, e)
  {
    hide Pow, Quotient;
    ScaledNonNegative(r, e);
    RoundHalfUp(Tens(r, e));
  }

  lemma {:induction false} TwoIsPow(n: nat)
    ensures Two(n) == Pow(2, n) as real
  {
  }

  lemma ScaledDivision(r: real, d: real, p: real, a: real)
    requires d > 0.0 && a == r * (2.0 * d)
    ensures (a * p) / d == 2.0 * (r * p)
  {
    assert a * p == (2.0 * (r * p)) * d;
    var z := 2.0 * (r * p);
    assert (z * d) / d == z;
  }

  /** From 2^52 on a double is a whole number, and its digits followed by e zeros are the answer. */
  method WholeDigits(ge: ScratchNumber, r: real, a: real, shift: nat, e: nat) returns (o: string)
    requires ge.data.Length == SIZE
    requires 1.0 <= r < Huge() && e <= 20 && Whole(a) && a >= 0.0 && a * Two(shift) == r && shift < 31
    modifies ge.data
    ensures o == Decimal(Nearest(r, e))
    ensures ge.data[..] == AfterCalls(old(ge.data[..]), FixedCalls(a, 0 - shift, e))
  {
    hide Two, Pow, Value, Weight, Decimal, Limbs, WholeLimbs, Nearest, Whole, AfterCalls, FixedCalls, Huge;
    HugeFits(a, r, Two(shift));
    LoadShifted(ge, r, a, shift, e);
    var digits := ge.NumToString();
    ZeroString(e);
    o := digits + "0.00000000000000000000"[2..2 + e];
    WholeNearest(r, e);
    PaddedZerosAfter(r.Floor, e);
  }

  method LoadShifted(ge: ScratchNumber, ghost r: real, a: real, shift: nat, ghost e: nat)
    requires ge.data.Length == SIZE
    requires r < Weight(SIZE) && Whole(a) && a >= 0.0 && a * Two(shift) == r && shift < 31
    modifies ge.data
    ensures WholeLimbs(ge.data[..]) && Value(ge.data[..]) == r && Whole(r)
    ensures ge.data[..] == AfterCalls(old(ge.data[..]), FixedCalls(a, 0 - shift, e))
  {
    hide Two, Pow, Value, Weight, Multiplied, Limbs, WholeLimbs, Whole, OneShift, AfterCalls, FixedCalls;
    WholeCalls(ge.data[..], a, shift, e);
    TwoAtLeastOne(shift);
    BelowProduct(a, Two(shift), r);
    Load(ge, a);
    TwoIsPow(shift);
    WholeLimbsAreLimbs(ge.data[..]);
    Scale(ge, OneShift(shift), r);
    ValueRange(ge.data[..]);
  }

  lemma {:induction false} WholeCalls(s: seq<real>, a: real, shift: nat, e: nat)
    ensures AfterCalls(s, FixedCalls(a, 0 - shift, e)) == Multiplied(Multiplied(s, 0, a).limbs, Pow(2, shift), 0.0).limbs
  {
    hide AfterCalls, Multiplied, Pow;
    AfterTwo(s, MultiplyBy(0, a), MultiplyBy(Pow(2, shift), 0.0));
  }

  lemma ZeroString(e: nat)
    requires e <= 20
    ensures "0.00000000000000000000"[2..2 + e] == Zeros(e)
  {
    var z := "00000000000000000000";
    assert "0.00000000000000000000"[2..] == z;
    assert forall i :: 0 <= i < 20 ==> z[i] == '0';
    assert "0.00000000000000000000"[2..2 + e] == z[..e];
  }

  lemma BelowProduct(a: real, p: real, r: real)
    requires a >= 0.0 && p >= 1.0 && a * p == r
    ensures a <= r
  {
    assert a * (p - 1.0) >= 0.0;
  }

  lemma HugeFits(a: real, r: real, p: real)
    requires r < Huge()
    ensures r < Weight(SIZE)
  {
    SizeWeights();
    PowTen7();
    hide Pow;
    PowAdd(10, 7, 7);
    PowAdd(10, 14, 7);
    PowMonotone(10, 21, 42);
  }

  lemma {:induction false} WholeNearest(r: real, e: nat)
    requires Whole(r) && r >= 1.0
    ensures r.Floor > 0 && Nearest(r, e) == r.Floor * Pow(10, e)
  {
    hide Pow;
    var n := r.Floor * Pow(10, e);
    assert r * Pow(10, e) as real == n as real;
    FloorUnique(n as real + 0.5, n);
  }

  // ----- placing the point -----

  method PlacePoint(o: string, e: nat, ghost n: nat) returns (text: string)
    requires e <= 20 && o == Decimal(n)
    ensures text == FixedText(n, e)
  {
    hide Decimal, FixedText;
    if e > 0 {
      var s := |o|;
      PointPlaced(o, n, e);
      if s <= e {
        FillString(e - s);
        text := "0.0000000000000000000"[0..e - s + 2] + o;
      } else {
        text := o[0..s - e] + "." + o[s - e..];
      }
    } else {
      text := o;
      NoPoint(n);
    }
  }

  lemma {:induction false} NoPoint(n: nat)
    ensures FixedText(n, 0) == Decimal(n)
  {
  }

  lemma {:induction false} PointPlaced(o: string, n: nat, e: nat)
    requires e > 0 && o == Decimal(n)
    ensures |o| <= e ==> FixedText(n, e) == ("0." + Zeros(e - |o|)) + o
    ensures |o| > e ==> FixedText(n, e) == o[0..|o| - e] + "." + o[|o| - e..]
  {
    hide Decimal;
    var s, w := |o|, Widened(n, e);
    if s <= e {
      assert w == Zeros(e + 1 - s) + o;
      assert w[..1] == "0" && w[1..] == Zeros(e - s) + o;
      assert ("0." + Zeros(e - s)) + o == ("0" + ".") + (Zeros(e - s) + o);
      assert |w| - e == 1;
    }
  }

  lemma FillString(n: nat)
    requires n <= 19
    ensures "0.0000000000000000000"[0..n + 2] == "0." + Zeros(n)
  {
    var z := "0000000000000000000";
    assert "0.0000000000000000000" == "0." + z;
    assert forall i :: 0 <= i < 19 ==> z[i] == '0';
    assert ("0." + z)[0..n + 2] == "0." + z[..n];
    assert z[..n] == Zeros(n);
  }

  // ----- toFixed -----

  function Number(x: Double): real
    requires x.Finite?
  {
    if x.negative then -Magnitude(x) else Magnitude(x)
  }

  datatype Thrown = RangeError

  /** The number of digits the program takes from its argument: NaN counts as 0, the rest is floored. */
  function FlooredDigits(f: Double): (d: Result<nat, Thrown>) {
    match f
    case NotANumber => Success(0)
    case Infinite(_) => Failure(RangeError)
    case Finite(_, _, _) =>
      var n := Number(f).Floor;
      if n < 0 || n > 20 then Failure(RangeError) else Success(n)
  }

  /** ToInteger of section 9.4 drops the fraction towards zero instead. */
  function StandardDigits(f: Double): (d: Result<nat, Thrown>) {
    match f
    case NotANumber => Success(0)
    case Infinite(_) => Failure(RangeError)
    case Finite(_, _, _) =>
      var n := if f.negative then -Magnitude(f).Floor else Magnitude(f).Floor;
      if n < 0 || n > 20 then Failure(RangeError) else Success(n)
  }

  /** The two agree on every argument but those strictly between -1 and 0, where the program throws. */
  lemma DigitsAgree(f: Double)
    ensures FlooredDigits(f) == StandardDigits(f) <==> !(f.Finite? && -1.0 < Number(f) < 0.0)
  {
    if f.Finite? {
      var m := Magnitude(f);
      if f.negative {
        if m < 1.0 {
          assert m.Floor == 0;
          assert m > 0.0 ==> (-m).Floor == -1;
          assert m == 0.0 ==> (-m).Floor == 0;
        } else {
          assert m.Floor >= 1 && (-m).Floor < 0;
        }
      }
    }
  }

  /** Section 15.7.4.5, steps 4 to 9, for a digit count in range. */
  function Required(x: Double, d: nat, stringOf: Double -> string): string {
    if x.NotANumber? then "NaN"
    else if x.Infinite? || Magnitude(x) >= Huge() then stringOf(x)
    else (if Number(x) < 0.0 then "-" else "") + FixedText(Nearest(Magnitude(x), d), d)
  }

  // ----- reading the result -----

  /** Digits with d of them behind a point, or without a point for d = 0, as the number times 10^d. */
  function ReadUnsigned(t: string, d: nat): Option<nat> {
    var point := |t| - d - 1;
    if d == 0 then (if t != "" && IsDigits(t) then Some(Read(t)) else None)
    else if point >= 1 && t[point] == '.' && IsDigits(t[..point]) && IsDigits(t[point + 1..]) then
      Some(Read(t[..point]) * Pow(10, d) + Read(t[point + 1..]))
    else None
  }

  /** The same behind a minus sign. */
  function ReadSigned(t: string, d: nat): Option<int> {
    if t != "" && t[0] == '-' then
      (match ReadUnsigned(t[1..], d) case None => None case Some(n) => Some(0 - n))
    else match ReadUnsigned(t, d) case None => None case Some(n) => Some(n)
  }

  lemma {:induction false} UnsignedReads(n: nat, d: nat)
    ensures ReadUnsigned(FixedText(n, d), d) == Some(n) && FixedText(n, d) != "" && FixedText(n, d)[0] != '-'
  {
    hide Read, Pow, FixedText, IsDigits;
    if d == 0 {
      NoPoint(n);
      ReadDecimal(n);
      FirstIsDigit(Decimal(n), |Decimal(n)|);
    } else {
      FixedTextReads(n, d);
      var t := FixedText(n, d);
      FirstIsDigit(t, |t| - d - 1);
    }
  }

  lemma FirstIsDigit(t: string, k: nat)
    requires 1 <= k <= |t| && IsDigits(t[..k])
    ensures t[0] != '-'
  {
    assert t[..k][0] == t[0];
  }

  /**
   What the text of a number below 10^21 says: it starts with a minus exactly for a negative number, also for one that rounds
   to 0, and the rest are digits, d of them behind the point. Signed and times 10^d it is the integer that section 15.7.4.5 asks for:
   the nearest to the number times 10^d, and of two the one further from 0.
   */
  lemma {:induction false} RequiredReads(x: Double, d: nat, stringOf: Double -> string)
    requires x.Finite? && -Huge() < Number(x) < Huge()
    ensures var t := Required(x, d, stringOf);
            && t != "" && (t[0] == '-' <==> Number(x) < 0.0)
            && ReadSigned(t, d).Some?
            && (Number(x) >= 0.0 ==> IsNearest(ReadSigned(t, d).value, Number(x), d))
            && (Number(x) < 0.0 ==> IsNearest(-ReadSigned(t, d).value, -Number(x), d))
  {
    hide Nearest, IsNearest, FixedText, ReadUnsigned, Magnitude, Huge;
    var v := Magnitude(x);
    var n := Nearest(v, d);
    NearestIsNearest(v, d);
    UnsignedReads(n, d);
    if Number(x) < 0.0 {
      assert ("-" + FixedText(n, d))[1..] == FixedText(n, d);
    } else {
      assert "" + FixedText(n, d) == FixedText(n, d);
      assert Number(x) == v;
    }
  }

  /** Everything else is the native text of the number itself, sign included, but for NaN. */
  lemma RequiredNative(x: Double, d: nat, stringOf: Double -> string)
    ensures x.NotANumber? ==> Required(x, d, stringOf) == "NaN"
    ensures x.Infinite? || (x.Finite? && (Number(x) >= Huge() || Number(x) <= -Huge())) ==> Required(x, d, stringOf) == stringOf(x)
  {
  }

  /** The digit counts refused: infinite ones, those below 0, and those from 21 on. */
  lemma DigitsRefused(f: Double)
    ensures FlooredDigits(f).Failure? <==> f.Infinite? || (f.Finite? && !(0.0 <= Number(f) < 21.0))
    ensures f.NotANumber? ==> FlooredDigits(f) == Success(0)
    ensures FlooredDigits(f).Success? && f.Finite? ==>
              var d := FlooredDigits(f).value; d as real <= Number(f) < (d + 1) as real
  {
    hide Magnitude;
  }

  method ToFixed(x: Double, argument: Double, stringOf: Double -> string, ge: ScratchNumber)
    returns (result: Result<string, Thrown>)
    requires IsDouble(x) && ge.data.Length == SIZE
    modifies ge.data
    ensures FlooredDigits(argument).Failure? ==> result == Failure(RangeError)
    ensures FlooredDigits(argument).Success? ==> result == Success(Required(x, FlooredDigits(argument).value, stringOf))
  {
    hide Two, Pow, FixedText, Nearest, Decimal, Magnitude;
    var e := 0;
    match argument {
      case NotANumber =>
      case Infinite(_) => return Failure(RangeError);
      case Finite(_, _, _) => e := Number(argument).Floor;
    }
    if e < 0 || e > 20 {
      return Failure(RangeError);
    }
    if x.NotANumber? {
      return Success("NaN");
    }
    if x.Infinite? || Magnitude(x) >= Huge() {
      return Success(stringOf(x));
    }
    var r, sign := Magnitude(x), "";
    if Number(x) < 0.0 {
      sign := "-";
    }
    var o := DigitsOf(ge, x, r, e);
    var text := PlacePoint(o, e, Nearest(r, e));
    result := Success(sign + text);
  }

  method DigitsOf(ge: ScratchNumber, x: Double, r: real, e: nat) returns (o: string)
    requires ge.data.Length == SIZE && x.Finite? && IsDouble(x) && r == Magnitude(x) < Huge() && e <= 20
    modifies ge.data
    ensures o == Decimal(Nearest(r, e))
  {
    hide Two, Pow, Nearest, Decimal, Magnitude, Whole, Tiny, Huge;
    o := "0";
    if r > Tiny() {
      var a, i := FirstFactor(x, r);
      if i > 0 {
        o := RoundedDigits(ge, r, a, i, e);
      } else {
        o := WholeDigits(ge, r, a, -i, e);
      }
    } else {
      TinyRounds(r, e);
      DecimalZero();
    }
  }

  /** The power of two that brings the number into [2^52, 2^53), and the number so scaled. */
  method FirstFactor(x: Double, r: real) returns (a: real, i: int)
    requires x.Finite? && IsDouble(x) && r == Magnitude(x) < Huge()
    ensures a == r * Two(i) && 0.0 <= a < Two(53)
    ensures i <= 0 ==> r >= 1.0 && -i <= 17 && Whole(a) && a * Two(-i) == r
  {
    hide Two, Pow, PowFrom, Magnitude, Whole, Huge;
    PowFromIsPow(2, 69, 1);
    TwoIsPow(69);
    var l: int := Log(r * PowFrom(2, 69, 1) as real);
    LogRange(r, l);
    i := l - 69;
    a := Shifted(r, i);
    PowFiftyThree();
    Scaled(r, i);
    a := a * 4503599627370496.0;
    i := 52 - i;
    FactorBound(r, l);
    if i <= 0 {
      LargeEnough(r, l);
      FactorWhole(x, l, i, a);
      BackAgain(r, i);
    }
  }

  method Shifted(r: real, i: int) returns (a: real)
    ensures a == if i < 0 then r * Two(-i) else r / Two(i)
  {
    hide Two, Pow, PowFrom;
    if i < 0 {
      PowFromIsPow(2, -i, 1);
      TwoIsPow(-i);
      a := r * PowFrom(2, -i, 1) as real;
    } else {
      PowFromIsPow(2, i, 1);
      TwoIsPow(i);
      a := r / PowFrom(2, i, 1) as real;
    }
  }

  lemma BackAgain(r: real, i: int)
    ensures (r * Two(i)) * Two(-i) == r
  {
    hide Two;
    TwoAdd(i, -i);
    TwoZero();
    MulCancel(r, Two(-i), Two(i));
  }

  /** Below 10^21 the logarithm stays below 139. */
  lemma LogRange(r: real, l: nat)
    requires 0.0 <= r < Huge() && (r * Two(69) >= 1.0 ==> Two(l) <= r * Two(69)) && (r * Two(69) < 1.0 ==> l == 0)
    ensures l < 139
  {
    hide Two, Pow;
    TwoAdd(69, 70);
    SeventyBits();
    ProductOrder(r, 1.0, Two(69), Two(70));
    assert 1.0 * Two(69) == Two(69);
    assert r * Two(69) < Two(70) * Two(69);
    assert Two(70) * Two(69) == Two(139);
    if l >= 139 {
      TwoMonotone(139, l);
    }
  }

  lemma SeventyBits()
    ensures Two(70) == 1180591620717411303424.0 > Huge()
  {
    PowFiftyThree();
    TwoIsPow(70);
    assert Pow(2, 4) == 16 by {
      assert Pow(2, 0) == 1 && Pow(2, 1) == 2 && Pow(2, 2) == 4 && Pow(2, 3) == 8;
    }
    PowAdd(2, 4, 4);
    PowAdd(2, 8, 8);
    PowAdd(2, 52, 16);
    assert Pow(2, 70) == 2 * Pow(2, 69) && Pow(2, 69) == 2 * Pow(2, 68);
  }

  lemma {:induction false} TwoMonotone(a: int, b: int)
    requires a <= b
    ensures Two(a) <= Two(b)
    decreases b - a
  {
    hide Two;
    if a < b {
      TwoMonotone(a, b - 1);
      TwoStep(b - 1);
    }
  }

  lemma LargeEnough(r: real, l: nat)
    requires l >= 121 && Two(l) <= r * Two(69)
    ensures r >= 1.0
  {
    hide Two;
    TwoMonotone(69, l);
    if r < 1.0 {
      assert (1.0 - r) * Two(69) > 0.0;
      TwoMonotone(70, l);
      TwoStep(69);
    }
  }

  lemma TinyRounds(r: real, e: nat)
    requires 0.0 <= r <= Tiny() && e <= 20
    ensures Nearest(r, e) == 0
  {
    hide Pow, Tiny;
    PowMonotone(10, e, 20);
    PowTen7();
    PowSix();
    PowAdd(10, 7, 7);
    PowAdd(10, 14, 6);
    BelowHalf(r, Pow(10, e) as real, Tiny(), 100000000000000000000.0);
    TinyProduct();
  }

  lemma BelowHalf(r: real, p: real, t: real, q: real)
    requires 0.0 <= r <= t && 0.0 <= p <= q
    ensures 0.0 <= r * p <= t * q
  {
    assert r * p <= t * p;
    assert t * p <= t * q;
  }

  lemma TinyProduct()
    ensures Tiny() * 100000000000000000000.0 < 0.5
  {
  }
}
