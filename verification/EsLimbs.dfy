/**
 The six-limb scratch number of the es5-shim `toFixed`: limbs in base 10^7, least significant first.
 Limbs are real because the first factor written to them may be half an integer.
 */
module EsLimbs {
  import opened EsNumbers

  const BASE := 10_000_000
  const SIZE := 6

  function BaseReal(): real {
    10_000_000.0
  }

  function Value(s: seq<real>): real {
    if s == [] then 0.0 else s[0] + BaseReal() * Value(s[1..])
  }

  predicate Whole(v: real) {
    v == v.Floor as real
  }

  /** Every limb is below the base, and only the lowest may have a fraction. */
  predicate Limbs(s: seq<real>) {
    (forall i :: 0 <= i < |s| ==> 0.0 <= s[i] < BaseReal()) && (forall i :: 1 <= i < |s| ==> Whole(s[i]))
  }

  predicate WholeLimbs(s: seq<real>) {
    forall i :: 0 <= i < |s| ==> 0.0 <= s[i] < BaseReal() && Whole(s[i])
  }

  /** n % base and Math.floor(n / base) for non-negative numbers. */
  function Quotient(n: real, d: nat): int
    requires d > 0
  {
    (n / d as real).Floor
  }

  function Remainder(n: real, d: nat): real
    requires d > 0
  {
    n - d as real * Quotient(n, d) as real
  }

  lemma RemainderRange(n: real, d: nat)
    requires d > 0
    ensures 0.0 <= Remainder(n, d) < d as real
    ensures n == d as real * Quotient(n, d) as real + Remainder(n, d)
    ensures n >= 0.0 ==> Quotient(n, d) >= 0
    ensures Whole(n) ==> Whole(Remainder(n, d))
  {
    var q := Quotient(n, d);
    ScaledBounds(n, d, q);
    ScaledBounds(n, d, q + 1);
    Multiples(q, d);
    if Whole(n) {
      FloorUnique(Remainder(n, d), n.Floor - q * d);
    }
  }

  lemma Multiples(q: int, d: nat)
    ensures (q * d) as real == d as real * q as real && ((q + 1) * d) as real == d as real * q as real + d as real
  {
    assert (q + 1) * d == q * d + d;
  }

  // ----- multiply -----

  datatype Product = Product(limbs: seq<real>, carry: real)

  function Multiplied(s: seq<real>, t: nat, e: real): Product
    decreases s
  {
    if s == [] then Product([], e)
    else
      var n := e + t as real * s[0];
      var rest := Multiplied(s[1..], t, Quotient(n, BASE) as real);
      Product([Remainder(n, BASE)] + rest.limbs, rest.carry)
  }

  /** 10^42: six limbs hold the numbers below it. */
  function Modulus(): (m: nat)
    ensures m > 0
  {
    Pow(BASE, SIZE)
  }

  function Weight(n: nat): real {
    Pow(BASE, n) as real
  }

  lemma WeightStep(n: nat)
    ensures Weight(n + 1) == BaseReal() * Weight(n)
  {
    assert Pow(BASE, n + 1) == BASE * Pow(BASE, n);
  }

  lemma ProductStep(n: real, r: real, q: real, t: real, v: real, s0: real, e: real, limbs: real, p: real, c: real)
    requires n == BaseReal() * q + r && n == e + t * s0
    requires limbs + p * c == q + t * v
    ensures (r + BaseReal() * limbs) + (BaseReal() * p) * c == e + t * (s0 + BaseReal() * v)
  {
    assert (BaseReal() * p) * c == BaseReal() * (p * c);
    assert t * (s0 + BaseReal() * v) == t * s0 + BaseReal() * (t * v);
  }

  lemma {:induction false} ValueCons(x: real, xs: seq<real>)
    ensures Value([x] + xs) == x + BaseReal() * Value(xs)
  {
    assert ([x] + xs)[1..] == xs;
  }

  lemma WholeSum(n: real, e: real, t: nat, v: real)
    requires n == e + t as real * v
    requires Whole(e) && Whole(v) && e >= 0.0 && v >= 0.0
    ensures Whole(n) && n >= 0.0
  {
    WholeTimes(t, v);
    FloorUnique(n, e.Floor + t * v.Floor);
    TimesNonNegative(t, v);
  }

  lemma WholeInt(n: int)
    ensures Whole(n as real)
  {
  }

  /** The limbs and the carry out of the top together are the exact product plus e. */
  lemma {:induction false} MultiplyExact(s: seq<real>, t: nat, e: real)
    requires Limbs(s) && e >= 0.0
    ensures var m := Multiplied(s, t, e);
            |m.limbs| == |s| && Value(m.limbs) + Weight(|s|) * m.carry == e + t as real * Value(s)
            && m.carry >= 0.0 && Limbs(m.limbs)
            && (s != [] ==> Whole(m.carry))
            && (Whole(e) && WholeLimbs(s) ==> WholeLimbs(m.limbs))
    decreases s
  {
    hide Quotient, Remainder, Value, Weight, Whole;
    if s == [] {
      EmptyProduct(t, e);
    } else {
      var n := e + t as real * s[0];
      var q, r := Quotient(n, BASE), Remainder(n, BASE);
      TimesNonNegative(t, s[0]);
      RemainderRange(n, BASE);
      assert BASE as real == BaseReal();
      MultiplyHigher(s[1..], t, q);
      var rest := Multiplied(s[1..], t, q as real);
      ProductCons(s, n, r, q as real, t, e, rest);
      if Whole(e) && WholeLimbs(s) {
        WholeSum(n, e, t, s[0]);
        WholeLimbsCons(r, rest.limbs);
      }
    }
  }

  lemma WholeLimbsCons(r: real, rest: seq<real>)
    requires 0.0 <= r < BaseReal() && Whole(r) && WholeLimbs(rest)
    ensures WholeLimbs([r] + rest)
  {
    hide Whole;
  }

  lemma EmptyProduct(t: nat, e: real)
    ensures Value([]) + Weight(0) * e == e + t as real * Value([])
  {
    assert Weight(0) == 1.0;
  }

  lemma {:induction false} ProductCons(s: seq<real>, n: real, r: real, q: real, t: nat, e: real, rest: Product)
    requires s != [] && n == BaseReal() * q + r && n == e + t as real * s[0]
    requires Value(rest.limbs) + Weight(|s| - 1) * rest.carry == q + t as real * Value(s[1..])
    ensures Value([r] + rest.limbs) + Weight(|s|) * rest.carry == e + t as real * Value(s)
  {
    hide Value, Weight;
    assert s == [s[0]] + s[1..];
    ValueCons(s[0], s[1..]);
    ValueCons(r, rest.limbs);
    WeightStep(|s| - 1);
    ProductStep(n, r, q, t as real, Value(s[1..]), s[0], e, Value(rest.limbs), Weight(|s| - 1), rest.carry);
  }

  lemma TimesNonNegative(t: nat, v: real)
    requires v >= 0.0
    ensures t as real * v >= 0.0
  {
  }

  lemma WholeTimes(t: nat, v: real)
    requires Whole(v)
    ensures t as real * v == (t * v.Floor) as real && Whole(t as real * v)
  {
    assert t as real * v == t as real * v.Floor as real;
    FloorUnique(t as real * v, t * v.Floor);
  }

  /** Above the lowest limb everything is whole. */
  lemma {:induction false} MultiplyHigher(s: seq<real>, t: nat, e: nat)
    requires WholeLimbs(s)
    ensures var m := Multiplied(s, t, e as real);
            |m.limbs| == |s| && Value(m.limbs) + Weight(|s|) * m.carry == e as real + t as real * Value(s)
            && m.carry >= 0.0 && Whole(m.carry) && WholeLimbs(m.limbs)
    decreases s
  {
    hide Quotient, Remainder, Value, Weight, Whole;
    WholeInt(e);
    if s == [] {
      EmptyProduct(t, e as real);
    } else {
      var n := e as real + t as real * s[0];
      var q, r := Quotient(n, BASE), Remainder(n, BASE);
      WholeSum(n, e as real, t, s[0]);
      RemainderRange(n, BASE);
      assert BASE as real == BaseReal();
      MultiplyHigher(s[1..], t, q);
      var rest := Multiplied(s[1..], t, q as real);
      ProductCons(s, n, r, q as real, t, e as real, rest);
      WholeLimbsCons(r, rest.limbs);
    }
  }

  lemma {:induction false} ValueRange(s: seq<real>)
    requires Limbs(s)
    ensures 0.0 <= Value(s) < Weight(|s|)
    ensures WholeLimbs(s) ==> Whole(Value(s))
    decreases s
  {
    hide Weight, Whole, Value;
    if s == [] {
      EmptyRange();
    } else {
      var v := Value(s[1..]);
      assert WholeLimbs(s[1..]);
      ValueRange(s[1..]);
      ValueCons(s[0], s[1..]);
      assert s == [s[0]] + s[1..];
      RangeStep(s[0], v, |s| - 1);
      if WholeLimbs(s) {
        assert BASE as real == BaseReal();
        WholeSum(Value(s), s[0], BASE, v);
      }
    }
  }

  lemma EmptyRange()
    ensures Value([]) == 0.0 && Weight(0) == 1.0 && Whole(0.0)
  {
  }

  lemma RangeStep(x: real, v: real, n: nat)
    requires 0.0 <= x < BaseReal() && 0.0 <= v < Weight(n) && Whole(v)
    ensures 0.0 <= x + BaseReal() * v < Weight(n + 1)
  {
    WeightStep(n);
    assert v.Floor < Pow(BASE, n);
    assert v <= (Pow(BASE, n) - 1) as real;
  }

  /** multiply(t, e) is arithmetic modulo 10^42, and exact below it. */
  lemma {:induction false} MultiplyModulo(s: seq<real>, t: nat, e: real, v: real)
    requires Limbs(s) && |s| == SIZE && e >= 0.0 && v == e + t as real * Value(s)
    ensures Value(Multiplied(s, t, e).limbs) == Remainder(v, Modulus())
    ensures v < Weight(SIZE) ==> Value(Multiplied(s, t, e).limbs) == v
  {
    hide Multiplied, Value, Modulus, Remainder, Weight;
    var m := Multiplied(s, t, e);
    MultiplyExact(s, t, e);
    ValueRange(m.limbs);
    CarryOut(v, Value(m.limbs), m.carry);
  }

  lemma CarryOut(v: real, low: real, carry: real)
    requires low + Weight(SIZE) * carry == v && 0.0 <= low < Weight(SIZE) && carry >= 0.0 && Whole(carry)
    ensures low == Remainder(v, Modulus()) && (v < Weight(SIZE) ==> low == v)
  {
    var w, c := Modulus(), carry.Floor;
    hide Pow;
    assert (c * w) as real == w as real * carry;
    assert ((c + 1) * w) as real == w as real * carry + w as real;
    QuotientFloor(v, w, c);
    if c >= 1 {
      assert c * w >= w;
    }
  }

  // ----- divide -----

  datatype Division = Division(limbs: seq<real>, rest: real)

  /** From the highest limb down; `rest` is the running remainder. */
  function Divided(s: seq<real>, t: nat): Division
    requires t > 0
    decreases s
  {
    if s == [] then Division([], 0.0)
    else
      var above := Divided(s[1..], t);
      var r := above.rest * BaseReal() + s[0];
      Division([Quotient(r, t) as real] + above.limbs, Remainder(r, t))
  }

  lemma DivisionStep(s0: real, v: real, limbs: real, rest: real, q: real, m: real, t: real)
    requires v == t * limbs + rest && rest * BaseReal() + s0 == t * q + m
    ensures s0 + BaseReal() * v == t * (q + BaseReal() * limbs) + m
  {
    assert t * (q + BaseReal() * limbs) == t * q + BaseReal() * (t * limbs);
  }

  lemma {:induction false} DivideExact(s: seq<real>, t: nat)
    requires Limbs(s) && t > 0
    ensures var d := Divided(s, t);
            |d.limbs| == |s| && Value(s) == t as real * Value(d.limbs) + d.rest && 0.0 <= d.rest < t as real
            && WholeLimbs(d.limbs) && (WholeLimbs(s) ==> Whole(d.rest))
    decreases s
  {
    hide Quotient, Remainder, Value, Whole;
    if s == [] {
      EmptyRange();
    } else {
      assert WholeLimbs(s[1..]);
      DivideExact(s[1..], t);
      var above := Divided(s[1..], t);
      var r := above.rest * BaseReal() + s[0];
      RemainderRange(r, t);
      ValueCons(s[0], s[1..]);
      ValueCons(Quotient(r, t) as real, above.limbs);
      assert s == [s[0]] + s[1..];
      DivisionStep(s[0], Value(s[1..]), Value(above.limbs), above.rest, Quotient(r, t) as real, Remainder(r, t), t as real);
      // the running remainder is at most t - 1, so the new limb is below the base
      WholeBelow(above.rest, t);
      LimbBound(above.rest, s[0], t);
      QuotientBelow(r, t, BASE);
      WholeInt(Quotient(r, t));
      if Whole(s[0]) {
        assert BASE as real == BaseReal();
        WholeSum(r, s[0], BASE, above.rest);
      }
    }
  }

  lemma WholeBelow(v: real, t: nat)
    requires Whole(v) && v < t as real
    ensures v <= (t - 1) as real
  {
    assert v.Floor as real < t as real;
    assert v.Floor <= t - 1;
  }

  lemma LimbBound(rest: real, limb: real, t: nat)
    requires t > 0 && rest <= (t - 1) as real && limb < BaseReal()
    ensures rest * BaseReal() + limb < (t * BASE) as real
  {
  }

  lemma QuotientBelow(r: real, t: nat, b: nat)
    requires t > 0 && r < (t * b) as real
    ensures Quotient(r, t) < b
  {
    ScaledBounds(r, t, b);
    assert b * t == t * b;
  }

  /** divide(t) leaves the floor of the quotient. */
  lemma {:induction false} DivideFloors(s: seq<real>, t: nat)
    requires Limbs(s) && t > 0
    ensures Value(Divided(s, t).limbs) == Quotient(Value(s), t) as real
  {
    hide Divided, Value, Quotient;
    DivideExact(s, t);
    var d := Divided(s, t);
    ValueRange(d.limbs);
    WholeQuotient(Value(s), Value(d.limbs), d.rest, t);
  }

  lemma WholeQuotient(v: real, quotient: real, rest: real, t: nat)
    requires t > 0 && Whole(quotient) && v == t as real * quotient + rest && 0.0 <= rest < t as real
    ensures quotient == Quotient(v, t) as real
  {
    var q := quotient.Floor;
    assert (q * t) as real == t as real * quotient;
    assert ((q + 1) * t) as real == t as real * quotient + t as real;
    QuotientFloor(v, t, q);
  }

  lemma {:induction false} DividedNothing(s: seq<real>, t: nat)
    requires |s| == SIZE && t > 0
    ensures Divided(s[SIZE..], t) == Division([], 0.0)
  {
  }

  lemma NothingLeft()
    ensures 0.0 * BaseReal() == 0.0
  {
  }

  lemma {:induction false} DividedStep(s: seq<real>, e: nat, t: nat)
    requires e < |s| && t > 0
    ensures var above := Divided(s[e + 1..], t);
            var r := above.rest * BaseReal() + s[e];
            Divided(s[e..], t) == Division([Quotient(r, t) as real] + above.limbs, Remainder(r, t))
  {
    hide Quotient, Remainder;
    assert s[e..][0] == s[e] && s[e..][1..] == s[e + 1..];
  }

  // ----- numToString -----

  /** The text of the limbs: leading zero limbs are skipped, all others below the first are padded. */
  function LimbText(s: seq<real>): string
    requires WholeLimbs(s)
    decreases s
  {
    if s == [] then ""
    else
      assert WholeLimbs(s[1..]);
      var above := LimbText(s[1..]);
      var digits := Decimal(s[0].Floor);
      if above == "" then (if s[0] == 0.0 then "" else digits)
      else above + (Zeros(if |digits| <= 7 then 7 - |digits| else 0) + digits)
  }

  lemma {:induction false} TextOfValue(s: seq<real>)
    requires WholeLimbs(s)
    ensures Value(s) >= 0.0 && Whole(Value(s))
    ensures LimbText(s) == if Value(s) == 0.0 then "" else Decimal(Value(s).Floor)
    decreases s
  {
    hide Value, Decimal, Pow;
    if s == [] {
      EmptyRange();
    } else {
      assert WholeLimbs(s[1..]);
      TextOfValue(s[1..]);
      assert s == [s[0]] + s[1..];
      ValueCons(s[0], s[1..]);
      var lo, hi := s[0].Floor, Value(s[1..]).Floor;
      PowTen7();
      DecimalLength(lo, 7);
      assert Value(s) == (hi * BASE + lo) as real;
      if hi > 0 {
        DecimalGroup(hi, lo, 7);
      }
    }
  }

  lemma PowTen7()
    ensures Pow(10, 7) == BASE
  {
    assert Pow(10, 1) == 10 * Pow(10, 0) && Pow(10, 2) == 10 * Pow(10, 1) && Pow(10, 3) == 10 * Pow(10, 2);
    assert Pow(10, 4) == 10 * Pow(10, 3) && Pow(10, 5) == 10 * Pow(10, 4) && Pow(10, 6) == 10 * Pow(10, 5);
  }

  lemma DecimalZero()
    ensures Decimal(0) == "0"
  {
  }

  // ----- the object itself -----

  class ScratchNumber {
    const data: array<real>

    constructor ()
      ensures fresh(data) && data.Length == SIZE
    {
      data := new real[SIZE];
    }

    method Multiply(t: nat, e: real)
      requires data.Length == SIZE
      modifies data
      ensures data[..] == Multiplied(old(data[..]), t, e).limbs
    {
      hide Quotient, Remainder;
      var n := e;
      ghost var s := data[..];
      for r := 0 to SIZE
        invariant data[r..] == s[r..]
        invariant data[..r] + Multiplied(s[r..], t, n).limbs == Multiplied(s, t, e).limbs
      {
        assert s[r..][0] == s[r] == data[r] && s[r..][1..] == s[r + 1..];
        ghost var front := data[..r];
        n := n + t as real * data[r];
        var limb := Remainder(n, BASE);
        n := Quotient(n, BASE) as real;
        ghost var rest := Multiplied(s[r + 1..], t, n).limbs;
        assert front + ([limb] + rest) == (front + [limb]) + rest;
        data[r] := limb;
        assert data[..r + 1] == front + [limb];
      }
      assert s[SIZE..] == [] && data[..SIZE] == data[..];
    }

    method Divide(t: nat)
      requires data.Length == SIZE && t > 0
      modifies data
      ensures data[..] == Divided(old(data[..]), t).limbs
    {
      hide Quotient, Remainder, Divided, BaseReal;
      var e, r := SIZE, 0.0;
      ghost var s := data[..];
      DividedNothing(s, t);
      NothingLeft();
      while e > 0
        invariant 0 <= e <= SIZE
        invariant data[..e] == s[..e]
        invariant data[e..] == Divided(s[e..], t).limbs
        invariant r == Divided(s[e..], t).rest * BaseReal()
      {
        e := e - 1;
        DividedStep(s, e, t);
        assert data[e] == s[e];
        r := r + data[e];
        assert r == Divided(s[e + 1..], t).rest * BaseReal() + s[e];
        ghost var back := data[e + 1..];
        data[e] := Quotient(r, t) as real;
        assert data[e..] == [data[e]] + back;
        r := Remainder(r, t) * BaseReal();
      }
      assert s[0..] == s && data[0..] == data[..];
    }

    method NumToString() returns (text: string)
      requires data.Length == SIZE && WholeLimbs(data[..])
      ensures Value(data[..]) >= 0.0 && text == Decimal(Value(data[..]).Floor)
    {
      hide Decimal, Value;
      DecimalZero();
      var t := SIZE;
      text := "";
      while t > 0
        invariant 0 <= t <= SIZE
        invariant t > 0 ==> text == LimbText(data[t..])
        invariant t == 0 ==> text == if LimbText(data[..]) == "" then "0" else LimbText(data[..])
      {
        t := t - 1;
        assert data[t..][0] == data[t] && data[t..][1..] == data[t + 1..];
        assert t == 0 ==> data[t..] == data[..];
        if text != "" || t == 0 || data[t] != 0.0 {
          var digits := Decimal(data[t].Floor);
          if text == "" {
            text := digits;
          } else {
            text := text + (Zeros(if |digits| <= 7 then 7 - |digits| else 0) + digits);
          }
        }
      }
      TextOfValue(data[..]);
    }
  }
}
