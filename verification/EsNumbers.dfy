/** Powers, decimal digits and floors used by the es5-shim number code. */
module EsNumbers {

  function Pow(b: nat, n: nat): (r: nat)
    ensures b > 0 ==> r > 0
  {
    if n == 0 then 1 else b * Pow(b, n - 1)
  }

  lemma PowStep(b: nat, n: nat)
    ensures Pow(b, n + 1) == b * Pow(b, n)
  {
  }

  lemma {:induction false} PowAdd(b: nat, m: nat, n: nat)
    ensures Pow(b, m + n) == Pow(b, m) * Pow(b, n)
    decreases m
  {
    if m > 0 {
      hide Pow;
      PowAdd(b, m - 1, n);
      PowStep(b, m - 1 + n);
      PowStep(b, m - 1);
      Associates(b, Pow(b, m - 1), Pow(b, n));
    }
  }

  lemma Associates(x: nat, y: nat, z: nat)
    ensures x * (y * z) == (x * y) * z
  {
  }

  lemma {:induction false} PowMonotone(b: nat, m: nat, n: nat)
    requires b > 0 && m <= n
    ensures Pow(b, m) <= Pow(b, n)
    decreases n
  {
    if m < n {
      PowMonotone(b, m, n - 1);
    }
  }

  /** 2 to any integer power. */
  function Two(k: int): (r: real)
    ensures r > 0.0
  {
    if k >= 0 then Pow(2, k) as real else 1.0 / Pow(2, -k) as real
  }

  lemma TwoStep(k: int)
    ensures Two(k + 1) == 2.0 * Two(k)
  {
    if k >= 0 {
      assert Pow(2, k + 1) == 2 * Pow(2, k);
    } else {
      assert Pow(2, -k) == 2 * Pow(2, -(k + 1));
      var p := Pow(2, -(k + 1)) as real;
      assert Pow(2, -k) as real == 2.0 * p;
      assert 1.0 / (2.0 * p) == (1.0 / p) / 2.0;
    }
  }

  lemma TwoZero()
    ensures Two(0) == 1.0
  {
  }

  lemma MulDouble(x: real, y: real)
    ensures 2.0 * (x * y) == x * (2.0 * y)
  {
  }

  lemma {:induction false} TwoAddNat(a: int, n: nat)
    ensures Two(a + n) == Two(a) * Two(n)
    decreases n
  {
    hide Two;
    if n > 0 {
      TwoAddNat(a, n - 1);
      TwoStep(a + n - 1);
      TwoStep(n - 1);
      MulDouble(Two(a), Two(n - 1));
    } else {
      TwoZero();
    }
  }

  lemma MulCancel(x: real, y: real, z: real)
    requires y * z == 1.0
    ensures (x * z) * y == x
  {
    assert (x * z) * y == x * (y * z);
  }

  lemma TwoAdd(a: int, b: int)
    ensures Two(a + b) == Two(a) * Two(b)
  {
    hide Two;
    if b >= 0 {
      TwoAddNat(a, b);
    } else {
      TwoAddNat(a + b, -b);
      TwoAddNat(b, -b);
      TwoZero();
      MulCancel(Two(a + b), Two(b), Two(-b));
    }
  }

  // ----- floors -----

  lemma FloorUnique(v: real, n: int)
    requires n as real <= v < (n + 1) as real
    ensures v.Floor == n
  {
  }

  /** Dividing by s and then by t, dropping the fraction each time, is dividing once by s * t. */
  lemma FloorTwice(v: real, s: nat, t: nat)
    requires v >= 0.0 && s > 0 && t > 0
    ensures s * t > 0
    ensures ((v / s as real).Floor as real / t as real).Floor == (v / (s * t) as real).Floor
  {
    var whole := (v / s as real).Floor;
    var q := (whole as real / t as real).Floor;
    FloorBounds(whole as real, t);
    FloorTwiceBounds(v, s, t, whole, q);
  }

  lemma FloorTwiceBounds(v: real, s: nat, t: nat, whole: int, q: int)
    requires s > 0 && t > 0 && whole == (v / s as real).Floor && q * t <= whole < (q + 1) * t
    ensures s * t > 0 && (v / (s * t) as real).Floor == q
  {
    // q * t <= floor(v / s) < (q + 1) * t over the integers, so the same holds of v / s itself
    var a, lo, hi := v / s as real, q * t, (q + 1) * t;
    assert lo as real <= a < hi as real;
    ScaledBounds(v, s, lo);
    ScaledBounds(v, s, hi);
    Regroup(q, s, t);
    Regroup(q + 1, s, t);
    QuotientFloor(v, s * t, q);
  }

  lemma Regroup(q: int, s: nat, t: nat)
    requires s > 0 && t > 0
    ensures (q * t) * s == q * (s * t) && s * t > 0
  {
  }

  lemma FloorBounds(n: real, t: nat)
    requires t > 0 && n == n.Floor as real
    ensures var q := (n / t as real).Floor; q * t <= n.Floor < (q + 1) * t
  {
    var q := (n / t as real).Floor;
    var tr := t as real;
    assert q as real <= n / tr < (q + 1) as real;
    assert q as real * tr <= (n / tr) * tr && (n / tr) * tr < (q + 1) as real * tr;
    assert (n / tr) * tr == n;
    assert (q * t) as real == q as real * tr && ((q + 1) * t) as real == (q + 1) as real * tr;
  }

  lemma ScaledBounds(v: real, s: nat, n: int)
    requires s > 0
    ensures n as real <= v / s as real <==> (n * s) as real <= v
  {
    var sr := s as real;
    assert (n * s) as real == n as real * sr;
    assert (v / sr) * sr == v;
    if n as real <= v / sr {
      assert n as real * sr <= (v / sr) * sr;
    } else {
      assert v / sr < n as real;
      assert (v / sr) * sr < n as real * sr;
    }
  }

  lemma QuotientFloor(v: real, d: nat, q: int)
    requires d > 0
    requires (q * d) as real <= v < ((q + 1) * d) as real
    ensures (v / d as real).Floor == q
  {
    ScaledBounds(v, d, q);
    ScaledBounds(v, d, q + 1);
    FloorUnique(v / d as real, q);
  }

  // ----- decimal digits -----

  function Digit(n: nat): char
    requires n < 10
  {
    ('0' as int + n) as char
  }

  /** The digits of n, without superfluous leading zeros. */
  function Decimal(n: nat): (s: string)
    ensures s != ""
  {
    if n < 10 then [Digit(n)] else Decimal(n / 10) + [Digit(n % 10)]
  }

  /** The last `width` digits of n. */
  function Padded(n: nat, width: nat): (s: string)
    ensures |s| == width
    decreases width
  {
    if width == 0 then "" else Padded(n / 10, width - 1) + [Digit(n % 10)]
  }

  function Zeros(n: nat): (s: string)
    ensures |s| == n
  {
    seq(n, _ => '0')
  }

  /** Reading digits back. */
  predicate IsDigits(s: string) {
    forall i :: 0 <= i < |s| ==> '0' <= s[i] <= '9'
  }

  function Read(s: string): nat
    requires IsDigits(s)
  {
    if s == "" then 0
    else
      var last := |s| - 1;
      assert IsDigits(s[..last]);
      10 * Read(s[..last]) + (s[last] as int - '0' as int)
  }

  lemma {:induction false} ReadDecimal(n: nat)
    ensures IsDigits(Decimal(n)) && Read(Decimal(n)) == n
    ensures n > 0 ==> Decimal(n)[0] != '0'
    decreases n
  {
    if n >= 10 {
      ReadDecimal(n / 10);
      var s := Decimal(n);
      assert s[..|s| - 1] == Decimal(n / 10);
    } else {
      assert [Digit(n)][..0] == "";
    }
  }

  lemma {:induction false} ReadLast(s: string)
    requires IsDigits(s) && s != ""
    ensures IsDigits(s[..|s| - 1])
    ensures Read(s) == 10 * Read(s[..|s| - 1]) + (s[|s| - 1] as int - '0' as int)
  {
  }

  lemma {:induction false} ReadConcat(a: string, b: string)
    requires IsDigits(a) && IsDigits(b)
    ensures IsDigits(a + b) && Read(a + b) == Read(a) * Pow(10, |b|) + Read(b)
    decreases b
  {
    hide Read;
    if b == "" {
      assert a + b == a;
      EmptyRead();
    } else {
      var last := |b| - 1;
      ReadLast(b);
      ReadConcat(a, b[..last]);
      ReadLast(a + b);
      assert (a + b)[..|a + b| - 1] == a + b[..last];
      assert (a + b)[|a + b| - 1] == b[last];
      ReadStep(Read(a), Pow(10, last), Read(b[..last]));
    }
  }

  lemma EmptyRead()
    ensures Read("") == 0
  {
  }

  lemma ReadStep(a: nat, p: nat, b: nat)
    ensures 10 * (a * p + b) == a * (10 * p) + 10 * b
  {
  }

  lemma {:induction false} ReadZeros(n: nat)
    ensures IsDigits(Zeros(n)) && Read(Zeros(n)) == 0
    decreases n
  {
    if n > 0 {
      ReadZeros(n - 1);
      assert Zeros(n)[..n - 1] == Zeros(n - 1);
    }
  }

  /** Appending a group of digits to the digits of a positive number. */
  lemma {:induction false} DecimalGroup(hi: nat, lo: nat, width: nat)
    requires hi > 0 && lo < Pow(10, width)
    ensures Decimal(hi * Pow(10, width) + lo) == Decimal(hi) + Padded(lo, width)
    decreases width
  {
    var p := Pow(10, width);
    if width == 0 {
      assert Decimal(hi) + "" == Decimal(hi);
    } else {
      var q := Pow(10, width - 1);
      var n := hi * p + lo;
      assert p == 10 * q && hi * p == 10 * (hi * q);
      assert n / 10 == hi * q + lo / 10 && n % 10 == lo % 10;
      assert hi * q >= 1 by { assert q >= 1; MulAtLeast(hi, q); }
      DecimalGroup(hi, lo / 10, width - 1);
      assert Decimal(hi) + (Padded(lo / 10, width - 1) + [Digit(lo % 10)]) == (Decimal(hi) + Padded(lo / 10, width - 1)) + [Digit(lo % 10)];
    }
  }

  lemma MulAtLeast(a: nat, b: nat)
    requires a > 0 && b > 0
    ensures a * b >= a && a * b >= 1
  {
  }

  lemma {:induction false} DecimalLength(n: nat, width: nat)
    requires n < Pow(10, width) && width > 0
    ensures |Decimal(n)| <= width
    ensures Zeros(width - |Decimal(n)|) + Decimal(n) == Padded(n, width)
    decreases width
  {
    if width == 1 {
      assert Pow(10, 1) == 10 * Pow(10, 0) && Pow(10, 0) == 1;
      assert Padded(n / 10, 0) == "";
      assert Zeros(0) + [Digit(n)] == "" + [Digit(n)];
    } else if n < 10 {
      PaddedZero(width - 1);
      assert n / 10 == 0 && n % 10 == n;
    } else {
      assert n / 10 < Pow(10, width - 1);
      DecimalLength(n / 10, width - 1);
      var d := Decimal(n / 10);
      assert Zeros(width - |Decimal(n)|) + (d + [Digit(n % 10)]) == (Zeros(width - 1 - |d|) + d) + [Digit(n % 10)];
    }
  }

  lemma {:induction false} PaddedZero(width: nat)
    ensures Padded(0, width) == Zeros(width)
    decreases width
  {
    if width > 0 {
      PaddedZero(width - 1);
    }
  }

  lemma {:induction false} PaddedZerosAfter(n: nat, width: nat)
    requires n > 0
    ensures Decimal(n * Pow(10, width)) == Decimal(n) + Zeros(width)
  {
    DecimalGroup(n, 0, width);
    PaddedZero(width);
  }
}
