/** The text of a sum of numbers is never the text of the numbers side by side, and never longer. */
module HandlebarsNumbers {
  import opened HandlebarsSemantics
  import opened HandlebarsTemplates
  import opened HandlebarsRendering
  import opened EsNumbers

  // ----- numerals -----

  function Numeral(n: int): (s: string)
    ensures s != ""
  {
    if n < 0 then "-" + Decimal(-n) else Decimal(n)
  }

  /** Numbers are written as numerals and booleans as words. */
  ghost predicate Numerals(text: Value -> string) {
    (forall n :: text(Num(n)) == Numeral(n)) && text(Bool(true)) == "true" && text(Bool(false)) == "false"
  }

  lemma NumeralChars(n: int, k: nat)
    requires k < |Numeral(n)|
    ensures '0' <= Numeral(n)[k] <= '9' || (k == 0 && n < 0 && Numeral(n)[k] == '-')
  {
    ReadDecimal(if n < 0 then -n else n);
    if n < 0 && k > 0 {
      assert Numeral(n)[k] == Decimal(-n)[k - 1];
    }
  }

  lemma {:induction false} DigitsBelow(s: string)
    requires IsDigits(s)
    ensures Read(s) < Pow(10, |s|)
    decreases s
  {
    if s != "" {
      ReadLast(s);
      DigitsBelow(s[..|s| - 1]);
    }
  }

  lemma BelowItsDigits(n: nat)
    ensures n < Pow(10, |Decimal(n)|)
  {
    ReadDecimal(n);
    DigitsBelow(Decimal(n));
  }

  lemma DecimalShorter(m: nat, n: nat)
    requires m <= n
    ensures |Decimal(m)| <= |Decimal(n)|
  {
    BelowItsDigits(n);
    DecimalLength(m, |Decimal(n)|);
  }

  lemma DecimalOfSum(m: nat, n: nat)
    ensures |Decimal(m + n)| <= |Decimal(m)| + |Decimal(n)|
  {
    hide Pow, Decimal;
    var j, k := |Decimal(m)|, |Decimal(n)|;
    BelowItsDigits(m);
    BelowItsDigits(n);
    PowAdd(10, j, k);
    PowStep(10, j - 1);
    PowStep(10, k - 1);
    SumBelowProduct(Pow(10, j), Pow(10, k));
    DecimalLength(m + n, j + k);
  }

  lemma SumBelowProduct(p: nat, q: nat)
    requires p >= 2 && q >= 2
    ensures p + q <= p * q
  {
    assert p * q == p + p * (q - 1);
    assert p * (q - 1) >= 2 * (q - 1);
  }

  lemma NumeralOfSum(m: int, n: int)
    ensures |Numeral(m + n)| <= |Numeral(m)| + |Numeral(n)|
  {
    hide Decimal;
    if m < 0 && n < 0 {
      DecimalOfSum(-m, -n);
    } else if m >= 0 && n >= 0 {
      DecimalOfSum(m, n);
    } else {
      var up, down := if m < 0 then n else m, if m < 0 then -m else -n;
      if up >= down {
        DecimalShorter(up - down, up);
      } else {
        DecimalShorter(down - up, down);
      }
    }
  }

  // ----- several numbers -----

  predicate AllNumeric(vs: seq<Value>) {
    forall i :: 0 <= i < |vs| ==> Numeric(vs[i])
  }

  function Total(vs: seq<Value>): int
    requires AllNumeric(vs)
  {
    if vs == [] then 0 else NumberOf(vs[0]) + Total(vs[1..])
  }

  lemma {:induction false} TotalConcat(a: seq<Value>, b: seq<Value>)
    requires AllNumeric(a) && AllNumeric(b)
    ensures AllNumeric(a + b) && Total(a + b) == Total(a) + Total(b)
    decreases a
  {
    if a == [] {
      assert a + b == b;
    } else {
      assert (a + b)[0] == a[0] && (a + b)[1..] == a[1..] + b;
      TotalConcat(a[1..], b);
    }
  }

  lemma NumberText(v: Value, text: Value -> string)
    requires Numerals(text) && Numeric(v)
    ensures v.Num? ==> Text(v, text) == Numeral(v.n)
    ensures v.Bool? ==> Text(v, text) == if v.b then "true" else "false"
    ensures |Numeral(NumberOf(v))| <= |Text(v, text)|
  {
  }

  lemma {:induction false} TotalNoLonger(vs: seq<Value>, text: Value -> string)
    requires Numerals(text) && AllNumeric(vs) && vs != []
    ensures |Numeral(Total(vs))| <= |TextOf(vs, text)|
    decreases vs
  {
    hide Numeral, Numerals, Text;
    NumberText(vs[0], text);
    if |vs| == 1 {
      assert vs[1..] == [] && Total(vs) == NumberOf(vs[0]);
    } else {
      TotalNoLonger(vs[1..], text);
      NumeralOfSum(NumberOf(vs[0]), Total(vs[1..]));
    }
  }

  lemma {:induction false} CharsOfText(vs: seq<Value>, i: nat, c: char, text: Value -> string)
    requires i < |vs| && c in Text(vs[i], text)
    ensures c in TextOf(vs, text)
    decreases vs
  {
    hide Text;
    if i > 0 {
      CharsOfText(vs[1..], i - 1, c, text);
    }
  }

  predicate NaturalNumbers(vs: seq<Value>) {
    forall i :: 0 <= i < |vs| ==> vs[i].Num? && vs[i].n >= 0
  }

  /** Digits side by side read as at least the sum. */
  lemma {:induction false} ReadsAtLeast(vs: seq<Value>, text: Value -> string)
    requires Numerals(text) && NaturalNumbers(vs)
    ensures AllNumeric(vs) && Total(vs) >= 0 && IsDigits(TextOf(vs, text)) && Read(TextOf(vs, text)) >= Total(vs)
    ensures vs != [] ==> TextOf(vs, text) != ""
    decreases vs
  {
    hide Numerals, Read, Decimal;
    if vs == [] {
      EmptyRead();
    } else {
      NumberText(vs[0], text);
      var n := vs[0].n;
      ReadDecimal(n);
      ReadsAtLeast(vs[1..], text);
      var rest := TextOf(vs[1..], text);
      ReadConcat(Decimal(n), rest);
      AtLeastOnce(n, Pow(10, |rest|));
    }
  }

  lemma AtLeastOnce(n: nat, p: nat)
    requires p >= 1
    ensures n * p >= n && (p >= 10 ==> n * p >= 10 * n)
  {
  }

  lemma {:induction false} TotalDiffers(vs: seq<Value>, text: Value -> string)
    requires Numerals(text) && AllNumeric(vs) && |vs| >= 2
    ensures TextOf(vs, text) != Numeral(Total(vs))
  {
    hide Numerals, Numeral, Text;
    var all := TextOf(vs, text);
    if i :| 0 <= i < |vs| && vs[i].Bool? {
      NumberText(vs[i], text);
      assert Text(vs[i], text)[if vs[i].b then 3 else 4] == 'e';
      CharsOfText(vs, i, 'e', text);
      NoLetter(Total(vs));
    } else if i :| 1 <= i < |vs| && vs[i].n < 0 {
      InnerMinus(vs, i, text);
    } else {
      assert NaturalNumbers(vs[1..]);
      DigitsDiffer(vs, text);
    }
  }

  lemma NoLetter(n: int)
    ensures 'e' !in Numeral(n)
  {
    forall k | 0 <= k < |Numeral(n)| ensures Numeral(n)[k] != 'e' {
      NumeralChars(n, k);
    }
  }

  /** A minus behind the first character. */
  lemma {:induction false} InnerMinus(vs: seq<Value>, i: nat, text: Value -> string)
    requires Numerals(text) && AllNumeric(vs) && 1 <= i < |vs| && vs[0].Num? && vs[i].Num? && vs[i].n < 0
    ensures TextOf(vs, text) != Numeral(Total(vs))
  {
    hide Numerals, Total, Decimal;
    NumberText(vs[0], text);
    NumberText(vs[i], text);
    assert Text(vs[i], text)[0] == '-';
    CharsOfText(vs[1..], i - 1, '-', text);
    MinusBehind(Text(vs[0], text), TextOf(vs[1..], text), Total(vs));
  }

  lemma MinusBehind(first: string, rest: string, m: int)
    requires first != "" && '-' in rest
    ensures first + rest != Numeral(m)
  {
    hide Numeral;
    var k :| 0 <= k < |rest| && rest[k] == '-';
    assert (first + rest)[|first| + k] == '-';
    if |first| + k < |Numeral(m)| {
      NumeralChars(m, |first| + k);
    }
  }

  /** A number followed by digits is at least ten times the number, unless it begins with a needless 0. */
  lemma {:induction false} DigitsDiffer(vs: seq<Value>, text: Value -> string)
    requires Numerals(text) && AllNumeric(vs) && |vs| >= 2 && vs[0].Num? && NaturalNumbers(vs[1..])
    ensures TextOf(vs, text) != Numeral(Total(vs))
  {
    hide Numerals, Read, Decimal, Total;
    var n, more := vs[0].n, vs[1..];
    NumberText(vs[0], text);
    ReadsAtLeast(more, text);
    var rest := TextOf(more, text);
    FirstTotal(vs);
    if n >= 0 {
      DigitsDecimal(n, rest, n + Total(more));
    } else if n + Total(more) >= 0 {
      NumeralChars(n + Total(more), 0);
    } else {
      DigitsDecimal(-n, rest, -(n + Total(more)));
      assert TextOf(vs, text) == ("-" + Decimal(-n)) + rest;
      assert ("-" + Decimal(-n)) + rest == "-" + (Decimal(-n) + rest);
      SameTail('-', Decimal(-n) + rest, Decimal(-(n + Total(more))));
    }
  }

  lemma SameTail(c: char, a: string, b: string)
    requires a != b
    ensures [c] + a != [c] + b
  {
    assert ([c] + a)[1..] == a && ([c] + b)[1..] == b;
  }

  lemma {:induction false} FirstTotal(vs: seq<Value>)
    requires AllNumeric(vs) && vs != []
    ensures AllNumeric(vs[1..]) && Total(vs) == NumberOf(vs[0]) + Total(vs[1..])
  {
  }

  lemma {:induction false} DigitsDecimal(n: nat, rest: string, m: nat)
    requires IsDigits(rest) && rest != ""
    requires m <= n + Read(rest)
    ensures Decimal(n) + rest != Decimal(m)
  {
    hide Read, Decimal;
    var p := Pow(10, |rest|);
    ReadDecimal(n);
    ReadDecimal(m);
    ReadConcat(Decimal(n), rest);
    PowStep(10, |rest| - 1);
    AtLeastOnce(n, p);
    DecimalOfZero();
    assert Read(Decimal(n) + rest) == n * p + Read(rest);
    assert n == 0 ==> (Decimal(n) + rest)[0] == '0' && |Decimal(n) + rest| >= 2;
  }

  lemma DecimalOfZero()
    ensures Decimal(0) == "0"
  {
  }
}
