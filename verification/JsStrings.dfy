/** Replacing every occurrence of a character in a JavaScript string. */
module JsStrings {

  /** `s.replace(/c/g, entity)`. */
  function ReplaceAll(s: string, c: char, entity: string): string {
    if s == "" then "" else (if s[0] == c then entity else [s[0]]) + ReplaceAll(s[1..], c, entity)
  }

  lemma {:induction false} ReplaceConcat(a: string, b: string, c: char, entity: string)
    ensures ReplaceAll(a + b, c, entity) == ReplaceAll(a, c, entity) + ReplaceAll(b, c, entity)
    decreases a
  {
    if a == "" {
      assert a + b == b;
    } else {
      ReplaceConcat(a[1..], b, c, entity);
      assert (a + b)[0] == a[0] && (a + b)[1..] == a[1..] + b;
      var first := if a[0] == c then entity else [a[0]];
      var x, y := ReplaceAll(a[1..], c, entity), ReplaceAll(b, c, entity);
      assert (first + x) + y == first + (x + y);
    }
  }

  lemma {:induction false} ReplaceAbsent(s: string, c: char, entity: string)
    requires c !in s
    ensures ReplaceAll(s, c, entity) == s
    decreases s
  {
    if s != "" {
      ReplaceAbsent(s[1..], c, entity);
    }
  }

  lemma {:induction false} ReplaceOne(c: char, d: char, entity: string)
    ensures ReplaceAll([c], d, entity) == if c == d then entity else [c]
  {
    assert [c][1..] == "";
    assert ReplaceAll("", d, entity) == "";
  }
}
