/** `quotedString` of the code generator, against a reader of JavaScript string literals. */
module HandlebarsQuoting {
  import opened Wrappers
  import opened JsStrings

  const LINE_SEPARATOR: char := '\U{2028}'
  const PARAGRAPH_SEPARATOR: char := '\U{2029}'

  /** The six passes, backslashes first. */
  function Escaped(t: string): string {
    var a := ReplaceAll(ReplaceAll(t, '\\', "\\\\"), '\"', "\\\"");
    var b := ReplaceAll(ReplaceAll(a, '\n', "\\n"), '\r', "\\r");
    ReplaceAll(ReplaceAll(b, LINE_SEPARATOR, "\\u2028"), PARAGRAPH_SEPARATOR, "\\u2029")
  }

  function QuotedString(t: string): string {
    "\"" + Escaped(t) + "\""
  }

  // ----- reading a literal, section 7.8.4 of ECMA-262 edition 5 -----

  function HexDigit(c: char): Option<nat> {
    if '0' <= c <= '9' then Some(c as nat - '0' as nat)
    else if 'a' <= c <= 'f' then Some(c as nat - 'a' as nat + 10)
    else if 'A' <= c <= 'F' then Some(c as nat - 'A' as nat + 10)
    else None
  }

  /** The character of four hexadecimal digits; surrogates are no characters here. */
  function HexChar(s: string): Option<char>
    requires |s| == 4
  {
    match (HexDigit(s[0]), HexDigit(s[1]), HexDigit(s[2]), HexDigit(s[3]))
    case (Some(a), Some(b), Some(c), Some(d)) =>
      var n := ((a * 16 + b) * 16 + c) * 16 + d;
      if n < 0xD800 || 0xE000 <= n < 0x10000 then Some(n as char) else None
    case _ => None
  }

  function SingleEscape(c: char): Option<char> {
    match c
    case 'n' => Some('\n')
    case 'r' => Some('\r')
    case 't' => Some('\t')
    case '\\' => Some('\\')
    case '\"' => Some('\"')
    case '\'' => Some('\'')
    case _ => None
  }

  predicate LineTerminator(c: char) {
    c == '\n' || c == '\r' || c == LINE_SEPARATOR || c == PARAGRAPH_SEPARATOR
  }

  function Before(c: char, rest: Option<string>): Option<string> {
    match rest case None => None case Some(s) => Some([c] + s)
  }

  /** What follows the opening quote, up to a closing quote that must be the last character. */
  function ReadRest(s: string): Option<string> {
    if s == "" || LineTerminator(s[0]) then None
    else if s[0] == '\"' then (if |s| == 1 then Some("") else None)
    else if s[0] != '\\' then Before(s[0], ReadRest(s[1..]))
    else if |s| >= 6 && s[1] == 'u' then
      (match HexChar(s[2..6]) case None => None case Some(c) => Before(c, ReadRest(s[6..])))
    else if |s| >= 2 then
      match SingleEscape(s[1]) case None => None case Some(c) => Before(c, ReadRest(s[2..]))
    else None
  }

  function ReadLiteral(s: string): Option<string> {
    if s != "" && s[0] == '\"' then ReadRest(s[1..]) else None
  }

  // ----- the literal denotes the text -----

  function EscapedChar(c: char): string {
    if c == '\\' then "\\\\"
    else if c == '\"' then "\\\""
    else if c == '\n' then "\\n"
    else if c == '\r' then "\\r"
    else if c == LINE_SEPARATOR then "\\u2028"
    else if c == PARAGRAPH_SEPARATOR then "\\u2029"
    else [c]
  }

  lemma EscapedConcat(x: string, y: string)
    ensures Escaped(x + y) == Escaped(x) + Escaped(y)
  {
    hide ReplaceAll;
    ReplaceConcat(x, y, '\\', "\\\\");
    var x1, y1 := ReplaceAll(x, '\\', "\\\\"), ReplaceAll(y, '\\', "\\\\");
    ReplaceConcat(x1, y1, '\"', "\\\"");
    var x2, y2 := ReplaceAll(x1, '\"', "\\\""), ReplaceAll(y1, '\"', "\\\"");
    ReplaceConcat(x2, y2, '\n', "\\n");
    var x3, y3 := ReplaceAll(x2, '\n', "\\n"), ReplaceAll(y2, '\n', "\\n");
    ReplaceConcat(x3, y3, '\r', "\\r");
    var x4, y4 := ReplaceAll(x3, '\r', "\\r"), ReplaceAll(y3, '\r', "\\r");
    ReplaceConcat(x4, y4, LINE_SEPARATOR, "\\u2028");
    ReplaceConcat(ReplaceAll(x4, LINE_SEPARATOR, "\\u2028"), ReplaceAll(y4, LINE_SEPARATOR, "\\u2028"),
                  PARAGRAPH_SEPARATOR, "\\u2029");
  }

  /** No pass changes what an earlier one has written. */
  lemma EscapedOne(c: char)
    ensures Escaped([c]) == EscapedChar(c)
  {
    hide ReplaceAll;
    ReplaceOne(c, '\\', "\\\\");
    ReplaceOne(c, '\"', "\\\"");
    ReplaceOne(c, '\n', "\\n");
    ReplaceOne(c, '\r', "\\r");
    ReplaceOne(c, LINE_SEPARATOR, "\\u2028");
    ReplaceOne(c, PARAGRAPH_SEPARATOR, "\\u2029");
    if c == '\\' {
      Untouched("\\\\");
      ReplaceAbsent("\\\\", '\"', "\\\"");
    } else if c == '\"' {
      Untouched("\\\"");
    } else if c == '\n' {
      ReplaceAbsent("\\n", '\r', "\\r");
      Untouched("\\n");
    } else if c == '\r' {
      Untouched("\\r");
    } else if c == LINE_SEPARATOR {
      Untouched("\\u2028");
    }
  }

  lemma {:induction false} Untouched(s: string)
    requires forall i :: 0 <= i < |s| ==> !LineTerminator(s[i])
    ensures ReplaceAll(s, '\n', "\\n") == s && ReplaceAll(s, '\r', "\\r") == s
    ensures ReplaceAll(s, LINE_SEPARATOR, "\\u2028") == s && ReplaceAll(s, PARAGRAPH_SEPARATOR, "\\u2029") == s
  {
    hide ReplaceAll;
    ReplaceAbsent(s, '\n', "\\n");
    ReplaceAbsent(s, '\r', "\\r");
    ReplaceAbsent(s, LINE_SEPARATOR, "\\u2028");
    ReplaceAbsent(s, PARAGRAPH_SEPARATOR, "\\u2029");
  }

  lemma {:induction false} CharReads(c: char, rest: string)
    ensures ReadRest(EscapedChar(c) + rest) == Before(c, ReadRest(rest))
  {
    var s := EscapedChar(c) + rest;
    if c == LINE_SEPARATOR || c == PARAGRAPH_SEPARATOR {
      assert s[2..6] == EscapedChar(c)[2..6];
      assert s[6..] == rest;
    } else if c == '\\' || c == '\"' || c == '\n' || c == '\r' {
      assert s[2..] == rest && s[1] != 'u';
    } else {
      assert s[1..] == rest;
    }
  }

  lemma {:induction false} EscapedReads(t: string)
    ensures ReadRest(Escaped(t) + "\"") == Some(t)
    decreases t
  {
    hide ReadRest, Escaped;
    if t == "" {
      NothingReads();
    } else {
      EscapedReads(t[1..]);
      assert t == [t[0]] + t[1..];
      EscapedConcat([t[0]], t[1..]);
      EscapedOne(t[0]);
      CharReads(t[0], Escaped(t[1..]) + "\"");
      assert Escaped(t) + "\"" == EscapedChar(t[0]) + (Escaped(t[1..]) + "\"");
    }
  }

  lemma NothingReads()
    ensures ReadRest(Escaped("") + "\"") == Some("")
  {
    assert Escaped("") == "";
    assert Escaped("") + "\"" == "\"";
  }

  /** The literal written for any text is one string literal and denotes that text. */
  lemma QuotedReads(t: string)
    ensures ReadLiteral(QuotedString(t)) == Some(t)
  {
    hide Escaped, ReadRest;
    EscapedReads(t);
    assert QuotedString(t)[1..] == Escaped(t) + "\"";
  }
}
