/** Escaping, markup pieces and their text in the bundled highlight.js. */
module HighlightText {
  import opened JsStrings

  // ----- escape -----

  function Escape(s: string): string {
    ReplaceAll(ReplaceAll(ReplaceAll(s, '&', "&amp;"), '<', "&lt;"), '>', "&gt;")
  }

  function Entity(c: char): string {
    match c
    case '&' => "&amp;"
    case '<' => "&lt;"
    case '>' => "&gt;"
    case _ => [c]
  }

  /** The three passes do not see each other's output. */
  lemma EscapeConcat(a: string, b: string)
    ensures Escape(a + b) == Escape(a) + Escape(b)
  {
    ReplaceConcat(a, b, '&', "&amp;");
    var a1, b1 := ReplaceAll(a, '&', "&amp;"), ReplaceAll(b, '&', "&amp;");
    ReplaceConcat(a1, b1, '<', "&lt;");
    ReplaceConcat(ReplaceAll(a1, '<', "&lt;"), ReplaceAll(b1, '<', "&lt;"), '>', "&gt;");
  }

  lemma EscapeOne(c: char)
    ensures Escape([c]) == Entity(c)
  {
    hide ReplaceAll;
    ReplaceOne(c, '&', "&amp;");
    ReplaceOne(c, '<', "&lt;");
    ReplaceOne(c, '>', "&gt;");
    ReplaceAbsent("&amp;", '<', "&lt;");
    ReplaceAbsent("&amp;", '>', "&gt;");
    ReplaceAbsent("&lt;", '>', "&gt;");
  }

  /** An HTML reader of the three entities. */
  function Unescape(s: string): string {
    if s == "" then ""
    else if "&amp;" <= s then "&" + Unescape(s[5..])
    else if "&lt;" <= s then "<" + Unescape(s[4..])
    else if "&gt;" <= s then ">" + Unescape(s[4..])
    else [s[0]] + Unescape(s[1..])
  }

  lemma EscapeCons(s: string)
    requires s != ""
    ensures Escape(s) == Entity(s[0]) + Escape(s[1..])
  {
    hide Escape;
    assert s == [s[0]] + s[1..];
    EscapeConcat([s[0]], s[1..]);
    EscapeOne(s[0]);
  }

  lemma {:induction false} EntityReads(c: char, rest: string)
    ensures Unescape(Entity(c) + rest) == [c] + Unescape(rest)
  {
    var s := Entity(c) + rest;
    if c == '&' {
      assert s[5..] == rest;
    } else if c == '<' || c == '>' {
      assert s[4..] == rest && s[1] != 'a';
      assert c == '>' ==> s[1] == 'g';
    } else {
      assert s[1..] == rest && s[0] == c;
    }
  }

  lemma {:induction false} UnescapeEscape(s: string)
    ensures Unescape(Escape(s)) == s
    ensures '<' !in Escape(s) && '>' !in Escape(s)
    decreases s
  {
    hide Escape, Unescape;
    if s == "" {
      EscapeEmpty();
    } else {
      EscapeCons(s);
      UnescapeEscape(s[1..]);
      EntityReads(s[0], Escape(s[1..]));
    }
  }

  lemma EscapeEmpty()
    ensures Escape("") == "" && Unescape("") == ""
  {
  }

  // ----- what is left of markup when the tags are dropped -----

  function StripTags(s: string, inTag: bool): string {
    if s == "" then ""
    else if inTag then StripTags(s[1..], s[0] != '>')
    else if s[0] == '<' then StripTags(s[1..], true)
    else [s[0]] + StripTags(s[1..], false)
  }

  lemma {:induction false} StripText(text: string, rest: string)
    requires '<' !in text
    ensures StripTags(text + rest, false) == text + StripTags(rest, false)
    decreases text
  {
    if text == "" {
      assert text + rest == rest;
    } else {
      assert (text + rest)[1..] == text[1..] + rest;
      StripText(text[1..], rest);
    }
  }

  lemma {:induction false} StripInside(body: string, rest: string)
    requires '>' !in body
    ensures StripTags(body + ">" + rest, true) == StripTags(rest, false)
    decreases body
  {
    var s := body + ">" + rest;
    if body == "" {
      assert s[1..] == rest;
    } else {
      assert s[1..] == body[1..] + ">" + rest;
      StripInside(body[1..], rest);
    }
  }

  lemma {:induction false} StripTag(body: string, rest: string)
    requires '>' !in body
    ensures StripTags("<" + body + ">" + rest, false) == StripTags(rest, false)
  {
    var s := "<" + body + ">" + rest;
    assert s[1..] == body + ">" + rest;
    StripInside(body, rest);
  }

  // ----- elements, tags and pieces -----

  datatype Attribute = Attribute(name: string, value: string)

  /** A DOM element without its children; `id` stands for its identity. */
  datatype Element = Element(id: int, name: string, attributes: seq<Attribute>)

  function LowerChar(c: char): char {
    if 'A' <= c <= 'Z' then (c as int + 32) as char else c
  }

  function Lower(s: string): (r: string)
    ensures |r| == |s|
  {
    if s == "" then "" else [LowerChar(s[0])] + Lower(s[1..])
  }

  function AttributeText(attributes: seq<Attribute>): string {
    if attributes == [] then ""
    else " " + attributes[0].name + "=\"" + Escape(attributes[0].value) + "\"" + AttributeText(attributes[1..])
  }

  function OpenTag(e: Element): string {
    "<" + Lower(e.name) + AttributeText(e.attributes) + ">"
  }

  function CloseTag(e: Element): string {
    "</" + Lower(e.name) + ">"
  }

  /** What the markup being written consists of: raw text, written escaped, and tags of either stream. */
  datatype Piece =
    | Chunk(text: string)
    | Tag(original: bool, start: bool, element: Element)

  function PieceText(p: Piece): string {
    match p
    case Chunk(text) => Escape(text)
    case Tag(_, start, e) => if start then OpenTag(e) else CloseTag(e)
  }

  function Render(pieces: seq<Piece>): string {
    if pieces == [] then "" else PieceText(pieces[0]) + Render(pieces[1..])
  }

  lemma {:induction false} RenderConcat(a: seq<Piece>, b: seq<Piece>)
    ensures Render(a + b) == Render(a) + Render(b)
    decreases a
  {
    hide PieceText;
    if a == [] {
      assert a + b == b;
    } else {
      RenderConcat(a[1..], b);
      assert (a + b)[1..] == a[1..] + b;
    }
  }

  lemma RenderOne(p: Piece)
    ensures Render([p]) == PieceText(p)
  {
    hide PieceText;
    assert [p][1..] == [];
    assert Render([]) == "";
  }

  function RawText(pieces: seq<Piece>): string {
    if pieces == [] then "" else (if pieces[0].Chunk? then pieces[0].text else "") + RawText(pieces[1..])
  }

  /** Element and attribute names as HTML has them. */
  predicate PlainNames(e: Element) {
    '>' !in e.name && forall i :: 0 <= i < |e.attributes| ==> '>' !in e.attributes[i].name
  }

  predicate AllPlain(pieces: seq<Piece>) {
    forall i :: 0 <= i < |pieces| && pieces[i].Tag? ==> PlainNames(pieces[i].element)
  }

  lemma {:induction false} LowerPlain(s: string)
    requires '>' !in s
    ensures '>' !in Lower(s)
    decreases s
  {
    if s != "" {
      LowerPlain(s[1..]);
    }
  }

  lemma {:induction false} AttributesPlain(attributes: seq<Attribute>)
    requires forall i :: 0 <= i < |attributes| ==> '>' !in attributes[i].name
    ensures '>' !in AttributeText(attributes)
    decreases attributes
  {
    hide Escape;
    if attributes != [] {
      UnescapeEscape(attributes[0].value);
      AttributesPlain(attributes[1..]);
    }
  }

  lemma {:induction false} StripPiece(p: Piece, rest: string)
    requires p.Tag? ==> PlainNames(p.element)
    ensures StripTags(PieceText(p) + rest, false)
         == (if p.Chunk? then Escape(p.text) else "") + StripTags(rest, false)
  {
    hide Escape, StripTags, AttributeText, Lower;
    match p
    case Chunk(text) =>
      UnescapeEscape(text);
      StripText(Escape(text), rest);
    case Tag(_, start, e) =>
      LowerPlain(e.name);
      AttributesPlain(e.attributes);
      var body := if start then Lower(e.name) + AttributeText(e.attributes) else "/" + Lower(e.name);
      assert PieceText(p) == "<" + body + ">" by {
        assert "<" + ("/" + Lower(e.name)) == "</" + Lower(e.name);
      }
      StripTag(body, rest);
  }

  /** Dropping the tags of the written markup leaves exactly the escaped text. */
  lemma {:induction false} StripRender(pieces: seq<Piece>)
    requires AllPlain(pieces)
    ensures StripTags(Render(pieces), false) == Escape(RawText(pieces))
    decreases pieces
  {
    hide Escape, PieceText;
    if pieces == [] {
      EscapeEmpty();
    } else {
      StripRender(pieces[1..]);
      StripPiece(pieces[0], Render(pieces[1..]));
      var t := if pieces[0].Chunk? then pieces[0].text else "";
      EscapeConcat(t, RawText(pieces[1..]));
      EscapeEmpty();
    }
  }
}
