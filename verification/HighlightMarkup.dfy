/** A reader of markup, and what it reads in the text that mergeStreams writes. */
module HighlightMarkup {
  import opened Wrappers
  import opened JsStrings
  import opened HighlightText
  import opened HighlightStreams
  import opened HighlightMerge
  import opened HighlightNesting

  // ----- the reader -----

  datatype Mark =
    | Letter(c: char)
    | Start(name: string, attributes: seq<Attribute>)
    | Stop(name: string)

  /** The place of the first c, or the end. */
  function UpTo(s: string, c: char): (k: nat)
    ensures k <= |s| && c !in s[..k] && (k < |s| ==> s[k] == c)
  {
    if s == "" || s[0] == c then 0 else 1 + UpTo(s[1..], c)
  }

  /** Attributes behind a space each, with their values between double quotes. */
  function ReadAttributes(s: string): Option<seq<Attribute>>
    decreases |s|
  {
    if s == "" then Some([])
    else if s[0] != ' ' then None
    else
      var k := UpTo(s, '=');
      if k + 1 >= |s| || s[k + 1] != '"' then None
      else
        var value := s[k + 2..];
        var q := UpTo(value, '"');
        if q == |value| || k == 0 then None
        else
          match ReadAttributes(value[q + 1..])
          case None => None
          case Some(more) => Some([Attribute(s[1..k], Unescape(value[..q]))] + more)
  }

  /** What stands between the angle brackets. */
  function ReadTag(body: string): Option<Mark> {
    if body != "" && body[0] == '/' then Some(Stop(body[1..]))
    else
      var k := UpTo(body, ' ');
      match ReadAttributes(body[k..])
      case None => None
      case Some(attributes) => Some(Start(body[..k], attributes))
  }

  function Behind(mark: Option<Mark>, rest: Option<seq<Mark>>): Option<seq<Mark>> {
    if mark.None? || rest.None? then None else Some([mark.value] + rest.value)
  }

  function ReadMarkup(s: string): Option<seq<Mark>>
    decreases |s|
  {
    if s == "" then Some([])
    else if s[0] == '<' then
      var k := UpTo(s, '>');
      if k == |s| then None else Behind(ReadTag(s[1..k]), ReadMarkup(s[k + 1..]))
    else if "&amp;" <= s then Behind(Some(Letter('&')), ReadMarkup(s[5..]))
    else if "&lt;" <= s then Behind(Some(Letter('<')), ReadMarkup(s[4..]))
    else if "&gt;" <= s then Behind(Some(Letter('>')), ReadMarkup(s[4..]))
    else Behind(Some(Letter(s[0])), ReadMarkup(s[1..]))
  }

  // ----- what the pieces are to be read as -----

  function Letters(text: string): seq<Mark> {
    if text == "" then [] else [Letter(text[0])] + Letters(text[1..])
  }

  function MarksOf(p: Piece): seq<Mark> {
    match p
    case Chunk(text) => Letters(text)
    case Tag(_, start, e) => [if start then Start(Lower(e.name), e.attributes) else Stop(Lower(e.name))]
  }

  function Marks(pieces: seq<Piece>): seq<Mark> {
    if pieces == [] then [] else MarksOf(pieces[0]) + Marks(pieces[1..])
  }

  /** Capital letters become the letters at the same places of the alphabet, and everything else stays. */
  lemma {:induction false} LowerReads(s: string, i: nat)
    requires i < |s|
    ensures 'A' <= s[i] <= 'Z' ==> Lower(s)[i] as int - 'a' as int == s[i] as int - 'A' as int
    ensures !('A' <= s[i] <= 'Z') ==> Lower(s)[i] == s[i]
    decreases s
  {
    if i > 0 {
      LowerReads(s[1..], i - 1);
    }
  }

  /** Names as a document has them: no angle bracket, no space or slash in an element's, no equals sign in an attribute's. */
  predicate HtmlNames(e: Element) {
    && PlainNames(e) && ' ' !in e.name && '/' !in e.name
    && forall i :: 0 <= i < |e.attributes| ==> '=' !in e.attributes[i].name
  }

  predicate AllHtml(pieces: seq<Piece>) {
    forall i :: 0 <= i < |pieces| && pieces[i].Tag? ==> HtmlNames(pieces[i].element)
  }

  /** No attribute value has a double quote, which is written as it is. */
  predicate Quotable(attributes: seq<Attribute>) {
    forall i :: 0 <= i < |attributes| ==> '"' !in attributes[i].value
  }

  predicate PieceQuotable(p: Piece) {
    p.Tag? && p.start ==> Quotable(p.element.attributes)
  }

  predicate AllQuotable(pieces: seq<Piece>) {
    forall i :: 0 <= i < |pieces| ==> PieceQuotable(pieces[i])
  }

  // ----- attributes -----

  lemma {:induction false} UpToFirst(a: string, c: char, rest: string)
    requires c !in a
    ensures UpTo(a + [c] + rest, c) == |a|
    decreases a
  {
    var s := a + [c] + rest;
    if a != "" {
      assert s[0] == a[0] && s[1..] == a[1..] + [c] + rest;
      UpToFirst(a[1..], c, rest);
    }
  }

  lemma {:induction false} UpToNone(a: string, c: char)
    requires c !in a
    ensures UpTo(a, c) == |a|
    decreases a
  {
    if a != "" {
      UpToNone(a[1..], c);
    }
  }

  lemma {:induction false} UpToWithin(a: string, c: char, rest: string)
    requires c in a
    ensures UpTo(a + rest, c) < |a| && (a + rest)[..UpTo(a + rest, c)] == a[..UpTo(a + rest, c)]
    decreases a
  {
    var s := a + rest;
    assert s[0] == a[0] && s[1..] == a[1..] + rest;
    if a[0] != c {
      UpToWithin(a[1..], c, rest);
    }
    assert s[..UpTo(s, c)] == a[..UpTo(s, c)];
  }

  lemma {:induction false} EscapeQuotes(v: string)
    ensures '"' in Escape(v) <==> '"' in v
    decreases v
  {
    hide Escape;
    if v == "" {
      EscapeEmpty();
    } else {
      EscapeCons(v);
      EscapeQuotes(v[1..]);
    }
  }

  lemma {:induction false} UnescapeQuotes(s: string)
    requires '"' !in s
    ensures '"' !in Unescape(s)
    decreases s
  {
    if s != "" {
      if "&amp;" <= s {
        UnescapeQuotes(s[5..]);
      } else if "&lt;" <= s || "&gt;" <= s {
        UnescapeQuotes(s[4..]);
      } else {
        UnescapeQuotes(s[1..]);
      }
    }
  }

  /** One attribute at the front of the text of several. */
  lemma {:induction false} FirstAttribute(a: Attribute, rest: string)
    requires '=' !in a.name
    ensures var s := " " + a.name + "=\"" + Escape(a.value) + "\"" + rest;
            && ('"' !in a.value ==>
                  ReadAttributes(s) == match ReadAttributes(rest) case None => None case Some(more) => Some([a] + more))
            && ('"' in a.value ==> ReadAttributes(s).None? || (ReadAttributes(s).value != [] && ReadAttributes(s).value[0] != a))
  {
    hide Escape, Unescape, ReadAttributes;
    var v := Escape(a.value);
    var tail := v + "\"" + rest;
    assert " " + a.name + "=\"" + v + "\"" + rest == " " + a.name + "=\"" + tail;
    UnescapeEscape(a.value);
    EscapeQuotes(a.value);
    var q := UpTo(tail, '"');
    if '"' !in a.value {
      UpToFirst(v, '"', rest);
      assert tail == v + ['"'] + rest;
      assert tail[..q] == v && tail[q + 1..] == rest;
    } else {
      assert tail == v + ("\"" + rest);
      UpToWithin(v, '"', "\"" + rest);
      UnescapeQuotes(tail[..q]);
    }
    ValueRead(a.name, tail);
  }

  lemma {:induction false} ValueRead(name: string, tail: string)
    requires '=' !in name && UpTo(tail, '"') < |tail|
    ensures var q := UpTo(tail, '"');
            ReadAttributes(" " + name + "=\"" + tail)
            == match ReadAttributes(tail[q + 1..])
               case None => None
               case Some(more) => Some([Attribute(name, Unescape(tail[..q]))] + more)
  {
    hide Unescape;
    var s := " " + name + "=\"" + tail;
    assert s == (" " + name) + ['='] + ("\"" + tail);
    UpToFirst(" " + name, '=', "\"" + tail);
    var k := |name| + 1;
    assert UpTo(s, '=') == k && s[k + 1] == '"' && s[k + 2..] == tail && s[1..k] == name;
  }

  /** The attributes are read back exactly when no value has a double quote. */
  lemma {:induction false} AttributesRead(attributes: seq<Attribute>)
    requires forall i :: 0 <= i < |attributes| ==> '=' !in attributes[i].name
    ensures ReadAttributes(AttributeText(attributes)) == Some(attributes) <==> Quotable(attributes)
    decreases attributes
  {
    hide Escape, ReadAttributes;
    if attributes == [] {
      NoAttributes();
    } else {
      var first, more := attributes[0], attributes[1..];
      AttributesRead(more);
      FirstAttribute(first, AttributeText(more));
      assert attributes == [first] + more;
      assert Quotable(attributes) <==> '"' !in first.value && Quotable(more);
      var r := ReadAttributes(AttributeText(more));
      if r.Some? && r.value != more {
        assert ([first] + r.value)[1..] == r.value;
      }
    }
  }

  lemma NoAttributes()
    ensures ReadAttributes(AttributeText([])) == Some([])
  {
  }

  // ----- tags -----

  lemma {:induction false} LowerWithout(s: string, c: char)
    requires c !in s && !('a' <= c <= 'z')
    ensures c !in Lower(s)
    decreases s
  {
    if s != "" {
      LowerWithout(s[1..], c);
    }
  }

  lemma {:induction false} AttributeSpace(attributes: seq<Attribute>)
    ensures AttributeText(attributes) == "" || AttributeText(attributes)[0] == ' '
  {
    hide Escape;
  }

  lemma {:induction false} NameRead(name: string, more: string)
    requires ' ' !in name && '/' !in name && (more == "" || more[0] == ' ')
    ensures ReadTag(name + more)
         == match ReadAttributes(more) case None => None case Some(attributes) => Some(Start(name, attributes))
  {
    hide ReadAttributes;
    var body := name + more;
    if more == "" {
      assert body == name;
      UpToNone(name, ' ');
    } else {
      assert body == name + [' '] + more[1..];
      UpToFirst(name, ' ', more[1..]);
    }
    assert body[..|name|] == name && body[|name|..] == more;
  }

  function TagBody(start: bool, e: Element): string {
    if start then Lower(e.name) + AttributeText(e.attributes) else "/" + Lower(e.name)
  }

  lemma {:induction false} TagRead(start: bool, e: Element)
    requires HtmlNames(e)
    ensures var p := Tag(true, start, e);
            ReadTag(TagBody(start, e)) == Some(MarksOf(p)[0]) <==> PieceQuotable(p)
  {
    hide ReadAttributes, AttributeText, Quotable;
    LowerWithout(e.name, ' ');
    LowerWithout(e.name, '/');
    if start {
      AttributeSpace(e.attributes);
      NameRead(Lower(e.name), AttributeText(e.attributes));
      AttributesRead(e.attributes);
    } else {
      assert ("/" + Lower(e.name))[1..] == Lower(e.name);
    }
  }

  lemma {:induction false} TagTextRead(body: string, rest: string)
    requires '>' !in body
    ensures ReadMarkup("<" + body + ">" + rest) == Behind(ReadTag(body), ReadMarkup(rest))
  {
    hide ReadTag;
    var s := "<" + body + ">" + rest;
    assert s == ("<" + body) + ['>'] + rest;
    UpToFirst("<" + body, '>', rest);
    assert s[1..|body| + 1] == body && s[|body| + 2..] == rest;
  }

  // ----- pieces -----

  lemma {:induction false} LettersRead(text: string, rest: string)
    ensures ReadMarkup(Escape(text) + rest)
         == match ReadMarkup(rest) case None => None case Some(marks) => Some(Letters(text) + marks)
    decreases text
  {
    hide Escape, ReadMarkup;
    if text == "" {
      EscapeEmpty();
      assert "" + rest == rest;
      assert ReadMarkup(rest).Some? ==> [] + ReadMarkup(rest).value == ReadMarkup(rest).value;
    } else {
      EscapeCons(text);
      LettersRead(text[1..], rest);
      var more := Escape(text[1..]) + rest;
      assert Escape(text) + rest == Entity(text[0]) + more;
      LetterRead(text[0], more);
      assert ReadMarkup(rest).Some? ==>
        [Letter(text[0])] + (Letters(text[1..]) + ReadMarkup(rest).value) == Letters(text) + ReadMarkup(rest).value;
    }
  }

  lemma {:induction false} LetterRead(c: char, rest: string)
    ensures ReadMarkup(Entity(c) + rest) == Behind(Some(Letter(c)), ReadMarkup(rest))
  {
    hide ReadTag;
    var s := Entity(c) + rest;
    if c == '&' {
      assert s[5..] == rest;
    } else if c == '<' || c == '>' {
      assert s[4..] == rest && s[1] != 'a';
      assert c == '>' ==> s[1] == 'g';
    } else {
      assert s[1..] == rest && s[0] == c;
    }
  }

  lemma {:induction false} PieceRead(p: Piece, rest: string)
    requires p.Tag? ==> HtmlNames(p.element)
    ensures PieceQuotable(p) ==>
              ReadMarkup(PieceText(p) + rest)
              == match ReadMarkup(rest) case None => None case Some(marks) => Some(MarksOf(p) + marks)
    ensures !PieceQuotable(p) ==>
              var r := ReadMarkup(PieceText(p) + rest); r.None? || (r.value != [] && r.value[0] != MarksOf(p)[0])
  {
    hide ReadMarkup, ReadTag, Escape, Lower, AttributeText, Quotable;
    match p
    case Chunk(text) => LettersRead(text, rest);
    case Tag(_, start, e) =>
      LowerWithout(e.name, '>');
      AttributesPlain(e.attributes);
      var body := TagBody(start, e);
      assert PieceText(p) == "<" + body + ">" by {
        assert "<" + ("/" + Lower(e.name)) == "</" + Lower(e.name);
      }
      TagRead(start, e);
      TagTextRead(body, rest);
  }

  /** The markup written is read back as its pieces exactly when no attribute value has a double quote. */
  lemma {:induction false} RenderReads(pieces: seq<Piece>)
    requires AllHtml(pieces)
    ensures ReadMarkup(Render(pieces)) == Some(Marks(pieces)) <==> AllQuotable(pieces)
    decreases pieces
  {
    hide ReadMarkup, PieceText, HtmlNames, PieceQuotable, MarksOf;
    if pieces == [] {
      NothingRead();
    } else {
      var p, more := pieces[0], pieces[1..];
      RenderReads(more);
      PieceRead(p, Render(more));
      assert pieces == [p] + more;
      assert AllQuotable(pieces) <==> PieceQuotable(p) && AllQuotable(more);
      if !PieceQuotable(p) {
        TagMark(p);
      } else {
        SameRest(MarksOf(p), ReadMarkup(Render(more)), Marks(more));
      }
    }
  }

  lemma NothingRead()
    ensures ReadMarkup("") == Some([])
  {
  }

  lemma TagMark(p: Piece)
    requires !PieceQuotable(p)
    ensures MarksOf(p) != []
  {
  }

  lemma SameRest(first: seq<Mark>, a: Option<seq<Mark>>, b: seq<Mark>)
    ensures a.Some? ==> (first + a.value == first + b <==> a.value == b)
  {
    if a.Some? {
      assert (first + a.value)[|first|..] == a.value && (first + b)[|first|..] == b;
    }
  }

  // ----- documents -----

  /** An element as its tag names it. */
  datatype Label = Label(name: string, attributes: seq<Attribute>)

  /** A character of the text and the elements around it, from the outside in. */
  datatype Placed = Placed(c: char, inside: seq<Label>)

  datatype Document = Document(text: seq<Placed>, open: seq<Label>)

  /** Well-nested markup; a closing tag must name the innermost open element, and some elements are not waited for. */
  function ReadDocument(marks: seq<Mark>, open: seq<Label>): Option<Document>
    decreases marks
  {
    if marks == [] then Some(Document([], open))
    else
      match marks[0]
      case Letter(c) =>
        (match ReadDocument(marks[1..], open)
         case None => None
         case Some(d) => Some(Document([Placed(c, open)] + d.text, d.open)))
      case Start(name, attributes) => ReadDocument(marks[1..], if NeverClosed(name) then open else open + [Label(name, attributes)])
      case Stop(name) =>
        if open != [] && open[|open| - 1].name == name then ReadDocument(marks[1..], open[..|open| - 1]) else None
  }

  function LabelOf(e: Element): Label {
    Label(Lower(e.name), e.attributes)
  }

  function Labels(open: seq<Element>): (labels: seq<Label>)
    ensures |labels| == |open|
  {
    seq(|open|, i requires 0 <= i < |open| => LabelOf(open[i]))
  }

  function Places(spots: seq<Spot>): (placed: seq<Placed>)
    ensures |placed| == |spots|
  {
    seq(|spots|, i requires 0 <= i < |spots| => Placed(spots[i].c, Labels(spots[i].open)))
  }

  lemma {:induction false} LettersDocument(text: string, rest: seq<Mark>, open: seq<Element>)
    ensures ReadDocument(Letters(text) + rest, Labels(open))
         == match ReadDocument(rest, Labels(open))
            case None => None
            case Some(d) => Some(Document(Places(SpotsOf(text, open)) + d.text, d.open))
    decreases text
  {
    hide Labels;
    var marks := Letters(text) + rest;
    if text == "" {
      assert marks == rest;
      assert forall d: seq<Placed> :: [] + d == d;
    } else {
      assert marks[0] == Letter(text[0]) && marks[1..] == Letters(text[1..]) + rest;
      LettersDocument(text[1..], rest, open);
      var spots := SpotsOf(text, open);
      assert Places(spots) == [Placed(text[0], Labels(open))] + Places(SpotsOf(text[1..], open));
      if ReadDocument(rest, Labels(open)).Some? {
        var d := ReadDocument(rest, Labels(open)).value;
        assert [Placed(text[0], Labels(open))] + (Places(SpotsOf(text[1..], open)) + d.text) == Places(spots) + d.text;
      }
    }
  }

  /** Markup that is nested as pieces is nested as text, with the same elements around every character. */
  lemma {:induction false} PiecesDocument(pieces: seq<Piece>, open: seq<Element>)
    requires Read(pieces, open).Some?
    ensures var d := Read(pieces, open).value;
            ReadDocument(Marks(pieces), Labels(open)) == Some(Document(Places(d.spots), Labels(d.open)))
    decreases pieces
  {
    hide SpotsOf, NeverClosed, Labels, Places, ReadDocument;
    if pieces == [] {
      NoMarks(open);
    } else {
      var more := pieces[1..];
      match pieces[0]
      case Chunk(text) =>
        PiecesDocument(more, open);
        LettersDocument(text, Marks(more), open);
        PlacesJoin(SpotsOf(text, open), Read(more, open).value.spots);
      case Tag(_, start, e) =>
        var next := if start then Push(open, Event(true, 0, e)) else Init(open);
        PiecesDocument(more, next);
        TagDocument(start, e, open, Marks(more));
    }
  }

  lemma NoMarks(open: seq<Element>)
    ensures ReadDocument([], Labels(open)) == Some(Document(Places([]), Labels(open)))
  {
    assert Places([]) == [];
  }

  lemma PlacesJoin(a: seq<Spot>, b: seq<Spot>)
    ensures Places(a + b) == Places(a) + Places(b)
  {
    hide Labels;
  }

  lemma {:induction false} TagDocument(start: bool, e: Element, open: seq<Element>, rest: seq<Mark>)
    requires !start ==> open != [] && Last(open) == e
    ensures ReadDocument(MarksOf(Tag(true, start, e)) + rest, Labels(open))
         == ReadDocument(rest, Labels(if start then Push(open, Event(true, 0, e)) else Init(open)))
  {
    hide NeverClosed, Lower;
    var mark := MarksOf(Tag(true, start, e))[0];
    assert ([mark] + rest)[1..] == rest;
    assert Labels(open + [e]) == Labels(open) + [LabelOf(e)];
    if !start {
      assert Labels(Init(open)) == Labels(open)[..|open| - 1];
    }
  }

  predicate EventsFit(events: seq<Event>) {
    forall i :: 0 <= i < |events| ==> HtmlNames(events[i].element) && Quotable(events[i].element.attributes)
  }

  predicate ElementsFit(elements: seq<Element>) {
    forall i :: 0 <= i < |elements| ==> HtmlNames(elements[i]) && Quotable(elements[i].attributes)
  }

  predicate PiecesFit(pieces: seq<Piece>) {
    forall i :: 0 <= i < |pieces| && pieces[i].Tag? ==> HtmlNames(pieces[i].element) && Quotable(pieces[i].element.attributes)
  }

  lemma FitBoth(a: seq<Piece>, b: seq<Piece>)
    requires PiecesFit(a) && PiecesFit(b)
    ensures PiecesFit(a + b)
  {
  }

  lemma {:induction false} TagsFit(events: seq<Event>)
    requires EventsFit(events)
    ensures PiecesFit(TagsOf(events))
    decreases events
  {
    hide HtmlNames, Quotable;
    if events != [] {
      TagsFit(events[1..]);
      FitBoth([TagOf(true, events[0])], TagsOf(events[1..]));
    }
  }

  lemma {:induction false} OpeningFit(open: seq<Element>)
    requires ElementsFit(open)
    ensures PiecesFit(Opening(open)) && PiecesFit(Closing(open))
    decreases open
  {
    hide HtmlNames, Quotable;
    if open != [] {
      OpeningFit(open[1..]);
      OpeningFit(Init(open));
      FitBoth([Tag(false, true, open[0])], Opening(open[1..]));
      FitBoth([Tag(false, false, Last(open))], Closing(Init(open)));
    }
  }

  /** mergeStreams writes no elements but those of the two streams. */
  lemma {:induction false} MergeFits(e: seq<Event>, n: seq<Event>, from: nat, open: seq<Element>, text: string)
    requires EventsFit(e) && EventsFit(n) && ElementsFit(open)
    ensures PiecesFit(Merge(e, n, from, open, text))
    decreases |e| + |n|
  {
    hide HtmlNames, Quotable, PicksOriginal, Taken, Substr, PiecesFit, ElementsFit, TagsOf, Opening, Closing, Tracked, EventsFit;
    if e == [] && n == [] {
      ChunkFits(text[if from <= |text| then from else |text|..]);
    } else {
      PicksSome(e, n);
      if PicksOriginal(e, n) {
        var at, k := e[0].offset, Taken(e, n, e[0].offset);
        PartFits(e, k);
        MergeFits(e[k..], n, at, open, text);
        OriginalFits(Substr(text, from, at - from), e[..k], open, Merge(e[k..], n, at, open, text));
      } else {
        var at := n[0].offset;
        PartFits(n, 1);
        FirstFits(n);
        TrackedFits(open, n[0]);
        MergeFits(e, n[1..], at, Tracked(open, n[0]), text);
        HighlightFits(Substr(text, from, at - from), n[0], Merge(e, n[1..], at, Tracked(open, n[0]), text));
      }
    }
  }

  lemma PartFits(e: seq<Event>, k: nat)
    requires EventsFit(e) && k <= |e|
    ensures EventsFit(e[..k]) && EventsFit(e[k..])
  {
    hide HtmlNames, Quotable;
  }

  lemma FirstFits(e: seq<Event>)
    requires EventsFit(e) && e != []
    ensures HtmlNames(e[0].element) && Quotable(e[0].element.attributes)
  {
    hide HtmlNames, Quotable;
  }

  lemma TrackedFits(open: seq<Element>, e: Event)
    requires ElementsFit(open) && HtmlNames(e.element) && Quotable(e.element.attributes)
    ensures ElementsFit(Tracked(open, e))
  {
    hide HtmlNames, Quotable;
  }

  lemma OriginalFits(chunk: string, e: seq<Event>, open: seq<Element>, tail: seq<Piece>)
    requires EventsFit(e) && ElementsFit(open) && PiecesFit(tail)
    ensures PiecesFit([Chunk(chunk)] + (Closing(open) + (TagsOf(e) + (Opening(open) + tail))))
  {
    hide EventsFit, ElementsFit, PiecesFit, TagsOf, Opening, Closing;
    ChunkFits(chunk);
    TagsFit(e);
    OpeningFit(open);
    FitBoth(Opening(open), tail);
    FitBoth(TagsOf(e), Opening(open) + tail);
    FitBoth(Closing(open), TagsOf(e) + (Opening(open) + tail));
    FitBoth([Chunk(chunk)], Closing(open) + (TagsOf(e) + (Opening(open) + tail)));
  }

  lemma HighlightFits(chunk: string, e: Event, tail: seq<Piece>)
    requires HtmlNames(e.element) && Quotable(e.element.attributes) && PiecesFit(tail)
    ensures PiecesFit([Chunk(chunk)] + ([TagOf(false, e)] + tail))
  {
    hide HtmlNames, Quotable, PiecesFit;
    ChunkFits(chunk);
    OneTagFits(e);
    FitBoth([TagOf(false, e)], tail);
    FitBoth([Chunk(chunk)], [TagOf(false, e)] + tail);
  }

  lemma ChunkFits(text: string)
    ensures PiecesFit([Chunk(text)])
  {
  }

  lemma OneTagFits(e: Event)
    requires HtmlNames(e.element) && Quotable(e.element.attributes)
    ensures PiecesFit([TagOf(false, e)])
  {
    hide HtmlNames, Quotable;
  }

  /**
   The markup that mergeStreams writes, read again: nested, every character unescaped and in order, and around it the elements
   that the original stream has open there and, inside them, those of the highlighting, with their names and attributes.
   */
  lemma MergedMarkup(e: seq<Event>, n: seq<Event>, text: string)
    requires Ordered(e, 0, |text|) && Ordered(n, 0, |text|) && Nested(e, []) && Nested(n, []) && AllClosable(n)
    requires EventsFit(e) && EventsFit(n)
    ensures var l := Render(Merge(e, n, 0, [], text));
            && ReadMarkup(l).Some? && ReadDocument(ReadMarkup(l).value, []).Some?
            && var d := ReadDocument(ReadMarkup(l).value, []).value;
               && d.open == [] && |d.text| == |text|
               && forall c :: 0 <= c < |text| ==> d.text[c] == Placed(text[c], Labels(OpenAt(e, [], c)) + Labels(OpenAt(n, [], c)))
  {
    hide Read, Merge, ReadMarkup, ReadDocument, Render, Ordered, Nested, AllClosable, EventsFit, PiecesFit, Labels, OpenAt;
    var spots := MergeIsFaithful(e, n, text);
    var pieces := Merge(e, n, 0, [], text);
    MergeFits(e, n, 0, [], text);
    FitsRead(pieces);
    PiecesDocument(pieces, []);
    NoLabels();
    forall c | 0 <= c < |text|
      ensures Places(spots)[c] == Placed(text[c], Labels(OpenAt(e, [], c)) + Labels(OpenAt(n, [], c)))
    {
      assert spots[c - 0] == Spot(text[c], OpenAt(e, [], c) + OpenAt(n, [], c));
      LabelsJoin(OpenAt(e, [], c), OpenAt(n, [], c));
    }
  }

  lemma NoLabels()
    ensures Labels([]) == [] && ElementsFit([])
  {
  }

  lemma LabelsJoin(a: seq<Element>, b: seq<Element>)
    ensures Labels(a + b) == Labels(a) + Labels(b)
  {
    hide LabelOf;
  }

  lemma FitsRead(pieces: seq<Piece>)
    requires PiecesFit(pieces)
    ensures ReadMarkup(Render(pieces)) == Some(Marks(pieces))
  {
    hide ReadMarkup, Render, HtmlNames, Quotable;
    RenderReads(pieces);
  }

  /** And so for two trees over one text: every character of the markup has all its ancestors in both. */
  lemma MergedTreesMarkup(original: seq<Dom>, highlighted: seq<Dom>, text: string)
    requires Length(original) == Length(highlighted) == |text|
    requires Clean(original) && AllClosable(Stream(highlighted, 0))
    requires EventsFit(Stream(original, 0)) && EventsFit(Stream(highlighted, 0))
    ensures var l := Render(Merge(Stream(original, 0), Stream(highlighted, 0), 0, [], text));
            && ReadMarkup(l).Some? && ReadDocument(ReadMarkup(l).value, []).Some?
            && var d := ReadDocument(ReadMarkup(l).value, []).value;
               && d.open == [] && |d.text| == |text|
               && forall c :: 0 <= c < |text| ==>
                    d.text[c] == Placed(text[c], Labels(Characters(original, [], true)[c].open) + Labels(Characters(highlighted, [], true)[c].open))
  {
    hide Read, Merge, ReadMarkup, ReadDocument, Render, Nested, AllClosable, OpenAt, Unclosed, RawText, Originals;
    hide Characters, Stream, Length, Clean, EventsFit, PiecesFit, Labels;
    var spots := MergedTrees(original, highlighted, text);
    var e, n := Stream(original, 0), Stream(highlighted, 0);
    var pieces := Merge(e, n, 0, [], text);
    MergeFits(e, n, 0, [], text);
    FitsRead(pieces);
    PiecesDocument(pieces, []);
    NoLabels();
    forall c | 0 <= c < |text|
      ensures Places(spots)[c] == Placed(text[c], Labels(Characters(original, [], true)[c].open) + Labels(Characters(highlighted, [], true)[c].open))
    {
      LabelsJoin(Characters(original, [], true)[c].open, Characters(highlighted, [], true)[c].open);
    }
  }

  /** A value that is a double quote is written as it is, and the markup does not say it. */
  lemma {:induction false} QuoteIsLost(id: int)
    ensures var e := Element(id, "A", [Attribute("t", "\"")]);
            OpenTag(e) == "<a t=\"\"\">" && ReadMarkup(Render([Tag(true, true, e)])) != Some([Start("a", e.attributes)])
  {
    hide ReadMarkup, Escape, Render;
    var a := Attribute("t", "\"");
    var e := Element(id, "A", [a]);
    EscapeOne('"');
    assert [a][1..] == [] && AttributeText([]) == "";
    assert AttributeText([a]) == " t=\"\"\"";
    assert Lower("A") == "a" by {
      assert "A"[1..] == "" && Lower("") == "";
    }
    var p := Tag(true, true, e);
    assert !PieceQuotable(p) by {
      assert '"' in e.attributes[0].value;
    }
    assert MarksOf(p) == [Start("a", e.attributes)];
    assert [p][1..] == [] && Marks([]) == [] && Marks([p]) == MarksOf(p);
    assert !AllQuotable([p]) by {
      assert [p][0] == p;
    }
    RenderReads([p]);
  }
}
