/** What a reader of markup reads in the text that the highlighter writes. */
module HighlightSpanMarkup {
  import opened Wrappers
  import opened HighlightText
  import opened HighlightStreams
  import opened HighlightMerge
  import opened HighlightModes
  import opened HighlightSpans
  import opened HighlightMarkup
  import opened HighlightChoices

  /** Class names are written as they are. */
  predicate ClassFits(name: string) {
    '"' !in name && '>' !in name && '&' !in name
  }

  predicate ClassesFit(spans: seq<Span>) {
    forall i :: 0 <= i < |spans| && spans[i].Open? ==> ClassFits(spans[i].className)
  }

  /** A span element with the class, behind the prefix unless it names a language. */
  function SpanLabel(prefix: string, s: Span): Label
    requires s.Open?
  {
    Label("span", [Attribute("class", if s.prefixed then prefix + s.className else s.className)])
  }

  function SpanMarks(prefix: string, s: Span): seq<Mark> {
    match s
    case Raw(text) => Letters(text)
    case Open(_, _) => [Start("span", SpanLabel(prefix, s).attributes)]
    case Close => [Stop("span")]
  }

  function SpansMarks(prefix: string, spans: seq<Span>): seq<Mark> {
    if spans == [] then [] else SpanMarks(prefix, spans[0]) + SpansMarks(prefix, spans[1..])
  }

  lemma {:induction false} UnescapePlain(s: string)
    requires '&' !in s
    ensures Unescape(s) == s
    decreases s
  {
    if s != "" {
      UnescapePlain(s[1..]);
      assert s == [s[0]] + s[1..];
    }
  }

  lemma {:induction false} ClassAttribute(class_: string)
    requires ClassFits(class_)
    ensures ReadAttributes(" class=\"" + class_ + "\"") == Some([Attribute("class", class_)])
  {
    hide ReadAttributes, Unescape, UpTo;
    var tail := class_ + "\"";
    UpToFirst(class_, '"', "");
    assert tail == class_ + ['"'] + "";
    assert tail[..|class_|] == class_ && tail[|class_| + 1..] == "";
    ValueRead("class", tail);
    UnescapePlain(class_);
    NothingMore();
    assert " " + "class" + "=\"" + tail == " class=\"" + class_ + "\"";
    assert [Attribute("class", class_)] + [] == [Attribute("class", class_)];
  }

  lemma NothingMore()
    ensures ReadAttributes("") == Some([])
  {
  }

  lemma {:induction false} ClassRead(class_: string)
    requires ClassFits(class_)
    ensures ReadTag("span class=\"" + class_ + "\"") == Some(Start("span", [Attribute("class", class_)]))
  {
    hide ReadAttributes, ReadTag;
    var more := " class=\"" + class_ + "\"";
    ClassAttribute(class_);
    NameRead("span", more);
    assert "span" + more == "span class=\"" + class_ + "\"";
  }

  lemma {:induction false} SpanRead(prefix: string, s: Span, rest: string)
    requires ClassFits(prefix) && (s.Open? ==> ClassFits(s.className))
    ensures ReadMarkup(SpanString(prefix, s) + rest)
         == match ReadMarkup(rest) case None => None case Some(marks) => Some(SpanMarks(prefix, s) + marks)
  {
    hide ReadMarkup, ReadTag, Escape;
    match s
    case Raw(text) => LettersRead(text, rest);
    case Open(name, prefixed) =>
      var class_ := if prefixed then prefix + name else name;
      ClassRead(class_);
      var body := "span class=\"" + class_ + "\"";
      assert OpenBody(if prefixed then prefix else "", name) == body by {
        assert "" + name == name;
      }
      TagTextRead(body, rest);
    case Close =>
      ClosingTag();
      TagTextRead("/span", rest);
  }

  lemma ClosingTag()
    ensures "</span>" == "<" + "/span" + ">" && ReadTag("/span") == Some(Stop("span"))
  {
    assert "/span"[1..] == "span";
  }

  lemma {:induction false} SpansRead(prefix: string, spans: seq<Span>)
    requires ClassFits(prefix) && ClassesFit(spans)
    ensures ReadMarkup(SpansString(prefix, spans)) == Some(SpansMarks(prefix, spans))
    decreases spans
  {
    hide ReadMarkup, SpanString, SpanMarks, ClassFits;
    if spans == [] {
      NothingRead();
    } else {
      SpansRead(prefix, spans[1..]);
      SpanRead(prefix, spans[0], SpansString(prefix, spans[1..]));
    }
  }

  // ----- as a document -----

  function SpanLabels(prefix: string, open: seq<Span>): (labels: seq<Label>)
    requires AllOpen(open)
    ensures |labels| == |open|
  {
    seq(|open|, i requires 0 <= i < |open| => SpanLabel(prefix, open[i]))
  }

  predicate AllOpen(open: seq<Span>) {
    forall i :: 0 <= i < |open| ==> open[i].Open?
  }

  predicate ShadesOpen(shades: seq<Shade>) {
    forall i :: 0 <= i < |shades| ==> AllOpen(shades[i].open)
  }

  function ShadePlaces(prefix: string, shades: seq<Shade>): (placed: seq<Placed>)
    requires ShadesOpen(shades)
    ensures |placed| == |shades|
  {
    seq(|shades|, i requires 0 <= i < |shades| => Placed(shades[i].c, SpanLabels(prefix, shades[i].open)))
  }

  lemma SpanStaysOpen()
    ensures !NeverClosed("span")
  {
    var name := "span";
    forall i | 0 <= i <= |name|
      ensures !StartsAt(name, i, "br") && !StartsAt(name, i, "hr") && !StartsAt(name, i, "img") && !StartsAt(name, i, "input")
    {
      if i < |name| {
        assert name[i..][0] == name[i];
        assert name[i] == 's' || name[i] == 'p' || name[i] == 'a' || name[i] == 'n';
      }
    }
  }

  lemma {:induction false} LettersPlaced(prefix: string, text: string, rest: seq<Mark>, open: seq<Label>)
    ensures ReadDocument(Letters(text) + rest, open)
         == match ReadDocument(rest, open)
            case None => None
            case Some(d) => Some(Document(EachPlaced(text, open) + d.text, d.open))
    decreases text
  {
    var marks := Letters(text) + rest;
    if text == "" {
      assert marks == rest;
      assert forall d: seq<Placed> :: [] + d == d;
    } else {
      assert marks[0] == Letter(text[0]) && marks[1..] == Letters(text[1..]) + rest;
      LettersPlaced(prefix, text[1..], rest, open);
      assert EachPlaced(text, open) == [Placed(text[0], open)] + EachPlaced(text[1..], open);
      if ReadDocument(rest, open).Some? {
        var d := ReadDocument(rest, open).value;
        assert [Placed(text[0], open)] + (EachPlaced(text[1..], open) + d.text) == EachPlaced(text, open) + d.text;
      }
    }
  }

  function EachPlaced(text: string, open: seq<Label>): (placed: seq<Placed>)
    ensures |placed| == |text|
  {
    seq(|text|, i requires 0 <= i < |text| => Placed(text[i], open))
  }

  /** Nested spans are a nested document, with the spans around each character that Shades gives. */
  lemma {:induction false} SpansDocument(prefix: string, spans: seq<Span>, open: seq<Span>)
    requires AllOpen(open) && SpanWalk(spans, open).Some?
    ensures ShadesOpen(Shades(spans, open)) && AllOpen(SpanWalk(spans, open).value)
    ensures ReadDocument(SpansMarks(prefix, spans), SpanLabels(prefix, open))
         == Some(Document(ShadePlaces(prefix, Shades(spans, open)), SpanLabels(prefix, SpanWalk(spans, open).value)))
    decreases spans
  {
    hide ReadDocument, SpanLabels, ShadePlaces;
    if spans == [] {
      NoPlaces(prefix, open);
    } else {
      var more := spans[1..];
      match spans[0]
      case Raw(text) =>
        SpansDocument(prefix, more, open);
        LettersPlaced(prefix, text, SpansMarks(prefix, more), SpanLabels(prefix, open));
        EachShade(prefix, text, open, Shades(more, open));
      case Open(_, _) =>
        SpansDocument(prefix, more, open + [spans[0]]);
        OpenDocument(prefix, spans[0], open, SpansMarks(prefix, more));
      case Close =>
        SpansDocument(prefix, more, open[..|open| - 1]);
        CloseDocument(prefix, open, SpansMarks(prefix, more));
    }
  }

  lemma NoPlaces(prefix: string, open: seq<Span>)
    requires AllOpen(open)
    ensures ReadDocument([], SpanLabels(prefix, open)) == Some(Document(ShadePlaces(prefix, []), SpanLabels(prefix, open)))
  {
    assert ShadePlaces(prefix, []) == [];
  }

  lemma EachShade(prefix: string, text: string, open: seq<Span>, rest: seq<Shade>)
    requires AllOpen(open) && ShadesOpen(rest)
    ensures ShadesOpen(Each(text, open) + rest)
    ensures ShadePlaces(prefix, Each(text, open) + rest) == EachPlaced(text, SpanLabels(prefix, open)) + ShadePlaces(prefix, rest)
  {
    hide SpanLabels;
    var all := Each(text, open) + rest;
    assert forall i :: 0 <= i < |all| ==> all[i] == if i < |text| then Shade(text[i], open) else rest[i - |text|];
  }

  lemma {:induction false} OpenDocument(prefix: string, s: Span, open: seq<Span>, rest: seq<Mark>)
    requires AllOpen(open) && s.Open?
    ensures AllOpen(open + [s])
    ensures ReadDocument(SpanMarks(prefix, s) + rest, SpanLabels(prefix, open)) == ReadDocument(rest, SpanLabels(prefix, open + [s]))
  {
    hide NeverClosed;
    SpanStaysOpen();
    var mark := SpanMarks(prefix, s)[0];
    assert ([mark] + rest)[1..] == rest;
    assert SpanLabels(prefix, open + [s]) == SpanLabels(prefix, open) + [SpanLabel(prefix, s)];
  }

  lemma {:induction false} CloseDocument(prefix: string, open: seq<Span>, rest: seq<Mark>)
    requires AllOpen(open) && open != []
    ensures ReadDocument(SpanMarks(prefix, Close) + rest, SpanLabels(prefix, open))
         == ReadDocument(rest, SpanLabels(prefix, open[..|open| - 1]))
  {
    assert ([Stop("span")] + rest)[1..] == rest;
    assert SpanLabels(prefix, open[..|open| - 1]) == SpanLabels(prefix, open)[..|open| - 1];
  }

  lemma {:induction false} ShadesText(spans: seq<Span>, open: seq<Span>)
    ensures |Shades(spans, open)| == |SpanText(spans)|
    ensures forall c :: 0 <= c < |SpanText(spans)| ==> Shades(spans, open)[c].c == SpanText(spans)[c]
    decreases spans
  {
    if spans != [] {
      match spans[0]
      case Raw(_) => ShadesText(spans[1..], open);
      case Open(_, _) => ShadesText(spans[1..], open + [spans[0]]);
      case Close => ShadesText(spans[1..], if open == [] then [] else open[..|open| - 1]);
    }
  }

  /**
   The markup written for a highlighted text, read again: a nested document of span elements that holds exactly the text, with the
   spans around each character.
   */
  lemma {:induction false} HighlightedMarkup(prefix: string, spans: seq<Span>, text: string)
    requires Holds(spans, text) && ClassFits(prefix) && ClassesFit(spans)
    ensures var marks := ReadMarkup(SpansString(prefix, spans));
            && marks.Some? && ShadesOpen(Shades(spans, [])) && |Shades(spans, [])| == |text|
            && ReadDocument(marks.value, []) == Some(Document(ShadePlaces(prefix, Shades(spans, [])), []))
            && forall c :: 0 <= c < |text| ==> ShadePlaces(prefix, Shades(spans, []))[c].c == text[c]
  {
    hide ReadMarkup, ReadDocument, Shades, SpanWalk, SpanText, ClassesFit;
    SpansRead(prefix, spans);
    SpansDocument(prefix, spans, []);
    ShadesText(spans, []);
    assert SpanLabels(prefix, []) == [];
  }
}
