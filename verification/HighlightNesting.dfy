/** What mergeStreams promises: well-nested output in which no text, tag or open element is lost. */
module HighlightNesting {
  import opened Wrappers
  import opened HighlightText
  import opened HighlightStreams
  import opened HighlightMerge

  // ----- reading markup -----

  /** Every character read, with the elements open around it, and what is open at the end. */
  datatype Doc = Doc(spots: seq<Spot>, open: seq<Element>)

  function Ahead(spots: seq<Spot>, rest: Option<Doc>): Option<Doc> {
    match rest
    case None => None
    case Some(d) => Some(Doc(spots + d.spots, d.open))
  }

  /** Reads well-nested markup; a stop tag must close the innermost open element. */
  function Read(pieces: seq<Piece>, open: seq<Element>): Option<Doc>
    decreases pieces
  {
    if pieces == [] then Some(Doc([], open))
    else
      match pieces[0]
      case Chunk(text) => Ahead(SpotsOf(text, open), Read(pieces[1..], open))
      case Tag(_, start, e) =>
        if start then Read(pieces[1..], Push(open, Event(true, 0, e)))
        else if open != [] && Last(open) == e then Read(pieces[1..], Init(open))
        else None
  }

  lemma {:induction false} ReadConcat(a: seq<Piece>, b: seq<Piece>, open: seq<Element>)
    ensures Read(a + b, open)
         == match Read(a, open) case None => None case Some(d) => Ahead(d.spots, Read(b, d.open))
    decreases a
  {
    hide Unclosed, SpotsOf;
    if a == [] {
      assert a + b == b;
      AheadNothing(Read(b, open));
    } else {
      assert (a + b)[0] == a[0] && (a + b)[1..] == a[1..] + b;
      match a[0]
      case Chunk(text) =>
        ReadConcat(a[1..], b, open);
        if Read(a[1..], open).Some? {
          var d := Read(a[1..], open).value;
          AheadTwice(SpotsOf(text, open), d.spots, Read(b, d.open));
        }
      case Tag(_, start, e) =>
        if start {
          ReadConcat(a[1..], b, Push(open, Event(true, 0, e)));
        } else if open != [] && Last(open) == e {
          ReadConcat(a[1..], b, Init(open));
        }
    }
  }

  lemma AheadNothing(rest: Option<Doc>)
    ensures Ahead([], rest) == rest
  {
    if rest.Some? {
      assert [] + rest.value.spots == rest.value.spots;
    }
  }

  lemma AheadTwice(a: seq<Spot>, b: seq<Spot>, rest: Option<Doc>)
    ensures Ahead(a + b, rest) == Ahead(a, Ahead(b, rest))
  {
    if rest.Some? {
      assert (a + b) + rest.value.spots == a + (b + rest.value.spots);
    }
  }

  lemma {:induction false} ReadTags(a: seq<Piece>, b: seq<Piece>, open: seq<Element>, after: seq<Element>)
    requires Read(a, open) == Some(Doc([], after))
    ensures Read(a + b, open) == Read(b, after)
  {
    hide Read;
    ReadConcat(a, b, open);
    AheadNothing(Read(b, after));
  }

  lemma {:induction false} ReadChunk(text: string, b: seq<Piece>, open: seq<Element>)
    ensures Read([Chunk(text)] + b, open) == Ahead(SpotsOf(text, open), Read(b, open))
  {
    assert ([Chunk(text)] + b)[1..] == b;
  }

  // ----- the tags written -----

  predicate Closable(elements: seq<Element>) {
    forall i :: 0 <= i < |elements| ==> !Unclosed(elements[i])
  }

  lemma {:induction false} ReadClosing(outer: seq<Element>, open: seq<Element>)
    ensures Read(Closing(open), outer + open) == Some(Doc([], outer))
    decreases open
  {
    hide Unclosed;
    if open == [] {
      assert outer + open == outer;
    } else {
      var all := outer + open;
      assert Last(all) == Last(open) && Init(all) == outer + Init(open);
      ReadClosing(outer, Init(open));
      assert Closing(open)[1..] == Closing(Init(open));
    }
  }

  lemma {:induction false} ReadOpening(outer: seq<Element>, open: seq<Element>)
    requires Closable(open)
    ensures Read(Opening(open), outer) == Some(Doc([], outer + open))
    decreases open
  {
    hide Unclosed;
    if open == [] {
      assert outer + open == outer;
    } else {
      ReadOpening(outer + [open[0]], open[1..]);
      assert (outer + [open[0]]) + open[1..] == outer + open;
      assert Opening(open)[1..] == Opening(open[1..]);
    }
  }

  function PushAll(open: seq<Element>, events: seq<Event>): seq<Element>
    decreases events
  {
    if events == [] then open else PushAll(Push(open, events[0]), events[1..])
  }

  lemma {:induction false} ReadEvent(e: Event, rest: seq<Piece>, open: seq<Element>)
    requires !e.start ==> open != [] && Last(open) == e.element
    ensures Read([TagOf(true, e)] + rest, open) == Read(rest, Push(open, e))
  {
    hide Unclosed;
    assert ([TagOf(true, e)] + rest)[1..] == rest;
  }

  lemma {:induction false} NestedFirst(e: seq<Event>, open: seq<Element>)
    requires e != [] && Nested(e, open)
    ensures (!e[0].start ==> open != [] && Last(open) == e[0].element) && Nested(e[1..], Push(open, e[0]))
  {
  }

  /** Taking a prefix of a nested stream. */
  lemma {:induction false} ReadPrefix(e: seq<Event>, k: nat, open: seq<Element>)
    requires k <= |e| && Nested(e, open)
    ensures Read(TagsOf(e[..k]), open) == Some(Doc([], PushAll(open, e[..k])))
    ensures Nested(e[k..], PushAll(open, e[..k]))
    decreases k
  {
    if k > 0 {
      hide Push, Read, Nested;
      NestedFirst(e, open);
      ReadPrefix(e[1..], k - 1, Push(open, e[0]));
      assert e[1..][..k - 1] == e[..k][1..] && e[1..][k - 1..] == e[k..];
      ReadEvent(e[0], TagsOf(e[..k][1..]), open);
    } else {
      assert e[0..] == e && e[..0] == [];
    }
  }

  /** The inner loop takes events at one offset only. */
  lemma {:induction false} TakenAt(e: seq<Event>, n: seq<Event>, at: nat)
    requires e != [] && e[0].offset == at
    ensures var k := Taken(e, n, at); forall i :: 0 <= i < k ==> e[i].offset == at
    decreases e
  {
    hide PicksOriginal;
    if e[1..] != [] && PicksOriginal(e[1..], n) && e[1].offset == at {
      TakenAt(e[1..], n, at);
      var k := Taken(e, n, at);
      forall i | 0 <= i < k ensures e[i].offset == at {
        if i > 0 {
          assert e[i] == e[1..][i - 1];
        }
      }
    }
  }

  lemma {:induction false} OpenAfterPrefix(e: seq<Event>, k: nat, open: seq<Element>, at: nat, c: nat)
    requires k <= |e| && (forall i :: 0 <= i < k ==> e[i].offset == at) && at <= c
    ensures OpenAt(e, open, c) == OpenAt(e[k..], PushAll(open, e[..k]), c)
    decreases k
  {
    hide Unclosed;
    if k > 0 {
      OpenAfterPrefix(e[1..], k - 1, Push(open, e[0]), at, c);
      assert e[1..][..k - 1] == e[..k][1..] && e[1..][k - 1..] == e[k..];
    } else {
      assert e[0..] == e && e[..0] == [];
    }
  }

  // ----- the theorem -----

  predicate AllClosable(n: seq<Event>) {
    forall i :: 0 <= i < |n| ==> !Unclosed(n[i].element)
  }

  ghost predicate Faithful(spots: seq<Spot>, e: seq<Event>, n: seq<Event>, from: nat, outer: seq<Element>, open: seq<Element>, text: string) {
    from + |spots| == |text|
    && forall c :: from <= c < |text| ==> spots[c - from] == Spot(text[c], OpenAt(e, outer, c) + OpenAt(n, open, c))
  }

  ghost predicate Mergeable(e: seq<Event>, n: seq<Event>, from: nat, outer: seq<Element>, open: seq<Element>, text: string) {
    from <= |text| && Ordered(e, from, |text|) && Ordered(n, from, |text|)
    && Nested(e, outer) && Nested(n, open) && AllClosable(n) && Closable(open)
  }

  lemma SubstrIs(text: string, from: nat, at: nat)
    requires from <= at <= |text|
    ensures Substr(text, from, at - from) == text[from..at]
  {
    if from < |text| && at > from {
    } else {
      assert text[from..at] == "";
    }
  }

  /** Text before the first event of either stream. */
  lemma TextBefore(spots: seq<Spot>, e: seq<Event>, n: seq<Event>, from: nat, at: nat, outer: seq<Element>,
                   open: seq<Element>, text: string)
    requires from <= at <= |text| && Later(e, at) && Later(n, at)
    requires Faithful(spots, e, n, at, outer, open, text)
    ensures Faithful(SpotsOf(text[from..at], outer + open) + spots, e, n, from, outer, open, text)
  {
    hide OpenAt;
    forall c | from <= c < at ensures OpenAt(e, outer, c) == outer && OpenAt(n, open, c) == open {
      OpenLater(e, outer, c);
      OpenLater(n, open, c);
    }
  }

  lemma OrderedFrom(e: seq<Event>, from: nat, high: nat, k: nat, at: nat)
    requires Ordered(e, from, high) && k <= |e| && at <= high && (k < |e| ==> at <= e[k].offset)
    ensures Ordered(e[k..], at, high)
  {
  }

  lemma BothLater(e: seq<Event>, n: seq<Event>, from: nat, high: nat)
    requires Ordered(e, from, high) && Ordered(n, from, high) && (e != [] || n != [])
    ensures var at := if PicksOriginal(e, n) then e[0].offset else n[0].offset;
            from <= at <= high && Later(e, at) && Later(n, at)
  {
  }

  lemma {:induction false} MergeReads(e: seq<Event>, n: seq<Event>, from: nat, outer: seq<Element>, open: seq<Element>, text: string)
    returns (spots: seq<Spot>)
    requires Mergeable(e, n, from, outer, open, text)
    ensures Read(Merge(e, n, from, open, text), outer + open) == Some(Doc(spots, []))
    ensures Faithful(spots, e, n, from, outer, open, text)
    decreases |e| + |n|
  {
    hide Read, Nested, Unclosed, PicksOriginal, Taken, Substr, OpenAt, Ordered, Faithful, Closable, AllClosable, Later;
    if e == [] && n == [] {
      spots := MergeReadsEnd(from, outer, open, text);
    } else {
      BothLater(e, n, from, |text|);
      PicksSome(e, n);
      if PicksOriginal(e, n) {
        var at, k := e[0].offset, Taken(e, n, e[0].offset);
        var after := PushAll(outer, e[..k]);
        OriginalMergeable(e, n, from, outer, open, text);
        var rest := MergeReads(e[k..], n, at, after, open, text);
        spots := SpotsOf(text[from..at], outer + open) + rest;
        OriginalReads(e, n, from, outer, open, text, rest);
      } else {
        var at := n[0].offset;
        HighlightMergeable(e, n, from, outer, open, text);
        var rest := MergeReads(e, n[1..], at, outer, Tracked(open, n[0]), text);
        spots := SpotsOf(text[from..at], outer + open) + rest;
        HighlightReads(e, n, from, outer, open, text, rest);
      }
    }
  }

  lemma MergeReadsEnd(from: nat, outer: seq<Element>, open: seq<Element>, text: string) returns (spots: seq<Spot>)
    requires Mergeable([], [], from, outer, open, text)
    ensures Read(Merge([], [], from, open, text), outer + open) == Some(Doc(spots, []))
    ensures Faithful(spots, [], [], from, outer, open, text)
  {
    spots := SpotsOf(text[from..], []);
    assert outer + open == [];
    var p := [Chunk(text[from..])];
    assert p[1..] == [];
    assert spots + [] == spots;
  }

  lemma {:induction false} OriginalMergeable(e: seq<Event>, n: seq<Event>, from: nat, outer: seq<Element>, open: seq<Element>, text: string)
    requires Mergeable(e, n, from, outer, open, text) && PicksOriginal(e, n) && e != []
    ensures var at, k := e[0].offset, Taken(e, n, e[0].offset);
            Mergeable(e[k..], n, at, PushAll(outer, e[..k]), open, text)
  {
    hide Nested, Unclosed, Taken;
    var at, k := e[0].offset, Taken(e, n, e[0].offset);
    ReadPrefix(e, k, outer);
    OrderedFrom(e, from, |text|, k, at);
    OrderedFrom(n, from, |text|, 0, at);
    assert n[0..] == n;
  }

  lemma {:induction false} OriginalReads(e: seq<Event>, n: seq<Event>, from: nat, outer: seq<Element>, open: seq<Element>, text: string,
                      rest: seq<Spot>)
    requires Mergeable(e, n, from, outer, open, text) && PicksOriginal(e, n) && e != []
    requires var at, k := e[0].offset, Taken(e, n, e[0].offset);
             Read(Merge(e[k..], n, at, open, text), PushAll(outer, e[..k]) + open) == Some(Doc(rest, []))
             && Faithful(rest, e[k..], n, at, PushAll(outer, e[..k]), open, text)
             && from <= at <= |text| && Later(e, at) && Later(n, at)
    ensures var spots := SpotsOf(text[from..e[0].offset], outer + open) + rest;
            Read(Merge(e, n, from, open, text), outer + open) == Some(Doc(spots, []))
            && Faithful(spots, e, n, from, outer, open, text)
  {
    hide Read, Nested, Unclosed, PicksOriginal, Taken, Substr, OpenAt, Ordered, Closable, AllClosable, Later, TagsOf, Closing, Opening;
    var at, k := e[0].offset, Taken(e, n, e[0].offset);
    var after := PushAll(outer, e[..k]);
    var tail := Merge(e[k..], n, at, open, text);
    SubstrIs(text, from, at);
    ReadClosing(outer, open);
    ReadPrefix(e, k, outer);
    ReadOpening(after, open);
    ReadTags(Opening(open), tail, after, after + open);
    ReadTags(TagsOf(e[..k]), Opening(open) + tail, outer, after);
    ReadTags(Closing(open), TagsOf(e[..k]) + (Opening(open) + tail), outer + open, outer);
    ReadChunk(text[from..at], Closing(open) + (TagsOf(e[..k]) + (Opening(open) + tail)), outer + open);
    TakenAt(e, n, at);
    forall c | at <= c < |text| ensures OpenAt(e[k..], after, c) == OpenAt(e, outer, c) {
      OpenAfterPrefix(e, k, outer, at, c);
    }
    assert Faithful(rest, e, n, at, outer, open, text);
    TextBefore(rest, e, n, from, at, outer, open, text);
  }

  lemma HighlightMergeable(e: seq<Event>, n: seq<Event>, from: nat, outer: seq<Element>, open: seq<Element>, text: string)
    requires Mergeable(e, n, from, outer, open, text) && !PicksOriginal(e, n) && n != []
    ensures Mergeable(e, n[1..], n[0].offset, outer, Tracked(open, n[0]), text)
    ensures Tracked(open, n[0]) == Push(open, n[0])
  {
    hide Unclosed;
    var at := n[0].offset;
    OrderedFrom(n, from, |text|, 1, at);
    OrderedFrom(e, from, |text|, 0, at);
    assert e[0..] == e;
  }

  lemma {:induction false} HighlightReads(e: seq<Event>, n: seq<Event>, from: nat, outer: seq<Element>, open: seq<Element>, text: string,
                       rest: seq<Spot>)
    requires Mergeable(e, n, from, outer, open, text) && !PicksOriginal(e, n) && n != []
    requires var at := n[0].offset;
             Read(Merge(e, n[1..], at, Tracked(open, n[0]), text), outer + Tracked(open, n[0])) == Some(Doc(rest, []))
             && Faithful(rest, e, n[1..], at, outer, Tracked(open, n[0]), text)
             && from <= at <= |text| && Later(e, at) && Later(n, at)
    ensures var spots := SpotsOf(text[from..n[0].offset], outer + open) + rest;
            Read(Merge(e, n, from, open, text), outer + open) == Some(Doc(spots, []))
            && Faithful(spots, e, n, from, outer, open, text)
  {
    hide Read, Unclosed, PicksOriginal, Substr, OpenAt, Ordered, Closable, Later;
    var at := n[0].offset;
    var tail := Merge(e, n[1..], at, Tracked(open, n[0]), text);
    HighlightMergeable(e, n, from, outer, open, text);
    SubstrIs(text, from, at);
    TagReads(n, outer, open);
    ReadTags([TagOf(false, n[0])], tail, outer + open, outer + Tracked(open, n[0]));
    ReadChunk(text[from..at], [TagOf(false, n[0])] + tail, outer + open);
    forall c | at <= c < |text| ensures OpenAt(n[1..], Tracked(open, n[0]), c) == OpenAt(n, open, c) {
      assert [n[0]] + n[1..] == n;
      OpenStep(n[0], n[1..], open, c);
    }
    assert Faithful(rest, e, n, at, outer, open, text);
    TextBefore(rest, e, n, from, at, outer, open, text);
  }

  lemma {:induction false} TagReads(n: seq<Event>, outer: seq<Element>, open: seq<Element>)
    requires n != [] && Nested(n, open) && !Unclosed(n[0].element)
    ensures Read([TagOf(false, n[0])], outer + open) == Some(Doc([], outer + Tracked(open, n[0])))
  {
    hide Unclosed;
    var p := [TagOf(false, n[0])];
    assert p[1..] == [];
    if n[0].start {
      assert (outer + open) + [n[0].element] == outer + (open + [n[0].element]);
    } else {
      assert Last(outer + open) == Last(open) && Init(outer + open) == outer + Init(open);
    }
  }

  // ----- text and original tags -----

  lemma {:induction false} RawTextConcat(a: seq<Piece>, b: seq<Piece>)
    ensures RawText(a + b) == RawText(a) + RawText(b)
    decreases a
  {
    if a == [] {
      assert a + b == b;
    } else {
      RawTextConcat(a[1..], b);
      assert (a + b)[1..] == a[1..] + b;
    }
  }

  /** The original tags in a piece of markup, each with the number of characters before it. */
  function Originals(pieces: seq<Piece>, at: nat): seq<Event>
    decreases pieces
  {
    if pieces == [] then []
    else
      match pieces[0]
      case Chunk(text) => Originals(pieces[1..], at + |text|)
      case Tag(original, start, e) =>
        (if original then [Event(start, at, e)] else []) + Originals(pieces[1..], at)
  }

  lemma {:induction false} OriginalsConcat(a: seq<Piece>, b: seq<Piece>, at: nat)
    ensures Originals(a + b, at) == Originals(a, at) + Originals(b, at + |RawText(a)|)
    decreases a
  {
    hide RawText;
    RawTextFirst(a);
    if a == [] {
      assert a + b == b;
    } else {
      assert (a + b)[0] == a[0] && (a + b)[1..] == a[1..] + b;
      match a[0]
      case Chunk(text) => OriginalsConcat(a[1..], b, at + |text|);
      case Tag(original, start, e) =>
        OriginalsConcat(a[1..], b, at);
        var first := if original then [Event(start, at, e)] else [];
        Associate(first, Originals(a[1..], at), Originals(b, at + |RawText(a)|));
    }
  }

  lemma {:induction false} RawTextFirst(a: seq<Piece>)
    ensures a == [] ==> RawText(a) == ""
    ensures a != [] ==> |RawText(a)| == (if a[0].Chunk? then |a[0].text| else 0) + |RawText(a[1..])|
  {
  }

  predicate OnlyHighlight(pieces: seq<Piece>) {
    forall i :: 0 <= i < |pieces| ==> pieces[i].Tag? && !pieces[i].original
  }

  lemma {:induction false} NoOriginals(pieces: seq<Piece>, at: nat)
    requires OnlyHighlight(pieces)
    ensures Originals(pieces, at) == [] && RawText(pieces) == ""
    decreases pieces
  {
    if pieces != [] {
      NoOriginals(pieces[1..], at);
    }
  }

  lemma {:induction false} HighlightTags(open: seq<Element>)
    ensures OnlyHighlight(Opening(open)) && OnlyHighlight(Closing(open))
    decreases open
  {
    if open != [] {
      HighlightTags(open[1..]);
      HighlightTags(Init(open));
    }
  }

  lemma {:induction false} TagsAt(events: seq<Event>, at: nat)
    requires forall i :: 0 <= i < |events| ==> events[i].offset == at
    ensures Originals(TagsOf(events), at) == events && RawText(TagsOf(events)) == ""
    decreases events
  {
    if events != [] {
      TagsAt(events[1..], at);
      assert TagsOf(events)[1..] == TagsOf(events[1..]);
      assert events == [events[0]] + events[1..];
    }
  }

  ghost predicate Keeps(pieces: seq<Piece>, e: seq<Event>, from: nat, text: string)
    requires from <= |text|
  {
    RawText(pieces) == text[from..] && Originals(pieces, from) == e
  }

  lemma KeepsChunk(text: string, from: nat, at: nat, pieces: seq<Piece>, e: seq<Event>)
    requires from <= at <= |text| && Keeps(pieces, e, at, text)
    ensures Keeps([Chunk(text[from..at])] + pieces, e, from, text)
  {
    assert ([Chunk(text[from..at])] + pieces)[1..] == pieces;
    assert text[from..at] + text[at..] == text[from..];
  }

  lemma KeepsHighlight(tags: seq<Piece>, pieces: seq<Piece>, e: seq<Event>, at: nat, text: string)
    requires at <= |text| && OnlyHighlight(tags) && Keeps(pieces, e, at, text)
    ensures Keeps(tags + pieces, e, at, text)
  {
    NoOriginals(tags, at);
    RawTextConcat(tags, pieces);
    OriginalsConcat(tags, pieces, at);
  }

  lemma {:induction false} KeepsTags(events: seq<Event>, pieces: seq<Piece>, e: seq<Event>, at: nat, text: string)
    requires at <= |text| && Keeps(pieces, e, at, text)
    requires forall i :: 0 <= i < |events| ==> events[i].offset == at
    ensures Keeps(TagsOf(events) + pieces, events + e, at, text)
  {
    TagsAt(events, at);
    RawTextConcat(TagsOf(events), pieces);
    OriginalsConcat(TagsOf(events), pieces, at);
  }

  lemma {:induction false} OriginalStepKeeps(e: seq<Event>, k: nat, tail: seq<Piece>, from: nat, at: nat, open: seq<Element>, text: string)
    requires k <= |e| && (forall i :: 0 <= i < k ==> e[i].offset == at)
    requires from <= at <= |text| && Keeps(tail, e[k..], at, text)
    ensures Keeps([Chunk(Substr(text, from, at - from))]
                  + (Closing(open) + (TagsOf(e[..k]) + (Opening(open) + tail))), e, from, text)
  {
    hide Substr, Keeps, TagsOf, Closing, Opening, OnlyHighlight;
    HighlightTags(open);
    KeepsHighlight(Opening(open), tail, e[k..], at, text);
    KeepsTags(e[..k], Opening(open) + tail, e[k..], at, text);
    assert e[..k] + e[k..] == e;
    KeepsHighlight(Closing(open), TagsOf(e[..k]) + (Opening(open) + tail), e, at, text);
    SubstrIs(text, from, at);
    KeepsChunk(text, from, at, Closing(open) + (TagsOf(e[..k]) + (Opening(open) + tail)), e);
  }

  lemma HighlightStepKeeps(e: seq<Event>, tag: Event, tail: seq<Piece>, from: nat, at: nat, text: string)
    requires from <= at <= |text| && Keeps(tail, e, at, text)
    ensures Keeps([Chunk(Substr(text, from, at - from))] + ([TagOf(false, tag)] + tail), e, from, text)
  {
    hide Substr, Keeps, OnlyHighlight;
    OneHighlight(tag);
    KeepsHighlight([TagOf(false, tag)], tail, e, at, text);
    SubstrIs(text, from, at);
    KeepsChunk(text, from, at, [TagOf(false, tag)] + tail, e);
  }

  /** All of the text is written, once and in order, and so is every original tag, at its own place. */
  lemma {:induction false} MergeKeeps(e: seq<Event>, n: seq<Event>, from: nat, open: seq<Element>, text: string)
    requires from <= |text| && Ordered(e, from, |text|) && Ordered(n, from, |text|)
    ensures Keeps(Merge(e, n, from, open, text), e, from, text)
    decreases |e| + |n|
  {
    hide PicksOriginal, Taken, Substr, Ordered, Keeps, TagsOf, Closing, Opening, Later;
    if e == [] && n == [] {
      KeepsEnd(from, text);
    } else {
      BothLater(e, n, from, |text|);
      PicksSome(e, n);
      OrderedRest(e, n, from, |text|);
      if PicksOriginal(e, n) {
        var at, k := e[0].offset, Taken(e, n, e[0].offset);
        MergeKeeps(e[k..], n, at, open, text);
        TakenAt(e, n, at);
        OriginalStepKeeps(e, k, Merge(e[k..], n, at, open, text), from, at, open, text);
      } else {
        var at := n[0].offset;
        MergeKeeps(e, n[1..], at, Tracked(open, n[0]), text);
        HighlightStepKeeps(e, n[0], Merge(e, n[1..], at, Tracked(open, n[0]), text), from, at, text);
      }
    }
  }

  lemma OneHighlight(e: Event)
    ensures OnlyHighlight([TagOf(false, e)])
  {
  }

  lemma KeepsEnd(from: nat, text: string)
    requires from <= |text|
    ensures Keeps([Chunk(text[from..])], [], from, text)
  {
    var p := [Chunk(text[from..])];
    assert p[1..] == [];
    assert RawText(p) == text[from..] + "";
  }

  lemma {:induction false} OrderedRest(e: seq<Event>, n: seq<Event>, from: nat, high: nat)
    requires Ordered(e, from, high) && Ordered(n, from, high) && (e != [] || n != [])
    ensures PicksOriginal(e, n) ==>
              Ordered(e[Taken(e, n, e[0].offset)..], e[0].offset, high) && Ordered(n, e[0].offset, high)
    ensures !PicksOriginal(e, n) ==> Ordered(e, n[0].offset, high) && Ordered(n[1..], n[0].offset, high)
  {
    hide Taken;
    if PicksOriginal(e, n) {
      OrderedFrom(e, from, high, Taken(e, n, e[0].offset), e[0].offset);
      OrderedFrom(n, from, high, 0, e[0].offset);
      assert n[0..] == n;
    } else {
      OrderedFrom(n, from, high, 1, n[0].offset);
      OrderedFrom(e, from, high, 0, n[0].offset);
      assert e[0..] == e;
    }
  }

  // ----- nodeStream and mergeStreams together -----

  /** For two sorted and nested streams the result is nested, keeps text and original tags, and around each
      character has the elements the original stream has open there, and inside them the highlighting's. */
  lemma MergeIsFaithful(e: seq<Event>, n: seq<Event>, text: string) returns (spots: seq<Spot>)
    requires Ordered(e, 0, |text|) && Ordered(n, 0, |text|) && Nested(e, []) && Nested(n, []) && AllClosable(n)
    ensures var pieces := Merge(e, n, 0, [], text);
            Read(pieces, []) == Some(Doc(spots, [])) && RawText(pieces) == text && Originals(pieces, 0) == e
    ensures Faithful(spots, e, n, 0, [], [], text)
  {
    hide Read, Merge, Faithful, Ordered, Nested, AllClosable, RawText, Originals;
    spots := MergeReads(e, n, 0, [], [], text);
    var none: seq<Element> := [];
    assert none + none == none;
    MergeKeeps(e, n, 0, [], text);
    assert text[0..] == text;
  }

  /** The two trees hold the same text: every character keeps all its ancestors in both, the original ones outermost. */
  lemma MergedTrees(original: seq<Dom>, highlighted: seq<Dom>, text: string) returns (spots: seq<Spot>)
    requires Length(original) == Length(highlighted) == |text|
    requires Clean(original) && AllClosable(Stream(highlighted, 0))
    ensures var pieces := Merge(Stream(original, 0), Stream(highlighted, 0), 0, [], text);
            Read(pieces, []) == Some(Doc(spots, [])) && RawText(pieces) == text
            && Originals(pieces, 0) == Stream(original, 0)
    ensures |spots| == |text| && forall c :: 0 <= c < |text| ==>
              spots[c] == Spot(text[c], Characters(original, [], true)[c].open + Characters(highlighted, [], true)[c].open)
  {
    hide Read, Merge, Nested, RawText, Originals, OpenAt, Unclosed;
    StreamIsFaithful(original);
    StreamIsFaithful(highlighted);
    AncestorsKept(original, []);
    ClosableIsClean(highlighted, 0);
    AncestorsKept(highlighted, []);
    spots := MergeIsFaithful(Stream(original, 0), Stream(highlighted, 0), text);
    forall c | 0 <= c < |text| ensures
      spots[c] == Spot(text[c], Characters(original, [], true)[c].open + Characters(highlighted, [], true)[c].open)
    {
      assert spots[c - 0] == spots[c];
    }
  }

  lemma {:induction false} ClosableIsClean(nodes: seq<Dom>, a: nat)
    requires AllClosable(Stream(nodes, a))
    ensures Clean(nodes)
    decreases nodes
  {
    hide Unclosed;
    if nodes != [] {
      var first, rest := NodeStream(nodes[0], a), Stream(nodes[1..], a + NodeLength(nodes[0]));
      ClosableParts(first, rest);
      ClosableIsClean(nodes[1..], a + NodeLength(nodes[0]));
      if nodes[0].ElementNode? {
        var e, children := nodes[0].element, nodes[0].children;
        var start, stop := [Event(true, a, e)], Stop(e, a + Length(children));
        ClosableParts(start, Stream(children, a) + stop);
        ClosableParts(Stream(children, a), stop);
        assert !Unclosed(start[0].element);
        ClosableIsClean(children, a);
      }
    }
  }

  lemma ClosableParts(a: seq<Event>, b: seq<Event>)
    requires AllClosable(a + b)
    ensures AllClosable(a) && AllClosable(b)
  {
    hide Unclosed;
    forall i | 0 <= i < |a| ensures !Unclosed(a[i].element) {
      assert (a + b)[i] == a[i];
    }
    forall i | 0 <= i < |b| ensures !Unclosed(b[i].element) {
      assert (a + b)[|a| + i] == b[i];
    }
  }
}
