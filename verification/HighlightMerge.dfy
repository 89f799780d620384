/**
 mergeStreams of the bundled highlight.js: the tags of the original markup and of the highlighted markup are
 put into one text. Highlighting is closed before original tags and reopened after them.
 */
module HighlightMerge {
  import opened HighlightText
  import opened HighlightStreams

  // ----- the choice and the pieces written -----

  /** c(): whether the original stream is read next. */
  predicate PicksOriginal(e: seq<Event>, n: seq<Event>) {
    if e != [] && n != [] then
      (if e[0].offset != n[0].offset then e[0].offset < n[0].offset else n[0].start)
    else e != []
  }

  /** How many original events the inner loop writes. */
  function Taken(e: seq<Event>, n: seq<Event>, offset: nat): (k: nat)
    requires e != []
    ensures 1 <= k <= |e|
    decreases e
  {
    if e[1..] != [] && PicksOriginal(e[1..], n) && e[1].offset == offset then 1 + Taken(e[1..], n, offset) else 1
  }

  /** `a.substr(start, length)`. */
  function Substr(a: string, start: nat, length: int): string {
    if start >= |a| || length <= 0 then ""
    else if start + length <= |a| then a[start..start + length]
    else a[start..]
  }

  function TagOf(original: bool, e: Event): Piece {
    Tag(original, e.start, e.element)
  }

  function TagsOf(events: seq<Event>): (p: seq<Piece>)
    ensures |p| == |events|
  {
    if events == [] then [] else [TagOf(true, events[0])] + TagsOf(events[1..])
  }

  function Closing(open: seq<Element>): seq<Piece> {
    if open == [] then [] else [Tag(false, false, Last(open))] + Closing(Init(open))
  }

  function Opening(open: seq<Element>): seq<Piece> {
    if open == [] then [] else [Tag(false, true, open[0])] + Opening(open[1..])
  }

  function Tracked(open: seq<Element>, e: Event): seq<Element> {
    if e.start then open + [e.element] else if open == [] then [] else Init(open)
  }

  function Merge(e: seq<Event>, n: seq<Event>, from: nat, open: seq<Element>, text: string): seq<Piece>
    decreases |e| + |n|
  {
    if e == [] && n == [] then [Chunk(text[if from <= |text| then from else |text|..])]
    else if PicksOriginal(e, n) then
      var at, k := e[0].offset, Taken(e, n, e[0].offset);
      [Chunk(Substr(text, from, at - from))]
      + (Closing(open) + (TagsOf(e[..k]) + (Opening(open) + Merge(e[k..], n, at, open, text))))
    else
      var at := n[0].offset;
      [Chunk(Substr(text, from, at - from))]
      + ([TagOf(false, n[0])] + Merge(e, n[1..], at, Tracked(open, n[0]), text))
  }

  // ----- the program -----

  /** An array of events that is emptied from the front. */
  class EventQueue {
    var events: seq<Event>

    constructor (init: seq<Event>)
      ensures events == init
    {
      events := init;
    }

    method Shift() returns (e: Event)
      requires events != []
      modifies this
      ensures e == old(events)[0] && events == old(events)[1..]
    {
      e := events[0];
      events := events[1..];
    }
  }

  function Choose(e: EventQueue, n: EventQueue): EventQueue
    reads e, n
  {
    if PicksOriginal(e.events, n.events) then e else n
  }

  function Reverse<T>(s: seq<T>): (r: seq<T>)
    ensures |r| == |s|
  {
    if s == [] then [] else [Last(s)] + Reverse(Init(s))
  }

  lemma {:induction false} ReverseAt<T>(s: seq<T>, i: nat)
    requires i < |s|
    ensures Reverse(s)[i] == s[|s| - 1 - i]
    decreases s
  {
    if i > 0 {
      ReverseAt(Init(s), i - 1);
    }
  }

  lemma {:induction false} ReverseTwice<T>(s: seq<T>)
    ensures Reverse(Reverse(s)) == s
  {
    forall i | 0 <= i < |s| ensures Reverse(Reverse(s))[i] == s[i] {
      ReverseAt(Reverse(s), i);
      ReverseAt(s, |s| - 1 - i);
    }
  }

  method MergeStreams(e: EventQueue, n: EventQueue, text: string) returns (l: string)
    requires e != n
    modifies e, n
    ensures l == Render(Merge(old(e.events), old(n.events), 0, [], text))
    ensures e.events == [] && n.events == []
  {
    hide Render, PieceText, Escape, PicksOriginal;
    var u: nat := 0;
    var open: seq<Element> := [];
    l := "";
    ghost var all := Render(Merge(e.events, n.events, 0, [], text));
    while e.events != [] || n.events != []
      invariant l + Render(Merge(e.events, n.events, u, open, text)) == all
      decreases |e.events| + |n.events|
    {
      PicksSome(e.events, n.events);
      var b := Choose(e, n);
      ghost var e0, n0, u0, open0, l0 := e.events, n.events, u, open, l;
      var chunk := Substr(text, u, b.events[0].offset - u);
      l := l + Escape(chunk);
      u := b.events[0].offset;
      if b == e {
        open := Reverse(open);
        l := WriteTags(l, open, false);
        ClosingIsReversed(open0);
        l := TakeOriginals(e, n, u, l);
        ReverseTwice(open0);
        open := Reverse(open);
        l := WriteTags(l, open, true);
        OriginalStep(e0, n0, u0, open0, text, l0, l);
      } else {
        if n.events[0].start {
          open := open + [n.events[0].element];
        } else if open != [] {
          open := Init(open);
        }
        var event := n.Shift();
        l := l + PieceText(TagOf(false, event));
        HighlightStep(e0, n0, u0, open0, text, l0, l);
      }
    }
    LastChunk(u, open, text);
    l := l + Escape(text[if u <= |text| then u else |text|..]);
  }

  lemma PicksSome(e: seq<Event>, n: seq<Event>)
    requires e != [] || n != []
    ensures PicksOriginal(e, n) ==> e != []
    ensures !PicksOriginal(e, n) ==> n != []
  {
  }

  lemma {:induction false} LastChunk(from: nat, open: seq<Element>, text: string)
    ensures Render(Merge([], [], from, open, text)) == Escape(text[if from <= |text| then from else |text|..])
  {
    hide Escape;
    RenderOne(Chunk(text[if from <= |text| then from else |text|..]));
  }

  lemma {:induction false} Append(l0: string, a: seq<Piece>, b: seq<Piece>)
    ensures l0 + Render(a + b) == (l0 + Render(a)) + Render(b)
  {
    RenderConcat(a, b);
  }

  lemma {:induction false} OriginalStep(e: seq<Event>, n: seq<Event>, from: nat, open: seq<Element>, text: string, l0: string, l: string)
    requires PicksOriginal(e, n)
    requires var at := e[0].offset;
             l == (((l0 + Escape(Substr(text, from, at - from))) + Render(Closing(open)))
                   + Render(TagsOf(e[..Taken(e, n, at)]))) + Render(Opening(open))
    ensures l0 + Render(Merge(e, n, from, open, text))
         == l + Render(Merge(e[Taken(e, n, e[0].offset)..], n, e[0].offset, open, text))
  {
    hide Render, PieceText, Escape, PicksOriginal, Closing, Opening, TagsOf, Substr, Taken;
    var at, k := e[0].offset, Taken(e, n, e[0].offset);
    var rest := Merge(e[k..], n, at, open, text);
    var p := [Chunk(Substr(text, from, at - from))];
    ChunkText(Substr(text, from, at - from));
    Append(l0, p, Closing(open) + (TagsOf(e[..k]) + (Opening(open) + rest)));
    Append(l0 + Render(p), Closing(open), TagsOf(e[..k]) + (Opening(open) + rest));
    Append((l0 + Render(p)) + Render(Closing(open)), TagsOf(e[..k]), Opening(open) + rest);
    Append(((l0 + Render(p)) + Render(Closing(open))) + Render(TagsOf(e[..k])), Opening(open), rest);
  }

  lemma ChunkText(s: string)
    ensures Render([Chunk(s)]) == Escape(s)
  {
    hide Escape;
    RenderOne(Chunk(s));
  }

  lemma {:induction false} HighlightStep(e: seq<Event>, n: seq<Event>, from: nat, open: seq<Element>, text: string, l0: string, l: string)
    requires !PicksOriginal(e, n) && n != []
    requires l == (l0 + Escape(Substr(text, from, n[0].offset - from))) + PieceText(TagOf(false, n[0]))
    ensures l0 + Render(Merge(e, n, from, open, text))
         == l + Render(Merge(e, n[1..], n[0].offset, Tracked(open, n[0]), text))
  {
    hide Render, PieceText, Escape, PicksOriginal, Substr;
    var at := n[0].offset;
    var p := [Chunk(Substr(text, from, at - from))];
    var rest := Merge(e, n[1..], at, Tracked(open, n[0]), text);
    ChunkText(Substr(text, from, at - from));
    RenderOne(TagOf(false, n[0]));
    Append(l0, p, [TagOf(false, n[0])] + rest);
    Append(l0 + Render(p), [TagOf(false, n[0])], rest);
  }

  function TagsFor(elements: seq<Element>, start: bool): seq<Piece> {
    if elements == [] then [] else [Tag(false, start, elements[0])] + TagsFor(elements[1..], start)
  }

  lemma {:induction false} OpeningTags(open: seq<Element>)
    ensures TagsFor(open, true) == Opening(open)
    decreases open
  {
    if open != [] {
      OpeningTags(open[1..]);
    }
  }

  lemma {:induction false} ClosingIsReversed(open: seq<Element>)
    ensures TagsFor(Reverse(open), false) == Closing(open)
    decreases open
  {
    if open != [] {
      ClosingIsReversed(Init(open));
      assert Reverse(open)[1..] == Reverse(Init(open));
    }
  }

  /** forEach over the highlighted elements. */
  method WriteTags(before: string, elements: seq<Element>, start: bool) returns (l: string)
    ensures l == before + Render(TagsFor(elements, start))
    ensures start ==> l == before + Render(Opening(elements))
  {
    hide Render, PieceText;
    l := before;
    var i := 0;
    while i < |elements|
      invariant 0 <= i <= |elements|
      invariant l + Render(TagsFor(elements[i..], start)) == before + Render(TagsFor(elements, start))
    {
      var p := Tag(false, start, elements[i]);
      assert elements[i..][0] == elements[i] && elements[i..][1..] == elements[i + 1..];
      RenderOne(p);
      Append(l, [p], TagsFor(elements[i + 1..], start));
      l := l + PieceText(p);
      i := i + 1;
    }
    RenderNothing();
    OpeningTags(elements);
  }

  lemma RenderNothing()
    ensures Render([]) == ""
  {
  }

  /** The do-while loop over original events at one offset. */
  method TakeOriginals(e: EventQueue, n: EventQueue, offset: nat, before: string) returns (l: string)
    requires e != n && e.events != []
    modifies e
    ensures var k := Taken(old(e.events), n.events, offset);
            e.events == old(e.events)[k..] && l == before + Render(TagsOf(old(e.events)[..k]))
  {
    hide Render, PieceText, PicksOriginal;
    ghost var all := e.events;
    ghost var k := Taken(all, n.events, offset);
    ghost var j := 1;
    var event := e.Shift();
    l := before + PieceText(TagOf(true, event));
    var b := Choose(e, n);
    RenderOne(TagOf(true, event));
    FirstTag(all);
    PicksNothing(e.events, n.events);
    while b == e && b.events != [] && b.events[0].offset == offset
      invariant 1 <= j <= k <= |all| && e.events == all[j..] && b == Choose(e, n)
      invariant k == j - 1 + Taken(all[j - 1..], n.events, offset)
      invariant l == before + Render(TagsOf(all[..j]))
      decreases |e.events|
    {
      assert all[j - 1..][1..] == all[j..] && all[j..][0] == all[j];
      event := e.Shift();
      NextTag(all, j);
      l := l + PieceText(TagOf(true, event));
      j := j + 1;
      b := Choose(e, n);
    }
    assert all[j - 1..][1..] == all[j..];
    assert j < |all| ==> all[j - 1..][1] == all[j];
    assert j == k;
  }

  lemma PicksNothing(e: seq<Event>, n: seq<Event>)
    ensures e == [] ==> !PicksOriginal(e, n)
  {
  }

  lemma FirstTag(all: seq<Event>)
    requires all != []
    ensures TagsOf(all[..1]) == [TagOf(true, all[0])] && all[0..] == all
  {
    assert all[..1] == [all[0]] && [all[0]][1..] == [];
  }

  lemma {:induction false} TagsConcat(a: seq<Event>, b: seq<Event>)
    ensures TagsOf(a + b) == TagsOf(a) + TagsOf(b)
    decreases a
  {
    if a == [] {
      assert a + b == b;
    } else {
      TagsConcat(a[1..], b);
      assert (a + b)[1..] == a[1..] + b;
    }
  }

  lemma NextTag(all: seq<Event>, j: nat)
    requires j < |all|
    ensures Render(TagsOf(all[..j + 1])) == Render(TagsOf(all[..j])) + PieceText(TagOf(true, all[j]))
  {
    hide Render, PieceText;
    assert all[..j + 1] == all[..j] + [all[j]];
    TagsConcat(all[..j], [all[j]]);
    assert [all[j]][1..] == [];
    assert TagsOf([all[j]]) == [TagOf(true, all[j])];
    RenderConcat(TagsOf(all[..j]), TagsOf([all[j]]));
    RenderOne(TagOf(true, all[j]));
  }
}
