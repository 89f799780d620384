/** nodeStream of the bundled highlight.js: the tag events of a DOM tree, and what they say about each character. */
module HighlightStreams {
  import opened HighlightText

  datatype Event = Event(start: bool, offset: nat, element: Element)

  datatype Dom =
    | TextNode(text: string)
    | ElementNode(element: Element, children: seq<Dom>)
    | OtherNode

  /** `nodeName.toLowerCase().match(/br|hr|img|input/)`: a match anywhere in the name. */
  predicate Unclosed(e: Element) {
    NeverClosed(Lower(e.name))
  }

  predicate NeverClosed(name: string) {
    Contains(name, "br") || Contains(name, "hr") || Contains(name, "img") || Contains(name, "input")
  }

  predicate Contains(s: string, part: string) {
    exists i :: 0 <= i <= |s| && StartsAt(s, i, part)
  }

  /** The part stands somewhere in the name, at its start or end as well. */
  lemma ContainsIff(s: string, part: string)
    ensures Contains(s, part) <==> exists a, b :: s == a + part + b
  {
    if Contains(s, part) {
      var i :| 0 <= i <= |s| && StartsAt(s, i, part);
      assert s == s[..i] + part + s[i + |part|..];
    }
    if a, b :| s == a + part + b {
      assert s[|a|..] == part + b;
      assert StartsAt(s, |a|, part);
    }
  }

  /** Any name with one of the four inside. */
  lemma NeverClosedNames(a: string, b: string)
    ensures NeverClosed(a + "br" + b) && NeverClosed(a + "hr" + b) && NeverClosed(a + "img" + b) && NeverClosed(a + "input" + b)
  {
    hide Contains;
    ContainsIff(a + "br" + b, "br");
    ContainsIff(a + "hr" + b, "hr");
    ContainsIff(a + "img" + b, "img");
    ContainsIff(a + "input" + b, "input");
  }

  predicate StartsAt(s: string, i: nat, part: string)
    requires i <= |s|
  {
    part <= s[i..]
  }

  // ----- event streams -----

  function Last<T>(s: seq<T>): T
    requires s != []
  {
    s[|s| - 1]
  }

  function Init<T>(s: seq<T>): seq<T>
    requires s != []
  {
    s[..|s| - 1]
  }

  /** The open elements after an event; elements that get no stop event are not waited for. */
  function Push(open: seq<Element>, e: Event): seq<Element> {
    if e.start then (if Unclosed(e.element) then open else open + [e.element])
    else if open == [] then []
    else Init(open)
  }

  predicate Nested(events: seq<Event>, open: seq<Element>)
    decreases events
  {
    if events == [] then open == []
    else
      (!events[0].start ==> open != [] && Last(open) == events[0].element) && Nested(events[1..], Push(open, events[0]))
  }

  predicate Sorted(events: seq<Event>) {
    forall i, j :: 0 <= i < j < |events| ==> events[i].offset <= events[j].offset
  }

  predicate Within(events: seq<Event>, low: nat, high: nat) {
    forall i :: 0 <= i < |events| ==> low <= events[i].offset <= high
  }

  /** The elements open at the character number k. */
  function OpenAt(events: seq<Event>, open: seq<Element>, k: nat): seq<Element>
    decreases events
  {
    if events == [] || events[0].offset > k then open
    else OpenAt(events[1..], Push(open, events[0]), k)
  }

  // ----- nodeStream -----

  function NodeLength(node: Dom): nat
    decreases node
  {
    match node
    case TextNode(text) => |text|
    case ElementNode(_, children) => Length(children)
    case OtherNode => 0
  }

  function Length(nodes: seq<Dom>): nat
    decreases nodes
  {
    if nodes == [] then 0 else NodeLength(nodes[0]) + Length(nodes[1..])
  }

  function Stop(e: Element, offset: nat): seq<Event> {
    if Unclosed(e) then [] else [Event(false, offset, e)]
  }

  function NodeStream(node: Dom, a: nat): seq<Event>
    decreases node
  {
    match node
    case TextNode(_) => []
    case ElementNode(e, children) => [Event(true, a, e)] + (Stream(children, a) + Stop(e, a + Length(children)))
    case OtherNode => []
  }

  function Stream(nodes: seq<Dom>, a: nat): seq<Event>
    decreases nodes
  {
    if nodes == [] then [] else NodeStream(nodes[0], a) + Stream(nodes[1..], a + NodeLength(nodes[0]))
  }

  /** The list of events and the recursive walk that appends to it and carries the offset along. */
  class Recorder {
    var events: seq<Event>

    constructor ()
      ensures events == []
    {
      events := [];
    }

    method Walk(nodes: seq<Dom>, offset: nat) returns (a: nat)
      modifies this
      ensures events == old(events) + Stream(nodes, offset) && a == offset + Length(nodes)
      decreases nodes
    {
      hide Unclosed;
      a := offset;
      ghost var before := events;
      var i := 0;
      while i < |nodes|
        invariant 0 <= i <= |nodes|
        invariant a + Length(nodes[i..]) == offset + Length(nodes)
        invariant events + Stream(nodes[i..], a) == before + Stream(nodes, offset)
      {
        ghost var was, at := events, a;
        a := WalkNode(nodes[i], a);
        assert nodes[i..][0] == nodes[i] && nodes[i..][1..] == nodes[i + 1..];
        Associate(was, NodeStream(nodes[i], at), Stream(nodes[i + 1..], a));
        i := i + 1;
      }
      assert nodes[i..] == [];
    }

    method WalkNode(c: Dom, offset: nat) returns (a: nat)
      modifies this
      ensures events == old(events) + NodeStream(c, offset) && a == offset + NodeLength(c)
      decreases c
    {
      hide Unclosed;
      a := offset;
      match c {
        case TextNode(text) =>
          a := a + |text|;
        case ElementNode(e, children) =>
          ghost var was := events;
          events := events + [Event(true, a, e)];
          a := Walk(children, a);
          if !Unclosed(e) {
            events := events + [Event(false, a, e)];
          }
          Regroup(was, [Event(true, offset, e)], Stream(children, offset), Stop(e, a));
        case OtherNode =>
      }
    }
  }

  lemma Associate<T>(a: seq<T>, b: seq<T>, c: seq<T>)
    ensures (a + b) + c == a + (b + c)
  {
  }

  lemma Regroup<T>(a: seq<T>, b: seq<T>, c: seq<T>, d: seq<T>)
    ensures ((a + b) + c) + d == a + (b + (c + d))
    ensures d == [] ==> (a + b) + c == a + (b + (c + d))
  {
  }

  // ----- what the events say -----

  datatype Spot = Spot(c: char, open: seq<Element>)

  function SpotsOf(text: string, open: seq<Element>): (s: seq<Spot>)
    ensures |s| == |text|
  {
    seq(|text|, i requires 0 <= i < |text| => Spot(text[i], open))
  }

  function NodeCharacters(node: Dom, above: seq<Element>, all: bool): (s: seq<Spot>)
    ensures |s| == NodeLength(node)
    decreases node
  {
    match node
    case TextNode(text) => SpotsOf(text, above)
    case ElementNode(e, children) => Characters(children, if all || !Unclosed(e) then above + [e] else above, all)
    case OtherNode => []
  }

  /** Every character with its ancestors, leaving out those the stream never closes when `all` is not asked. */
  function Characters(nodes: seq<Dom>, above: seq<Element>, all: bool): (s: seq<Spot>)
    ensures |s| == Length(nodes)
    decreases nodes
  {
    if nodes == [] then [] else NodeCharacters(nodes[0], above, all) + Characters(nodes[1..], above, all)
  }

  predicate Ordered(events: seq<Event>, low: nat, high: nat) {
    low <= high && Sorted(events) && Within(events, low, high)
  }

  lemma OrderedConcat(a: seq<Event>, b: seq<Event>, low: nat, mid: nat, high: nat)
    requires Ordered(a, low, mid) && Ordered(b, mid, high)
    ensures Ordered(a + b, low, high)
  {
  }

  lemma {:induction false} NodeOrdered(node: Dom, a: nat)
    ensures Ordered(NodeStream(node, a), a, a + NodeLength(node))
    decreases node
  {
    hide Unclosed, Ordered;
    match node
    case TextNode(_) => NoEvents(a, a + NodeLength(node));
    case OtherNode => NoEvents(a, a);
    case ElementNode(e, children) =>
      var end := a + Length(children);
      StreamOrdered(children, a);
      OneEvent(Event(true, a, e));
      if Unclosed(e) {
        NoEvents(end, end);
      } else {
        OneEvent(Event(false, end, e));
      }
      OrderedConcat(Stream(children, a), Stop(e, end), a, end, end);
      OrderedConcat([Event(true, a, e)], Stream(children, a) + Stop(e, end), a, a, end);
  }

  lemma NoEvents(low: nat, high: nat)
    requires low <= high
    ensures Ordered([], low, high)
  {
  }

  lemma OneEvent(e: Event)
    ensures Ordered([e], e.offset, e.offset)
  {
  }

  lemma {:induction false} StreamOrdered(nodes: seq<Dom>, a: nat)
    ensures Ordered(Stream(nodes, a), a, a + Length(nodes))
    decreases nodes
  {
    hide Ordered;
    if nodes == [] {
      NoEvents(a, a);
    } else {
      var mid := a + NodeLength(nodes[0]);
      NodeOrdered(nodes[0], a);
      StreamOrdered(nodes[1..], mid);
      OrderedConcat(NodeStream(nodes[0], a), Stream(nodes[1..], mid), a, mid, a + Length(nodes));
    }
  }

  lemma {:induction false} NodeNested(node: Dom, a: nat, more: seq<Event>, open: seq<Element>)
    ensures Nested(NodeStream(node, a) + more, open) == Nested(more, open)
    decreases node
  {
    hide Unclosed, Nested;
    if !node.ElementNode? {
      assert NodeStream(node, a) + more == more;
    } else {
      var e, children, end := node.element, node.children, a + Length(node.children);
      var start, stop := Event(true, a, e), Stop(e, end);
      assert NodeStream(node, a) + more == [start] + (Stream(children, a) + (stop + more));
      NestedStep(start, Stream(children, a) + (stop + more), open);
      StreamNested(children, a, stop + more, Push(open, start));
      if !Unclosed(e) {
        NestedStep(stop[0], more, Push(open, start));
        assert Push(Push(open, start), stop[0]) == open;
      } else {
        assert stop + more == more;
      }
    }
  }

  /** Whatever follows sees the same open elements as before. */
  lemma {:induction false} StreamNested(nodes: seq<Dom>, a: nat, more: seq<Event>, open: seq<Element>)
    ensures Nested(Stream(nodes, a) + more, open) == Nested(more, open)
    decreases nodes
  {
    hide Nested;
    if nodes == [] {
      assert Stream(nodes, a) + more == more;
    } else {
      var rest := Stream(nodes[1..], a + NodeLength(nodes[0]));
      assert Stream(nodes, a) + more == NodeStream(nodes[0], a) + (rest + more);
      NodeNested(nodes[0], a, rest + more, open);
      StreamNested(nodes[1..], a + NodeLength(nodes[0]), more, open);
    }
  }

  lemma NothingNested()
    ensures Nested([], [])
  {
  }

  lemma {:induction false} NestedStep(e: Event, rest: seq<Event>, open: seq<Element>)
    ensures Nested([e] + rest, open)
         == ((!e.start ==> open != [] && Last(open) == e.element) && Nested(rest, Push(open, e)))
  {
    assert ([e] + rest)[1..] == rest;
  }

  lemma {:induction false} OpenStep(e: Event, rest: seq<Event>, open: seq<Element>, k: nat)
    ensures OpenAt([e] + rest, open, k) == if e.offset > k then open else OpenAt(rest, Push(open, e), k)
  {
    assert ([e] + rest)[1..] == rest;
  }

  lemma {:induction false} OpenLater(events: seq<Event>, open: seq<Element>, k: nat)
    requires events != [] ==> events[0].offset > k
    ensures OpenAt(events, open, k) == open
  {
  }

  predicate Later(events: seq<Event>, offset: nat) {
    forall i :: 0 <= i < |events| ==> events[i].offset >= offset
  }

  lemma {:induction false} NodeOpens(node: Dom, a: nat, more: seq<Event>, open: seq<Element>, k: nat)
    requires k >= a && Later(more, a + NodeLength(node))
    ensures OpenAt(NodeStream(node, a) + more, open, k)
         == if k < a + NodeLength(node) then NodeCharacters(node, open, false)[k - a].open else OpenAt(more, open, k)
    decreases node
  {
    hide Unclosed, OpenAt;
    match node
    case TextNode(text) =>
      assert NodeStream(node, a) + more == more;
      if k < a + |text| {
        OpenLater(more, open, k);
      }
    case OtherNode =>
      assert NodeStream(node, a) + more == more;
    case ElementNode(e, children) =>
      var end := a + Length(children);
      var start, stop := Event(true, a, e), Stop(e, end);
      assert NodeStream(node, a) + more == [start] + (Stream(children, a) + (stop + more));
      OpenStep(start, Stream(children, a) + (stop + more), open, k);
      StreamOpens(children, a, stop + more, Push(open, start), k);
      if k >= end {
        if !Unclosed(e) {
          OpenStep(stop[0], more, Push(open, start), k);
          assert Push(Push(open, start), stop[0]) == open;
        } else {
          assert stop + more == more;
        }
      }
  }

  /** At every character of the tree the open elements are its ancestors; after it nothing of it is open. */
  lemma {:induction false} StreamOpens(nodes: seq<Dom>, a: nat, more: seq<Event>, open: seq<Element>, k: nat)
    requires k >= a && Later(more, a + Length(nodes))
    ensures OpenAt(Stream(nodes, a) + more, open, k)
         == if k < a + Length(nodes) then Characters(nodes, open, false)[k - a].open else OpenAt(more, open, k)
    decreases nodes
  {
    hide OpenAt;
    if nodes == [] {
      assert Stream(nodes, a) + more == more;
    } else {
      var mid := a + NodeLength(nodes[0]);
      var rest := Stream(nodes[1..], mid);
      StreamOrdered(nodes[1..], mid);
      assert Stream(nodes, a) + more == NodeStream(nodes[0], a) + (rest + more);
      NodeOpens(nodes[0], a, rest + more, open, k);
      if k >= mid {
        StreamOpens(nodes[1..], mid, more, open, k);
      }
    }
  }

  lemma {:induction false} StreamOpensWhole(nodes: seq<Dom>, k: nat)
    requires k < Length(nodes)
    ensures OpenAt(Stream(nodes, 0), [], k) == Characters(nodes, [], false)[k].open
  {
    hide OpenAt, Characters, Stream;
    StreamOpens(nodes, 0, [], [], k);
    assert Stream(nodes, 0) + [] == Stream(nodes, 0);
  }

  /** The stream of a whole tree is sorted, nested, ends by the text length, and opens each character's ancestors. */
  lemma {:induction false} StreamIsFaithful(nodes: seq<Dom>)
    ensures var events := Stream(nodes, 0);
            Sorted(events) && Within(events, 0, Length(nodes)) && Nested(events, [])
            && forall k :: 0 <= k < Length(nodes) ==> OpenAt(events, [], k) == Characters(nodes, [], false)[k].open
  {
    hide OpenAt, Characters, Stream, Nested;
    var events := Stream(nodes, 0);
    StreamOrdered(nodes, 0);
    NothingNested();
    StreamNested(nodes, 0, [], []);
    assert events + [] == events;
    forall k | 0 <= k < Length(nodes)
      ensures OpenAt(events, [], k) == Characters(nodes, [], false)[k].open
    {
      StreamOpensWhole(nodes, k);
    }
  }

  // ----- elements that never get a stop event -----

  /** No element whose name matches the pattern has text inside. */
  predicate CleanNode(node: Dom)
    decreases node
  {
    node.ElementNode? ==> Clean(node.children) && (Unclosed(node.element) ==> Length(node.children) == 0)
  }

  predicate Clean(nodes: seq<Dom>)
    decreases nodes
  {
    nodes == [] || (CleanNode(nodes[0]) && Clean(nodes[1..]))
  }

  predicate Shallower(s: seq<Spot>, t: seq<Spot>) {
    |s| == |t| && forall k :: 0 <= k < |s| ==> |s[k].open| < |t[k].open|
  }

  lemma {:induction false} NodeDeeper(node: Dom, above: seq<Element>, allAbove: seq<Element>)
    requires |above| < |allAbove|
    ensures Shallower(NodeCharacters(node, above, false), NodeCharacters(node, allAbove, true))
    decreases node
  {
    hide Unclosed;
    if node.ElementNode? {
      var e := node.element;
      Deeper(node.children, if Unclosed(e) then above else above + [e], allAbove + [e]);
    }
  }

  lemma {:induction false} Deeper(nodes: seq<Dom>, above: seq<Element>, allAbove: seq<Element>)
    requires |above| < |allAbove|
    ensures Shallower(Characters(nodes, above, false), Characters(nodes, allAbove, true))
    decreases nodes
  {
    if nodes != [] {
      NodeDeeper(nodes[0], above, allAbove);
      Deeper(nodes[1..], above, allAbove);
    }
  }

  lemma {:induction false} NodeKept(node: Dom, above: seq<Element>)
    ensures CleanNode(node) <==> NodeCharacters(node, above, false) == NodeCharacters(node, above, true)
    decreases node
  {
    hide Unclosed;
    if node.ElementNode? {
      var e, children := node.element, node.children;
      if Unclosed(e) {
        Deeper(children, above, above + [e]);
        if Length(children) == 0 {
          EmptyIsClean(children);
        } else {
          assert |Characters(children, above, false)[0].open| < |Characters(children, above + [e], true)[0].open|;
        }
      } else {
        AncestorsKept(children, above + [e]);
      }
    }
  }

  /** The stream keeps all ancestors of all characters exactly when the tree is clean. */
  lemma {:induction false} AncestorsKept(nodes: seq<Dom>, above: seq<Element>)
    ensures Clean(nodes) <==> Characters(nodes, above, false) == Characters(nodes, above, true)
    decreases nodes
  {
    if nodes != [] {
      NodeKept(nodes[0], above);
      AncestorsKept(nodes[1..], above);
      SameParts(NodeCharacters(nodes[0], above, false), Characters(nodes[1..], above, false),
                NodeCharacters(nodes[0], above, true), Characters(nodes[1..], above, true));
    }
  }

  lemma SameParts<T>(a: seq<T>, b: seq<T>, c: seq<T>, d: seq<T>)
    requires |a| == |c|
    ensures a + b == c + d <==> a == c && b == d
  {
    if a + b == c + d {
      assert (a + b)[..|a|] == a && (c + d)[..|c|] == c;
      assert (a + b)[|a|..] == b && (c + d)[|c|..] == d;
    }
  }

  lemma {:induction false} EmptyIsClean(nodes: seq<Dom>)
    requires Length(nodes) == 0
    ensures Clean(nodes)
    decreases nodes
  {
    if nodes != [] {
      EmptyIsClean(nodes[1..]);
      if nodes[0].ElementNode? {
        EmptyIsClean(nodes[0].children);
      }
    }
  }

  /** An `abbr` contains "br": it is opened and never closed. */
  lemma AbbreviationStaysOpen(e: Element)
    requires e.name == "ABBR"
    ensures var nodes := [ElementNode(e, [TextNode("x")])];
            Stream(nodes, 0) == [Event(true, 0, e)] && !Clean(nodes)
            && Characters(nodes, [], true) == [Spot('x', [e])] && Characters(nodes, [], false) == [Spot('x', [])]
  {
    LowerAbbreviation();
    assert Lower(e.name)[2..] == "br";
    assert StartsAt(Lower(e.name), 2, "br");
    var child := [TextNode("x")];
    assert child[1..] == [] && Length(child) == 1 && Stream(child, 0) == [];
    var nodes := [ElementNode(e, child)];
    assert nodes[1..] == [];
    assert SpotsOf("x", [e]) == [Spot('x', [e])] && SpotsOf("x", []) == [Spot('x', [])];
    assert Characters(child, [e], true) == SpotsOf("x", [e]) && Characters(child, [], false) == SpotsOf("x", []);
    assert [] + [e] == [e];
  }

  lemma LowerAbbreviation()
    ensures Lower("ABBR") == "abbr"
  {
    assert "ABBR"[1..] == "BBR" && "BBR"[1..] == "BR" && "BR"[1..] == "R" && "R"[1..] == "";
    assert Lower("") == "" && Lower("R") == "r" && Lower("BR") == "br" && Lower("BBR") == "bbr";
  }
}
