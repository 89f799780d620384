/** What every run of the highlight.js core keeps: the text, once and in order, and well-nested spans. */
module HighlightSpans {
  import opened Wrappers
  import opened HighlightText
  import opened HighlightMerge
  import opened HighlightModes

  // ----- reading the output -----

  function SpanText(spans: seq<Span>): string {
    if spans == [] then "" else (if spans[0].Raw? then spans[0].text else "") + SpanText(spans[1..])
  }

  /** The spans left open, or None when a close has nothing to close. */
  function SpanWalk(spans: seq<Span>, open: seq<Span>): Option<seq<Span>>
    decreases spans
  {
    if spans == [] then Some(open)
    else
      match spans[0]
      case Raw(_) => SpanWalk(spans[1..], open)
      case Open(_, _) => SpanWalk(spans[1..], open + [spans[0]])
      case Close => if open == [] then None else SpanWalk(spans[1..], open[..|open| - 1])
  }

  predicate PlainName(name: string) {
    '>' !in name
  }

  predicate PlainSpans(spans: seq<Span>) {
    forall i :: 0 <= i < |spans| && spans[i].Open? ==> PlainName(spans[i].className)
  }

  lemma {:induction false} SpanTextConcat(a: seq<Span>, b: seq<Span>)
    ensures SpanText(a + b) == SpanText(a) + SpanText(b)
    decreases a
  {
    if a == [] {
      assert a + b == b;
    } else {
      assert (a + b)[0] == a[0] && (a + b)[1..] == a[1..] + b;
      SpanTextConcat(a[1..], b);
      var t := if a[0].Raw? then a[0].text else "";
      assert (t + SpanText(a[1..])) + SpanText(b) == t + (SpanText(a[1..]) + SpanText(b));
    }
  }

  lemma {:induction false} SpanWalkConcat(a: seq<Span>, b: seq<Span>, open: seq<Span>)
    ensures SpanWalk(a + b, open)
         == match SpanWalk(a, open) case None => None case Some(after) => SpanWalk(b, after)
    decreases a
  {
    if a == [] {
      assert a + b == b;
    } else {
      assert (a + b)[0] == a[0] && (a + b)[1..] == a[1..] + b;
      match a[0]
      case Raw(_) => SpanWalkConcat(a[1..], b, open);
      case Open(_, _) => SpanWalkConcat(a[1..], b, open + [a[0]]);
      case Close =>
        if open != [] {
          SpanWalkConcat(a[1..], b, open[..|open| - 1]);
        }
    }
  }

  /** A nested value does not look at what is open around it. */
  lemma {:induction false} SpanWalkInside(a: seq<Span>, outer: seq<Span>, open: seq<Span>)
    ensures SpanWalk(a, open).Some? ==> SpanWalk(a, outer + open) == Some(outer + SpanWalk(a, open).value)
    decreases a
  {
    if a != [] {
      match a[0]
      case Raw(_) => SpanWalkInside(a[1..], outer, open);
      case Open(_, _) =>
        SpanWalkInside(a[1..], outer, open + [a[0]]);
        assert (outer + open) + [a[0]] == outer + (open + [a[0]]);
      case Close =>
        if open != [] {
          SpanWalkInside(a[1..], outer, open[..|open| - 1]);
          assert (outer + open)[..|outer + open| - 1] == outer + open[..|open| - 1];
        }
    }
  }

  lemma {:induction false} OneSpan(s: Span, open: seq<Span>)
    ensures SpanText([s]) == if s.Raw? then s.text else ""
    ensures SpanWalk([s], open) == if s.Raw? then Some(open) else if s.Open? then Some(open + [s])
                                   else if open == [] then None else Some(open[..|open| - 1])
  {
    assert [s][1..] == [];
    assert SpanText([]) == "";
  }

  // ----- values and additions that keep everything -----

  /** Spans that open and close what they open and hold exactly this text. */
  predicate Holds(spans: seq<Span>, text: string) {
    SpanWalk(spans, []) == Some([]) && SpanText(spans) == text && PlainSpans(spans)
  }

  lemma HoldsRaw(text: string)
    ensures Holds([Raw(text)], text)
  {
    OneSpan(Raw(text), []);
  }

  lemma HoldsConcat(a: seq<Span>, b: seq<Span>, s: string, t: string)
    requires Holds(a, s) && Holds(b, t)
    ensures Holds(a + b, s + t)
  {
    hide SpanWalk, SpanText;
    SpanWalkConcat(a, b, []);
    SpanTextConcat(a, b);
  }

  lemma HoldsWrapped(name: string, prefixed: bool, inside: seq<Span>, text: string)
    requires Holds(inside, text) && PlainName(name)
    ensures Holds(Wrapped(name, prefixed, inside), text)
  {
    hide SpanWalk, SpanText;
    var open := Open(name, prefixed);
    OneSpan(open, []);
    OneSpan(Close, [open]);
    SpanWalkInside(inside, [open], []);
    assert [open] + [] == [open] && [open][..0] == [] && [] + [open] == [open];
    SpanWalkConcat([open], inside, []);
    SpanWalkConcat([open] + inside, [Close], []);
    SpanTextConcat([open], inside);
    SpanTextConcat([open] + inside, [Close]);
    assert "" + text == text && text + "" == text;
  }

  // ----- what is asked of the languages -----

  /** What a regular expression search yields: an occurrence at or after the place it starts from. */
  predicate Occurs(m: Match, text: string, from: nat) {
    from <= m.index && m.index + |m.text| <= |text| && text[m.index..m.index + |m.text|] == m.text
  }

  predicate Successive(words: seq<Match>, text: string, from: nat)
    decreases words
  {
    words == [] || (Occurs(words[0], text, from) && Successive(words[1..], text, words[0].index + |words[0].text|))
  }

  ghost predicate Searches(g: Grammar) {
    && (forall m, text, from :: g.lexeme(m, text, from).Some? ==> Occurs(g.lexeme(m, text, from).value, text, from))
    && (forall m, text :: Successive(g.words(m, text), text, 0))
  }

  predicate PlainMode(m: Mode) {
    m.className.Some? ==> PlainName(m.className.value)
  }

  ghost predicate PlainGrammar(g: Grammar) {
    && (forall i :: 0 <= i < |g.modes| ==> PlainMode(g.modes[i]))
    && (forall m, word :: g.keyword(m, word).Some? ==> PlainName(g.keyword(m, word).value.className))
  }

  /** No mode gives its end back and writes it as well, and the language itself starts nothing when it ends. */
  predicate Regular(g: Grammar) {
    (forall i :: 0 <= i < |g.modes| ==> !(g.modes[i].returnEnd && g.modes[i].excludeEnd)) && ModeOf(g, 0).starts.None?
  }

  /** Mode m is reached from mode c by n `starts`. */
  predicate StartsTo(g: Grammar, c: nat, m: nat, n: nat)
    decreases n
  {
    if n == 0 then c == m else ModeOf(g, c).starts.Some? && StartsTo(g, ModeOf(g, c).starts.value, m, n - 1)
  }

  /** Mode m can be open directly below the mode `parent`: it is contained there, or follows by `starts` on one that is. */
  ghost predicate Below(g: Grammar, parent: nat, m: nat) {
    exists c, n :: c in ModeOf(g, parent).contains && StartsTo(g, c, m, n)
  }

  /** The chains of open modes that runs of a grammar build, from the language down. */
  ghost predicate Fits(g: Grammar, chain: seq<nat>) {
    chain != [] && chain[0] == 0 && forall i :: 0 < i < |chain| ==> Below(g, chain[i - 1], chain[i])
  }

  /**
   A lexeme found before the end of the text that is empty starts or ends something, or is illegal in the run. Asked only
   of chains that fit, so a mode that ends at an empty match everywhere meets this.
   */
  ghost predicate NoEmptyLeftover(g: Grammar, ignoreIllegals: bool) {
    forall chain, text, from :: Fits(g, chain) ==> NotLeftOver(g, chain, text, from, ignoreIllegals)
  }

  predicate NotLeftOver(g: Grammar, chain: seq<nat>, text: string, from: nat, ignoreIllegals: bool)
    requires chain != []
  {
    var m := CurrentIndex(g, chain);
    var found := g.lexeme(m, text, from);
    found.Some? && found.value.text == "" && found.value.index < |text| ==>
      || Starting(g, Current(g, chain).contains, "").Some?
      || Ending(g, chain, "", |chain| - 1) != NoEnd
      || (!ignoreIllegals && g.illegal(m, ""))
  }

  ghost predicate GrammarOk(g: Grammar, ignoreIllegals: bool) {
    Searches(g) && PlainGrammar(g) && Regular(g) && NoEmptyLeftover(g, ignoreIllegals)
  }

  /** Highlightings that are begun: a language, and whether illegal lexemes are ignored in it. */
  type Calls = iset<(string, bool)>

  /** The highlightings that a mode of the grammar begins on its buffer. */
  ghost predicate CallsWithin(w: World, g: Grammar, calls: Calls) {
    forall i :: 0 <= i < |g.modes| ==> SubWithin(w, g.modes[i].subLanguage, calls)
  }

  ghost predicate SubWithin(w: World, sub: SubLanguage, calls: Calls) {
    match sub
    case NoSub => true
    case Named(name) => w.registered(name) ==> (name, true) in calls
    case Detected(names) => AllWithin(if names == [] then w.all else names, calls)
  }

  ghost predicate AllWithin(names: seq<string>, calls: Calls) {
    forall i :: 0 <= i < |names| ==> (names[i], false) in calls
  }

  /** All languages that some calls, and the calls made inside of them, bring in. */
  ghost predicate WorldOk(w: World, calls: Calls) {
    forall c :: c in calls && w.resolve(c.0).Some? ==>
      PlainName(c.0) && GrammarOk(w.resolve(c.0).value, c.1) && CallsWithin(w, w.resolve(c.0).value, calls)
  }

  // ----- the buffer -----

  lemma {:induction false} KeywordsHold(g: Grammar, m: nat, buffer: string, words: seq<Match>, from: nat)
    requires PlainGrammar(g) && from <= |buffer| && Successive(words, buffer, from)
    ensures Holds(KeywordSpans(g, m, buffer, words, from), buffer[from..])
    decreases words
  {
    hide Holds, SpanWalk, SpanText, PlainName;
    if words == [] {
      HoldsRaw(buffer[from..]);
    } else {
      var w := words[0];
      var end := w.index + |w.text|;
      KeywordsHold(g, m, buffer, words[1..], end);
      SubstrOf(buffer, from, w.index);
      HoldsRaw(buffer[from..w.index]);
      HoldsRaw(w.text);
      var word := WordSpans(g.keyword(m, w.text), w.text);
      if g.keyword(m, w.text).Some? {
        HoldsWrapped(g.keyword(m, w.text).value.className, true, [Raw(w.text)], w.text);
      }
      HoldsConcat([Raw(buffer[from..w.index])], word, buffer[from..w.index], w.text);
      HoldsConcat([Raw(buffer[from..w.index])] + word, KeywordSpans(g, m, buffer, words[1..], end),
                  buffer[from..w.index] + w.text, buffer[end..]);
      assert (buffer[from..w.index] + w.text) + buffer[end..] == buffer[from..];
    }
  }

  lemma SubstrOf(text: string, from: nat, at: nat)
    requires from <= at <= |text|
    ensures Substr(text, from, at - from) == text[from..at]
  {
    if from == at {
      assert text[from..at] == "";
    }
  }

  /** The chains kept for continued sub-languages fit them. */
  ghost predicate TopsOk(w: World, tops: map<string, seq<nat>>) {
    forall name :: name in tops ==> TopOk(w, name, tops[name])
  }

  ghost predicate TopOk(w: World, name: string, top: seq<nat>) {
    w.resolve(name).Some? ==> Fits(w.resolve(name).value, top)
  }

  /** r is s with the buffer written behind it. */
  ghost predicate Flushed(w: World, s: State, r: State) {
    r.chain == s.chain && r.buffer == s.buffer && TopsOk(w, r.tops)
    && exists added: seq<Span> :: r.out == s.out + added && Holds(added, s.buffer)
  }

  predicate ResultOk(r: Highlighting, text: string) {
    Holds(r.value, text) && (r.language.Some? ==> PlainName(r.language.value))
  }

  lemma FlushedBy(w: World, s: State, r: State, added: seq<Span>)
    requires r.chain == s.chain && r.buffer == s.buffer && TopsOk(w, r.tops)
    requires r.out == s.out + added && Holds(added, s.buffer)
    ensures Flushed(w, s, r)
  {
    hide Holds, TopsOk;
  }

  lemma UndefinedIsPlain()
    ensures PlainName("undefined")
  {
  }

  lemma {:induction false} FlushKeeps(fuel: nat, w: World, calls: Calls, g: Grammar, s: State)
    requires WorldOk(w, calls) && CallsWithin(w, g, calls) && Searches(g) && PlainGrammar(g) && TopsOk(w, s.tops)
    ensures var r := Flush(fuel, w, g, s); r.Done? ==> Flushed(w, s, r.value)
    decreases fuel, 1
  {
    hide WorldOk, Holds, Flushed, TopsOk, TopOk, PlainName, KeywordSpans, KeywordRelevance, Successive, CallsWithin;
    var mode, m := Current(g, s.chain), CurrentIndex(g, s.chain);
    CurrentPlain(g, s.chain);
    CurrentWithin(w, g, s.chain, calls);
    UndefinedIsPlain();
    var r := Flush(fuel, w, g, s);
    if r.Done? {
      HoldsRaw(s.buffer);
      match mode.subLanguage
      case NoSub =>
        if mode.keywords {
          var words := g.words(m, s.buffer);
          KeywordsHold(g, m, s.buffer, words, 0);
          assert s.buffer[0..] == s.buffer;
          FlushedBy(w, s, r.value, KeywordSpans(g, m, s.buffer, words, 0));
        } else {
          FlushedBy(w, s, r.value, [Raw(s.buffer)]);
        }
      case Named(name) =>
        if !w.registered(name) {
          FlushedBy(w, s, r.value, [Raw(s.buffer)]);
        } else {
          var top := if name in s.tops then Some(s.tops[name]) else None;
          TopsHas(w, s.tops, name);
          HighlightKeeps(fuel - 1, w, calls, name, s.buffer, true, top);
          var sub := Highlight(fuel - 1, w, name, s.buffer, true, top).value;
          HoldsWrapped(ClassText(sub.language), false, sub.value, s.buffer);
          TopsPut(w, s.tops, name, sub.top);
          FlushedBy(w, s, r.value, Wrapped(ClassText(sub.language), false, sub.value));
        }
      case Detected(names) =>
        var list := if names == [] then w.all else names;
        AutoKeeps(fuel - 1, w, calls, s.buffer, list);
        var sub := HighlightAuto(fuel - 1, w, s.buffer, list).value;
        HoldsWrapped(ClassText(sub.language), false, sub.value, s.buffer);
        FlushedBy(w, s, r.value, Wrapped(ClassText(sub.language), false, sub.value));
    }
  }

  lemma CurrentPlain(g: Grammar, chain: seq<nat>)
    requires PlainGrammar(g)
    ensures PlainMode(Current(g, chain))
  {
    hide PlainName;
  }

  lemma CurrentWithin(w: World, g: Grammar, chain: seq<nat>, calls: Calls)
    requires CallsWithin(w, g, calls)
    ensures SubWithin(w, Current(g, chain).subLanguage, calls)
  {
    hide AllWithin;
  }

  lemma TopsHas(w: World, tops: map<string, seq<nat>>, name: string)
    requires TopsOk(w, tops)
    ensures name in tops ==> TopOk(w, name, tops[name])
  {
    hide TopOk;
  }

  lemma TopsPut(w: World, tops: map<string, seq<nat>>, name: string, top: Option<seq<nat>>)
    requires TopsOk(w, tops) && (top.Some? ==> TopOk(w, name, top.value))
    ensures top.Some? ==> TopsOk(w, tops[name := top.value])
    ensures TopsOk(w, tops - {name})
  {
    hide TopOk;
  }

  lemma {:induction false} AutoKeeps(fuel: nat, w: World, calls: Calls, text: string, names: seq<string>)
    requires WorldOk(w, calls) && AllWithin(names, calls)
    ensures var r := HighlightAuto(fuel, w, text, names); r.Done? ==> ResultOk(r.value, text)
    decreases fuel, 8
  {
    hide WorldOk, Holds, PlainName, AllWithin;
    HoldsRaw(text);
    BestKeeps(fuel, w, calls, text, names, Highlighting(0, [Raw(text)], None, None));
  }

  lemma {:induction false} BestKeeps(fuel: nat, w: World, calls: Calls, text: string, names: seq<string>, best: Highlighting)
    requires WorldOk(w, calls) && AllWithin(names, calls) && ResultOk(best, text)
    ensures var r := Best(fuel, w, text, names, best); r.Done? ==> ResultOk(r.value, text)
    decreases fuel, 7, |names|
  {
    hide WorldOk, Holds, PlainName, TopOk;
    if names != [] {
      assert AllWithin(names[1..], calls);
      if w.resolve(names[0]).None? {
        BestKeeps(fuel, w, calls, text, names[1..], best);
      } else {
        HighlightKeeps(fuel, w, calls, names[0], text, false, None);
        NameIsPlain(w, calls, (names[0], false));
        var r := Highlight(fuel, w, names[0], text, false, None);
        if r.Done? {
          var named := r.value.(language := Some(names[0]));
          BestKeeps(fuel, w, calls, text, names[1..], if named.relevance > best.relevance then named else best);
        }
      }
    }
  }

  lemma NameIsPlain(w: World, calls: Calls, c: (string, bool))
    requires WorldOk(w, calls) && c in calls && w.resolve(c.0).Some?
    ensures PlainName(c.0)
  {
    hide GrammarOk, CallsWithin, PlainName;
  }

  // ----- a state between lexemes -----

  /** The spans open are those of the modes below the language, and nothing of the text read is lost. */
  ghost predicate Consistent(w: World, g: Grammar, s: State, readText: string) {
    Fits(g, s.chain) && TopsOk(w, s.tops) && PlainSpans(s.out)
    && SpanWalk(s.out, []) == Some(OpeningSpans(g, s.chain)) && SpanText(s.out) + s.buffer == readText
  }

  /** The same, with the buffer still to be written or already thrown away. */
  ghost predicate Nests(w: World, g: Grammar, s: State, written: string) {
    Fits(g, s.chain) && TopsOk(w, s.tops) && PlainSpans(s.out)
    && SpanWalk(s.out, []) == Some(OpeningSpans(g, s.chain)) && SpanText(s.out) == written
  }

  lemma {:induction false} Add(out: seq<Span>, added: seq<Span>, open: seq<Span>, text: string)
    requires SpanWalk(out, []) == Some(open) && PlainSpans(out) && Holds(added, text)
    ensures SpanWalk(out + added, []) == Some(open) && PlainSpans(out + added)
    ensures SpanText(out + added) == SpanText(out) + text
  {
    hide SpanWalk, SpanText;
    SpanWalkConcat(out, added, []);
    SpanWalkInside(added, open, []);
    assert open + [] == open;
    SpanTextConcat(out, added);
  }

  lemma FlushedNests(w: World, g: Grammar, s: State, r: State, readText: string)
    requires Consistent(w, g, s, readText) && Flushed(w, s, r)
    ensures Nests(w, g, r, readText)
  {
    hide SpanWalk, SpanText, Holds, OpeningSpans, Fits, TopsOk;
    var added :| r.out == s.out + added && Holds(added, s.buffer);
    Add(s.out, added, OpeningSpans(g, s.chain), s.buffer);
  }

  lemma StartedNests(w: World, g: Grammar, s: State, m: nat, lexeme: string, written: string)
    requires Nests(w, g, s, written) && PlainGrammar(g) && Fits(g, s.chain + [m])
    ensures Consistent(w, g, Started(g, s, m, lexeme), written + (if ModeOf(g, m).returnBegin then "" else lexeme))
  {
    hide SpanWalk, SpanText, Holds, PlainName, TopsOk, Fits;
    var mode, r := ModeOf(g, m), Started(g, s, m, lexeme);
    var before := if !mode.returnBegin && mode.excludeBegin then [Raw(lexeme)] else [];
    HoldsRaw(lexeme);
    HoldsNothing();
    CurrentPlain(g, [m]);
    var o0 := OpeningSpans(g, s.chain);
    Add(s.out, before, o0, if before == [] then "" else lexeme);
    FitsLast(g, s.chain);
    assert r.chain[..|r.chain| - 1] == s.chain && s.out + [] == s.out;
    var open := match mode.className case None => [] case Some(name) => [Open(name, true)];
    assert OpeningSpans(g, r.chain) == o0 + open;
    assert r.out == (s.out + before) + open;
    SpanWalkConcat(s.out + before, open, []);
    SpanTextConcat(s.out + before, open);
    if open == [] {
      NoSpans(o0);
      assert o0 + [] == o0;
    } else {
      OneSpan(open[0], o0);
    }
    assert SpanText(r.out) == SpanText(s.out + before) + "";
  }

  lemma HoldsNothing()
    ensures Holds([], "")
  {
  }

  lemma {:induction false} NoSpans(open: seq<Span>)
    ensures SpanText([]) == "" && SpanWalk([], open) == Some(open)
  {
  }

  lemma {:induction false} PoppedNests(w: World, g: Grammar, s: State, j: nat, written: string)
    requires 1 <= j <= |s.chain| && Nests(w, g, s, written)
    ensures Nests(w, g, Popped(g, s, j), written) && Popped(g, s, j).chain == s.chain[..j]
    decreases |s.chain|
  {
    hide SpanWalk, SpanText, TopsOk, Fits;
    FitsBelow(g, s.chain, j);
    if j < |s.chain| {
      FitsBelow(g, s.chain, |s.chain| - 1);
      var mode := Current(g, s.chain);
      var closing, below := CloseIf(mode.className), s.chain[..|s.chain| - 1];
      var r := Left(g, s);
      SpanWalkConcat(s.out, closing, []);
      SpanTextConcat(s.out, closing);
      var open, o0 := OpeningSpans(g, s.chain), OpeningSpans(g, below);
      if mode.className.Some? {
        OneSpan(Close, open);
        assert open[..|open| - 1] == o0;
      } else {
        NoSpans(open);
        assert open == o0;
      }
      assert SpanText(s.out) + "" == SpanText(s.out);
      PoppedNests(w, g, r, j, written);
      assert below[..j] == s.chain[..j];
    } else {
      assert s.chain[..j] == s.chain;
    }
  }

  // ----- chains that fit -----

  lemma FitsBelow(g: Grammar, chain: seq<nat>, j: nat)
    requires Fits(g, chain) && 1 <= j <= |chain|
    ensures Fits(g, chain[..j])
  {
    hide Below;
  }

  lemma FitsPushed(g: Grammar, chain: seq<nat>, m: nat)
    requires Fits(g, chain) && Below(g, chain[|chain| - 1], m)
    ensures Fits(g, chain + [m])
  {
    hide Below;
    var more := chain + [m];
    forall i | 0 < i < |more| ensures Below(g, more[i - 1], more[i]) {
      assert i < |chain| ==> more[i] == chain[i];
    }
  }

  lemma {:induction false} StartingContained(g: Grammar, contains: seq<nat>, lexeme: string)
    ensures var r := Starting(g, contains, lexeme); r.Some? ==> r.value in contains
    decreases contains
  {
    if contains != [] && !g.begins(contains[0], lexeme) {
      StartingContained(g, contains[1..], lexeme);
    }
  }

  lemma FitsStarting(g: Grammar, chain: seq<nat>, lexeme: string)
    requires Fits(g, chain)
    ensures var r := Starting(g, Current(g, chain).contains, lexeme); r.Some? ==> Fits(g, chain + [r.value])
  {
    hide Fits, Starting;
    StartingContained(g, Current(g, chain).contains, lexeme);
    var r := Starting(g, Current(g, chain).contains, lexeme);
    if r.Some? {
      assert StartsTo(g, r.value, r.value, 0);
      FitsLast(g, chain);
      FitsPushed(g, chain, r.value);
    }
  }

  lemma FitsLast(g: Grammar, chain: seq<nat>)
    requires Fits(g, chain)
    ensures chain != []
  {
  }

  lemma {:induction false} StartsOn(g: Grammar, c: nat, m: nat, n: nat)
    requires StartsTo(g, c, m, n) && ModeOf(g, m).starts.Some?
    ensures StartsTo(g, c, ModeOf(g, m).starts.value, n + 1)
    decreases n
  {
    if n == 0 {
      assert StartsTo(g, ModeOf(g, m).starts.value, ModeOf(g, m).starts.value, 0);
    } else {
      StartsOn(g, ModeOf(g, c).starts.value, m, n - 1);
    }
  }

  /** A mode that ends and `starts` another leaves that one in its place. */
  lemma FitsStarts(g: Grammar, chain: seq<nat>, j: nat)
    requires Fits(g, chain) && 1 <= j < |chain| && ModeOf(g, chain[j]).starts.Some?
    ensures Fits(g, chain[..j] + [ModeOf(g, chain[j]).starts.value])
  {
    hide StartsTo;
    FitsBelow(g, chain, j);
    assert Below(g, chain[j - 1], chain[j]);
    var c, n :| c in ModeOf(g, chain[j - 1]).contains && StartsTo(g, c, chain[j], n);
    StartsOn(g, c, chain[j], n);
    FitsPushed(g, chain[..j], ModeOf(g, chain[j]).starts.value);
  }

  // ----- one lexeme -----

  /** The lexeme ends a mode that gives its end back and writes it as well. */
  predicate WritesEndTwice(g: Grammar, s: State, lexeme: string)
    requires s.chain != []
  {
    Starting(g, Current(g, s.chain).contains, lexeme).None? && Ending(g, s.chain, lexeme, |s.chain| - 1).EndsAt?
    && Current(g, s.chain).returnEnd && Current(g, s.chain).excludeEnd && lexeme != ""
  }

  /** An empty lexeme that neither starts nor ends a mode: the next character is stepped over. */
  predicate StepsOver(g: Grammar, s: State, lexeme: string, rest: string)
    requires s.chain != []
  {
    Starting(g, Current(g, s.chain).contains, lexeme).None? && Ending(g, s.chain, lexeme, |s.chain| - 1) == NoEnd
    && lexeme == "" && rest != ""
  }

  /** What reaching the state s and reading on from k accounts for. */
  function Accounted(s: State, text: string, k: nat): string {
    (SpanText(s.out) + s.buffer) + Rest(text, k)
  }

  lemma {:induction false} StartingLexeme(fuel: nat, w: World, g: Grammar, s: State, lexeme: string, m: nat, readText: string)
    requires Consistent(w, g, s, readText) && PlainGrammar(g)
    requires Flush(fuel, w, g, s).Done? && Flushed(w, s, Flush(fuel, w, g, s).value) && Fits(g, s.chain + [m])
    ensures Consistent(w, g, Started(g, Flush(fuel, w, g, s).value, m, lexeme),
                       readText + (if ModeOf(g, m).returnBegin then "" else lexeme))
  {
    hide Flush, Flushed, Consistent, Nests, PlainGrammar, Started, Fits;
    FlushedNests(w, g, s, Flush(fuel, w, g, s).value, readText);
    StartedNests(w, g, Flush(fuel, w, g, s).value, m, lexeme, readText);
  }

  lemma BufferMore(w: World, g: Grammar, s: State, readText: string, more: string)
    requires Consistent(w, g, s, readText)
    ensures Consistent(w, g, s.(buffer := s.buffer + more), readText + more)
  {
    hide SpanWalk, SpanText, TopsOk, OpeningSpans, Fits;
    assert SpanText(s.out) + (s.buffer + more) == (SpanText(s.out) + s.buffer) + more;
  }

  /** What leaving modes adds to the text read: the lexeme, unless it is only given back. */
  lemma {:induction false} EndingLexeme(fuel: nat, w: World, g: Grammar, s: State, lexeme: string, j: nat, readText: string)
    requires Consistent(w, g, s, readText) && PlainGrammar(g) && j < |s.chain| && ModeOf(g, 0).starts.None?
    requires var mode := Current(g, s.chain);
             var s1 := if mode.returnEnd || mode.excludeEnd then s else s.(buffer := s.buffer + lexeme);
             Flush(fuel, w, g, s1).Done? ==> Flushed(w, s1, Flush(fuel, w, g, s1).value)
    ensures var r := EndLexeme(fuel, w, g, s, lexeme, j);
            var mode := Current(g, s.chain);
            r.Done? ==> Consistent(w, g, r.value.state, readText + (if mode.returnEnd && !mode.excludeEnd then "" else lexeme))
                        && r.value.consumed == if mode.returnEnd then 0 else |lexeme|
  {
    hide Flush, Flushed, Consistent, Nests, PlainGrammar, Popped, Started, Fits;
    var r := EndLexeme(fuel, w, g, s, lexeme, j);
    if r.Done? {
      var mode := Current(g, s.chain);
      var plain := !(mode.returnEnd || mode.excludeEnd);
      var s1 := if plain then s.(buffer := s.buffer + lexeme) else s;
      var read1 := if plain then readText + lexeme else readText;
      BufferMore(w, g, s, readText, lexeme);
      var flushed := Flush(fuel, w, g, s1).value;
      FlushedNests(w, g, s1, flushed, read1);
      ChainStart(w, g, s, readText);
      if j == 0 {
        PoppedAll(g, flushed);
        assert false;
      }
      PoppedNests(w, g, flushed, j, read1);
      var popped := Popped(g, flushed, j);
      ExcludedEnd(w, g, popped, read1, mode.excludeEnd, lexeme);
      var cleared := popped.(out := popped.out + (if mode.excludeEnd then [Raw(lexeme)] else []), buffer := "");
      var read2 := read1 + (if mode.excludeEnd then lexeme else "");
      var ended := ModeOf(g, s.chain[j]);
      if ended.starts.Some? {
        FitsStarts(g, s.chain, j);
        StartedNests(w, g, cleared, ended.starts.value, "", read2);
        assert read2 + "" == read2;
      }
      assert readText + "" == readText && (readText + lexeme) + "" == readText + lexeme;
    }
  }

  lemma ChainStart(w: World, g: Grammar, s: State, readText: string)
    requires Consistent(w, g, s, readText)
    ensures Fits(g, s.chain) && s.chain[0] == 0
  {
  }

  lemma {:induction false} PoppedAll(g: Grammar, s: State)
    ensures Popped(g, s, 0).chain == []
    decreases |s.chain|
  {
    if s.chain != [] {
      PoppedAll(g, Left(g, s));
    }
  }

  lemma ExcludedEnd(w: World, g: Grammar, s: State, written: string, excluded: bool, lexeme: string)
    requires Nests(w, g, s, written)
    ensures var r := s.(out := s.out + (if excluded then [Raw(lexeme)] else []), buffer := "");
            var all := written + (if excluded then lexeme else "");
            Nests(w, g, r, all) && Consistent(w, g, r, all)
  {
    hide SpanWalk, SpanText, TopsOk, OpeningSpans, Holds, Fits;
    HoldsRaw(lexeme);
    HoldsNothing();
    Add(s.out, if excluded then [Raw(lexeme)] else [], OpeningSpans(g, s.chain), if excluded then lexeme else "");
    assert forall t: string :: t + "" == t;
  }

  /** One lexeme keeps the nesting, and it keeps the text exactly when it is not one of the two exceptions. */
  lemma LexemeKeeps(fuel: nat, w: World, calls: Calls, g: Grammar, s: State, lexeme: string, ignoreIllegals: bool,
                    text: string, i: nat)
    returns (readText: string)
    requires WorldOk(w, calls) && CallsWithin(w, g, calls) && Searches(g) && PlainGrammar(g) && ModeOf(g, 0).starts.None?
    requires i + |lexeme| <= |text| && text[i..i + |lexeme|] == lexeme && Consistent(w, g, s, text[..i])
    ensures var r := Lexeme(fuel, w, g, s, lexeme, ignoreIllegals);
            r.Done? && r.value.Read? ==>
              Consistent(w, g, r.value.state, readText)
              && (Accounted(r.value.state, text, i + r.value.consumed) == text
                  <==> !WritesEndTwice(g, s, lexeme) && !StepsOver(g, s, lexeme, text[i..]))
              && (Accounted(r.value.state, text, i + r.value.consumed) == text
                  ==> readText == text[..if i + r.value.consumed <= |text| then i + r.value.consumed else |text|])
    decreases fuel, 2
  {
    hide WorldOk, Searches, PlainGrammar, Flush, Flushed, Consistent, Started, EndLexeme, Starting, Ending, Accounted, Rest, Fits, CallsWithin;
    TopsOfState(w, g, s, text[..i]);
    var r := Lexeme(fuel, w, g, s, lexeme, ignoreIllegals);
    var mode := Current(g, s.chain);
    readText := text[..i];
    if r.Done? && r.value.Read? {
      FlushKeeps(fuel, w, calls, g, s);
      FlushKeeps(fuel, w, calls, g, s.(buffer := s.buffer + lexeme));
      var starting := Starting(g, mode.contains, lexeme);
      ChainStart(w, g, s, text[..i]);
      FitsStarting(g, s.chain, lexeme);
      if starting.Some? {
        var m := starting.value;
        StartingLexeme(fuel, w, g, s, lexeme, m, text[..i]);
        readText := text[..i] + (if ModeOf(g, m).returnBegin then "" else lexeme);
      } else {
        var ending := Ending(g, s.chain, lexeme, |s.chain| - 1);
        if ending.EndsAt? {
          EndingLexeme(fuel, w, g, s, lexeme, ending.index, text[..i]);
          readText := text[..i] + (if mode.returnEnd && !mode.excludeEnd then "" else lexeme);
        } else {
          BufferMore(w, g, s, text[..i], lexeme);
          readText := text[..i] + lexeme;
        }
      }
      Account(w, g, r.value.state, readText, text, i, lexeme, r.value.consumed);
    }
  }

  lemma TopsOfState(w: World, g: Grammar, s: State, readText: string)
    requires Consistent(w, g, s, readText)
    ensures TopsOk(w, s.tops) && s.chain != []
  {
  }

  /** Lengths decide whether the text read so far and the rest make up the text. */
  lemma Account(w: World, g: Grammar, s: State, readText: string, text: string, i: nat, lexeme: string, consumed: nat)
    requires Consistent(w, g, s, readText) && i + |lexeme| <= |text| && text[i..i + |lexeme|] == lexeme
    requires readText == text[..i] || readText == text[..i] + lexeme
    requires consumed == 0 || consumed == |lexeme| || (lexeme == "" && consumed == 1)
    ensures Accounted(s, text, i + consumed) == text
       <==> |readText| + (if i + consumed <= |text| then |text| - i - consumed else 0) == |text|
    ensures Accounted(s, text, i + consumed) == text
        ==> readText == text[..if i + consumed <= |text| then i + consumed else |text|]
  {
    hide SpanText, SpanWalk, OpeningSpans, TopsOk, Fits;
    assert Accounted(s, text, i + consumed) == readText + Rest(text, i + consumed);
    assert text[..i] + lexeme == text[..i + |lexeme|];
    if |readText| + |Rest(text, i + consumed)| == |text| {
      if i + consumed <= |text| {
        assert |readText| == i + consumed;
        assert readText == text[..i + consumed];
        assert text[..i + consumed] + text[i + consumed..] == text;
      } else {
        assert readText == text;
        assert readText + "" == text;
      }
    }
  }

  // ----- whole runs -----

  /** The state and the place in the text from which the next lexeme is searched. */
  datatype Place = Place(state: State, k: nat)

  /** Where a run is after n lexemes, when none of them was illegal and nothing threw. */
  function AfterLexemes(fuel: nat, w: World, g: Grammar, at: Place, text: string, ignoreIllegals: bool, n: nat): (r: Option<Place>)
    requires at.state.chain != []
    ensures r.Some? ==> r.value.state.chain != []
    decreases n
  {
    if n == 0 then Some(at)
    else
      var next := NextPlace(fuel, w, g, at, text, ignoreIllegals);
      if next.None? || fuel == 0 then None else AfterLexemes(fuel - 1, w, g, next.value, text, ignoreIllegals, n - 1)
  }

  function NextPlace(fuel: nat, w: World, g: Grammar, at: Place, text: string, ignoreIllegals: bool): (r: Option<Place>)
    requires at.state.chain != []
    ensures r.Some? ==> r.value.state.chain != []
  {
    match g.lexeme(CurrentIndex(g, at.state.chain), text, at.k)
    case None => None
    case Some(m) =>
      var before := at.state.(buffer := at.state.buffer + Substr(text, at.k, m.index - at.k));
      var r := Lexeme(fuel, w, g, before, m.text, ignoreIllegals);
      if r.Done? && r.value.Read? then Some(Place(r.value.state, m.index + r.value.consumed)) else None
  }

  /** The state is consistent with the text before its place. */
  ghost predicate PlaceOk(w: World, g: Grammar, at: Place, text: string) {
    Consistent(w, g, at.state, text[..if at.k <= |text| then at.k else |text|])
  }

  lemma {:induction false} NextKeeps(fuel: nat, w: World, calls: Calls, g: Grammar, at: Place, text: string, ignoreIllegals: bool)
    requires WorldOk(w, calls) && CallsWithin(w, g, calls) && GrammarOk(g, ignoreIllegals)
    requires at.state.chain != [] && PlaceOk(w, g, at, text)
    ensures var r := NextPlace(fuel, w, g, at, text, ignoreIllegals); r.Some? ==> PlaceOk(w, g, r.value, text)
    decreases fuel, 3
  {
    hide WorldOk, CallsWithin, Searches, PlainGrammar, Regular, NoEmptyLeftover, Consistent, Lexeme, Substr, Rest;
    var s, k := at.state, at.k;
    var r := NextPlace(fuel, w, g, at, text, ignoreIllegals);
    if r.Some? {
      var m := g.lexeme(CurrentIndex(g, s.chain), text, k).value;
      FoundOccurs(g, CurrentIndex(g, s.chain), text, k);
      SubstrOf(text, k, m.index);
      BufferMore(w, g, s, text[..k], Substr(text, k, m.index - k));
      assert text[..k] + text[k..m.index] == text[..m.index];
      var before := s.(buffer := s.buffer + Substr(text, k, m.index - k));
      RootPlain(g);
      var readText := LexemeKeeps(fuel, w, calls, g, before, m.text, ignoreIllegals, text, m.index);
      ChainStart(w, g, before, text[..m.index]);
      NoExceptions(fuel, w, g, before, text, k, ignoreIllegals);
    }
  }

  /** Every state a run reaches between lexemes, whether the run ends or not, is consistent with the text read so far. */
  lemma {:induction false} ReachedKeeps(fuel: nat, w: World, calls: Calls, g: Grammar, at: Place, text: string,
                                        ignoreIllegals: bool, n: nat)
    requires WorldOk(w, calls) && CallsWithin(w, g, calls) && GrammarOk(g, ignoreIllegals)
    requires at.state.chain != [] && PlaceOk(w, g, at, text)
    ensures var r := AfterLexemes(fuel, w, g, at, text, ignoreIllegals, n); r.Some? ==> PlaceOk(w, g, r.value, text)
    decreases fuel, 4, n
  {
    hide WorldOk, CallsWithin, GrammarOk, PlaceOk, NextPlace;
    if n > 0 && fuel > 0 {
      var next := NextPlace(fuel, w, g, at, text, ignoreIllegals);
      NextKeeps(fuel, w, calls, g, at, text, ignoreIllegals);
      if next.Some? {
        ReachedKeeps(fuel - 1, w, calls, g, next.value, text, ignoreIllegals, n - 1);
      }
    }
  }

  /** A finished run is some number of lexemes, a place where none is found, and the rest of the text flushed. */
  lemma {:induction false} LoopIsAfter(fuel: nat, w: World, g: Grammar, at: Place, text: string, ignoreIllegals: bool)
    returns (n: nat, last: Place)
    requires at.state.chain != []
    requires var r := Loop(fuel, w, g, at.state, text, at.k, ignoreIllegals); r.Done? && r.value.Finished?
    ensures n <= fuel && AfterLexemes(fuel, w, g, at, text, ignoreIllegals, n) == Some(last) && last.state.chain != []
    ensures g.lexeme(CurrentIndex(g, last.state.chain), text, last.k) == None
    ensures Flush(fuel - n, w, g, AtEnd(last, text)) == Done(Loop(fuel, w, g, at.state, text, at.k, ignoreIllegals).value.state)
    decreases fuel
  {
    hide Loop, NextPlace, Flush, CurrentIndex, Rest;
    LoopUnfolds(fuel, w, g, at, text, ignoreIllegals);
    if g.lexeme(CurrentIndex(g, at.state.chain), text, at.k).None? {
      n, last := 0, at;
    } else {
      var next := NextPlace(fuel, w, g, at, text, ignoreIllegals).value;
      var more;
      more, last := LoopIsAfter(fuel - 1, w, g, next, text, ignoreIllegals);
      n := more + 1;
    }
  }

  function AtEnd(last: Place, text: string): State {
    last.state.(buffer := last.state.buffer + Rest(text, last.k))
  }

  lemma LoopUnfolds(fuel: nat, w: World, g: Grammar, at: Place, text: string, ignoreIllegals: bool)
    requires at.state.chain != []
    requires var r := Loop(fuel, w, g, at.state, text, at.k, ignoreIllegals); r.Done? && r.value.Finished?
    ensures g.lexeme(CurrentIndex(g, at.state.chain), text, at.k).None? ==>
              Flush(fuel, w, g, AtEnd(at, text)) == Done(Loop(fuel, w, g, at.state, text, at.k, ignoreIllegals).value.state)
    ensures g.lexeme(CurrentIndex(g, at.state.chain), text, at.k).Some? ==>
              var next := NextPlace(fuel, w, g, at, text, ignoreIllegals);
              next.Some? && fuel > 0
              && Loop(fuel, w, g, at.state, text, at.k, ignoreIllegals)
              == Loop(fuel - 1, w, g, next.value.state, text, next.value.k, ignoreIllegals)
  {
    hide Lexeme, Flush, CurrentIndex, Rest, Substr;
  }

  /** A run that finishes has written the whole text, nested. */
  lemma {:induction false} LoopKeeps(fuel: nat, w: World, calls: Calls, g: Grammar, s: State, text: string, k: nat, ignoreIllegals: bool)
    requires WorldOk(w, calls) && CallsWithin(w, g, calls) && GrammarOk(g, ignoreIllegals)
    requires Consistent(w, g, s, text[..if k <= |text| then k else |text|])
    ensures var r := Loop(fuel, w, g, s, text, k, ignoreIllegals);
            r.Done? && r.value.Finished? ==> Nests(w, g, r.value.state, text)
    decreases fuel, 5
  {
    hide WorldOk, CallsWithin, Searches, PlainGrammar, Regular, NoEmptyLeftover, Flush, Flushed, Consistent, Lexeme, Nests, Loop;
    TopsOfState(w, g, s, text[..if k <= |text| then k else |text|]);
    var r := Loop(fuel, w, g, s, text, k, ignoreIllegals);
    if r.Done? && r.value.Finished? {
      var n, last := LoopIsAfter(fuel, w, g, Place(s, k), text, ignoreIllegals);
      ReachedKeeps(fuel, w, calls, g, Place(s, k), text, ignoreIllegals, n);
      RestOf(text, last.k);
      var before := text[..if last.k <= |text| then last.k else |text|];
      BufferMore(w, g, last.state, before, Rest(text, last.k));
      var end := AtEnd(last, text);
      TopsOfState(w, g, end, text);
      FlushKeeps(fuel - n, w, calls, g, end);
      FlushedNests(w, g, end, r.value.state, text);
    }
  }

  lemma RestOf(text: string, k: nat)
    ensures text[..if k <= |text| then k else |text|] + Rest(text, k) == text
  {
  }

  lemma RootPlain(g: Grammar)
    requires Regular(g)
    ensures ModeOf(g, 0).starts.None?
  {
  }

  lemma FoundOccurs(g: Grammar, m: nat, text: string, k: nat)
    requires Searches(g) && g.lexeme(m, text, k).Some?
    ensures Occurs(g.lexeme(m, text, k).value, text, k)
  {
    hide Successive;
  }

  lemma NoExceptions(fuel: nat, w: World, g: Grammar, s: State, text: string, k: nat, ignoreIllegals: bool)
    requires Regular(g) && NoEmptyLeftover(g, ignoreIllegals) && Fits(g, s.chain)
    requires g.lexeme(CurrentIndex(g, s.chain), text, k).Some?
    requires var m := g.lexeme(CurrentIndex(g, s.chain), text, k).value;
             Lexeme(fuel, w, g, s, m.text, ignoreIllegals) != Done(Illegal) && m.index <= |text|
    ensures var m := g.lexeme(CurrentIndex(g, s.chain), text, k).value;
            !WritesEndTwice(g, s, m.text) && !StepsOver(g, s, m.text, text[m.index..])
  {
    hide Starting, Ending, EndLexeme, Flush, Fits;
    FitsLast(g, s.chain);
    assert NotLeftOver(g, s.chain, text, k, ignoreIllegals);
  }

  /** A finished highlighting, of a whole language or of part of a text in a sub-language: well nested, text kept. */
  lemma {:induction false} HighlightKeeps(fuel: nat, w: World, calls: Calls, name: string, text: string, ignoreIllegals: bool,
                                          top: Option<seq<nat>>)
    requires WorldOk(w, calls) && (name, ignoreIllegals) in calls && (top.Some? ==> TopOk(w, name, top.value))
    ensures var r := Highlight(fuel, w, name, text, ignoreIllegals, top);
            r.Done? ==> ResultOk(r.value, text) && (r.value.top.Some? ==> TopOk(w, name, r.value.top.value))
    decreases fuel, 6
  {
    hide WorldOk, GrammarOk, CallsWithin, Holds, Consistent, Nests, Loop, OpeningSpans, ClosingSpans, PlainName;
    var r := Highlight(fuel, w, name, text, ignoreIllegals, top);
    if r.Done? {
      var g := ResolvedOk(w, calls, name, ignoreIllegals);
      var chain := if top.Some? && top.value != [] then top.value else [0];
      var s := State(OpeningSpans(g, chain), "", chain, 0, map[]);
      StartConsistent(w, g, s, ignoreIllegals);
      assert text[..0] == "";
      LoopKeeps(fuel, w, calls, g, s, text, 0, ignoreIllegals);
      HoldsRaw(text);
      var stop := Loop(fuel, w, g, s, text, 0, ignoreIllegals).value;
      if stop.Finished? {
        ClosingHolds(w, g, stop.state, text);
      }
    }
  }

  lemma ResolvedOk(w: World, calls: Calls, name: string, ignoreIllegals: bool) returns (g: Grammar)
    requires WorldOk(w, calls) && (name, ignoreIllegals) in calls && w.resolve(name).Some?
    ensures g == w.resolve(name).value && GrammarOk(g, ignoreIllegals) && CallsWithin(w, g, calls) && PlainName(name)
  {
    hide GrammarOk, CallsWithin, PlainName;
    assert ((name, ignoreIllegals)).0 == name;
    g := w.resolve(name).value;
  }

  lemma {:induction false} OpeningReads(g: Grammar, chain: seq<nat>)
    requires PlainGrammar(g)
    ensures SpanWalk(OpeningSpans(g, chain), []) == Some(OpeningSpans(g, chain))
    ensures SpanText(OpeningSpans(g, chain)) == "" && PlainSpans(OpeningSpans(g, chain))
    decreases chain
  {
    hide SpanWalk, SpanText, PlainName;
    if |chain| <= 1 {
      NoSpans([]);
    } else {
      var below := OpeningSpans(g, chain[..|chain| - 1]);
      OpeningReads(g, chain[..|chain| - 1]);
      CurrentPlain(g, chain);
      if Current(g, chain).className.Some? {
        var o := Open(Current(g, chain).className.value, true);
        SpanWalkConcat(below, [o], []);
        SpanTextConcat(below, [o]);
        OneSpan(o, below);
        assert OpeningSpans(g, chain) == below + [o];
      } else {
        assert OpeningSpans(g, chain) == below + [] == below;
      }
    }
  }

  lemma {:induction false} StartConsistent(w: World, g: Grammar, s: State, ignoreIllegals: bool)
    requires GrammarOk(g, ignoreIllegals) && Fits(g, s.chain) && s == State(OpeningSpans(g, s.chain), "", s.chain, 0, map[])
    ensures Consistent(w, g, s, "")
  {
    hide SpanWalk, SpanText, OpeningSpans, Searches, Regular, NoEmptyLeftover, Fits;
    OpeningReads(g, s.chain);
  }

  lemma {:induction false} ClosingReads(g: Grammar, chain: seq<nat>)
    ensures SpanWalk(ClosingSpans(g, chain), OpeningSpans(g, chain)) == Some([])
    ensures SpanText(ClosingSpans(g, chain)) == "" && PlainSpans(ClosingSpans(g, chain))
    decreases chain
  {
    hide SpanWalk, SpanText;
    if |chain| <= 1 {
      NoSpans([]);
    } else {
      var below, open := chain[..|chain| - 1], OpeningSpans(g, chain);
      ClosingReads(g, below);
      if Current(g, chain).className.Some? {
        OneSpan(Close, open);
        assert open[..|open| - 1] == OpeningSpans(g, below);
        SpanWalkConcat([Close], ClosingSpans(g, below), open);
        SpanTextConcat([Close], ClosingSpans(g, below));
      } else {
        assert open == OpeningSpans(g, below);
        assert ClosingSpans(g, chain) == [] + ClosingSpans(g, below) == ClosingSpans(g, below);
      }
    }
  }

  lemma {:induction false} ClosingHolds(w: World, g: Grammar, s: State, text: string)
    requires Nests(w, g, s, text)
    ensures Holds(s.out + ClosingSpans(g, s.chain), text) && Fits(g, s.chain)
  {
    hide SpanWalk, SpanText, OpeningSpans, ClosingSpans, Fits;
    ClosingReads(g, s.chain);
    SpanWalkConcat(s.out, ClosingSpans(g, s.chain), []);
    SpanTextConcat(s.out, ClosingSpans(g, s.chain));
    assert text + "" == text;
  }

  // ----- the text written -----

  function SpanString(prefix: string, s: Span): string {
    match s
    case Raw(text) => Escape(text)
    case Open(name, prefixed) => "<" + OpenBody(if prefixed then prefix else "", name) + ">"
    case Close => "</span>"
  }

  function OpenBody(prefix: string, name: string): string {
    "span class=\"" + (prefix + name) + "\""
  }

  lemma OpenBodyPlain(prefix: string, name: string)
    requires PlainName(prefix) && PlainName(name)
    ensures '>' !in OpenBody(prefix, name)
  {
  }

  lemma CloseBody()
    ensures "</span>" == "<" + "/span" + ">" && '>' !in "/span"
  {
  }

  function SpansString(prefix: string, spans: seq<Span>): string {
    if spans == [] then "" else SpanString(prefix, spans[0]) + SpansString(prefix, spans[1..])
  }

  lemma {:induction false} StripSpan(prefix: string, s: Span, rest: string)
    requires PlainName(prefix) && (s.Open? ==> PlainName(s.className))
    ensures StripTags(SpanString(prefix, s) + rest, false) == (if s.Raw? then Escape(s.text) else "") + StripTags(rest, false)
  {
    hide Escape, StripTags, OpenBody;
    match s
    case Raw(text) =>
      UnescapeEscape(text);
      StripText(Escape(text), rest);
    case Open(name, prefixed) =>
      OpenBodyPlain(if prefixed then prefix else "", name);
      StripTag(OpenBody(if prefixed then prefix else "", name), rest);
    case Close =>
      CloseBody();
      StripTag("/span", rest);
  }

  /** The value written strips to the escaped text. */
  lemma {:induction false} StripSpans(prefix: string, spans: seq<Span>)
    requires PlainName(prefix) && PlainSpans(spans)
    ensures StripTags(SpansString(prefix, spans), false) == Escape(SpanText(spans))
    decreases spans
  {
    hide Escape, SpanString, PlainName;
    if spans == [] {
      EscapeEmpty();
    } else {
      StripSpans(prefix, spans[1..]);
      StripSpan(prefix, spans[0], SpansString(prefix, spans[1..]));
      EscapeConcat(if spans[0].Raw? then spans[0].text else "", SpanText(spans[1..]));
      EscapeEmpty();
    }
  }
}
