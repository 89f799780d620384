/** Which mode a lexeme opens or ends, which characters get a keyword's class, and which detected language wins. */
module HighlightChoices {
  import opened Wrappers
  import opened HighlightText
  import opened HighlightMerge
  import opened HighlightModes
  import opened HighlightSpans

  // ----- the mode opened -----

  /** The k-th contained mode is the first that begins at the lexeme. */
  predicate FirstToBegin(g: Grammar, contains: seq<nat>, lexeme: string, k: nat) {
    k < |contains| && g.begins(contains[k], lexeme) && forall j :: 0 <= j < k ==> !g.begins(contains[j], lexeme)
  }

  lemma {:induction false} OpensFirst(g: Grammar, contains: seq<nat>, lexeme: string)
    ensures forall k: nat :: FirstToBegin(g, contains, lexeme, k) ==> Starting(g, contains, lexeme) == Some(contains[k])
    ensures Starting(g, contains, lexeme).None? <==> forall k :: 0 <= k < |contains| ==> !g.begins(contains[k], lexeme)
    decreases contains
  {
    if contains != [] && !g.begins(contains[0], lexeme) {
      var rest := contains[1..];
      OpensFirst(g, rest, lexeme);
      assert contains == [contains[0]] + rest;
      forall k: nat | FirstToBegin(g, contains, lexeme, k) ensures Starting(g, contains, lexeme) == Some(contains[k]) {
        assert FirstToBegin(g, rest, lexeme, k - 1);
      }
      assert forall k :: 0 <= k < |rest| ==> rest[k] == contains[k + 1];
    }
  }

  // ----- the mode ended -----

  /** The open mode number m does not end at the lexeme, or cannot as it is the language, and hands it on to the mode around it. */
  predicate HandsOn(g: Grammar, chain: seq<nat>, lexeme: string, m: nat)
    requires m < |chain|
  {
    (m > 0 ==> !g.ends(chain[m], lexeme)) && ModeOf(g, chain[m]).endsWithParent
  }

  /** All modes inside of number i hand the lexeme on. */
  predicate Reaches(g: Grammar, chain: seq<nat>, lexeme: string, i: nat) {
    i < |chain| && forall m :: i < m < |chain| ==> HandsOn(g, chain, lexeme, m)
  }

  /** Ending number i ends number c with it: everything from i up to c, but for c, ends its parent. */
  predicate CarriedTo(g: Grammar, chain: seq<nat>, i: nat, c: nat) {
    c <= i < |chain| && (forall m :: c < m <= i ==> ModeOf(g, chain[m]).endsParent)
    && (c > 0 ==> !ModeOf(g, chain[c]).endsParent)
  }

  lemma {:induction false} ClimbIsCarried(g: Grammar, chain: seq<nat>, i: nat)
    requires i < |chain|
    ensures CarriedTo(g, chain, i, Climb(g, chain, i))
    decreases i
  {
    if i > 0 && ModeOf(g, chain[i]).endsParent {
      ClimbIsCarried(g, chain, i - 1);
    }
  }

  lemma CarriedOnce(g: Grammar, chain: seq<nat>, i: nat, c: nat, d: nat)
    requires CarriedTo(g, chain, i, c) && CarriedTo(g, chain, i, d)
    ensures c == d
  {
  }

  /** The search from number j, when everything inside of it hands the lexeme on. */
  lemma {:induction false} EndsFrom(g: Grammar, chain: seq<nat>, lexeme: string, j: nat)
    requires Reaches(g, chain, lexeme, j)
    ensures var r := Ending(g, chain, lexeme, j);
            match r
            case EndsAt(c) => exists i :: 0 < i <= j && Reaches(g, chain, lexeme, i) && g.ends(chain[i], lexeme) && CarriedTo(g, chain, i, c)
            case NoEnd => exists i :: 0 <= i <= j && Reaches(g, chain, lexeme, i) && (i > 0 ==> !g.ends(chain[i], lexeme))
                                      && !ModeOf(g, chain[i]).endsWithParent
            case EndFails => Reaches(g, chain, lexeme, 0) && ModeOf(g, chain[0]).endsWithParent
    decreases j
  {
    hide Climb;
    if j > 0 && g.ends(chain[j], lexeme) {
      ClimbIsCarried(g, chain, j);
    } else if ModeOf(g, chain[j]).endsWithParent && j > 0 {
      assert HandsOn(g, chain, lexeme, j);
      EndsFrom(g, chain, lexeme, j - 1);
    }
  }

  lemma InnermostOnly(g: Grammar, chain: seq<nat>, lexeme: string, i: nat, k: nat)
    requires Reaches(g, chain, lexeme, i) && Reaches(g, chain, lexeme, k)
    requires !HandsOn(g, chain, lexeme, i) && !HandsOn(g, chain, lexeme, k)
    ensures i == k
  {
  }

  /**
   The innermost open mode that does not hand the lexeme on decides: if it ends at the lexeme, the modes up to the one it is
   carried to are ended, and otherwise none. When even the language hands it on, the search fails.
   */
  lemma {:induction false} EndsInnermost(g: Grammar, chain: seq<nat>, lexeme: string, i: nat)
    requires Reaches(g, chain, lexeme, i)
    ensures i > 0 && g.ends(chain[i], lexeme) ==>
              forall c :: CarriedTo(g, chain, i, c) ==> Ending(g, chain, lexeme, |chain| - 1) == EndsAt(c)
    ensures (i > 0 ==> !g.ends(chain[i], lexeme)) && !ModeOf(g, chain[i]).endsWithParent ==>
              Ending(g, chain, lexeme, |chain| - 1) == NoEnd
    ensures i == 0 && ModeOf(g, chain[0]).endsWithParent ==> Ending(g, chain, lexeme, |chain| - 1) == EndFails
  {
    hide Ending, CarriedTo, Reaches;
    ReachesAll(g, chain, lexeme, i);
    EndsFrom(g, chain, lexeme, |chain| - 1);
    var r := Ending(g, chain, lexeme, |chain| - 1);
    match r
    case EndsAt(c) =>
      var k :| 0 < k <= |chain| - 1 && Reaches(g, chain, lexeme, k) && g.ends(chain[k], lexeme) && CarriedTo(g, chain, k, c);
      OneDecides(g, chain, lexeme, i, k);
      forall d | CarriedTo(g, chain, k, d) ensures c == d {
        CarriedOnce(g, chain, k, c, d);
      }
    case NoEnd =>
      var k :| 0 <= k <= |chain| - 1 && Reaches(g, chain, lexeme, k) && (k > 0 ==> !g.ends(chain[k], lexeme))
               && !ModeOf(g, chain[k]).endsWithParent;
      OneDecides(g, chain, lexeme, i, k);
    case EndFails => OneDecides(g, chain, lexeme, i, 0);
  }

  lemma ReachesAll(g: Grammar, chain: seq<nat>, lexeme: string, i: nat)
    requires Reaches(g, chain, lexeme, i)
    ensures i < |chain| && Reaches(g, chain, lexeme, |chain| - 1)
  {
  }

  /** Of two modes that a lexeme reaches, the inner one hands it on. */
  lemma OneDecides(g: Grammar, chain: seq<nat>, lexeme: string, i: nat, k: nat)
    requires Reaches(g, chain, lexeme, i) && Reaches(g, chain, lexeme, k)
    ensures i < k ==> HandsOn(g, chain, lexeme, k)
    ensures k < i ==> HandsOn(g, chain, lexeme, i)
  {
  }

  // ----- one lexeme and the open modes -----

  function RelevanceOf(g: Grammar, chain: seq<nat>): int {
    if chain == [] then 0 else ModeOf(g, chain[0]).relevance + RelevanceOf(g, chain[1..])
  }

  lemma {:induction false} RelevanceSplits(g: Grammar, chain: seq<nat>, m: nat)
    ensures RelevanceOf(g, chain + [m]) == RelevanceOf(g, chain) + ModeOf(g, m).relevance
    decreases chain
  {
    if chain == [] {
      assert chain + [m] == [m] && [m][1..] == [];
    } else {
      assert (chain + [m])[0] == chain[0] && (chain + [m])[1..] == chain[1..] + [m];
      RelevanceSplits(g, chain[1..], m);
    }
  }

  lemma {:induction false} PoppedModes(g: Grammar, s: State, j: nat)
    requires j <= |s.chain|
    ensures Popped(g, s, j).chain == s.chain[..j]
    ensures Popped(g, s, j).relevance == s.relevance + RelevanceOf(g, s.chain[j..])
    decreases |s.chain|
  {
    if j < |s.chain| {
      var last := |s.chain| - 1;
      PoppedModes(g, Left(g, s), j);
      assert s.chain[..last][..j] == s.chain[..j];
      RelevanceSplits(g, s.chain[..last][j..], s.chain[last]);
      assert s.chain[j..] == s.chain[..last][j..] + [s.chain[last]];
    } else {
      assert s.chain[..j] == s.chain && s.chain[j..] == [];
    }
  }

  predicate NothingBegins(g: Grammar, chain: seq<nat>, lexeme: string) {
    forall k :: 0 <= k < |Current(g, chain).contains| ==> !g.begins(Current(g, chain).contains[k], lexeme)
  }

  /** The first contained mode that begins at the lexeme is opened, whatever the lexeme would end. */
  lemma {:induction false} LexemeOpens(fuel: nat, w: World, g: Grammar, s: State, lexeme: string, ignoreIllegals: bool, k: nat)
    requires s.chain != [] && FirstToBegin(g, Current(g, s.chain).contains, lexeme, k)
    ensures var m := Current(g, s.chain).contains[k];
            var r := Lexeme(fuel, w, g, s, lexeme, ignoreIllegals);
            r.Done? ==> r.value.Read? && r.value.state.chain == s.chain + [m]
                        && r.value.consumed == if ModeOf(g, m).returnBegin then 0 else |lexeme|
  {
    hide Flush, Starting;
    OpensFirst(g, Current(g, s.chain).contains, lexeme);
  }

  /** When nothing begins, the innermost mode reached that ends at it is left, with those it is carried to, for what follows on it. */
  lemma {:induction false} LexemeEnds(fuel: nat, w: World, g: Grammar, s: State, lexeme: string, ignoreIllegals: bool, i: nat, c: nat)
    requires s.chain != [] && NothingBegins(g, s.chain, lexeme)
    requires Reaches(g, s.chain, lexeme, i) && i > 0 && g.ends(s.chain[i], lexeme) && CarriedTo(g, s.chain, i, c)
    ensures var r := Lexeme(fuel, w, g, s, lexeme, ignoreIllegals);
            var mode, ended := Current(g, s.chain), ModeOf(g, s.chain[c]);
            var flushed := Flush(fuel, w, g, if mode.returnEnd || mode.excludeEnd then s else s.(buffer := s.buffer + lexeme));
            r.Done? ==> r.value.Read? && flushed.Done?
                        && r.value.state.relevance == flushed.value.relevance + RelevanceOf(g, s.chain[c..])
                        && r.value.state.chain == s.chain[..c] + (if ended.starts.Some? then [ended.starts.value] else [])
                        && r.value.consumed == if mode.returnEnd then 0 else |lexeme|
  {
    hide Flush, Starting, Ending, Popped;
    OpensFirst(g, Current(g, s.chain).contains, lexeme);
    EndsInnermost(g, s.chain, lexeme, i);
    var mode := Current(g, s.chain);
    var s1 := if mode.returnEnd || mode.excludeEnd then s else s.(buffer := s.buffer + lexeme);
    var flushed := Flush(fuel, w, g, s1);
    if flushed.Done? {
      PoppedModes(g, flushed.value, c);
      assert s.chain[..c] + [] == s.chain[..c];
    }
  }

  /** When it begins and ends nothing, it is illegal where that counts, and otherwise part of the buffer; an empty one costs a character. */
  lemma {:induction false} LexemeStays(fuel: nat, w: World, g: Grammar, s: State, lexeme: string, ignoreIllegals: bool, i: nat)
    requires s.chain != [] && NothingBegins(g, s.chain, lexeme)
    requires Reaches(g, s.chain, lexeme, i) && (i > 0 ==> !g.ends(s.chain[i], lexeme)) && !ModeOf(g, s.chain[i]).endsWithParent
    ensures Lexeme(fuel, w, g, s, lexeme, ignoreIllegals)
         == Done(if !ignoreIllegals && g.illegal(CurrentIndex(g, s.chain), lexeme) then Illegal
                 else Read(s.(buffer := s.buffer + lexeme), if |lexeme| > 1 then |lexeme| else 1))
  {
    hide Flush, Starting, Ending;
    OpensFirst(g, Current(g, s.chain).contains, lexeme);
    EndsInnermost(g, s.chain, lexeme, i);
  }

  // ----- the spans around each character -----

  /** A character written and the spans open around it, from the outside in. */
  datatype Shade = Shade(c: char, open: seq<Span>)

  function Each(text: string, open: seq<Span>): (shades: seq<Shade>)
    ensures |shades| == |text|
  {
    seq(|text|, i requires 0 <= i < |text| => Shade(text[i], open))
  }

  function Shades(spans: seq<Span>, open: seq<Span>): seq<Shade>
    decreases spans
  {
    if spans == [] then []
    else
      match spans[0]
      case Raw(text) => Each(text, open) + Shades(spans[1..], open)
      case Open(_, _) => Shades(spans[1..], open + [spans[0]])
      case Close => Shades(spans[1..], if open == [] then [] else open[..|open| - 1])
  }

  function Under(outer: seq<Span>, shades: seq<Shade>): (r: seq<Shade>)
    ensures |r| == |shades|
  {
    seq(|shades|, i requires 0 <= i < |shades| => Shade(shades[i].c, outer + shades[i].open))
  }

  lemma {:induction false} ShadesConcat(a: seq<Span>, b: seq<Span>, open: seq<Span>)
    requires SpanWalk(a, open).Some?
    ensures Shades(a + b, open) == Shades(a, open) + Shades(b, SpanWalk(a, open).value)
    decreases a
  {
    hide Each;
    if a == [] {
      assert a + b == b;
    } else {
      assert (a + b)[0] == a[0] && (a + b)[1..] == a[1..] + b;
      match a[0]
      case Raw(text) =>
        ShadesConcat(a[1..], b, open);
        assert Each(text, open) + (Shades(a[1..], open) + Shades(b, SpanWalk(a, open).value))
            == (Each(text, open) + Shades(a[1..], open)) + Shades(b, SpanWalk(a, open).value);
      case Open(_, _) => ShadesConcat(a[1..], b, open + [a[0]]);
      case Close => ShadesConcat(a[1..], b, open[..|open| - 1]);
    }
  }

  lemma {:induction false} ShadesUnder(a: seq<Span>, outer: seq<Span>, open: seq<Span>)
    requires SpanWalk(a, open).Some?
    ensures Shades(a, outer + open) == Under(outer, Shades(a, open))
    decreases a
  {
    if a != [] {
      match a[0]
      case Raw(text) =>
        ShadesUnder(a[1..], outer, open);
        assert Each(text, outer + open) == Under(outer, Each(text, open));
      case Open(_, _) =>
        ShadesUnder(a[1..], outer, open + [a[0]]);
        assert (outer + open) + [a[0]] == outer + (open + [a[0]]);
      case Close =>
        ShadesUnder(a[1..], outer, open[..|open| - 1]);
        assert (outer + open)[..|outer + open| - 1] == outer + open[..|open| - 1];
    }
  }

  /** What is written behind a state stands inside of the spans of its open modes; what was written before stays as it is. */
  lemma {:induction false} AddedShades(w: World, g: Grammar, s: State, readText: string, added: seq<Span>, text: string)
    requires Consistent(w, g, s, readText) && Holds(added, text)
    ensures Shades(s.out + added, []) == Shades(s.out, []) + Under(OpeningSpans(g, s.chain), Shades(added, []))
  {
    hide Shades, SpanWalk, SpanText, Fits, TopsOk, OpeningSpans, Under;
    ShadesConcat(s.out, added, []);
    ShadesUnder(added, OpeningSpans(g, s.chain), []);
    assert OpeningSpans(g, s.chain) + [] == OpeningSpans(g, s.chain);
  }

  lemma {:induction false} RawShades(text: string, open: seq<Span>)
    ensures Shades([Raw(text)], open) == Each(text, open)
  {
    assert [Raw(text)][1..] == [] && Each(text, open) + [] == Each(text, open);
  }

  /** What is wrapped in a span stands inside of it. */
  lemma {:induction false} WrappedShades(name: string, prefixed: bool, inside: seq<Span>, text: string)
    requires Holds(inside, text)
    ensures Shades(Wrapped(name, prefixed, inside), []) == Under([Open(name, prefixed)], Shades(inside, []))
  {
    hide Under;
    var open := Open(name, prefixed);
    OneSpan(open, []);
    assert [open] + [] == [open] && [] + [open] == [open];
    assert Wrapped(name, prefixed, inside) == [open] + (inside + [Close]);
    assert [open][1..] == [] && [Close][1..] == [];
    ShadesConcat([open], inside + [Close], []);
    SpanWalkInside(inside, [open], []);
    ShadesConcat(inside, [Close], [open]);
    ShadesUnder(inside, [open], []);
    assert Shades([open], []) == [] && Shades([Close], [open]) == [];
    assert Shades(inside, [open]) + [] == Shades(inside, [open]);
    assert [] + Shades(inside + [Close], [open]) == Shades(inside + [Close], [open]);
  }

  /** The spans open at the end of the output are those of the open modes, as Consistent and Nests say. */
  predicate Balanced(g: Grammar, s: State) {
    SpanWalk(s.out, []) == Some(OpeningSpans(g, s.chain))
  }

  /**
   What begins a mode stands before its span when the mode excludes it, is not written when the mode returns it, and otherwise
   waits in the buffer, to be written inside of the span.
   */
  lemma {:induction false} BeginsWhere(g: Grammar, s: State, m: nat, lexeme: string)
    requires Balanced(g, s)
    ensures var mode, r := ModeOf(g, m), Started(g, s, m, lexeme);
            && Shades(r.out, []) == Shades(s.out, []) + (if !mode.returnBegin && mode.excludeBegin then Each(lexeme, OpeningSpans(g, s.chain)) else [])
            && r.buffer == if mode.returnBegin || mode.excludeBegin then "" else lexeme
  {
    hide Shades, SpanWalk, OpeningSpans;
    var mode, r := ModeOf(g, m), Started(g, s, m, lexeme);
    var o := OpeningSpans(g, s.chain);
    var open := match mode.className case None => [] case Some(name) => [Open(name, true)];
    var before := if !mode.returnBegin && mode.excludeBegin then [Raw(lexeme)] else [];
    assert r.out == s.out + (before + open);
    ShadesConcat(s.out, before + open, []);
    if before != [] {
      OneSpan(Raw(lexeme), o);
      ShadesConcat(before, open, o);
      RawShades(lexeme, o);
    } else {
      assert before + open == open;
    }
    NoShades(open, o);
    assert Each(lexeme, o) + [] == Each(lexeme, o);
  }

  lemma {:induction false} NoShades(tags: seq<Span>, open: seq<Span>)
    requires |tags| <= 1 && (tags != [] ==> !tags[0].Raw?)
    ensures Shades(tags, open) == []
  {
    if tags != [] {
      assert tags[1..] == [];
    }
  }

  lemma {:induction false} PoppedShades(g: Grammar, s: State, j: nat)
    requires 1 <= j <= |s.chain| && Balanced(g, s)
    ensures Shades(Popped(g, s, j).out, []) == Shades(s.out, []) && Balanced(g, Popped(g, s, j))
    decreases |s.chain|
  {
    hide Shades, SpanWalk;
    if j < |s.chain| {
      var mode := Current(g, s.chain);
      var closing, open := CloseIf(mode.className), OpeningSpans(g, s.chain);
      ShadesConcat(s.out, closing, []);
      NoShades(closing, open);
      SpanWalkConcat(s.out, closing, []);
      if mode.className.Some? {
        OneSpan(Close, open);
        assert open[..|open| - 1] == OpeningSpans(g, s.chain[..|s.chain| - 1]);
      } else {
        NoSpans(open);
        assert open == OpeningSpans(g, s.chain[..|s.chain| - 1]);
      }
      assert Shades(s.out, []) + [] == Shades(s.out, []);
      PoppedShades(g, Left(g, s), j);
    }
  }

  /**
   What ends a mode stands behind the spans that are closed when the mode excludes it; otherwise it was in the buffer, and so
   inside of them, or is given back.
   */
  lemma {:induction false} EndsWhere(fuel: nat, w: World, g: Grammar, s: State, lexeme: string, j: nat)
    requires 1 <= j < |s.chain|
    requires var mode := Current(g, s.chain);
             var flushed := Flush(fuel, w, g, if mode.returnEnd || mode.excludeEnd then s else s.(buffer := s.buffer + lexeme));
             flushed.Done? && Balanced(g, flushed.value)
    ensures var mode := Current(g, s.chain);
            var flushed := Flush(fuel, w, g, if mode.returnEnd || mode.excludeEnd then s else s.(buffer := s.buffer + lexeme)).value;
            var r := EndLexeme(fuel, w, g, s, lexeme, j);
            && r.Done? && r.value.state.buffer == ""
            && Shades(r.value.state.out, [])
            == Shades(flushed.out, []) + (if mode.excludeEnd then Each(lexeme, OpeningSpans(g, s.chain[..j])) else [])
  {
    hide Shades, SpanWalk, OpeningSpans, Flush, Popped, Started;
    var mode := Current(g, s.chain);
    var flushed := Flush(fuel, w, g, if mode.returnEnd || mode.excludeEnd then s else s.(buffer := s.buffer + lexeme)).value;
    PoppedModes(g, flushed, j);
    PoppedShades(g, flushed, j);
    var popped := Popped(g, flushed, j);
    var o := OpeningSpans(g, popped.chain);
    var more := if mode.excludeEnd then [Raw(lexeme)] else [];
    var cleared := popped.(out := popped.out + more, buffer := "");
    ShadesConcat(popped.out, more, []);
    SpanWalkConcat(popped.out, more, []);
    if mode.excludeEnd {
      RawShades(lexeme, o);
      OneSpan(Raw(lexeme), o);
    } else {
      NoShades(more, o);
      NoSpans(o);
    }
    var ended := ModeOf(g, s.chain[j]);
    if ended.starts.Some? {
      BeginsWhere(g, cleared, ended.starts.value, "");
      NothingEach(OpeningSpans(g, cleared.chain), Shades(cleared.out, []));
      StartedChain(g, cleared, ended.starts.value);
    }
  }

  lemma NothingEach(open: seq<Span>, shades: seq<Shade>)
    ensures Each("", open) == [] && shades + [] == shades
  {
  }

  lemma StartedChain(g: Grammar, s: State, m: nat)
    ensures Started(g, s, m, "").chain != []
  {
  }

  // ----- keywords -----

  predicate Covers(word: Match, p: nat) {
    word.index <= p < word.index + |word.text|
  }

  function ClassOf(keyword: Option<Keyword>): seq<Span> {
    match keyword case None => [] case Some(k) => [Open(k.className, true)]
  }

  /** The characters of a word found that is a keyword are inside of a span of its class; all others are not. */
  ghost predicate Colours(shades: seq<Shade>, g: Grammar, m: nat, buffer: string, words: seq<Match>, from: nat) {
    && from <= |buffer| && |shades| == |buffer| - from
    && forall p: nat :: from <= p < |buffer| ==> ColourAt(shades[p - from], g, m, buffer[p], words, p)
  }

  predicate ColourAt(shade: Shade, g: Grammar, m: nat, c: char, words: seq<Match>, p: nat) {
    && shade.c == c
    && (forall i :: 0 <= i < |words| && Covers(words[i], p) ==> shade.open == ClassOf(g.keyword(m, words[i].text)))
    && ((forall i :: 0 <= i < |words| ==> !Covers(words[i], p)) ==> shade.open == [])
  }

  lemma {:induction false} LaterWords(words: seq<Match>, text: string, from: nat)
    requires Successive(words, text, from)
    ensures forall i :: 0 <= i < |words| ==> from <= words[i].index
    decreases words
  {
    if words != [] {
      LaterWords(words[1..], text, words[0].index + |words[0].text|);
      assert words == [words[0]] + words[1..];
    }
  }

  lemma {:induction false} WordShades(keyword: Option<Keyword>, word: string)
    ensures Shades(WordSpans(keyword, word), []) == Each(word, ClassOf(keyword))
  {
    RawShades(word, []);
    if keyword.Some? {
      HoldsRaw(word);
      WrappedShades(keyword.value.className, true, [Raw(word)], word);
      assert ClassOf(keyword) + [] == ClassOf(keyword);
      assert Under(ClassOf(keyword), Each(word, [])) == Each(word, ClassOf(keyword));
    }
  }

  lemma {:induction false} KeywordsColour(g: Grammar, m: nat, buffer: string, words: seq<Match>, from: nat)
    requires PlainGrammar(g) && from <= |buffer| && Successive(words, buffer, from)
    ensures Colours(Shades(KeywordSpans(g, m, buffer, words, from), []), g, m, buffer, words, from)
    decreases words
  {
    hide Shades, Holds, WordSpans, PlainName;
    if words == [] {
      RawShades(buffer[from..], []);
    } else {
      var w := words[0];
      var end := w.index + |w.text|;
      var gap, word, rest := [Raw(buffer[from..w.index])], WordSpans(g.keyword(m, w.text), w.text), KeywordSpans(g, m, buffer, words[1..], end);
      KeywordsColour(g, m, buffer, words[1..], end);
      SubstrOf(buffer, from, w.index);
      RawShades(buffer[from..w.index], []);
      WordShades(g.keyword(m, w.text), w.text);
      WordHolds(g, m, w.text);
      HoldsRaw(buffer[from..w.index]);
      assert KeywordSpans(g, m, buffer, words, from) == gap + (word + rest);
      HoldsWalk(gap, buffer[from..w.index]);
      HoldsWalk(word, w.text);
      ShadesConcat(gap, word + rest, []);
      ShadesConcat(word, rest, []);
      JoinColours(g, m, buffer, words, from, Shades(rest, []));
    }
  }

  lemma HoldsWalk(spans: seq<Span>, text: string)
    requires Holds(spans, text)
    ensures SpanWalk(spans, []) == Some([])
  {
  }

  lemma {:induction false} WordHolds(g: Grammar, m: nat, word: string)
    requires PlainGrammar(g)
    ensures Holds(WordSpans(g.keyword(m, word), word), word)
  {
    hide Holds, PlainName;
    HoldsRaw(word);
    if g.keyword(m, word).Some? {
      HoldsWrapped(g.keyword(m, word).value.className, true, [Raw(word)], word);
    }
  }

  lemma {:induction false} JoinColours(g: Grammar, m: nat, buffer: string, words: seq<Match>, from: nat, rest: seq<Shade>)
    requires words != [] && from <= |buffer| && Successive(words, buffer, from)
    requires Colours(rest, g, m, buffer, words[1..], words[0].index + |words[0].text|)
    ensures var w := words[0];
            Colours(Each(buffer[from..w.index], []) + (Each(w.text, ClassOf(g.keyword(m, w.text))) + rest), g, m, buffer, words, from)
  {
    hide ClassOf;
    var w := words[0];
    var end := w.index + |w.text|;
    var shades := Each(buffer[from..w.index], []) + (Each(w.text, ClassOf(g.keyword(m, w.text))) + rest);
    LaterWords(words, buffer, from);
    LaterWords(words[1..], buffer, end);
    assert words == [w] + words[1..];
    forall p: nat | from <= p < |buffer| ensures ColourAt(shades[p - from], g, m, buffer[p], words, p) {
      if p < w.index {
        assert shades[p - from] == Shade(buffer[p], []);
        assert forall i :: 0 <= i < |words| ==> !Covers(words[i], p);
      } else if p < end {
        assert shades[p - from] == Shade(w.text[p - w.index], ClassOf(g.keyword(m, w.text)));
        assert Covers(words[0], p);
        assert forall i :: 1 <= i < |words| ==> words[i] == words[1..][i - 1] && !Covers(words[i], p);
      } else {
        assert shades[p - from] == rest[p - end];
        assert ColourAt(rest[p - end], g, m, buffer[p], words[1..], p);
        assert forall i :: 1 <= i < |words| ==> words[i] == words[1..][i - 1];
      }
    }
  }

  // ----- relevance and continued sub-languages -----

  function Points(words: seq<Match>, g: Grammar, m: nat): (points: seq<int>)
    ensures |points| == |words|
  {
    seq(|words|, i requires 0 <= i < |words| =>
          if g.keyword(m, words[i].text).Some? then g.keyword(m, words[i].text).value.relevance else 0)
  }

  function Total(points: seq<int>): int {
    if points == [] then 0 else points[|points| - 1] + Total(points[..|points| - 1])
  }

  lemma {:induction false} TotalFirst(points: seq<int>)
    requires points != []
    ensures Total(points) == points[0] + Total(points[1..])
    decreases points
  {
    if |points| == 1 {
      assert points[..0] == [] && points[1..] == [];
    } else {
      var front := points[..|points| - 1];
      TotalFirst(front);
      assert front[1..] == points[1..][..|points| - 2];
    }
  }

  /** Every keyword found adds its own relevance, as often as it is found. */
  lemma {:induction false} KeywordsCount(g: Grammar, m: nat, words: seq<Match>)
    ensures KeywordRelevance(g, m, words) == Total(Points(words, g, m))
    decreases words
  {
    if words != [] {
      KeywordsCount(g, m, words[1..]);
      TotalFirst(Points(words, g, m));
      assert Points(words, g, m)[1..] == Points(words[1..], g, m);
    }
  }

  /**
   A buffer in a named sub-language is highlighted from where the last one of that language ended, and where it ends is kept for the
   next; its relevance counts only if the mode's own is positive.
   */
  lemma {:induction false} SubLanguageContinues(fuel: nat, w: World, g: Grammar, s: State, name: string)
    requires Current(g, s.chain).subLanguage == Named(name) && w.registered(name) && Flush(fuel, w, g, s).Done?
    ensures fuel > 0
    ensures var sub := Highlight(fuel - 1, w, name, s.buffer, true, if name in s.tops then Some(s.tops[name]) else None);
            var r := Flush(fuel, w, g, s).value;
            && sub.Done?
            && (name in r.tops <==> sub.value.top.Some?) && (name in r.tops ==> Some(r.tops[name]) == sub.value.top)
            && (forall other :: other != name ==> (other in r.tops <==> other in s.tops) && (other in r.tops ==> r.tops[other] == s.tops[other]))
            && r.out == s.out + ([Open(ClassText(sub.value.language), false)] + sub.value.value + [Close])
            && r.relevance - s.relevance == (if Current(g, s.chain).relevance > 0 then sub.value.relevance else 0)
  {
    hide Highlight;
  }

  // ----- detection -----

  /** The result of a language, if it is registered. */
  function Tried(fuel: nat, w: World, text: string, name: string): Outcome<Highlighting> {
    Highlight(fuel, w, name, text, false, None)
  }

  /** A language that is tried and gives relevance v. */
  ghost predicate Gives(fuel: nat, w: World, text: string, name: string, v: int) {
    w.resolve(name).Some? && Tried(fuel, w, text, name).Done? && Tried(fuel, w, text, name).value.relevance == v
  }

  lemma {:induction false} BestOf(fuel: nat, w: World, text: string, names: seq<string>, best: Highlighting)
    requires Best(fuel, w, text, names, best).Done?
    ensures var r := Best(fuel, w, text, names, best).value;
            && r.relevance >= best.relevance
            && (forall i :: 0 <= i < |names| && w.resolve(names[i]).Some? ==>
                  Tried(fuel, w, text, names[i]).Done? && Tried(fuel, w, text, names[i]).value.relevance <= r.relevance)
            && (r != best ==> exists k :: 0 <= k < |names| && IsFirstBest(fuel, w, text, names, best, r, k))
            && (r.relevance == best.relevance ==> r == best)
    decreases |names|
  {
    hide Highlight;
    if names != [] {
      var rest := names[1..];
      assert names == [names[0]] + rest;
      if w.resolve(names[0]).None? {
        BestOf(fuel, w, text, rest, best);
        ShiftBest(fuel, w, text, names, best, best, Best(fuel, w, text, names, best).value);
      } else {
        var named := Tried(fuel, w, text, names[0]).value.(language := Some(names[0]));
        var next := if named.relevance > best.relevance then named else best;
        BestOf(fuel, w, text, rest, next);
        var r := Best(fuel, w, text, names, best).value;
        if r == next && next != best {
          assert IsFirstBest(fuel, w, text, names, best, r, 0);
        }
        ShiftBest(fuel, w, text, names, best, next, r);
      }
    }
  }

  /** r is the result of language number k, better than the start and than all before it. */
  ghost predicate IsFirstBest(fuel: nat, w: World, text: string, names: seq<string>, best: Highlighting, r: Highlighting, k: int)
    requires 0 <= k < |names|
  {
    && w.resolve(names[k]).Some? && Tried(fuel, w, text, names[k]).Done?
    && r == Tried(fuel, w, text, names[k]).value.(language := Some(names[k])) && r.relevance > best.relevance
    && forall j :: 0 <= j < k && w.resolve(names[j]).Some? ==>
         Tried(fuel, w, text, names[j]).Done? && Tried(fuel, w, text, names[j]).value.relevance < r.relevance
  }

  lemma {:induction false} ShiftBest(fuel: nat, w: World, text: string, names: seq<string>, best: Highlighting, next: Highlighting, r: Highlighting)
    requires names != [] && next.relevance >= best.relevance
    requires w.resolve(names[0]).Some? ==> Tried(fuel, w, text, names[0]).Done? && Tried(fuel, w, text, names[0]).value.relevance <= next.relevance
    ensures forall k :: 0 <= k < |names[1..]| && IsFirstBest(fuel, w, text, names[1..], next, r, k) ==>
              IsFirstBest(fuel, w, text, names, best, r, k + 1)
  {
    hide Highlight, Tried;
    var rest := names[1..];
    forall k | 0 <= k < |rest| && IsFirstBest(fuel, w, text, rest, next, r, k) ensures IsFirstBest(fuel, w, text, names, best, r, k + 1) {
      forall j | 0 <= j < k + 1 && w.resolve(names[j]).Some?
        ensures Tried(fuel, w, text, names[j]).Done? && Tried(fuel, w, text, names[j]).value.relevance < r.relevance
      {
        if j > 0 {
          assert names[j] == rest[j - 1];
        }
      }
    }
  }

  /** Detection: no registered language has more relevance, the first of the best is taken, and without any relevance the plain text. */
  lemma {:induction false} DetectsBest(fuel: nat, w: World, text: string, names: seq<string>)
    requires HighlightAuto(fuel, w, text, names).Done?
    ensures var r, plain := HighlightAuto(fuel, w, text, names).value, Highlighting(0, [Raw(text)], None, None);
            && (forall i :: 0 <= i < |names| && w.resolve(names[i]).Some? ==>
                  Tried(fuel, w, text, names[i]).Done? && Tried(fuel, w, text, names[i]).value.relevance <= r.relevance)
            && (r == plain || exists k :: 0 <= k < |names| && IsFirstBest(fuel, w, text, names, plain, r, k))
            && (r.relevance <= 0 ==> r == plain)
  {
    hide Best;
    BestOf(fuel, w, text, names, Highlighting(0, [Raw(text)], None, None));
  }
}
