/** Small languages that meet what HighlightSpans asks of languages, and two that show why it is asked. */
module HighlightExamples {
  import opened Wrappers
  import opened HighlightText
  import opened HighlightMerge
  import opened HighlightModes
  import opened HighlightSpans

  function FirstOf(text: string, from: nat, chars: set<char>): (r: Option<nat>)
    ensures r.Some? ==> from <= r.value < |text| && text[r.value] in chars
    decreases |text| - from
  {
    if from >= |text| then None else if text[from] in chars then Some(from) else FirstOf(text, from + 1, chars)
  }

  function OneChar(text: string, from: nat, chars: set<char>): Option<Match> {
    match FirstOf(text, from, chars)
    case None => None
    case Some(i) => Some(Match(i, [text[i]]))
  }

  const ROOT := 0
  const NUMBER := 1
  const ATTRIBUTE := 2

  function PlainModeOf(className: string): Mode {
    Mode(Some(className), false, false, false, false, false, false, None, [], false, NoSub, 0)
  }

  /**
   A language with numbers, a mode without an `end` of its own, which therefore ends at the empty match of /\B|\b/; and if
   wanted with attributes in brackets, for which the end of a line, an empty match as well, is illegal.
   */
  function Language(attributes: bool): Grammar {
    var root := PlainModeOf("root").(className := None, contains := if attributes then [NUMBER, ATTRIBUTE] else [NUMBER]);
    Grammar(
      [root, PlainModeOf("number"), PlainModeOf("selector-attr")],
      (m: nat, text: string, from: nat) => Lexemes(attributes, m, text, from),
      (m: nat, lexeme: string) => (m == NUMBER && lexeme == "1") || (m == ATTRIBUTE && lexeme == "["),
      (m: nat, lexeme: string) => m == NUMBER || (m == ATTRIBUTE && lexeme == "]"),
      (m: nat, lexeme: string) => m == ATTRIBUTE && lexeme == "",
      (m: nat, buffer: string) => [],
      (m: nat, word: string) => None)
  }

  function Lexemes(attributes: bool, m: nat, text: string, from: nat): Option<Match> {
    if m == ROOT then OneChar(text, from, if attributes then {'1', '['} else {'1'})
    else if m == NUMBER then (if from <= |text| then Some(Match(from, "")) else None)
    else if m == ATTRIBUTE then LineEnds(text, from)
    else None
  }

  /** "]" or the end of a line. */
  function LineEnds(text: string, from: nat): Option<Match> {
    if from > |text| then None
    else
      match FirstOf(text, from, {']', '\n'})
      case None => Some(Match(|text|, ""))
      case Some(i) => Some(Match(i, if text[i] == ']' then "]" else ""))
  }

  function World1(g: Grammar): World {
    World(name => if name == "language" then Some(g) else None, name => name == "language", ["language"])
  }

  lemma LanguageSearches(attributes: bool)
    ensures Searches(Language(attributes)) && PlainGrammar(Language(attributes)) && Regular(Language(attributes))
  {
    hide FirstOf;
    var g := Language(attributes);
    assert PlainName("number") && PlainName("selector-attr");
    forall m, text, from | g.lexeme(m, text, from).Some? ensures Occurs(g.lexeme(m, text, from).value, text, from) {
      assert g.lexeme(m, text, from) == Lexemes(attributes, m, text, from);
    }
  }

  /** A mode that ends everywhere is no hindrance, and an illegal empty lexeme only where illegal lexemes are ignored. */
  lemma EndlessLeafIsOk(attributes: bool, ignoreIllegals: bool)
    ensures GrammarOk(Language(attributes), ignoreIllegals) <==> !(attributes && ignoreIllegals)
  {
    hide FirstOf, Searches, PlainGrammar, Regular, Below;
    LanguageSearches(attributes);
    var g := Language(attributes);
    if attributes && ignoreIllegals {
      AttributeLeftOver();
    } else {
      forall chain, text, from | Fits(g, chain) ensures NotLeftOver(g, chain, text, from, ignoreIllegals) {
        LanguageLeavesNothing(attributes, ignoreIllegals, chain, text, from);
      }
    }
  }

  lemma LanguageLeavesNothing(attributes: bool, ignoreIllegals: bool, chain: seq<nat>, text: string, from: nat)
    requires Fits(Language(attributes), chain) && !(attributes && ignoreIllegals)
    ensures NotLeftOver(Language(attributes), chain, text, from, ignoreIllegals)
  {
    hide Below, Starting;
    var g := Language(attributes);
    var m := chain[|chain| - 1];
    assert CurrentIndex(g, chain) == m;
    if m == NUMBER {
      assert g.ends(NUMBER, "") && |chain| > 1;
      assert Ending(g, chain, "", |chain| - 1) != NoEnd;
    } else if m == ATTRIBUTE {
      if !attributes {
        assert Below(g, chain[|chain| - 2], m);
        NoAttributes(chain[|chain| - 2]);
      }
      assert g.illegal(m, "");
    } else {
      assert g.lexeme(m, text, from) == Lexemes(attributes, m, text, from);
    }
  }

  lemma NoAttributes(parent: nat)
    ensures !Below(Language(false), parent, ATTRIBUTE)
  {
    var g := Language(false);
    forall c, n | c in ModeOf(g, parent).contains ensures !StartsTo(g, c, ATTRIBUTE, n) {
      assert c == NUMBER;
    }
  }

  lemma AttributeChain()
    ensures Fits(Language(true), [ROOT, ATTRIBUTE])
  {
    var g, chain := Language(true), [ROOT, ATTRIBUTE];
    assert ATTRIBUTE in ModeOf(g, ROOT).contains && StartsTo(g, ATTRIBUTE, ATTRIBUTE, 0);
    assert Below(g, chain[0], chain[1]);
  }

  lemma AttributeLeftOver()
    ensures !NoEmptyLeftover(Language(true), true)
  {
    var g, chain := Language(true), [ROOT, ATTRIBUTE];
    AttributeChain();
    assert FirstOf("\n", 0, {']', '\n'}) == Some(0);
    assert !NotLeftOver(g, chain, "\n", 0, true);
  }

  /** So whole runs of the language keep every text. */
  lemma LanguageKeepsText(fuel: nat, attributes: bool, ignoreIllegals: bool, text: string)
    requires !(attributes && ignoreIllegals)
    ensures var r := Highlight(fuel, World1(Language(attributes)), "language", text, ignoreIllegals, None);
            r.Done? ==> SpanText(r.value.value) == text && SpanWalk(r.value.value, []) == Some([])
  {
    hide GrammarOk, Highlight;
    var w, calls := World1(Language(attributes)), iset{("language", ignoreIllegals)};
    EndlessLeafIsOk(attributes, ignoreIllegals);
    assert PlainName("language");
    assert CallsWithin(w, Language(attributes), calls);
    HighlightKeeps(fuel, w, calls, "language", text, ignoreIllegals, None);
  }

  // ----- texts that are not kept -----

  predicate PlainAt(g: Grammar, chain: seq<nat>) {
    chain != [] && Current(g, chain).subLanguage.NoSub? && !Current(g, chain).keywords
  }

  /** One turn of the loop at a lexeme that is found where the run stands. */
  lemma {:induction false} Turn(fuel: nat, w: World, g: Grammar, s: State, text: string, k: nat, m: string, next: State, consumed: nat)
    requires s.chain != [] && k < |text| && fuel > 0
    requires g.lexeme(CurrentIndex(g, s.chain), text, k) == Some(Match(k, m))
    requires Lexeme(fuel, w, g, s, m, true) == Done(Read(next, consumed))
    ensures next.chain != [] && Loop(fuel, w, g, s, text, k, true) == Loop(fuel - 1, w, g, next, text, k + consumed, true)
  {
    hide Lexeme, CurrentIndex, Flush, Rest;
    assert s.buffer + Substr(text, k, k - k) == s.buffer;
    assert s.(buffer := s.buffer + Substr(text, k, k - k)) == s;
  }

  lemma {:induction false} Opens(fuel: nat, w: World, g: Grammar, s: State, lexeme: string, m: nat)
    requires PlainAt(g, s.chain) && Starting(g, Current(g, s.chain).contains, lexeme) == Some(m)
    requires var mode := ModeOf(g, m); mode.className.Some? && !mode.returnBegin && !mode.excludeBegin
    ensures Lexeme(fuel, w, g, s, lexeme, true)
         == Done(Read(State(s.out + [Raw(s.buffer), Open(ModeOf(g, m).className.value, true)], lexeme, s.chain + [m],
                            s.relevance, s.tops), |lexeme|))
  {
    hide Starting;
    var open := Open(ModeOf(g, m).className.value, true);
    assert s.out + [Raw(s.buffer), open] == (s.out + [Raw(s.buffer)]) + [open];
  }

  lemma FiveSpans(a: Span, b: Span, c: Span, d: Span, e: Span)
    requires a.Raw? && !b.Raw? && c.Raw? && !d.Raw? && e.Raw?
    ensures SpanText([a, b, c, d, e]) == a.text + c.text + e.text
  {
    hide SpanText;
    assert [a, b, c, d, e] == [a] + [b] + [c] + [d] + [e];
    SpanTextConcat([a] + [b] + [c] + [d], [e]);
    SpanTextConcat([a] + [b] + [c], [d]);
    SpanTextConcat([a] + [b], [c]);
    SpanTextConcat([a], [b]);
    OneSpan(a, []);
    OneSpan(b, []);
    OneSpan(c, []);
    OneSpan(d, []);
    OneSpan(e, []);
  }

  /** Where illegal lexemes are ignored, the end of a line inside of an attribute is stepped over and lost. */
  lemma LosesLineBreak()
    ensures StepsOver(Language(true), State([], "[", [ROOT, ATTRIBUTE], 0, map[]), "", "\n]")
    ensures var r := Highlight(3, World1(Language(true)), "language", "[\n]", true, None);
            r.Done? && SpanText(r.value.value) == "[]"
  {
    hide Loop, Lexeme, SpanText;
    var w, g, text := World1(Language(true)), Language(true), "[\n]";
    var s0 := State([], "", [ROOT], 0, map[]);
    var s1 := State([] + [Raw(""), Open("selector-attr", true)], "[", [ROOT, ATTRIBUTE], 0, map[]);
    var s2 := s1.(buffer := "[" + "");
    var s3 := State(s1.out + [Raw("[]")] + [Close] + [], "", [ROOT], 0, map[]);
    LineBreakLexemes(w, g, s1, s3);
    assert FirstOf(text, 0, {'1', '['}) == Some(0);
    assert g.lexeme(ROOT, text, 0) == Some(Match(0, "["));
    Opens(3, w, g, s0, "[", ATTRIBUTE);
    assert [ROOT] + [ATTRIBUTE] == [ROOT, ATTRIBUTE];
    Turn(3, w, g, s0, text, 0, "[", s1, 1);
    assert FirstOf(text, 1, {']', '\n'}) == Some(1);
    Turn(2, w, g, s1, text, 1, "", s2, 1);
    assert s2 == s1;
    assert FirstOf(text, 2, {']', '\n'}) == Some(2);
    Turn(1, w, g, s1, text, 2, "]", s3, 1);
    assert FirstOf(text, 3, {'1', '['}) == None;
    Ends(0, w, g, s3, text, 3);
    assert s3.out + [Raw("")] == [Raw(""), Open("selector-attr", true), Raw("[]"), Close, Raw("")];
    FiveSpans(Raw(""), Open("selector-attr", true), Raw("[]"), Close, Raw(""));
    assert ("" + "[]") + "" == "[]" && s3.buffer + Rest(text, 3) == "";
    assert OpeningSpans(g, [ROOT]) == [] && ClosingSpans(g, [ROOT]) == [];
    assert s3.out + [Raw("")] + [] == s3.out + [Raw("")];
    var r := Highlight(3, w, "language", text, true, None);
    assert r.Done? && r.value.value == s3.out + [Raw("")];
  }

  lemma LineBreakLexemes(w: World, g: Grammar, s1: State, s3: State)
    requires g == Language(true)
    requires s1 == State([] + [Raw(""), Open("selector-attr", true)], "[", [ROOT, ATTRIBUTE], 0, map[])
    requires s3 == State(s1.out + [Raw("[]")] + [Close] + [], "", [ROOT], 0, map[])
    ensures Lexeme(2, w, g, s1, "", true) == Done(Read(s1.(buffer := "[" + ""), 1))
    ensures Lexeme(1, w, g, s1, "]", true) == Done(Read(s3, 1))
  {
    var flushed := s1.(buffer := "[]", out := s1.out + [Raw("[]")]);
    assert "[" + "]" == "[]";
    assert Ending(g, s1.chain, "]", 1) == EndsAt(1);
    assert Flush(1, w, g, s1.(buffer := s1.buffer + "]")) == Done(flushed);
    assert flushed.chain[..1] == [ROOT];
    assert Popped(g, flushed, 1) == Left(g, flushed);
  }

  lemma {:induction false} Ends(fuel: nat, w: World, g: Grammar, s: State, text: string, k: nat)
    requires PlainAt(g, s.chain) && g.lexeme(CurrentIndex(g, s.chain), text, k) == None
    ensures var buffer := s.buffer + Rest(text, k);
            Loop(fuel, w, g, s, text, k, true) == Done(Finished(s.(out := s.out + [Raw(buffer)], buffer := buffer)))
  {
  }

  function Delimiters(m: nat): set<char> {
    if m == ROOT then {'('} else {'x'}
  }

  /** In mode 1, which also stops at the end of the text. */
  function UpToX(m: nat, text: string, from: nat): Option<Match> {
    if m == 1 && FirstOf(text, from, Delimiters(m)).None? then (if from <= |text| then Some(Match(|text|, "")) else None)
    else OneChar(text, from, Delimiters(m))
  }

  /** Mode 1 runs from "(" to an "x" that it may give back, or write outside of its span, or both. */
  function Returning(returnEnd: bool, excludeEnd: bool): Grammar {
    Grammar(
      [PlainModeOf("root").(className := None, contains := [1]), PlainModeOf("mode").(returnEnd := returnEnd, excludeEnd := excludeEnd)],
      (m: nat, text: string, from: nat) => UpToX(m, text, from),
      (m: nat, lexeme: string) => lexeme == "(",
      (m: nat, lexeme: string) => lexeme == "x",
      (m: nat, lexeme: string) => false,
      (m: nat, buffer: string) => [],
      (m: nat, word: string) => None)
  }

  lemma RepeatsEnd()
    ensures WritesEndTwice(Returning(true, true), State([], "(", [ROOT, 1], 0, map[]), "x")
    ensures var r := Highlight(2, World1(Returning(true, true)), "language", "(x", true, None);
            r.Done? && SpanText(r.value.value) == "(xx"
  {
    hide Loop, Lexeme, SpanText;
    var w, g, text := World1(Returning(true, true)), Returning(true, true), "(x";
    var s0 := State([], "", [ROOT], 0, map[]);
    var s1 := State([] + [Raw(""), Open("mode", true)], "(", [ROOT, 1], 0, map[]);
    var s2 := State(s1.out + [Raw("(")] + [Close] + [Raw("x")], "", [ROOT], 0, map[]);
    ReturningLexeme(w, g, s1, s2);
    assert FirstOf(text, 0, {'('}) == Some(0);
    assert g.lexeme(ROOT, text, 0) == UpToX(ROOT, text, 0) == Some(Match(0, "("));
    Opens(2, w, g, s0, "(", 1);
    assert [ROOT] + [1] == [ROOT, 1];
    Turn(2, w, g, s0, text, 0, "(", s1, 1);
    assert FirstOf(text, 1, {'x'}) == Some(1);
    assert g.lexeme(1, text, 1) == UpToX(1, text, 1) == Some(Match(1, "x"));
    Turn(1, w, g, s1, text, 1, "x", s2, 0);
    assert FirstOf(text, 1, {'('}) == None;
    assert g.lexeme(ROOT, text, 1) == UpToX(ROOT, text, 1) == None;
    Ends(0, w, g, s2, text, 1);
    assert Rest(text, 1) == "x";
    assert s2.out == [Raw(""), Open("mode", true), Raw("("), Close, Raw("x")];
    RepeatedText();
    assert s2.buffer + Rest(text, 1) == "x";
    assert OpeningSpans(g, [ROOT]) == [] && ClosingSpans(g, [ROOT]) == [];
    assert s2.out + [Raw("x")] + [] == s2.out + [Raw("x")];
    var r := Highlight(2, w, "language", text, true, None);
    assert r.Done? && r.value.value == s2.out + [Raw("x")];
  }

  /** A mode may give its end back or exclude it, just not both; and an empty lexeme at the end of the text is no hindrance. */
  lemma ReturningIsOk(returnEnd: bool, excludeEnd: bool, ignoreIllegals: bool)
    ensures GrammarOk(Returning(returnEnd, excludeEnd), ignoreIllegals) <==> !(returnEnd && excludeEnd)
  {
    hide FirstOf, Below;
    var g := Returning(returnEnd, excludeEnd);
    ReturningSearches(returnEnd, excludeEnd);
    if returnEnd && excludeEnd {
      assert g.modes[1].returnEnd && g.modes[1].excludeEnd;
    }
    forall chain, text, from | Fits(g, chain) ensures NotLeftOver(g, chain, text, from, ignoreIllegals) {
      var m := chain[|chain| - 1];
      assert g.lexeme(m, text, from) == UpToX(m, text, from);
    }
  }

  lemma ReturningSearches(returnEnd: bool, excludeEnd: bool)
    ensures Searches(Returning(returnEnd, excludeEnd)) && PlainGrammar(Returning(returnEnd, excludeEnd))
  {
    hide FirstOf;
    var g := Returning(returnEnd, excludeEnd);
    assert PlainName("mode");
    forall m, text, from | g.lexeme(m, text, from).Some? ensures Occurs(g.lexeme(m, text, from).value, text, from) {
      assert g.lexeme(m, text, from) == UpToX(m, text, from);
    }
  }

  lemma RepeatedText()
    ensures SpanText([Raw(""), Open("mode", true), Raw("("), Close, Raw("x")] + [Raw("x")]) == "(xx"
  {
    hide SpanText;
    FiveSpans(Raw(""), Open("mode", true), Raw("("), Close, Raw("x"));
    SpanTextConcat([Raw(""), Open("mode", true), Raw("("), Close, Raw("x")], [Raw("x")]);
    OneSpan(Raw("x"), []);
    assert (("" + "(") + "x") + "x" == "(xx";
  }

  lemma ReturningLexeme(w: World, g: Grammar, s1: State, s2: State)
    requires g == Returning(true, true) && s1 == State([] + [Raw(""), Open("mode", true)], "(", [ROOT, 1], 0, map[])
    requires s2 == State(s1.out + [Raw("(")] + [Close] + [Raw("x")], "", [ROOT], 0, map[])
    ensures Lexeme(1, w, g, s1, "x", true) == Done(Read(s2, 0))
  {
    var flushed := s1.(out := s1.out + [Raw("(")]);
    assert Ending(g, s1.chain, "x", 1) == EndsAt(1);
    assert Flush(1, w, g, s1) == Done(flushed);
    assert flushed.chain[..1] == [ROOT];
    assert Popped(g, flushed, 1) == Left(g, flushed);
  }
}
