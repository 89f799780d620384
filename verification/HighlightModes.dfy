/**
 The core of the bundled highlight.js: a stack of modes walks over a text and wraps parts of it in spans.
 Regular expressions and languages are parameters of the model. A run may not end (a mode that starts without
 consuming its lexeme can start again for ever), so runs carry a step bound; what they yield does not depend on it.
 */
module HighlightModes {
  import opened Wrappers
  import opened HighlightText
  import opened HighlightMerge

  // ----- grammars -----

  datatype SubLanguage = NoSub | Named(name: string) | Detected(names: seq<string>)

  datatype Mode = Mode(className: Option<string>, returnBegin: bool, excludeBegin: bool, returnEnd: bool,
                       excludeEnd: bool, endsWithParent: bool, endsParent: bool, starts: Option<nat>,
                       contains: seq<nat>, keywords: bool, subLanguage: SubLanguage, relevance: int)

  datatype Match = Match(index: nat, text: string)
  datatype Keyword = Keyword(className: string, relevance: int)

  /** Mode 0 is the language itself. The functions answer for the compiled regular expressions of a mode. */
  datatype Grammar = Grammar(
    modes: seq<Mode>,
    lexeme: (nat, string, nat) -> Option<Match>,
    begins: (nat, string) -> bool,
    ends: (nat, string) -> bool,
    illegal: (nat, string) -> bool,
    words: (nat, string) -> seq<Match>,
    keyword: (nat, string) -> Option<Keyword>)

  /** The registered languages. */
  datatype World = World(
    resolve: string -> Option<Grammar>,
    registered: string -> bool,
    all: seq<string>)

  function ModeOf(g: Grammar, i: nat): Mode {
    if i < |g.modes| then g.modes[i]
    else Mode(None, false, false, false, false, false, false, None, [], false, NoSub, 0)
  }

  // ----- output -----

  /** What the output consists of. Classes are written with the prefix unless they name a language. */
  datatype Span =
    | Raw(text: string)
    | Open(className: string, prefixed: bool)
    | Close

  datatype Highlighting = Highlighting(relevance: int, value: seq<Span>, language: Option<string>, top: Option<seq<nat>>)

  datatype Outcome<T> = Done(value: T) | Threw | Unfinished {
    predicate IsFailure() {
      !Done?
    }

    function PropagateFailure<U>(): Outcome<U>
      requires !Done?
    {
      if Threw? then Threw else Unfinished
    }

    function Extract(): T
      requires Done?
    {
      value
    }
  }

  /** `chain` lists the open modes from the language down; the last one is current. */
  datatype State = State(out: seq<Span>, buffer: string, chain: seq<nat>, relevance: int, tops: map<string, seq<nat>>)

  function Current(g: Grammar, chain: seq<nat>): Mode {
    if chain == [] then ModeOf(g, |g.modes|) else ModeOf(g, chain[|chain| - 1])
  }

  function CurrentIndex(g: Grammar, chain: seq<nat>): nat {
    if chain == [] then |g.modes| else chain[|chain| - 1]
  }

  function Wrapped(className: string, prefixed: bool, inside: seq<Span>): seq<Span> {
    [Open(className, prefixed)] + inside + [Close]
  }

  // ----- the buffer -----

  /** p: keywords of the buffer, `from` on. */
  function KeywordSpans(g: Grammar, m: nat, buffer: string, words: seq<Match>, from: nat): seq<Span>
    decreases words
  {
    if words == [] then [Raw(Rest(buffer, from))]
    else
      var w := words[0];
      [Raw(Substr(buffer, from, w.index - from))]
      + WordSpans(g.keyword(m, w.text), w.text)
      + KeywordSpans(g, m, buffer, words[1..], w.index + |w.text|)
  }

  function WordSpans(keyword: Option<Keyword>, word: string): seq<Span> {
    match keyword
    case None => [Raw(word)]
    case Some(k) => Wrapped(k.className, true, [Raw(word)])
  }

  function KeywordRelevance(g: Grammar, m: nat, words: seq<Match>): int
    decreases words
  {
    if words == [] then 0
    else
      (match g.keyword(m, words[0].text) case None => 0 case Some(k) => k.relevance) + KeywordRelevance(g, m, words[1..])
  }

  function Rest(text: string, k: nat): string {
    if k <= |text| then text[k..] else ""
  }

  function ClassText(language: Option<string>): string {
    match language case None => "undefined" case Some(name) => name
  }

  /** h with its language named or detected, or p: the state after the buffer was written. */
  function Flush(fuel: nat, w: World, g: Grammar, s: State): (r: Outcome<State>)
    ensures r.Done? ==> r.value.chain == s.chain && r.value.buffer == s.buffer
    decreases fuel, 1
  {
    var mode, m := Current(g, s.chain), CurrentIndex(g, s.chain);
    match mode.subLanguage
    case NoSub =>
      if mode.keywords then
        var words := g.words(m, s.buffer);
        Done(s.(out := s.out + KeywordSpans(g, m, s.buffer, words, 0),
                relevance := s.relevance + KeywordRelevance(g, m, words)))
      else Done(s.(out := s.out + [Raw(s.buffer)]))
    case Named(name) =>
      if !w.registered(name) then Done(s.(out := s.out + [Raw(s.buffer)]))
      else if fuel == 0 then Unfinished
      else
        var r :- Highlight(fuel - 1, w, name, s.buffer, true, if name in s.tops then Some(s.tops[name]) else None);
        var written := Written(s, mode, r);
        Done(if r.top.Some? then written.(tops := s.tops[name := r.top.value]) else written.(tops := s.tops - {name}))
    case Detected(names) =>
      if fuel == 0 then Unfinished
      else
        var r :- HighlightAuto(fuel - 1, w, s.buffer, if names == [] then w.all else names);
        Done(Written(s, mode, r))
  }

  function Written(s: State, mode: Mode, r: Highlighting): State {
    s.(out := s.out + Wrapped(ClassText(r.language), false, r.value),
       relevance := s.relevance + (if mode.relevance > 0 then r.relevance else 0))
  }

  // ----- modes that start and end -----

  function Started(g: Grammar, s: State, m: nat, lexeme: string): State {
    var mode := ModeOf(g, m);
    var open := match mode.className case None => [] case Some(name) => [Open(name, true)];
    var chain := s.chain + [m];
    if mode.returnBegin then s.(out := s.out + open, buffer := "", chain := chain)
    else if mode.excludeBegin then s.(out := s.out + ([Raw(lexeme)] + open), buffer := "", chain := chain)
    else s.(out := s.out + open, buffer := lexeme, chain := chain)
  }

  function Starting(g: Grammar, contains: seq<nat>, lexeme: string): Option<nat> {
    if contains == [] then None
    else if g.begins(contains[0], lexeme) then Some(contains[0])
    else Starting(g, contains[1..], lexeme)
  }

  datatype End = NoEnd | EndsAt(index: nat) | EndFails

  function Climb(g: Grammar, chain: seq<nat>, j: nat): (r: nat)
    requires j < |chain|
    ensures r <= j
  {
    if j > 0 && ModeOf(g, chain[j]).endsParent then Climb(g, chain, j - 1) else j
  }

  /** Which open mode a lexeme ends, from the innermost; the language itself has no end. */
  function Ending(g: Grammar, chain: seq<nat>, lexeme: string, j: nat): (r: End)
    requires j < |chain|
    ensures r.EndsAt? ==> r.index <= j
  {
    if j > 0 && g.ends(chain[j], lexeme) then EndsAt(Climb(g, chain, j))
    else if ModeOf(g, chain[j]).endsWithParent then (if j == 0 then EndFails else Ending(g, chain, lexeme, j - 1))
    else NoEnd
  }

  function CloseIf(className: Option<string>): seq<Span> {
    match className case None => [] case Some(_) => [Close]
  }

  function Left(g: Grammar, s: State): State
    requires s.chain != []
  {
    var mode := Current(g, s.chain);
    s.(out := s.out + CloseIf(mode.className), relevance := s.relevance + mode.relevance, chain := s.chain[..|s.chain| - 1])
  }

  /** The modes from the innermost down to number j are left. */
  function Popped(g: Grammar, s: State, j: nat): State
    requires j <= |s.chain|
    decreases |s.chain| - j
  {
    if j == |s.chain| then s else Popped(g, Left(g, s), j)
  }

  // ----- one lexeme -----

  datatype Reading = Read(state: State, consumed: nat) | Illegal

  /** v with a lexeme, once the text before it has been added to the buffer. */
  function Lexeme(fuel: nat, w: World, g: Grammar, s: State, lexeme: string, ignoreIllegals: bool): (r: Outcome<Reading>)
    requires s.chain != []
    ensures r.Done? && r.value.Read? ==> r.value.state.chain != []
    decreases fuel, 2
  {
    match Starting(g, Current(g, s.chain).contains, lexeme)
    case Some(m) =>
      var flushed :- Flush(fuel, w, g, s);
      Done(Read(Started(g, flushed, m, lexeme), if ModeOf(g, m).returnBegin then 0 else |lexeme|))
    case None =>
      match Ending(g, s.chain, lexeme, |s.chain| - 1)
      case EndFails => Threw
      case EndsAt(j) => EndLexeme(fuel, w, g, s, lexeme, j)
      case NoEnd =>
        if !ignoreIllegals && g.illegal(CurrentIndex(g, s.chain), lexeme) then Done(Illegal)
        else Done(Read(s.(buffer := s.buffer + lexeme), if lexeme == "" then 1 else |lexeme|))
  }

  function EndLexeme(fuel: nat, w: World, g: Grammar, s: State, lexeme: string, j: nat): (r: Outcome<Reading>)
    requires j < |s.chain|
    ensures r.Done? ==> r.value.Read? && r.value.state.chain != []
    decreases fuel, 2, 0
  {
    var mode := Current(g, s.chain);
    var ended := ModeOf(g, s.chain[j]);
    var flushed :- Flush(fuel, w, g, if mode.returnEnd || mode.excludeEnd then s else s.(buffer := s.buffer + lexeme));
    var popped := Popped(g, flushed, j);
    var cleared := popped.(out := popped.out + (if mode.excludeEnd then [Raw(lexeme)] else []), buffer := "");
    var after := match ended.starts case None => cleared case Some(m) => Started(g, cleared, m, "");
    if after.chain == [] then Threw else Done(Read(after, if mode.returnEnd then 0 else |lexeme|))
  }

  // ----- the whole text -----

  function ClosingSpans(g: Grammar, chain: seq<nat>): seq<Span>
    decreases chain
  {
    if |chain| <= 1 then [] else CloseIf(Current(g, chain).className) + ClosingSpans(g, chain[..|chain| - 1])
  }

  /** Spans of the modes a continued highlighting starts inside of. */
  function OpeningSpans(g: Grammar, chain: seq<nat>): seq<Span>
    decreases chain
  {
    if |chain| <= 1 then []
    else
      OpeningSpans(g, chain[..|chain| - 1])
      + (match Current(g, chain).className case None => [] case Some(name) => [Open(name, true)])
  }

  datatype Stop = Finished(state: State) | Interrupted

  function Loop(fuel: nat, w: World, g: Grammar, s: State, text: string, k: nat, ignoreIllegals: bool): Outcome<Stop>
    requires s.chain != []
    decreases fuel, 3
  {
    match g.lexeme(CurrentIndex(g, s.chain), text, k)
    case None =>
      var flushed :- Flush(fuel, w, g, s.(buffer := s.buffer + Rest(text, k)));
      Done(Finished(flushed))
    case Some(m) =>
      var step :- Lexeme(fuel, w, g, s.(buffer := s.buffer + Substr(text, k, m.index - k)), m.text, ignoreIllegals);
      match step
      case Illegal => Done(Interrupted)
      case Read(next, consumed) =>
        if fuel == 0 then Unfinished else Loop(fuel - 1, w, g, next, text, m.index + consumed, ignoreIllegals)
  }

  /** l: the value, or the escaped text alone when an illegal lexeme was met. */
  function Highlight(fuel: nat, w: World, name: string, text: string, ignoreIllegals: bool, top: Option<seq<nat>>): Outcome<Highlighting>
    decreases fuel, 4
  {
    match w.resolve(name)
    case None => Threw
    case Some(g) =>
      var chain := if top.Some? && top.value != [] then top.value else [0];
      var stop :- Loop(fuel, w, g, State(OpeningSpans(g, chain), "", chain, 0, map[]), text, 0, ignoreIllegals);
      match stop
      case Interrupted => Done(Highlighting(0, [Raw(text)], None, None))
      case Finished(s) => Done(Highlighting(s.relevance, s.out + ClosingSpans(g, s.chain), Some(name), Some(s.chain)))
  }

  /** f: the most relevant of several languages. */
  function HighlightAuto(fuel: nat, w: World, text: string, names: seq<string>): Outcome<Highlighting>
    decreases fuel, 6
  {
    var plain := Highlighting(0, [Raw(text)], None, None);
    Best(fuel, w, text, names, plain)
  }

  function Best(fuel: nat, w: World, text: string, names: seq<string>, best: Highlighting): Outcome<Highlighting>
    decreases fuel, 5, |names|
  {
    if names == [] then Done(best)
    else if w.resolve(names[0]).None? then Best(fuel, w, text, names[1..], best)
    else
      var r :- Highlight(fuel, w, names[0], text, false, None);
      var named := r.(language := Some(names[0]));
      Best(fuel, w, text, names[1..], if named.relevance > best.relevance then named else best)
  }
}
