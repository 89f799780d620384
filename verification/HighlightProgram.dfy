/**
 The highlight.js core as it is written: variables for the output, the buffer, the mode, the relevance and the
 tops of sub-languages, updated by the functions of one call and shared by its loop.
 */
module HighlightProgram {
  import opened Wrappers
  import opened HighlightText
  import opened HighlightMerge
  import opened HighlightModes
  import opened HighlightSpans

  /** A highlighting with its value as the text the program builds. */
  datatype Written = Written(relevance: int, value: string, language: Option<string>, top: Option<seq<nat>>)

  function WrittenOf(prefix: string, r: Highlighting): Written {
    Written(r.relevance, SpansString(prefix, r.value), r.language, r.top)
  }

  function Output(prefix: string, r: Outcome<Highlighting>): Outcome<Written> {
    match r
    case Done(h) => Done(WrittenOf(prefix, h))
    case Threw => Threw
    case Unfinished => Unfinished
  }

  lemma {:induction false} StringConcat(prefix: string, a: seq<Span>, b: seq<Span>)
    ensures SpansString(prefix, a + b) == SpansString(prefix, a) + SpansString(prefix, b)
    decreases a
  {
    hide SpanString;
    if a == [] {
      assert a + b == b;
    } else {
      assert (a + b)[0] == a[0] && (a + b)[1..] == a[1..] + b;
      StringConcat(prefix, a[1..], b);
      var t := SpanString(prefix, a[0]);
      assert (t + SpansString(prefix, a[1..])) + SpansString(prefix, b) == t + (SpansString(prefix, a[1..]) + SpansString(prefix, b));
    }
  }

  lemma {:induction false} StringOne(prefix: string, s: Span)
    ensures SpansString(prefix, [s]) == SpanString(prefix, s)
  {
    hide SpanString;
    assert [s][1..] == [];
    assert SpansString(prefix, []) == "";
  }

  lemma {:induction false} StringNone(prefix: string)
    ensures SpansString(prefix, []) == ""
  {
  }

  /** g(className, insideSpan, leaveOpen, noPrefix). */
  function BuildSpan(prefix: string, className: string, inside: string, leaveOpen: bool, noPrefix: bool): string {
    "<" + OpenBody(if noPrefix then "" else prefix, className) + ">" + inside + (if leaveOpen then "" else "</span>")
  }

  lemma {:induction false} BuiltOpen(prefix: string, className: string)
    ensures BuildSpan(prefix, className, "", true, false) == SpansString(prefix, [Open(className, true)])
  {
    StringOne(prefix, Open(className, true));
    var t := BuildSpan(prefix, className, "", true, false);
    assert t == SpanString(prefix, Open(className, true)) + "" + "";
  }

  lemma {:induction false} BuiltWrapped(prefix: string, className: string, prefixed: bool, inside: seq<Span>)
    ensures BuildSpan(prefix, className, SpansString(prefix, inside), false, !prefixed)
         == SpansString(prefix, Wrapped(className, prefixed, inside))
  {
    var o := Open(className, prefixed);
    StringConcat(prefix, [o], inside);
    StringConcat(prefix, [o] + inside, [Close]);
    StringOne(prefix, o);
    StringOne(prefix, Close);
  }

  function Answer<T>(o: Outcome<T>): Outcome<()> {
    match o case Done(_) => Done(()) case Threw => Threw case Unfinished => Unfinished
  }

  datatype Step = Consumed(count: nat) | IllegalLexeme

  function StepOf(r: Outcome<Reading>): Outcome<Step> {
    match r
    case Done(reading) => Done(if reading.Illegal? then IllegalLexeme else Consumed(reading.consumed))
    case Threw => Threw
    case Unfinished => Unfinished
  }

  method WordText(prefix: string, keyword: Option<Keyword>, word: string) returns (text: string, relevance: int)
    ensures text == SpansString(prefix, WordSpans(keyword, word))
    ensures relevance == match keyword case None => 0 case Some(k) => k.relevance
  {
    hide SpansString, BuildSpan, Escape;
    RawString(prefix, word);
    match keyword {
      case None =>
        text, relevance := Escape(word), 0;
      case Some(k) =>
        BuiltWrapped(prefix, k.className, true, [Raw(word)]);
        text, relevance := BuildSpan(prefix, k.className, Escape(word), false, false), k.relevance;
    }
  }

  lemma {:induction false} NoWords(g: Grammar, m: nat, buffer: string, words: seq<Match>, t: nat)
    requires words == []
    ensures KeywordSpans(g, m, buffer, words, t) == [Raw(Rest(buffer, t))] && KeywordRelevance(g, m, words) == 0
  {
  }

  lemma {:induction false} WordStep(g: Grammar, m: nat, buffer: string, words: seq<Match>, i: nat, t: nat, written: seq<Span>, prefix: string)
    requires i < |words|
    ensures var n, rest := words[i], words[i + 1..];
            var gap, spans := Substr(buffer, t, n.index - t), WordSpans(g.keyword(m, n.text), n.text);
            written + KeywordSpans(g, m, buffer, words[i..], t)
              == ((written + [Raw(gap)]) + spans) + KeywordSpans(g, m, buffer, rest, n.index + |n.text|)
            && SpansString(prefix, (written + [Raw(gap)]) + spans)
              == (SpansString(prefix, written) + Escape(gap)) + SpansString(prefix, spans)
            && KeywordRelevance(g, m, words[i..])
              == (match g.keyword(m, n.text) case None => 0 case Some(k) => k.relevance) + KeywordRelevance(g, m, rest)
  {
    hide SpansString, Escape, WordSpans, Substr;
    var n, rest := words[i], words[i + 1..];
    assert words[i..][0] == n && words[i..][1..] == rest;
    var gap, spans := Substr(buffer, t, n.index - t), WordSpans(g.keyword(m, n.text), n.text);
    RawString(prefix, gap);
    StringConcat(prefix, written, [Raw(gap)]);
    StringConcat(prefix, written + [Raw(gap)], spans);
    ThreeParts(written, [Raw(gap)], spans, KeywordSpans(g, m, buffer, rest, n.index + |n.text|));
  }

  function StopOf(r: Outcome<Stop>): Outcome<bool> {
    match r
    case Done(stop) => Done(stop.Finished?)
    case Threw => Threw
    case Unfinished => Unfinished
  }

  class Highlighter {
    const w: World
    const g: Grammar
    const prefix: string
    var x: string
    ghost var out: seq<Span>
    var buffer: string
    var chain: seq<nat>
    var relevance: int
    var tops: map<string, seq<nat>>

    ghost predicate Valid()
      reads this
    {
      x == SpansString(prefix, out)
    }

    ghost function Now(): State
      reads this
    {
      State(out, buffer, chain, relevance, tops)
    }

    /** The modes a continued highlighting is inside of are opened, innermost first but written in front. */
    constructor (w: World, g: Grammar, prefix: string, start: seq<nat>)
      ensures this.w == w && this.g == g && this.prefix == prefix && Valid()
      ensures Now() == State(OpeningSpans(g, start), "", start, 0, map[])
    {
      hide SpansString, BuildSpan;
      this.w, this.g, this.prefix := w, g, prefix;
      buffer, chain, relevance, tops := "", start, 0, map[];
      new;
      var c := start;
      x := "";
      out := OpeningSpans(g, start);
      ghost var done: seq<Span> := [];
      StringNone(prefix);
      while |c| > 1
        invariant x == SpansString(prefix, done) && OpeningSpans(g, start) == OpeningSpans(g, c) + done
        invariant Now() == State(OpeningSpans(g, start), "", start, 0, map[])
        decreases |c|
      {
        var mode := Current(g, c);
        if mode.className.Some? {
          ghost var o := Open(mode.className.value, true);
          BuiltOpen(prefix, mode.className.value);
          StringConcat(prefix, [o], done);
          x := BuildSpan(prefix, mode.className.value, "", true, false) + x;
          assert (OpeningSpans(g, c[..|c| - 1]) + [o]) + done == OpeningSpans(g, c[..|c| - 1]) + ([o] + done);
          done := [o] + done;
        } else {
          assert OpeningSpans(g, c[..|c| - 1]) + [] == OpeningSpans(g, c[..|c| - 1]);
        }
        c := c[..|c| - 1];
      }
      assert [] + done == done;
    }

    /** x += text, for the text of some spans. */
    method Append(text: string, ghost added: seq<Span>)
      requires Valid() && text == SpansString(prefix, added)
      modifies this`x, this`out
      ensures Valid() && Now() == old(Now()).(out := old(out) + added)
    {
      StringConcat(prefix, out, added);
      x := x + text;
      out := out + added;
    }

    method KeywordText() returns (text: string, found: int)
      ensures var m := CurrentIndex(g, chain); var words := g.words(m, buffer);
              text == SpansString(prefix, KeywordSpans(g, m, buffer, words, 0)) && found == KeywordRelevance(g, m, words)
    {
      hide SpansString, Escape, WordSpans, Substr, Rest, KeywordSpans, KeywordRelevance, CurrentIndex;
      var m := CurrentIndex(g, chain);
      var words := g.words(m, buffer);
      text, found := "", 0;
      var t: nat := 0;
      var i := 0;
      ghost var written: seq<Span> := [];
      StringNone(prefix);
      assert words[0..] == words;
      while i < |words|
        invariant 0 <= i <= |words|
        invariant text == SpansString(prefix, written)
        invariant written + KeywordSpans(g, m, buffer, words[i..], t) == KeywordSpans(g, m, buffer, words, 0)
        invariant found + KeywordRelevance(g, m, words[i..]) == KeywordRelevance(g, m, words)
      {
        var n := words[i];
        var gap := Substr(buffer, t, n.index - t);
        WordStep(g, m, buffer, words, i, t, written, prefix);
        var word, relevance := WordText(prefix, g.keyword(m, n.text), n.text);
        text := (text + Escape(gap)) + word;
        found := found + relevance;
        t := n.index + |n.text|;
        written := (written + [Raw(gap)]) + WordSpans(g.keyword(m, n.text), n.text);
        i := i + 1;
      }
      NoWords(g, m, buffer, words[i..], t);
      RawString(prefix, Rest(buffer, t));
      StringConcat(prefix, written, [Raw(Rest(buffer, t))]);
      text := text + Escape(Rest(buffer, t));
    }

    method ProcessBuffer(fuel: nat) returns (outcome: Outcome<()>)
      requires Valid()
      modifies this
      ensures Valid()
      ensures outcome == Answer(Flush(fuel, w, g, old(Now())))
      ensures outcome.Done? ==> Now() == Flush(fuel, w, g, old(Now())).value
      decreases fuel, 1
    {
      hide SpansString, BuildSpan, Escape, Highlight, HighlightAuto, KeywordSpans, KeywordRelevance;
      var mode := Current(g, chain);
      outcome := Done(());
      match mode.subLanguage {
        case NoSub =>
          if mode.keywords {
            var text, found := KeywordText();
            Append(text, KeywordSpans(g, CurrentIndex(g, chain), buffer, g.words(CurrentIndex(g, chain), buffer), 0));
            relevance := relevance + found;
          } else {
            RawString(prefix, buffer);
            Append(Escape(buffer), [Raw(buffer)]);
          }
        case Named(name) =>
          if !w.registered(name) {
            RawString(prefix, buffer);
            Append(Escape(buffer), [Raw(buffer)]);
            return;
          }
          if fuel == 0 {
            return Unfinished;
          }
          var top := if name in tops then Some(tops[name]) else None;
          ghost var h := Highlight(fuel - 1, w, name, buffer, true, top);
          var t := HighlightCode(fuel - 1, w, prefix, name, buffer, true, top);
          if !t.Done? {
            return Answer(t);
          }
          if mode.relevance > 0 {
            relevance := relevance + t.value.relevance;
          }
          tops := if t.value.top.Some? then tops[name := t.value.top.value] else tops - {name};
          BuiltWrapped(prefix, ClassText(h.value.language), false, h.value.value);
          Append(BuildSpan(prefix, ClassText(t.value.language), t.value.value, false, true),
                 Wrapped(ClassText(h.value.language), false, h.value.value));
        case Detected(names) =>
          if fuel == 0 {
            return Unfinished;
          }
          var list := if names == [] then w.all else names;
          ghost var h := HighlightAuto(fuel - 1, w, buffer, list);
          var t := AutoText(fuel - 1, w, prefix, buffer, list);
          if !t.Done? {
            return Answer(t);
          }
          if mode.relevance > 0 {
            relevance := relevance + t.value.relevance;
          }
          BuiltWrapped(prefix, ClassText(h.value.language), false, h.value.value);
          Append(BuildSpan(prefix, ClassText(t.value.language), t.value.value, false, true),
                 Wrapped(ClassText(h.value.language), false, h.value.value));
      }
    }

    /** m: a mode is started by a lexeme. */
    method StartMode(m: nat, lexeme: string)
      requires Valid()
      modifies this
      ensures Valid() && Now() == Started(g, old(Now()), m, lexeme)
    {
      hide SpansString, BuildSpan, Escape;
      var mode := ModeOf(g, m);
      var span, open := "", [];
      StringNone(prefix);
      if mode.className.Some? {
        BuiltOpen(prefix, mode.className.value);
        span := BuildSpan(prefix, mode.className.value, "", true, false);
        open := [Open(mode.className.value, true)];
      }
      if mode.returnBegin {
        Append(span, open);
        buffer := "";
      } else if mode.excludeBegin {
        RawString(prefix, lexeme);
        StringConcat(prefix, [Raw(lexeme)], open);
        Append(Escape(lexeme) + span, [Raw(lexeme)] + open);
        buffer := "";
      } else {
        Append(span, open);
        buffer := lexeme;
      }
      chain := chain + [m];
    }

    method PopTo(j: nat)
      requires Valid() && j <= |chain|
      modifies this
      ensures Valid() && Now() == Popped(g, old(Now()), j)
    {
      hide SpansString, Left;
      while |chain| != j
        invariant Valid() && j <= |chain|
        invariant Popped(g, Now(), j) == Popped(g, old(Now()), j)
        decreases |chain|
      {
        Leave();
      }
    }

    method Leave()
      requires Valid() && chain != []
      modifies this
      ensures Valid() && Now() == Left(g, old(Now())) && |chain| == old(|chain|) - 1
    {
      hide SpansString;
      var mode := Current(g, chain);
      if mode.className.Some? {
        StringOne(prefix, Close);
        Append("</span>", [Close]);
      } else {
        assert out + [] == out;
      }
      relevance := relevance + mode.relevance;
      chain := chain[..|chain| - 1];
    }

    /** v: the text before the lexeme is already in the buffer. */
    method ProcessLexeme(fuel: nat, lexeme: string, ignoreIllegals: bool) returns (step: Outcome<Step>)
      requires Valid() && chain != []
      modifies this
      ensures Valid()
      ensures step == StepOf(Lexeme(fuel, w, g, old(Now()), lexeme, ignoreIllegals))
      ensures step.Done? && step.value.Consumed? ==>
                Now() == Lexeme(fuel, w, g, old(Now()), lexeme, ignoreIllegals).value.state
      decreases fuel, 2
    {
      hide Flush, Started, SpansString, Starting, Ending, Popped;
      var starting := Starting(g, Current(g, chain).contains, lexeme);
      if starting.Some? {
        var flushed := ProcessBuffer(fuel);
        if !flushed.Done? {
          return if flushed.Threw? then Threw else Unfinished;
        }
        StartMode(starting.value, lexeme);
        return Done(Consumed(if ModeOf(g, starting.value).returnBegin then 0 else |lexeme|));
      }
      var ending := Ending(g, chain, lexeme, |chain| - 1);
      match ending {
        case EndFails => return Threw;
        case EndsAt(j) =>
          var mode, ended := Current(g, chain), ModeOf(g, chain[j]);
          if !(mode.returnEnd || mode.excludeEnd) {
            buffer := buffer + lexeme;
          }
          var flushed := ProcessBuffer(fuel);
          if !flushed.Done? {
            return if flushed.Threw? then Threw else Unfinished;
          }
          PopTo(j);
          if mode.excludeEnd {
            RawString(prefix, lexeme);
            Append(Escape(lexeme), [Raw(lexeme)]);
          } else {
            assert out + [] == out;
          }
          buffer := "";
          if ended.starts.Some? {
            StartMode(ended.starts.value, "");
          }
          if chain == [] {
            return Threw;
          }
          return Done(Consumed(if mode.returnEnd then 0 else |lexeme|));
        case NoEnd =>
          if !ignoreIllegals && g.illegal(CurrentIndex(g, chain), lexeme) {
            return Done(IllegalLexeme);
          }
          buffer := buffer + lexeme;
          return Done(Consumed(if lexeme == "" then 1 else |lexeme|));
      }
    }

    /** The loop over the lexemes, and the rest of the text: false when an illegal lexeme was met. */
    method Run(fuel: nat, text: string, ignoreIllegals: bool) returns (stop: Outcome<bool>)
      requires Valid() && chain != []
      modifies this
      ensures Valid()
      ensures stop == StopOf(Loop(fuel, w, g, old(Now()), text, 0, ignoreIllegals))
      ensures stop == Done(true) ==> Now() == Loop(fuel, w, g, old(Now()), text, 0, ignoreIllegals).value.state
      decreases fuel, 3
    {
      hide SpansString, Lexeme, Flush, Substr, Rest;
      var k: nat := 0;
      var left: nat := fuel;
      var found := g.lexeme(CurrentIndex(g, chain), text, k);
      while found.Some?
        invariant Valid() && chain != [] && left <= fuel
        invariant found == g.lexeme(CurrentIndex(g, chain), text, k)
        invariant Loop(left, w, g, Now(), text, k, ignoreIllegals) == Loop(fuel, w, g, old(Now()), text, 0, ignoreIllegals)
        decreases left
      {
        var m := found.value;
        buffer := buffer + Substr(text, k, m.index - k);
        var step := ProcessLexeme(left, m.text, ignoreIllegals);
        if !step.Done? {
          return if step.Threw? then Threw else Unfinished;
        }
        if step.value.IllegalLexeme? {
          return Done(false);
        }
        if left == 0 {
          return Unfinished;
        }
        left := left - 1;
        k := m.index + step.value.count;
        found := g.lexeme(CurrentIndex(g, chain), text, k);
      }
      buffer := buffer + Rest(text, k);
      var flushed := ProcessBuffer(left);
      stop := match flushed case Done(_) => Done(true) case Threw => Threw case Unfinished => Unfinished;
    }
  }

  lemma {:induction false} RawString(prefix: string, text: string)
    ensures SpansString(prefix, [Raw(text)]) == Escape(text)
  {
    StringOne(prefix, Raw(text));
  }

  lemma ThreeParts<T>(a: seq<T>, b: seq<T>, c: seq<T>, d: seq<T>)
    ensures ((a + b) + c) + d == a + (b + c + d)
  {
  }

  /** l: highlighting a text in a language. */
  method HighlightCode(fuel: nat, w: World, prefix: string, name: string, text: string, ignoreIllegals: bool,
                       top: Option<seq<nat>>)
    returns (r: Outcome<Written>)
    ensures r == Output(prefix, Highlight(fuel, w, name, text, ignoreIllegals, top))
    decreases fuel, 4
  {
    hide SpansString, Escape, Loop, OpeningSpans, ClosingSpans;
    var g := w.resolve(name);
    if g.None? {
      return Threw;
    }
    var start := if top.Some? && top.value != [] then top.value else [0];
    var h := new Highlighter(w, g.value, prefix, start);
    var stop := h.Run(fuel, text, ignoreIllegals);
    if stop.Threw? {
      return Threw;
    }
    if stop.Unfinished? {
      return Unfinished;
    }
    if !stop.value {
      RawString(prefix, text);
      return Done(Written(0, Escape(text), None, None));
    }
    CloseAll(h);
    r := Done(Written(h.relevance, h.x, Some(name), Some(h.chain)));
  }

  /** The spans still open are closed; the modes stay, as the top to continue from. */
  method CloseAll(h: Highlighter)
    requires h.Valid()
    modifies h`x, h`out
    ensures h.Valid() && h.Now() == old(h.Now()).(out := old(h.out) + ClosingSpans(h.g, h.chain))
  {
    hide SpansString;
    var c := h.chain;
    ghost var all := h.out + ClosingSpans(h.g, h.chain);
    while |c| > 1
      invariant h.Valid() && h.Now() == old(h.Now()).(out := h.out)
      invariant h.out + ClosingSpans(h.g, c) == all
      decreases |c|
    {
      ghost var rest := ClosingSpans(h.g, c[..|c| - 1]);
      if Current(h.g, c).className.Some? {
        StringOne(h.prefix, Close);
        assert h.out + ([Close] + rest) == (h.out + [Close]) + rest;
        h.Append("</span>", [Close]);
      } else {
        assert [] + rest == rest;
      }
      c := c[..|c| - 1];
    }
    assert h.out + [] == h.out;
  }

  /** f: the most relevant of several languages. */
  method AutoText(fuel: nat, w: World, prefix: string, text: string, names: seq<string>) returns (r: Outcome<Written>)
    ensures r == Output(prefix, HighlightAuto(fuel, w, text, names))
    decreases fuel, 5
  {
    hide SpansString, Escape, Highlight;
    RawString(prefix, text);
    ghost var whole := HighlightAuto(fuel, w, text, names);
    ghost var best := Highlighting(0, [Raw(text)], None, None);
    var b := Written(0, Escape(text), None, None);
    var i := 0;
    assert names[0..] == names;
    while i < |names|
      invariant 0 <= i <= |names|
      invariant b == WrittenOf(prefix, best) && whole == Best(fuel, w, text, names[i..], best)
    {
      assert names[i..][0] == names[i] && names[i..][1..] == names[i + 1..];
      if w.resolve(names[i]).Some? {
        ghost var h := Highlight(fuel, w, names[i], text, false, None);
        var t := HighlightCode(fuel, w, prefix, names[i], text, false, None);
        if !t.Done? {
          return t;
        }
        var named := t.value.(language := Some(names[i]));
        if named.relevance > b.relevance {
          b := named;
          best := h.value.(language := Some(names[i]));
        }
      }
      i := i + 1;
    }
    r := Done(b);
  }

  // ----- the step bound -----

  /** What a run yields within some bound it yields within every larger one. */
  lemma {:induction false} HighlightFuel(fuel: nat, more: nat, w: World, name: string, text: string, ignoreIllegals: bool, top: Option<seq<nat>>)
    requires fuel <= more
    ensures var r := Highlight(fuel, w, name, text, ignoreIllegals, top);
            !r.Unfinished? ==> Highlight(more, w, name, text, ignoreIllegals, top) == r
    decreases fuel, 4
  {
    hide Loop, OpeningSpans, ClosingSpans;
    if w.resolve(name).Some? {
      var g := w.resolve(name).value;
      var chain := if top.Some? && top.value != [] then top.value else [0];
      LoopFuel(fuel, more, w, g, State(OpeningSpans(g, chain), "", chain, 0, map[]), text, 0, ignoreIllegals);
    }
  }

  lemma {:induction false} LoopFuel(fuel: nat, more: nat, w: World, g: Grammar, s: State, text: string, k: nat, ignoreIllegals: bool)
    requires fuel <= more && s.chain != []
    ensures var r := Loop(fuel, w, g, s, text, k, ignoreIllegals);
            !r.Unfinished? ==> Loop(more, w, g, s, text, k, ignoreIllegals) == r
    decreases fuel, 3
  {
    hide Flush, Lexeme, Substr, Rest;
    match g.lexeme(CurrentIndex(g, s.chain), text, k)
    case None => FlushFuel(fuel, more, w, g, s.(buffer := s.buffer + Rest(text, k)));
    case Some(m) =>
      var at := s.(buffer := s.buffer + Substr(text, k, m.index - k));
      LexemeFuel(fuel, more, w, g, at, m.text, ignoreIllegals);
      var step := Lexeme(fuel, w, g, at, m.text, ignoreIllegals);
      if step.Done? && step.value.Read? && fuel > 0 {
        LoopFuel(fuel - 1, more - 1, w, g, step.value.state, text, m.index + step.value.consumed, ignoreIllegals);
      }
  }

  lemma {:induction false} LexemeFuel(fuel: nat, more: nat, w: World, g: Grammar, s: State, lexeme: string, ignoreIllegals: bool)
    requires fuel <= more && s.chain != []
    ensures var r := Lexeme(fuel, w, g, s, lexeme, ignoreIllegals);
            !r.Unfinished? ==> Lexeme(more, w, g, s, lexeme, ignoreIllegals) == r
    decreases fuel, 2
  {
    hide Flush, Started, Popped, Starting, Ending;
    FlushFuel(fuel, more, w, g, s);
    FlushFuel(fuel, more, w, g, s.(buffer := s.buffer + lexeme));
  }

  lemma {:induction false} FlushFuel(fuel: nat, more: nat, w: World, g: Grammar, s: State)
    requires fuel <= more
    ensures var r := Flush(fuel, w, g, s); !r.Unfinished? ==> Flush(more, w, g, s) == r
    decreases fuel, 1
  {
    hide Highlight, HighlightAuto, KeywordSpans, KeywordRelevance;
    if fuel > 0 {
      match Current(g, s.chain).subLanguage
      case NoSub =>
      case Named(name) =>
        HighlightFuel(fuel - 1, more - 1, w, name, s.buffer, true, if name in s.tops then Some(s.tops[name]) else None);
      case Detected(names) =>
        BestFuel(fuel - 1, more - 1, w, s.buffer, if names == [] then w.all else names, Highlighting(0, [Raw(s.buffer)], None, None));
        AutoIsBest(fuel - 1, w, s.buffer, if names == [] then w.all else names);
        AutoIsBest(more - 1, w, s.buffer, if names == [] then w.all else names);
    }
  }

  lemma {:induction false} AutoIsBest(fuel: nat, w: World, text: string, names: seq<string>)
    ensures HighlightAuto(fuel, w, text, names) == Best(fuel, w, text, names, Highlighting(0, [Raw(text)], None, None))
  {
  }

  lemma {:induction false} BestFuel(fuel: nat, more: nat, w: World, text: string, names: seq<string>, best: Highlighting)
    requires fuel <= more
    ensures var r := Best(fuel, w, text, names, best); !r.Unfinished? ==> Best(more, w, text, names, best) == r
    decreases fuel, 5, |names|
  {
    hide Highlight;
    if names != [] {
      if w.resolve(names[0]).None? {
        BestFuel(fuel, more, w, text, names[1..], best);
      } else {
        HighlightFuel(fuel, more, w, names[0], text, false, None);
        var r := Highlight(fuel, w, names[0], text, false, None);
        if r.Done? {
          var named := r.value.(language := Some(names[0]));
          BestFuel(fuel, more, w, text, names[1..], if named.relevance > best.relevance then named else best);
        }
      }
    }
  }
}
