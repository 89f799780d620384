/**
 marked's Parser: a recursive descent over the flat list of block tokens that the lexer makes of nested blocks.
 The inline lexer and the renderer are parameters.
 */
module MarkedParser {
  import opened Wrappers

  datatype Token =
    | SpaceToken
    | HrToken
    | HeadingToken(text: string, depth: int)
    | CodeToken(text: string, lang: Option<string>, escaped: bool)
    | TableToken(header: seq<string>, align: seq<Option<string>>, cells: seq<seq<string>>)
    | HtmlToken(text: string, pre: bool)
    | ParagraphToken(text: string)
    | TextToken(text: string)
    | QuoteStart
    | QuoteEnd
    | ListStart(ordered: bool)
    | ListEnd
    | ItemStart
    | LooseItemStart
    | ItemEnd
    | OtherToken(name: string)

  datatype Renderer = Renderer(
    hr: () -> string,
    heading: (string, int, string) -> string,
    code: (string, Option<string>, bool) -> string,
    table: (string, string) -> string,
    tableRow: string -> string,
    tableCell: (string, bool, Option<string>) -> string,
    blockquote: string -> string,
    list: (string, bool) -> string,
    listItem: string -> string,
    html: string -> string,
    paragraph: string -> string,
    inline: string -> string,
    pedantic: bool)

  // ----- leaves -----

  function AlignAt(align: seq<Option<string>>, i: nat): Option<string> {
    if i < |align| then align[i] else None
  }

  function CellsText(c: Renderer, cells: seq<string>, align: seq<Option<string>>, header: bool, from: nat): string
    decreases |cells| - from
  {
    if from >= |cells| then ""
    else c.tableCell(c.inline(cells[from]), header, AlignAt(align, from)) + CellsText(c, cells, align, header, from + 1)
  }

  function RowsText(c: Renderer, rows: seq<seq<string>>, align: seq<Option<string>>, from: nat): string
    decreases |rows| - from
  {
    if from >= |rows| then ""
    else c.tableRow(CellsText(c, rows[from], align, false, 0)) + RowsText(c, rows, align, from + 1)
  }

  predicate IsLeaf(t: Token) {
    t.SpaceToken? || t.HrToken? || t.HeadingToken? || t.CodeToken? || t.TableToken? || t.HtmlToken? || t.ParagraphToken?
  }

  function LeafText(c: Renderer, t: Token): string
    requires IsLeaf(t)
  {
    match t
    case SpaceToken => ""
    case HrToken => c.hr()
    case HeadingToken(text, depth) => c.heading(c.inline(text), depth, text)
    case CodeToken(text, lang, escaped) => c.code(text, lang, escaped)
    case TableToken(header, align, cells) =>
      c.table(c.tableRow(CellsText(c, header, align, true, 0)), RowsText(c, cells, align, 0))
    case HtmlToken(text, pre) => c.html(if pre || c.pedantic then text else c.inline(text))
    case ParagraphToken(text) => c.paragraph(c.inline(text))
  }

  // ----- what the parser does with a token list -----

  /** A run that meets the end of the list inside a block fails on a property of `undefined`. */
  datatype Parsed = Parsed(html: string, rest: seq<Token>) | Fails

  datatype End = QuoteClose | ListClose | ItemClose

  predicate Closes(t: Token, end: End) {
    match end
    case QuoteClose => t.QuoteEnd?
    case ListClose => t.ListEnd?
    case ItemClose => t.ItemEnd?
  }

  /** parseText: the text tokens that follow are joined to the first, a line break between them. */
  function Joined(first: string, rest: seq<Token>): string
    decreases rest
  {
    if rest != [] && rest[0].TextToken? then Joined(first + "\n" + rest[0].text, rest[1..]) else first
  }

  function AfterText(rest: seq<Token>): (r: seq<Token>)
    ensures |r| <= |rest|
  {
    if rest != [] && rest[0].TextToken? then AfterText(rest[1..]) else rest
  }

  function Wrap(p: Parsed, f: string -> string): Parsed {
    match p case Parsed(html, rest) => Parsed(f(html), rest) case Fails => Fails
  }

  function Tok(c: Renderer, t: Token, rest: seq<Token>): (p: Parsed)
    ensures p.Parsed? ==> |p.rest| <= |rest|
    decreases |rest|, 1
  {
    match t
    case TextToken(text) => Parsed(c.paragraph(c.inline(Joined(text, rest))), AfterText(rest))
    case QuoteStart => Wrap(Body(c, rest, QuoteClose, false), c.blockquote)
    case ListStart(ordered) => Wrap(Body(c, rest, ListClose, false), s => c.list(s, ordered))
    case ItemStart => Wrap(Body(c, rest, ItemClose, true), c.listItem)
    case LooseItemStart => Wrap(Body(c, rest, ItemClose, false), c.listItem)
    case _ => Parsed(if IsLeaf(t) then LeafText(c, t) else "undefined", rest)
  }

  /** The loop up to an end token; only a tight item writes its own text without paragraphs. */
  function Body(c: Renderer, rest: seq<Token>, end: End, tight: bool): (p: Parsed)
    ensures p.Parsed? ==> |p.rest| < |rest|
    decreases |rest|, 0
  {
    if rest == [] then Fails
    else if Closes(rest[0], end) then Parsed("", rest[1..])
    else
      match First(c, rest, tight)
      case Fails => Fails
      case Parsed(html, after) =>
        match Body(c, after, end, tight)
        case Fails => Fails
        case Parsed(more, last) => Parsed(html + more, last)
  }

  function First(c: Renderer, rest: seq<Token>, tight: bool): (p: Parsed)
    requires rest != []
    ensures p.Parsed? ==> |p.rest| < |rest|
    decreases |rest| - 1, 2
  {
    if tight && rest[0].TextToken? then Parsed(c.inline(Joined(rest[0].text, rest[1..])), AfterText(rest[1..]))
    else Tok(c, rest[0], rest[1..])
  }

  function Parse(c: Renderer, tokens: seq<Token>): Option<string>
    decreases |tokens|
  {
    if tokens == [] then Some("")
    else
      match Tok(c, tokens[0], tokens[1..])
      case Fails => None
      case Parsed(html, rest) =>
        match Parse(c, rest)
        case None => None
        case Some(more) => Some(html + more)
  }

  // ----- what the renderer is called with -----

  function Concat(parts: seq<string>): string {
    if parts == [] then "" else parts[0] + Concat(parts[1..])
  }

  /** The call for one cell of a row, with the alignment of its column. */
  function CellCall(c: Renderer, cells: seq<string>, align: seq<Option<string>>, header: bool, i: nat): string
    requires i < |cells|
  {
    c.tableCell(c.inline(cells[i]), header, if i < |align| then align[i] else None)
  }

  /** The cells of a row from left to right. */
  function RowOf(c: Renderer, cells: seq<string>, align: seq<Option<string>>, header: bool): string {
    Concat(seq(|cells|, i requires 0 <= i < |cells| => CellCall(c, cells, align, header, i)))
  }

  /** The rows from top to bottom. */
  function RowsOf(c: Renderer, rows: seq<seq<string>>, align: seq<Option<string>>): string {
    Concat(seq(|rows|, i requires 0 <= i < |rows| => c.tableRow(RowOf(c, rows[i], align, false))))
  }

  lemma {:induction false} CellsJoin(c: Renderer, cells: seq<string>, align: seq<Option<string>>, header: bool, parts: seq<string>, from: nat)
    requires |parts| == |cells| && from <= |cells|
    requires forall i :: 0 <= i < |cells| ==> parts[i] == CellCall(c, cells, align, header, i)
    ensures CellsText(c, cells, align, header, from) == Concat(parts[from..])
    decreases |cells| - from
  {
    hide CellCall;
    if from < |cells| {
      CellsJoin(c, cells, align, header, parts, from + 1);
      assert parts[from..][1..] == parts[from + 1..];
      FirstCell(c, cells, align, header, from);
    }
  }

  lemma FirstCell(c: Renderer, cells: seq<string>, align: seq<Option<string>>, header: bool, i: nat)
    requires i < |cells|
    ensures CellsText(c, cells, align, header, i) == CellCall(c, cells, align, header, i) + CellsText(c, cells, align, header, i + 1)
  {
  }

  lemma {:induction false} RowIs(c: Renderer, cells: seq<string>, align: seq<Option<string>>, header: bool)
    ensures CellsText(c, cells, align, header, 0) == RowOf(c, cells, align, header)
  {
    hide CellCall;
    var parts := seq(|cells|, i requires 0 <= i < |cells| => CellCall(c, cells, align, header, i));
    CellsJoin(c, cells, align, header, parts, 0);
    assert parts[0..] == parts;
  }

  lemma {:induction false} RowsJoin(c: Renderer, rows: seq<seq<string>>, align: seq<Option<string>>, parts: seq<string>, from: nat)
    requires |parts| == |rows| && from <= |rows|
    requires forall i :: 0 <= i < |rows| ==> parts[i] == c.tableRow(RowOf(c, rows[i], align, false))
    ensures RowsText(c, rows, align, from) == Concat(parts[from..])
    decreases |rows| - from
  {
    hide RowOf, CellsText;
    if from < |rows| {
      RowsJoin(c, rows, align, parts, from + 1);
      assert parts[from..][1..] == parts[from + 1..];
      RowIs(c, rows[from], align, false);
    }
  }

  lemma {:induction false} OneToken(c: Renderer, t: Token)
    requires IsLeaf(t)
    ensures Parse(c, [t]) == Some(LeafText(c, t))
  {
    hide LeafText;
    assert [t][1..] == [] && LeafText(c, t) + "" == LeafText(c, t);
    assert Parse(c, []) == Some("");
  }

  /** A single token of each kind parsed: the call of the renderer, with the text through the inline lexer where it goes through it. */
  lemma {:induction false} LeafCalls(c: Renderer, text: string, depth: int, lang: Option<string>, flag: bool)
    ensures Parse(c, [SpaceToken]) == Some("")
    ensures Parse(c, [HrToken]) == Some(c.hr())
    ensures Parse(c, [HeadingToken(text, depth)]) == Some(c.heading(c.inline(text), depth, text))
    ensures Parse(c, [CodeToken(text, lang, flag)]) == Some(c.code(text, lang, flag))
    ensures Parse(c, [ParagraphToken(text)]) == Some(c.paragraph(c.inline(text)))
    ensures flag || c.pedantic ==> Parse(c, [HtmlToken(text, flag)]) == Some(c.html(text))
    ensures !flag && !c.pedantic ==> Parse(c, [HtmlToken(text, flag)]) == Some(c.html(c.inline(text)))
  {
    hide Parse;
    OneToken(c, SpaceToken);
    OneToken(c, HrToken);
    OneToken(c, HeadingToken(text, depth));
    OneToken(c, CodeToken(text, lang, flag));
    OneToken(c, ParagraphToken(text));
    OneToken(c, HtmlToken(text, flag));
  }

  /** A table: the header row of header cells, then the other rows of plain ones. */
  lemma {:induction false} TableCalls(c: Renderer, header: seq<string>, align: seq<Option<string>>, cells: seq<seq<string>>)
    ensures Parse(c, [TableToken(header, align, cells)])
         == Some(c.table(c.tableRow(RowOf(c, header, align, true)), RowsOf(c, cells, align)))
  {
    hide Parse, RowOf, RowsText, CellsText;
    OneToken(c, TableToken(header, align, cells));
    RowIs(c, header, align, true);
    var parts := seq(|cells|, i requires 0 <= i < |cells| => c.tableRow(RowOf(c, cells[i], align, false)));
    RowsJoin(c, cells, align, parts, 0);
    assert parts[0..] == parts;
  }

  // ----- blocks, their tokens and their direct rendering -----

  datatype Block =
    | Leaf(token: Token)
    | Text(text: string)
    | Quote(children: seq<Block>)
    | List(ordered: bool, children: seq<Block>)
    | Item(loose: bool, children: seq<Block>)

  predicate WellFormed(b: Block)
    decreases b
  {
    match b
    case Leaf(t) => IsLeaf(t)
    case Text(_) => true
    case Quote(children) => AllWellFormed(children)
    case List(_, children) => AllWellFormed(children)
    case Item(_, children) => AllWellFormed(children)
  }

  predicate AllWellFormed(bs: seq<Block>)
    decreases bs
  {
    bs == [] || (WellFormed(bs[0]) && AllWellFormed(bs[1..]))
  }

  function Tokens(b: Block): seq<Token>
    decreases b
  {
    match b
    case Leaf(t) => [t]
    case Text(text) => [TextToken(text)]
    case Quote(children) => [QuoteStart] + (Flatten(children) + [QuoteEnd])
    case List(ordered, children) => [ListStart(ordered)] + (Flatten(children) + [ListEnd])
    case Item(loose, children) => [if loose then LooseItemStart else ItemStart] + (Flatten(children) + [ItemEnd])
  }

  function Flatten(bs: seq<Block>): seq<Token>
    decreases bs
  {
    if bs == [] then [] else Tokens(bs[0]) + Flatten(bs[1..])
  }

  /** The texts of a maximal run, one per line. */
  function Lines(first: string, bs: seq<Block>): string
    decreases bs
  {
    if bs != [] && bs[0].Text? then Lines(first + "\n" + bs[0].text, bs[1..]) else first
  }

  function AfterRun(bs: seq<Block>): (r: seq<Block>)
    ensures |r| <= |bs| && (r != [] ==> !r[0].Text?)
    ensures r == bs[|bs| - |r|..]
  {
    if bs != [] && bs[0].Text? then AfterRun(bs[1..]) else bs
  }

  function Render(c: Renderer, b: Block): string
    requires WellFormed(b) && !b.Text?
    decreases b
  {
    match b
    case Leaf(t) => LeafText(c, t)
    case Quote(children) => c.blockquote(RenderAll(c, children, false))
    case List(ordered, children) => c.list(RenderAll(c, children, false), ordered)
    case Item(loose, children) => c.listItem(RenderAll(c, children, !loose))
  }

  function RenderAll(c: Renderer, bs: seq<Block>, tight: bool): string
    requires AllWellFormed(bs)
    decreases bs
  {
    if bs == [] then ""
    else if bs[0].Text? then
      AfterRunWellFormed(bs[1..]);
      var text := c.inline(Lines(bs[0].text, bs[1..]));
      (if tight then text else c.paragraph(text)) + RenderAll(c, AfterRun(bs[1..]), tight)
    else Render(c, bs[0]) + RenderAll(c, bs[1..], tight)
  }

  lemma {:induction false} AfterRunWellFormed(bs: seq<Block>)
    requires AllWellFormed(bs)
    ensures AllWellFormed(AfterRun(bs))
    decreases bs
  {
    if bs != [] && bs[0].Text? {
      AfterRunWellFormed(bs[1..]);
    }
  }

  // ----- the parser undoes the flattening -----

  predicate NoText(tail: seq<Token>) {
    tail == [] || !tail[0].TextToken?
  }

  lemma {:induction false} FirstTokens(bs: seq<Block>, tail: seq<Token>)
    requires bs != []
    ensures Tokens(bs[0]) != [] && Flatten(bs) + tail == Tokens(bs[0]) + (Flatten(bs[1..]) + tail)
    ensures bs[0].Text? ==> Flatten(bs) + tail == [TextToken(bs[0].text)] + (Flatten(bs[1..]) + tail)
  {
  }

  lemma {:induction false} RunOfTokens(first: string, bs: seq<Block>, tail: seq<Token>)
    requires NoText(tail) && AllWellFormed(bs)
    ensures Joined(first, Flatten(bs) + tail) == Lines(first, bs)
    ensures AfterText(Flatten(bs) + tail) == Flatten(AfterRun(bs)) + tail
    decreases bs
  {
    var tokens := Flatten(bs) + tail;
    if bs == [] {
      assert tokens == tail;
    } else if bs[0].Text? {
      FirstTokens(bs, tail);
      assert tokens[0] == TextToken(bs[0].text) && tokens[1..] == Flatten(bs[1..]) + tail;
      RunOfTokens(first + "\n" + bs[0].text, bs[1..], tail);
    } else {
      FirstTokens(bs, tail);
      assert tokens[0] == Tokens(bs[0])[0];
    }
  }

  lemma {:induction false} TokReads(c: Renderer, b: Block, more: seq<Token>)
    requires WellFormed(b) && !b.Text?
    ensures Tokens(b) != [] && Tok(c, Tokens(b)[0], Tokens(b)[1..] + more) == Parsed(Render(c, b), more)
    decreases b
  {
    hide RenderAll, Flatten, Body, LeafText;
    match b
    case Leaf(t) => assert Tokens(b)[1..] + more == more;
    case Quote(children) =>
      Inside([QuoteStart], Flatten(children), [QuoteEnd], more);
      BodyReads(c, children, QuoteClose, QuoteEnd, more, false);
    case List(ordered, children) =>
      Inside([ListStart(ordered)], Flatten(children), [ListEnd], more);
      BodyReads(c, children, ListClose, ListEnd, more, false);
    case Item(loose, children) =>
      Inside([if loose then LooseItemStart else ItemStart], Flatten(children), [ItemEnd], more);
      BodyReads(c, children, ItemClose, ItemEnd, more, !loose);
  }

  lemma Inside<T>(a: seq<T>, b: seq<T>, d: seq<T>, more: seq<T>)
    requires |a| == 1
    ensures (a + (b + d))[1..] + more == b + (d + more)
  {
  }

  /** Blocks up to their own end token: nested end tokens are taken by their own loops. */
  lemma {:induction false} BodyReads(c: Renderer, bs: seq<Block>, end: End, close: Token, more: seq<Token>, tight: bool)
    requires AllWellFormed(bs) && Closes(close, end)
    ensures Body(c, Flatten(bs) + ([close] + more), end, tight) == Parsed(RenderAll(c, bs, tight), more)
    decreases bs, 1
  {
    hide Tok, Render;
    var tail := [close] + more;
    assert tail[1..] == more;
    if bs == [] {
      assert Flatten(bs) + tail == tail;
    } else {
      var tokens := Flatten(bs) + tail;
      FirstReads(c, bs, tail, tight);
      NotEnd(bs, tail, end);
      if bs[0].Text? {
        AfterRunWellFormed(bs[1..]);
        BodyReads(c, AfterRun(bs[1..]), end, close, more, tight);
      } else {
        BodyReads(c, bs[1..], end, close, more, tight);
      }
    }
  }

  lemma {:induction false} NotEnd(bs: seq<Block>, tail: seq<Token>, end: End)
    requires bs != [] && WellFormed(bs[0])
    ensures var tokens := Flatten(bs) + tail; tokens != [] && !Closes(tokens[0], end)
  {
    FirstTokens(bs, tail);
    assert (Flatten(bs) + tail)[0] == Tokens(bs[0])[0];
  }

  lemma {:induction false} FirstReads(c: Renderer, bs: seq<Block>, tail: seq<Token>, tight: bool)
    requires bs != [] && AllWellFormed(bs) && NoText(tail)
    ensures var tokens := Flatten(bs) + tail;
            tokens != [] && First(c, tokens, tight)
              == if bs[0].Text? then
                   Parsed(if tight then c.inline(Lines(bs[0].text, bs[1..]))
                          else c.paragraph(c.inline(Lines(bs[0].text, bs[1..]))), Flatten(AfterRun(bs[1..])) + tail)
                 else Parsed(Render(c, bs[0]), Flatten(bs[1..]) + tail)
    decreases bs, 0
  {
    hide Render, RenderAll, Body, LeafText, Joined, AfterText, Lines, AfterRun;
    var tokens := Flatten(bs) + tail;
    FirstTokens(bs, tail);
    if bs[0].Text? {
      assert tokens[0] == TextToken(bs[0].text) && tokens[1..] == Flatten(bs[1..]) + tail;
      RunOfTokens(bs[0].text, bs[1..], tail);
    } else {
      TokReads(c, bs[0], Flatten(bs[1..]) + tail);
      assert tokens == Tokens(bs[0]) + (Flatten(bs[1..]) + tail);
      assert tokens[0] == Tokens(bs[0])[0] && tokens[1..] == Tokens(bs[0])[1..] + (Flatten(bs[1..]) + tail);
      NotText(bs[0]);
    }
  }

  lemma {:induction false} NotText(b: Block)
    requires WellFormed(b) && !b.Text?
    ensures !Tokens(b)[0].TextToken?
  {
  }

  /** Parsing the tokens of any blocks uses them all up and yields the direct rendering of the blocks. */
  lemma {:induction false} ParseFlatten(c: Renderer, bs: seq<Block>)
    requires AllWellFormed(bs)
    ensures Parse(c, Flatten(bs)) == Some(RenderAll(c, bs, false))
    decreases |bs|
  {
    hide Tok, Render, Joined, Lines, AfterText;
    if bs != [] {
      FirstReads(c, bs, [], false);
      assert Flatten(bs) + [] == Flatten(bs);
      var next := if bs[0].Text? then AfterRun(bs[1..]) else bs[1..];
      assert Flatten(next) + [] == Flatten(next);
      if bs[0].Text? {
        AfterRunWellFormed(bs[1..]);
      }
      ParseFlatten(c, next);
    }
  }

  /** Neighbouring text tokens are one paragraph, a line each. */
  lemma {:induction false} TextsJoin(c: Renderer, one: string, two: string)
    ensures AllWellFormed([Text(one), Text(two)])
    ensures Parse(c, Flatten([Text(one), Text(two)])) == Some(c.paragraph(c.inline(one + "\n" + two)))
  {
    var bs := [Text(one), Text(two)];
    assert bs[1..] == [Text(two)] && [Text(two)][1..] == [];
    assert AllWellFormed([]) && AllWellFormed([Text(two)]) && AllWellFormed(bs);
    assert Flatten(bs[1..]) == [TextToken(two)] + Flatten([]);
    TwoTexts(c, one, two);
    assert Flatten(bs) == [TextToken(one), TextToken(two)];
  }

  lemma {:induction false} TwoTexts(c: Renderer, one: string, two: string)
    ensures Parse(c, [TextToken(one), TextToken(two)]) == Some(c.paragraph(c.inline(one + "\n" + two)))
  {
    var tokens := [TextToken(one), TextToken(two)];
    assert tokens[1..] == [TextToken(two)] && [TextToken(two)][1..] == [];
    var joined := one + "\n" + two;
    assert Joined(one, [TextToken(two)]) == Joined(joined, []) == joined;
    assert AfterText([TextToken(two)]) == AfterText([]) == [];
    var html := c.paragraph(c.inline(joined));
    assert html + "" == html;
  }

  // ----- any token list -----

  function EndOf(t: Token): Option<End> {
    match t
    case QuoteStart => Some(QuoteClose)
    case ListStart(_) => Some(ListClose)
    case ItemStart => Some(ItemClose)
    case LooseItemStart => Some(ItemClose)
    case _ => None
  }

  /** The ends still waited for; an end token counts only when it is the innermost one waited for. */
  function Waiting(tokens: seq<Token>, open: seq<End>): seq<End>
    decreases tokens
  {
    if tokens == [] then open
    else if open != [] && Closes(tokens[0], open[|open| - 1]) then Waiting(tokens[1..], open[..|open| - 1])
    else if EndOf(tokens[0]).Some? then Waiting(tokens[1..], open + [EndOf(tokens[0]).value])
    else Waiting(tokens[1..], open)
  }

  lemma {:induction false} TextDoesNotWait(rest: seq<Token>, open: seq<End>)
    ensures Waiting(rest, open) == Waiting(AfterText(rest), open)
    decreases rest
  {
    if rest != [] && rest[0].TextToken? {
      TextDoesNotWait(rest[1..], open);
    }
  }

  /** The tokens of one block, complete or not. */
  ghost predicate Settles(p: Parsed, tokens: seq<Token>, open: seq<End>, after: seq<End>) {
    match p
    case Parsed(_, rest) => Waiting(tokens, open) == Waiting(rest, after)
    case Fails => |Waiting(tokens, open)| > |after|
  }

  lemma {:induction false} TokSettles(c: Renderer, t: Token, rest: seq<Token>, open: seq<End>)
    requires open == [] || !Closes(t, open[|open| - 1])
    ensures Settles(Tok(c, t, rest), [t] + rest, open, open)
    decreases |rest|, 1
  {
    hide Body, LeafText;
    assert ([t] + rest)[1..] == rest;
    if EndOf(t).Some? {
      var end := EndOf(t).value;
      BodySettles(c, rest, end, t.ItemStart?, open);
      assert Waiting([t] + rest, open) == Waiting(rest, open + [end]);
    } else if t.TextToken? {
      TextDoesNotWait(rest, open);
    }
  }

  lemma {:induction false} BodySettles(c: Renderer, rest: seq<Token>, end: End, tight: bool, open: seq<End>)
    ensures Settles(Body(c, rest, end, tight), rest, open + [end], open)
    decreases |rest|, 0
  {
    hide Tok, LeafText, Joined;
    var all := open + [end];
    assert all[..|all| - 1] == open;
    if rest != [] && !Closes(rest[0], end) {
      assert [rest[0]] + rest[1..] == rest;
      if tight && rest[0].TextToken? {
        TextDoesNotWait(rest[1..], all);
      } else {
        TokSettles(c, rest[0], rest[1..], all);
      }
      var first := First(c, rest, tight);
      if first.Parsed? {
        BodySettles(c, first.rest, end, tight, open);
      }
    }
  }

  /** On every token list: the parser fails exactly when some block is opened and never closed. */
  lemma {:induction false} ParseFailsIff(c: Renderer, tokens: seq<Token>)
    ensures Parse(c, tokens).None? <==> Waiting(tokens, []) != []
    decreases |tokens|
  {
    hide Tok, LeafText;
    if tokens != [] {
      assert [tokens[0]] + tokens[1..] == tokens;
      TokSettles(c, tokens[0], tokens[1..], []);
      var first := Tok(c, tokens[0], tokens[1..]);
      if first.Parsed? {
        ParseFailsIff(c, first.rest);
      }
    }
  }

  // ----- the program -----

  function Reverse<T>(s: seq<T>): (r: seq<T>)
    ensures |r| == |s| && forall i :: 0 <= i < |s| ==> r[i] == s[|s| - 1 - i]
  {
    if s == [] then [] else Reverse(s[1..]) + [s[0]]
  }

  lemma {:induction false} ReverseTwice<T>(s: seq<T>)
    ensures Reverse(Reverse(s)) == s
  {
  }

  /** The tokens still to be seen when t has been taken. */
  function Ahead(t: Option<Token>, left: seq<Token>): seq<Token> {
    if t.Some? then [t.value] + left else left
  }

  function Prefixed(l: string, p: Parsed): Parsed {
    match p case Parsed(html, rest) => Parsed(l + html, rest) case Fails => Fails
  }

  function Before(l: string, p: Option<string>): Option<string> {
    match p case Some(html) => Some(l + html) case None => None
  }

  lemma Nothing(p: Parsed)
    ensures Prefixed("", p) == p
  {
    if p.Parsed? {
      assert "" + p.html == p.html;
    }
  }

  lemma NothingBefore(p: Option<string>)
    ensures Before("", p) == p
  {
    if p.Some? {
      assert "" + p.value == p.value;
    }
  }

  lemma {:induction false} BodyFirst(c: Renderer, rest: seq<Token>, end: End, tight: bool, l: string)
    requires rest != [] && !Closes(rest[0], end)
    ensures var first := First(c, rest, tight);
            Prefixed(l, Body(c, rest, end, tight))
              == if first.Fails? then Fails else Prefixed(l + first.html, Body(c, first.rest, end, tight))
  {
    hide First;
    var first := First(c, rest, tight);
    if first.Parsed? {
      var more := Body(c, first.rest, end, tight);
      if more.Parsed? {
        assert (l + first.html) + more.html == l + (first.html + more.html);
      }
    }
  }

  lemma {:induction false} BodyEnd(c: Renderer, t: Option<Token>, left: seq<Token>, end: End, tight: bool, l: string)
    requires t.None? ==> left == []
    requires t.Some? ==> Closes(t.value, end)
    ensures Prefixed(l, Body(c, Ahead(t, left), end, tight)) == if t.Some? then Parsed(l, left) else Fails
  {
    assert l + "" == l;
    if t.Some? {
      assert Ahead(t, left)[1..] == left;
    }
  }

  lemma {:induction false} ParseFirst(c: Renderer, tokens: seq<Token>, n: string)
    requires tokens != []
    ensures var first := Tok(c, tokens[0], tokens[1..]);
            Before(n, Parse(c, tokens)) == if first.Fails? then None else Before(n + first.html, Parse(c, first.rest))
  {
    hide Tok;
    var first := Tok(c, tokens[0], tokens[1..]);
    if first.Parsed? && Parse(c, first.rest).Some? {
      var more := Parse(c, first.rest).value;
      assert (n + first.html) + more == n + (first.html + more);
    }
  }

  lemma {:induction false} ParseEnd(c: Renderer, n: string)
    ensures Before(n, Parse(c, [])) == Some(n)
  {
    assert n + "" == n;
  }

  class Parser {
    const c: Renderer
    /** Reversed: the next token is the last. */
    var tokens: seq<Token>
    var token: Option<Token>

    ghost function Left(): seq<Token>
      reads this
    {
      Reverse(tokens)
    }

    constructor (c: Renderer)
      ensures this.c == c && tokens == []
    {
      this.c, tokens, token := c, [], None;
    }

    method Next() returns (t: Option<Token>)
      modifies this
      ensures t == token
      ensures old(Left()) == [] ==> t == None && Left() == []
      ensures old(Left()) != [] ==> t == Some(old(Left())[0]) && Left() == old(Left())[1..]
      ensures |tokens| <= old(|tokens|) && (t.Some? ==> |tokens| < old(|tokens|)) && Ahead(t, Left()) == old(Left())
    {
      if tokens == [] {
        token := None;
      } else {
        token := Some(tokens[|tokens| - 1]);
        tokens := tokens[..|tokens| - 1];
      }
      t := token;
    }

    method Peek() returns (t: Option<Token>)
      ensures t == if Left() == [] then None else Some(Left()[0])
    {
      t := if tokens == [] then None else Some(tokens[|tokens| - 1]);
    }

    method ParseText() returns (html: string)
      requires token.Some? && token.value.TextToken?
      modifies this
      ensures html == c.inline(Joined(old(token).value.text, old(Left()))) && Left() == AfterText(old(Left()))
    {
      var text := token.value.text;
      var t := Peek();
      while t.Some? && t.value.TextToken?
        invariant t == if Left() == [] then None else Some(Left()[0])
        invariant Joined(text, Left()) == Joined(old(token).value.text, old(Left()))
        invariant AfterText(Left()) == AfterText(old(Left()))
        decreases |tokens|
      {
        var next := Next();
        text := text + "\n" + next.value.text;
        t := Peek();
      }
      html := c.inline(text);
    }

    method TableText(t: Token) returns (html: string)
      requires t.TableToken?
      ensures html == LeafText(c, t)
    {
      var header := Row(t.header, t.align, true);
      var body := "";
      var e := 0;
      while e < |t.cells|
        invariant 0 <= e <= |t.cells|
        invariant body + RowsText(c, t.cells, t.align, e) == RowsText(c, t.cells, t.align, 0)
      {
        var row := Row(t.cells[e], t.align, false);
        body := body + c.tableRow(row);
        e := e + 1;
      }
      assert body + "" == body;
      html := c.table(c.tableRow(header), body);
    }

    method Row(cells: seq<string>, align: seq<Option<string>>, header: bool) returns (row: string)
      ensures row == CellsText(c, cells, align, header, 0)
    {
      row := "";
      var s := 0;
      while s < |cells|
        invariant 0 <= s <= |cells|
        invariant row + CellsText(c, cells, align, header, s) == CellsText(c, cells, align, header, 0)
      {
        row := row + c.tableCell(c.inline(cells[s]), header, AlignAt(align, s));
        s := s + 1;
      }
      assert row + "" == row;
    }

    /** One block; None when the tokens run out inside it. */
    method TokHtml() returns (html: Option<string>)
      requires token.Some?
      modifies this
      ensures match Tok(c, old(token).value, old(Left()))
              case Fails => html == None
              case Parsed(text, rest) => html == Some(text) && Left() == rest
      decreases |tokens|, 1
    {
      hide LeafText, Body, Joined, AfterText;
      match token.value {
        case TableToken(_, _, _) =>
          var text := TableText(token.value);
          html := Some(text);
        case TextToken(_) =>
          var text := ParseText();
          html := Some(c.paragraph(text));
        case QuoteStart =>
          var inside := BodyHtml(QuoteClose, false);
          html := if inside.Some? then Some(c.blockquote(inside.value)) else None;
        case ListStart(ordered) =>
          var inside := BodyHtml(ListClose, false);
          html := if inside.Some? then Some(c.list(inside.value, ordered)) else None;
        case ItemStart =>
          var inside := BodyHtml(ItemClose, true);
          html := if inside.Some? then Some(c.listItem(inside.value)) else None;
        case LooseItemStart =>
          var inside := BodyHtml(ItemClose, false);
          html := if inside.Some? then Some(c.listItem(inside.value)) else None;
        case t =>
          html := Some(if IsLeaf(t) then LeafText(c, t) else "undefined");
      }
    }

    method BodyHtml(end: End, tight: bool) returns (html: Option<string>)
      modifies this
      ensures match Body(c, old(Left()), end, tight)
              case Fails => html == None
              case Parsed(text, rest) => html == Some(text) && Left() == rest
      decreases |tokens|, 0
    {
      hide Tok, Body, Joined, AfterText, Reverse;
      var l := "";
      ghost var size := |tokens|;
      Nothing(Body(c, Left(), end, tight));
      var t := Next();
      while t.Some? && !Closes(t.value, end)
        invariant t == token && (t.Some? ==> |tokens| < size) && |tokens| <= size
        invariant Prefixed(l, Body(c, Ahead(t, Left()), end, tight)) == Body(c, old(Left()), end, tight)
        invariant t.None? ==> Left() == []
        decreases t.Some?, |tokens|
      {
        ghost var here := Ahead(t, Left());
        assert here[1..] == Left();
        var text: Option<string>;
        if tight && t.value.TextToken? {
          var inline := ParseText();
          text := Some(inline);
        } else {
          text := TokHtml();
        }
        BodyFirst(c, here, end, tight, l);
        if text.None? {
          return None;
        }
        l := l + text.value;
        t := Next();
      }
      BodyEnd(c, t, Left(), end, tight, l);
      html := if t.Some? then Some(l) else None;
    }

    /** The list handed over is reversed in place and emptied. */
    method ParseAll(list: seq<Token>) returns (html: Option<string>)
      modifies this
      ensures html == Parse(c, list)
      ensures html.Some? ==> Left() == []
    {
      hide Tok, Parse, Reverse;
      ReverseTwice(list);
      tokens := Reverse(list);
      var n := "";
      NothingBefore(Parse(c, list));
      var t := Next();
      while t.Some?
        invariant t == token && (t.None? ==> Left() == [])
        invariant Before(n, Parse(c, Ahead(t, Left()))) == Parse(c, list)
        decreases t.Some?, |tokens|
      {
        ghost var here := Ahead(t, Left());
        assert here[1..] == Left();
        var text := TokHtml();
        ParseFirst(c, here, n);
        if text.None? {
          return None;
        }
        n := n + text.value;
        t := Next();
      }
      ParseEnd(c, n);
      html := Some(n);
    }
  }
}
