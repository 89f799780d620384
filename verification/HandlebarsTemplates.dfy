/**
 Whole templates: what the emitted lines do once mergeSource has joined them into a function body,
 and, independently, what rendering a program means.
 */
module HandlebarsTemplates {
  import opened Wrappers
  import opened HandlebarsAst
  import opened HandlebarsOpcodes
  import opened HandlebarsMachine
  import opened HandlebarsCodegen
  import opened HandlebarsSemantics
  import opened HandlebarsPreservation

  // ----- JavaScript addition -----

  predicate Numeric(v: Value) {
    v.Num? || v.Bool?
  }

  function NumberOf(v: Value): int
    requires Numeric(v)
  {
    match v
    case Num(n) => n
    case Bool(b) => if b then 1 else 0
  }

  /** String(v); the host decides the text of everything but strings. */
  function Text(v: Value, text: Value -> string): string {
    if v.Str? then v.s else text(v)
  }

  function Plus(a: Value, b: Value, text: Value -> string): Value {
    if Numeric(a) && Numeric(b) then Num(NumberOf(a) + NumberOf(b)) else Str(Text(a, text) + Text(b, text))
  }

  // ----- the function body mergeSource builds -----

  datatype Part =
    | Init(run: seq<Js>)          // buffer = a + b ...;
    | Extend(run: seq<Js>)        // buffer += a + b ...;
    | Whole(line: Line)
    | ReturnRun(run: seq<Js>)     // return a + b ...;
    | ReturnMore(run: seq<Js>)    // return buffer + a + b ...;
    | ReturnBuffer
    | ReturnEmpty

  function Pieces(run: seq<Js>): seq<Line> {
    if run == [] then [] else [Piece(run[0])] + Pieces(run[1..])
  }

  /** The pieces at the front of the lines. */
  function Leading(source: seq<Line>): seq<Js> {
    if source == [] || !source[0].Piece? then [] else [source[0].e] + Leading(source[1..])
  }

  predicate AllPieces(source: seq<Line>) {
    forall i :: 0 <= i < |source| ==> source[i].Piece?
  }

  lemma {:induction false} LeadingLength(source: seq<Line>)
    ensures |Leading(source)| <= |source|
    ensures |Leading(source)| < |source| ==> !source[|Leading(source)|].Piece?
    ensures |Leading(source)| == |source| <==> AllPieces(source)
  {
    if source != [] && source[0].Piece? {
      LeadingLength(source[1..]);
      if AllPieces(source[1..]) {
        assert AllPieces(source);
      }
    }
  }

  /** The lines from somewhere after the first line that is no piece. */
  function MergeRest(source: seq<Line>): seq<Part>
    decreases |source|
  {
    var run := Leading(source);
    LeadingLength(source);
    if source == [] then [ReturnBuffer]
    else if run == [] then [Whole(source[0])] + MergeRest(source[1..])
    else if |run| == |source| then [ReturnMore(run)]
    else [Extend(run), Whole(source[|run|])] + MergeRest(source[|run| + 1..])
  }

  function AllWhole(source: seq<Line>): seq<Part> {
    if source == [] then [] else [Whole(source[0])] + AllWhole(source[1..])
  }

  /** mergeSource. In the simple form every line already returns, so none is a piece. */
  function Merge(source: seq<Line>, isSimple: bool): seq<Part> {
    var run := Leading(source);
    LeadingLength(source);
    if source == [] then [ReturnEmpty]
    else if isSimple && run == [] then AllWhole(source)
    else if |run| == |source| then [ReturnRun(run)]
    else if run == [] then MergeRest(source)
    else [Init(run), Whole(source[|run|])] + MergeRest(source[|run| + 1..])
  }

  // ----- running a function body -----

  /** What one line does: the values it appends, and whether a following else is skipped. */
  datatype LineRun<W> = LineThrew(w: W) | LineDone(appended: seq<Value>, s: Store, w: W, taken: bool)

  function Appended<W>(r: Eval<W>, taken: bool): LineRun<W> {
    if r.Thrown? then LineThrew(r.w) else LineDone([r.v], r.s, r.w, taken)
  }

  function RunLine<W>(line: Line, taken: bool, h: Host<W>, env: Env, s: Store, w: W): LineRun<W>
    decreases line
  {
    match line
    case Piece(e) => Appended(Evaluate(e, h, env, s, w), taken)
    case Return(e) => Appended(Evaluate(e, h, env, s, w), taken)
    case AddTo(e) => Appended(Evaluate(e, h, env, s, w), taken)
    case SetTemp(slot, e) =>
      var r := Evaluate(JSetTemp(slot, e), h, env, s, w);
      if r.Thrown? then LineThrew(r.w) else LineDone([], r.s, r.w, taken)
    case IfPresent(test, body) =>
      var r := Evaluate(test, h, env, s, w);
      if r.Thrown? then LineThrew(r.w)
      else if Nullish(r.v) then LineDone([], r.s, r.w, false)
      else
        var b := RunLine(body, true, h, env, r.s, r.w);
        if b.LineThrew? then b else b.(taken := true)
    case Otherwise(body) => if taken then LineDone([], s, w, taken) else RunLine(body, taken, h, env, s, w)
    case IfNoHelper(helper, target, e) =>
      var r := Evaluate(helper, h, env, s, w);
      if r.Thrown? then LineThrew(r.w)
      else if IsTrue(r.v) then LineDone([], r.s, r.w, taken)
      else if !target.JTemp? then LineThrew(r.w)
      else
        var v := Evaluate(JSetTemp(target.slot, e), h, env, r.s, r.w);
        if v.Thrown? then LineThrew(v.w) else LineDone([], v.s, v.w, taken)
  }

  predicate Returns(line: Line) {
    match line
    case Return(_) => true
    case IfPresent(_, body) => Returns(body)
    case Otherwise(body) => Returns(body)
    case _ => false
  }

  datatype Summed<W> = SumThrew(w: W) | Sum(v: Value, s: Store, w: W)

  /** acc + a + b + ..., from left to right. */
  function SumFrom<W>(acc: Value, run: seq<Js>, h: Host<W>, text: Value -> string, env: Env, s: Store, w: W): Summed<W>
    decreases run
  {
    if run == [] then Sum(acc, s, w)
    else
      var r := Evaluate(run[0], h, env, s, w);
      if r.Thrown? then SumThrew(r.w) else SumFrom(Plus(acc, r.v, text), run[1..], h, text, env, r.s, r.w)
  }

  function SumOf<W>(run: seq<Js>, h: Host<W>, text: Value -> string, env: Env, s: Store, w: W): Summed<W>
    requires run != []
  {
    var r := Evaluate(run[0], h, env, s, w);
    if r.Thrown? then SumThrew(r.w) else SumFrom(r.v, run[1..], h, text, env, r.s, r.w)
  }

  function Finish<W>(r: Summed<W>): Outcome<W> {
    match r
    case SumThrew(w) => Threw(w)
    case Sum(v, _, w) => Returned(v, w)
  }

  /** Runs the body from the given value of the buffer; falling off its end returns undefined. */
  function RunParts<W>(parts: seq<Part>, buffer: Value, taken: bool, h: Host<W>, text: Value -> string, env: Env, s: Store, w: W)
    : Outcome<W>
    decreases parts
  {
    if parts == [] then Returned(Undefined, w)
    else
      match parts[0]
      case Init(run) =>
        if run == [] then Threw(w)
        else
          var r := SumOf(run, h, text, env, s, w);
          if r.SumThrew? then Threw(r.w) else RunParts(parts[1..], r.v, taken, h, text, env, r.s, r.w)
      case Extend(run) =>
        if run == [] then Threw(w)
        else
          var r := SumOf(run, h, text, env, s, w);
          if r.SumThrew? then Threw(r.w)
          else RunParts(parts[1..], Plus(buffer, r.v, text), taken, h, text, env, r.s, r.w)
      case ReturnRun(run) => if run == [] then Threw(w) else Finish(SumOf(run, h, text, env, s, w))
      case ReturnMore(run) => Finish(SumFrom(buffer, run, h, text, env, s, w))
      case ReturnBuffer => Returned(buffer, w)
      case ReturnEmpty => Returned(Str(""), w)
      case Whole(line) =>
        var r := RunLine(line, taken, h, env, s, w);
        if r.LineThrew? then Threw(r.w)
        else if r.appended == [] then RunParts(parts[1..], buffer, r.taken, h, text, env, r.s, r.w)
        else if Returns(line) then Returned(r.appended[0], r.w)
        else RunParts(parts[1..], Plus(buffer, r.appended[0], text), r.taken, h, text, env, r.s, r.w)
  }

  /** The compiled function: buffer starts as the empty string. */
  function RunTemplate<W>(out: Output, isSimple: bool, h: Host<W>, text: Value -> string, env: Env, s: Store, w: W): Outcome<W> {
    RunParts(Merge(out.source, isSimple), Str(""), false, h, text, env, s, w)
  }

  // ----- what a program means -----

  /** The output so far: appended values in order, neighbouring strings joined. */
  datatype Rendering<W> = Broken(w: W) | Rendered(chunks: seq<Value>, w: W)

  function AddChunk(chunks: seq<Value>, v: Value): seq<Value> {
    var last := |chunks| - 1;
    if chunks != [] && chunks[last].Str? && v.Str? then chunks[..last] + [Str(chunks[last].s + v.s)]
    else chunks + [v]
  }

  function AddChunks(chunks: seq<Value>, vs: seq<Value>): seq<Value>
    decreases vs
  {
    if vs == [] then chunks else AddChunks(AddChunk(chunks, vs[0]), vs[1..])
  }

  function AddText(chunks: seq<Value>, text: string): seq<Value> {
    if text == "" then chunks else AddChunk(chunks, Str(text))
  }

  /** Null and undefined are rendered as nothing. */
  function Shown(v: Value): Value {
    if Nullish(v) then Str("") else v
  }

  function Show<W>(chunks: seq<Value>, m: Meaning<W>): Rendering<W>
    requires m.Means? ==> |m.vs| == 1
  {
    if m.Fails? then Broken(m.w) else Rendered(AddChunk(chunks, Shown(m.vs[0])), m.w)
  }

  function MustacheMeaning<W>(c: Sexpr, at: Setting<W>, w: W): (m: Meaning<W>)
    ensures m.Means? ==> |m.vs| == 1
  {
    match Classify(c.path, HasArguments(c), at.o, at.scope)
    case HelperKind => HelperMeaning(c, None, None, at, w)
    case AmbiguousKind => AmbiguousMeaning(c, None, None, at, w)
    case SimpleKind => SimpleMeaning(c, at, w)
  }

  /** helpers.blockHelperMissing.call(context, value, options); the value is only computed if that helper exists. */
  function BlockMissing<W>(value: Meaning<W>, options: Value, at: Setting<W>, w: W): (m: Meaning<W>)
    requires value.Means? ==> |value.vs| == 1
    ensures m.Means? ==> |m.vs| == 1
  {
    var missing := GetProp(at.h, w, at.env.helpers, "blockHelperMissing");
    if missing.Threw? || Nullish(missing.value) then Fails(w)
    else if value.Fails? then value
    else Single(at.h.call(value.w, missing.value, ContextAt(at.env, 0), [value.vs[0], options]))
  }

  /** A block whose name is no registered helper is handed to blockHelperMissing. */
  function AmbiguousBlock<W>(c: Sexpr, main: Option<nat>, inverse: Option<nat>, at: Setting<W>, w: W): (m: Meaning<W>)
    requires c.path.parts != []
    ensures m.Means? ==> |m.vs| == 1
  {
    var value := AmbiguousMeaning(c, main, inverse, at, w);
    if value.Fails? then value
    else
      var own := GetProp(at.h, value.w, at.env.helpers, c.path.parts[0]);
      if own.Threw? then Fails(own.w)
      else if IsTrue(own.value) then value
      else BlockMissing(value, OptionsValue(c.path.parts[0], Record([]), main, inverse, at.o, at.env), at, value.w)
  }

  function RenderBlock<W>(c: Sexpr, main: Option<nat>, inverse: Option<nat>, chunks: seq<Value>, at: Setting<W>, isSimple: bool, w: W)
    : Rendering<W>
  {
    match Classify(c.path, HasArguments(c), at.o, at.scope)
    case HelperKind => Show(chunks, HelperMeaning(c, main, inverse, at, w))
    case SimpleKind =>
      var options := OptionsValue(c.path.original, Record([]), main, inverse, at.o, at.env);
      Show(chunks, BlockMissing(SimpleMeaning(c, at, w), options, at, w))
    case AmbiguousKind =>
      var m := AmbiguousBlock(c, main, inverse, at, w);
      if m.Means? && Nullish(m.vs[0]) && !isSimple then Rendered(chunks, m.w) else Show(chunks, m)
  }

  /** The options object of a partial: no hash property unless a hash was written. */
  function PartialOptions(s: Statement, n: nat, hash: Value, o: Options, env: Env): Value
    requires s.Partial?
  {
    var main := BodyIndex(s.fallback, n);
    Record((if s.name.DynamicName? then [] else [("name", Str(s.name.name))])
           + (if s.hash.NoHash? then [] else [("hash", hash)])
           + TailPairs(main, None, o, env)
           + (if o.preventIndent || s.indent == "" then [] else [("indent", Str(s.indent))])
           + [("helpers", env.helpers), ("partials", env.partials), ("decorators", env.decorators)]
           + (if o.compat then [("depths", List(env.contexts))] else []))
  }

  /** The partial to invoke, by name or computed. */
  function PartialTarget<W>(name: PartialName, at: Setting<W>, w: W): (m: Meaning<W>)
    ensures m.Means? ==> |m.vs| == 1
  {
    match name
    case StaticName(n) => Single(GetProp(at.h, w, at.env.partials, n))
    case DynamicName(c) => ExprMeaning(SubExpr(c), at, w)
  }

  function PartialContext<W>(s: Statement, at: Setting<W>, w: W): (m: Meaning<W>)
    requires s.Partial?
    ensures m.Means? ==> |m.vs| == 1
  {
    if s.params != [] then ExprMeaning(s.params[0], at, w)
    else Means([if at.o.explicitPartialContext then Undefined else ContextAt(at.env, 0)], w)
  }

  /** The target is found first, then the context and the hash are computed, then the partial runs. */
  function PartialMeaning<W>(s: Statement, n: nat, at: Setting<W>, w: W): (m: Meaning<W>)
    requires s.Partial?
    ensures m.Means? ==> |m.vs| == 1
  {
    var target := PartialTarget(s.name, at, w);
    if target.Fails? then target
    else
      var context := PartialContext(s, at, target.w);
      if context.Fails? then context
      else
        var hash := HashMeaning(s.hash, at, context.w);
        if hash.Fails? then hash
        else
          Single(at.h.partial(hash.w, [target.vs[0], context.vs[0], PartialOptions(s, n, hash.vs[0], at.o, at.env)]))
  }

  function RenderStatement<W>(s: Statement, n: nat, chunks: seq<Value>, at: Setting<W>, isSimple: bool, w: W): Rendering<W> {
    match s
    case Content(value) => Rendered(AddText(chunks, value), w)
    case Comment => Rendered(chunks, w)
    case Mustache(c, escaped) =>
      var m := MustacheMeaning(c, at, w);
      if escaped && !at.o.noEscape then
        if m.Fails? then Broken(m.w) else Rendered(AddChunk(chunks, Str(at.h.escape(m.vs[0]))), m.w)
      else Show(chunks, m)
    case Block(c, bodies) => RenderBlock(c, MainIndex(bodies, n), InverseIndex(bodies, n), chunks, at, isSimple, w)
    case Partial(_, _, _, indent, _) =>
      Show(if at.o.preventIndent then AddText(chunks, indent) else chunks, PartialMeaning(s, n, at, w))
    case Decorator(_, _) => Rendered(chunks, w)
  }

  function RenderBody<W>(body: seq<Statement>, n: nat, chunks: seq<Value>, at: Setting<W>, isSimple: bool, w: W): Rendering<W>
    decreases body
  {
    if body == [] then Rendered(chunks, w)
    else
      var r := RenderStatement(body[0], n, chunks, at, isSimple, w);
      if r.Broken? then r
      else RenderBody(body[1..], n + |Nested(body[0])|, r.chunks, at, isSimple, r.w)
  }
}
