/**
 The abstract stack machine of the Handlebars `JavaScriptCompiler`: its state, and what every
 opcode does to it. Emitted JavaScript is kept as an expression tree instead of text.
 */
module HandlebarsMachine {
  import opened Wrappers
  import opened HandlebarsAst
  import opened HandlebarsOpcodes

  datatype Js =
    | JContext(n: nat)                        // depth0, depths[n]
    | JUndeclared(n: nat)                     // depth<n> for n > 0: no such variable exists
    | JDepths
    | JDepthedLookup(name: string)            // container.lookup(depths, "name")
    | JBlockParam(at: (nat, nat))             // blockParams[i][j]
    | JData(up: nat)                          // data, container.data(data, up)
    | JHelpers | JPartials | JDecorators
    | JTemp(slot: nat)                        // stack<slot>
    | JHelperVar | JOptionsVar                // the registers helper and options
    | JSetTemp(slot: nat, e: Js)
    | JSetHelper(e: Js)
    | JSetOptions(e: Js)
    | JIfPresent(test: Js, yes: Js, no: Js)   // test != null ? yes : no
    | JIfFunction(test: Js, yes: Js, no: Js)  // typeof test === "function" ? yes : no
    | JAnd(left: Js, right: Js)
    | JOr(left: Js, right: Js)
    | JComma(left: Js, right: Js)
    | JMember(obj: Js, name: string)
    | JStrictMember(obj: Js, name: string) // container.strict(object, "name")
    | JText(text: string)                     // a quoted string
    | JLiteral(of: Expr)                      // a number, boolean, undefined or null literal
    | JSide(of: Expr)                         // the description of a parameter in a side mode
    | JNone                                   // the raw null of an absent program
    | JNothing                                // popped although no stack had an entry
    | JProgram(index: nat)                    // container.program(index, ...)
    | JNoop
    | JThis                                   // depth0 != null ? depth0 : {}
    | JLambda(e: Js)                          // container.lambda(e, depth0)
    | JInvoke(callee: Js, self: Js, args: seq<Js>)
    | JInvokePartial(args: seq<Js>)
    | JEscape(e: Js)
    | JObject(fields: seq<Field>)
    | JArray(items: seq<Js>)

  datatype Field = Field(name: string, value: Js)

  /** A stack literal may be repeated and dropped freely; other code runs exactly once. */
  datatype Entry = Lit(e: Js) | Code(e: Js)

  datatype Line =
    | Piece(e: Js)                            // a node marked for the output buffer
    | Return(e: Js)
    | AddTo(e: Js)                            // buffer += e
    | SetTemp(slot: nat, e: Js)
    | IfPresent(test: Js, body: Line)
    | Otherwise(body: Line)
    | IfNoHelper(helper: Js, target: Js, e: Js)

  datatype HashBuffer = HashBuffer(values: seq<Field>, types: seq<Field>, contexts: seq<Field>, ids: seq<Field>)

  /** The lines emitted so far and the content not yet emitted. */
  datatype Output = Output(source: seq<Line>, pending: string)

  datatype State = State(
    inline: seq<Entry>, stack: seq<Entry>, slot: nat, lastContext: nat,
    hash: Option<HashBuffer>, hashes: seq<HashBuffer>,
    lastHelper: Js, out: Output, decorators: seq<Js>)

  /** The errors the compiler raises itself, and the TypeError of using an absent hash buffer. */
  datatype Error = InvalidStackPop | ReplaceStackOnNonInline | ContentLeftOnStack | NoHashBuffer

  /** What one environment fixes for its whole compilation. */
  datatype Config = Config(opts: Options, useDepths: bool, isSimple: bool)

  /** Something taken from the stacks, and the state without it. */
  datatype Popped<T> = Popped(value: T, st: State)

  // ----- JavaScript objects: own keys keep for-in order -----

  /** The canonical array index a property name spells, if any. */
  function ArrayIndex(key: string): Option<nat> {
    if key == "0" then Some(0)
    else if key != "" && key[0] != '0' && AllDigits(key) && DecimalValue(key) < 0xFFFF_FFFF then Some(DecimalValue(key))
    else None
  }

  predicate AllDigits(key: string) {
    forall i :: 0 <= i < |key| ==> '0' <= key[i] <= '9'
  }

  function DecimalValue(key: string): nat
    requires AllDigits(key)
  {
    if key == "" then 0
    else
      var last := |key| - 1;
      assert AllDigits(key[..last]);
      10 * DecimalValue(key[..last]) + (key[last] as int - '0' as int)
  }

  /** Whether for-in visits property `a` before a newly added property `b`. */
  predicate Precedes(a: string, b: string) {
    ArrayIndex(b).None? || (ArrayIndex(a).Some? && ArrayIndex(a).value < ArrayIndex(b).value)
  }

  /** object[key] = value */
  function Put(fields: seq<Field>, key: string, value: Js): seq<Field> {
    if fields == [] then [Field(key, value)]
    else if fields[0].name == key then [Field(key, value)] + fields[1..]
    else if Precedes(fields[0].name, key) || exists i :: 0 <= i < |fields| && fields[i].name == key then
      [fields[0]] + Put(fields[1..], key, value)
    else [Field(key, value)] + fields
  }

  /** object[key] */
  function Property(fields: seq<Field>, key: string): Option<Js> {
    if fields == [] then None
    else if fields[0].name == key then Some(fields[0].value)
    else Property(fields[1..], key)
  }

  /** Assigning changes the one property, wherever for-in will visit it. */
  lemma {:induction false} PutSets(fields: seq<Field>, key: string, value: Js)
    ensures forall k :: Property(Put(fields, key, value), k) == if k == key then Some(value) else Property(fields, k)
    decreases fields
  {
    if fields != [] {
      PutSets(fields[1..], key, value);
      var rest := Put(fields[1..], key, value);
      forall k ensures Property(Put(fields, key, value), k) == if k == key then Some(value) else Property(fields, k) {
        assert ([fields[0]] + rest)[1..] == rest;
        assert ([Field(key, value)] + fields[1..])[1..] == fields[1..];
        assert ([Field(key, value)] + fields)[1..] == fields;
      }
    }
  }

  /** objectLiteral leaves out a property whose text is exactly undefined. */
  function Kept(fields: seq<Field>): seq<Field> {
    if fields == [] then []
    else (if fields[0].value == JLiteral(UndefinedLit) then [] else [fields[0]]) + Kept(fields[1..])
  }

  function ObjectLiteral(fields: seq<Field>): Js {
    JObject(Kept(fields))
  }

  // ----- output -----

  function AppendLine(e: Js, cfg: Config): Line {
    if cfg.isSimple then Return(e) else Piece(e)
  }

  function AppendExplicitly(e: Js, cfg: Config): Line {
    if cfg.isSimple then Return(e) else AddTo(e)
  }

  /** pushSource(""): only the pending content comes out. */
  function FlushContent(out: Output, cfg: Config): Output {
    if out.pending == "" then out
    else Output(out.source + [AppendLine(JText(out.pending), cfg)], "")
  }

  function PushSource(out: Output, line: Line, cfg: Config): Output {
    var flushed := FlushContent(out, cfg);
    flushed.(source := flushed.source + [line])
  }

  // ----- stack primitives -----

  function ContextName(n: nat, cfg: Config): Js {
    if n > 0 && !cfg.useDepths then JUndeclared(n) else JContext(n)
  }

  function Push(st: State, entry: Entry): State {
    st.(inline := st.inline + [entry])
  }

  /** popStack() */
  function Pop(st: State): Result<Popped<Js>, Error> {
    if st.inline != [] then
      var last := |st.inline| - 1;
      Success(Popped(st.inline[last].e, st.(inline := st.inline[..last])))
    else if st.stack != [] && st.stack[|st.stack| - 1].Lit? then
      var last := |st.stack| - 1;
      Success(Popped(st.stack[last].e, st.(stack := st.stack[..last])))
    else if st.slot == 0 then Failure(InvalidStackPop)
    else if st.stack == [] then Success(Popped(JNothing, st.(slot := st.slot - 1)))
    else
      var last := |st.stack| - 1;
      Success(Popped(st.stack[last].e, st.(stack := st.stack[..last], slot := st.slot - 1)))
  }

  /** topStack() */
  function Top(st: State): Js {
    if st.inline != [] then st.inline[|st.inline| - 1].e
    else if st.stack != [] then st.stack[|st.stack| - 1].e
    else JNothing
  }

  /** replaceStack: `f` gets the text that opens the new expression and the text that stands for its value. */
  function Replaced(entry: Entry, slot: nat, f: (Js, Js) -> Js): Entry {
    match entry
    case Lit(v) => Code(f(v, v))
    case Code(n) => Code(f(JSetTemp(slot + 1, n), JTemp(slot + 1)))
  }

  function Replace(st: State, f: (Js, Js) -> Js): Result<State, Error> {
    if st.inline == [] then Failure(ReplaceStackOnNonInline)
    else
      var last := |st.inline| - 1;
      Success(st.(inline := st.inline[..last] + [Replaced(st.inline[last], st.slot, f)]))
  }

  /** flushInline, one entry at a time. */
  function FlushEntries(entries: seq<Entry>, st: State, cfg: Config): State
    decreases entries
  {
    if entries == [] then st
    else
      var next :=
        match entries[0]
        case Lit(_) => st.(stack := st.stack + [entries[0]])
        case Code(e) => st.(slot := st.slot + 1,
                            stack := st.stack + [Code(JTemp(st.slot + 1))],
                            out := PushSource(st.out, SetTemp(st.slot + 1, e), cfg));
      FlushEntries(entries[1..], next, cfg)
  }

  function Flush(st: State, cfg: Config): State {
    FlushEntries(st.inline, st.(inline := []), cfg)
  }

  // ----- paths -----

  function Link(name: string, falsy: bool): (Js, Js) -> Js {
    (open: Js, value: Js) =>
      if falsy then JAnd(open, JMember(value, name)) else JIfPresent(open, JMember(value, name), value)
  }

  function OrEmpty(): (Js, Js) -> Js {
    (open: Js, value: Js) => JIfPresent(open, value, JText(""))
  }

  function MemberChain(base: Js, parts: seq<string>): Js
    decreases |parts|
  {
    if parts == [] then base
    else JMember(MemberChain(base, parts[..|parts| - 1]), parts[|parts| - 1])
  }

  /** strictLookup */
  function StrictChain(base: Js, parts: seq<string>, strict: bool): Js {
    if strict && parts != [] then
      JStrictMember(MemberChain(base, parts[..|parts| - 1]), parts[|parts| - 1])
    else MemberChain(base, parts)
  }

  function Links(st: State, parts: seq<string>, falsy: bool): Result<State, Error>
    decreases parts
  {
    if parts == [] then Success(st)
    else
      var next :- Replace(st, Link(parts[0], falsy));
      Links(next, parts[1..], falsy)
  }

  /** resolvePath; the strict modes always walk the whole path, whatever `from` is. */
  function ResolvePath(st: State, parts: seq<string>, from: nat, falsy: bool, strict: bool, cfg: Config)
    : Result<State, Error>
  {
    if cfg.opts.strict || cfg.opts.assumeObjects then
      var base :- Pop(st);
      Success(Push(base.st, Code(StrictChain(base.value, parts, cfg.opts.strict && strict))))
    else if from <= |parts| then Links(st, parts[from..], falsy)
    else Success(st)
  }

  // ----- helper arguments -----

  /** The truth of a chunk of generated text. */
  predicate Truthy(e: Js) {
    e != JNone && e != JNothing && e != JLiteral(NumberLit(0)) && e != JLiteral(BooleanLit(false))
  }

  function PopIf(st: State, wanted: bool): Result<Popped<Js>, Error> {
    if wanted then Pop(st) else Success(Popped(JNothing, st))
  }

  datatype Params = Params(values: seq<Js>, ids: seq<Js>, types: seq<Js>, contexts: seq<Js>)

  /** The parameter loop of setupParams, last parameter first. */
  function PopParams(st: State, count: nat, o: Options): Result<Popped<Params>, Error>
    decreases count
  {
    if count == 0 then Success(Popped(Params([], [], [], []), st))
    else
      var value :- Pop(st);
      var id :- PopIf(value.st, o.trackIds);
      var kind :- PopIf(id.st, o.stringParams);
      var context :- PopIf(kind.st, o.stringParams);
      var rest :- PopParams(context.st, count - 1, o);
      var p := rest.value;
      Success(Popped(Params(p.values + [value.value], p.ids + [id.value],
                            p.types + [kind.value], p.contexts + [context.value]), rest.st))
  }

  function FieldIf(wanted: bool, name: string, value: Js): seq<Field> {
    if wanted then [Field(name, value)] else []
  }

  function Or(e: Js, other: Js): Js {
    if Truthy(e) then e else other
  }

  datatype HashParts = HashParts(hash: Js, ids: Js, types: Js, contexts: Js, inverse: Js, main: Js)

  function PopHashParts(st: State, o: Options): Result<Popped<HashParts>, Error> {
    var hash :- Pop(st);
    var ids :- PopIf(hash.st, o.trackIds);
    var types :- PopIf(ids.st, o.stringParams);
    var contexts :- PopIf(types.st, o.stringParams);
    var inverse :- Pop(contexts.st);
    var main :- Pop(inverse.st);
    Success(Popped(HashParts(hash.value, ids.value, types.value, contexts.value, inverse.value, main.value), main.st))
  }

  /** The properties of the options object; `withArgs` is the decorator form. */
  function OptionFields(name: string, h: HashParts, p: Params, withArgs: bool, o: Options): seq<Field> {
    var block := Truthy(h.main) || Truthy(h.inverse);
    [Field("name", JText(name)), Field("hash", h.hash)]
    + FieldIf(o.trackIds, "hashIds", h.ids)
    + FieldIf(o.stringParams, "hashTypes", h.types) + FieldIf(o.stringParams, "hashContexts", h.contexts)
    + FieldIf(block, "fn", Or(h.main, JNoop)) + FieldIf(block, "inverse", Or(h.inverse, JNoop))
    + FieldIf(withArgs, "args", JArray(p.values))
    + FieldIf(o.trackIds, "ids", JArray(p.ids))
    + FieldIf(o.stringParams, "types", JArray(p.types)) + FieldIf(o.stringParams, "contexts", JArray(p.contexts))
    + FieldIf(o.data, "data", JData(0))
  }

  datatype Arguments = Arguments(params: seq<Js>, fields: seq<Field>)

  /** setupParams */
  function SetupParams(st: State, name: string, count: nat, withArgs: bool, o: Options): Result<Popped<Arguments>, Error> {
    var h :- PopHashParts(st, o);
    var p :- PopParams(h.st, count, o);
    Success(Popped(Arguments(p.value.values, OptionFields(name, h.value, p.value, withArgs, o)), p.st))
  }

  function Helper(name: string): Js {
    JMember(JHelpers, name)
  }

  // ----- opcodes -----

  const EMPTY_BUFFER := HashBuffer([], [], [], [])

  function EmptyHashEntries(omit: bool, o: Options): seq<Entry> {
    (if o.trackIds then [Code(JObject([]))] else [])
    + (if o.stringParams then [Code(JObject([])), Code(JObject([]))] else [])
    + [Lit(if omit then JLiteral(UndefinedLit) else JObject([]))]
  }

  function HashBufferEntries(h: HashBuffer, o: Options): seq<Entry> {
    (if o.trackIds then [Code(ObjectLiteral(h.ids))] else [])
    + (if o.stringParams then [Code(ObjectLiteral(h.contexts)), Code(ObjectLiteral(h.types))] else [])
    + [Code(ObjectLiteral(h.values))]
  }

  function LiteralEntry(e: Expr): Entry {
    Lit(if e.StringLit? then JText(e.text) else JLiteral(e))
  }

  function ProgramEntry(index: Option<nat>): Entry {
    Lit(if index.Some? then JProgram(index.value) else JNone)
  }

  function HelperCall(name: string, simple: bool, path: Js, a: Arguments, o: Options): Js {
    var callee := if simple then JOr(Helper(name), path) else path;
    JInvoke(if o.strict then callee else JOr(callee, Helper("helperMissing")), JThis,
            a.params + [ObjectLiteral(a.fields)])
  }

  function KnownHelperCall(name: string, a: Arguments): Js {
    JInvoke(Helper(name), JThis, a.params + [ObjectLiteral(a.fields)])
  }

  function AmbiguousCallCode(name: string, isBlock: bool, path: Js, a: Arguments, o: Options): Js {
    var found := JSetHelper(JOr(Helper(name), path));
    var chosen := if o.strict then found
                  else JSetHelper(JIfPresent(found, JHelperVar, Helper("helperMissing")));
    var last := if isBlock then JOptionsVar else ObjectLiteral(a.fields);
    var call := JIfFunction(JHelperVar, JInvoke(JHelperVar, JThis, a.params + [last]), JHelperVar);
    if isBlock then JComma(chosen, JComma(JSetOptions(ObjectLiteral(a.fields)), call)) else JComma(chosen, call)
  }

  function WithoutName(fields: seq<Field>, dynamic: bool): seq<Field> {
    if dynamic && fields != [] then fields[1..] else fields
  }

  function PartialCallCode(partial: Js, a: Arguments, dynamic: bool, indent: string, o: Options): Js {
    var fields := WithoutName(a.fields, dynamic)
                  + FieldIf(indent != "", "indent", JText(indent))
                  + [Field("helpers", JHelpers), Field("partials", JPartials), Field("decorators", JDecorators)]
                  + FieldIf(o.compat, "depths", JDepths);
    JInvokePartial([partial] + a.params + [ObjectLiteral(fields)])
  }

  function AssignField(wanted: bool, fields: seq<Field>, key: string, value: Js): seq<Field> {
    if wanted then Put(fields, key, value) else fields
  }

  function AssignHash(st: State, key: string, o: Options): Result<State, Error> {
    var value :- Pop(st);
    var id :- PopIf(value.st, o.trackIds);
    var kind :- PopIf(id.st, o.stringParams);
    var context :- PopIf(kind.st, o.stringParams);
    if context.st.hash.None? then Failure(NoHashBuffer)
    else
      var h := context.st.hash.value;
      Success(context.st.(hash := Some(HashBuffer(
      Put(h.values, key, value.value), AssignField(o.stringParams, h.types, key, kind.value),
      AssignField(o.stringParams, h.contexts, key, context.value), AssignField(o.trackIds, h.ids, key, id.value)))))
  }

  lemma PopKeepsHash(st: State)
    ensures Pop(st).Success? ==> Pop(st).value.st.hash == st.hash && Pop(st).value.value == Top(st)
  {
  }

  lemma {:induction false} AssignSets(st: State, key: string, o: Options)
    ensures var r := AssignHash(st, key, o);
            r.Success? ==>
              && st.hash.Some? && r.value.hash.Some?
              && forall k :: Property(r.value.hash.value.values, k)
                          == if k == key then Some(Top(st)) else Property(st.hash.value.values, k)
  {
    hide Pop, Top, Put, Property;
    if AssignHash(st, key, o).Success? {
      var value := Pop(st).value;
      PopKeepsHash(st);
      var id := PopIf(value.st, o.trackIds).value;
      PopKeepsHash(value.st);
      var kind := PopIf(id.st, o.stringParams).value;
      PopKeepsHash(id.st);
      PopKeepsHash(kind.st);
      PutSets(st.hash.value.values, key, Top(st));
    }
  }

  function OpenHash(st: State): State {
    st.(hashes := if st.hash.Some? then st.hashes + [st.hash.value] else st.hashes, hash := Some(EMPTY_BUFFER))
  }

  function CloseHash(st: State, o: Options): Result<State, Error> {
    if st.hash.None? then Failure(NoHashBuffer)
    else
      var count := |st.hashes|;
      Success(st.(inline := st.inline + HashBufferEntries(st.hash.value, o),
                  hash := if count == 0 then None else Some(st.hashes[count - 1]),
                  hashes := if count == 0 then [] else st.hashes[..count - 1]))
  }

  function AppendTop(st: State, cfg: Config): Result<State, Error> {
    if st.inline != [] then
      var replaced :- Replace(st, OrEmpty());
      var top :- Pop(replaced);
      Success(top.st.(out := PushSource(top.st.out, AppendLine(top.value, cfg), cfg)))
    else
      var top :- Pop(st);
      var tested := PushSource(top.st.out, IfPresent(top.value, AppendExplicitly(top.value, cfg)), cfg);
      Success(top.st.(out := if cfg.isSimple
                             then PushSource(tested, Otherwise(AppendExplicitly(JText(""), cfg)), cfg)
                             else tested))
  }

  function LookupContext(st: State, parts: seq<string>, falsy: bool, strict: bool, scoped: bool, cfg: Config)
    : Result<State, Error>
  {
    if !scoped && cfg.opts.compat && st.lastContext == 0 && parts != [] then
      ResolvePath(Push(st, Code(JDepthedLookup(parts[0]))), parts, 1, falsy, strict, cfg)
    else
      ResolvePath(Push(st, Lit(ContextName(st.lastContext, cfg))), parts, 0, falsy, strict, cfg)
  }

  function StepHelper(count: nat, name: string, simple: bool, st: State, o: Options): Result<State, Error> {
    var path :- Pop(st);
    var a :- SetupParams(path.st, name, count, false, o);
    Success(Push(a.st, Code(HelperCall(name, simple, path.value, a.value, o))))
  }

  function StepKnownHelper(count: nat, name: string, st: State, o: Options): Result<State, Error> {
    var a :- SetupParams(st, name, count, false, o);
    Success(Push(a.st, Code(KnownHelperCall(name, a.value))))
  }

  function StepAmbiguous(name: string, isBlock: bool, st: State, o: Options): Result<State, Error> {
    var path :- Pop(st);
    var a :- SetupParams(path.st.(inline := path.st.inline + EmptyHashEntries(false, o)), name, 0, false, o);
    Success(Push(a.st.(lastHelper := Helper(name)), Code(AmbiguousCallCode(name, isBlock, path.value, a.value, o))))
  }

  function StepPartial(dynamic: bool, name: string, indent: string, st: State, o: Options): Result<State, Error> {
    var a :- SetupParams(st, name, 1, false, o);
    var partial :- PopIf(a.st, dynamic);
    var target := if dynamic then partial.value else JMember(JPartials, name);
    Success(Push(partial.st, Code(PartialCallCode(target, a.value, dynamic, indent, o))))
  }

  function StepDecorator(count: nat, name: string, st: State, o: Options): Result<State, Error> {
    var a :- SetupParams(st, name, count, true, o);
    var call := JInvoke(JMember(JDecorators, name), JNothing, [ObjectLiteral(a.value.fields)]);
    Success(a.st.(decorators := a.st.decorators + [call]))
  }

  function MissingBlock(value: Js, options: Js): Js {
    JInvoke(Helper("blockHelperMissing"), JContext(0), [value, options])
  }

  function StepBlockValue(name: string, st: State, o: Options): Result<State, Error> {
    var a :- SetupParams(st, name, 0, false, o);
    var value :- Pop(a.st);
    Success(Push(value.st, Code(MissingBlock(value.value, ObjectLiteral(a.value.fields)))))
  }

  function StepAmbiguousBlock(st: State, cfg: Config): Result<State, Error> {
    var a :- SetupParams(st, "", 0, false, cfg.opts);
    var flushed := Flush(a.st, cfg);
    var current := Top(flushed);
    var line := IfNoHelper(flushed.lastHelper, current, MissingBlock(current, JOptionsVar));
    Success(flushed.(out := PushSource(flushed.out, line, cfg)))
  }

  /** Runs one opcode. */
  function Step(op: Op, st: State, cfg: Config): Result<State, Error> {
    var o := cfg.opts;
    match op
    case GetContext(depth) => Success(st.(lastContext := depth))
    case PushContext => Success(Push(st, Lit(ContextName(st.lastContext, cfg))))
    case LookupOnContext(parts, falsy, strict, scoped) => LookupContext(st, parts, falsy, strict, scoped, cfg)
    case LookupBlockParam(at, parts) =>
      ResolvePath(Push(st, Code(JBlockParam(at))), parts, 1, false, false, cfg)
    case LookupData(depth, parts, strict) =>
      ResolvePath(Push(st, Lit(JData(depth))), parts, 0, true, strict, cfg)
    case ResolvePossibleLambda =>
      var top :- Pop(st);
      Success(Push(top.st, Code(JLambda(top.value))))
    case PushStringParam(of, typeName) =>
      var described := Push(Push(st, Lit(ContextName(st.lastContext, cfg))), Lit(JText(typeName)));
      Success(if of.SubExpr? then described else Push(described, Lit(JSide(of))))
    case PushId(of) => Success(Push(st, Lit(JSide(of))))
    case PushLiteral(of) => Success(Push(st, LiteralEntry(of)))
    case PushProgram(index) => Success(Push(st, ProgramEntry(index)))
    case EmptyHash(omit) => Success(st.(inline := st.inline + EmptyHashEntries(omit, o)))
    case PushHash => Success(OpenHash(st))
    case AssignToHash(key) => AssignHash(st, key, o)
    case PopHash => CloseHash(st, o)
    case InvokeHelper(count, name, simple) => StepHelper(count, name, simple, st, o)
    case InvokeKnownHelper(count, name) => StepKnownHelper(count, name, st, o)
    case InvokeAmbiguous(name, isBlock) => StepAmbiguous(name, isBlock, st, o)
    case InvokePartial(dynamic, name, indent) => StepPartial(dynamic, name, indent, st, o)
    case RegisterDecorator(count, name) => StepDecorator(count, name, st, o)
    case BlockValue(name) => StepBlockValue(name, st, o)
    case AmbiguousBlockValue => StepAmbiguousBlock(st, cfg)
    case AppendContent(text) => Success(st.(out := st.out.(pending := st.out.pending + text)))
    case Append => AppendTop(st, cfg)
    case AppendEscaped =>
      var top :- Pop(st);
      Success(top.st.(out := PushSource(top.st.out, AppendLine(JEscape(top.value), cfg), cfg)))
  }

  function Run(ops: seq<Op>, st: State, cfg: Config): Result<State, Error>
    decreases ops
  {
    if ops == [] then Success(st)
    else
      var next :- Step(ops[0], st, cfg);
      Run(ops[1..], next, cfg)
  }

  const START := State([], [], 0, 0, None, [], JNothing, Output([], ""), [])

  predicate LeftOnStack(st: State) {
    st.slot != 0 || st.inline != [] || st.stack != []
  }

  /** The opcode loop of compile, the final pushSource("") and the check of the stacks. */
  function Compile(ops: seq<Op>, cfg: Config): Result<Output, Error> {
    var st :- Run(ops, START, cfg);
    if LeftOnStack(st) then Failure(ContentLeftOnStack) else Success(FlushContent(st.out, cfg))
  }
}
