/** What the head of a mustache, block or sub-expression stands for, said without the compiler's classification. */
module HandlebarsLaws {
  import opened Wrappers
  import opened HandlebarsAst
  import opened HandlebarsOpcodes
  import opened HandlebarsMachine
  import opened HandlebarsCodegen
  import opened HandlebarsSemantics
  import opened HandlebarsPreservation
  import opened HandlebarsTemplates
  import opened HandlebarsRendering
  import opened HandlebarsNumbers
  import opened HandlebarsRuns
  import opened HandlebarsCompiler
  import opened HandlebarsMain

  /** What counts as false, and what as missing. */
  lemma FalseValues(v: Value, n: int, s: string)
    ensures !IsTrue(Undefined) && !IsTrue(Null) && !IsTrue(Bool(false)) && !IsTrue(Num(0)) && !IsTrue(Str(""))
    ensures IsTrue(Bool(true)) && (n != 0 ==> IsTrue(Num(n))) && (s != "" ==> IsTrue(Str(s)))
    ensures v.Object? || v.Record? || v.List? || v.Template? || v.Noop? ==> IsTrue(v)
    ensures Nullish(Undefined) && Nullish(Null) && (Nullish(v) ==> v == Undefined || v == Null)
  {
  }

  /** Added to a number, true is 1 and false 0; to anything else its word is joined. */
  lemma BooleansAdd(n: int, s: string, text: Value -> string)
    requires Numerals(text)
    ensures Plus(Num(n), Bool(true), text) == Num(n + 1) && Plus(Num(n), Bool(false), text) == Num(n)
    ensures Plus(Str(s), Bool(true), text) == Str(s + "true") && Plus(Bool(false), Str(s), text) == Str("false" + s)
  {
  }

  // ----- names -----

  predicate IsName(p: Path, name: string) {
    p.parts == [name] && name != "" && p.original == name && p.depth == 0 && !p.scoped && !p.data
  }

  predicate Undeclared(name: string, scope: Scope) {
    forall i :: 0 <= i < |scope| && scope[i].Some? ==> name !in scope[i].value
  }

  /** List number i is the innermost that declares the name, and j its first place there. */
  predicate Innermost(name: string, scope: Scope, i: nat, j: nat) {
    && i < |scope| && scope[i].Some? && j < |scope[i].value| && scope[i].value[j] == name
    && name !in scope[i].value[..j]
    && forall k :: 0 <= k < i && scope[k].Some? ==> name !in scope[k].value
  }

  lemma InnermostFound(name: string, scope: Scope, i: nat, j: nat)
    requires Innermost(name, scope, i, j)
    ensures BlockParamIndex(name, scope) == Some((i, j))
  {
    hide BlockParamIndex;
    assert name in scope[i].value;
    var found := BlockParamIndex(name, scope).value;
    assert found.0 == i;
    var names := scope[i].value;
    assert forall m :: 0 <= m < j ==> names[..j][m] == names[m];
    assert forall m :: 0 <= m < found.1 ==> names[..found.1][m] == names[m];
  }

  lemma UndeclaredNotFound(name: string, scope: Scope)
    requires Undeclared(name, scope)
    ensures BlockParamIndex(name, scope).None?
  {
    hide BlockParamIndex;
  }

  // ----- what is read and called -----

  /** The context as `this`: an empty object when there is none. */
  function This(env: Env): Value {
    if |env.contexts| == 0 || Nullish(env.contexts[0]) then Record([]) else env.contexts[0]
  }

  function Context(env: Env): Value {
    if |env.contexts| == 0 then Undefined else env.contexts[0]
  }

  /** The property of the context, or null and undefined of a missing context. */
  function OwnValue<W>(name: string, at: Setting<W>, w: W): Value {
    if Nullish(Context(at.env)) then Context(at.env) else at.h.get(w, Context(at.env), name)
  }

  function Passed<W>(name: string, hash: Value, main: Option<nat>, inverse: Option<nat>, at: Setting<W>): Value {
    var programs := if main.None? && inverse.None? then []
                    else [("fn", if main.Some? then Template(main.value) else Noop),
                          ("inverse", if inverse.Some? then Template(inverse.value) else Noop)];
    Record([("name", Str(name)), ("hash", hash)] + programs + (if at.o.data then [("data", at.env.data)] else []))
  }

  function Result<W>(o: Outcome<W>): (m: Meaning<W>)
    ensures m.Means? ==> |m.vs| == 1
  {
    match o
    case Threw(w) => Fails(w)
    case Returned(v, w) => Means([v], w)
  }

  /** A value is itself, and a function is called on the context. */
  function Lambda<W>(v: Value, at: Setting<W>, w: W): (m: Meaning<W>)
    ensures m.Means? ==> |m.vs| == 1
  {
    if at.h.isFunction(v) then Result(at.h.call(w, v, Context(at.env), [])) else Means([v], w)
  }

  /** A value is itself, and a function is called with options alone. */
  function Applied<W>(name: string, v: Value, main: Option<nat>, inverse: Option<nat>, at: Setting<W>, w: W): (m: Meaning<W>)
    ensures m.Means? ==> |m.vs| == 1
  {
    if !at.h.isFunction(v) then Means([v], w)
    else if Nullish(v) then Fails(w)
    else Result(at.h.call(w, v, This(at.env), [Passed(name, Record([]), main, inverse, at)]))
  }

  /** The helper of that name if there is one, else the property of the context, else helperMissing. */
  function HelperOrValue<W>(name: string, main: Option<nat>, inverse: Option<nat>, at: Setting<W>, w: W): (m: Meaning<W>)
    ensures m.Means? ==> |m.vs| == 1
  {
    var own := at.h.get(w, at.env.helpers, name);
    var found := if IsTrue(own) then own else OwnValue(name, at, w);
    Applied(name, if Nullish(found) then at.h.get(w, at.env.helpers, "helperMissing") else found, main, inverse, at, w)
  }

  /** Parameters from left to right, then the hash, then the call of f. */
  function Call<W>(f: Value, name: string, c: Sexpr, main: Option<nat>, inverse: Option<nat>, at: Setting<W>, w: W): (m: Meaning<W>)
    ensures m.Means? ==> |m.vs| == 1
  {
    var params := ParamsMeaning(c.params, at, w);
    if params.Fails? then params
    else
      var hash := HashMeaning(c.hash, at, params.w);
      if hash.Fails? then hash
      else Result(at.h.call(hash.w, f, This(at.env), params.vs + [Passed(name, hash.vs[0], main, inverse, at)]))
  }

  lemma {:induction false} PassedIs<W(!new)>(name: string, hash: Value, main: Option<nat>, inverse: Option<nat>, at: Setting<W>)
    ensures OptionsValue(name, hash, main, inverse, at.o, at.env) == Passed(name, hash, main, inverse, at)
  {
  }

  // ----- the path of a name -----

  lemma {:induction false} NameValue<W(!new)>(p: Path, name: string, falsy: bool, at: Setting<W>, w: W)
    requires IsName(p, name) && Undeclared(name, at.scope) && !at.o.compat
    ensures falsy == false ==> PathValue(p, falsy, at, w) == OwnValue(name, at, w)
    ensures SimpleId(p)
  {
    UndeclaredNotFound(name, at.scope);
    var v := Context(at.env);
    assert [name][1..] == [];
    assert Walk(at.h, w, at.h.get(w, v, name), [], falsy) == at.h.get(w, v, name);
  }

  // ----- mustaches -----

  /**
   A bare name outside of all block parameters, when other helpers than the known ones may be there: a helper of that name is
   called, or shown when it is no function; without one the context is asked.
   */
  lemma {:induction false} BareName<W(!new)>(c: Sexpr, name: string, at: Setting<W>, w: W)
    requires IsName(c.path, name) && Undeclared(name, at.scope) && c.params == [] && c.hash.NoHash?
    requires name !in at.o.knownHelpers && !at.o.knownHelpersOnly && !at.o.compat && !Nullish(at.env.helpers)
    ensures MustacheMeaning(c, at, w) == HelperOrValue(name, None, None, at, w)
  {
    hide PathValue, OptionsValue, Passed, BlockParamIndex;
    UndeclaredNotFound(name, at.scope);
    NameValue(c.path, name, false, at, w);
    PassedIs(name, Record([]), None, None, at);
  }

  /** Said for the two common cases: a registered helper is called, and without one and without a function the context is shown. */
  lemma {:induction false} BareNameCases<W(!new)>(c: Sexpr, name: string, at: Setting<W>, w: W)
    requires IsName(c.path, name) && Undeclared(name, at.scope) && c.params == [] && c.hash.NoHash?
    requires name !in at.o.knownHelpers && !at.o.knownHelpersOnly && !at.o.compat && !Nullish(at.env.helpers)
    ensures var f := at.h.get(w, at.env.helpers, name);
            IsTrue(f) && at.h.isFunction(f) ==>
              MustacheMeaning(c, at, w) == Result(at.h.call(w, f, This(at.env), [Passed(name, Record([]), None, None, at)]))
    ensures var f, v := at.h.get(w, at.env.helpers, name), OwnValue(name, at, w);
            !IsTrue(f) && !Nullish(v) && !at.h.isFunction(v) ==> MustacheMeaning(c, at, w) == Means([v], w)
  {
    hide MustacheMeaning, Passed, OwnValue;
    BareName(c, name, at, w);
  }

  /** When only known helpers may be called, a bare name that is not known is the context's, and no helpers matter. */
  lemma {:induction false} KnownHelpersOnly<W(!new)>(c: Sexpr, name: string, at: Setting<W>, w: W, others: Value)
    requires IsName(c.path, name) && Undeclared(name, at.scope) && c.params == [] && c.hash.NoHash?
    requires name !in at.o.knownHelpers && at.o.knownHelpersOnly && !at.o.compat
    ensures MustacheMeaning(c, at, w) == Lambda(OwnValue(name, at, w), at, w)
    ensures MustacheMeaning(c, at.(env := at.env.(helpers := others)), w) == MustacheMeaning(c, at, w)
  {
    hide PathValue, BlockParamIndex;
    UndeclaredNotFound(name, at.scope);
    NameValue(c.path, name, false, at, w);
    NameValue(c.path, name, false, at.(env := at.env.(helpers := others)), w);
  }

  /** A path that is no bare name is looked up without arguments, and no helpers matter. */
  lemma {:induction false} PathsAreValues<W(!new)>(c: Sexpr, at: Setting<W>, w: W)
    requires |c.path.parts| != 1 || c.path.depth != 0 || c.path.scoped
    requires c.params == [] && c.hash.NoHash?
    ensures MustacheMeaning(c, at, w) == Lambda(PathValue(c.path, false, at, w), at, w)
  {
    hide PathValue, BlockParamIndex;
  }

  /** A known name is that helper, with or without arguments; a missing one throws. */
  lemma {:induction false} KnownName<W(!new)>(c: Sexpr, name: string, at: Setting<W>, w: W)
    requires IsName(c.path, name) && Undeclared(name, at.scope) && name in at.o.knownHelpers && !Nullish(at.env.helpers)
    ensures var f := at.h.get(w, at.env.helpers, name);
            MustacheMeaning(c, at, w) == if Nullish(f) then Fails(w) else Call(f, name, c, None, None, at, w)
  {
    hide ParamsMeaning, HashMeaning, OptionsValue, Passed, BlockParamIndex;
    UndeclaredNotFound(name, at.scope);
    CallIs(name, c, None, None, at, w);
  }

  lemma {:induction false} CallIs<W(!new)>(name: string, c: Sexpr, main: Option<nat>, inverse: Option<nat>, at: Setting<W>, w: W)
    ensures forall hash :: OptionsValue(name, hash, main, inverse, at.o, at.env) == Passed(name, hash, main, inverse, at)
  {
    forall hash ensures OptionsValue(name, hash, main, inverse, at.o, at.env) == Passed(name, hash, main, inverse, at) {
      PassedIs(name, hash, main, inverse, at);
    }
  }

  /** With parameters or a hash a name is a helper: the registered one if there is one. */
  lemma {:induction false} NameWithArguments<W(!new)>(c: Sexpr, name: string, at: Setting<W>, w: W)
    requires IsName(c.path, name) && Undeclared(name, at.scope) && (c.params != [] || c.hash.Pairs?)
    requires name !in at.o.knownHelpers && !Nullish(at.env.helpers) && IsTrue(at.h.get(w, at.env.helpers, name))
    ensures MustacheMeaning(c, at, w) == Call(at.h.get(w, at.env.helpers, name), name, c, None, None, at, w)
  {
    hide ParamsMeaning, HashMeaning, OptionsValue, Passed, BlockParamIndex, PathValue;
    UndeclaredNotFound(name, at.scope);
    CallIs(name, c, None, None, at, w);
  }

  /** Without one, and for a path, what the path finds is called, and without that helperMissing. */
  lemma {:induction false} PathWithArguments<W(!new)>(c: Sexpr, at: Setting<W>, w: W)
    requires c.params != [] || c.hash.Pairs?
    requires c.path.parts == [] || c.path.parts[0] !in at.o.knownHelpers
    requires !Nullish(at.env.helpers)
    requires |c.path.parts| != 1 || c.path.depth != 0 || c.path.scoped
             || (Undeclared(c.path.parts[0], at.scope) && !IsTrue(at.h.get(w, at.env.helpers, c.path.original)))
    ensures var found := PathValue(c.path, true, at, w);
            var f := if IsTrue(found) then found else at.h.get(w, at.env.helpers, "helperMissing");
            MustacheMeaning(c, at, w) == if Nullish(f) then Fails(w) else Call(f, c.path.original, c, None, None, at, w)
  {
    hide ParamsMeaning, HashMeaning, OptionsValue, Passed, BlockParamIndex, PathValue;
    if |c.path.parts| == 1 && Undeclared(c.path.parts[0], at.scope) {
      UndeclaredNotFound(c.path.parts[0], at.scope);
    }
    CallIs(c.path.original, c, None, None, at, w);
  }

  /** A declared name is the innermost parameter of that name, whatever helpers there are and whatever arguments it is given. */
  lemma {:induction false} DeclaredName<W(!new)>(c: Sexpr, name: string, i: nat, j: nat, at: Setting<W>, w: W)
    requires IsName(c.path, name) && Innermost(name, at.scope, i, j)
    requires i < |at.env.blockParams| && j < |at.env.blockParams[i]|
    ensures MustacheMeaning(c, at, w) == Lambda(at.env.blockParams[i][j], at, w)
  {
    hide BlockParamIndex;
    InnermostFound(name, at.scope, i, j);
    assert [name][1..] == [];
    assert Walk(at.h, w, at.env.blockParams[i][j], [], false) == at.env.blockParams[i][j];
  }

  /** A path that starts with a declared name walks from the innermost parameter. */
  lemma {:induction false} DeclaredPath<W(!new)>(p: Path, i: nat, j: nat, falsy: bool, at: Setting<W>, w: W)
    requires p.parts != [] && p.depth == 0 && !p.scoped && Innermost(p.parts[0], at.scope, i, j)
    requires i < |at.env.blockParams| && j < |at.env.blockParams[i]|
    ensures PathValue(p, falsy, at, w) == Walk(at.h, w, at.env.blockParams[i][j], p.parts[1..], false)
  {
    hide BlockParamIndex, Walk;
    InnermostFound(p.parts[0], at.scope, i, j);
  }

  // ----- sub-expressions -----

  /** A sub-expression is always a helper call: of a registered helper of that name if there is one. */
  lemma {:induction false} SubExpression<W(!new)>(c: Sexpr, name: string, at: Setting<W>, w: W)
    requires IsName(c.path, name) && Undeclared(name, at.scope) && !Nullish(at.env.helpers)
    requires IsTrue(at.h.get(w, at.env.helpers, name))
    ensures ExprMeaning(SubExpr(c), at, w) == Call(at.h.get(w, at.env.helpers, name), name, c, None, None, at, w)
  {
    hide ParamsMeaning, HashMeaning, OptionsValue, Passed, BlockParamIndex, PathValue;
    UndeclaredNotFound(name, at.scope);
    CallIs(name, c, None, None, at, w);
  }

  /** But for a declared name, which is the innermost parameter. */
  lemma {:induction false} DeclaredSubExpression<W(!new)>(c: Sexpr, name: string, i: nat, j: nat, at: Setting<W>, w: W)
    requires IsName(c.path, name) && Innermost(name, at.scope, i, j)
    requires i < |at.env.blockParams| && j < |at.env.blockParams[i]|
    ensures ExprMeaning(SubExpr(c), at, w) == Lambda(at.env.blockParams[i][j], at, w)
  {
    hide BlockParamIndex, PathValue;
    InnermostFound(name, at.scope, i, j);
    DeclaredPath(c.path, i, j, false, at, w);
    assert Walk(at.h, w, at.env.blockParams[i][j], [], false) == at.env.blockParams[i][j];
  }

  lemma {:induction false} LiteralsMean<W(!new)>(text: string, number: int, truth: bool, at: Setting<W>, w: W)
    ensures ExprMeaning(StringLit(text), at, w) == Means([Str(text)], w)
    ensures ExprMeaning(NumberLit(number), at, w) == Means([Num(number)], w)
    ensures ExprMeaning(BooleanLit(truth), at, w) == Means([Bool(truth)], w)
    ensures ExprMeaning(NullLit, at, w) == Means([Null], w) && ExprMeaning(UndefinedLit, at, w) == Means([Undefined], w)
  {
  }

  // ----- partials -----

  /** The options of a partial: its name, its block if it has one, data, its indentation, and everything it may need itself. */
  function PartialPassed<W>(name: string, main: Option<nat>, indent: string, at: Setting<W>): Value {
    Record([("name", Str(name))]
           + (if main.Some? then [("fn", Template(main.value)), ("inverse", Noop)] else [])
           + (if at.o.data then [("data", at.env.data)] else [])
           + (if indent == "" || at.o.preventIndent then [] else [("indent", Str(indent))])
           + [("helpers", at.env.helpers), ("partials", at.env.partials), ("decorators", at.env.decorators)]
           + (if at.o.compat then [("depths", List(at.env.contexts))] else []))
  }

  /** A partial by name, without context and hash, is invoked with the current context, or with undefined if contexts are explicit. */
  lemma {:induction false} NamedPartial<W(!new)>(name: string, indent: string, n: nat, fallback: Option<Program>, at: Setting<W>, w: W)
    requires !Nullish(at.env.partials)
    ensures PartialMeaning(Partial(StaticName(name), [], NoHash, indent, fallback), n, at, w)
         == Result(at.h.partial(w, [at.h.get(w, at.env.partials, name),
                                    if at.o.explicitPartialContext then Undefined else Context(at.env),
                                    PartialPassed(name, if fallback.Some? then Some(n) else None, indent, at)]))
  {
    PartialOptionsAre(name, indent, n, fallback, at);
    var target, context := at.h.get(w, at.env.partials, name), if at.o.explicitPartialContext then Undefined else Context(at.env);
    assert PartialTarget(StaticName(name), at, w) == Means([target], w);
  }

  lemma {:induction false} PartialOptionsAre<W(!new)>(name: string, indent: string, n: nat, fallback: Option<Program>, at: Setting<W>)
    ensures PartialOptions(Partial(StaticName(name), [], NoHash, indent, fallback), n, Record([]), at.o, at.env)
         == PartialPassed(name, if fallback.Some? then Some(n) else None, indent, at)
  {
    var main: Option<nat> := if fallback.Some? then Some(n) else None;
    assert [("name", Str(name))] + [] == [("name", Str(name))];
    assert TailPairs(main, None, at.o, at.env)
        == (if main.Some? then [("fn", Template(main.value)), ("inverse", Noop)] else []) + (if at.o.data then [("data", at.env.data)] else []);
  }

  /** With a context that is what is passed, and a hash becomes an option behind the name. */
  lemma {:induction false} PartialWithContext<W(!new)>(name: string, context: Expr, n: nat, at: Setting<W>, w: W)
    requires !Nullish(at.env.partials)
    ensures var m := ExprMeaning(context, at, w);
            PartialMeaning(Partial(StaticName(name), [context], NoHash, "", None), n, at, w)
            == if m.Fails? then m
               else Result(at.h.partial(m.w, [at.h.get(w, at.env.partials, name), m.vs[0], PartialPassed(name, None, "", at)]))
  {
    hide ExprMeaning;
    var s := Partial(StaticName(name), [context], NoHash, "", None);
    PartialOptionsAre(name, "", n, None, at);
    assert forall hash :: PartialOptions(s, n, hash, at.o, at.env) == PartialOptions(Partial(StaticName(name), [], NoHash, "", None), n, hash, at.o, at.env);
  }

  // ----- blocks -----

  /** What a block renders: a missing result is nothing. */
  function Added<W>(chunks: seq<Value>, m: Meaning<W>): Rendering<W>
    requires m.Means? ==> |m.vs| == 1
  {
    match m
    case Fails(w) => Broken(w)
    case Means(vs, w) => Rendered(AddChunk(chunks, if Nullish(vs[0]) then Str("") else vs[0]), w)
  }

  /** blockHelperMissing decides what a value that is no helper means for a block. */
  function HandedOver<W>(name: string, value: Meaning<W>, main: Option<nat>, inverse: Option<nat>, at: Setting<W>, w: W): (m: Meaning<W>)
    requires value.Means? ==> |value.vs| == 1
    ensures m.Means? ==> |m.vs| == 1
  {
    if value.Fails? then value
    else
      var f := at.h.get(w, at.env.helpers, "blockHelperMissing");
      if Nullish(f) then Fails(w)
      else Result(at.h.call(value.w, f, Context(at.env), [value.vs[0], Passed(name, Record([]), main, inverse, at)]))
  }

  /** A block with arguments, or with a known name, is a call of the helper with the two programs. */
  lemma {:induction false} BlockCall<W(!new)>(c: Sexpr, name: string, main: Option<nat>, inverse: Option<nat>, chunks: seq<Value>, at: Setting<W>,
                                              isSimple: bool, w: W)
    requires IsName(c.path, name) && Undeclared(name, at.scope) && !Nullish(at.env.helpers)
    requires c.params != [] || c.hash.Pairs? || name in at.o.knownHelpers
    requires IsTrue(at.h.get(w, at.env.helpers, name))
    ensures var m := Call(at.h.get(w, at.env.helpers, name), name, c, main, inverse, at, w);
            RenderBlock(c, main, inverse, chunks, at, isSimple, w) == Added(chunks, m)
  {
    hide ParamsMeaning, HashMeaning, OptionsValue, Passed, BlockParamIndex, PathValue, AddChunk;
    UndeclaredNotFound(name, at.scope);
    CallIs(name, c, main, inverse, at, w);
  }

  /** A bare block whose name is a registered helper is what that gives. */
  lemma {:induction false} BareBlockHelper<W(!new)>(c: Sexpr, name: string, main: Option<nat>, inverse: Option<nat>, chunks: seq<Value>, at: Setting<W>,
                                                    isSimple: bool, w: W)
    requires IsName(c.path, name) && Undeclared(name, at.scope) && c.params == [] && c.hash.NoHash?
    requires name !in at.o.knownHelpers && !at.o.knownHelpersOnly && !Nullish(at.env.helpers)
    requires var f := at.h.get(w, at.env.helpers, name); IsTrue(f) && at.h.isFunction(f)
    ensures var o := at.h.call(w, at.h.get(w, at.env.helpers, name), This(at.env), [Passed(name, Record([]), main, inverse, at)]);
            o.Returned? && IsTrue(at.h.get(o.w, at.env.helpers, name)) ==>
              RenderBlock(c, main, inverse, chunks, at, isSimple, w)
              == if Nullish(o.value) && !isSimple then Rendered(chunks, o.w) else Added(chunks, Means([o.value], o.w))
    ensures var o := at.h.call(w, at.h.get(w, at.env.helpers, name), This(at.env), [Passed(name, Record([]), main, inverse, at)]);
            o.Threw? ==> RenderBlock(c, main, inverse, chunks, at, isSimple, w) == Broken(o.w)
  {
    hide OptionsValue, Passed, BlockParamIndex, PathValue, AddChunk, BlockMissing;
    UndeclaredNotFound(name, at.scope);
    PassedIs(name, Record([]), main, inverse, at);
  }

  /** A bare block whose name is no helper hands the context's value to blockHelperMissing. */
  lemma {:induction false} BareBlockValue<W(!new)>(c: Sexpr, name: string, main: Option<nat>, inverse: Option<nat>, chunks: seq<Value>, at: Setting<W>,
                                                   isSimple: bool, w: W)
    requires IsName(c.path, name) && Undeclared(name, at.scope) && c.params == [] && c.hash.NoHash?
    requires name !in at.o.knownHelpers && !at.o.knownHelpersOnly && !at.o.compat && !Nullish(at.env.helpers)
    requires var v := OwnValue(name, at, w); !IsTrue(at.h.get(w, at.env.helpers, name)) && !Nullish(v) && !at.h.isFunction(v)
    ensures var m := HandedOver(name, Means([OwnValue(name, at, w)], w), main, inverse, at, w);
            RenderBlock(c, main, inverse, chunks, at, isSimple, w)
            == if m.Means? && Nullish(m.vs[0]) && !isSimple then Rendered(chunks, m.w) else Added(chunks, m)
  {
    hide OptionsValue, Passed, BlockParamIndex, PathValue, AddChunk;
    UndeclaredNotFound(name, at.scope);
    NameValue(c.path, name, false, at, w);
    PassedIs(name, Record([]), main, inverse, at);
  }

  /** A declared name as a block hands the innermost parameter to blockHelperMissing. */
  lemma {:induction false} DeclaredBlock<W(!new)>(c: Sexpr, name: string, i: nat, j: nat, main: Option<nat>, inverse: Option<nat>, chunks: seq<Value>,
                                                  at: Setting<W>, isSimple: bool, w: W)
    requires IsName(c.path, name) && Innermost(name, at.scope, i, j) && !Nullish(at.env.helpers)
    requires i < |at.env.blockParams| && j < |at.env.blockParams[i]| && !at.h.isFunction(at.env.blockParams[i][j])
    ensures RenderBlock(c, main, inverse, chunks, at, isSimple, w)
         == Added(chunks, HandedOver(name, Means([at.env.blockParams[i][j]], w), main, inverse, at, w))
  {
    hide OptionsValue, Passed, BlockParamIndex, PathValue, AddChunk;
    InnermostFound(name, at.scope, i, j);
    DeclaredPath(c.path, i, j, false, at, w);
    assert Walk(at.h, w, at.env.blockParams[i][j], [], false) == at.env.blockParams[i][j];
    PassedIs(name, Record([]), main, inverse, at);
  }

  /** When only known helpers may be called, a bare block hands the context's value over, and no helper of its name is asked for. */
  lemma {:induction false} KnownHelpersOnlyBlock<W(!new)>(c: Sexpr, name: string, main: Option<nat>, inverse: Option<nat>, chunks: seq<Value>,
                                                          at: Setting<W>, isSimple: bool, w: W)
    requires IsName(c.path, name) && Undeclared(name, at.scope) && c.params == [] && c.hash.NoHash?
    requires name !in at.o.knownHelpers && at.o.knownHelpersOnly && !at.o.compat && !Nullish(at.env.helpers)
    requires !at.h.isFunction(OwnValue(name, at, w))
    ensures RenderBlock(c, main, inverse, chunks, at, isSimple, w)
         == Added(chunks, HandedOver(name, Means([OwnValue(name, at, w)], w), main, inverse, at, w))
  {
    hide OptionsValue, Passed, BlockParamIndex, PathValue, AddChunk;
    UndeclaredNotFound(name, at.scope);
    NameValue(c.path, name, false, at, w);
    PassedIs(name, Record([]), main, inverse, at);
  }

  // ----- whole templates, compiled and run -----

  /** What the compiled function of a template that is one mustache returns. */
  ghost predicate Shows<W(!new)>(c: Sexpr, escaped: bool, m: Meaning<W>, cfg: Config, at: Setting<W>, text: Value -> string, s: Store, w: W)
    requires m.Means? ==> |m.vs| == 1
  {
    var compiled := Compile(BodyOps([Mustache(c, escaped)], 0, at.o, at.scope), cfg);
    compiled.Success? &&
    var r := RunTemplate(compiled.value, true, at.h, text, at.env, s, w);
    match m
    case Fails(w1) => r == Threw(w1)
    case Means(vs, w1) =>
      r.Returned? && r.w == w1
      && Text(r.value, text) == if escaped && !at.o.noEscape then at.h.escape(vs[0]) else if Nullish(vs[0]) then "" else Text(vs[0], text)
  }

  ghost predicate OneMustache<W>(c: Sexpr, escaped: bool, cfg: Config, at: Setting<W>) {
    Enabled(cfg, at) && cfg.isSimple && DepthsDeclared(BodyOps([Mustache(c, escaped)], 0, at.o, at.scope), cfg)
  }

  lemma {:induction false} MustacheShows<W(!new)>(c: Sexpr, escaped: bool, cfg: Config, at: Setting<W>, text: Value -> string, s: Store, w: W)
    requires OneMustache(c, escaped, cfg, at)
    ensures Shows(c, escaped, MustacheMeaning(c, at, w), cfg, at, text, s, w)
  {
    hide Compile, BodyOps, RunTemplate, MustacheMeaning, Numerals;
    var p := Mustache(c, escaped);
    var m := MustacheMeaning(c, at, w);
    TemplateRenders([p], cfg, at, text, s, w);
    OneRendered(p, at, cfg.isSimple, w);
    if m.Means? {
      var v := if escaped && !at.o.noEscape then Str(at.h.escape(m.vs[0])) else Shown(m.vs[0]);
      assert AddChunk([], v) == [v];
      TextOne(v, text);
    }
  }

  lemma {:induction false} OneRendered<W(!new)>(p: Statement, at: Setting<W>, isSimple: bool, w: W)
    ensures RenderBody([p], 0, [], at, isSimple, w) == RenderStatement(p, 0, [], at, isSimple, w)
  {
    hide RenderStatement;
    assert [p][1..] == [];
    var r := RenderStatement(p, 0, [], at, isSimple, w);
    assert r.Rendered? ==> RenderBody([], |Nested(p)|, r.chunks, at, isSimple, r.w) == Rendered(r.chunks, r.w);
  }

  /** `{{name}}` run: the helper registered under the name, else the context's value, else helperMissing. */
  lemma {:induction false} BareNameRuns<W(!new)>(c: Sexpr, name: string, escaped: bool, cfg: Config, at: Setting<W>, text: Value -> string, s: Store, w: W)
    requires OneMustache(c, escaped, cfg, at)
    requires IsName(c.path, name) && Undeclared(name, at.scope) && c.params == [] && c.hash.NoHash?
    requires name !in at.o.knownHelpers && !at.o.knownHelpersOnly && !at.o.compat && !Nullish(at.env.helpers)
    ensures Shows(c, escaped, HelperOrValue(name, None, None, at, w), cfg, at, text, s, w)
  {
    hide Shows, OneMustache, MustacheMeaning, HelperOrValue;
    BareName(c, name, at, w);
    MustacheShows(c, escaped, cfg, at, text, s, w);
  }

  /** With knownHelpersOnly `{{name}}` run is the context's value. */
  lemma {:induction false} KnownHelpersOnlyRuns<W(!new)>(c: Sexpr, name: string, escaped: bool, cfg: Config, at: Setting<W>, text: Value -> string, s: Store, w: W)
    requires OneMustache(c, escaped, cfg, at)
    requires IsName(c.path, name) && Undeclared(name, at.scope) && c.params == [] && c.hash.NoHash?
    requires name !in at.o.knownHelpers && at.o.knownHelpersOnly && !at.o.compat
    ensures Shows(c, escaped, Lambda(OwnValue(name, at, w), at, w), cfg, at, text, s, w)
  {
    hide Shows, OneMustache, MustacheMeaning, OwnValue, Lambda;
    KnownHelpersOnly(c, name, at, w, Undefined);
    MustacheShows(c, escaped, cfg, at, text, s, w);
  }

  /** `{{name argument ...}}` run, and `{{name}}` for a known name, is a call of the registered helper. */
  lemma {:induction false} HelperCallRuns<W(!new)>(c: Sexpr, name: string, escaped: bool, cfg: Config, at: Setting<W>, text: Value -> string, s: Store, w: W)
    requires OneMustache(c, escaped, cfg, at)
    requires IsName(c.path, name) && Undeclared(name, at.scope) && (c.params != [] || c.hash.Pairs? || name in at.o.knownHelpers)
    requires !Nullish(at.env.helpers) && IsTrue(at.h.get(w, at.env.helpers, name))
    ensures var m := Call(at.h.get(w, at.env.helpers, name), name, c, None, None, at, w);
            Shows(c, escaped, m, cfg, at, text, s, w)
  {
    hide Shows, OneMustache, MustacheMeaning, Call;
    if name in at.o.knownHelpers {
      KnownName(c, name, at, w);
    } else {
      NameWithArguments(c, name, at, w);
    }
    MustacheShows(c, escaped, cfg, at, text, s, w);
  }

  /** `{{name}}` run inside of a block that declares the name is the innermost such parameter. */
  lemma {:induction false} DeclaredNameRuns<W(!new)>(c: Sexpr, name: string, i: nat, j: nat, escaped: bool, cfg: Config, at: Setting<W>,
                                                     text: Value -> string, s: Store, w: W)
    requires OneMustache(c, escaped, cfg, at)
    requires IsName(c.path, name) && Innermost(name, at.scope, i, j)
    requires i < |at.env.blockParams| && j < |at.env.blockParams[i]|
    ensures Shows(c, escaped, Lambda(at.env.blockParams[i][j], at, w), cfg, at, text, s, w)
  {
    hide Shows, OneMustache, MustacheMeaning, Lambda;
    DeclaredName(c, name, i, j, at, w);
    MustacheShows(c, escaped, cfg, at, text, s, w);
  }

  // ----- parent contexts and data frames -----

  /** In compat mode a name is taken from the innermost context that has it. */
  lemma {:induction false} DepthedLookupIsFirst<W(!new)>(h: Host<W>, w: W, contexts: seq<Value>, name: string)
    ensures forall i: nat :: i < |contexts| && Has(h, w, contexts[i], name) && (forall k :: 0 <= k < i ==> !Has(h, w, contexts[k], name)) ==>
              DepthedLookup(h, w, contexts, name) == h.get(w, contexts[i], name)
    ensures (forall k :: 0 <= k < |contexts| ==> !Has(h, w, contexts[k], name)) ==> DepthedLookup(h, w, contexts, name) == Undefined
    decreases contexts
  {
    if contexts != [] {
      var rest := contexts[1..];
      DepthedLookupIsFirst(h, w, rest, name);
      assert contexts == [contexts[0]] + rest;
      forall i: nat | i < |contexts| && Has(h, w, contexts[i], name) && (forall k :: 0 <= k < i ==> !Has(h, w, contexts[k], name))
        ensures DepthedLookup(h, w, contexts, name) == h.get(w, contexts[i], name)
      {
        if i > 0 {
          assert Has(h, w, rest[i - 1], name);
          assert !Has(h, w, contexts[0], name);
          assert forall k :: 0 <= k < i - 1 ==> rest[k] == contexts[k + 1];
        }
      }
      assert forall k :: 0 <= k < |rest| ==> rest[k] == contexts[k + 1];
    }
  }

  predicate Has<W>(h: Host<W>, w: W, context: Value, name: string) {
    IsTrue(context) && !Nullish(h.get(w, context, name))
  }

  /** Data some frames up is reached by as many parents, as long as there are any. */
  lemma {:induction false} DataFrames<W(!new)>(h: Host<W>, w: W, frames: seq<Value>, up: nat)
    requires up < |frames| && forall k :: 0 <= k < up ==> IsTrue(frames[k]) && frames[k + 1] == h.get(w, frames[k], "_parent")
    ensures DataUp(h, w, frames[0], up) == frames[up]
    decreases up
  {
    if up > 0 {
      DataFrames(h, w, frames[1..], up - 1);
    }
  }

  // ----- what the compiler refuses -----

  /** With knownHelpersOnly a call of another helper is refused. */
  lemma {:induction false} UnknownHelperRefused(c: Sexpr, name: string, escaped: bool, o: Options, scope: Scope)
    requires IsName(c.path, name) && Undeclared(name, scope) && (c.params != [] || c.hash.Pairs?)
    requires o.knownHelpersOnly && name !in o.knownHelpers
    ensures !StatementAllowed(Mustache(c, escaped), o, scope)
  {
    hide BlockParamIndex, ParamsAllowed, HashAllowed;
    UndeclaredNotFound(name, scope);
    assert !HelperAllowed(c, o, scope);
    assert !CallAllowed(c, true, o, scope);
  }

  /** Without it every call is accepted, however deep. */
  lemma {:induction false} CallsAccepted(c: Sexpr, isHelper: bool, o: Options, scope: Scope)
    requires !o.knownHelpersOnly
    ensures CallAllowed(c, isHelper, o, scope) && HelperAllowed(c, o, scope)
    decreases c, 1
  {
    hide Classify;
    ParamsAccepted(c.params, o, scope);
    if c.hash.Pairs? {
      PairsAccepted(c.hash.pairs, o, scope);
    }
    assert HelperAllowed(c, o, scope);
  }

  lemma {:induction false} ExprAccepted(e: Expr, o: Options, scope: Scope)
    requires !o.knownHelpersOnly
    ensures ExprAllowed(e, o, scope)
    decreases e, 0
  {
    if e.SubExpr? {
      CallsAccepted(e.call, true, o, scope);
    }
  }

  lemma {:induction false} ParamsAccepted(params: seq<Expr>, o: Options, scope: Scope)
    requires !o.knownHelpersOnly
    ensures ParamsAllowed(params, o, scope)
    decreases params, 0
  {
    hide ExprAllowed;
    if params != [] {
      ExprAccepted(params[0], o, scope);
      ParamsAccepted(params[1..], o, scope);
    }
  }

  lemma {:induction false} PairsAccepted(pairs: seq<HashPair>, o: Options, scope: Scope)
    requires !o.knownHelpersOnly
    ensures PairsAllowed(pairs, o, scope)
    decreases pairs, 0
  {
    hide ExprAllowed;
    if pairs != [] {
      ExprAccepted(pairs[0].value, o, scope);
      PairsAccepted(pairs[1..], o, scope);
    }
  }

  /** The only other thing refused is a partial with more than one parameter. */
  predicate PartialsShort(body: seq<Statement>)
    decreases body
  {
    body == [] || (StatementShort(body[0]) && PartialsShort(body[1..]))
  }

  predicate StatementShort(s: Statement)
    decreases s
  {
    match s
    case Block(_, bodies) =>
      (bodies.Inverse? || PartialsShort(bodies.program.body)) && (bodies.Main? || PartialsShort(bodies.inverse.body))
    case Partial(_, params, _, _, fallback) => |params| <= 1 && (fallback.Some? ==> PartialsShort(fallback.value.body))
    case Decorator(_, body) => body.Some? ==> PartialsShort(body.value.body)
    case _ => true
  }

  lemma {:induction false} AcceptedIff(p: Program, o: Options, scope: Scope)
    requires !o.knownHelpersOnly
    ensures Allowed(p, o, scope) <==> PartialsShort(p.body)
    decreases p, 1
  {
    hide BodyAllowed, PartialsShort;
    BodyAcceptedIff(p.body, o, Inner(p, scope));
  }

  lemma {:induction false} BodyAcceptedIff(body: seq<Statement>, o: Options, scope: Scope)
    requires !o.knownHelpersOnly
    ensures BodyAllowed(body, o, scope) <==> PartialsShort(body)
    decreases body, 1
  {
    hide StatementAllowed, StatementShort;
    if body != [] {
      StatementAcceptedIff(body[0], o, scope);
      BodyAcceptedIff(body[1..], o, scope);
    }
  }

  lemma {:induction false} StatementAcceptedIff(s: Statement, o: Options, scope: Scope)
    requires !o.knownHelpersOnly
    ensures StatementAllowed(s, o, scope) <==> StatementShort(s)
    decreases s, 1
  {
    hide CallAllowed, ParamsAllowed, HelperAllowed, PairsAllowed, PartialsShort;
    match s
    case Mustache(c, _) => CallsAccepted(c, HasArguments(c), o, scope);
    case Block(c, bodies) =>
      CallsAccepted(c, HasArguments(c), o, scope);
      if bodies.Main? || bodies.Both? {
        AcceptedIff(bodies.program, o, scope);
      }
      if bodies.Inverse? || bodies.Both? {
        AcceptedIff(bodies.inverse, o, scope);
      }
    case Partial(name, params, hash, _, fallback) =>
      if name.DynamicName? {
        CallsAccepted(name.call, true, o, scope);
      }
      ParamsAccepted(params, o, scope);
      if hash.Pairs? {
        PairsAccepted(hash.pairs, o, scope);
      }
      if fallback.Some? {
        AcceptedIff(fallback.value, o, scope);
      }
    case Decorator(c, body) =>
      ParamsAccepted(c.params, o, scope);
      if c.hash.Pairs? {
        PairsAccepted(c.hash.pairs, o, scope);
      }
      if body.Some? {
        AcceptedIff(body.value, o, scope);
      }
    case _ =>
  }
}
