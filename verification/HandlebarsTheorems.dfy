/** Which programs compile: the stack checks of the compiler, decided from the tree and the options. */
module HandlebarsTheorems {
  import opened Wrappers
  import opened HandlebarsAst
  import opened HandlebarsOpcodes
  import opened HandlebarsMachine
  import opened HandlebarsCodegen
  import opened HandlebarsBalance
  import opened HandlebarsRefinement

  /** How many entries short each parameter and each hash pair is. */
  function Short(o: Options): nat {
    if BothSideModes(o) then 1 else 0
  }

  lemma {:induction false} NetConcat(a: seq<Op>, b: seq<Op>, o: Options)
    ensures NetOf(a + b, o) == NetOf(a, o) + NetOf(b, o)
  {
    if a == [] {
      assert a + b == b;
    } else {
      assert (a + b)[0] == a[0] && (a + b)[1..] == a[1..] + b;
      NetConcat(a[1..], b, o);
    }
  }

  lemma {:induction false} NetNone(o: Options)
    ensures NetOf([], o) == 0
  {
  }

  lemma {:induction false} NetOne(op: Op, o: Options)
    ensures NetOf([op], o) == Net(op, o)
  {
    assert NetOf([], o) == 0;
    assert [op][1..] == [];
  }

  lemma {:induction false} PathNet(p: Path, falsy: bool, strict: bool, scope: Scope, o: Options)
    ensures NetOf(PathOps(p, falsy, strict, scope), o) == 1
  {
    var op := PathOps(p, falsy, strict, scope)[1];
    assert PathOps(p, falsy, strict, scope) == [GetContext(p.depth)] + [op];
    NetConcat([GetContext(p.depth)], [op], o);
    NetOne(GetContext(p.depth), o);
    NetOne(op, o);
  }

  lemma {:induction false} ExprNet(e: Expr, o: Options, scope: Scope)
    ensures NetOf(ExprOps(e, o, scope), o) <= 1
    decreases e, 0
  {
    match e
    case PathExpr(p) => PathNet(p, false, false, scope, o);
    case SubExpr(c) => CallNet(c, true, o, scope);
    case _ => NetOne(PushLiteral(e), o);
  }

  lemma {:induction false} ParamNet(e: Expr, o: Options, scope: Scope)
    ensures NetOf(ParamOps(e, o, scope), o) <= Width(o) - Short(o)
    decreases e, 1
  {
    ExprNet(e, o, scope);
    if o.stringParams {
      var context, describe := GetContext(DepthOf(e)), PushStringParam(e, TypeName(e));
      NetOne(context, o);
      NetOne(describe, o);
      NetConcat([context], [describe], o);
      assert [context] + [describe] == [context, describe];
      NetConcat([context, describe], if e.SubExpr? then ExprOps(e, o, scope) else [], o);
    } else if o.trackIds {
      NetOne(PushId(e), o);
      NetConcat([PushId(e)], ExprOps(e, o, scope), o);
    }
  }

  lemma OneMore(n: nat, w: int)
    ensures (n + 1) * w == w + n * w
  {
  }

  lemma {:induction false} ParamsNet(params: seq<Expr>, o: Options, scope: Scope)
    ensures NetOf(ParamsOps(params, o, scope), o) <= |params| * (Width(o) - Short(o))
    decreases params, 0
  {
    hide ParamOps;
    if params != [] {
      ParamNet(params[0], o, scope);
      ParamsNet(params[1..], o, scope);
      NetConcat(ParamOps(params[0], o, scope), ParamsOps(params[1..], o, scope), o);
      OneMore(|params[1..]|, Width(o) - Short(o));
    }
  }

  lemma {:induction false} PairsNet(pairs: seq<HashPair>, o: Options, scope: Scope)
    ensures NetOf(PairsOps(pairs, o, scope), o) <= |pairs| * (Width(o) - Short(o))
    decreases pairs, 0
  {
    hide ParamOps;
    if pairs != [] {
      ParamNet(pairs[0].value, o, scope);
      PairsNet(pairs[1..], o, scope);
      NetConcat(ParamOps(pairs[0].value, o, scope), PairsOps(pairs[1..], o, scope), o);
      OneMore(|pairs[1..]|, Width(o) - Short(o));
    }
  }

  lemma {:induction false} AssignNet(pairs: seq<HashPair>, o: Options)
    ensures NetOf(AssignOps(pairs), o) == -(|pairs| * Width(o))
    decreases pairs
  {
    if pairs != [] {
      AssignNet(pairs[1..], o);
      NetOne(AssignToHash(pairs[0].key), o);
      NetConcat(AssignOps(pairs[1..]), [AssignToHash(pairs[0].key)], o);
      assert |pairs| * Width(o) == Width(o) + |pairs[1..]| * Width(o);
    }
  }

  lemma {:induction false} HashNet(hash: Hash, omit: bool, o: Options, scope: Scope)
    ensures NetOf(HashOps(hash, omit, o, scope), o) <= Width(o) - PairCount(hash) * Short(o)
    decreases hash, 0
  {
    hide NetOf, PairsOps, AssignOps;
    match hash
    case NoHash => NetOne(EmptyHash(omit), o);
    case Pairs(pairs) =>
      var inner := [PushHash] + PairsOps(pairs, o, scope);
      PairsNet(pairs, o, scope);
      AssignNet(pairs, o);
      NetOne(PushHash, o);
      NetOne(PopHash, o);
      NetConcat([PushHash], PairsOps(pairs, o, scope), o);
      NetConcat(inner, AssignOps(pairs), o);
      NetConcat(inner + AssignOps(pairs), [PopHash], o);
      assert |pairs| * (Width(o) - Short(o)) == |pairs| * Width(o) - |pairs| * Short(o);
  }

  lemma {:induction false} SetupNet(c: Sexpr, main: Option<nat>, inverse: Option<nat>, omit: bool, o: Options, scope: Scope)
    ensures NetOf(SetupOps(c, main, inverse, omit, o, scope), o)
         <= |c.params| * (Width(o) - Short(o)) + 2 + Width(o) - PairCount(c.hash) * Short(o)
    decreases c, 0
  {
    hide NetOf, ParamsOps, HashOps, Width, Short;
    var programs := [PushProgram(main), PushProgram(inverse)];
    assert programs == [PushProgram(main)] + [PushProgram(inverse)];
    ParamsNet(c.params, o, scope);
    HashNet(c.hash, omit, o, scope);
    NetOne(PushProgram(main), o);
    NetOne(PushProgram(inverse), o);
    NetConcat([PushProgram(main)], [PushProgram(inverse)], o);
    NetConcat(ParamsOps(c.params, o, scope), programs, o);
    NetConcat(ParamsOps(c.params, o, scope) + programs, HashOps(c.hash, omit, o, scope), o);
  }

  lemma {:induction false} InvokeNet(c: Sexpr, o: Options, scope: Scope)
    ensures NetOf(InvokeOps(c, o, scope), o) == -1 - Width(o) - |c.params| * Width(o)
  {
    if IsKnown(c.path, o) {
      NetOne(InvokeKnownHelper(|c.params|, c.path.parts[0]), o);
    } else {
      var invoke := InvokeHelper(|c.params|, c.path.original, SimpleId(c.path));
      PathNet(c.path, true, true, scope, o);
      NetOne(invoke, o);
      NetConcat(PathOps(c.path, true, true, scope), [invoke], o);
    }
  }

  lemma {:induction false} HelperNet(c: Sexpr, main: Option<nat>, inverse: Option<nat>, o: Options, scope: Scope)
    ensures NetOf(HelperOps(c, main, inverse, o, scope), o) <= if Overdrawn(c, o) then 0 else 1
    decreases c, 1
  {
    SetupNet(c, main, inverse, false, o, scope);
    InvokeNet(c, o, scope);
    NetConcat(SetupOps(c, main, inverse, false, o, scope), InvokeOps(c, o, scope), o);
    assert |c.params| * (Width(o) - Short(o)) == |c.params| * Width(o) - |c.params| * Short(o);
  }

  lemma {:induction false} AmbiguousNet(c: Sexpr, main: Option<nat>, inverse: Option<nat>, o: Options, scope: Scope)
    requires c.path.parts != []
    ensures NetOf(AmbiguousOps(c, main, inverse, scope), o) == 1
  {
    var path, invoke := PathOps(c.path, false, true, scope), InvokeAmbiguous(c.path.parts[0], main.Some? || inverse.Some?);
    var a, b, d := GetContext(c.path.depth), PushProgram(main), PushProgram(inverse);
    assert [a, b, d] == [a] + [b] + [d];
    NetOne(a, o);
    NetOne(b, o);
    NetOne(d, o);
    NetOne(invoke, o);
    NetConcat([a], [b], o);
    NetConcat([a] + [b], [d], o);
    PathNet(c.path, false, true, scope, o);
    NetConcat([a, b, d], path, o);
    NetConcat([a, b, d] + path, [invoke], o);
  }

  lemma {:induction false} SimpleNet(c: Sexpr, o: Options, scope: Scope)
    ensures NetOf(SimpleOps(c, scope), o) == 1
  {
    PathNet(c.path, false, true, scope, o);
    NetOne(ResolvePossibleLambda, o);
    NetConcat(PathOps(c.path, false, true, scope), [ResolvePossibleLambda], o);
  }

  lemma {:induction false} CallNet(c: Sexpr, isHelper: bool, o: Options, scope: Scope)
    ensures NetOf(CallOps(c, isHelper, o, scope), o) <= if CallOverdrawn(c, isHelper, o, scope) then 0 else 1
    decreases c, 2
  {
    match Classify(c.path, isHelper, o, scope)
    case HelperKind => HelperNet(c, None, None, o, scope);
    case AmbiguousKind => AmbiguousNet(c, None, None, o, scope);
    case SimpleKind => SimpleNet(c, o, scope);
  }

  lemma {:induction false} ProgramArgsNet(main: Option<nat>, inverse: Option<nat>, o: Options)
    ensures NetOf(ProgramArgs(main, inverse), o) == 2 + Width(o)
  {
    assert ProgramArgs(main, inverse) == [PushProgram(main)] + [PushProgram(inverse)] + [EmptyHash(false)];
    NetOne(PushProgram(main), o);
    NetOne(PushProgram(inverse), o);
    NetOne(EmptyHash(false), o);
    NetConcat([PushProgram(main)], [PushProgram(inverse)], o);
    NetConcat([PushProgram(main)] + [PushProgram(inverse)], [EmptyHash(false)], o);
  }

  lemma {:induction false} BlockNet(c: Sexpr, main: Option<nat>, inverse: Option<nat>, o: Options, scope: Scope)
    ensures NetOf(BlockOps(c, main, inverse, o, scope), o) <= if CallOverdrawn(c, HasArguments(c), o, scope) then 0 else 1
  {
    hide NetOf, HelperOps, SimpleOps, AmbiguousOps;
    var args := ProgramArgs(main, inverse);
    ProgramArgsNet(main, inverse, o);
    match Classify(c.path, HasArguments(c), o, scope)
    case HelperKind => HelperNet(c, main, inverse, o, scope);
    case SimpleKind =>
      SimpleNet(c, o, scope);
      NetOne(BlockValue(c.path.original), o);
      NetConcat(SimpleOps(c, scope), args, o);
      NetConcat(SimpleOps(c, scope) + args, [BlockValue(c.path.original)], o);
    case AmbiguousKind =>
      AmbiguousNet(c, main, inverse, o, scope);
      NetOne(AmbiguousBlockValue, o);
      NetConcat(AmbiguousOps(c, main, inverse, scope), args, o);
      NetConcat(AmbiguousOps(c, main, inverse, scope) + args, [AmbiguousBlockValue], o);
  }

  /** What a partial's context and parameter are worth, its hash apart. */
  function PartialWorth(s: Statement, o: Options): int
    requires s.Partial?
  {
    (if s.name.DynamicName? then 1 else 0)
    + (if s.params == [] && o.explicitPartialContext then 1 else Width(o) - Short(o))
  }

  lemma {:induction false} PartialSetupNet(s: Statement, n: nat, o: Options, scope: Scope)
    requires s.Partial? && |s.params| <= 1
    ensures NetOf(PartialSetup(s, n, o, scope), o) <= PartialWorth(s, o) + 2 + Width(o)
  {
    hide SetupOps, ExprOps, Width, NetOf;
    var context := if s.params == [] && o.explicitPartialContext then [PushLiteral(UndefinedLit)] else [];
    var name := if s.name.DynamicName? then ExprOps(SubExpr(s.name.call), o, scope) else [];
    var c := PartialCall(s, o);
    var setup := SetupOps(c, BodyIndex(s.fallback, n), None, true, o, scope);
    NetOne(PushLiteral(UndefinedLit), o);
    NetNone(o);
    if s.name.DynamicName? {
      ExprNet(SubExpr(s.name.call), o, scope);
    }
    assert NetOf(setup, o) <= (if c.params == [] then 0 else Width(o) - Short(o)) + 2 + Width(o) by {
      SetupNet(c, BodyIndex(s.fallback, n), None, true, o, scope);
    }
    NetConcat(context, name, o);
    NetConcat(context + name, setup, o);
  }

  lemma {:induction false} PartialNet(s: Statement, n: nat, o: Options, scope: Scope)
    requires s.Partial? && |s.params| <= 1
    ensures NetOf(PartialOps(s, n, o, scope), o) <= if PartialOverdrawn(s, o) then 0 else 1
  {
    hide PartialSetup, PartialCallOps;
    PartialSetupNet(s, n, o, scope);
    PartialCallNet(s, o);
    NetConcat(PartialSetup(s, n, o, scope), PartialCallOps(s, o), o);
  }

  lemma {:induction false} PartialCallNet(s: Statement, o: Options)
    requires s.Partial?
    ensures NetOf(PartialCallOps(s, o), o) == Net(InvokePartial(s.name.DynamicName?, "", ""), o)
  {
    var moved := o.preventIndent && s.indent != "";
    var indent := if moved then [AppendContent(s.indent)] else [];
    var invoke := InvokePartial(s.name.DynamicName?, StaticNameOf(s.name), if moved then "" else s.indent);
    NetOne(AppendContent(s.indent), o);
    NetOne(invoke, o);
    NetConcat(indent, [invoke], o);
  }

  /** A statement nets nothing, or something below nothing exactly when it is overdrawn. */
  lemma {:induction false} StatementNet(s: Statement, n: nat, o: Options, scope: Scope)
    requires s.Partial? ==> |s.params| <= 1
    ensures NetOf(StatementOps(s, n, o, scope), o) <= if StatementOverdrawn(s, o, scope) then -1 else 0
  {
    hide CallOps, BlockOps, PartialOps, SetupOps;
    match s
    case Content(value) => NetOne(AppendContent(value), o);
    case Comment =>
    case Mustache(c, escaped) =>
      var last := if escaped && !o.noEscape then AppendEscaped else Append;
      CallNet(c, HasArguments(c), o, scope);
      NetOne(last, o);
      NetConcat(CallOps(c, HasArguments(c), o, scope), [last], o);
    case Block(c, bodies) =>
      BlockNet(c, MainIndex(bodies, n), InverseIndex(bodies, n), o, scope);
      NetOne(Append, o);
      NetConcat(BlockOps(c, MainIndex(bodies, n), InverseIndex(bodies, n), o, scope), [Append], o);
    case Partial(_, _, _, _, _) =>
      PartialNet(s, n, o, scope);
      NetOne(Append, o);
      NetConcat(PartialOps(s, n, o, scope), [Append], o);
    case Decorator(c, body) =>
      DecoratorNet(c, BodyIndex(body, n), o, scope);
  }

  lemma {:induction false} DecoratorNet(c: Sexpr, main: Option<nat>, o: Options, scope: Scope)
    ensures NetOf(SetupOps(c, main, None, false, o, scope) + [RegisterDecorator(|c.params|, c.path.original)], o)
         <= if Overdrawn(c, o) then -1 else 0
  {
    var last := RegisterDecorator(|c.params|, c.path.original);
    SetupNet(c, main, None, false, o, scope);
    NetOne(last, o);
    NetConcat(SetupOps(c, main, None, false, o, scope), [last], o);
    assert |c.params| * (Width(o) - Short(o)) == |c.params| * Width(o) - |c.params| * Short(o);
  }

  lemma NoneOverdrawnSplits(body: seq<Statement>, o: Options, scope: Scope)
    ensures if body == [] then NoneOverdrawn(body, o, scope)
            else NoneOverdrawn(body, o, scope) <==> !StatementOverdrawn(body[0], o, scope) && NoneOverdrawn(body[1..], o, scope)
  {
    hide StatementOverdrawn;
    if body != [] && !NoneOverdrawn(body, o, scope) && !StatementOverdrawn(body[0], o, scope) {
      var i :| 0 <= i < |body| && StatementOverdrawn(body[i], o, scope);
      assert body[i] == body[1..][i - 1];
    }
  }

  lemma {:induction false} BodyNet(body: seq<Statement>, n: nat, o: Options, scope: Scope)
    requires PartialsWellFormed(body)
    ensures NetOf(BodyOps(body, n, o, scope), o) <= if NoneOverdrawn(body, o, scope) then 0 else -1
    decreases body
  {
    hide StatementOps, StatementOverdrawn, Net, NoneOverdrawn;
    NoneOverdrawnSplits(body, o, scope);
    if body != [] {
      StatementNet(body[0], n, o, scope);
      BodyNet(body[1..], n + |Nested(body[0])|, o, scope);
      NetConcat(StatementOps(body[0], n, o, scope), BodyOps(body[1..], n + |Nested(body[0])|, o, scope), o);
    }
  }

  /**
   A program compiles without "Invalid stack pop", "replaceStack on non-inline" and "content left
   on stack" if and only if no statement is overdrawn, and then it emits the directly described lines.
   */
  lemma {:induction false} CompilesIff(body: seq<Statement>, scope: Scope, cfg: Config)
    requires PartialsWellFormed(body)
    ensures Compile(BodyOps(body, 0, cfg.opts, scope), cfg).Success? <==> NoneOverdrawn(body, cfg.opts, scope)
    ensures NoneOverdrawn(body, cfg.opts, scope) ==>
      Compile(BodyOps(body, 0, cfg.opts, scope), cfg)
      == Success(FlushContent(BodyOutput(body, 0, Output([], ""), scope, cfg), cfg))
  {
    var ops := BodyOps(body, 0, cfg.opts, scope);
    if NoneOverdrawn(body, cfg.opts, scope) {
      BodyRun(body, 0, scope, START, cfg);
    } else {
      BodyNet(body, 0, cfg.opts, scope);
      RunMoves(ops, START, cfg);
    }
  }

  /** With at most one of the two side modes on, and contexts implied where a side mode is on, all programs compile. */
  lemma {:induction false} CompilesAlways(body: seq<Statement>, scope: Scope, cfg: Config)
    requires PartialsWellFormed(body)
    requires !(cfg.opts.stringParams && cfg.opts.trackIds)
    requires cfg.opts.explicitPartialContext ==> !cfg.opts.stringParams && !cfg.opts.trackIds
    ensures Compile(BodyOps(body, 0, cfg.opts, scope), cfg).Success?
  {
    CompilesIff(body, scope, cfg);
  }
}
