/** The `Compiler` object, which walks the tree and pushes opcodes, against the opcode functions. */
module HandlebarsCompiler {
  import opened Wrappers
  import opened HandlebarsAst
  import opened HandlebarsOpcodes
  import opened HandlebarsMachine
  import opened HandlebarsPreservation

  /** A compiled program: what the `Compiler` hands to the `JavaScriptCompiler`. */
  datatype Environment = Environment(opcodes: seq<Op>, children: seq<Environment>, isSimple: bool, useDepths: bool)

  // ----- what is compiled, as a function of the tree -----

  function NestedAll(body: seq<Statement>): seq<Program> {
    if body == [] then [] else Nested(body[0]) + NestedAll(body[1..])
  }

  function Inner(p: Program, scope: Scope): Scope {
    [p.blockParams] + scope
  }

  predicate AnyDeep(children: seq<Environment>) {
    exists i :: 0 <= i < |children| && children[i].useDepths
  }

  predicate HasDeep(ops: seq<Op>) {
    exists op :: op in ops && DeepContext(op)
  }

  function EnvironmentOf(p: Program, o: Options, scope: Scope): Environment
    decreases p, 0
  {
    var inner := Inner(p, scope);
    var ops := BodyOps(p.body, 0, o, inner);
    var children := BodyEnvironments(p.body, o, inner);
    Environment(ops, children, |p.body| == 1, HasDeep(ops) || AnyDeep(children))
  }

  function BodyEnvironments(body: seq<Statement>, o: Options, scope: Scope): (r: seq<Environment>)
    ensures |r| == |NestedAll(body)|
    decreases body, 0
  {
    if body == [] then []
    else StatementEnvironments(body[0], o, scope) + BodyEnvironments(body[1..], o, scope)
  }

  function BodiesEnvironments(bodies: Bodies, o: Options, scope: Scope): seq<Environment>
    decreases bodies, 0
  {
    match bodies
    case Main(p) => [EnvironmentOf(p, o, scope)]
    case Inverse(i) => [EnvironmentOf(i, o, scope)]
    case Both(p, i) => [EnvironmentOf(p, o, scope), EnvironmentOf(i, o, scope)]
  }

  function StatementEnvironments(s: Statement, o: Options, scope: Scope): (r: seq<Environment>)
    ensures |r| == |Nested(s)|
    decreases s, 0
  {
    match s
    case Block(_, bodies) => BodiesEnvironments(bodies, o, scope)
    case Partial(_, _, _, _, Some(p)) => [EnvironmentOf(p, o, scope)]
    case Decorator(_, Some(p)) => [EnvironmentOf(p, o, scope)]
    case _ => []
  }

  // ----- what is refused -----

  /** With knownHelpersOnly every helper call must name a known helper. */
  predicate HelperAllowed(c: Sexpr, o: Options, scope: Scope)
    decreases c, 0
  {
    ParamsAllowed(c.params, o, scope) && HashAllowed(c.hash, o, scope) && (o.knownHelpersOnly ==> IsKnown(c.path, o))
  }

  predicate ExprAllowed(e: Expr, o: Options, scope: Scope)
    decreases e, 0
  {
    e.SubExpr? ==> CallAllowed(e.call, true, o, scope)
  }

  predicate CallAllowed(c: Sexpr, isHelper: bool, o: Options, scope: Scope)
    decreases c, 1
  {
    Classify(c.path, isHelper, o, scope) == HelperKind ==> HelperAllowed(c, o, scope)
  }

  predicate ParamsAllowed(params: seq<Expr>, o: Options, scope: Scope)
    decreases params, 0
  {
    params == [] || (ExprAllowed(params[0], o, scope) && ParamsAllowed(params[1..], o, scope))
  }

  predicate PairsAllowed(pairs: seq<HashPair>, o: Options, scope: Scope)
    decreases pairs, 0
  {
    pairs == [] || (ExprAllowed(pairs[0].value, o, scope) && PairsAllowed(pairs[1..], o, scope))
  }

  predicate HashAllowed(hash: Hash, o: Options, scope: Scope)
    decreases hash, 0
  {
    hash.Pairs? ==> PairsAllowed(hash.pairs, o, scope)
  }

  predicate StatementAllowed(s: Statement, o: Options, scope: Scope)
    decreases s, 1
  {
    match s
    case Content(_) => true
    case Comment => true
    case Mustache(c, _) => CallAllowed(c, HasArguments(c), o, scope)
    case Block(c, bodies) =>
      CallAllowed(c, HasArguments(c), o, scope)
      && (bodies.Main? || bodies.Both? ==> Allowed(bodies.program, o, scope))
      && (bodies.Inverse? || bodies.Both? ==> Allowed(bodies.inverse, o, scope))
    case Partial(name, params, hash, _, fallback) =>
      |params| <= 1 && (name.DynamicName? ==> CallAllowed(name.call, true, o, scope))
      && ParamsAllowed(params, o, scope) && HashAllowed(hash, o, scope)
      && (fallback.Some? ==> Allowed(fallback.value, o, scope))
    case Decorator(c, body) =>
      ParamsAllowed(c.params, o, scope) && HashAllowed(c.hash, o, scope) && (body.Some? ==> Allowed(body.value, o, scope))
  }

  predicate BodyAllowed(body: seq<Statement>, o: Options, scope: Scope)
    decreases body, 1
  {
    body == [] || (StatementAllowed(body[0], o, scope) && BodyAllowed(body[1..], o, scope))
  }

  predicate Allowed(p: Program, o: Options, scope: Scope)
    decreases p, 1
  {
    BodyAllowed(p.body, o, Inner(p, scope))
  }

  class Compiler {
    const options: Options
    var blockParams: Scope
    var opcodes: seq<Op>
    var children: seq<Environment>
    var useDepths: bool

    constructor (options: Options, blockParams: Scope)
      ensures this.options == options && this.blockParams == blockParams
      ensures opcodes == [] && children == [] && !useDepths
    {
      this.options, this.blockParams := options, blockParams;
      opcodes, children, useDepths := [], [], false;
    }

    /** Only `ops` have been pushed; useDepths records whether they, or anything before, need parent contexts. */
    twostate predicate Pushed(ops: seq<Op>)
      reads this
    {
      && opcodes == old(opcodes) + ops
      && useDepths == (old(useDepths) || HasDeep(ops))
      && blockParams == old(blockParams) && children == old(children)
    }

    method Opcode(op: Op)
      requires !DeepContext(op)
      modifies this
      ensures Pushed([op])
    {
      opcodes := opcodes + [op];
    }

    /** addDepth followed by the getContext that needs it. */
    method GetContext(depth: nat)
      modifies this
      ensures Pushed([Op.GetContext(depth)])
    {
      if depth != 0 {
        useDepths := true;
      }
      opcodes := opcodes + [Op.GetContext(depth)];
      assert DeepContext(Op.GetContext(depth)) <==> depth != 0;
    }

    method AcceptPath(p: Path, falsy: bool, strict: bool)
      modifies this
      ensures Pushed(PathOps(p, falsy, strict, blockParams))
    {
      GetContext(p.depth);
      var place := BlockParamOf(p, blockParams);
      if place.Some? {
        Opcode(LookupBlockParam(place.value, p.parts));
      } else if !Named(p) {
        Opcode(PushContext);
      } else if p.data {
        Opcode(LookupData(p.depth, p.parts, strict));
      } else {
        Opcode(LookupOnContext(p.parts, falsy, strict, p.scoped));
      }
    }

    method Accept(e: Expr) returns (ok: bool)
      modifies this
      ensures ok == ExprAllowed(e, options, blockParams)
      ensures ok ==> Pushed(ExprOps(e, options, blockParams))
      ensures blockParams == old(blockParams)
      decreases e, 0
    {
      match e {
        case PathExpr(p) => AcceptPath(p, false, false); ok := true;
        case SubExpr(c) => ok := SubExpression(c, true);
        case _ => Opcode(PushLiteral(e)); ok := true;
      }
    }

    method PushParam(e: Expr) returns (ok: bool)
      modifies this
      ensures ok == ExprAllowed(e, options, blockParams)
      ensures ok ==> Pushed(ParamOps(e, options, blockParams))
      ensures blockParams == old(blockParams)
      decreases e, 1
    {
      ok := true;
      if options.stringParams {
        GetContext(DepthOf(e));
        Opcode(PushStringParam(e, TypeName(e)));
        if e.SubExpr? {
          ok := Accept(e);
        }
      } else {
        if options.trackIds {
          Opcode(PushId(e));
        }
        ok := Accept(e);
      }
    }

    method PushParams(params: seq<Expr>) returns (ok: bool)
      modifies this
      ensures ok == ParamsAllowed(params, options, blockParams)
      ensures ok ==> Pushed(ParamsOps(params, options, blockParams))
      ensures blockParams == old(blockParams)
      decreases params, 0
    {
      if params == [] {
        return true;
      }
      ok := PushParam(params[0]);
      if ok {
        ok := PushParams(params[1..]);
      }
    }

    method PushPairs(pairs: seq<HashPair>) returns (ok: bool)
      modifies this
      ensures ok == PairsAllowed(pairs, options, blockParams)
      ensures ok ==> Pushed(PairsOps(pairs, options, blockParams))
      ensures blockParams == old(blockParams)
      decreases pairs, 0
    {
      if pairs == [] {
        return true;
      }
      ok := PushParam(pairs[0].value);
      if ok {
        ok := PushPairs(pairs[1..]);
      }
    }

    /** Hash: the values from first to last, the assignments from last to first. */
    method AcceptHash(hash: Hash, omit: bool) returns (ok: bool)
      modifies this
      ensures ok == HashAllowed(hash, options, blockParams)
      ensures ok ==> Pushed(HashOps(hash, omit, options, blockParams))
      ensures blockParams == old(blockParams)
      decreases hash, 0
    {
      match hash {
        case NoHash => Opcode(EmptyHash(omit)); ok := true;
        case Pairs(pairs) =>
          Opcode(PushHash);
          ok := PushPairs(pairs);
          if ok {
            ghost var before := opcodes;
            var i := |pairs|;
            while i > 0
              invariant 0 <= i <= |pairs|
              invariant opcodes == before + AssignOps(pairs[i..])
              invariant blockParams == old(blockParams) && children == old(children)
              invariant useDepths == (old(useDepths) || HasDeep(PairsOps(pairs, options, blockParams)))
            {
              i := i - 1;
              assert pairs[i..][1..] == pairs[i + 1..];
              Opcode(AssignToHash(pairs[i].key));
            }
            assert pairs[0..] == pairs;
            Opcode(PopHash);
            AssignNotDeep(pairs);
            HashGrouping(old(opcodes), PairsOps(pairs, options, blockParams), AssignOps(pairs));
          }
      }
    }

    static lemma {:induction false} AssignNotDeep(pairs: seq<HashPair>)
      ensures !HasDeep(AssignOps(pairs))
    {
      if pairs != [] {
        AssignNotDeep(pairs[1..]);
      }
    }

    static lemma HashGrouping(before: seq<Op>, values: seq<Op>, assigns: seq<Op>)
      ensures before + [PushHash] + values + assigns + [PopHash] == before + ([PushHash] + values + assigns + [PopHash])
    {
    }

    method SetupParams(c: Sexpr, main: Option<nat>, inverse: Option<nat>, omit: bool) returns (ok: bool)
      modifies this
      ensures ok == (ParamsAllowed(c.params, options, blockParams) && HashAllowed(c.hash, options, blockParams))
      ensures ok ==> Pushed(SetupOps(c, main, inverse, omit, options, blockParams))
      ensures blockParams == old(blockParams)
      decreases c, 0
    {
      ok := PushParams(c.params);
      if ok {
        Opcode(PushProgram(main));
        Opcode(PushProgram(inverse));
        ok := AcceptHash(c.hash, omit);
      }
    }

    method HelperSexpr(c: Sexpr, main: Option<nat>, inverse: Option<nat>) returns (ok: bool)
      modifies this
      ensures ok == HelperAllowed(c, options, blockParams)
      ensures ok ==> Pushed(HelperOps(c, main, inverse, options, blockParams))
      ensures blockParams == old(blockParams)
      decreases c, 1
    {
      ok := SetupParams(c, main, inverse, false);
      if ok {
        if IsKnown(c.path, options) {
          Opcode(InvokeKnownHelper(|c.params|, c.path.parts[0]));
        } else if options.knownHelpersOnly {
          ok := false;
        } else {
          AcceptPath(c.path, true, true);
          Opcode(InvokeHelper(|c.params|, c.path.original, SimpleId(c.path)));
        }
      }
    }

    method AmbiguousSexpr(c: Sexpr, main: Option<nat>, inverse: Option<nat>)
      requires c.path.parts != []
      modifies this
      ensures Pushed(AmbiguousOps(c, main, inverse, blockParams))
    {
      GetContext(c.path.depth);
      Opcode(PushProgram(main));
      Opcode(PushProgram(inverse));
      AcceptPath(c.path, false, true);
      Opcode(InvokeAmbiguous(c.path.parts[0], main.Some? || inverse.Some?));
    }

    method SimpleSexpr(c: Sexpr)
      modifies this
      ensures Pushed(SimpleOps(c, blockParams))
    {
      AcceptPath(c.path, false, true);
      Opcode(ResolvePossibleLambda);
    }

    method SubExpression(c: Sexpr, isHelper: bool) returns (ok: bool)
      modifies this
      ensures ok == CallAllowed(c, isHelper, options, blockParams)
      ensures ok ==> Pushed(CallOps(c, isHelper, options, blockParams))
      ensures blockParams == old(blockParams)
      decreases c, 2
    {
      ok := true;
      match Classify(c.path, isHelper, options, blockParams) {
        case HelperKind => ok := HelperSexpr(c, None, None);
        case AmbiguousKind => AmbiguousSexpr(c, None, None);
        case SimpleKind => SimpleSexpr(c);
      }
    }

    /** Opcodes and nested programs have been added, and nothing else changed. */
    twostate predicate Extended(ops: seq<Op>, envs: seq<Environment>)
      reads this
    {
      && opcodes == old(opcodes) + ops && children == old(children) + envs
      && useDepths == (old(useDepths) || HasDeep(ops) || AnyDeep(envs))
      && blockParams == old(blockParams)
    }

    /** compileProgram: a compiler of its own for the nested program. */
    method CompileProgram(p: Program) returns (ok: bool, index: nat)
      modifies this
      ensures index == |old(children)|
      ensures ok == Allowed(p, options, blockParams)
      ensures ok ==> Extended([], [EnvironmentOf(p, options, blockParams)])
      ensures blockParams == old(blockParams)
      decreases p, 1
    {
      index := |children|;
      var nested := new Compiler(options, blockParams);
      var result;
      ok, result := nested.Compile(p);
      if ok {
        children := children + [result];
        useDepths := useDepths || result.useDepths;
        assert AnyDeep([result]) <==> result.useDepths by {
          assert [result][0] == result;
        }
      }
    }

    /** compile: the program's statements under its own block parameters. */
    method Compile(p: Program) returns (ok: bool, result: Environment)
      requires opcodes == [] && children == [] && !useDepths
      modifies this
      ensures ok == Allowed(p, options, old(blockParams))
      ensures ok ==> result == EnvironmentOf(p, options, old(blockParams))
      decreases p, 0
    {
      hide Compiling, AnyDeep, HasDeep, StatementOps, StatementEnvironments, StatementAllowed, BodyAllowed;
      blockParams := [p.blockParams] + blockParams;
      var body := p.body;
      ok := true;
      var i := 0;
      CompilingStart(body, options, blockParams);
      while i < |body| && ok
        invariant 0 <= i <= |body| && blockParams == Inner(p, old(blockParams))
        invariant ok ==> Compiling(body, i, opcodes, children, useDepths, options, blockParams)
        invariant !ok ==> !BodyAllowed(body, options, blockParams)
      {
        CompilingStep(body, i, opcodes, children, useDepths, options, blockParams);
        ok := AcceptStatement(body[i]);
        i := i + 1;
      }
      if ok {
        CompilingEnd(body, opcodes, children, useDepths, options, blockParams);
      }
      blockParams := blockParams[1..];
      result := Environment(opcodes, children, |body| == 1, useDepths);
    }

    /** The first `i` statements have been compiled and accepted. */
    static ghost predicate Compiling(body: seq<Statement>, i: nat, ops: seq<Op>, envs: seq<Environment>, deep: bool, o: Options, scope: Scope)
      requires i <= |body|
    {
      && (BodyAllowed(body, o, scope) <==> BodyAllowed(body[i..], o, scope))
      && ops + BodyOps(body[i..], |envs|, o, scope) == BodyOps(body, 0, o, scope)
      && envs + BodyEnvironments(body[i..], o, scope) == BodyEnvironments(body, o, scope)
      && deep == (HasDeep(ops) || AnyDeep(envs))
    }

    static lemma CompilingStart(body: seq<Statement>, o: Options, scope: Scope)
      ensures Compiling(body, 0, [], [], false, o, scope)
    {
      NothingDeep();
      assert body[0..] == body && [] + BodyOps(body, 0, o, scope) == BodyOps(body, 0, o, scope);
      assert [] + BodyEnvironments(body, o, scope) == BodyEnvironments(body, o, scope);
    }

    static lemma {:induction false} CompilingStep(body: seq<Statement>, i: nat, ops: seq<Op>, envs: seq<Environment>, deep: bool, o: Options, scope: Scope)
      requires i < |body| && Compiling(body, i, ops, envs, deep, o, scope)
      ensures var more, inner := StatementOps(body[i], |envs|, o, scope), StatementEnvironments(body[i], o, scope);
              Compiling(body, i, ops, envs, deep, o, scope)
              && (!StatementAllowed(body[i], o, scope) ==> !BodyAllowed(body, o, scope))
              && (StatementAllowed(body[i], o, scope) ==>
                    Compiling(body, i + 1, ops + more, envs + inner, deep || HasDeep(more) || AnyDeep(inner), o, scope))
    {
      hide StatementOps, StatementEnvironments, StatementAllowed, HasDeep, AnyDeep;
      var more, inner := StatementOps(body[i], |envs|, o, scope), StatementEnvironments(body[i], o, scope);
      assert body[i..][0] == body[i] && body[i..][1..] == body[i + 1..];
      DeepConcat(ops, more);
      AnyConcat(envs, inner);
      var rest, others := BodyOps(body[i + 1..], |envs + inner|, o, scope), BodyEnvironments(body[i + 1..], o, scope);
      assert ops + (more + rest) == (ops + more) + rest;
      assert envs + (inner + others) == (envs + inner) + others;
    }

    static lemma {:induction false} CompilingEnd(body: seq<Statement>, ops: seq<Op>, envs: seq<Environment>, deep: bool, o: Options, scope: Scope)
      requires Compiling(body, |body|, ops, envs, deep, o, scope)
      ensures BodyAllowed(body, o, scope) && ops == BodyOps(body, 0, o, scope) && envs == BodyEnvironments(body, o, scope)
      ensures deep == (HasDeep(ops) || AnyDeep(envs))
    {
      assert body[|body|..] == [];
      assert ops + [] == ops && envs + [] == envs;
    }

    static lemma NothingDeep()
      ensures !HasDeep([]) && !AnyDeep([])
    {
    }

    static lemma DeepConcat(a: seq<Op>, b: seq<Op>)
      ensures HasDeep(a + b) <==> HasDeep(a) || HasDeep(b)
    {
    }

    static lemma AnyConcat(a: seq<Environment>, b: seq<Environment>)
      ensures AnyDeep(a + b) <==> AnyDeep(a) || AnyDeep(b)
    {
      if i :| 0 <= i < |a| && a[i].useDepths {
        assert (a + b)[i].useDepths;
      }
      if i :| 0 <= i < |b| && b[i].useDepths {
        assert (a + b)[|a| + i].useDepths;
      }
    }

    method AcceptStatement(s: Statement) returns (ok: bool)
      modifies this
      ensures ok == StatementAllowed(s, options, blockParams)
      ensures ok ==> Extended(StatementOps(s, |old(children)|, options, blockParams), StatementEnvironments(s, options, blockParams))
      ensures blockParams == old(blockParams)
      decreases s, 4
    {
      hide BlockOps, CallOps, PartialOps, SetupOps, BodiesEnvironments, CallAllowed, AnyDeep;
      NothingDeep();
      ok := true;
      match s {
        case Content(value) =>
          if value != "" {
            Opcode(AppendContent(value));
          }
        case Comment =>
        case Mustache(c, escaped) =>
          ok := SubExpression(c, HasArguments(c));
          if ok {
            Opcode(if escaped && !options.noEscape then AppendEscaped else Append);
          }
        case Block(c, bodies) => ok := BlockStatement(c, bodies);
        case Partial(_, _, _, _, _) => ok := PartialStatement(s);
        case Decorator(c, body) => ok := DecoratorBlock(c, body);
      }
    }

    method CompileBodies(bodies: Bodies) returns (ok: bool, main: Option<nat>, inverse: Option<nat>)
      modifies this
      ensures main == MainIndex(bodies, |old(children)|)
      ensures ok ==> inverse == InverseIndex(bodies, |old(children)|)
      ensures ok == ((bodies.Main? || bodies.Both? ==> Allowed(bodies.program, options, blockParams))
                     && (bodies.Inverse? || bodies.Both? ==> Allowed(bodies.inverse, options, blockParams)))
      ensures ok ==> Extended([], BodiesEnvironments(bodies, options, blockParams))
      ensures blockParams == old(blockParams)
      decreases bodies, 2
    {
      hide EnvironmentOf, Allowed, HasDeep, AnyDeep;
      NothingDeep();
      main, inverse, ok := None, None, true;
      var index;
      if bodies.Main? || bodies.Both? {
        ok, index := CompileProgram(bodies.program);
        main := Some(index);
      }
      if ok && (bodies.Inverse? || bodies.Both?) {
        ok, index := CompileProgram(bodies.inverse);
        inverse := Some(index);
      }
      if bodies.Both? {
        var p, i := EnvironmentOf(bodies.program, options, blockParams), EnvironmentOf(bodies.inverse, options, blockParams);
        AnyConcat([p], [i]);
        assert [p] + [i] == [p, i];
      }
    }

    /** The block's own expression; the value it leaves is still to be appended. */
    method BlockExpression(c: Sexpr, main: Option<nat>, inverse: Option<nat>) returns (ok: bool)
      modifies this
      ensures ok == CallAllowed(c, HasArguments(c), options, blockParams)
      ensures ok ==> Pushed(BlockOps(c, main, inverse, options, blockParams))
      ensures blockParams == old(blockParams)
      decreases c, 2
    {
      hide HelperOps, SimpleOps, AmbiguousOps, HelperAllowed;
      ok := true;
      match Classify(c.path, HasArguments(c), options, blockParams) {
        case HelperKind => ok := HelperSexpr(c, main, inverse);
        case SimpleKind =>
          SimpleSexpr(c);
          PushPrograms(main, inverse);
          Opcode(BlockValue(c.path.original));
        case AmbiguousKind =>
          AmbiguousSexpr(c, main, inverse);
          PushPrograms(main, inverse);
          Opcode(AmbiguousBlockValue);
      }
    }

    method BlockStatement(c: Sexpr, bodies: Bodies) returns (ok: bool)
      modifies this
      ensures ok == StatementAllowed(Block(c, bodies), options, blockParams)
      ensures ok ==> Extended(StatementOps(Block(c, bodies), |old(children)|, options, blockParams),
                              StatementEnvironments(Block(c, bodies), options, blockParams))
      ensures blockParams == old(blockParams)
      decreases Block(c, bodies), 0
    {
      hide BlockOps, CallAllowed, Allowed, EnvironmentOf, AnyDeep;
      var main, inverse;
      ok, main, inverse := CompileBodies(bodies);
      if ok {
        ok := BlockExpression(c, main, inverse);
        if ok {
          Opcode(Append);
        }
      }
    }

    method PushPrograms(main: Option<nat>, inverse: Option<nat>)
      modifies this
      ensures Pushed([PushProgram(main), PushProgram(inverse), EmptyHash(false)])
    {
      Opcode(PushProgram(main));
      Opcode(PushProgram(inverse));
      Opcode(EmptyHash(false));
    }

    method DecoratorBlock(c: Sexpr, body: Option<Program>) returns (ok: bool)
      modifies this
      ensures ok == StatementAllowed(Decorator(c, body), options, blockParams)
      ensures ok ==> Extended(StatementOps(Decorator(c, body), |old(children)|, options, blockParams),
                              StatementEnvironments(Decorator(c, body), options, blockParams))
      ensures blockParams == old(blockParams)
      decreases Decorator(c, body), 0
    {
      var main: Option<nat> := None;
      ok := true;
      if body.Some? {
        var index;
        ok, index := CompileProgram(body.value);
        main := Some(index);
      }
      if ok {
        ok := SetupParams(c, main, None, false);
        if ok {
          Opcode(RegisterDecorator(|c.params|, c.path.original));
        }
      }
    }

    method PartialStatement(s: Statement) returns (ok: bool)
      requires s.Partial?
      modifies this
      ensures ok == StatementAllowed(s, options, blockParams)
      ensures ok ==> Extended(StatementOps(s, |old(children)|, options, blockParams), StatementEnvironments(s, options, blockParams))
      ensures blockParams == old(blockParams)
      decreases s, 3
    {
      hide EnvironmentOf, Allowed, CallAllowed, AnyDeep, HasDeep, StatementOps;
      NothingDeep();
      var main: Option<nat> := None;
      ok := true;
      if s.fallback.Some? {
        var index;
        ok, index := CompileProgram(s.fallback.value);
        main := Some(index);
      }
      if |s.params| > 1 || !ok {
        return false;
      }
      ok := PartialCode(s, main, |old(children)|);
    }

    /** A partial's own opcodes; `n` is the number its fallback program got. */
    method PartialCode(s: Statement, main: Option<nat>, ghost n: nat) returns (ok: bool)
      requires s.Partial? && |s.params| <= 1 && main == BodyIndex(s.fallback, n)
      modifies this
      ensures ok == ((s.name.DynamicName? ==> CallAllowed(s.name.call, true, options, blockParams))
                     && ParamsAllowed(s.params, options, blockParams) && HashAllowed(s.hash, options, blockParams))
      ensures ok ==> Pushed(StatementOps(s, n, options, blockParams))
      ensures blockParams == old(blockParams)
      decreases s, 2
    {
      hide CallAllowed, HasDeep, SetupOps, ExprOps, PartialCallOps;
      ok := PartialArguments(s, main);
      if ok {
        PartialInvocation(s);
        Opcode(Append);
        ghost var setup, call := PartialSetup(s, n, options, blockParams), PartialCallOps(s, options);
        DeepConcat(setup, call);
        DeepConcat(setup + call, [Append]);
        assert old(opcodes) + setup + call + [Append] == old(opcodes) + (setup + call + [Append]);
      }
    }

    method PartialInvocation(s: Statement)
      requires s.Partial?
      modifies this
      ensures Pushed(PartialCallOps(s, options))
    {
      var moved := options.preventIndent && s.indent != "";
      if moved {
        Opcode(AppendContent(s.indent));
      }
      Opcode(InvokePartial(s.name.DynamicName?, StaticNameOf(s.name), if moved then "" else s.indent));
    }

    /** The explicit context, the computed name and the usual arguments of a partial. */
    method PartialArguments(s: Statement, main: Option<nat>) returns (ok: bool)
      requires s.Partial? && |s.params| <= 1
      modifies this
      ensures ok == ((s.name.DynamicName? ==> CallAllowed(s.name.call, true, options, blockParams))
                     && ParamsAllowed(s.params, options, blockParams) && HashAllowed(s.hash, options, blockParams))
      ensures ok ==> Pushed(
        (if s.params == [] && options.explicitPartialContext then [PushLiteral(UndefinedLit)] else [])
        + (if s.name.DynamicName? then ExprOps(SubExpr(s.name.call), options, blockParams) else [])
        + SetupOps(PartialCall(s, options), main, None, true, options, blockParams))
      ensures blockParams == old(blockParams)
      decreases s, 1
    {
      hide SetupOps, CallOps, CallAllowed;
      var params := s.params;
      if params == [] {
        if options.explicitPartialContext {
          Opcode(PushLiteral(UndefinedLit));
        } else {
          params := [PathExpr(CURRENT_CONTEXT)];
        }
      }
      CurrentAllowed(s, options, blockParams);
      ok := true;
      if s.name.DynamicName? {
        ok := SubExpression(s.name.call, true);
      }
      if ok {
        ok := SetupParams(Sexpr(CURRENT_CONTEXT, params, s.hash), main, None, true);
      }
    }

    static lemma {:induction false} CurrentAllowed(s: Statement, o: Options, scope: Scope)
      requires s.Partial?
      ensures ParamsAllowed(PartialCall(s, o).params, o, scope) == ParamsAllowed(s.params, o, scope)
    {
      if s.params == [] && !o.explicitPartialContext {
        assert PartialCall(s, o).params[1..] == [];
      }
    }
  }

  /** The compiled program declares the parent contexts its own opcodes need. */
  lemma {:induction false} EnvironmentDeclares(p: Program, o: Options, scope: Scope, cfg: Config)
    requires EnvironmentOf(p, o, scope).useDepths ==> cfg.useDepths
    ensures DepthsDeclared(BodyOps(p.body, 0, o, Inner(p, scope)), cfg)
  {
    var ops := BodyOps(p.body, 0, o, Inner(p, scope));
    if op :| op in ops && DeepContext(op) {
      assert HasDeep(ops);
    }
  }
}
