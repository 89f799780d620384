/**
 The opcodes of every tree node push exactly what the direct code generator describes, and the
 whole program compiles with empty stacks at the end if and only if no statement is overdrawn.
 */
module HandlebarsRefinement {
  import opened Wrappers
  import opened HandlebarsAst
  import opened HandlebarsOpcodes
  import opened HandlebarsMachine
  import opened HandlebarsCodegen
  import opened HandlebarsBalance

  /** Only inlineStack has grown; the context register may have moved. */
  predicate Pushed(r: Result<State, Error>, st: State, seg: seq<Entry>) {
    r.Success? && r.value == st.(inline := st.inline + seg, lastContext := r.value.lastContext)
  }

  predicate HashesNested(st: State) {
    st.hash.None? ==> st.hashes == []
  }

  lemma {:induction false} PushedThen(a: seq<Op>, b: seq<Op>, st: State, s1: seq<Entry>, s2: seq<Entry>, cfg: Config)
    requires Pushed(Run(a, st, cfg), st, s1)
    requires Pushed(Run(b, Run(a, st, cfg).value, cfg), Run(a, st, cfg).value, s2)
    ensures Pushed(Run(a + b, st, cfg), st, s1 + s2)
  {
    RunConcat(a, b, st, cfg);
    assert (st.inline + s1) + s2 == st.inline + (s1 + s2);
  }

  lemma {:induction false} RunOne(op: Op, st: State, cfg: Config)
    ensures Run([op], st, cfg) == Step(op, st, cfg)
  {
    var next := Step(op, st, cfg);
    if next.Success? {
      assert Run([], next.value, cfg) == Success(next.value);
      assert [op][1..] == [];
    }
  }

  // ----- paths -----

  lemma {:induction false} LinksRun(st: State, entry: Entry, parts: seq<string>, falsy: bool)
    ensures Links(Push(st, entry), parts, falsy) == Success(Push(st, LinksOn(entry, parts, falsy, st.slot)))
    decreases parts
  {
    if parts != [] {
      var pushed := Push(st, entry);
      assert pushed.inline[..|pushed.inline| - 1] == st.inline;
      LinksRun(st, Replaced(entry, st.slot, Link(parts[0], falsy)), parts[1..], falsy);
    }
  }

  lemma ResolveRun(st: State, entry: Entry, parts: seq<string>, from: nat, falsy: bool, strict: bool, cfg: Config)
    ensures ResolvePath(Push(st, entry), parts, from, falsy, strict, cfg)
         == Success(Push(st, ResolveOn(entry, parts, from, falsy, strict, st.slot, cfg.opts)))
  {
    var pushed := Push(st, entry);
    assert pushed.inline[..|pushed.inline| - 1] == st.inline;
    assert Pop(pushed) == Success(Popped(entry.e, st));
    if from <= |parts| {
      LinksRun(st, entry, parts[from..], falsy);
    }
  }

  lemma {:induction false} PathRun(p: Path, falsy: bool, strict: bool, scope: Scope, st: State, cfg: Config)
    ensures Pushed(Run(PathOps(p, falsy, strict, scope), st, cfg), st,
                   [PathEntry(p, falsy, strict, st.slot, scope, cfg)])
  {
    hide Run, ResolvePath, ResolveOn;
    var at := st.(lastContext := p.depth);
    var op := PathOps(p, falsy, strict, scope)[1];
    assert PathOps(p, falsy, strict, scope) == [GetContext(p.depth)] + [op];
    RunOne(GetContext(p.depth), st, cfg);
    RunConcat([GetContext(p.depth)], [op], st, cfg);
    RunOne(op, at, cfg);
    match BlockParamOf(p, scope) {
      case Some(place) => ResolveRun(at, Code(JBlockParam(place)), p.parts, 1, false, false, cfg);
      case None =>
        if Named(p) {
          if p.data {
            ResolveRun(at, Lit(JData(p.depth)), p.parts, 0, true, strict, cfg);
          } else if !p.scoped && cfg.opts.compat && p.depth == 0 {
            ResolveRun(at, Code(JDepthedLookup(p.parts[0])), p.parts, 1, falsy, strict, cfg);
          } else {
            ResolveRun(at, Lit(ContextName(p.depth, cfg)), p.parts, 0, falsy, strict, cfg);
          }
        }
    }
  }

  // ----- popping what has just been pushed -----

  lemma PopPushed(st: State, seg: seq<Entry>)
    requires seg != []
    ensures Pop(st.(inline := st.inline + seg))
         == Success(Popped(At(seg, 0), st.(inline := st.inline + seg[..|seg| - 1])))
  {
    assert (st.inline + seg)[..|st.inline + seg| - 1] == st.inline + seg[..|seg| - 1];
  }

  /** The pops of one parameter, or of one hash. */
  lemma {:induction false} PopGroup(st: State, seg: seq<Entry>, o: Options)
    requires |seg| >= Width(o)
    ensures var rest := st.(inline := st.inline + seg[..|seg| - Width(o)]);
            var ids := if o.trackIds then 1 else 0;
            var value := Pop(st.(inline := st.inline + seg));
            value.Success? && value.value.value == At(seg, 0) &&
            var id := PopIf(value.value.st, o.trackIds);
            id.Success? && (id.value.value == if o.trackIds then At(seg, 1) else JNothing) &&
            var kind := PopIf(id.value.st, o.stringParams);
            kind.Success? && (kind.value.value == if o.stringParams then At(seg, 1 + ids) else JNothing) &&
            var context := PopIf(kind.value.st, o.stringParams);
            context.Success? && (context.value.value == if o.stringParams then At(seg, 2 + ids) else JNothing) &&
            context.value.st == rest
  {
    PopPushed(st, seg);
    var seg1 := seg[..|seg| - 1];
    var seg2 := if o.trackIds then seg1[..|seg1| - 1] else seg1;
    if o.trackIds {
      PopPushed(st, seg1);
    }
    var ids := if o.trackIds then 1 else 0;
    assert seg2 == seg[..|seg| - 1 - ids];
    if o.stringParams {
      PopPushed(st, seg2);
      var seg3 := seg2[..|seg2| - 1];
      assert seg3 == seg[..|seg| - 2 - ids];
      PopPushed(st, seg3);
      assert seg3[..|seg3| - 1] == seg[..|seg| - 3 - ids];
    }
  }

  lemma {:induction false} PopParamsPushed(st: State, seg: seq<Entry>, count: nat, o: Options)
    requires |seg| == count * Width(o)
    ensures PopParams(st.(inline := st.inline + seg), count, o) == Success(Popped(TakeParams(seg, count, o), st))
    decreases count
  {
    if count == 0 {
      assert st.inline + seg == st.inline;
    } else {
      assert |seg| >= Width(o) && |seg| - Width(o) == (count - 1) * Width(o);
      PopGroup(st, seg, o);
      PopParamsPushed(st, seg[..|seg| - Width(o)], count - 1, o);
    }
  }

  lemma {:induction false} PopHashPushed(st: State, seg: seq<Entry>, o: Options)
    requires |seg| == 2 + Width(o)
    ensures PopHashParts(st.(inline := st.inline + seg), o) == Success(Popped(TakeHashParts(seg, o), st))
  {
    PopGroup(st, seg, o);
    var programs := seg[..2];
    PopPushed(st, programs);
    PopPushed(st, programs[..1]);
    assert st.inline + programs[..1][..0] == st.inline;
  }

  lemma {:induction false} SetupPushed(st: State, seg: seq<Entry>, name: string, count: nat, withArgs: bool, o: Options)
    requires Complete(seg, count, o)
    ensures SetupParams(st.(inline := st.inline + seg), name, count, withArgs, o)
         == Success(Popped(TakeArguments(seg, name, count, withArgs, o), st))
  {
    var params, parts := seg[..count * Width(o)], seg[count * Width(o)..];
    var below := st.(inline := st.inline + params);
    assert st.inline + seg == below.inline + parts;
    PopHashPushed(below, parts, o);
    PopParamsPushed(st, params, count, o);
  }

  // ----- expressions -----

  lemma {:induction false} ExprRun(e: Expr, scope: Scope, st: State, cfg: Config)
    requires !ExprOverdrawn(e, cfg.opts, scope) && HashesNested(st)
    ensures Pushed(Run(ExprOps(e, cfg.opts, scope), st, cfg), st, [ExprEntry(e, st.slot, scope, cfg)])
    decreases e, 0
  {
    match e {
      case PathExpr(p) => PathRun(p, false, false, scope, st, cfg);
      case SubExpr(c) =>
        if Classify(c.path, true, cfg.opts, scope) == HelperKind {
          HelperRun(c, None, None, scope, st, cfg);
        } else {
          SimpleRun(c, scope, st, cfg);
        }
      case _ => RunOne(PushLiteral(e), st, cfg);
    }
  }

  lemma {:induction false} ParamRun(e: Expr, scope: Scope, st: State, cfg: Config)
    requires !BothSideModes(cfg.opts) && HashesNested(st)
    ensures Pushed(Run(ParamOps(e, cfg.opts, scope), st, cfg), st, ParamEntries(e, st.slot, scope, cfg))
    decreases e, 1
  {
    hide Run, ExprOps, ExprEntry;
    var o := cfg.opts;
    if o.stringParams {
      var context, describe := GetContext(DepthOf(e)), PushStringParam(e, TypeName(e));
      RunOne(context, st, cfg);
      var at := st.(lastContext := DepthOf(e));
      RunOne(describe, at, cfg);
      RunConcat([context], [describe], st, cfg);
      assert [context] + [describe] == [context, describe];
      var two := [Lit(ContextName(DepthOf(e), cfg)), Lit(JText(TypeName(e)))];
      if e.SubExpr? {
        assert Pushed(Run([context, describe], st, cfg), st, two);
        ExprRun(e, scope, Run([context, describe], st, cfg).value, cfg);
        PushedThen([context, describe], ExprOps(e, o, scope), st, two, [ExprEntry(e, st.slot, scope, cfg)], cfg);
      } else {
        assert [context, describe] + [] == [context, describe];
        assert st.inline + (two + [Lit(JSide(e))]) == ((st.inline + [two[0]]) + [two[1]]) + [Lit(JSide(e))];
      }
    } else if o.trackIds {
      RunOne(PushId(e), st, cfg);
      var next := Push(st, Lit(JSide(e)));
      ExprRun(e, scope, next, cfg);
      PushedThen([PushId(e)], ExprOps(e, o, scope), st, [Lit(JSide(e))], [ExprEntry(e, st.slot, scope, cfg)], cfg);
      assert ParamEntries(e, st.slot, scope, cfg) == [Lit(JSide(e))] + [ExprEntry(e, st.slot, scope, cfg)];
    } else {
      ExprRun(e, scope, st, cfg);
    }
  }

  lemma {:induction false} ParamsRun(params: seq<Expr>, scope: Scope, st: State, cfg: Config)
    requires params == [] || !BothSideModes(cfg.opts)
    requires HashesNested(st)
    ensures Pushed(Run(ParamsOps(params, cfg.opts, scope), st, cfg), st, ParamsEntries(params, st.slot, scope, cfg))
    decreases params, 0
  {
    if params == [] {
      assert st.inline + [] == st.inline;
    } else {
      ParamRun(params[0], scope, st, cfg);
      var ops := ParamOps(params[0], cfg.opts, scope);
      ParamsRun(params[1..], scope, Run(ops, st, cfg).value, cfg);
      PushedThen(ops, ParamsOps(params[1..], cfg.opts, scope), st, ParamEntries(params[0], st.slot, scope, cfg),
                 ParamsEntries(params[1..], st.slot, scope, cfg), cfg);
    }
  }

  lemma {:induction false} PairsRun(pairs: seq<HashPair>, scope: Scope, st: State, cfg: Config)
    requires pairs == [] || !BothSideModes(cfg.opts)
    requires HashesNested(st)
    ensures Pushed(Run(PairsOps(pairs, cfg.opts, scope), st, cfg), st, PairsEntries(pairs, st.slot, scope, cfg))
    decreases pairs, 0
  {
    if pairs == [] {
      assert st.inline + [] == st.inline;
    } else {
      ParamRun(pairs[0].value, scope, st, cfg);
      var ops := ParamOps(pairs[0].value, cfg.opts, scope);
      PairsRun(pairs[1..], scope, Run(ops, st, cfg).value, cfg);
      PushedThen(ops, PairsOps(pairs[1..], cfg.opts, scope), st, ParamEntries(pairs[0].value, st.slot, scope, cfg),
                 PairsEntries(pairs[1..], st.slot, scope, cfg), cfg);
    }
  }

  lemma {:induction false} AssignStep(pair: HashPair, own: seq<Entry>, h: HashBuffer, st: State, o: Options)
    requires |own| == Width(o) && st.hash == Some(h)
    ensures AssignHash(st.(inline := st.inline + own), pair.key, o) == Success(st.(hash := Some(AssignOne(pair, own, h, o))))
  {
    PopGroup(st, own, o);
    assert st.inline + own[..0] == st.inline;
  }

  lemma {:induction false} AssignRun(pairs: seq<HashPair>, seg: seq<Entry>, st: State, cfg: Config)
    requires |seg| == |pairs| * Width(cfg.opts)
    requires st.hash == Some(EMPTY_BUFFER)
    ensures Run(AssignOps(pairs), st.(inline := st.inline + seg), cfg)
         == Success(st.(hash := Some(Assigned(pairs, seg, cfg.opts))))
    decreases pairs
  {
    hide Run, AssignHash, AssignOne;
    var o := cfg.opts;
    if pairs == [] {
      assert st.inline + seg == st.inline;
      RunNone(st, cfg);
    } else {
      var w := Width(o);
      assert |seg| >= w && |seg| - w == |pairs[1..]| * w;
      var own, rest := seg[..w], seg[w..];
      var below := st.(inline := st.inline + own);
      assert st.inline + seg == below.inline + rest;
      AssignRun(pairs[1..], rest, below, cfg);
      var op := AssignToHash(pairs[0].key);
      var h := Assigned(pairs[1..], rest, o);
      var after := below.(hash := Some(h));
      RunConcat(AssignOps(pairs[1..]), [op], st.(inline := st.inline + seg), cfg);
      RunOne(op, after, cfg);
      AssignStep(pairs[0], own, h, st.(hash := Some(h)), o);
    }
  }

  lemma {:induction false} HashRun(hash: Hash, omit: bool, scope: Scope, st: State, cfg: Config)
    requires PairCount(hash) == 0 || !BothSideModes(cfg.opts)
    requires HashesNested(st)
    ensures Pushed(Run(HashOps(hash, omit, cfg.opts, scope), st, cfg), st, HashEntries(hash, omit, st.slot, scope, cfg))
    decreases hash, 0
  {
    hide Run, PairsOps, PairsEntries, Assigned, AssignOps, HashBufferEntries, EmptyHashEntries;
    match hash {
      case NoHash => RunOne(EmptyHash(omit), st, cfg);
      case Pairs(pairs) =>
        var open := OpenHash(st);
        RunOne(PushHash, st, cfg);
        PairsRun(pairs, scope, open, cfg);
        var seg := PairsEntries(pairs, st.slot, scope, cfg);
        var filled := Run(PairsOps(pairs, cfg.opts, scope), open, cfg).value;
        AssignRun(pairs, seg, open.(lastContext := filled.lastContext), cfg);
        var filledIn := open.(lastContext := filled.lastContext, hash := Some(Assigned(pairs, seg, cfg.opts)));
        RunOne(PopHash, filledIn, cfg);
        var ops := [PushHash] + PairsOps(pairs, cfg.opts, scope);
        RunConcat([PushHash], PairsOps(pairs, cfg.opts, scope), st, cfg);
        RunConcat(ops, AssignOps(pairs), st, cfg);
        RunConcat(ops + AssignOps(pairs), [PopHash], st, cfg);
        assert st.hash.Some? ==> (st.hashes + [st.hash.value])[..|st.hashes|] == st.hashes;
    }
  }

  lemma {:induction false} SetupRun(c: Sexpr, main: Option<nat>, inverse: Option<nat>, omit: bool, scope: Scope, st: State, cfg: Config)
    requires !Overdrawn(c, cfg.opts) && HashesNested(st)
    ensures Pushed(Run(SetupOps(c, main, inverse, omit, cfg.opts, scope), st, cfg), st,
                   SetupEntries(c, main, inverse, omit, st.slot, scope, cfg))
    decreases c, 0
  {
    var o := cfg.opts;
    var params := ParamsEntries(c.params, st.slot, scope, cfg);
    var programs := [ProgramEntry(main), ProgramEntry(inverse)];
    var paramOps := ParamsOps(c.params, o, scope);
    ParamsRun(c.params, scope, st, cfg);
    var mid := Run(paramOps, st, cfg).value;
    ProgramsRun(main, inverse, mid, cfg);
    PushedThen(paramOps, [PushProgram(main), PushProgram(inverse)], st, params, programs, cfg);
    var both := paramOps + [PushProgram(main), PushProgram(inverse)];
    HashRun(c.hash, omit, scope, Run(both, st, cfg).value, cfg);
    PushedThen(both, HashOps(c.hash, omit, o, scope), st, params + programs,
               HashEntries(c.hash, omit, st.slot, scope, cfg), cfg);
  }

  lemma {:induction false} ProgramsRun(main: Option<nat>, inverse: Option<nat>, st: State, cfg: Config)
    ensures Pushed(Run([PushProgram(main), PushProgram(inverse)], st, cfg), st, [ProgramEntry(main), ProgramEntry(inverse)])
  {
    RunOne(PushProgram(main), st, cfg);
    RunOne(PushProgram(inverse), Push(st, ProgramEntry(main)), cfg);
    PushedThen([PushProgram(main)], [PushProgram(inverse)], st, [ProgramEntry(main)], [ProgramEntry(inverse)], cfg);
    assert [PushProgram(main)] + [PushProgram(inverse)] == [PushProgram(main), PushProgram(inverse)];
    assert [ProgramEntry(main)] + [ProgramEntry(inverse)] == [ProgramEntry(main), ProgramEntry(inverse)];
  }

  lemma {:induction false} HelperStep(seg: seq<Entry>, path: Entry, count: nat, name: string, simple: bool, st: State, o: Options)
    requires Complete(seg, count, o)
    ensures StepHelper(count, name, simple, st.(inline := st.inline + seg + [path]), o)
         == Success(Push(st, Code(HelperCall(name, simple, path.e, TakeArguments(seg, name, count, false, o), o))))
  {
    var full := st.(inline := st.inline + seg);
    PopPushed(full, [path]);
    assert full.inline + [path][..0] == full.inline;
    SetupPushed(st, seg, name, count, false, o);
  }

  lemma {:induction false} HelperRun(c: Sexpr, main: Option<nat>, inverse: Option<nat>, scope: Scope, st: State, cfg: Config)
    requires !Overdrawn(c, cfg.opts) && HashesNested(st)
    ensures Pushed(Run(HelperOps(c, main, inverse, cfg.opts, scope), st, cfg), st,
                   [Code(HelperCode(c, main, inverse, st.slot, scope, cfg))])
    decreases c, 1
  {
    var seg := SetupEntries(c, main, inverse, false, st.slot, scope, cfg);
    var setup := SetupOps(c, main, inverse, false, cfg.opts, scope);
    SetupRun(c, main, inverse, false, scope, st, cfg);
    var full := Run(setup, st, cfg).value;
    RunConcat(setup, InvokeOps(c, cfg.opts, scope), st, cfg);
    InvokeRun(c, seg, scope, st.(lastContext := full.lastContext), cfg);
  }

  lemma {:induction false} InvokeRun(c: Sexpr, seg: seq<Entry>, scope: Scope, st: State, cfg: Config)
    requires Complete(seg, |c.params|, cfg.opts)
    ensures Pushed(Run(InvokeOps(c, cfg.opts, scope), st.(inline := st.inline + seg), cfg), st,
                   [Code(InvokeCode(c, seg, st.slot, scope, cfg))])
  {
    hide StepHelper, SetupParams, PathOps, PathEntry, HelperCall, KnownHelperCall, TakeArguments;
    var full := st.(inline := st.inline + seg);
    var count := |c.params|;
    if IsKnown(c.path, cfg.opts) {
      RunOne(InvokeKnownHelper(count, c.path.parts[0]), full, cfg);
      SetupPushed(st, seg, c.path.parts[0], count, false, cfg.opts);
    } else {
      var path := PathOps(c.path, true, true, scope);
      var invoke := InvokeHelper(count, c.path.original, SimpleId(c.path));
      PathRun(c.path, true, true, scope, full, cfg);
      var ready := Run(path, full, cfg).value;
      RunConcat(path, [invoke], full, cfg);
      RunOne(invoke, ready, cfg);
      HelperStep(seg, PathEntry(c.path, true, true, st.slot, scope, cfg), count, c.path.original, SimpleId(c.path),
                 st.(lastContext := ready.lastContext), cfg.opts);
    }
  }

  lemma {:induction false} AmbiguousStep(programs: seq<Entry>, path: Entry, name: string, isBlock: bool, st: State, o: Options)
    requires |programs| == 2
    ensures StepAmbiguous(name, isBlock, st.(inline := st.inline + programs + [path]), o)
         == Success(Push(st.(lastHelper := Helper(name)),
                         Code(AmbiguousCallCode(name, isBlock, path.e,
                                TakeArguments(programs + EmptyHashEntries(false, o), name, 0, false, o), o))))
  {
    var full := st.(inline := st.inline + programs);
    PopPushed(full, [path]);
    assert full.inline + [path][..0] == full.inline;
    var seg := programs + EmptyHashEntries(false, o);
    assert full.inline + EmptyHashEntries(false, o) == st.inline + seg;
    SetupPushed(st, seg, name, 0, false, o);
  }

  lemma {:induction false} AmbiguousRun(c: Sexpr, main: Option<nat>, inverse: Option<nat>, scope: Scope, st: State, cfg: Config)
    requires c.path.parts != []
    ensures var r := Run(AmbiguousOps(c, main, inverse, scope), st, cfg);
            r.Success? && Pushed(r, st.(lastHelper := Helper(c.path.parts[0])),
                                 [Code(AmbiguousCode(c, main, inverse, st.slot, scope, cfg))])
  {
    hide StepAmbiguous, PathOps, PathEntry, AmbiguousCallCode, TakeArguments, ProgramEntry;
    var programs := [PushProgram(main), PushProgram(inverse)];
    var entries := [ProgramEntry(main), ProgramEntry(inverse)];
    var path := PathOps(c.path, false, true, scope);
    var invoke := InvokeAmbiguous(c.path.parts[0], main.Some? || inverse.Some?);
    var head := [GetContext(c.path.depth)] + programs;
    assert head == [GetContext(c.path.depth), PushProgram(main), PushProgram(inverse)];
    var at := st.(lastContext := c.path.depth);
    RunOne(GetContext(c.path.depth), st, cfg);
    RunConcat([GetContext(c.path.depth)], programs, st, cfg);
    ProgramsRun(main, inverse, at, cfg);
    assert Pushed(Run(head, st, cfg), st, entries);
    PathRun(c.path, false, true, scope, Run(head, st, cfg).value, cfg);
    var entry := PathEntry(c.path, false, true, st.slot, scope, cfg);
    PushedThen(head, path, st, entries, [entry], cfg);
    var ready := Run(head + path, st, cfg).value;
    RunConcat(head + path, [invoke], st, cfg);
    RunOne(invoke, ready, cfg);
    assert st.inline + (entries + [entry]) == st.inline + entries + [entry];
    AmbiguousStep(entries, entry, c.path.parts[0], main.Some? || inverse.Some?, st.(lastContext := ready.lastContext), cfg.opts);
  }

  lemma {:induction false} SimpleRun(c: Sexpr, scope: Scope, st: State, cfg: Config)
    ensures Pushed(Run(SimpleOps(c, scope), st, cfg), st, [Code(SimpleCode(c, st.slot, scope, cfg))])
  {
    var path := PathOps(c.path, false, true, scope);
    PathRun(c.path, false, true, scope, st, cfg);
    var ready := Run(path, st, cfg).value;
    RunConcat(path, [ResolvePossibleLambda], st, cfg);
    RunOne(ResolvePossibleLambda, ready, cfg);
    PopPushed(st.(lastContext := ready.lastContext), [PathEntry(c.path, false, true, st.slot, scope, cfg)]);
  }

  // ----- statements -----

  /** Nothing is pending on any stack. */
  predicate Idle(st: State) {
    st.inline == [] && st.stack == [] && st.slot == 0 && st.hash == None && st.hashes == []
  }

  predicate Emitted(r: Result<State, Error>, out: Output) {
    r.Success? && Idle(r.value) && r.value.out == out
  }

  lemma {:induction false} AppendRun(ops: seq<Op>, e: Js, st: State, cfg: Config)
    requires Idle(st)
    requires Run(ops, st, cfg).Success?
    requires var mid := Run(ops, st, cfg).value; Idle(mid.(inline := [])) && mid.inline == [Code(e)]
    ensures Emitted(Run(ops + [Append], st, cfg), AppendValue(Run(ops, st, cfg).value.out, e, 0, cfg))
  {
    var mid := Run(ops, st, cfg).value;
    RunConcat(ops, [Append], st, cfg);
    RunOne(Append, mid, cfg);
    assert mid.inline[..0] == [];
  }

  lemma {:induction false} MustacheRun(c: Sexpr, escaped: bool, scope: Scope, st: State, cfg: Config)
    requires Idle(st) && !CallOverdrawn(c, HasArguments(c), cfg.opts, scope)
    ensures Emitted(Run(StatementOps(Mustache(c, escaped), 0, cfg.opts, scope), st, cfg),
                    StatementOutput(Mustache(c, escaped), 0, st.out, scope, cfg))
  {
    hide Run, CallOps, CallCode;
    var ops := CallOps(c, HasArguments(c), cfg.opts, scope);
    var code := CallCode(c, HasArguments(c), 0, scope, cfg);
    MustacheCallRun(c, scope, st, cfg);
    var mid := Run(ops, st, cfg).value;
    if escaped && !cfg.opts.noEscape {
      RunConcat(ops, [AppendEscaped], st, cfg);
      RunOne(AppendEscaped, mid, cfg);
      assert mid.inline[..0] == [];
    } else {
      AppendRun(ops, code, st, cfg);
    }
  }

  lemma {:induction false} MustacheCallRun(c: Sexpr, scope: Scope, st: State, cfg: Config)
    requires Idle(st) && !CallOverdrawn(c, HasArguments(c), cfg.opts, scope)
    ensures var r := Run(CallOps(c, HasArguments(c), cfg.opts, scope), st, cfg);
            r.Success? && r.value.inline == [Code(CallCode(c, HasArguments(c), 0, scope, cfg))]
            && Idle(r.value.(inline := [])) && r.value.out == st.out
  {
    hide Run, HelperOps, AmbiguousOps, SimpleOps, HelperCode, AmbiguousCode, SimpleCode;
    match Classify(c.path, HasArguments(c), cfg.opts, scope)
    case HelperKind => HelperRun(c, None, None, scope, st, cfg);
    case AmbiguousKind => AmbiguousRun(c, None, None, scope, st, cfg);
    case SimpleKind => SimpleRun(c, scope, st, cfg);
  }

  lemma {:induction false} BlockRun(c: Sexpr, main: Option<nat>, inverse: Option<nat>, scope: Scope, st: State, cfg: Config)
    requires Idle(st) && !CallOverdrawn(c, HasArguments(c), cfg.opts, scope)
    ensures Emitted(Run(BlockOps(c, main, inverse, cfg.opts, scope) + [Append], st, cfg),
                    BlockOutput(c, main, inverse, st.out, scope, cfg))
  {
    match Classify(c.path, HasArguments(c), cfg.opts, scope)
    case HelperKind =>
      HelperRun(c, main, inverse, scope, st, cfg);
      AppendRun(HelperOps(c, main, inverse, cfg.opts, scope), HelperCode(c, main, inverse, 0, scope, cfg), st, cfg);
    case SimpleKind => SimpleBlockRun(c, main, inverse, scope, st, cfg);
    case AmbiguousKind => AmbiguousBlockRun(c, main, inverse, scope, st, cfg);
  }

  /** The opcodes that push the two programs and an empty hash for a block value. */
  function ProgramArgs(main: Option<nat>, inverse: Option<nat>): seq<Op> {
    [PushProgram(main), PushProgram(inverse), EmptyHash(false)]
  }

  lemma {:induction false} ProgramArgsRun(main: Option<nat>, inverse: Option<nat>, st: State, cfg: Config)
    ensures Pushed(Run(ProgramArgs(main, inverse), st, cfg), st,
                   [ProgramEntry(main), ProgramEntry(inverse)] + EmptyHashEntries(false, cfg.opts))
  {
    var programs := [PushProgram(main), PushProgram(inverse)];
    ProgramsRun(main, inverse, st, cfg);
    RunOne(EmptyHash(false), Run(programs, st, cfg).value, cfg);
    PushedThen(programs, [EmptyHash(false)], st, [ProgramEntry(main), ProgramEntry(inverse)],
               EmptyHashEntries(false, cfg.opts), cfg);
    assert programs + [EmptyHash(false)] == ProgramArgs(main, inverse);
  }

  lemma {:induction false} SimpleBlockRun(c: Sexpr, main: Option<nat>, inverse: Option<nat>, scope: Scope, st: State, cfg: Config)
    requires Idle(st) && Classify(c.path, HasArguments(c), cfg.opts, scope) == SimpleKind
    ensures Emitted(Run(BlockOps(c, main, inverse, cfg.opts, scope) + [Append], st, cfg),
                    BlockOutput(c, main, inverse, st.out, scope, cfg))
  {
    hide Run, SimpleOps, SimpleCode, SetupParams, TakeArguments;
    var simple, args, last := SimpleOps(c, scope), ProgramArgs(main, inverse), BlockValue(c.path.original);
    var value := Code(SimpleCode(c, 0, scope, cfg));
    var seg := [ProgramEntry(main), ProgramEntry(inverse)] + EmptyHashEntries(false, cfg.opts);
    SimpleRun(c, scope, st, cfg);
    ProgramArgsRun(main, inverse, Run(simple, st, cfg).value, cfg);
    PushedThen(simple, args, st, [value], seg, cfg);
    var ready := Run(simple + args, st, cfg).value;
    RunConcat(simple + args, [last], st, cfg);
    RunOne(last, ready, cfg);
    var base := st.(lastContext := ready.lastContext, inline := [value]);
    assert ready == base.(inline := base.inline + seg);
    SetupPushed(base, seg, c.path.original, 0, false, cfg.opts);
    assert base.inline[..0] == [];
    var a := BlockArguments(c.path.original, main, inverse, cfg.opts);
    AppendRun(simple + args + [last], MissingBlock(SimpleCode(c, 0, scope, cfg), ObjectLiteral(a.fields)), st, cfg);
  }

  lemma {:induction false} AmbiguousBlockRun(c: Sexpr, main: Option<nat>, inverse: Option<nat>, scope: Scope, st: State, cfg: Config)
    requires Idle(st) && Classify(c.path, HasArguments(c), cfg.opts, scope) == AmbiguousKind
    ensures Emitted(Run(BlockOps(c, main, inverse, cfg.opts, scope) + [Append], st, cfg),
                    BlockOutput(c, main, inverse, st.out, scope, cfg))
  {
    hide Run, AmbiguousOps, AmbiguousCode, PushSource, AppendFlushed;
    var ambiguous, args := AmbiguousOps(c, main, inverse, scope), ProgramArgs(main, inverse);
    var code := AmbiguousCode(c, main, inverse, 0, scope, cfg);
    var seg := [ProgramEntry(main), ProgramEntry(inverse)] + EmptyHashEntries(false, cfg.opts);
    AmbiguousRun(c, main, inverse, scope, st, cfg);
    ProgramArgsRun(main, inverse, Run(ambiguous, st, cfg).value, cfg);
    var named := st.(lastHelper := Helper(c.path.parts[0]));
    RunConcat(ambiguous, args, st, cfg);
    var ready := Run(ambiguous + args, st, cfg).value;
    assert ready.inline == [Code(code)] + seg;
    FinishAmbiguous(code, seg, named.(lastContext := ready.lastContext), cfg);
    RunConcat(ambiguous + args, [AmbiguousBlockValue] + [Append], st, cfg);
    assert ambiguous + args + ([AmbiguousBlockValue] + [Append]) == BlockOps(c, main, inverse, cfg.opts, scope) + [Append];
  }

  lemma {:induction false} FinishAmbiguous(code: Js, seg: seq<Entry>, st: State, cfg: Config)
    requires Idle(st) && Complete(seg, 0, cfg.opts)
    ensures var stored := PushSource(st.out, SetTemp(1, code), cfg);
            var tested := PushSource(stored, IfNoHelper(st.lastHelper, JTemp(1), MissingBlock(JTemp(1), JOptionsVar)), cfg);
            Emitted(Run([AmbiguousBlockValue] + [Append], st.(inline := [Code(code)] + seg), cfg),
                    AppendFlushed(tested, JTemp(1), cfg))
  {
    hide Run, StepAmbiguousBlock, MissingBlock, PushSource;
    var full := st.(inline := [Code(code)] + seg);
    AmbiguousBlockStep(code, seg, st, cfg);
    var flushed := StepAmbiguousBlock(full, cfg).value;
    RunConcat([AmbiguousBlockValue], [Append], full, cfg);
    RunOne(AmbiguousBlockValue, full, cfg);
    RunOne(Append, flushed, cfg);
    assert flushed.stack[..0] == [];
  }

  lemma AmbiguousBlockStep(code: Js, seg: seq<Entry>, st: State, cfg: Config)
    requires Idle(st) && Complete(seg, 0, cfg.opts)
    ensures StepAmbiguousBlock(st.(inline := [Code(code)] + seg), cfg)
         == Success(st.(slot := 1, stack := [Code(JTemp(1))],
                        out := PushSource(PushSource(st.out, SetTemp(1, code), cfg),
                                          IfNoHelper(st.lastHelper, JTemp(1), MissingBlock(JTemp(1), JOptionsVar)), cfg)))
  {
    hide SetupParams, TakeArguments;
    var base := st.(inline := [Code(code)]);
    SetupPushed(base, seg, "", 0, false, cfg.opts);
    assert base.inline[1..] == [];
    assert st.stack + [Code(JTemp(1))] == [Code(JTemp(1))];
    var stored := base.(inline := [], slot := 1, stack := [Code(JTemp(1))],
                        out := PushSource(st.out, SetTemp(1, code), cfg));
    assert FlushEntries([], stored, cfg) == stored;
    assert Flush(base, cfg) == stored;
  }

  lemma {:induction false} PartialSegmentRun(s: Statement, n: nat, scope: Scope, st: State, cfg: Config)
    requires s.Partial? && !PartialOverdrawn(s, cfg.opts) && |s.params| <= 1
    requires HashesNested(st) && st.slot == 0
    ensures Pushed(Run(PartialSetup(s, n, cfg.opts, scope), st, cfg), st, PartialSegment(s, n, scope, cfg))
  {
    hide SetupOps, SetupEntries, CallCode;
    var explicit := s.params == [] && cfg.opts.explicitPartialContext;
    var context := if explicit then [PushLiteral(UndefinedLit)] else [];
    var contextEntries := if explicit then [Lit(JLiteral(UndefinedLit))] else [];
    assert Pushed(Run(context, st, cfg), st, contextEntries) by {
      assert st.inline + [] == st.inline;
      RunOne(PushLiteral(UndefinedLit), st, cfg);
    }
    var mid := Run(context, st, cfg).value;
    var name := if s.name.DynamicName? then ExprOps(SubExpr(s.name.call), cfg.opts, scope) else [];
    var nameEntries := if s.name.DynamicName? then [Code(CallCode(s.name.call, true, 0, scope, cfg))] else [];
    assert Pushed(Run(name, mid, cfg), mid, nameEntries) by {
      assert mid.inline + [] == mid.inline;
      if s.name.DynamicName? {
        ExprRun(SubExpr(s.name.call), scope, mid, cfg);
      }
    }
    PushedThen(context, name, st, contextEntries, nameEntries, cfg);
    var c := PartialCall(s, cfg.opts);
    SetupRun(c, BodyIndex(s.fallback, n), None, true, scope, Run(context + name, st, cfg).value, cfg);
    PushedThen(context + name, SetupOps(c, BodyIndex(s.fallback, n), None, true, cfg.opts, scope), st,
               contextEntries + nameEntries, SetupEntries(c, BodyIndex(s.fallback, n), None, true, 0, scope, cfg), cfg);
  }

  lemma PartialStep(seg: seq<Entry>, dynamic: bool, name: string, indent: string, st: State, o: Options)
    requires |seg| >= 1
    requires Complete(if dynamic then seg[1..] else seg, 1, o)
    ensures StepPartial(dynamic, name, indent, st.(inline := st.inline + seg), o)
         == Success(Push(st, Code(PartialCallCode(if dynamic then seg[0].e else JMember(JPartials, name),
                                                  TakeArguments(if dynamic then seg[1..] else seg, name, 1, false, o),
                                                  dynamic, indent, o))))
  {
    hide SetupParams, TakeArguments, PartialCallCode;
    if dynamic {
      var base := st.(inline := st.inline + [seg[0]]);
      assert base.inline + seg[1..] == st.inline + seg;
      SetupPushed(base, seg[1..], name, 1, false, o);
      assert base.inline[..|base.inline| - 1] == st.inline;
    } else {
      SetupPushed(st, seg, name, 1, false, o);
    }
  }

  lemma {:induction false} PartialRun(s: Statement, n: nat, scope: Scope, st: State, cfg: Config)
    requires s.Partial? && |s.params| <= 1
    requires Idle(st) && !PartialOverdrawn(s, cfg.opts)
    ensures Emitted(Run(StatementOps(s, n, cfg.opts, scope), st, cfg), StatementOutput(s, n, st.out, scope, cfg))
  {
    hide Run, PartialSetup, PartialSegment, PartialCode, PartialCallOps;
    var setup, call := PartialSetup(s, n, cfg.opts, scope), PartialCallOps(s, cfg.opts);
    PartialSegmentRun(s, n, scope, st, cfg);
    var pushed := Run(setup, st, cfg).value;
    RunConcat(setup, call, st, cfg);
    assert pushed.inline == PartialSegment(s, n, scope, cfg);
    PartialCallRun(s, n, scope, st.(lastContext := pushed.lastContext), cfg);
    AppendRun(setup + call, PartialCode(s, n, scope, cfg), st, cfg);
  }

  lemma {:induction false} PartialCallRun(s: Statement, n: nat, scope: Scope, st: State, cfg: Config)
    requires s.Partial? && |s.params| <= 1
    requires Idle(st) && !PartialOverdrawn(s, cfg.opts)
    ensures Run(PartialCallOps(s, cfg.opts), st.(inline := PartialSegment(s, n, scope, cfg)), cfg)
         == Success(Push(st.(out := if cfg.opts.preventIndent then Pend(st.out, s.indent) else st.out),
                         Code(PartialCode(s, n, scope, cfg))))
  {
    hide Run, PartialSegment, StepPartial, PartialCallCode, TakeArguments;
    var dynamic, seg := s.name.DynamicName?, PartialSegment(s, n, scope, cfg);
    var moved := cfg.opts.preventIndent && s.indent != "";
    var indent := if moved then [AppendContent(s.indent)] else [];
    var invoke := InvokePartial(dynamic, StaticNameOf(s.name), if moved then "" else s.indent);
    var full := st.(inline := seg);
    var ready := st.(out := if cfg.opts.preventIndent then Pend(st.out, s.indent) else st.out);
    RunConcat(indent, [invoke], full, cfg);
    RunNone(full, cfg);
    RunOne(AppendContent(s.indent), full, cfg);
    assert st.out.pending + "" == st.out.pending;
    assert ready.inline + seg == seg;
    RunOne(invoke, ready.(inline := seg), cfg);
    PartialStep(seg, dynamic, StaticNameOf(s.name), if moved then "" else s.indent, ready, cfg.opts);
  }

  lemma {:induction false} RunNone(st: State, cfg: Config)
    ensures Run([], st, cfg) == Success(st)
  {
  }

  lemma {:induction false} DecoratorRun(c: Sexpr, body: Option<Program>, n: nat, scope: Scope, st: State, cfg: Config)
    requires Idle(st) && !Overdrawn(c, cfg.opts)
    ensures Emitted(Run(StatementOps(Decorator(c, body), n, cfg.opts, scope), st, cfg), st.out)
  {
    hide Run, SetupOps, SetupEntries, SetupParams, TakeArguments;
    var setup := SetupOps(c, BodyIndex(body, n), None, false, cfg.opts, scope);
    var last := RegisterDecorator(|c.params|, c.path.original);
    SetupRun(c, BodyIndex(body, n), None, false, scope, st, cfg);
    var ready := Run(setup, st, cfg).value;
    RunConcat(setup, [last], st, cfg);
    RunOne(last, ready, cfg);
    SetupPushed(st.(lastContext := ready.lastContext), SetupEntries(c, BodyIndex(body, n), None, false, 0, scope, cfg),
                c.path.original, |c.params|, true, cfg.opts);
  }

  lemma {:induction false} StatementRun(s: Statement, n: nat, scope: Scope, st: State, cfg: Config)
    requires Idle(st) && !StatementOverdrawn(s, cfg.opts, scope)
    requires s.Partial? ==> |s.params| <= 1
    ensures Emitted(Run(StatementOps(s, n, cfg.opts, scope), st, cfg), StatementOutput(s, n, st.out, scope, cfg))
  {
    hide Run, BlockOps, CallOps, CallCode, BlockOutput, PartialCode, PartialOps, SetupOps;
    match s
    case Content(value) =>
      RunNone(st, cfg);
      RunOne(AppendContent(value), st, cfg);
    case Comment => RunNone(st, cfg);
    case Mustache(c, escaped) => MustacheRun(c, escaped, scope, st, cfg);
    case Block(c, bodies) => BlockRun(c, MainIndex(bodies, n), InverseIndex(bodies, n), scope, st, cfg);
    case Partial(_, _, _, _, _) => PartialRun(s, n, scope, st, cfg);
    case Decorator(c, body) => DecoratorRun(c, body, n, scope, st, cfg);
  }

  lemma {:induction false} BodyRun(body: seq<Statement>, n: nat, scope: Scope, st: State, cfg: Config)
    requires Idle(st) && NoneOverdrawn(body, cfg.opts, scope) && PartialsWellFormed(body)
    ensures Emitted(Run(BodyOps(body, n, cfg.opts, scope), st, cfg), BodyOutput(body, n, st.out, scope, cfg))
    decreases body
  {
    hide Run, StatementOps, StatementOutput, StatementOverdrawn;
    RunNone(st, cfg);
    if body != [] {
      var ops := StatementOps(body[0], n, cfg.opts, scope);
      StatementRun(body[0], n, scope, st, cfg);
      var next := Run(ops, st, cfg).value;
      BodyRun(body[1..], n + |Nested(body[0])|, scope, next, cfg);
      RunConcat(ops, BodyOps(body[1..], n + |Nested(body[0])|, cfg.opts, scope), st, cfg);
    }
  }
}
