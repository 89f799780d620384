/** Partial statements: what is invoked, with which context and options. */
module HandlebarsPartials {
  import opened Wrappers
  import opened HandlebarsAst
  import opened HandlebarsOpcodes
  import opened HandlebarsMachine
  import opened HandlebarsCodegen
  import opened HandlebarsSemantics
  import opened HandlebarsPreservation
  import opened HandlebarsTemplates
  import opened HandlebarsRendering

  /** A computed partial name and an implied explicit context cannot be combined: see SwappedPartial. */
  predicate Swapped(s: Statement, o: Options) {
    s.Partial? && s.name.DynamicName? && s.params == [] && o.explicitPartialContext
  }

  // ----- the shape of the generated call -----

  function ContextCode(s: Statement, scope: Scope, cfg: Config): Js
    requires s.Partial? && Plain(cfg.opts)
  {
    if s.params != [] then ExprEntry(s.params[0], 0, scope, cfg).e
    else if cfg.opts.explicitPartialContext then JLiteral(UndefinedLit)
    else JContext(0)
  }

  function TargetCode(s: Statement, scope: Scope, cfg: Config): Js
    requires s.Partial? && Plain(cfg.opts)
  {
    match s.name
    case StaticName(name) => JMember(JPartials, name)
    case DynamicName(c) => CallCode(c, true, 0, scope, cfg)
  }

  /** The properties after the name and the hash; all of them are constants. */
  function RestFields(s: Statement, n: nat, o: Options): seq<Field>
    requires s.Partial?
  {
    TailFields(BodyIndex(s.fallback, n), None, o)
    + (if o.preventIndent || s.indent == "" then [] else [Field("indent", JText(s.indent))])
    + [Field("helpers", JHelpers), Field("partials", JPartials), Field("decorators", JDecorators)]
    + (if o.compat then [Field("depths", JDepths)] else [])
  }

  function NameField(name: PartialName): seq<Field> {
    if name.DynamicName? then [] else [Field("name", JText(name.name))]
  }

  function HashField(hash: Hash, scope: Scope, cfg: Config): seq<Field>
    requires Plain(cfg.opts)
  {
    if hash.NoHash? then [] else [Field("hash", HashCode(hash, 0, scope, cfg))]
  }

  lemma {:induction false} KeptConcat(a: seq<Field>, b: seq<Field>)
    ensures Kept(a + b) == Kept(a) + Kept(b)
    decreases a
  {
    if a == [] {
      assert a + b == b;
    } else {
      assert (a + b)[1..] == a[1..] + b;
      KeptConcat(a[1..], b);
    }
  }

  lemma {:induction false} KeptRest(s: Statement, n: nat, o: Options)
    requires s.Partial?
    ensures Kept(RestFields(s, n, o)) == RestFields(s, n, o)
  {
    AllKept(RestFields(s, n, o));
  }

  /** The setup segment in the standard mode: parameters, programs, and one entry for the hash. */
  lemma {:induction false} PartialArguments(first: Entry, s: Statement, n: nat, name: string, scope: Scope, cfg: Config)
    requires s.Partial? && Plain(cfg.opts)
    ensures var o, main := cfg.opts, BodyIndex(s.fallback, n);
            var hash := HashEntries(s.hash, true, 0, scope, cfg);
            var seg := [first] + [ProgramEntry(main), ProgramEntry(None)] + hash;
            Complete(seg, 1, o) && TakeArguments(seg, name, 1, false, o)
            == Arguments([first.e], PlainFields(name, hash[0].e, main, None, o))
  {
    hide OptionFields, ProgramEntry, HashEntries, PlainFields;
    var o, main := cfg.opts, BodyIndex(s.fallback, n);
    var hash := HashEntries(s.hash, true, 0, scope, cfg);
    var rest := [ProgramEntry(main), ProgramEntry(None)] + hash;
    var seg := [first] + [ProgramEntry(main), ProgramEntry(None)] + hash;
    assert seg[..1] == [first] && seg[1..] == rest;
    TakePlainParams([first], 1, o);
    assert EntryCodes([first]) == [first.e];
    PlainOptions(name, TakeHashParts(rest, o), TakeParams([first], 1, o), main, None, o);
  }

  /** The entry that becomes the partial's context. */
  function ContextEntry(s: Statement, scope: Scope, cfg: Config): Entry
    requires s.Partial? && Plain(cfg.opts)
  {
    if s.params != [] then ExprEntry(s.params[0], 0, scope, cfg)
    else Lit(ContextCode(s, scope, cfg))
  }

  lemma {:induction false} SegmentShape(s: Statement, n: nat, scope: Scope, cfg: Config)
    requires s.Partial? && Plain(cfg.opts) && |s.params| <= 1 && !Swapped(s, cfg.opts)
    ensures var main := BodyIndex(s.fallback, n);
            var tail := [ContextEntry(s, scope, cfg)] + [ProgramEntry(main), ProgramEntry(None)]
                        + HashEntries(s.hash, true, 0, scope, cfg);
            PartialSegment(s, n, scope, cfg)
            == (if s.name.DynamicName? then [Code(TargetCode(s, scope, cfg))] else []) + tail
  {
    hide HashEntries, ProgramEntry, CallCode, ExprEntry;
    var c := PartialCall(s, cfg.opts);
    var programs := [ProgramEntry(BodyIndex(s.fallback, n)), ProgramEntry(None)];
    var hash := HashEntries(s.hash, true, 0, scope, cfg);
    var params := ParamsEntries(c.params, 0, scope, cfg);
    assert SetupEntries(c, BodyIndex(s.fallback, n), None, true, 0, scope, cfg) == params + programs + hash;
    if c.params != [] {
      assert ParamsEntries(c.params[1..], 0, scope, cfg) == [];
      assert c.params[1..] == [];
      assert ParamEntries(c.params[0], 0, scope, cfg) == [ExprEntry(c.params[0], 0, scope, cfg)];
      assert params == [ExprEntry(c.params[0], 0, scope, cfg)] + [];
      CurrentEntry(scope, cfg);
    } else {
      assert params == [];
    }
  }

  lemma {:induction false} CurrentEntry(scope: Scope, cfg: Config)
    requires Plain(cfg.opts)
    ensures ExprEntry(PathExpr(CURRENT_CONTEXT), 0, scope, cfg) == Lit(JContext(0))
  {
  }

  lemma {:induction false} PartialShape(s: Statement, n: nat, scope: Scope, cfg: Config)
    requires s.Partial? && Plain(cfg.opts) && |s.params| <= 1 && !Swapped(s, cfg.opts)
    ensures PartialCode(s, n, scope, cfg) ==
            JInvokePartial([TargetCode(s, scope, cfg), ContextCode(s, scope, cfg),
                            JObject(NameField(s.name) + (HashField(s.hash, scope, cfg) + RestFields(s, n, cfg.opts)))])
  {
    hide HashEntries, ProgramEntry, TakeArguments, PlainFields, ContextEntry, TargetCode, PartialSegment, CallCode, Kept, ExprEntry,
         PartialCallCode, GivenFields;
    var o, main := cfg.opts, BodyIndex(s.fallback, n);
    var first, hash := ContextEntry(s, scope, cfg), HashEntries(s.hash, true, 0, scope, cfg);
    var name, dynamic := StaticNameOf(s.name), s.name.DynamicName?;
    var own := [first] + [ProgramEntry(main), ProgramEntry(None)] + hash;
    SegmentShape(s, n, scope, cfg);
    PartialArguments(first, s, n, name, scope, cfg);
    var seg := PartialSegment(s, n, scope, cfg);
    assert (if dynamic then seg[1..] else seg) == own;
    FieldsShape(s, n, scope, cfg);
    ContextIs(s, scope, cfg);
    if !dynamic {
      TargetIs(s, scope, cfg);
    }
    CallShape(s, n, TargetCode(s, scope, cfg), first.e, scope, cfg);
  }

  lemma {:induction false} CallShape(s: Statement, n: nat, target: Js, context: Js, scope: Scope, cfg: Config)
    requires s.Partial? && Plain(cfg.opts)
    ensures var main := BodyIndex(s.fallback, n);
            var hash := HashEntries(s.hash, true, 0, scope, cfg)[0].e;
            var moved := cfg.opts.preventIndent && s.indent != "";
            PartialCallCode(target, Arguments([context], PlainFields(StaticNameOf(s.name), hash, main, None, cfg.opts)),
                            s.name.DynamicName?, if moved then "" else s.indent, cfg.opts)
            == JInvokePartial([target, context, ObjectLiteral(GivenFields(s, n, scope, cfg))])
  {
    hide HashEntries, TailFields, Kept, ObjectLiteral;
    var o, hash := cfg.opts, HashEntries(s.hash, true, 0, scope, cfg)[0].e;
    var moved := o.preventIndent && s.indent != "";
    var fields := WithoutName(PlainFields(StaticNameOf(s.name), hash, BodyIndex(s.fallback, n), None, o), s.name.DynamicName?)
                  + FieldIf((if moved then "" else s.indent) != "", "indent", JText(if moved then "" else s.indent))
                  + [Field("helpers", JHelpers), Field("partials", JPartials), Field("decorators", JDecorators)]
                  + FieldIf(o.compat, "depths", JDepths);
    NamedFields(s, n, hash, o);
    assert [target] + [context] + [ObjectLiteral(fields)] == [target, context, ObjectLiteral(fields)];
  }

  /** The name stands first, so dropping it leaves the hash and the rest. */
  lemma {:induction false} NamedFields(s: Statement, n: nat, hash: Js, o: Options)
    requires s.Partial?
    ensures var moved := o.preventIndent && s.indent != "";
            var indent := if moved then "" else s.indent;
            WithoutName(PlainFields(StaticNameOf(s.name), hash, BodyIndex(s.fallback, n), None, o), s.name.DynamicName?)
            + FieldIf(indent != "", "indent", JText(indent))
            + [Field("helpers", JHelpers), Field("partials", JPartials), Field("decorators", JDecorators)]
            + FieldIf(o.compat, "depths", JDepths)
            == NameField(s.name) + [Field("hash", hash)] + RestFields(s, n, o)
  {
    hide TailFields;
  }

  lemma {:induction false} ContextIs(s: Statement, scope: Scope, cfg: Config)
    requires s.Partial? && Plain(cfg.opts)
    ensures ContextEntry(s, scope, cfg).e == ContextCode(s, scope, cfg)
  {
  }

  lemma {:induction false} TargetIs(s: Statement, scope: Scope, cfg: Config)
    requires s.Partial? && Plain(cfg.opts) && s.name.StaticName?
    ensures TargetCode(s, scope, cfg) == JMember(JPartials, StaticNameOf(s.name))
  {
  }

  /** The properties before the literal undefined is dropped. */
  function GivenFields(s: Statement, n: nat, scope: Scope, cfg: Config): seq<Field>
    requires s.Partial? && Plain(cfg.opts)
  {
    NameField(s.name) + [Field("hash", HashEntries(s.hash, true, 0, scope, cfg)[0].e)] + RestFields(s, n, cfg.opts)
  }

  lemma {:induction false} FieldsShape(s: Statement, n: nat, scope: Scope, cfg: Config)
    requires s.Partial? && Plain(cfg.opts)
    ensures Kept(GivenFields(s, n, scope, cfg))
         == NameField(s.name) + (HashField(s.hash, scope, cfg) + RestFields(s, n, cfg.opts))
  {
    hide RestFields, NameField, HashEntries, HashField, Kept;
    var given := Field("hash", HashEntries(s.hash, true, 0, scope, cfg)[0].e);
    KeptConcat(NameField(s.name) + [given], RestFields(s, n, cfg.opts));
    KeptConcat(NameField(s.name), [given]);
    KeptRest(s, n, cfg.opts);
    NameKept(s.name);
    GivenHash(s.hash, scope, cfg);
    assert NameField(s.name) + HashField(s.hash, scope, cfg) + RestFields(s, n, cfg.opts)
        == NameField(s.name) + (HashField(s.hash, scope, cfg) + RestFields(s, n, cfg.opts));
  }

  lemma NameKept(name: PartialName)
    ensures Kept(NameField(name)) == NameField(name)
  {
    AllKept(NameField(name));
  }

  /** Without a written hash the property is the text undefined and is left out. */
  lemma {:induction false} GivenHash(hash: Hash, scope: Scope, cfg: Config)
    requires Plain(cfg.opts)
    ensures Kept([Field("hash", HashEntries(hash, true, 0, scope, cfg)[0].e)]) == HashField(hash, scope, cfg)
  {
    hide PairsEntries, Assigned;
    var given := Field("hash", HashEntries(hash, true, 0, scope, cfg)[0].e);
    HashNotText(hash, 0, scope, cfg);
    assert Kept([]) == [] && [given][1..] == [];
  }

  /** With a computed name and the context left implicit, the call gets the two exchanged. */
  lemma {:induction false} SwappedPartial(s: Statement, n: nat, scope: Scope, cfg: Config)
    requires Plain(cfg.opts) && Swapped(s, cfg.opts)
    ensures var code := PartialCode(s, n, scope, cfg);
            code.JInvokePartial? && |code.args| == 3
            && code.args[0] == JLiteral(UndefinedLit) && code.args[1] == CallCode(s.name.call, true, 0, scope, cfg)
  {
    hide HashEntries, ProgramEntry, TakeArguments, CallCode, ObjectLiteral;
    var main := BodyIndex(s.fallback, n);
    var name := Code(CallCode(s.name.call, true, 0, scope, cfg));
    var c := PartialCall(s, cfg.opts);
    var own := [name] + [ProgramEntry(main), ProgramEntry(None)] + HashEntries(s.hash, true, 0, scope, cfg);
    assert ParamsEntries(c.params, 0, scope, cfg) == [];
    var seg := PartialSegment(s, n, scope, cfg);
    assert seg == [Lit(JLiteral(UndefinedLit))] + own;
    assert seg[1..] == own;
    PartialArguments(name, s, n, StaticNameOf(s.name), scope, cfg);
  }

  // ----- what the call computes -----

  lemma {:induction false} EvalFieldsConcat<W(!new)>(a: seq<Field>, b: seq<Field>, h: Host<W>, env: Env, s: Store, w: W)
    ensures EvaluateFields(a + b, h, env, s, w) ==
            var r := EvaluateFields(a, h, env, s, w);
            if r.ThrownIn? then r
            else
              var t := EvaluateFields(b, h, env, r.s, r.w);
              if t.ThrownIn? then t else Vals(r.vs + t.vs, t.s, t.w)
    decreases a
  {
    hide Evaluate;
    if a == [] {
      assert a + b == b;
    } else {
      assert (a + b)[0] == a[0] && (a + b)[1..] == a[1..] + b;
      var first := Evaluate(a[0].value, h, env, s, w);
      if first.Val? {
        EvalFieldsConcat(a[1..], b, h, env, first.s, first.w);
        var r := EvaluateFields(a[1..], h, env, first.s, first.w);
        if r.Vals? {
          var t := EvaluateFields(b, h, env, r.s, r.w);
          assert t.Vals? ==> [first.v] + (r.vs + t.vs) == ([first.v] + r.vs) + t.vs;
        }
      }
    }
  }

  lemma {:induction false} ZipConcat(a: seq<Field>, b: seq<Field>, va: seq<Value>, vb: seq<Value>)
    requires |a| == |va| && |b| == |vb|
    ensures |a + b| == |va + vb| && Zip(a + b, va + vb) == Zip(a, va) + Zip(b, vb)
    decreases a
  {
    if a == [] {
      assert a + b == b && va + vb == vb;
    } else {
      assert (a + b)[1..] == a[1..] + b && (va + vb)[1..] == va[1..] + vb;
      ZipConcat(a[1..], b, va[1..], vb);
    }
  }

  function RootFields(o: Options): seq<Field> {
    [Field("helpers", JHelpers), Field("partials", JPartials), Field("decorators", JDecorators)]
    + (if o.compat then [Field("depths", JDepths)] else [])
  }

  function RootPairs(o: Options, env: Env): seq<(string, Value)> {
    [("helpers", env.helpers), ("partials", env.partials), ("decorators", env.decorators)]
    + (if o.compat then [("depths", List(env.contexts))] else [])
  }

  function RootValues(o: Options, env: Env): (r: seq<Value>)
    ensures |r| == |RootFields(o)|
  {
    [env.helpers, env.partials, env.decorators] + (if o.compat then [List(env.contexts)] else [])
  }

  lemma {:induction false} RootsCompute<W(!new)>(o: Options, h: Host<W>, env: Env, s: Store, w: W)
    ensures EvaluateFields(RootFields(o), h, env, s, w) == Vals(RootValues(o, env), s, w)
    ensures Zip(RootFields(o), RootValues(o, env)) == RootPairs(o, env)
  {
    hide Evaluate;
    RootConstants(h, env, s, w);
    var depths := if o.compat then [Field("depths", JDepths)] else [];
    var depthsValue := if o.compat then [List(env.contexts)] else [];
    var a, b, c := Field("helpers", JHelpers), Field("partials", JPartials), Field("decorators", JDecorators);
    assert EvaluateFields([], h, env, s, w) == Vals([], s, w) && Zip([], []) == [];
    if o.compat {
      ConstantField(Field("depths", JDepths), List(env.contexts), [], h, env, s, w);
      ZipCons(Field("depths", JDepths), [], List(env.contexts), []);
      assert [Field("depths", JDepths)] + [] == depths && [List(env.contexts)] + [] == depthsValue;
    }
    ConstantField(c, env.decorators, depths, h, env, s, w);
    ConstantField(b, env.partials, [c] + depths, h, env, s, w);
    ConstantField(a, env.helpers, [b] + ([c] + depths), h, env, s, w);
    ZipCons(c, depths, env.decorators, depthsValue);
    ZipCons(b, [c] + depths, env.partials, [env.decorators] + depthsValue);
    ZipCons(a, [b] + ([c] + depths), env.helpers, [env.partials] + ([env.decorators] + depthsValue));
    assert RootFields(o) == [a] + ([b] + ([c] + depths));
    assert RootValues(o, env) == [env.helpers] + ([env.partials] + ([env.decorators] + depthsValue));
  }

  lemma {:induction false} RootConstants<W(!new)>(h: Host<W>, env: Env, s: Store, w: W)
    ensures Evaluate(JHelpers, h, env, s, w) == Val(env.helpers, s, w)
    ensures Evaluate(JPartials, h, env, s, w) == Val(env.partials, s, w)
    ensures Evaluate(JDecorators, h, env, s, w) == Val(env.decorators, s, w)
    ensures Evaluate(JDepths, h, env, s, w) == Val(List(env.contexts), s, w)
  {
  }

  /** A property list that computes nothing and gives these pairs. */
  ghost predicate Fixed<W(!new)>(fields: seq<Field>, pairs: seq<(string, Value)>, h: Host<W>, env: Env, s: Store, w: W) {
    var r := EvaluateFields(fields, h, env, s, w);
    r.Vals? && r.s == s && r.w == w && Zip(fields, r.vs) == pairs
  }

  lemma {:induction false} FixedConcat<W(!new)>(a: seq<Field>, b: seq<Field>, pa: seq<(string, Value)>, pb: seq<(string, Value)>,
                             h: Host<W>, env: Env, s: Store, w: W)
    requires Fixed(a, pa, h, env, s, w) && Fixed(b, pb, h, env, s, w)
    ensures Fixed(a + b, pa + pb, h, env, s, w)
  {
    EvalFieldsConcat(a, b, h, env, s, w);
    ZipConcat(a, b, EvaluateFields(a, h, env, s, w).vs, EvaluateFields(b, h, env, s, w).vs);
  }

  lemma FixedText<W(!new)>(name: string, text: string, h: Host<W>, env: Env, s: Store, w: W)
    ensures Fixed([Field(name, JText(text))], [(name, Str(text))], h, env, s, w)
    ensures Fixed([], [], h, env, s, w)
  {
    hide Evaluate;
    EvalText(text, h, env, s, w);
    ConstantField(Field(name, JText(text)), Str(text), [], h, env, s, w);
    assert [Field(name, JText(text))] + [] == [Field(name, JText(text))] && [Str(text)] + [] == [Str(text)];
    ZipCons(Field(name, JText(text)), [], Str(text), []);
    assert Zip([], []) == [];
    assert EvaluateFields([], h, env, s, w) == Vals([], s, w);
  }

  function RestPairs(s: Statement, n: nat, o: Options, env: Env): seq<(string, Value)>
    requires s.Partial?
  {
    TailPairs(BodyIndex(s.fallback, n), None, o, env)
    + (if o.preventIndent || s.indent == "" then [] else [("indent", Str(s.indent))])
    + RootPairs(o, env)
  }

  lemma RestSplits(p: Statement, n: nat, o: Options)
    requires p.Partial?
    ensures RestFields(p, n, o) == TailFields(BodyIndex(p.fallback, n), None, o)
            + (if o.preventIndent || p.indent == "" then [] else [Field("indent", JText(p.indent))]) + RootFields(o)
  {
    hide TailFields;
  }

  lemma {:induction false} RestFixed<W(!new)>(p: Statement, n: nat, o: Options, h: Host<W>, env: Env, s: Store, w: W)
    requires p.Partial?
    ensures Fixed(RestFields(p, n, o), RestPairs(p, n, o, env), h, env, s, w)
  {
    hide TailFields, TailPairs, RootFields, RootPairs, RootValues, Evaluate, EvaluateFields, Zip, TailValues;
    var main := BodyIndex(p.fallback, n);
    var tail := TailFields(main, None, o);
    var indent := if o.preventIndent || p.indent == "" then [] else [Field("indent", JText(p.indent))];
    var indentPairs := if o.preventIndent || p.indent == "" then [] else [("indent", Str(p.indent))];
    TailCompute(main, None, o, h, env, s, w);
    ZipTail(main, None, o, env);
    FixedText("indent", p.indent, h, env, s, w);
    RootsCompute(o, h, env, s, w);
    assert Fixed(indent, indentPairs, h, env, s, w);
    FixedConcat(tail, indent, TailPairs(main, None, o, env), indentPairs, h, env, s, w);
    FixedConcat(tail + indent, RootFields(o), TailPairs(main, None, o, env) + indentPairs, RootPairs(o, env), h, env, s, w);
    RestSplits(p, n, o);
  }

  /** The options object of a partial, whose hash is the only part that computes. */
  lemma {:induction false} PartialOptionsCompute<W(!new)>(p: Statement, n: nat, cfg: Config, at: Setting<W>, s: Store, w: W)
    requires p.Partial? && Enabled(cfg, at) && DepthsDeclared(HashOps(p.hash, true, at.o, at.scope), cfg)
    ensures var m := HashMeaning(p.hash, at, w);
            var fields := NameField(p.name) + (HashField(p.hash, at.scope, cfg) + RestFields(p, n, cfg.opts));
            Evaluates(Evaluate(JObject(fields), at.h, at.env, s, w),
                      if m.Fails? then m else Means([PartialOptions(p, n, m.vs[0], at.o, at.env)], m.w))
  {
    hide Evaluate, RestFields, RestPairs, HashCode, HashMeaning;
    var (h, env) := (at.h, at.env);
    var rest, hash := RestFields(p, n, cfg.opts), HashField(p.hash, at.scope, cfg);
    var name := NameField(p.name);
    var namePairs := if p.name.DynamicName? then [] else [("name", Str(p.name.name))];
    EvalObject(name + (hash + rest), h, env, s, w);
    FixedText("name", StaticNameOf(p.name), h, env, s, w);
    assert Fixed(name, namePairs, h, env, s, w);
    EvalFieldsConcat(name, hash + rest, h, env, s, w);
    EvalFieldsConcat(hash, rest, h, env, s, w);
    assert EvaluateFields([], h, env, s, w) == Vals([], s, w);
    var m := HashMeaning(p.hash, at, w);
    if p.hash.NoHash? {
      NoHashMeaning(at, w);
      RestFixed(p, n, at.o, h, env, s, w);
      ZipParts(p, n, Undefined, name, hash, rest, EvaluateFields(name, h, env, s, w).vs, [], EvaluateFields(rest, h, env, s, w).vs, namePairs, at.o, env);
      NoHashOptions(p, n, m.vs[0], at.o, env);
    } else {
      HashDeclares(p.hash, at.o, at.scope, cfg);
      HashComputes(p.hash, 0, cfg, at, s, w);
      EvalFieldsCons(hash[0], [], h, env, s, w);
      assert [hash[0]] + [] == hash;
      if m.Means? {
        var t := Evaluate(hash[0].value, h, env, s, w).s;
        assert EvaluateFields([], h, env, t, m.w) == Vals([], t, m.w);
        assert [m.vs[0]] + [] == [m.vs[0]];
        RestFixed(p, n, at.o, h, env, t, m.w);
        ZipParts(p, n, m.vs[0], name, hash, rest, EvaluateFields(name, h, env, s, w).vs, [m.vs[0]], EvaluateFields(rest, h, env, t, m.w).vs, namePairs, at.o, env);
      }
    }
  }

  lemma {:induction false} NoHashMeaning<W(!new)>(at: Setting<W>, w: W)
    ensures HashMeaning(NoHash, at, w) == Means([Record([])], w)
  {
  }

  lemma NoHashOptions(p: Statement, n: nat, v: Value, o: Options, env: Env)
    requires p.Partial? && p.hash.NoHash?
    ensures PartialOptions(p, n, v, o, env) == PartialOptions(p, n, Undefined, o, env)
  {
  }

  lemma {:induction false} HashDeclares(hash: Hash, o: Options, scope: Scope, cfg: Config)
    requires hash.Pairs? && DepthsDeclared(HashOps(hash, true, o, scope), cfg)
    ensures DepthsDeclared(HashOps(hash, false, o, scope), cfg)
  {
  }

  lemma {:induction false} ZipParts(p: Statement, n: nat, v: Value, name: seq<Field>, hash: seq<Field>, rest: seq<Field>,
                 vn: seq<Value>, vh: seq<Value>, vr: seq<Value>, namePairs: seq<(string, Value)>, o: Options, env: Env)
    requires p.Partial?
    requires |name| == |vn| && Zip(name, vn) == namePairs
    requires namePairs == if p.name.DynamicName? then [] else [("name", Str(p.name.name))]
    requires |hash| == |vh| && if p.hash.NoHash? then hash == [] else |hash| == 1 && hash[0].name == "hash" && vh == [v]
    requires |rest| == |vr| && Zip(rest, vr) == RestPairs(p, n, o, env)
    ensures |name + (hash + rest)| == |vn + (vh + vr)|
    ensures Record(Zip(name + (hash + rest), vn + (vh + vr))) == PartialOptions(p, n, v, o, env)
  {
    hide TailPairs, PartialOptions, RestPairs;
    ZipConcat(hash, rest, vh, vr);
    ZipConcat(name, hash + rest, vn, vh + vr);
    var hashPairs := if p.hash.NoHash? then [] else [("hash", v)];
    assert Zip(hash, vh) == hashPairs by {
      assert Zip([], []) == [];
      if p.hash.Pairs? {
        ZipCons(hash[0], [], v, []);
        assert [hash[0]] + [] == hash && [v] + [] == vh;
      }
    }
    OptionsParts(p, n, v, namePairs, hashPairs, o, env);
    assert namePairs + (hashPairs + RestPairs(p, n, o, env)) == namePairs + hashPairs + RestPairs(p, n, o, env);
  }

  lemma {:induction false} OptionsParts(p: Statement, n: nat, v: Value, namePairs: seq<(string, Value)>, hashPairs: seq<(string, Value)>, o: Options, env: Env)
    requires p.Partial?
    requires namePairs == if p.name.DynamicName? then [] else [("name", Str(p.name.name))]
    requires hashPairs == if p.hash.NoHash? then [] else [("hash", v)]
    ensures PartialOptions(p, n, v, o, env) == Record(namePairs + hashPairs + RestPairs(p, n, o, env))
  {
    hide TailPairs;
    var tail := TailPairs(BodyIndex(p.fallback, n), None, o, env);
    var indent := if o.preventIndent || p.indent == "" then [] else [("indent", Str(p.indent))];
    var roots := [("helpers", env.helpers), ("partials", env.partials), ("decorators", env.decorators)];
    var depths := if o.compat then [("depths", List(env.contexts))] else [];
    assert namePairs + hashPairs + tail + indent + roots + depths == namePairs + hashPairs + (tail + indent + (roots + depths));
  }

  lemma {:induction false} TargetEvaluates<W(!new)>(p: Statement, cfg: Config, at: Setting<W>, s: Store, w: W)
    requires p.Partial? && Enabled(cfg, at)
    requires p.name.DynamicName? ==> DepthsDeclared(ExprOps(SubExpr(p.name.call), at.o, at.scope), cfg)
    ensures Evaluates(Evaluate(TargetCode(p, at.scope, cfg), at.h, at.env, s, w), PartialTarget(p.name, at, w))
  {
    hide Evaluate, CallCode, ExprMeaning;
    match p.name
    case StaticName(name) =>
      RootConstants(at.h, at.env, s, w);
      EvalMember(JPartials, name, at.h, at.env, s, w);
    case DynamicName(c) =>
      ExprComputes(SubExpr(c), 0, cfg, at, s, w);
      SubExprEntry(c, 0, at.scope, cfg);
  }

  lemma {:induction false} SubExprEntry(c: Sexpr, slot: nat, scope: Scope, cfg: Config)
    requires Plain(cfg.opts)
    ensures ExprEntry(SubExpr(c), slot, scope, cfg) == Code(CallCode(c, true, slot, scope, cfg))
  {
  }

  lemma {:induction false} ContextEvaluates<W(!new)>(p: Statement, cfg: Config, at: Setting<W>, s: Store, w: W)
    requires p.Partial? && Enabled(cfg, at)
    requires p.params != [] ==> DepthsDeclared(ExprOps(p.params[0], at.o, at.scope), cfg)
    ensures Evaluates(Evaluate(ContextCode(p, at.scope, cfg), at.h, at.env, s, w), PartialContext(p, at, w))
  {
    if p.params != [] {
      hide Evaluate, ExprEntry, ExprMeaning;
      ExprComputes(p.params[0], 0, cfg, at, s, w);
    }
  }

  lemma {:induction false} PartialDeclares(s: Statement, n: nat, o: Options, scope: Scope, cfg: Config)
    requires s.Partial? && Plain(o) && DepthsDeclared(StatementOps(s, n, o, scope), cfg)
    ensures s.name.DynamicName? ==> DepthsDeclared(ExprOps(SubExpr(s.name.call), o, scope), cfg)
    ensures s.params != [] ==> DepthsDeclared(ExprOps(s.params[0], o, scope), cfg)
    ensures DepthsDeclared(HashOps(s.hash, true, o, scope), cfg)
  {
    hide ExprOps, HashOps;
    var setup := SetupOps(PartialCall(s, o), BodyIndex(s.fallback, n), None, true, o, scope);
    assert forall op :: op in PartialSetup(s, n, o, scope) ==> op in StatementOps(s, n, o, scope);
    assert forall op :: op in setup ==> op in PartialSetup(s, n, o, scope);
    assert DepthsDeclared(ParamsOps(PartialCall(s, o).params, o, scope), cfg);
    if s.params != [] {
      ParamsDeclare(s.params, o, scope, cfg);
    }
  }

  /** The generated partial call computes the partial's meaning. */
  lemma {:induction false} PartialEvaluates<W(!new)>(p: Statement, n: nat, cfg: Config, at: Setting<W>, s: Store, w: W)
    requires p.Partial? && |p.params| <= 1 && !Swapped(p, at.o)
    requires Enabled(cfg, at) && DepthsDeclared(StatementOps(p, n, at.o, at.scope), cfg)
    ensures Evaluates(Evaluate(PartialCode(p, n, at.scope, cfg), at.h, at.env, s, w), PartialMeaning(p, n, at, w))
  {
    hide Evaluate, TargetCode, ContextCode, RestFields, HashField, NameField, PartialCode, PartialTarget, PartialContext, HashMeaning,
         PartialOptions, StatementOps;
    var (h, env) := (at.h, at.env);
    var target, context := TargetCode(p, at.scope, cfg), ContextCode(p, at.scope, cfg);
    var options := JObject(NameField(p.name) + (HashField(p.hash, at.scope, cfg) + RestFields(p, n, cfg.opts)));
    PartialShape(p, n, at.scope, cfg);
    PartialDeclares(p, n, at.o, at.scope, cfg);
    TargetEvaluates(p, cfg, at, s, w);
    EvalPartial([target, context, options], h, env, s, w);
    EvalThree(target, context, options, h, env, s, w);
    var t := PartialTarget(p.name, at, w);
    if t.Means? {
      var s1 := Evaluate(target, h, env, s, w).s;
      ContextEvaluates(p, cfg, at, s1, t.w);
      var c := PartialContext(p, at, t.w);
      if c.Means? {
        PartialOptionsCompute(p, n, cfg, at, Evaluate(context, h, env, s1, t.w).s, c.w);
      }
    }
  }

  lemma {:induction false} EvalPartial<W(!new)>(args: seq<Js>, h: Host<W>, env: Env, s: Store, w: W)
    ensures var a := EvaluateAll(args, h, env, s, w);
            Evaluate(JInvokePartial(args), h, env, s, w)
            == if a.ThrownIn? then Thrown(a.w) else Done(h.partial(a.w, a.vs), a.s)
  {
  }

  lemma {:induction false} EvalThree<W(!new)>(a: Js, b: Js, c: Js, h: Host<W>, env: Env, s: Store, w: W)
    ensures EvaluateAll([a, b, c], h, env, s, w) ==
            var r := Evaluate(a, h, env, s, w);
            if r.Thrown? then ThrownIn(r.w)
            else
              var t := Evaluate(b, h, env, r.s, r.w);
              if t.Thrown? then ThrownIn(t.w)
              else
                var u := Evaluate(c, h, env, t.s, t.w);
                if u.Thrown? then ThrownIn(u.w) else Vals([r.v, t.v, u.v], u.s, u.w)
  {
    hide Evaluate;
    assert [] + [a] == [a] && [a] + [b] == [a, b] && [a, b] + [c] == [a, b, c];
    EvalAllSnoc([a, b], c, h, env, s, w);
    EvalAllSnoc([a], b, h, env, s, w);
    EvalAllSnoc([], a, h, env, s, w);
    assert EvaluateAll([], h, env, s, w) == Vals([], s, w);
  }
}
