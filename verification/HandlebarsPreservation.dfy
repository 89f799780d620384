/** The generated JavaScript of every expression computes the meaning of the expression. */
module HandlebarsPreservation {
  import opened Wrappers
  import opened HandlebarsAst
  import opened HandlebarsOpcodes
  import opened HandlebarsMachine
  import opened HandlebarsCodegen
  import opened HandlebarsSemantics

  /** The standard mode: no side mode and no strict mode. */
  predicate Plain(o: Options) {
    !o.stringParams && !o.trackIds && !o.strict && !o.assumeObjects
  }

  predicate DeepContext(op: Op) {
    op.GetContext? && op.depth > 0
  }

  /** Parent contexts are only used where the compiled function has the depths variable. */
  predicate DepthsDeclared(ops: seq<Op>, cfg: Config) {
    cfg.useDepths || forall op :: op in ops ==> !DeepContext(op)
  }

  /** The temporaries up to `slot` and the registers are untouched. */
  ghost predicate Agree(s: Store, t: Store, slot: nat) {
    (forall k: nat :: k <= slot ==> s.Temp(k) == t.Temp(k)) && s.helper == t.helper && s.options == t.options
  }

  ghost predicate Computes<W(!new)>(r: Eval<W>, m: Meaning<W>, s: Store, slot: nat) {
    match m
    case Fails(w) => r == Thrown(w)
    case Means(vs, w) => |vs| == 1 && r.Val? && r.v == vs[0] && r.w == w && Agree(s, r.s, slot)
  }

  ghost predicate ComputesAll<W(!new)>(r: EvalAll<W>, m: Meaning<W>, s: Store, slot: nat) {
    match m
    case Fails(w) => r == ThrownIn(w)
    case Means(vs, w) => r.Vals? && r.vs == vs && r.w == w && Agree(s, r.s, slot)
  }

  /** The entry yields `v` from store `s`; a literal entry does so from any store and changes none. */
  ghost predicate Yields<W(!new)>(entry: Entry, v: Value, slot: nat, h: Host<W>, env: Env, s: Store, w: W) {
    var r := Evaluate(entry.e, h, env, s, w);
    r.Val? && r.v == v && r.w == w && Agree(s, r.s, slot)
    && (entry.Lit? ==> forall t :: Evaluate(entry.e, h, env, t, w) == Val(v, t, w))
  }

  // ----- paths -----

  lemma {:induction false} WalkStep<W(!new)>(h: Host<W>, w: W, v: Value, parts: seq<string>, falsy: bool)
    requires parts != []
    ensures Walk(h, w, v, parts, falsy) == Walk(h, w, Walk(h, w, v, [parts[0]], falsy), parts[1..], falsy)
  {
    var stops := if falsy then !IsTrue(v) else Nullish(v);
    assert [parts[0]][1..] == [];
    if stops {
      assert Walk(h, w, v, [parts[0]], falsy) == v;
    } else {
      assert Walk(h, w, v, [parts[0]], falsy) == h.get(w, v, parts[0]);
    }
  }

  // One step of evaluation for the forms a path uses.

  lemma {:induction false} EvalMember<W(!new)>(e: Js, name: string, h: Host<W>, env: Env, s: Store, w: W)
    requires Evaluate(e, h, env, s, w).Val?
    ensures var r := Evaluate(e, h, env, s, w);
            Evaluate(JMember(e, name), h, env, s, w) == Done(GetProp(h, r.w, r.v, name), r.s)
  {
  }

  lemma {:induction false} EvalIfPresent<W(!new)>(test: Js, yes: Js, no: Js, h: Host<W>, env: Env, s: Store, w: W)
    requires Evaluate(test, h, env, s, w).Val?
    ensures var r := Evaluate(test, h, env, s, w);
            Evaluate(JIfPresent(test, yes, no), h, env, s, w) == Evaluate(if Nullish(r.v) then no else yes, h, env, r.s, r.w)
  {
  }

  lemma {:induction false} EvalAnd<W(!new)>(left: Js, right: Js, h: Host<W>, env: Env, s: Store, w: W)
    requires Evaluate(left, h, env, s, w).Val?
    ensures var r := Evaluate(left, h, env, s, w);
            Evaluate(JAnd(left, right), h, env, s, w) == if IsTrue(r.v) then Evaluate(right, h, env, r.s, r.w) else r
  {
  }

  lemma {:induction false} EvalTemp<W(!new)>(slot: nat, e: Js, h: Host<W>, env: Env, s: Store, w: W)
    requires Evaluate(e, h, env, s, w).Val?
    ensures var r := Evaluate(e, h, env, s, w);
            var t := r.s.(temps := r.s.temps[slot := r.v]);
            Evaluate(JSetTemp(slot, e), h, env, s, w) == Val(r.v, t, r.w)
            && Evaluate(JTemp(slot), h, env, t, r.w) == Val(r.v, t, r.w)
  {
  }

  lemma {:induction false} LinkFrom<W(!new)>(open: Js, value: Js, name: string, falsy: bool, v: Value,
                          h: Host<W>, env: Env, s: Store, t: Store, w: W)
    requires Evaluate(open, h, env, s, w) == Val(v, t, w) && Evaluate(value, h, env, t, w) == Val(v, t, w)
    ensures Evaluate(Link(name, falsy)(open, value), h, env, s, w) == Val(Walk(h, w, v, [name], falsy), t, w)
  {
    hide Evaluate;
    assert [name][1..] == [];
    EvalMember(value, name, h, env, t, w);
    if falsy {
      EvalAnd(open, JMember(value, name), h, env, s, w);
    } else {
      EvalIfPresent(open, JMember(value, name), value, h, env, s, w);
    }
  }

  lemma {:induction false} OneLink<W(!new)>(entry: Entry, name: string, falsy: bool, v: Value, slot: nat, h: Host<W>, env: Env, s: Store, w: W)
    requires Yields(entry, v, slot, h, env, s, w)
    ensures Yields(Replaced(entry, slot, Link(name, falsy)), Walk(h, w, v, [name], falsy), slot, h, env, s, w)
  {
    hide Walk, Link, Evaluate;
    match entry
    case Lit(e) =>
      assert Evaluate(e, h, env, s, w) == Val(v, s, w);
      LinkFrom(e, e, name, falsy, v, h, env, s, s, w);
    case Code(n) =>
      var r := Evaluate(n, h, env, s, w);
      var stored := r.s.(temps := r.s.temps[slot + 1 := v]);
      EvalTemp(slot + 1, n, h, env, s, w);
      LinkFrom(JSetTemp(slot + 1, n), JTemp(slot + 1), name, falsy, v, h, env, s, stored, w);
      assert Agree(s, stored, slot);
  }

  lemma {:induction false} LinksYield<W(!new)>(entry: Entry, parts: seq<string>, falsy: bool, v: Value, slot: nat,
                                               h: Host<W>, env: Env, s: Store, w: W)
    requires Yields(entry, v, slot, h, env, s, w)
    ensures Yields(LinksOn(entry, parts, falsy, slot), Walk(h, w, v, parts, falsy), slot, h, env, s, w)
    decreases parts
  {
    if parts != [] {
      hide Evaluate, Yields;
      OneLink(entry, parts[0], falsy, v, slot, h, env, s, w);
      WalkStep(h, w, v, parts, falsy);
      var next := Walk(h, w, v, [parts[0]], falsy);
      LinksYield(Replaced(entry, slot, Link(parts[0], falsy)), parts[1..], falsy, next, slot, h, env, s, w);
    }
  }

  lemma {:induction false} BasesYield<W(!new)>(p: Path, slot: nat, at: Setting<W>, s: Store, w: W)
    ensures forall place :: Yields(Code(JBlockParam(place)), BlockParamAt(at.env, place), slot, at.h, at.env, s, w)
    ensures Yields(Lit(JData(p.depth)), DataUp(at.h, w, at.env.data, p.depth), slot, at.h, at.env, s, w)
    ensures forall name :: Yields(Code(JDepthedLookup(name)), DepthedLookup(at.h, w, at.env.contexts, name), slot, at.h, at.env, s, w)
    ensures Yields(Lit(JContext(p.depth)), ContextAt(at.env, p.depth), slot, at.h, at.env, s, w)
  {
  }

  /** Although every step of a path assigns and reads the same temporary, the path's value is the null-safe walk. */
  lemma {:induction false} PathYields<W(!new)>(p: Path, falsy: bool, strict: bool, slot: nat, cfg: Config, at: Setting<W>, s: Store, w: W)
    requires Plain(at.o) && cfg.opts == at.o
    requires DepthsDeclared(PathOps(p, falsy, strict, at.scope), cfg)
    ensures Yields(PathEntry(p, falsy, strict, slot, at.scope, cfg), PathValue(p, falsy, at, w), slot, at.h, at.env, s, w)
  {
    hide Evaluate, Yields, Walk, LinksOn;
    BasesYield(p, slot, at, s, w);
    assert PathOps(p, falsy, strict, at.scope)[0] == GetContext(p.depth);
    assert ContextName(p.depth, cfg) == JContext(p.depth) by {
      if !cfg.useDepths {
        assert !DeepContext(GetContext(p.depth));
      }
    }
    match BlockParamOf(p, at.scope)
    case Some(place) =>
      LinksYield(Code(JBlockParam(place)), p.parts[1..], false, BlockParamAt(at.env, place), slot, at.h, at.env, s, w);
    case None =>
      if Named(p) {
        if p.data {
          LinksYield(Lit(JData(p.depth)), p.parts[0..], true, DataUp(at.h, w, at.env.data, p.depth), slot, at.h, at.env, s, w);
          assert p.parts[0..] == p.parts;
        } else if !p.scoped && cfg.opts.compat && p.depth == 0 {
          LinksYield(Code(JDepthedLookup(p.parts[0])), p.parts[1..], falsy,
                     DepthedLookup(at.h, w, at.env.contexts, p.parts[0]), slot, at.h, at.env, s, w);
        } else {
          LinksYield(Lit(JContext(p.depth)), p.parts[0..], falsy, ContextAt(at.env, p.depth), slot, at.h, at.env, s, w);
          assert p.parts[0..] == p.parts;
        }
      }
  }

  lemma {:induction false} LinksNoLiteral(entry: Entry, parts: seq<string>, falsy: bool, slot: nat)
    requires !entry.e.JLiteral?
    ensures !LinksOn(entry, parts, falsy, slot).e.JLiteral?
    decreases parts
  {
    if parts != [] {
      LinksNoLiteral(Replaced(entry, slot, Link(parts[0], falsy)), parts[1..], falsy, slot);
    }
  }

  lemma PathNoLiteral(p: Path, falsy: bool, strict: bool, slot: nat, scope: Scope, cfg: Config)
    requires Plain(cfg.opts)
    ensures !PathEntry(p, falsy, strict, slot, scope, cfg).e.JLiteral?
  {
    match BlockParamOf(p, scope)
    case Some(at) => LinksNoLiteral(Code(JBlockParam(at)), p.parts[1..], false, slot);
    case None =>
      if Named(p) {
        LinksNoLiteral(Lit(JData(p.depth)), p.parts[0..], true, slot);
        LinksNoLiteral(Code(JDepthedLookup(p.parts[0])), p.parts[1..], falsy, slot);
        LinksNoLiteral(Lit(ContextName(p.depth, cfg)), p.parts[0..], falsy, slot);
      }
  }

  /** Only the literal undefined is generated as the text undefined. */
  lemma {:induction false} UndefinedText(e: Expr, slot: nat, scope: Scope, cfg: Config)
    requires Plain(cfg.opts)
    ensures ExprEntry(e, slot, scope, cfg).e == JLiteral(UndefinedLit) <==> e == UndefinedLit
  {
    hide PathEntry, TakeArguments, SetupEntries;
    match e
    case PathExpr(p) => PathNoLiteral(p, false, false, slot, scope, cfg);
    case SubExpr(c) =>
      if Classify(c.path, true, cfg.opts, scope) == HelperKind {
        assert HelperCode(c, None, None, slot, scope, cfg).JInvoke?;
      }
      assert !CallCode(c, true, slot, scope, cfg).JLiteral?;
    case _ =>
  }

  // ----- arguments in the standard mode -----

  function Codes(params: seq<Expr>, slot: nat, scope: Scope, cfg: Config): (r: seq<Js>)
    requires Plain(cfg.opts)
    ensures |r| == |params|
  {
    if params == [] then [] else [ExprEntry(params[0], slot, scope, cfg).e] + Codes(params[1..], slot, scope, cfg)
  }

  function EntryCodes(seg: seq<Entry>): seq<Js> {
    seq(|seg|, i requires 0 <= i < |seg| => seg[i].e)
  }

  lemma {:induction false} TakePlainParams(seg: seq<Entry>, count: nat, o: Options)
    requires Plain(o) && |seg| == count
    ensures TakeParams(seg, count, o).values == EntryCodes(seg)
    decreases count
  {
    if count > 0 {
      TakePlainParams(seg[..count - 1], count - 1, o);
      assert EntryCodes(seg) == EntryCodes(seg[..count - 1]) + [seg[count - 1].e];
    }
  }

  lemma {:induction false} ParamsCodes(params: seq<Expr>, slot: nat, scope: Scope, cfg: Config)
    requires Plain(cfg.opts)
    ensures EntryCodes(ParamsEntries(params, slot, scope, cfg)) == Codes(params, slot, scope, cfg)
    decreases params
  {
    if params != [] {
      ParamsCodes(params[1..], slot, scope, cfg);
      var first := ExprEntry(params[0], slot, scope, cfg);
      var rest := ParamsEntries(params[1..], slot, scope, cfg);
      assert ParamsEntries(params, slot, scope, cfg) == [first] + rest;
      assert EntryCodes([first] + rest) == [first.e] + EntryCodes(rest);
    }
  }

  function ProgramCode(index: Option<nat>): Js {
    if index.Some? then JProgram(index.value) else JNoop
  }

  /** The properties of the options object after its name and hash. */
  function TailFields(main: Option<nat>, inverse: Option<nat>, o: Options): seq<Field> {
    (if main.Some? || inverse.Some? then [Field("fn", ProgramCode(main)), Field("inverse", ProgramCode(inverse))] else [])
    + (if o.data then [Field("data", JData(0))] else [])
  }

  function PlainFields(name: string, hash: Js, main: Option<nat>, inverse: Option<nat>, o: Options): seq<Field> {
    [Field("name", JText(name)), Field("hash", hash)] + TailFields(main, inverse, o)
  }

  function HashCode(hash: Hash, slot: nat, scope: Scope, cfg: Config): Js
    requires Plain(cfg.opts)
  {
    HashEntries(hash, false, slot, scope, cfg)[0].e
  }

  lemma {:induction false} PlainOptions(name: string, h: HashParts, p: Params, main: Option<nat>, inverse: Option<nat>, o: Options)
    requires Plain(o) && h.main == ProgramEntry(main).e && h.inverse == ProgramEntry(inverse).e
    ensures OptionFields(name, h, p, false, o) == PlainFields(name, h.hash, main, inverse, o)
  {
  }

  lemma {:induction false} PlainArguments(c: Sexpr, name: string, main: Option<nat>, inverse: Option<nat>, slot: nat, scope: Scope, cfg: Config)
    requires Plain(cfg.opts)
    ensures TakeArguments(SetupEntries(c, main, inverse, false, slot, scope, cfg), name, |c.params|, false, cfg.opts)
         == Arguments(Codes(c.params, slot, scope, cfg),
                      PlainFields(name, HashCode(c.hash, slot, scope, cfg), main, inverse, cfg.opts))
  {
    hide OptionFields, HashEntries, ProgramEntry;
    var o, count := cfg.opts, |c.params|;
    var params := ParamsEntries(c.params, slot, scope, cfg);
    var rest := [ProgramEntry(main), ProgramEntry(inverse)] + HashEntries(c.hash, false, slot, scope, cfg);
    var seg := SetupEntries(c, main, inverse, false, slot, scope, cfg);
    assert seg == params + rest;
    assert count * Width(o) == count;
    assert seg[..count] == params && seg[count..] == rest;
    TakePlainParams(params, count, o);
    ParamsCodes(c.params, slot, scope, cfg);
    PlainOptions(name, TakeHashParts(rest, o), TakeParams(params, count, o), main, inverse, o);
  }

  lemma EmptyArguments(name: string, main: Option<nat>, inverse: Option<nat>, o: Options)
    requires Plain(o)
    ensures TakeArguments([ProgramEntry(main), ProgramEntry(inverse)] + EmptyHashEntries(false, o), name, 0, false, o)
         == Arguments([], PlainFields(name, JObject([]), main, inverse, o))
  {
    hide OptionFields, ProgramEntry;
    var rest := [ProgramEntry(main), ProgramEntry(inverse)] + EmptyHashEntries(false, o);
    assert rest[..0] == [] && rest[0..] == rest;
    PlainOptions(name, TakeHashParts(rest, o), TakeParams([], 0, o), main, inverse, o);
  }

  lemma PlainKept(name: string, hash: Js, main: Option<nat>, inverse: Option<nat>, o: Options)
    requires hash != JLiteral(UndefinedLit)
    ensures Kept(PlainFields(name, hash, main, inverse, o)) == PlainFields(name, hash, main, inverse, o)
  {
    var fields := PlainFields(name, hash, main, inverse, o);
    AllKept(fields);
  }

  lemma {:induction false} AllKept(fields: seq<Field>)
    requires forall i :: 0 <= i < |fields| ==> fields[i].value != JLiteral(UndefinedLit)
    ensures Kept(fields) == fields
    decreases fields
  {
    if fields != [] {
      AllKept(fields[1..]);
    }
  }

  // ----- the hash literal -----

  function FieldsAt(order: seq<nat>, pairs: seq<HashPair>, slot: nat, scope: Scope, cfg: Config): (r: seq<Field>)
    requires Plain(cfg.opts) && forall k :: 0 <= k < |order| ==> order[k] < |pairs|
    ensures |r| == |order|
    ensures forall k :: 0 <= k < |r| ==>
      r[k] == Field(pairs[order[k]].key, ExprEntry(pairs[order[k]].value, slot, scope, cfg).e)
  {
    if order == [] then []
    else [Field(pairs[order[0]].key, ExprEntry(pairs[order[0]].value, slot, scope, cfg).e)]
         + FieldsAt(order[1..], pairs, slot, scope, cfg)
  }

  lemma {:induction false} PutIsJoin(order: seq<nat>, i: nat, pairs: seq<HashPair>, slot: nat, scope: Scope, cfg: Config)
    requires Plain(cfg.opts) && i < |pairs| && forall k :: 0 <= k < |order| ==> order[k] < |pairs|
    ensures Put(FieldsAt(order, pairs, slot, scope, cfg), pairs[i].key, ExprEntry(pairs[i].value, slot, scope, cfg).e)
         == FieldsAt(JoinIndex(order, i, pairs), pairs, slot, scope, cfg)
    decreases order
  {
    hide ExprEntry;
    var fields := FieldsAt(order, pairs, slot, scope, cfg);
    if order != [] && pairs[order[0]].key != pairs[i].key {
      PutIsJoin(order[1..], i, pairs, slot, scope, cfg);
      assert fields[1..] == FieldsAt(order[1..], pairs, slot, scope, cfg);
      if k :| 0 <= k < |fields| && fields[k].name == pairs[i].key {
        assert pairs[order[k]].key == pairs[i].key;
      }
      if k :| 0 <= k < |order| && pairs[order[k]].key == pairs[i].key {
        assert fields[k].name == pairs[i].key;
      }
    }
  }

  lemma {:induction false} KeptIsDefined(order: seq<nat>, pairs: seq<HashPair>, slot: nat, scope: Scope, cfg: Config)
    requires Plain(cfg.opts) && forall k :: 0 <= k < |order| ==> order[k] < |pairs|
    ensures Kept(FieldsAt(order, pairs, slot, scope, cfg)) == FieldsAt(Defined(order, pairs), pairs, slot, scope, cfg)
    decreases order
  {
    hide ExprEntry;
    if order != [] {
      UndefinedText(pairs[order[0]].value, slot, scope, cfg);
      KeptIsDefined(order[1..], pairs, slot, scope, cfg);
    }
  }

  lemma {:induction false} PairsEntry(pairs: seq<HashPair>, i: nat, slot: nat, scope: Scope, cfg: Config)
    requires Plain(cfg.opts) && i < |pairs|
    ensures |PairsEntries(pairs, slot, scope, cfg)| == |pairs|
    ensures PairsEntries(pairs, slot, scope, cfg)[i] == ExprEntry(pairs[i].value, slot, scope, cfg)
    decreases pairs
  {
    if i > 0 {
      PairsEntry(pairs[1..], i - 1, slot, scope, cfg);
    }
  }

  lemma {:induction false} AssignedValues(pairs: seq<HashPair>, from: nat, slot: nat, scope: Scope, cfg: Config)
    requires Plain(cfg.opts) && from <= |pairs|
    ensures |PairsEntries(pairs, slot, scope, cfg)| == |pairs| * Width(cfg.opts)
    ensures |pairs| * Width(cfg.opts) == |pairs|
    ensures Assigned(pairs[from..], PairsEntries(pairs, slot, scope, cfg)[from..], cfg.opts).values
         == FieldsAt(HashOrder(pairs, from), pairs, slot, scope, cfg)
    decreases |pairs| - from
  {
    hide ExprEntry, Put;
    if from < |pairs| {
      AssignedValues(pairs, from + 1, slot, scope, cfg);
      PairsEntry(pairs, from, slot, scope, cfg);
      var seg := PairsEntries(pairs, slot, scope, cfg);
      assert pairs[from..][1..] == pairs[from + 1..] && seg[from..][1..] == seg[from + 1..];
      assert Width(cfg.opts) == 1;
      assert At(seg[from..][..1], 0) == seg[from].e;
      PutIsJoin(HashOrder(pairs, from + 1), from, pairs, slot, scope, cfg);
    }
  }

  lemma {:induction false} HashFields(pairs: seq<HashPair>, slot: nat, scope: Scope, cfg: Config)
    requires Plain(cfg.opts)
    ensures HashCode(Pairs(pairs), slot, scope, cfg)
         == JObject(FieldsAt(Defined(HashOrder(pairs, 0), pairs), pairs, slot, scope, cfg))
  {
    AssignedValues(pairs, 0, slot, scope, cfg);
    var seg := PairsEntries(pairs, slot, scope, cfg);
    assert pairs[0..] == pairs && seg[0..] == seg;
    KeptIsDefined(HashOrder(pairs, 0), pairs, slot, scope, cfg);
  }

  lemma {:induction false} ZipFields(order: seq<nat>, pairs: seq<HashPair>, vs: seq<Value>, slot: nat, scope: Scope, cfg: Config)
    requires Plain(cfg.opts) && |order| == |vs| && forall k :: 0 <= k < |order| ==> order[k] < |pairs|
    ensures Zip(FieldsAt(order, pairs, slot, scope, cfg), vs) == KeyedValues(order, pairs, vs)
    decreases order
  {
    hide ExprEntry;
    if order != [] {
      ZipFields(order[1..], pairs, vs[1..], slot, scope, cfg);
    }
  }

  // ----- calls -----

  lemma {:induction false} EvalOr<W(!new)>(left: Js, right: Js, h: Host<W>, env: Env, s: Store, w: W)
    ensures var r := Evaluate(left, h, env, s, w);
            Evaluate(JOr(left, right), h, env, s, w)
            == if r.Thrown? || IsTrue(r.v) then r else Evaluate(right, h, env, r.s, r.w)
  {
    hide GetProp, DataUp, DepthedLookup, LambdaOf, EvaluateAll, EvaluateFields, LiteralValue, Zip, Done;
  }

  lemma {:induction false} EvalHelper<W(!new)>(name: string, h: Host<W>, env: Env, s: Store, w: W)
    ensures Evaluate(Helper(name), h, env, s, w) == Done(GetProp(h, w, env.helpers, name), s)
  {
    assert Evaluate(JHelpers, h, env, s, w) == Val(env.helpers, s, w);
  }

  lemma {:induction false} EvalLambda<W(!new)>(e: Js, h: Host<W>, env: Env, s: Store, w: W)
    requires Evaluate(e, h, env, s, w).Val?
    ensures var r := Evaluate(e, h, env, s, w);
            Evaluate(JLambda(e), h, env, s, w) == Done(LambdaOf(h, env, r.v, r.w), r.s)
  {
  }

  lemma {:induction false} EvalObject<W(!new)>(fields: seq<Field>, h: Host<W>, env: Env, s: Store, w: W)
    ensures var a := EvaluateFields(fields, h, env, s, w);
            Evaluate(JObject(fields), h, env, s, w)
            == if a.ThrownIn? then Thrown(a.w) else Val(Record(Zip(fields, a.vs)), a.s, a.w)
  {
  }

  /** A call on `this`, with the callee already known to be a value. */
  lemma {:induction false} EvalInvoke<W(!new)>(callee: Js, self: Js, args: seq<Js>, this_: Value, h: Host<W>, env: Env, s: Store, w: W)
    requires forall t, x :: Evaluate(self, h, env, t, x) == Val(this_, t, x)
    ensures var f := Evaluate(callee, h, env, s, w);
            Evaluate(JInvoke(callee, self, args), h, env, s, w) ==
            if f.Thrown? then f
            else if Nullish(f.v) then Thrown(f.w)
            else
              var a := EvaluateAll(args, h, env, f.s, f.w);
              if a.ThrownIn? then Thrown(a.w) else Done(h.call(a.w, f.v, this_, a.vs), a.s)
  {
    var f := Evaluate(callee, h, env, s, w);
    if f.Val? {
      assert Evaluate(self, h, env, f.s, f.w) == Val(this_, f.s, f.w);
    }
  }

  lemma {:induction false} EvalAllSnoc<W(!new)>(es: seq<Js>, last: Js, h: Host<W>, env: Env, s: Store, w: W)
    ensures EvaluateAll(es + [last], h, env, s, w) ==
            var a := EvaluateAll(es, h, env, s, w);
            if a.ThrownIn? then a
            else
              var r := Evaluate(last, h, env, a.s, a.w);
              if r.Thrown? then ThrownIn(r.w) else Vals(a.vs + [r.v], r.s, r.w)
    decreases es
  {
    hide Evaluate;
    if es == [] {
      assert es + [last] == [last] && [last][1..] == [];
    } else {
      assert (es + [last])[0] == es[0] && (es + [last])[1..] == es[1..] + [last];
      var first := Evaluate(es[0], h, env, s, w);
      if first.Val? {
        EvalAllSnoc(es[1..], last, h, env, first.s, first.w);
      }
    }
  }

  predicate Enabled<W>(cfg: Config, at: Setting<W>) {
    Plain(at.o) && cfg.opts == at.o
  }

  ghost predicate Gives<W(!new)>(r: Eval<W>, o: Outcome<W>, s: Store, slot: nat) {
    match o
    case Threw(w) => r == Thrown(w)
    case Returned(v, w) => r.Val? && r.v == v && r.w == w && Agree(s, r.s, slot)
  }

  function CalleeCode(c: Sexpr, slot: nat, scope: Scope, cfg: Config): Js {
    var path := PathEntry(c.path, true, true, slot, scope, cfg).e;
    if IsKnown(c.path, cfg.opts) then Helper(c.path.parts[0])
    else JOr(if SimpleId(c.path) then JOr(Helper(c.path.original), path) else path, Helper("helperMissing"))
  }

  lemma {:induction false} CalleeGives<W(!new)>(c: Sexpr, slot: nat, cfg: Config, at: Setting<W>, s: Store, w: W)
    requires Enabled(cfg, at) && DepthsDeclared(InvokeOps(c, at.o, at.scope), cfg)
    ensures Gives(Evaluate(CalleeCode(c, slot, at.scope, cfg), at.h, at.env, s, w), CalleeMeaning(c, at, w), s, slot)
  {
    hide Evaluate, PathEntry, PathValue, PathOps;
    var (h, env) := (at.h, at.env);
    if IsKnown(c.path, at.o) {
      EvalHelper(c.path.parts[0], h, env, s, w);
    } else {
      PathYields(c.path, true, true, slot, cfg, at, s, w);
      var path := PathEntry(c.path, true, true, slot, at.scope, cfg).e;
      var missing := Helper("helperMissing");
      if SimpleId(c.path) {
        EvalHelper(c.path.original, h, env, s, w);
        EvalOr(Helper(c.path.original), path, h, env, s, w);
        EvalOr(JOr(Helper(c.path.original), path), missing, h, env, s, w);
      } else {
        EvalOr(path, missing, h, env, s, w);
      }
      EvalHelper("helperMissing", h, env, Evaluate(path, h, env, s, w).s, w);
    }
  }

  function TailValues(main: Option<nat>, inverse: Option<nat>, o: Options, env: Env): (r: seq<Value>)
    ensures |r| == |TailFields(main, inverse, o)|
  {
    (if main.Some? || inverse.Some? then [ProgramValue(main), ProgramValue(inverse)] else [])
    + (if o.data then [env.data] else [])
  }

  lemma {:induction false} ZipCons(f: Field, fs: seq<Field>, v: Value, vs: seq<Value>)
    requires |fs| == |vs|
    ensures Zip([f] + fs, [v] + vs) == [(f.name, v)] + Zip(fs, vs)
  {
    assert ([f] + fs)[1..] == fs && ([v] + vs)[1..] == vs;
  }

  function TailPairs(main: Option<nat>, inverse: Option<nat>, o: Options, env: Env): seq<(string, Value)> {
    (if main.Some? || inverse.Some? then [("fn", ProgramValue(main)), ("inverse", ProgramValue(inverse))] else [])
    + (if o.data then [("data", env.data)] else [])
  }

  lemma {:induction false} ZipTail(main: Option<nat>, inverse: Option<nat>, o: Options, env: Env)
    ensures Zip(TailFields(main, inverse, o), TailValues(main, inverse, o, env)) == TailPairs(main, inverse, o, env)
  {
    hide ProgramCode, ProgramValue;
    var data := if o.data then [Field("data", JData(0))] else [];
    var dataValue := if o.data then [env.data] else [];
    var dataPair := if o.data then [("data", env.data)] else [];
    var fn, inv := Field("fn", ProgramCode(main)), Field("inverse", ProgramCode(inverse));
    assert Zip([], []) == [];
    if o.data {
      ZipCons(data[0], [], env.data, []);
      assert [data[0]] + [] == data && [env.data] + [] == dataValue;
    }
    assert Zip(data, dataValue) == dataPair;
    if main.Some? || inverse.Some? {
      ZipCons(inv, data, ProgramValue(inverse), dataValue);
      ZipCons(fn, [inv] + data, ProgramValue(main), [ProgramValue(inverse)] + dataValue);
      assert [fn] + ([inv] + data) == [fn, inv] + data;
      assert [ProgramValue(main)] + ([ProgramValue(inverse)] + dataValue) == [ProgramValue(main), ProgramValue(inverse)] + dataValue;
    } else {
      assert [] + data == data && [] + dataValue == dataValue;
    }
  }

  lemma {:induction false} ZipOptions(name: string, hash: Js, v: Value, main: Option<nat>, inverse: Option<nat>, o: Options, env: Env)
    ensures var vs := [Str(name)] + ([v] + TailValues(main, inverse, o, env));
            |vs| == |PlainFields(name, hash, main, inverse, o)|
            && Record(Zip(PlainFields(name, hash, main, inverse, o), vs)) == OptionsValue(name, v, main, inverse, o, env)
  {
    hide TailFields, TailValues, Zip;
    var tail, values := TailFields(main, inverse, o), TailValues(main, inverse, o, env);
    ZipTail(main, inverse, o, env);
    ZipCons(Field("hash", hash), tail, v, values);
    ZipCons(Field("name", JText(name)), [Field("hash", hash)] + tail, Str(name), [v] + values);
    assert PlainFields(name, hash, main, inverse, o) == [Field("name", JText(name))] + ([Field("hash", hash)] + tail);
    var pairs := TailPairs(main, inverse, o, env);
    assert OptionsValue(name, v, main, inverse, o, env) == Record([("name", Str(name)), ("hash", v)] + pairs) by {
      hide ProgramValue;
      assert OptionsValue(name, v, main, inverse, o, env).fields == [("name", Str(name)), ("hash", v)] + pairs;
    }
    assert [("name", Str(name))] + ([("hash", v)] + pairs) == [("name", Str(name)), ("hash", v)] + pairs;
  }

  /** The options object: only its hash computes anything. */
  lemma {:induction false} OptionsCompute<W(!new)>(name: string, hash: Js, m: Meaning<W>, main: Option<nat>, inverse: Option<nat>,
                                slot: nat, o: Options, h: Host<W>, env: Env, s: Store, w: W)
    requires Computes(Evaluate(hash, h, env, s, w), m, s, slot)
    ensures Computes(Evaluate(JObject(PlainFields(name, hash, main, inverse, o)), h, env, s, w),
                     if m.Fails? then m else Means([OptionsValue(name, m.vs[0], main, inverse, o, env)], m.w), s, slot)
  {
    hide Evaluate, TailFields, TailValues, OptionsValue;
    var nameField, hashField, tail := Field("name", JText(name)), Field("hash", hash), TailFields(main, inverse, o);
    var fields := PlainFields(name, hash, main, inverse, o);
    assert fields == [nameField] + ([hashField] + tail);
    EvalObject(fields, h, env, s, w);
    EvalText(name, h, env, s, w);
    ConstantField(nameField, Str(name), [hashField] + tail, h, env, s, w);
    EvalFieldsCons(hashField, tail, h, env, s, w);
    if m.Means? {
      TailCompute(main, inverse, o, h, env, Evaluate(hash, h, env, s, w).s, m.w);
      ZipOptions(name, hash, m.vs[0], main, inverse, o, env);
    }
  }

  lemma {:induction false} EvalText<W(!new)>(text: string, h: Host<W>, env: Env, s: Store, w: W)
    ensures Evaluate(JText(text), h, env, s, w) == Val(Str(text), s, w)
  {
  }

  lemma {:induction false} EvalFieldsCons<W(!new)>(first: Field, rest: seq<Field>, h: Host<W>, env: Env, s: Store, w: W)
    ensures EvaluateFields([first] + rest, h, env, s, w) ==
            var r := Evaluate(first.value, h, env, s, w);
            if r.Thrown? then ThrownIn(r.w)
            else
              var a := EvaluateFields(rest, h, env, r.s, r.w);
              if a.ThrownIn? then a else Vals([r.v] + a.vs, a.s, a.w)
  {
    hide Evaluate;
    assert ([first] + rest)[1..] == rest;
  }

  lemma {:induction false} ConstantField<W(!new)>(first: Field, v: Value, rest: seq<Field>, h: Host<W>, env: Env, s: Store, w: W)
    requires Evaluate(first.value, h, env, s, w) == Val(v, s, w)
    ensures EvaluateFields([first] + rest, h, env, s, w) ==
            var a := EvaluateFields(rest, h, env, s, w);
            if a.ThrownIn? then a else Vals([v] + a.vs, a.s, a.w)
  {
    EvalFieldsCons(first, rest, h, env, s, w);
  }

  lemma {:induction false} TailCompute<W(!new)>(main: Option<nat>, inverse: Option<nat>, o: Options, h: Host<W>, env: Env, s: Store, w: W)
    ensures EvaluateFields(TailFields(main, inverse, o), h, env, s, w) == Vals(TailValues(main, inverse, o, env), s, w)
  {
    hide Evaluate;
    var data := if o.data then [Field("data", JData(0))] else [];
    assert EvaluateFields([], h, env, s, w) == Vals([], s, w);
    Constants(main, inverse, h, env, s, w);
    if o.data {
      ConstantField(Field("data", JData(0)), env.data, [], h, env, s, w);
      assert data == [Field("data", JData(0))] + [];
    }
    if main.Some? || inverse.Some? {
      var fn, inv := Field("fn", ProgramCode(main)), Field("inverse", ProgramCode(inverse));
      ConstantField(inv, ProgramValue(inverse), data, h, env, s, w);
      ConstantField(fn, ProgramValue(main), [inv] + data, h, env, s, w);
      assert TailFields(main, inverse, o) == [fn] + ([inv] + data);
    } else {
      assert TailFields(main, inverse, o) == data;
    }
  }

  lemma {:induction false} Constants<W(!new)>(main: Option<nat>, inverse: Option<nat>, h: Host<W>, env: Env, s: Store, w: W)
    ensures Evaluate(JData(0), h, env, s, w) == Val(env.data, s, w)
    ensures Evaluate(ProgramCode(main), h, env, s, w) == Val(ProgramValue(main), s, w)
    ensures Evaluate(ProgramCode(inverse), h, env, s, w) == Val(ProgramValue(inverse), s, w)
  {
    hide GetProp, DepthedLookup, LambdaOf, EvaluateAll, EvaluateFields, LiteralValue, Zip, Done;
  }

  // ----- the main induction -----

  lemma {:induction false} ParamsDeclare(params: seq<Expr>, o: Options, scope: Scope, cfg: Config)
    requires Plain(o) && params != [] && DepthsDeclared(ParamsOps(params, o, scope), cfg)
    ensures DepthsDeclared(ExprOps(params[0], o, scope), cfg) && DepthsDeclared(ParamsOps(params[1..], o, scope), cfg)
  {
    assert ParamsOps(params, o, scope) == ExprOps(params[0], o, scope) + ParamsOps(params[1..], o, scope);
  }

  lemma {:induction false} PairsDeclare(pairs: seq<HashPair>, i: nat, o: Options, scope: Scope, cfg: Config)
    requires Plain(o) && i < |pairs| && DepthsDeclared(PairsOps(pairs, o, scope), cfg)
    ensures DepthsDeclared(ExprOps(pairs[i].value, o, scope), cfg)
    decreases pairs
  {
    assert PairsOps(pairs, o, scope) == ExprOps(pairs[0].value, o, scope) + PairsOps(pairs[1..], o, scope);
    if i > 0 {
      PairsDeclare(pairs[1..], i - 1, o, scope, cfg);
    }
  }

  lemma {:induction false} PairsDeclared(pairs: seq<HashPair>, o: Options, scope: Scope, cfg: Config)
    requires DepthsDeclared(HashOps(Pairs(pairs), false, o, scope), cfg)
    ensures DepthsDeclared(PairsOps(pairs, o, scope), cfg)
  {
    hide PairsOps, AssignOps;
  }

  lemma {:induction false} HelperDeclares(c: Sexpr, main: Option<nat>, inverse: Option<nat>, o: Options, scope: Scope, cfg: Config)
    requires Plain(o) && DepthsDeclared(HelperOps(c, main, inverse, o, scope), cfg)
    ensures DepthsDeclared(ParamsOps(c.params, o, scope), cfg) && DepthsDeclared(HashOps(c.hash, false, o, scope), cfg)
    ensures DepthsDeclared(InvokeOps(c, o, scope), cfg)
  {
    hide ParamsOps, HashOps, InvokeOps;
    assert HelperOps(c, main, inverse, o, scope)
        == ParamsOps(c.params, o, scope) + [PushProgram(main), PushProgram(inverse)] + HashOps(c.hash, false, o, scope)
           + InvokeOps(c, o, scope);
  }

  lemma {:induction false} YieldsMeaning<W(!new)>(entry: Entry, v: Value, slot: nat, h: Host<W>, env: Env, s: Store, w: W)
    requires Yields(entry, v, slot, h, env, s, w)
    ensures Computes(Evaluate(entry.e, h, env, s, w), Means([v], w), s, slot)
  {
  }

  lemma {:induction false} EvalLiteral<W(!new)>(e: Expr, h: Host<W>, env: Env, s: Store, w: W)
    requires !e.PathExpr? && !e.SubExpr?
    ensures Evaluate(LiteralEntry(e).e, h, env, s, w) == Val(LiteralValue(e), s, w)
  {
  }

  /**
   The JavaScript generated for an expression computes the meaning of the expression: the same value,
   the same changes of the world in the same order, the same failures, and no temporary below it disturbed.
   */
  lemma {:induction false} ExprComputes<W(!new)>(e: Expr, slot: nat, cfg: Config, at: Setting<W>, s: Store, w: W)
    requires Enabled(cfg, at) && DepthsDeclared(ExprOps(e, at.o, at.scope), cfg)
    ensures Computes(Evaluate(ExprEntry(e, slot, at.scope, cfg).e, at.h, at.env, s, w), ExprMeaning(e, at, w), s, slot)
    decreases e, 0
  {
    hide Evaluate, PathEntry, PathValue, HelperMeaning, SimpleMeaning, HelperCode, SimpleCode, HelperOps, PathOps;
    match e
    case PathExpr(p) =>
      PathYields(p, false, false, slot, cfg, at, s, w);
      YieldsMeaning(PathEntry(p, false, false, slot, at.scope, cfg), PathValue(p, false, at, w), slot, at.h, at.env, s, w);
    case SubExpr(c) =>
      if Classify(c.path, true, at.o, at.scope) == HelperKind {
        HelperComputes(c, None, None, slot, cfg, at, s, w);
      } else {
        SimpleComputes(c, slot, cfg, at, s, w);
      }
    case _ => EvalLiteral(e, at.h, at.env, s, w);
  }

  lemma {:induction false} ParamsCompute<W(!new)>(params: seq<Expr>, slot: nat, cfg: Config, at: Setting<W>, s: Store, w: W)
    requires Enabled(cfg, at) && DepthsDeclared(ParamsOps(params, at.o, at.scope), cfg)
    ensures ComputesAll(EvaluateAll(Codes(params, slot, at.scope, cfg), at.h, at.env, s, w), ParamsMeaning(params, at, w), s, slot)
    decreases params, 0
  {
    hide Evaluate, ExprEntry, ExprMeaning;
    if params != [] {
      var codes := Codes(params, slot, at.scope, cfg);
      ParamsDeclare(params, at.o, at.scope, cfg);
      ExprComputes(params[0], slot, cfg, at, s, w);
      assert codes[1..] == Codes(params[1..], slot, at.scope, cfg);
      var first := ExprMeaning(params[0], at, w);
      if first.Means? {
        ParamsCompute(params[1..], slot, cfg, at, Evaluate(codes[0], at.h, at.env, s, w).s, first.w);
        assert first.vs == [first.vs[0]];
      }
    }
  }

  lemma {:induction false} PairsCompute<W(!new)>(order: seq<nat>, pairs: seq<HashPair>, slot: nat, cfg: Config, at: Setting<W>, s: Store, w: W)
    requires Enabled(cfg, at) && DepthsDeclared(PairsOps(pairs, at.o, at.scope), cfg)
    requires forall k :: 0 <= k < |order| ==> order[k] < |pairs|
    ensures ComputesAll(EvaluateFields(FieldsAt(order, pairs, slot, at.scope, cfg), at.h, at.env, s, w),
                        PairsMeaning(order, pairs, at, w), s, slot)
    decreases pairs, 0, |order|
  {
    hide Evaluate, ExprEntry, ExprMeaning;
    if order != [] {
      var fields := FieldsAt(order, pairs, slot, at.scope, cfg);
      PairsDeclare(pairs, order[0], at.o, at.scope, cfg);
      ExprComputes(pairs[order[0]].value, slot, cfg, at, s, w);
      assert fields[1..] == FieldsAt(order[1..], pairs, slot, at.scope, cfg);
      var first := ExprMeaning(pairs[order[0]].value, at, w);
      if first.Means? {
        PairsCompute(order[1..], pairs, slot, cfg, at, Evaluate(fields[0].value, at.h, at.env, s, w).s, first.w);
        assert first.vs == [first.vs[0]];
      }
    }
  }

  lemma {:induction false} HashComputes<W(!new)>(hash: Hash, slot: nat, cfg: Config, at: Setting<W>, s: Store, w: W)
    requires Enabled(cfg, at) && DepthsDeclared(HashOps(hash, false, at.o, at.scope), cfg)
    ensures Computes(Evaluate(HashCode(hash, slot, at.scope, cfg), at.h, at.env, s, w), HashMeaning(hash, at, w), s, slot)
    decreases hash, 0
  {
    hide Evaluate, PairsMeaning, HashOrder, Defined, FieldsAt, KeyedValues, Zip, PairsOps, AssignOps, EvaluateFields;
    match hash
    case NoHash => EvalEmptyObject(at.h, at.env, s, w);
    case Pairs(pairs) =>
      var order := Defined(HashOrder(pairs, 0), pairs);
      var fields := FieldsAt(order, pairs, slot, at.scope, cfg);
      PairsDeclared(pairs, at.o, at.scope, cfg);
      HashFields(pairs, slot, at.scope, cfg);
      EvalObject(fields, at.h, at.env, s, w);
      PairsCompute(order, pairs, slot, cfg, at, s, w);
      var m := PairsMeaning(order, pairs, at, w);
      if m.Means? {
        ZipFields(order, pairs, m.vs, slot, at.scope, cfg);
      }
  }

  lemma {:induction false} EvalEmptyObject<W(!new)>(h: Host<W>, env: Env, s: Store, w: W)
    ensures Evaluate(JObject([]), h, env, s, w) == Val(Record([]), s, w)
  {
    assert Zip([], []) == [];
  }

  lemma {:induction false} EvalThis<W(!new)>(h: Host<W>, env: Env)
    ensures forall t, x :: Evaluate(JThis, h, env, t, x) == Val(Self(env), t, x)
  {
  }

  lemma {:induction false} HelperShape(c: Sexpr, main: Option<nat>, inverse: Option<nat>, slot: nat, scope: Scope, cfg: Config)
    requires Plain(cfg.opts)
    ensures HelperCode(c, main, inverse, slot, scope, cfg) ==
            JInvoke(CalleeCode(c, slot, scope, cfg), JThis,
                    Codes(c.params, slot, scope, cfg)
                    + [JObject(PlainFields(HelperName(c, cfg.opts), HashCode(c.hash, slot, scope, cfg), main, inverse, cfg.opts))])
  {
    hide TakeArguments, SetupEntries, Codes, PlainFields, HashCode, PathEntry, Kept;
    var name, hash := HelperName(c, cfg.opts), HashCode(c.hash, slot, scope, cfg);
    PlainArguments(c, name, main, inverse, slot, scope, cfg);
    HashNotText(c.hash, slot, scope, cfg);
    PlainKept(name, hash, main, inverse, cfg.opts);
  }

  lemma {:induction false} HashNotText(hash: Hash, slot: nat, scope: Scope, cfg: Config)
    requires Plain(cfg.opts)
    ensures HashCode(hash, slot, scope, cfg) != JLiteral(UndefinedLit)
  {
  }

  lemma {:induction false} HelperComputes<W(!new)>(c: Sexpr, main: Option<nat>, inverse: Option<nat>, slot: nat, cfg: Config,
                                                   at: Setting<W>, s: Store, w: W)
    requires Enabled(cfg, at) && DepthsDeclared(HelperOps(c, main, inverse, at.o, at.scope), cfg)
    ensures Computes(Evaluate(HelperCode(c, main, inverse, slot, at.scope, cfg), at.h, at.env, s, w),
                     HelperMeaning(c, main, inverse, at, w), s, slot)
    decreases c, 1
  {
    hide Evaluate, HelperCode, HelperOps, CalleeCode, CalleeMeaning, Codes, PlainFields, HashCode, ParamsMeaning, HashMeaning,
         OptionsValue;
    var (h, env) := (at.h, at.env);
    var name := HelperName(c, at.o);
    var callee, codes := CalleeCode(c, slot, at.scope, cfg), Codes(c.params, slot, at.scope, cfg);
    var options := JObject(PlainFields(name, HashCode(c.hash, slot, at.scope, cfg), main, inverse, at.o));
    HelperShape(c, main, inverse, slot, at.scope, cfg);
    HelperDeclares(c, main, inverse, at.o, at.scope, cfg);
    EvalThis(h, env);
    EvalInvoke(callee, JThis, codes + [options], Self(env), h, env, s, w);
    CalleeGives(c, slot, cfg, at, s, w);
    var found := CalleeMeaning(c, at, w);
    CalleeWorld(c, at, w);
    if found.Returned? && !Nullish(found.value) {
      var t := Evaluate(callee, h, env, s, w).s;
      EvalAllSnoc(codes, options, h, env, t, w);
      ParamsCompute(c.params, slot, cfg, at, t, w);
      var params := ParamsMeaning(c.params, at, w);
      if params.Means? {
        var t2 := EvaluateAll(codes, h, env, t, w).s;
        HashComputes(c.hash, slot, cfg, at, t2, params.w);
        OptionsCompute(name, HashCode(c.hash, slot, at.scope, cfg), HashMeaning(c.hash, at, params.w), main, inverse,
                       slot, at.o, h, env, t2, params.w);
      }
    }
  }

  lemma CalleeWorld<W(!new)>(c: Sexpr, at: Setting<W>, w: W)
    ensures CalleeMeaning(c, at, w).w == w
  {
  }

  lemma {:induction false} SimpleComputes<W(!new)>(c: Sexpr, slot: nat, cfg: Config, at: Setting<W>, s: Store, w: W)
    requires Enabled(cfg, at) && DepthsDeclared(SimpleOps(c, at.scope), cfg)
    ensures Computes(Evaluate(SimpleCode(c, slot, at.scope, cfg), at.h, at.env, s, w), SimpleMeaning(c, at, w), s, slot)
  {
    hide Evaluate, PathEntry, PathValue, PathOps;
    PathYields(c.path, false, true, slot, cfg, at, s, w);
    EvalLambda(PathEntry(c.path, false, true, slot, at.scope, cfg).e, at.h, at.env, s, w);
  }
}
