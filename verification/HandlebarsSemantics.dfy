/**
 What generated JavaScript computes, and, independently, what a Handlebars expression means.
 Lookups and calls go to a host that the template cannot see into; every call may change the host's world.
 */
module HandlebarsSemantics {
  import opened Wrappers
  import opened HandlebarsAst
  import opened HandlebarsOpcodes
  import opened HandlebarsMachine

  datatype Value =
    | Undefined
    | Null
    | Bool(b: bool)
    | Num(n: int)
    | Str(s: string)
    | Object(id: nat)                        // any object or function of the host
    | Record(fields: seq<(string, Value)>)   // an object literal of the template
    | List(items: seq<Value>)
    | Template(index: nat)                   // the nested program with that number
    | Noop

  datatype Outcome<W> = Threw(w: W) | Returned(value: Value, w: W)

  datatype Host<!W> = Host(
    get: (W, Value, string) -> Value,
    has: (W, Value, string) -> bool,
    call: (W, Value, Value, seq<Value>) -> Outcome<W>,
    partial: (W, seq<Value>) -> Outcome<W>,
    isFunction: Value -> bool,
    escape: Value -> string)

  /** The variables of a compiled function; contexts[0] is depth0. */
  datatype Env = Env(contexts: seq<Value>, data: Value, helpers: Value, partials: Value, decorators: Value,
                     blockParams: seq<seq<Value>>)

  predicate Nullish(v: Value) {
    v.Undefined? || v.Null?
  }

  predicate IsTrue(v: Value) {
    !Nullish(v) && v != Bool(false) && v != Num(0) && v != Str("")
  }

  function ContextAt(env: Env, n: nat): Value {
    if n < |env.contexts| then env.contexts[n] else Undefined
  }

  function BlockParamAt(env: Env, at: (nat, nat)): Value {
    if at.0 < |env.blockParams| && at.1 < |env.blockParams[at.0]| then env.blockParams[at.0][at.1] else Undefined
  }

  /** container.data(data, up) */
  function DataUp<W>(h: Host<W>, w: W, v: Value, up: nat): Value
    decreases up
  {
    if up == 0 || !IsTrue(v) then v else DataUp(h, w, h.get(w, v, "_parent"), up - 1)
  }

  /** container.lookup(depths, name) */
  function DepthedLookup<W>(h: Host<W>, w: W, contexts: seq<Value>, name: string): Value {
    if contexts == [] then Undefined
    else if IsTrue(contexts[0]) && !Nullish(h.get(w, contexts[0], name)) then h.get(w, contexts[0], name)
    else DepthedLookup(h, w, contexts[1..], name)
  }

  /** Reading a property of null or undefined throws. */
  function GetProp<W>(h: Host<W>, w: W, v: Value, name: string): Outcome<W> {
    if Nullish(v) then Threw(w) else Returned(h.get(w, v, name), w)
  }

  function Self(env: Env): Value {
    if Nullish(ContextAt(env, 0)) then Record([]) else ContextAt(env, 0)
  }

  function LambdaOf<W>(h: Host<W>, env: Env, v: Value, w: W): Outcome<W> {
    if h.isFunction(v) then h.call(w, v, ContextAt(env, 0), []) else Returned(v, w)
  }

  function LiteralValue(e: Expr): Value {
    match e
    case StringLit(s) => Str(s)
    case NumberLit(n) => Num(n)
    case BooleanLit(b) => Bool(b)
    case NullLit => Null
    case _ => Undefined
  }

  // ----- running generated code -----

  /** The function's own variables: the temporaries and the two registers. */
  datatype Store = Store(temps: map<nat, Value>, helper: Value, options: Value) {
    function Temp(slot: nat): Value {
      if slot in temps then temps[slot] else Undefined
    }
  }

  datatype Eval<W> = Thrown(w: W) | Val(v: Value, s: Store, w: W)
  datatype EvalAll<W> = ThrownIn(w: W) | Vals(vs: seq<Value>, s: Store, w: W)

  function Done<W>(o: Outcome<W>, s: Store): Eval<W> {
    match o
    case Threw(w) => Thrown(w)
    case Returned(v, w) => Val(v, s, w)
  }

  function Evaluate<W>(e: Js, h: Host<W>, env: Env, s: Store, w: W): Eval<W>
    decreases e, 0
  {
    match e
    case JContext(n) => Val(ContextAt(env, n), s, w)
    case JUndeclared(_) => Thrown(w)
    case JDepths => Val(List(env.contexts), s, w)
    case JDepthedLookup(name) => Val(DepthedLookup(h, w, env.contexts, name), s, w)
    case JBlockParam(at) => Val(BlockParamAt(env, at), s, w)
    case JData(up) => Val(DataUp(h, w, env.data, up), s, w)
    case JHelpers => Val(env.helpers, s, w)
    case JPartials => Val(env.partials, s, w)
    case JDecorators => Val(env.decorators, s, w)
    case JTemp(slot) => Val(s.Temp(slot), s, w)
    case JHelperVar => Val(s.helper, s, w)
    case JOptionsVar => Val(s.options, s, w)
    case JSetTemp(slot, e1) =>
      var r := Evaluate(e1, h, env, s, w);
      if r.Thrown? then r else r.(s := r.s.(temps := r.s.temps[slot := r.v]))
    case JSetHelper(e1) =>
      var r := Evaluate(e1, h, env, s, w);
      if r.Thrown? then r else r.(s := r.s.(helper := r.v))
    case JSetOptions(e1) =>
      var r := Evaluate(e1, h, env, s, w);
      if r.Thrown? then r else r.(s := r.s.(options := r.v))
    case JIfPresent(test, yes, no) =>
      var r := Evaluate(test, h, env, s, w);
      if r.Thrown? then r else Evaluate(if Nullish(r.v) then no else yes, h, env, r.s, r.w)
    case JIfFunction(test, yes, no) =>
      var r := Evaluate(test, h, env, s, w);
      if r.Thrown? then r else Evaluate(if h.isFunction(r.v) then yes else no, h, env, r.s, r.w)
    case JAnd(left, right) =>
      var r := Evaluate(left, h, env, s, w);
      if r.Thrown? || !IsTrue(r.v) then r else Evaluate(right, h, env, r.s, r.w)
    case JOr(left, right) =>
      var r := Evaluate(left, h, env, s, w);
      if r.Thrown? || IsTrue(r.v) then r else Evaluate(right, h, env, r.s, r.w)
    case JComma(left, right) =>
      var r := Evaluate(left, h, env, s, w);
      if r.Thrown? then r else Evaluate(right, h, env, r.s, r.w)
    case JMember(obj, name) =>
      var r := Evaluate(obj, h, env, s, w);
      if r.Thrown? then r else Done(GetProp(h, r.w, r.v, name), r.s)
    case JStrictMember(obj, name) =>
      var r := Evaluate(obj, h, env, s, w);
      if r.Thrown? then r
      else if Nullish(r.v) || !h.has(r.w, r.v, name) then Thrown(r.w)
      else Val(h.get(r.w, r.v, name), r.s, r.w)
    case JText(text) => Val(Str(text), s, w)
    case JLiteral(of) => Val(LiteralValue(of), s, w)
    case JSide(_) => Val(Undefined, s, w)   // descriptions of the side modes have no meaning here
    case JNone => Val(Null, s, w)
    case JNothing => Thrown(w)
    case JProgram(index) => Val(Template(index), s, w)
    case JNoop => Val(Noop, s, w)
    case JThis => Val(Self(env), s, w)
    case JLambda(e1) =>
      var r := Evaluate(e1, h, env, s, w);
      if r.Thrown? then r else Done(LambdaOf(h, env, r.v, r.w), r.s)
    case JInvoke(callee, self, args) =>
      var f := Evaluate(callee, h, env, s, w);
      if f.Thrown? then f
      else if Nullish(f.v) then Thrown(f.w)
      else
        var this_ := Evaluate(self, h, env, f.s, f.w);
        if this_.Thrown? then this_
        else
          var a := EvaluateAll(args, h, env, this_.s, this_.w);
          if a.ThrownIn? then Thrown(a.w) else Done(h.call(a.w, f.v, this_.v, a.vs), a.s)
    case JInvokePartial(args) =>
      var a := EvaluateAll(args, h, env, s, w);
      if a.ThrownIn? then Thrown(a.w) else Done(h.partial(a.w, a.vs), a.s)
    case JEscape(e1) =>
      var r := Evaluate(e1, h, env, s, w);
      if r.Thrown? then r else Val(Str(h.escape(r.v)), r.s, r.w)
    case JObject(fields) =>
      var a := EvaluateFields(fields, h, env, s, w);
      if a.ThrownIn? then Thrown(a.w) else Val(Record(Zip(fields, a.vs)), a.s, a.w)
    case JArray(items) =>
      var a := EvaluateAll(items, h, env, s, w);
      if a.ThrownIn? then Thrown(a.w) else Val(List(a.vs), a.s, a.w)
  }

  function EvaluateAll<W>(es: seq<Js>, h: Host<W>, env: Env, s: Store, w: W): (r: EvalAll<W>)
    ensures r.Vals? ==> |r.vs| == |es|
    decreases es, 0
  {
    if es == [] then Vals([], s, w)
    else
      var first := Evaluate(es[0], h, env, s, w);
      if first.Thrown? then ThrownIn(first.w)
      else
        var rest := EvaluateAll(es[1..], h, env, first.s, first.w);
        if rest.ThrownIn? then rest else rest.(vs := [first.v] + rest.vs)
  }

  function EvaluateFields<W>(fields: seq<Field>, h: Host<W>, env: Env, s: Store, w: W): (r: EvalAll<W>)
    ensures r.Vals? ==> |r.vs| == |fields|
    decreases fields, 0
  {
    if fields == [] then Vals([], s, w)
    else
      var first := Evaluate(fields[0].value, h, env, s, w);
      if first.Thrown? then ThrownIn(first.w)
      else
        var rest := EvaluateFields(fields[1..], h, env, first.s, first.w);
        if rest.ThrownIn? then rest else rest.(vs := [first.v] + rest.vs)
  }

  function Zip(fields: seq<Field>, vs: seq<Value>): seq<(string, Value)>
    requires |fields| == |vs|
  {
    if fields == [] then [] else [(fields[0].name, vs[0])] + Zip(fields[1..], vs[1..])
  }

  // ----- what a Handlebars expression means -----

  datatype Meaning<W> = Fails(w: W) | Means(vs: seq<Value>, w: W)

  /** Everything a meaning depends on besides the expression. */
  datatype Setting<!W> = Setting(o: Options, scope: Scope, h: Host<W>, env: Env)

  /** A null-safe walk; in the other form it stops at any false value. */
  function Walk<W>(h: Host<W>, w: W, v: Value, parts: seq<string>, falsy: bool): Value
    decreases parts
  {
    if parts == [] then v
    else if (if falsy then !IsTrue(v) else Nullish(v)) then v
    else Walk(h, w, h.get(w, v, parts[0]), parts[1..], falsy)
  }

  function PathValue<W>(p: Path, falsy: bool, at: Setting<W>, w: W): Value {
    var (h, env) := (at.h, at.env);
    match BlockParamOf(p, at.scope)
    case Some(place) => Walk(h, w, BlockParamAt(env, place), p.parts[1..], false)
    case None =>
      if !Named(p) then ContextAt(env, p.depth)
      else if p.data then Walk(h, w, DataUp(h, w, env.data, p.depth), p.parts, true)
      else if at.o.compat && !p.scoped && p.depth == 0 then
        Walk(h, w, DepthedLookup(h, w, env.contexts, p.parts[0]), p.parts[1..], falsy)
      else Walk(h, w, ContextAt(env, p.depth), p.parts, falsy)
  }

  // The order in which the values of a hash are computed.

  /** Index i joins indices whose pairs come after it: it takes the place of an equal key. */
  function JoinIndex(order: seq<nat>, i: nat, pairs: seq<HashPair>): (r: seq<nat>)
    requires i < |pairs| && forall k :: 0 <= k < |order| ==> order[k] < |pairs|
    ensures forall k :: 0 <= k < |r| ==> r[k] < |pairs|
  {
    if order == [] then [i]
    else if pairs[order[0]].key == pairs[i].key then [i] + order[1..]
    else if Precedes(pairs[order[0]].key, pairs[i].key)
            || exists k :: 0 <= k < |order| && pairs[order[k]].key == pairs[i].key then
      [order[0]] + JoinIndex(order[1..], i, pairs)
    else [i] + order
  }

  function HashOrder(pairs: seq<HashPair>, from: nat): (r: seq<nat>)
    requires from <= |pairs|
    ensures forall k :: 0 <= k < |r| ==> r[k] < |pairs|
    decreases |pairs| - from
  {
    if from == |pairs| then [] else JoinIndex(HashOrder(pairs, from + 1), from, pairs)
  }

  /** Pairs whose value is the literal undefined leave no property. */
  function Defined(order: seq<nat>, pairs: seq<HashPair>): (r: seq<nat>)
    requires forall k :: 0 <= k < |order| ==> order[k] < |pairs|
    ensures forall k :: 0 <= k < |r| ==> r[k] < |pairs|
  {
    if order == [] then []
    else (if pairs[order[0]].value == UndefinedLit then [] else [order[0]]) + Defined(order[1..], pairs)
  }

  function KeyedValues(order: seq<nat>, pairs: seq<HashPair>, vs: seq<Value>): seq<(string, Value)>
    requires |order| == |vs| && forall k :: 0 <= k < |order| ==> order[k] < |pairs|
  {
    if order == [] then [] else [(pairs[order[0]].key, vs[0])] + KeyedValues(order[1..], pairs, vs[1..])
  }

  function Single<W>(o: Outcome<W>): (m: Meaning<W>)
    ensures m.Means? ==> |m.vs| == 1
  {
    match o
    case Threw(w) => Fails(w)
    case Returned(v, w) => Means([v], w)
  }

  function ExprMeaning<W>(e: Expr, at: Setting<W>, w: W): (m: Meaning<W>)
    ensures m.Means? ==> |m.vs| == 1
    decreases e, 0
  {
    match e
    case PathExpr(p) => Means([PathValue(p, false, at, w)], w)
    case SubExpr(c) =>
      if Classify(c.path, true, at.o, at.scope) == HelperKind then HelperMeaning(c, None, None, at, w)
      else SimpleMeaning(c, at, w)
    case _ => Means([LiteralValue(e)], w)
  }

  /** Parameters are computed from left to right. */
  function ParamsMeaning<W>(params: seq<Expr>, at: Setting<W>, w: W): (m: Meaning<W>)
    ensures m.Means? ==> |m.vs| == |params|
    decreases params, 0
  {
    if params == [] then Means([], w)
    else
      var first := ExprMeaning(params[0], at, w);
      if first.Fails? then first
      else
        var rest := ParamsMeaning(params[1..], at, first.w);
        if rest.Fails? then rest else Means(first.vs + rest.vs, rest.w)
  }

  function PairsMeaning<W>(order: seq<nat>, pairs: seq<HashPair>, at: Setting<W>, w: W): (m: Meaning<W>)
    requires forall k :: 0 <= k < |order| ==> order[k] < |pairs|
    ensures m.Means? ==> |m.vs| == |order|
    decreases pairs, 0, |order|
  {
    if order == [] then Means([], w)
    else
      var first := ExprMeaning(pairs[order[0]].value, at, w);
      if first.Fails? then first
      else
        var rest := PairsMeaning(order[1..], pairs, at, first.w);
        if rest.Fails? then rest else Means(first.vs + rest.vs, rest.w)
  }

  function HashMeaning<W>(hash: Hash, at: Setting<W>, w: W): (m: Meaning<W>)
    ensures m.Means? ==> |m.vs| == 1
    decreases hash, 0
  {
    match hash
    case NoHash => Means([Record([])], w)
    case Pairs(pairs) =>
      var order := Defined(HashOrder(pairs, 0), pairs);
      var m := PairsMeaning(order, pairs, at, w);
      if m.Fails? then m else Means([Record(KeyedValues(order, pairs, m.vs))], m.w)
  }

  function ProgramValue(index: Option<nat>): Value {
    if index.Some? then Template(index.value) else Noop
  }

  function OptionsValue(name: string, hash: Value, main: Option<nat>, inverse: Option<nat>, o: Options, env: Env): Value {
    Record([("name", Str(name)), ("hash", hash)]
           + (if main.Some? || inverse.Some? then [("fn", ProgramValue(main)), ("inverse", ProgramValue(inverse))] else [])
           + (if o.data then [("data", env.data)] else []))
  }

  /** The function a helper call applies. */
  function CalleeMeaning<W>(c: Sexpr, at: Setting<W>, w: W): Outcome<W> {
    if IsKnown(c.path, at.o) then GetProp(at.h, w, at.env.helpers, c.path.parts[0])
    else
      var own := if SimpleId(c.path) then GetProp(at.h, w, at.env.helpers, c.path.original) else Returned(Undefined, w);
      if own.Threw? || IsTrue(own.value) then own
      else
        var found := PathValue(c.path, true, at, w);
        if IsTrue(found) then Returned(found, w) else GetProp(at.h, w, at.env.helpers, "helperMissing")
  }

  function HelperName(c: Sexpr, o: Options): string {
    if IsKnown(c.path, o) then c.path.parts[0] else c.path.original
  }

  /** The callee is found first, then the parameters and the hash are computed, then the call is made. */
  function HelperMeaning<W>(c: Sexpr, main: Option<nat>, inverse: Option<nat>, at: Setting<W>, w: W): (m: Meaning<W>)
    ensures m.Means? ==> |m.vs| == 1
    decreases c, 1
  {
    var callee := CalleeMeaning(c, at, w);
    if callee.Threw? then Fails(callee.w)
    else if Nullish(callee.value) then Fails(w)
    else
      var params := ParamsMeaning(c.params, at, w);
      if params.Fails? then params
      else
        var hash := HashMeaning(c.hash, at, params.w);
        if hash.Fails? then hash
        else
          var options := OptionsValue(HelperName(c, at.o), hash.vs[0], main, inverse, at.o, at.env);
          Single(at.h.call(hash.w, callee.value, Self(at.env), params.vs + [options]))
  }

  function SimpleMeaning<W>(c: Sexpr, at: Setting<W>, w: W): (m: Meaning<W>)
    ensures m.Means? ==> |m.vs| == 1
  {
    Single(LambdaOf(at.h, at.env, PathValue(c.path, false, at, w), w))
  }

  /** A bare name: a helper, else a value of the context, else helperMissing. */
  function AmbiguousHelper<W>(c: Sexpr, at: Setting<W>, w: W): Outcome<W>
    requires c.path.parts != []
  {
    var own := GetProp(at.h, w, at.env.helpers, c.path.parts[0]);
    if own.Threw? then own
    else
      var found := if IsTrue(own.value) then own.value else PathValue(c.path, false, at, w);
      if Nullish(found) then GetProp(at.h, w, at.env.helpers, "helperMissing") else Returned(found, w)
  }

  function AmbiguousMeaning<W>(c: Sexpr, main: Option<nat>, inverse: Option<nat>, at: Setting<W>, w: W): (m: Meaning<W>)
    requires c.path.parts != []
    ensures m.Means? ==> |m.vs| == 1
  {
    var chosen := AmbiguousHelper(c, at, w);
    if chosen.Threw? then Fails(chosen.w)
    else if at.h.isFunction(chosen.value) then
      var options := OptionsValue(c.path.parts[0], Record([]), main, inverse, at.o, at.env);
      if Nullish(chosen.value) then Fails(w)
      else Single(at.h.call(w, chosen.value, Self(at.env), [options]))
    else Means([chosen.value], w)
  }
}
