/**
 The code the stack machine ends up with, described directly by recursion on the tree, without
 a stack. `slot` is the number of temporaries in use below the expression.
 */
module HandlebarsCodegen {
  import opened Wrappers
  import opened HandlebarsAst
  import opened HandlebarsOpcodes
  import opened HandlebarsMachine

  // ----- arguments taken from the top of a stack -----

  /** How many entries one parameter, or one hash, is expected to occupy. */
  function Width(o: Options): nat {
    1 + (if o.trackIds then 1 else 0) + (if o.stringParams then 2 else 0)
  }

  function At(seg: seq<Entry>, fromTop: nat): Js
    requires fromTop < |seg|
  {
    seg[|seg| - 1 - fromTop].e
  }

  function TakeParams(seg: seq<Entry>, count: nat, o: Options): Params
    requires |seg| == count * Width(o)
    decreases count
  {
    if count == 0 then Params([], [], [], [])
    else
      assert |seg| >= Width(o) && |seg| - Width(o) == (count - 1) * Width(o);
      var ids := if o.trackIds then 1 else 0;
      var rest := TakeParams(seg[..|seg| - Width(o)], count - 1, o);
      Params(rest.values + [At(seg, 0)],
             rest.ids + [if o.trackIds then At(seg, 1) else JNothing],
             rest.types + [if o.stringParams then At(seg, 1 + ids) else JNothing],
             rest.contexts + [if o.stringParams then At(seg, 2 + ids) else JNothing])
  }

  function TakeHashParts(seg: seq<Entry>, o: Options): HashParts
    requires |seg| == 2 + Width(o)
  {
    var ids := if o.trackIds then 1 else 0;
    HashParts(At(seg, 0),
              if o.trackIds then At(seg, 1) else JNothing,
              if o.stringParams then At(seg, 1 + ids) else JNothing,
              if o.stringParams then At(seg, 2 + ids) else JNothing,
              seg[1].e, seg[0].e)
  }

  /** Entries for `count` parameters, the two programs and the hash. */
  predicate Complete(seg: seq<Entry>, count: nat, o: Options) {
    |seg| == count * Width(o) + 2 + Width(o)
  }

  function TakeArguments(seg: seq<Entry>, name: string, count: nat, withArgs: bool, o: Options): Arguments
    requires Complete(seg, count, o)
  {
    var h := TakeHashParts(seg[count * Width(o)..], o);
    var p := TakeParams(seg[..count * Width(o)], count, o);
    Arguments(p.values, OptionFields(name, h, p, withArgs, o))
  }

  // ----- expressions -----

  function LinksOn(entry: Entry, parts: seq<string>, falsy: bool, slot: nat): Entry
    decreases parts
  {
    if parts == [] then entry
    else LinksOn(Replaced(entry, slot, Link(parts[0], falsy)), parts[1..], falsy, slot)
  }

  function ResolveOn(entry: Entry, parts: seq<string>, from: nat, falsy: bool, strict: bool, slot: nat, o: Options): Entry {
    if o.strict || o.assumeObjects then Code(StrictChain(entry.e, parts, o.strict && strict))
    else if from <= |parts| then LinksOn(entry, parts[from..], falsy, slot)
    else entry
  }

  function PathEntry(p: Path, falsy: bool, strict: bool, slot: nat, scope: Scope, cfg: Config): Entry {
    var o := cfg.opts;
    match BlockParamOf(p, scope)
    case Some(at) => ResolveOn(Code(JBlockParam(at)), p.parts, 1, false, false, slot, o)
    case None =>
      if !Named(p) then Lit(ContextName(p.depth, cfg))
      else if p.data then ResolveOn(Lit(JData(p.depth)), p.parts, 0, true, strict, slot, o)
      else if !p.scoped && o.compat && p.depth == 0 then
        ResolveOn(Code(JDepthedLookup(p.parts[0])), p.parts, 1, falsy, strict, slot, o)
      else ResolveOn(Lit(ContextName(p.depth, cfg)), p.parts, 0, falsy, strict, slot, o)
  }

  /** In the two side modes together a parameter is one entry short of what is popped for it. */
  predicate BothSideModes(o: Options) {
    o.stringParams && o.trackIds
  }

  function PairCount(h: Hash): nat {
    if h.Pairs? then |h.pairs| else 0
  }

  /** Fewer entries are pushed than the call pops. */
  predicate Overdrawn(c: Sexpr, o: Options) {
    BothSideModes(o) && (c.params != [] || PairCount(c.hash) != 0)
  }

  predicate CallOverdrawn(c: Sexpr, isHelper: bool, o: Options, scope: Scope) {
    Classify(c.path, isHelper, o, scope) == HelperKind && Overdrawn(c, o)
  }

  predicate ExprOverdrawn(e: Expr, o: Options, scope: Scope) {
    e.SubExpr? && CallOverdrawn(e.call, true, o, scope)
  }

  function ExprEntry(e: Expr, slot: nat, scope: Scope, cfg: Config): Entry
    requires !ExprOverdrawn(e, cfg.opts, scope)
    decreases e, 0
  {
    match e
    case PathExpr(p) => PathEntry(p, false, false, slot, scope, cfg)
    case SubExpr(c) => Code(CallCode(c, true, slot, scope, cfg))
    case _ => LiteralEntry(e)
  }

  function ParamEntries(e: Expr, slot: nat, scope: Scope, cfg: Config): (r: seq<Entry>)
    requires !BothSideModes(cfg.opts)
    ensures |r| == Width(cfg.opts)
    decreases e, 1
  {
    if cfg.opts.stringParams then
      [Lit(ContextName(DepthOf(e), cfg)), Lit(JText(TypeName(e)))]
      + [if e.SubExpr? then ExprEntry(e, slot, scope, cfg) else Lit(JSide(e))]
    else if cfg.opts.trackIds then [Lit(JSide(e)), ExprEntry(e, slot, scope, cfg)]
    else [ExprEntry(e, slot, scope, cfg)]
  }

  function ParamsEntries(params: seq<Expr>, slot: nat, scope: Scope, cfg: Config): (r: seq<Entry>)
    requires params == [] || !BothSideModes(cfg.opts)
    ensures |r| == |params| * Width(cfg.opts)
    decreases params, 0
  {
    if params == [] then []
    else
      assert |params| * Width(cfg.opts) == Width(cfg.opts) + |params[1..]| * Width(cfg.opts);
      ParamEntries(params[0], slot, scope, cfg) + ParamsEntries(params[1..], slot, scope, cfg)
  }

  function PairsEntries(pairs: seq<HashPair>, slot: nat, scope: Scope, cfg: Config): (r: seq<Entry>)
    requires pairs == [] || !BothSideModes(cfg.opts)
    ensures |r| == |pairs| * Width(cfg.opts)
    decreases pairs, 0
  {
    if pairs == [] then []
    else
      assert |pairs| * Width(cfg.opts) == Width(cfg.opts) + |pairs[1..]| * Width(cfg.opts);
      ParamEntries(pairs[0].value, slot, scope, cfg) + PairsEntries(pairs[1..], slot, scope, cfg)
  }

  function AssignOne(pair: HashPair, own: seq<Entry>, h: HashBuffer, o: Options): HashBuffer
    requires |own| == Width(o)
  {
    var key := pair.key;
    var ids := if o.trackIds then 1 else 0;
    HashBuffer(Put(h.values, key, At(own, 0)),
               if o.stringParams then Put(h.types, key, At(own, 1 + ids)) else h.types,
               if o.stringParams then Put(h.contexts, key, At(own, 2 + ids)) else h.contexts,
               if o.trackIds then Put(h.ids, key, At(own, 1)) else h.ids)
  }

  /** The hash buffer after the pairs have been assigned, last pair first. */
  function Assigned(pairs: seq<HashPair>, seg: seq<Entry>, o: Options): HashBuffer
    requires |seg| == |pairs| * Width(o)
    decreases pairs
  {
    if pairs == [] then EMPTY_BUFFER
    else
      assert |seg| >= Width(o) && |seg| - Width(o) == |pairs[1..]| * Width(o);
      var h := Assigned(pairs[1..], seg[Width(o)..], o);
      AssignOne(pairs[0], seg[..Width(o)], h, o)
  }

  function HashEntries(hash: Hash, omit: bool, slot: nat, scope: Scope, cfg: Config): (r: seq<Entry>)
    requires PairCount(hash) == 0 || !BothSideModes(cfg.opts)
    ensures |r| == Width(cfg.opts)
    decreases hash, 0
  {
    match hash
    case NoHash => EmptyHashEntries(omit, cfg.opts)
    case Pairs(pairs) =>
      HashBufferEntries(Assigned(pairs, PairsEntries(pairs, slot, scope, cfg), cfg.opts), cfg.opts)
  }

  /** Everything setupFullMustacheParams leaves on the stack. */
  function SetupEntries(c: Sexpr, main: Option<nat>, inverse: Option<nat>, omit: bool, slot: nat, scope: Scope, cfg: Config)
    : (r: seq<Entry>)
    requires !Overdrawn(c, cfg.opts)
    ensures Complete(r, |c.params|, cfg.opts)
    decreases c, 0
  {
    ParamsEntries(c.params, slot, scope, cfg) + [ProgramEntry(main), ProgramEntry(inverse)]
    + HashEntries(c.hash, omit, slot, scope, cfg)
  }

  /** The helper value a list of complete argument entries turns into. */
  function InvokeCode(c: Sexpr, seg: seq<Entry>, slot: nat, scope: Scope, cfg: Config): Js
    requires Complete(seg, |c.params|, cfg.opts)
  {
    var count := |c.params|;
    if IsKnown(c.path, cfg.opts) then
      KnownHelperCall(c.path.parts[0], TakeArguments(seg, c.path.parts[0], count, false, cfg.opts))
    else
      HelperCall(c.path.original, SimpleId(c.path), PathEntry(c.path, true, true, slot, scope, cfg).e,
                 TakeArguments(seg, c.path.original, count, false, cfg.opts), cfg.opts)
  }

  function HelperCode(c: Sexpr, main: Option<nat>, inverse: Option<nat>, slot: nat, scope: Scope, cfg: Config): Js
    requires !Overdrawn(c, cfg.opts)
    decreases c, 1
  {
    var seg := SetupEntries(c, main, inverse, false, slot, scope, cfg);
    InvokeCode(c, seg, slot, scope, cfg)
  }

  function AmbiguousCode(c: Sexpr, main: Option<nat>, inverse: Option<nat>, slot: nat, scope: Scope, cfg: Config): Js
    requires c.path.parts != []
  {
    var seg := [ProgramEntry(main), ProgramEntry(inverse)] + EmptyHashEntries(false, cfg.opts);
    AmbiguousCallCode(c.path.parts[0], main.Some? || inverse.Some?, PathEntry(c.path, false, true, slot, scope, cfg).e,
                      TakeArguments(seg, c.path.parts[0], 0, false, cfg.opts), cfg.opts)
  }

  function SimpleCode(c: Sexpr, slot: nat, scope: Scope, cfg: Config): Js {
    JLambda(PathEntry(c.path, false, true, slot, scope, cfg).e)
  }

  function CallCode(c: Sexpr, isHelper: bool, slot: nat, scope: Scope, cfg: Config): Js
    requires !CallOverdrawn(c, isHelper, cfg.opts, scope)
    decreases c, 2
  {
    match Classify(c.path, isHelper, cfg.opts, scope)
    case HelperKind => HelperCode(c, None, None, slot, scope, cfg)
    case AmbiguousKind => AmbiguousCode(c, None, None, slot, scope, cfg)
    case SimpleKind => SimpleCode(c, slot, scope, cfg)
  }

  // ----- statements, which start and end with empty stacks -----

  /** The options-only object of a block value, with no parameters and no hash. */
  function BlockArguments(name: string, main: Option<nat>, inverse: Option<nat>, o: Options): Arguments {
    TakeArguments([ProgramEntry(main), ProgramEntry(inverse)] + EmptyHashEntries(false, o), name, 0, false, o)
  }

  /** A value appended in place. */
  function AppendValue(out: Output, e: Js, slot: nat, cfg: Config): Output {
    PushSource(out, AppendLine(Replaced(Code(e), slot, OrEmpty()).e, cfg), cfg)
  }

  function AppendFlushed(out: Output, e: Js, cfg: Config): Output {
    var tested := PushSource(out, IfPresent(e, AppendExplicitly(e, cfg)), cfg);
    if cfg.isSimple then PushSource(tested, Otherwise(AppendExplicitly(JText(""), cfg)), cfg) else tested
  }

  function BlockOutput(c: Sexpr, main: Option<nat>, inverse: Option<nat>, out: Output, scope: Scope, cfg: Config): Output
    requires !CallOverdrawn(c, HasArguments(c), cfg.opts, scope)
  {
    match Classify(c.path, HasArguments(c), cfg.opts, scope)
    case HelperKind => AppendValue(out, HelperCode(c, main, inverse, 0, scope, cfg), 0, cfg)
    case SimpleKind =>
      var a := BlockArguments(c.path.original, main, inverse, cfg.opts);
      AppendValue(out, MissingBlock(SimpleCode(c, 0, scope, cfg), ObjectLiteral(a.fields)), 0, cfg)
    case AmbiguousKind =>
      var stored := PushSource(out, SetTemp(1, AmbiguousCode(c, main, inverse, 0, scope, cfg)), cfg);
      var missing := MissingBlock(JTemp(1), JOptionsVar);
      AppendFlushed(PushSource(stored, IfNoHelper(Helper(c.path.parts[0]), JTemp(1), missing), cfg), JTemp(1), cfg)
  }

  /** Exactly when a partial pops more than was pushed for it. */
  predicate PartialOverdrawn(s: Statement, o: Options)
    requires s.Partial?
  {
    if s.params == [] && o.explicitPartialContext then o.stringParams || o.trackIds else BothSideModes(o)
  }

  function PartialSegment(s: Statement, n: nat, scope: Scope, cfg: Config): (r: seq<Entry>)
    requires s.Partial? && !PartialOverdrawn(s, cfg.opts) && |s.params| <= 1
    ensures |r| > 0 && Complete(if s.name.DynamicName? then r[1..] else r, 1, cfg.opts)
  {
    (if s.params == [] && cfg.opts.explicitPartialContext then [Lit(JLiteral(UndefinedLit))] else [])
    + (if s.name.DynamicName? then [Code(CallCode(s.name.call, true, 0, scope, cfg))] else [])
    + SetupEntries(PartialCall(s, cfg.opts), BodyIndex(s.fallback, n), None, true, 0, scope, cfg)
  }

  function PartialCode(s: Statement, n: nat, scope: Scope, cfg: Config): Js
    requires s.Partial? && !PartialOverdrawn(s, cfg.opts)
    requires |s.params| <= 1
  {
    var seg := PartialSegment(s, n, scope, cfg);
    var dynamic := s.name.DynamicName?;
    var count := if dynamic then 1 else 0;
    var moved := cfg.opts.preventIndent && s.indent != "";
    var a := TakeArguments(seg[count..], StaticNameOf(s.name), 1, false, cfg.opts);
    PartialCallCode(if dynamic then seg[0].e else JMember(JPartials, StaticNameOf(s.name)), a, dynamic,
                    if moved then "" else s.indent, cfg.opts)
  }

  function Pend(out: Output, text: string): Output {
    out.(pending := out.pending + text)
  }

  predicate StatementOverdrawn(s: Statement, o: Options, scope: Scope) {
    match s
    case Content(_) => false
    case Comment => false
    case Mustache(c, _) => CallOverdrawn(c, HasArguments(c), o, scope)
    case Block(c, _) => CallOverdrawn(c, HasArguments(c), o, scope)
    case Partial(_, _, _, _, _) => PartialOverdrawn(s, o)
    case Decorator(c, _) => Overdrawn(c, o)
  }

  /** "Unsupported number of partial arguments" is raised for more than one. */
  predicate PartialsWellFormed(body: seq<Statement>) {
    forall i :: 0 <= i < |body| ==> body[i].Partial? ==> |body[i].params| <= 1
  }

  function StatementOutput(s: Statement, n: nat, out: Output, scope: Scope, cfg: Config): Output
    requires !StatementOverdrawn(s, cfg.opts, scope)
    requires s.Partial? ==> |s.params| <= 1
  {
    match s
    case Content(value) => Pend(out, value)
    case Comment => out
    case Mustache(c, escaped) =>
      var code := CallCode(c, HasArguments(c), 0, scope, cfg);
      if escaped && !cfg.opts.noEscape then PushSource(out, AppendLine(JEscape(code), cfg), cfg)
      else AppendValue(out, code, 0, cfg)
    case Block(c, bodies) => BlockOutput(c, MainIndex(bodies, n), InverseIndex(bodies, n), out, scope, cfg)
    case Partial(_, _, _, indent, _) =>
      AppendValue(if cfg.opts.preventIndent then Pend(out, indent) else out, PartialCode(s, n, scope, cfg), 0, cfg)
    case Decorator(_, _) => out
  }

  predicate NoneOverdrawn(body: seq<Statement>, o: Options, scope: Scope) {
    forall i :: 0 <= i < |body| ==> !StatementOverdrawn(body[i], o, scope)
  }

  function BodyOutput(body: seq<Statement>, n: nat, out: Output, scope: Scope, cfg: Config): Output
    requires NoneOverdrawn(body, cfg.opts, scope) && PartialsWellFormed(body)
    decreases body
  {
    if body == [] then out
    else
      BodyOutput(body[1..], n + |Nested(body[0])|, StatementOutput(body[0], n, out, scope, cfg), scope, cfg)
  }
}
