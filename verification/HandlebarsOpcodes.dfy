/** What the Handlebars `Compiler` emits: the opcode list of every tree node, as a function of the tree. */
module HandlebarsOpcodes {
  import opened Wrappers
  import opened HandlebarsAst

  datatype Op =
    | GetContext(depth: nat)
    | PushContext
    | LookupOnContext(parts: seq<string>, falsy: bool, strict: bool, scoped: bool)
    | LookupBlockParam(at: (nat, nat), parts: seq<string>)
    | LookupData(depth: nat, parts: seq<string>, strict: bool)
    | ResolvePossibleLambda
    | PushStringParam(of: Expr, typeName: string)
    | PushId(of: Expr)
    | PushLiteral(of: Expr)
    | PushProgram(index: Option<nat>)
    | EmptyHash(omit: bool)
    | PushHash
    | AssignToHash(key: string)
    | PopHash
    | InvokeHelper(count: nat, name: string, simple: bool)
    | InvokeKnownHelper(count: nat, name: string)
    | InvokeAmbiguous(name: string, isBlock: bool)
    | InvokePartial(dynamic: bool, name: string, indent: string)
    | RegisterDecorator(count: nat, name: string)
    | BlockValue(name: string)
    | AmbiguousBlockValue
    | AppendContent(text: string)
    | Append
    | AppendEscaped

  function PathOps(p: Path, falsy: bool, strict: bool, scope: Scope): seq<Op> {
    [GetContext(p.depth)] +
    match BlockParamOf(p, scope)
    case Some(at) => [LookupBlockParam(at, p.parts)]
    case None =>
      if !Named(p) then [PushContext]
      else if p.data then [LookupData(p.depth, p.parts, strict)]
      else [LookupOnContext(p.parts, falsy, strict, p.scoped)]
  }

  function TypeName(e: Expr): string {
    match e
    case PathExpr(_) => "PathExpression"
    case StringLit(_) => "StringLiteral"
    case NumberLit(_) => "NumberLiteral"
    case BooleanLit(_) => "BooleanLiteral"
    case UndefinedLit => "UndefinedLiteral"
    case NullLit => "NullLiteral"
    case SubExpr(_) => "SubExpression"
  }

  function DepthOf(e: Expr): nat {
    if e.PathExpr? then e.path.depth else 0
  }

  function ExprOps(e: Expr, o: Options, scope: Scope): seq<Op>
    decreases e, 0
  {
    match e
    case PathExpr(p) => PathOps(p, false, false, scope)
    case SubExpr(c) => CallOps(c, true, o, scope)
    case _ => [PushLiteral(e)]
  }

  /** pushParam: in the two side modes a parameter is preceded by its own description. */
  function ParamOps(e: Expr, o: Options, scope: Scope): seq<Op>
    decreases e, 1
  {
    if o.stringParams then
      [GetContext(DepthOf(e)), PushStringParam(e, TypeName(e))]
      + (if e.SubExpr? then ExprOps(e, o, scope) else [])
    else if o.trackIds then [PushId(e)] + ExprOps(e, o, scope)
    else ExprOps(e, o, scope)
  }

  function ParamsOps(params: seq<Expr>, o: Options, scope: Scope): seq<Op>
    decreases params, 0
  {
    if params == [] then []
    else ParamOps(params[0], o, scope) + ParamsOps(params[1..], o, scope)
  }

  function PairsOps(pairs: seq<HashPair>, o: Options, scope: Scope): seq<Op>
    decreases pairs, 0
  {
    if pairs == [] then []
    else ParamOps(pairs[0].value, o, scope) + PairsOps(pairs[1..], o, scope)
  }

  /** The keys are assigned from the last pair to the first. */
  function AssignOps(pairs: seq<HashPair>): seq<Op> {
    if pairs == [] then [] else AssignOps(pairs[1..]) + [AssignToHash(pairs[0].key)]
  }

  function HashOps(hash: Hash, omit: bool, o: Options, scope: Scope): seq<Op>
    decreases hash, 0
  {
    match hash
    case NoHash => [EmptyHash(omit)]
    case Pairs(pairs) => [PushHash] + PairsOps(pairs, o, scope) + AssignOps(pairs) + [PopHash]
  }

  /** setupFullMustacheParams: parameters, the two programs, then the hash. */
  function SetupOps(c: Sexpr, main: Option<nat>, inverse: Option<nat>, omit: bool, o: Options, scope: Scope): seq<Op>
    decreases c, 0
  {
    ParamsOps(c.params, o, scope) + [PushProgram(main), PushProgram(inverse)] + HashOps(c.hash, omit, o, scope)
  }

  predicate IsKnown(p: Path, o: Options) {
    p.parts != [] && p.parts[0] in o.knownHelpers
  }

  function InvokeOps(c: Sexpr, o: Options, scope: Scope): seq<Op> {
    if IsKnown(c.path, o) then [InvokeKnownHelper(|c.params|, c.path.parts[0])]
    else PathOps(c.path, true, true, scope) + [InvokeHelper(|c.params|, c.path.original, SimpleId(c.path))]
  }

  function HelperOps(c: Sexpr, main: Option<nat>, inverse: Option<nat>, o: Options, scope: Scope): seq<Op>
    decreases c, 1
  {
    SetupOps(c, main, inverse, false, o, scope) + InvokeOps(c, o, scope)
  }

  function AmbiguousOps(c: Sexpr, main: Option<nat>, inverse: Option<nat>, scope: Scope): seq<Op>
    requires c.path.parts != []
  {
    [GetContext(c.path.depth), PushProgram(main), PushProgram(inverse)]
    + PathOps(c.path, false, true, scope)
    + [InvokeAmbiguous(c.path.parts[0], main.Some? || inverse.Some?)]
  }

  function SimpleOps(c: Sexpr, scope: Scope): seq<Op> {
    PathOps(c.path, false, true, scope) + [ResolvePossibleLambda]
  }

  /** A mustache head or a sub-expression. */
  function CallOps(c: Sexpr, isHelper: bool, o: Options, scope: Scope): seq<Op>
    decreases c, 2
  {
    match Classify(c.path, isHelper, o, scope)
    case HelperKind => HelperOps(c, None, None, o, scope)
    case AmbiguousKind => AmbiguousOps(c, None, None, scope)
    case SimpleKind => SimpleOps(c, scope)
  }

  // ----- statements; `n` is the number the next nested program gets -----

  function Nested(s: Statement): seq<Program> {
    match s
    case Block(_, Main(p)) => [p]
    case Block(_, Inverse(i)) => [i]
    case Block(_, Both(p, i)) => [p, i]
    case Partial(_, _, _, _, Some(p)) => [p]
    case Decorator(_, Some(p)) => [p]
    case _ => []
  }

  function MainIndex(b: Bodies, n: nat): Option<nat> {
    if b.Inverse? then None else Some(n)
  }

  function InverseIndex(b: Bodies, n: nat): Option<nat> {
    match b
    case Main(_) => None
    case Inverse(_) => Some(n)
    case Both(_, _) => Some(n + 1)
  }

  function BodyIndex(body: Option<Program>, n: nat): Option<nat> {
    if body.Some? then Some(n) else None
  }

  const CURRENT_CONTEXT := Path(false, 0, [], false, "")

  /** A partial's parameters and hash; without parameters the current context is passed. */
  function PartialCall(s: Statement, o: Options): Sexpr
    requires s.Partial?
  {
    Sexpr(CURRENT_CONTEXT,
          if s.params == [] && !o.explicitPartialContext then [PathExpr(CURRENT_CONTEXT)] else s.params, s.hash)
  }

  function BlockOps(c: Sexpr, main: Option<nat>, inverse: Option<nat>, o: Options, scope: Scope): seq<Op> {
    var programs := [PushProgram(main), PushProgram(inverse), EmptyHash(false)];
    match Classify(c.path, HasArguments(c), o, scope)
    case HelperKind => HelperOps(c, main, inverse, o, scope)
    case SimpleKind => SimpleOps(c, scope) + programs + [BlockValue(c.path.original)]
    case AmbiguousKind => AmbiguousOps(c, main, inverse, scope) + programs + [AmbiguousBlockValue]
  }

  function StaticNameOf(name: PartialName): string {
    if name.StaticName? then name.name else ""
  }

  /** An explicit undefined context, the computed name, then the usual arguments. */
  function PartialSetup(s: Statement, n: nat, o: Options, scope: Scope): seq<Op>
    requires s.Partial?
  {
    (if s.params == [] && o.explicitPartialContext then [PushLiteral(UndefinedLit)] else [])
    + (if s.name.DynamicName? then ExprOps(SubExpr(s.name.call), o, scope) else [])
    + SetupOps(PartialCall(s, o), BodyIndex(s.fallback, n), None, true, o, scope)
  }

  function PartialCallOps(s: Statement, o: Options): seq<Op>
    requires s.Partial?
  {
    var moved := o.preventIndent && s.indent != "";
    (if moved then [AppendContent(s.indent)] else [])
    + [InvokePartial(s.name.DynamicName?, StaticNameOf(s.name), if moved then "" else s.indent)]
  }

  function PartialOps(s: Statement, n: nat, o: Options, scope: Scope): seq<Op>
    requires s.Partial?
  {
    PartialSetup(s, n, o, scope) + PartialCallOps(s, o)
  }

  function StatementOps(s: Statement, n: nat, o: Options, scope: Scope): seq<Op> {
    match s
    case Content(value) => if value == "" then [] else [AppendContent(value)]
    case Comment => []
    case Mustache(c, escaped) =>
      CallOps(c, HasArguments(c), o, scope) + [if escaped && !o.noEscape then AppendEscaped else Append]
    case Block(c, bodies) => BlockOps(c, MainIndex(bodies, n), InverseIndex(bodies, n), o, scope) + [Append]
    case Partial(_, _, _, _, _) => PartialOps(s, n, o, scope) + [Append]
    case Decorator(c, body) =>
      SetupOps(c, BodyIndex(body, n), None, false, o, scope) + [RegisterDecorator(|c.params|, c.path.original)]
  }

  function BodyOps(body: seq<Statement>, n: nat, o: Options, scope: Scope): seq<Op>
    decreases body
  {
    if body == [] then []
    else StatementOps(body[0], n, o, scope) + BodyOps(body[1..], n + |Nested(body[0])|, o, scope)
  }
}
