/**
 The Handlebars syntax tree as the compiler receives it: the heads of mustaches and
 sub-expressions are paths (literal heads have already been turned into one-part paths).
 */
module HandlebarsAst {
  import opened Wrappers

  /** `scoped` is the outcome of the scopedId test on the path's original text. */
  datatype Path = Path(data: bool, depth: nat, parts: seq<string>, scoped: bool, original: string)

  datatype Expr =
    | PathExpr(path: Path)
    | StringLit(text: string)
    | NumberLit(number: int)
    | BooleanLit(truth: bool)
    | UndefinedLit
    | NullLit
    | SubExpr(call: Sexpr)

  datatype HashPair = HashPair(key: string, value: Expr)

  datatype Hash = NoHash | Pairs(pairs: seq<HashPair>)

  datatype Sexpr = Sexpr(path: Path, params: seq<Expr>, hash: Hash)

  /** A block written by the parser has a main program, an inverse program or both. */
  datatype Bodies =
    | Main(program: Program)
    | Inverse(inverse: Program)
    | Both(program: Program, inverse: Program)

  datatype PartialName = StaticName(name: string) | DynamicName(call: Sexpr)

  datatype Statement =
    | Content(value: string)
    | Comment
    | Mustache(call: Sexpr, escaped: bool)
    | Block(call: Sexpr, bodies: Bodies)
    | Partial(name: PartialName, params: seq<Expr>, hash: Hash,
              indent: string, fallback: Option<Program>)
    | Decorator(call: Sexpr, body: Option<Program>)

  datatype Program = Program(body: seq<Statement>, blockParams: Option<seq<string>>)

  /** `knownHelpers` is the merged table: the eight built-in helpers plus the caller's. */
  datatype Options = Options(
    compat: bool, data: bool, knownHelpers: set<string>, knownHelpersOnly: bool,
    noEscape: bool, explicitPartialContext: bool, preventIndent: bool,
    stringParams: bool, trackIds: bool, strict: bool, assumeObjects: bool)

  /** The block parameter lists in force, innermost first. */
  type Scope = seq<Option<seq<string>>>

  datatype Kind = HelperKind | AmbiguousKind | SimpleKind

  function IndexOf(names: seq<string>, name: string): (i: int)
    ensures -1 <= i < |names|
    ensures i >= 0 ==> names[i] == name && name !in names[..i]
    ensures i < 0 ==> name !in names
  {
    if names == [] then -1
    else if names[0] == name then 0
    else
      var rest := IndexOf(names[1..], name);
      if rest < 0 then -1 else rest + 1
  }

  /** blockParamIndex: the innermost list that declares `name`, and its position there. */
  function BlockParamIndex(name: string, scope: Scope): (found: Option<(nat, nat)>)
    ensures found.Some? ==>
      && found.value.0 < |scope| && scope[found.value.0].Some?
      && found.value.1 < |scope[found.value.0].value|
      && scope[found.value.0].value[found.value.1] == name
      && name !in scope[found.value.0].value[..found.value.1]
      && forall k :: 0 <= k < found.value.0 && scope[k].Some? ==> name !in scope[k].value
    ensures found.None? ==> forall k :: 0 <= k < |scope| && scope[k].Some? ==> name !in scope[k].value
  {
    if scope == [] then None
    else
      var here := if scope[0].Some? then IndexOf(scope[0].value, name) else -1;
      if here >= 0 then Some((0, here))
      else
        match BlockParamIndex(name, scope[1..])
        case Some(at) => Some((at.0 + 1, at.1))
        case None => None
  }

  predicate SimpleId(p: Path) {
    |p.parts| == 1 && !p.scoped && p.depth == 0
  }

  /** A path whose first part is present and not the empty string. */
  predicate Named(p: Path) {
    p.parts != [] && p.parts[0] != ""
  }

  function BlockParamOf(p: Path, scope: Scope): Option<(nat, nat)> {
    if p.depth == 0 && !p.scoped && p.parts != [] then BlockParamIndex(p.parts[0], scope) else None
  }

  /** classifySexpr; `isHelper` is the helperExpression test on the node. */
  function Classify(p: Path, isHelper: bool, opts: Options, scope: Scope): Kind {
    var simple := SimpleId(p);
    var blockParam := simple && BlockParamIndex(p.parts[0], scope).Some?;
    var helper := !blockParam && isHelper;
    var eligible := !blockParam && (helper || simple);
    if helper then HelperKind
    else if eligible && p.parts[0] in opts.knownHelpers then HelperKind
    else if eligible && !opts.knownHelpersOnly then AmbiguousKind
    else SimpleKind
  }

  predicate HasArguments(c: Sexpr) {
    c.params != [] || c.hash.Pairs?
  }
}
