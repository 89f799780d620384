/** The main results: a compiled template renders what its program means. */
module HandlebarsMain {
  import opened Wrappers
  import opened HandlebarsAst
  import opened HandlebarsOpcodes
  import opened HandlebarsMachine
  import opened HandlebarsCodegen
  import opened HandlebarsSemantics
  import opened HandlebarsPreservation
  import opened HandlebarsTemplates
  import opened HandlebarsRendering
  import opened HandlebarsNumbers
  import opened HandlebarsRuns
  import opened HandlebarsPartials
  import opened HandlebarsTheorems
  import opened HandlebarsCompiler

  // ----- all statements -----

  lemma PlainNeverOverdrawn(s: Statement, o: Options, scope: Scope)
    requires Plain(o)
    ensures !StatementOverdrawn(s, o, scope)
  {
  }

  lemma {:induction false} StatementTracks<W(!new)>(p: Statement, n: nat, out: Output, cfg: Config, chunks: seq<Value>, at: Setting<W>, s: Store, w: W)
    requires Enabled(cfg, at) && DepthsDeclared(StatementOps(p, n, at.o, at.scope), cfg)
    requires !Swapped(p, at.o) && (p.Partial? ==> |p.params| <= 1)
    requires var d := Collect(out.source, false, at.h, at.env, s, w); d.Collected? && Tracks(d, out.pending, Rendered(chunks, d.w))
    ensures !StatementOverdrawn(p, cfg.opts, at.scope)
    ensures var d := Collect(out.source, false, at.h, at.env, s, w);
            var next := StatementOutput(p, n, out, at.scope, cfg);
            Tracks(Collect(next.source, false, at.h, at.env, s, w), next.pending,
                   RenderStatement(p, n, chunks, at, cfg.isSimple, d.w))
  {
    hide Evaluate, CallOps, CallCode, MustacheMeaning, AppendValue, PushSource, BlockOps, BlockOutput, RenderBlock, PartialCode, PartialMeaning,
         PartialOps, Collect, AddText, AddChunks;
    PlainNeverOverdrawn(p, at.o, at.scope);
    var (h, env) := (at.h, at.env);
    var d := Collect(out.source, false, h, env, s, w);
    match p
    case Content(value) => AddTextTwice(AddChunks([], d.vs), out.pending, value);
    case Comment =>
    case Mustache(c, escaped) =>
      var code, m := CallCode(c, HasArguments(c), 0, at.scope, cfg), MustacheMeaning(c, at, d.w);
      assert DepthsDeclared(CallOps(c, HasArguments(c), at.o, at.scope), cfg);
      MustacheEvaluates(c, cfg, at, d.s, d.w);
      if escaped && !at.o.noEscape {
        EscapeTracks(out, code, m, cfg, chunks, h, env, s, w);
      } else {
        AppendTracks(out, code, m, cfg, chunks, h, env, s, w);
      }
    case Block(c, bodies) =>
      var main, inverse := MainIndex(bodies, n), InverseIndex(bodies, n);
      assert DepthsDeclared(BlockOps(c, main, inverse, at.o, at.scope), cfg);
      BlockTracks(c, main, inverse, out, cfg, chunks, at, s, w);
    case Partial(_, _, _, indent, _) =>
      var before := if cfg.opts.preventIndent then Pend(out, indent) else out;
      AddTextTwice(AddChunks([], d.vs), out.pending, indent);
      PartialEvaluates(p, n, cfg, at, d.s, d.w);
      AppendTracks(before, PartialCode(p, n, at.scope, cfg), PartialMeaning(p, n, at, d.w), cfg,
                   if cfg.opts.preventIndent then AddText(chunks, indent) else chunks, h, env, s, w);
    case Decorator(_, _) =>
  }

  predicate Renderable(body: seq<Statement>, o: Options) {
    forall i :: 0 <= i < |body| ==> !Swapped(body[i], o) && (body[i].Partial? ==> |body[i].params| <= 1)
  }

  /** A thrown error leaves everything emitted later unreached. */
  lemma {:induction false} ThrownStays<W(!new)>(body: seq<Statement>, n: nat, out: Output, cfg: Config, scope: Scope, h: Host<W>, env: Env, s: Store, w: W)
    requires NoneOverdrawn(body, cfg.opts, scope) && PartialsWellFormed(body)
    requires Collect(out.source, false, h, env, s, w).CollectThrew?
    ensures Collect(BodyOutput(body, n, out, scope, cfg).source, false, h, env, s, w) == Collect(out.source, false, h, env, s, w)
    decreases body
  {
    hide StatementOutput, Collect, StatementOverdrawn, NoneOverdrawn, PartialsWellFormed, BodyOutput;
    if body != [] {
      BodyFirst(body, n, out, cfg, scope);
      ThrownPast(body[0], n, out, cfg, scope, h, env, s, w);
      ThrownStays(body[1..], n + |Nested(body[0])|, StatementOutput(body[0], n, out, scope, cfg), cfg, scope, h, env, s, w);
    } else {
      BodyNone(n, out, cfg, scope);
    }
  }

  lemma {:induction false} BodyNone(n: nat, out: Output, cfg: Config, scope: Scope)
    ensures NoneOverdrawn([], cfg.opts, scope) && PartialsWellFormed([]) && BodyOutput([], n, out, scope, cfg) == out
  {
  }

  lemma BodyFirst(body: seq<Statement>, n: nat, out: Output, cfg: Config, scope: Scope)
    requires body != [] && NoneOverdrawn(body, cfg.opts, scope) && PartialsWellFormed(body)
    ensures !StatementOverdrawn(body[0], cfg.opts, scope) && (body[0].Partial? ==> |body[0].params| <= 1)
    ensures NoneOverdrawn(body[1..], cfg.opts, scope) && PartialsWellFormed(body[1..])
    ensures BodyOutput(body, n, out, scope, cfg)
         == BodyOutput(body[1..], n + |Nested(body[0])|, StatementOutput(body[0], n, out, scope, cfg), scope, cfg)
  {
    hide StatementOutput, StatementOverdrawn;
    NoneOverdrawnSplits(body, cfg.opts, scope);
  }

  lemma {:induction false} ThrownPast<W(!new)>(p: Statement, n: nat, out: Output, cfg: Config, scope: Scope, h: Host<W>, env: Env, s: Store, w: W)
    requires !StatementOverdrawn(p, cfg.opts, scope) && (p.Partial? ==> |p.params| <= 1)
    requires Collect(out.source, false, h, env, s, w).CollectThrew?
    ensures Collect(StatementOutput(p, n, out, scope, cfg).source, false, h, env, s, w) == Collect(out.source, false, h, env, s, w)
  {
    hide StatementOutput, Collect;
    StatementExtends(p, n, out, cfg, scope);
    var added :| StatementOutput(p, n, out, scope, cfg).source == out.source + added;
    CollectConcat(out.source, added, false, h, env, s, w);
  }

  lemma PushExtends(out: Output, line: Line, cfg: Config)
    ensures exists added :: PushSource(out, line, cfg).source == out.source + added
  {
    var flushed := FlushContent(out, cfg);
    if out.pending == "" {
      assert PushSource(out, line, cfg).source == out.source + [line];
    } else {
      var content := AppendLine(JText(out.pending), cfg);
      assert PushSource(out, line, cfg).source == out.source + ([content] + [line]);
    }
  }

  lemma ExtendsTwice(a: seq<Line>, b: seq<Line>, c: seq<Line>)
    requires exists x :: b == a + x
    requires exists y :: c == b + y
    ensures exists z :: c == a + z
  {
    var x :| b == a + x;
    var y :| c == b + y;
    assert c == a + (x + y);
  }

  lemma {:induction false} StatementExtends(p: Statement, n: nat, out: Output, cfg: Config, scope: Scope)
    requires !StatementOverdrawn(p, cfg.opts, scope) && (p.Partial? ==> |p.params| <= 1)
    ensures exists added :: StatementOutput(p, n, out, scope, cfg).source == out.source + added
  {
    hide PushSource, CallCode, HelperCode, AmbiguousCode, SimpleCode, PartialCode, Replaced, MissingBlock, BlockArguments;
    assert out.source == out.source + [];
    match p
    case Mustache(c, escaped) =>
      var code := CallCode(c, HasArguments(c), 0, scope, cfg);
      PushExtends(out, AppendLine(JEscape(code), cfg), cfg);
      PushExtends(out, AppendLine(Replaced(Code(code), 0, OrEmpty()).e, cfg), cfg);
    case Block(c, bodies) => BlockExtends(c, MainIndex(bodies, n), InverseIndex(bodies, n), out, cfg, scope);
    case Partial(_, _, _, indent, _) =>
      var before := if cfg.opts.preventIndent then Pend(out, indent) else out;
      PushExtends(before, AppendLine(Replaced(Code(PartialCode(p, n, scope, cfg)), 0, OrEmpty()).e, cfg), cfg);
    case _ =>
  }

  lemma {:induction false} BlockExtends(c: Sexpr, main: Option<nat>, inverse: Option<nat>, out: Output, cfg: Config, scope: Scope)
    requires !CallOverdrawn(c, HasArguments(c), cfg.opts, scope)
    ensures exists added :: BlockOutput(c, main, inverse, out, scope, cfg).source == out.source + added
  {
    hide PushSource, HelperCode, AmbiguousCode, SimpleCode, Replaced, MissingBlock, BlockArguments;
    match Classify(c.path, HasArguments(c), cfg.opts, scope)
    case HelperKind =>
      PushExtends(out, AppendLine(Replaced(Code(HelperCode(c, main, inverse, 0, scope, cfg)), 0, OrEmpty()).e, cfg), cfg);
    case SimpleKind =>
      var a := BlockArguments(c.path.original, main, inverse, cfg.opts);
      var code := MissingBlock(SimpleCode(c, 0, scope, cfg), ObjectLiteral(a.fields));
      PushExtends(out, AppendLine(Replaced(Code(code), 0, OrEmpty()).e, cfg), cfg);
    case AmbiguousKind =>
      var store := SetTemp(1, AmbiguousCode(c, main, inverse, 0, scope, cfg));
      var missing := IfNoHelper(Helper(c.path.parts[0]), JTemp(1), MissingBlock(JTemp(1), JOptionsVar));
      var test, otherwise := IfPresent(JTemp(1), AppendExplicitly(JTemp(1), cfg)), Otherwise(AppendExplicitly(JText(""), cfg));
      var a := PushSource(out, store, cfg);
      var b := PushSource(a, missing, cfg);
      var d := PushSource(b, test, cfg);
      PushExtends(out, store, cfg);
      PushExtends(a, missing, cfg);
      PushExtends(b, test, cfg);
      PushExtends(d, otherwise, cfg);
      ExtendsTwice(out.source, a.source, b.source);
      ExtendsTwice(out.source, b.source, d.source);
      ExtendsTwice(out.source, d.source, PushSource(d, otherwise, cfg).source);
  }

  lemma {:induction false} BodyTracks<W(!new)>(body: seq<Statement>, n: nat, out: Output, cfg: Config, chunks: seq<Value>, at: Setting<W>, s: Store, w: W)
    requires Enabled(cfg, at) && DepthsDeclared(BodyOps(body, n, at.o, at.scope), cfg) && Renderable(body, at.o)
    requires var d := Collect(out.source, false, at.h, at.env, s, w); d.Collected? && Tracks(d, out.pending, Rendered(chunks, d.w))
    ensures NoneOverdrawn(body, cfg.opts, at.scope) && PartialsWellFormed(body)
    ensures var d := Collect(out.source, false, at.h, at.env, s, w);
            var next := BodyOutput(body, n, out, at.scope, cfg);
            Tracks(Collect(next.source, false, at.h, at.env, s, w), next.pending,
                   RenderBody(body, n, chunks, at, cfg.isSimple, d.w))
    decreases body
  {
    hide StatementOps, StatementOutput, RenderStatement, Collect, StatementOverdrawn;
    forall i | 0 <= i < |body| ensures !StatementOverdrawn(body[i], cfg.opts, at.scope) {
      PlainNeverOverdrawn(body[i], at.o, at.scope);
    }
    if body != [] {
      var d := Collect(out.source, false, at.h, at.env, s, w);
      var next := StatementOutput(body[0], n, out, at.scope, cfg);
      var rest := n + |Nested(body[0])|;
      assert DepthsDeclared(StatementOps(body[0], n, at.o, at.scope), cfg);
      assert DepthsDeclared(BodyOps(body[1..], rest, at.o, at.scope), cfg);
      StatementTracks(body[0], n, out, cfg, chunks, at, s, w);
      var r := RenderStatement(body[0], n, chunks, at, cfg.isSimple, d.w);
      if r.Broken? {
        ThrownStays(body[1..], rest, next, cfg, at.scope, at.h, at.env, s, w);
      } else {
        BodyTracks(body[1..], rest, next, cfg, r.chunks, at, s, w);
      }
    }
  }

  // ----- what the statements emit, by form -----

  predicate ReturnFree(out: Output) {
    NeverReturns(out.source)
  }

  lemma {:induction false} PushReturnFree(out: Output, line: Line, cfg: Config)
    requires ReturnFree(out) && !Returns(line) && !cfg.isSimple
    ensures ReturnFree(PushSource(out, line, cfg))
  {
  }

  lemma {:induction false} BlockReturnFree(c: Sexpr, main: Option<nat>, inverse: Option<nat>, out: Output, cfg: Config, scope: Scope)
    requires !cfg.isSimple && ReturnFree(out) && !CallOverdrawn(c, HasArguments(c), cfg.opts, scope)
    ensures ReturnFree(BlockOutput(c, main, inverse, out, scope, cfg))
  {
    hide PushSource, HelperCode, AmbiguousCode, SimpleCode, Replaced, MissingBlock, BlockArguments;
    match Classify(c.path, HasArguments(c), cfg.opts, scope)
    case HelperKind =>
      PushReturnFree(out, AppendLine(Replaced(Code(HelperCode(c, main, inverse, 0, scope, cfg)), 0, OrEmpty()).e, cfg), cfg);
    case SimpleKind =>
      var a := BlockArguments(c.path.original, main, inverse, cfg.opts);
      var code := MissingBlock(SimpleCode(c, 0, scope, cfg), ObjectLiteral(a.fields));
      PushReturnFree(out, AppendLine(Replaced(Code(code), 0, OrEmpty()).e, cfg), cfg);
    case AmbiguousKind =>
      var store := SetTemp(1, AmbiguousCode(c, main, inverse, 0, scope, cfg));
      var missing := IfNoHelper(Helper(c.path.parts[0]), JTemp(1), MissingBlock(JTemp(1), JOptionsVar));
      PushReturnFree(out, store, cfg);
      PushReturnFree(PushSource(out, store, cfg), missing, cfg);
      PushReturnFree(PushSource(PushSource(out, store, cfg), missing, cfg), IfPresent(JTemp(1), AppendExplicitly(JTemp(1), cfg)), cfg);
  }

  lemma StatementReturnFree(p: Statement, n: nat, out: Output, cfg: Config, scope: Scope)
    requires !cfg.isSimple && ReturnFree(out)
    requires !StatementOverdrawn(p, cfg.opts, scope) && (p.Partial? ==> |p.params| <= 1)
    ensures ReturnFree(StatementOutput(p, n, out, scope, cfg))
  {
    hide PushSource, CallCode, HelperCode, AmbiguousCode, SimpleCode, PartialCode, Replaced, BlockOutput;
    match p
    case Mustache(c, escaped) =>
      var code := CallCode(c, HasArguments(c), 0, scope, cfg);
      PushReturnFree(out, AppendLine(JEscape(code), cfg), cfg);
      PushReturnFree(out, AppendLine(Replaced(Code(code), 0, OrEmpty()).e, cfg), cfg);
    case Block(c, bodies) => BlockReturnFree(c, MainIndex(bodies, n), InverseIndex(bodies, n), out, cfg, scope);
    case Partial(_, _, _, indent, _) =>
      var before := if cfg.opts.preventIndent then Pend(out, indent) else out;
      PushReturnFree(before, AppendLine(Replaced(Code(PartialCode(p, n, scope, cfg)), 0, OrEmpty()).e, cfg), cfg);
    case _ =>
  }

  lemma {:induction false} BodyReturnFree(body: seq<Statement>, n: nat, out: Output, cfg: Config, scope: Scope)
    requires !cfg.isSimple && ReturnFree(out)
    requires NoneOverdrawn(body, cfg.opts, scope) && PartialsWellFormed(body)
    ensures ReturnFree(BodyOutput(body, n, out, scope, cfg))
    decreases body
  {
    if body != [] {
      hide StatementOutput, StatementOverdrawn, ReturnFree;
      assert !StatementOverdrawn(body[0], cfg.opts, scope);
      StatementReturnFree(body[0], n, out, cfg, scope);
      BodyReturnFree(body[1..], n + |Nested(body[0])|, StatementOutput(body[0], n, out, scope, cfg), cfg, scope);
    }
  }

  // ----- programs of a single statement, which return directly -----

  lemma {:induction false} OneReturn<W(!new)>(e: Js, h: Host<W>, text: Value -> string, env: Env, s: Store, w: W)
    ensures Agrees(RunParts(Merge([Return(e)], true), Str(""), false, h, text, env, s, w),
                      Collect([Return(e)], false, h, env, s, w), false, text)
  {
    hide Evaluate, Agrees;
    var source := [Return(e)];
    assert Leading(source) == [];
    assert AllWhole(source) == [Whole(Return(e))] + AllWhole([]) && AllWhole([]) == [];
    CollectOne(Return(e), false, h, env, s, w);
    var r := Evaluate(e, h, env, s, w);
    if r.Val? {
      OneAgrees(r.v, r.s, r.w, false, text);
    } else {
      ThrewAgrees(r.w, false, text);
    }
  }

  lemma OneAgrees<W(!new)>(v: Value, s: Store, w: W, taken: bool, text: Value -> string)
    ensures Agrees(Returned(v, w), Collected([v], s, w, taken), false, text)
  {
    TextOne(v, text);
  }

  lemma {:induction false} NoLine<W(!new)>(h: Host<W>, text: Value -> string, env: Env, s: Store, w: W)
    ensures Agrees(RunParts(Merge([], true), Str(""), false, h, text, env, s, w), Collect([], false, h, env, s, w), false, text)
  {
  }

  /** if (v != null) { return v; } else { return ''; } */
  lemma {:induction false} TwoReturns<W(!new)>(e: Js, other: Js, taken: bool, h: Host<W>, text: Value -> string, env: Env, s: Store, w: W)
    ensures var lines := [IfPresent(e, Return(e))] + [Otherwise(Return(other))];
            Agrees(RunParts(AllWhole(lines), Str(""), taken, h, text, env, s, w), Collect(lines, taken, h, env, s, w), false, text)
  {
    hide Evaluate, Agrees;
    var first, second := IfPresent(e, Return(e)), Otherwise(Return(other));
    var lines := [first] + [second];
    assert lines[1..] == [second] && [second][1..] == [];
    assert AllWhole(lines) == [Whole(first)] + AllWhole([second]);
    assert AllWhole([second]) == [Whole(second)] + AllWhole([]) && AllWhole([]) == [];
    assert AllWhole(lines)[1..] == [Whole(second)] && [Whole(second)][1..] == [];
    CollectConcat([first], [second], taken, h, env, s, w);
    CollectOne(first, taken, h, env, s, w);
    var r := RunLine(first, taken, h, env, s, w);
    if r.LineDone? {
      CollectOne(second, r.taken, h, env, r.s, r.w);
      AppendsOne(first, taken, h, env, s, w);
      if r.appended == [] {
        assert Returns(Return(other)) && Returns(second);
        var t := RunLine(second, r.taken, h, env, r.s, r.w);
        assert !r.taken && t == Appended(Evaluate(other, h, env, r.s, r.w), false);
        if t.LineDone? {
          var v := t.appended[0];
          assert t.appended == [v] && [] + ([v] + []) == [v];
          assert Collect(lines, taken, h, env, s, w) == Collected([v], t.s, t.w, t.taken);
          assert RunParts(AllWhole(lines), Str(""), taken, h, text, env, s, w) == Returned(v, t.w);
          OneAgrees(v, t.s, t.w, t.taken, text);
        } else {
          ThrewAgrees(t.w, false, text);
        }
      } else {
        assert Returns(Return(e)) && Returns(first);
        assert r.taken && RunLine(second, true, h, env, r.s, r.w) == LineDone([], r.s, r.w, true);
        OneAgrees(r.appended[0], r.s, r.w, true, text);
        assert r.appended == [r.appended[0]] && [] + ([r.appended[0]] + []) == [r.appended[0]];
      }
    } else {
      ThrewAgrees(r.w, false, text);
    }
  }

  /** A line that appends nothing, in front of lines that agree. */
  lemma {:induction false} SilentFirst<W(!new)>(line: Line, lines: seq<Line>, taken: bool, h: Host<W>, text: Value -> string, env: Env, s: Store, w: W)
    requires line.SetTemp? || line.IfNoHelper?
    requires forall t, s1: Store, w1: W ::
      Agrees(RunParts(AllWhole(lines), Str(""), t, h, text, env, s1, w1), Collect(lines, t, h, env, s1, w1), false, text)
    ensures Agrees(RunParts(AllWhole([line] + lines), Str(""), taken, h, text, env, s, w),
                      Collect([line] + lines, taken, h, env, s, w), false, text)
  {
    hide Evaluate, Agrees, AllWhole;
    AllWholeCons(line, lines);
    assert ([Whole(line)] + AllWhole(lines))[1..] == AllWhole(lines);
    CollectConcat([line], lines, taken, h, env, s, w);
    CollectOne(line, taken, h, env, s, w);
    var r := RunLine(line, taken, h, env, s, w);
    if r.LineDone? {
      assert r.appended == [];
      var c := Collect(lines, r.taken, h, env, r.s, r.w);
      assert c.Collected? ==> [] + c.vs == c.vs;
      assert Collect([line] + lines, taken, h, env, s, w) == c;
      assert RunParts(AllWhole([line] + lines), Str(""), taken, h, text, env, s, w)
          == RunParts(AllWhole(lines), Str(""), r.taken, h, text, env, r.s, r.w);
    } else {
      ThrewAgrees(r.w, false, text);
    }
  }

  lemma {:induction false} AllWholeCons(line: Line, lines: seq<Line>)
    ensures AllWhole([line] + lines) == [Whole(line)] + AllWhole(lines)
  {
    assert ([line] + lines)[1..] == lines;
  }

  /** A bare block on its own: store, hand over if there is no helper, return. */
  lemma {:induction false} FourLines<W(!new)>(store: Line, missing: Line, e: Js, other: Js, h: Host<W>, text: Value -> string, env: Env, s: Store, w: W)
    requires store.SetTemp? && missing.IfNoHelper?
    ensures var lines := [store] + ([missing] + ([IfPresent(e, Return(e))] + [Otherwise(Return(other))]));
            Agrees(RunParts(Merge(lines, true), Str(""), false, h, text, env, s, w), Collect(lines, false, h, env, s, w), false, text)
  {
    hide Evaluate, Agrees, RunLine, RunParts, Collect;
    var last := [IfPresent(e, Return(e))] + [Otherwise(Return(other))];
    forall t, s1: Store, w1: W
      ensures Agrees(RunParts(AllWhole(last), Str(""), t, h, text, env, s1, w1), Collect(last, t, h, env, s1, w1), false, text)
    {
      TwoReturns(e, other, t, h, text, env, s1, w1);
    }
    forall t, s1: Store, w1: W
      ensures Agrees(RunParts(AllWhole([missing] + last), Str(""), t, h, text, env, s1, w1), Collect([missing] + last, t, h, env, s1, w1), false, text)
    {
      SilentFirst(missing, last, t, h, text, env, s1, w1);
    }
    SilentFirst(store, [missing] + last, false, h, text, env, s, w);
    assert Leading([store] + ([missing] + last)) == [];
  }

  /** A partial alone in its program whose indentation has been moved in front of it is never reached. */
  predicate Unreached(body: seq<Statement>, o: Options) {
    |body| == 1 && body[0].Partial? && o.preventIndent && body[0].indent != ""
  }

  const NOTHING := Output([], "")

  lemma OnlyLine(line: Line, cfg: Config)
    ensures PushSource(NOTHING, line, cfg) == Output([line], "")
    ensures FlushContent(Output([line], ""), cfg) == Output([line], "")
  {
    assert [] + [line] == [line];
  }

  lemma {:induction false} SimpleBlockAgrees<W(!new)>(c: Sexpr, main: Option<nat>, inverse: Option<nat>, cfg: Config, scope: Scope,
                                   h: Host<W>, text: Value -> string, env: Env, s: Store, w: W)
    requires cfg.isSimple && !CallOverdrawn(c, HasArguments(c), cfg.opts, scope)
    ensures var out := FlushContent(BlockOutput(c, main, inverse, NOTHING, scope, cfg), cfg);
            Agrees(RunTemplate(out, true, h, text, env, s, w), Collect(out.source, false, h, env, s, w), false, text)
  {
    hide PushSource, HelperCode, AmbiguousCode, SimpleCode, Replaced, MissingBlock, BlockArguments, RunParts, Merge, Collect, Agrees,
         FlushContent;
    match Classify(c.path, HasArguments(c), cfg.opts, scope)
    case HelperKind =>
      var e := Replaced(Code(HelperCode(c, main, inverse, 0, scope, cfg)), 0, OrEmpty()).e;
      OnlyLine(Return(e), cfg);
      OneReturn(e, h, text, env, s, w);
    case SimpleKind =>
      var a := BlockArguments(c.path.original, main, inverse, cfg.opts);
      var e := Replaced(Code(MissingBlock(SimpleCode(c, 0, scope, cfg), ObjectLiteral(a.fields))), 0, OrEmpty()).e;
      OnlyLine(Return(e), cfg);
      OneReturn(e, h, text, env, s, w);
    case AmbiguousKind =>
      var store := SetTemp(1, AmbiguousCode(c, main, inverse, 0, scope, cfg));
      var missing := IfNoHelper(Helper(c.path.parts[0]), JTemp(1), MissingBlock(JTemp(1), JOptionsVar));
      FourPushed(store, missing, cfg);
      FourLines(store, missing, JTemp(1), JText(""), h, text, env, s, w);
  }

  lemma FourPushed(store: Line, missing: Line, cfg: Config)
    requires cfg.isSimple
    ensures var out := AppendFlushed(PushSource(PushSource(NOTHING, store, cfg), missing, cfg), JTemp(1), cfg);
            FlushContent(out, cfg) == Output([store] + ([missing] + ([IfPresent(JTemp(1), Return(JTemp(1)))] + [Otherwise(Return(JText("")))])), "")
  {
    var test, otherwise := IfPresent(JTemp(1), Return(JTemp(1))), Otherwise(Return(JText("")));
    assert [] + [store] + [missing] + [test] + [otherwise] == [store] + ([missing] + ([test] + [otherwise]));
  }

  lemma {:induction false} SimpleAgrees<W(!new)>(p: Statement, cfg: Config, scope: Scope, h: Host<W>, text: Value -> string, env: Env, s: Store, w: W)
    requires cfg.isSimple && !Unreached([p], cfg.opts)
    requires !StatementOverdrawn(p, cfg.opts, scope) && (p.Partial? ==> |p.params| <= 1)
    ensures var out := FlushContent(StatementOutput(p, 0, NOTHING, scope, cfg), cfg);
            Agrees(RunTemplate(out, true, h, text, env, s, w), Collect(out.source, false, h, env, s, w), false, text)
  {
    hide PushSource, CallCode, PartialCode, Replaced, BlockOutput, RunParts, Merge, Collect, Agrees;
    NoLine(h, text, env, s, w);
    assert "" + "" == "";
    match p
    case Content(value) =>
      OneReturn(JText(value), h, text, env, s, w);
      assert "" + value == value && [] + [Return(JText(value))] == [Return(JText(value))];
    case Comment =>
    case Mustache(c, escaped) =>
      var code := CallCode(c, HasArguments(c), 0, scope, cfg);
      var e := if escaped && !cfg.opts.noEscape then JEscape(code) else Replaced(Code(code), 0, OrEmpty()).e;
      OnlyLine(Return(e), cfg);
      OneReturn(e, h, text, env, s, w);
    case Block(c, bodies) =>
      SimpleBlockAgrees(c, MainIndex(bodies, 0), InverseIndex(bodies, 0), cfg, scope, h, text, env, s, w);
    case Partial(_, _, _, indent, _) =>
      var e := Replaced(Code(PartialCode(p, 0, scope, cfg)), 0, OrEmpty()).e;
      assert Pend(NOTHING, "") == NOTHING;
      OnlyLine(Return(e), cfg);
      OneReturn(e, h, text, env, s, w);
    case Decorator(_, _) =>
  }

  // ----- the main theorem -----

  /** The compiled function adds numbers to each other instead of joining their texts. */
  predicate Meets<W>(out: Output, cfg: Config, at: Setting<W>, s: Store, w: W) {
    !cfg.isSimple && MeetIn(out.source, at.h, at.env, s, w)
  }

  /**
   Compiling a program succeeds, and running the compiled function does what rendering the program means: the same
   failures, the same changes of the world, and the same text exactly when no two numbers are added to each other,
   which never happens when no number is rendered directly behind a number.
   */
  lemma {:induction false} TemplateRenders<W(!new)>(body: seq<Statement>, cfg: Config, at: Setting<W>, text: Value -> string, s: Store, w: W)
    requires Enabled(cfg, at) && (cfg.isSimple <==> |body| == 1)
    requires DepthsDeclared(BodyOps(body, 0, at.o, at.scope), cfg)
    requires Renderable(body, at.o) && !Unreached(body, at.o)
    ensures Compile(BodyOps(body, 0, at.o, at.scope), cfg).Success?
    ensures var out := Compile(BodyOps(body, 0, at.o, at.scope), cfg).value;
            var r := RunTemplate(out, cfg.isSimple, at.h, text, at.env, s, w);
            match RenderBody(body, 0, [], at, cfg.isSimple, w)
            case Broken(w1) => r == Threw(w1)
            case Rendered(chunks, w1) =>
              && r.Returned? && r.w == w1
              && SameUnless(Meets(out, cfg, at, s, w), Text(r.value, text), TextOf(chunks, text), text)
              && (Clean(chunks) ==> !Meets(out, cfg, at, s, w))
  {
    hide BodyOps, StatementOutput, RenderBody, RunTemplate, StatementOverdrawn, Evaluate, Compile, BodyGroups, NumbersMeet, Clean, SameUnless;
    var (h, env) := (at.h, at.env);
    NothingTracks(h, env, s, w);
    BodyTracks(body, 0, NOTHING, cfg, [], at, s, w);
    CompilesIff(body, at.scope, cfg);
    var before := BodyOutput(body, 0, NOTHING, at.scope, cfg);
    var out := FlushContent(before, cfg);
    if cfg.isSimple {
      assert body == [body[0]] && body[1..] == [];
      assert before == StatementOutput(body[0], 0, NOTHING, at.scope, cfg);
      SimpleAgrees(body[0], cfg, at.scope, h, text, env, s, w);
    } else {
      BodyReturnFree(body, 0, NOTHING, cfg, at.scope);
      FlushReturnFree(before, cfg);
      MergedAgrees(out.source, h, text, env, s, w);
      TemplateIsMerged(out, h, text, env, s, w);
    }
    FlushedRenders(before, cfg, RenderBody(body, 0, [], at, cfg.isSimple, w),
                   RunTemplate(out, cfg.isSimple, h, text, env, s, w), Meets(out, cfg, at, s, w), h, text, env, s, w);
  }

  lemma {:induction false} TemplateIsMerged<W(!new)>(out: Output, h: Host<W>, text: Value -> string, env: Env, s: Store, w: W)
    ensures RunTemplate(out, false, h, text, env, s, w) == RunParts(Merge(out.source, false), Str(""), false, h, text, env, s, w)
  {
  }

  lemma {:induction false} NothingTracks<W(!new)>(h: Host<W>, env: Env, s: Store, w: W)
    ensures var d := Collect(NOTHING.source, false, h, env, s, w);
            d.Collected? && d.w == w && d.s == s && Tracks(d, NOTHING.pending, Rendered([], w))
  {
  }

  lemma FlushReturnFree(out: Output, cfg: Config)
    requires ReturnFree(out) && !cfg.isSimple
    ensures ReturnFree(FlushContent(out, cfg))
  {
  }

  lemma {:induction false} FlushedRenders<W(!new)>(before: Output, cfg: Config, m: Rendering<W>, r: Outcome<W>, meet: bool,
                                h: Host<W>, text: Value -> string, env: Env, s: Store, w: W)
    requires Tracks(Collect(before.source, false, h, env, s, w), before.pending, m)
    requires var c := Collect(FlushContent(before, cfg).source, false, h, env, s, w);
             Agrees(r, c, meet, text) && (c.Collected? && Clean(c.vs) ==> !meet)
    ensures match m
            case Broken(w1) => r == Threw(w1)
            case Rendered(chunks, w1) =>
              && r.Returned? && r.w == w1
              && SameUnless(meet, Text(r.value, text), TextOf(chunks, text), text)
              && (Clean(chunks) ==> !meet)
  {
    hide Collect, Clean, FlushContent, AddText, AddChunks, Numerals;
    CollectFlushed(before, cfg, false, h, env, s, w);
    var c := Collect(before.source, false, h, env, s, w);
    if c.Collected? {
      var vs := c.vs + Pending(before.pending);
      AddPending(AddChunks([], c.vs), before.pending);
      AddChunksConcat([], c.vs, Pending(before.pending));
      AddChunksKeep([], vs, text);
      assert [] + vs == vs;
      assert TextOf([], text) + TextOf(vs, text) == TextOf(vs, text);
    }
  }

  /** Two numbers that open the output are added: the text is that of their sum. */
  lemma {:induction false} NumbersAreAdded<W(!new)>(a: Js, b: Js, x: int, y: int, h: Host<W>, text: Value -> string, env: Env, s: Store, w: W)
    requires var r := Evaluate(a, h, env, s, w); r.Val? && r.v == Num(x)
    requires var r := Evaluate(a, h, env, s, w); var t := Evaluate(b, h, env, r.s, r.w); t.Val? && t.v == Num(y)
    ensures var r := RunTemplate(Output([Piece(a), Piece(b)], ""), false, h, text, env, s, w);
            r.Returned? && r.value == Num(x + y)
  {
    hide Evaluate;
    var source := [Piece(a), Piece(b)];
    assert source[1..] == [Piece(b)] && [Piece(b)][1..] == [];
    assert Leading([Piece(b)]) == [b] + Leading([]) && Leading([]) == [];
    assert Leading(source) == [a, b];
    assert [a, b][1..] == [b] && [b][1..] == [];
    var r := Evaluate(a, h, env, s, w);
    var t := Evaluate(b, h, env, r.s, r.w);
    assert SumFrom(Num(x), [b], h, text, env, r.s, r.w) == SumFrom(Num(x + y), [], h, text, env, t.s, t.w);
  }

  /** Behind a string the same two numbers are joined. */
  lemma {:induction false} NumbersBehindText<W(!new)>(t: string, a: Js, b: Js, x: int, y: int, h: Host<W>, text: Value -> string, env: Env, s: Store, w: W)
    requires var r := Evaluate(a, h, env, s, w); r.Val? && r.v == Num(x)
    requires var r := Evaluate(a, h, env, s, w); var t := Evaluate(b, h, env, r.s, r.w); t.Val? && t.v == Num(y)
    ensures var r := RunTemplate(Output([Piece(JText(t)), Piece(a), Piece(b)], ""), false, h, text, env, s, w);
            r.Returned? && r.value == Str((t + text(Num(x))) + text(Num(y)))
  {
    hide Evaluate;
    var run := [JText(t), a, b];
    var source := [Piece(JText(t)), Piece(a), Piece(b)];
    assert source[1..] == [Piece(a), Piece(b)] && [Piece(a), Piece(b)][1..] == [Piece(b)] && [Piece(b)][1..] == [];
    assert Leading([Piece(b)]) == [b] + Leading([]) && Leading([]) == [];
    assert Leading([Piece(a), Piece(b)]) == [a] + [b];
    assert Leading(source) == run;
    assert run[1..] == [a, b] && [a, b][1..] == [b] && [b][1..] == [];
    EvalText(t, h, env, s, w);
    var r := Evaluate(a, h, env, s, w);
    var q := Evaluate(b, h, env, r.s, r.w);
    var first := Str(t + text(Num(x)));
    assert SumFrom(first, [b], h, text, env, r.s, r.w) == SumFrom(Str(first.s + text(Num(y))), [], h, text, env, q.s, q.w);
    assert SumFrom(Str(t), [a, b], h, text, env, s, w) == SumFrom(first, [b], h, text, env, r.s, r.w);
  }

  /** The family left out by Unreached: only the indentation is rendered and the partial is not invoked. */
  lemma {:induction false} UnreachedPartial<W(!new)>(body: seq<Statement>, cfg: Config, at: Setting<W>, text: Value -> string, s: Store, w: W)
    requires Enabled(cfg, at) && cfg.isSimple && Unreached(body, at.o) && |body[0].params| <= 1
    ensures NoneOverdrawn(body, cfg.opts, at.scope) && PartialsWellFormed(body)
    ensures var out := FlushContent(BodyOutput(body, 0, NOTHING, at.scope, cfg), cfg);
            RunTemplate(out, true, at.h, text, at.env, s, w) == Returned(Str(body[0].indent), w)
  {
    hide PartialCode, Replaced, Evaluate;
    var p := body[0];
    var indent, e := Return(JText(p.indent)), Return(Replaced(Code(PartialCode(p, 0, at.scope, cfg)), 0, OrEmpty()).e);
    assert body[1..] == [] && "" + p.indent == p.indent;
    var out := FlushContent(BodyOutput(body, 0, NOTHING, at.scope, cfg), cfg);
    var pended := Pend(NOTHING, p.indent);
    assert FlushContent(pended, cfg) == Output([] + [indent], "");
    assert StatementOutput(p, 0, NOTHING, at.scope, cfg) == PushSource(pended, e, cfg);
    assert BodyOutput([], |Nested(p)|, PushSource(pended, e, cfg), at.scope, cfg) == PushSource(pended, e, cfg);
    assert BodyOutput(body, 0, NOTHING, at.scope, cfg) == PushSource(pended, e, cfg);
    assert out.source == [] + [indent] + [e] == [indent] + [e];
    AllWholeCons(indent, [e]);
    assert Leading(out.source) == [];
    EvalText(p.indent, at.h, at.env, s, w);
  }

  /**
   From the tree to the output: a program the compiler accepts compiles, and the compiled function renders
   what the program means, unless a computed partial name meets an implied explicit context or a lone
   partial has had its indentation moved in front of it.
   */
  lemma {:induction false} ProgramRenders<W(!new)>(p: Program, scope: Scope, cfg: Config, at: Setting<W>, text: Value -> string, s: Store, w: W)
    requires Enabled(cfg, at) && at.scope == Inner(p, scope) && Allowed(p, at.o, scope)
    requires var env := EnvironmentOf(p, at.o, scope); (env.useDepths ==> cfg.useDepths) && cfg.isSimple == env.isSimple
    requires (forall i :: 0 <= i < |p.body| ==> !Swapped(p.body[i], at.o)) && !Unreached(p.body, at.o)
    ensures var ops := EnvironmentOf(p, at.o, scope).opcodes;
            Compile(ops, cfg).Success? &&
            var out := Compile(ops, cfg).value;
            var r := RunTemplate(out, cfg.isSimple, at.h, text, at.env, s, w);
            match RenderBody(p.body, 0, [], at, cfg.isSimple, w)
            case Broken(w1) => r == Threw(w1)
            case Rendered(chunks, w1) =>
              && r.Returned? && r.w == w1
              && SameUnless(Meets(out, cfg, at, s, w), Text(r.value, text), TextOf(chunks, text), text)
              && (Clean(chunks) ==> !Meets(out, cfg, at, s, w))
  {
    hide Compile, RunTemplate, RenderBody, BodyOps, BodyAllowed, StatementAllowed, Clean, TextOf, SameUnless, Meets;
    EnvironmentDeclares(p, at.o, scope, cfg);
    AllowedPartials(p.body, at.o, at.scope);
    TemplateRenders(p.body, cfg, at, text, s, w);
  }

  lemma {:induction false} AllowedPartials(body: seq<Statement>, o: Options, scope: Scope)
    requires BodyAllowed(body, o, scope)
    ensures PartialsWellFormed(body)
    decreases body
  {
    if body != [] {
      AllowedPartials(body[1..], o, scope);
      forall i | 0 <= i < |body| ensures body[i].Partial? ==> |body[i].params| <= 1 {
        if i > 0 {
          assert body[i] == body[1..][i - 1];
        } else {
          assert StatementAllowed(body[0], o, scope);
        }
      }
    }
  }

  // ----- templates whose numbers are kept apart -----

  /** Statements that render nothing. */
  predicate Silent(p: Statement) {
    p.Comment? || p.Decorator? || p == Content("")
  }

  /** Statements that render a string: content and what is escaped. */
  predicate ShowsText(p: Statement, o: Options) {
    p.Content? || (p.Mustache? && p.escaped && !o.noEscape)
  }

  predicate StartsWithText(p: Statement, o: Options) {
    p.Partial? && o.preventIndent && p.indent != ""
  }

  /** The chunks with the indentation that a partial writes in front of itself. */
  function Indented(p: Statement, chunks: seq<Value>, o: Options): seq<Value> {
    if StartsWithText(p, o) then AddChunk(chunks, Str(p.indent)) else chunks
  }

  lemma {:induction false} IndentedClean(p: Statement, chunks: seq<Value>, o: Options)
    requires Clean(chunks)
    ensures Clean(Indented(p, chunks, o))
    ensures EndsInNumber(false, Indented(p, chunks, o)) ==> !StartsWithText(p, o) && EndsInNumber(false, chunks)
  {
    hide Clean, AddChunk, EndsInNumber;
    if StartsWithText(p, o) {
      AddChunkClean(chunks, Str(p.indent));
    }
  }

  /** No two statements whose value is rendered as it is follow each other, with nothing but silent ones between them. */
  predicate Apart(body: seq<Statement>, o: Options, after: bool)
    decreases body
  {
    if body == [] then true
    else if Silent(body[0]) then Apart(body[1..], o, after)
    else if ShowsText(body[0], o) then Apart(body[1..], o, false)
    else (after ==> StartsWithText(body[0], o)) && Apart(body[1..], o, true)
  }

  lemma {:induction false} AddChunkClean(chunks: seq<Value>, v: Value)
    requires Clean(chunks) && (EndsInNumber(false, chunks) ==> !Numeric(v))
    ensures Clean(AddChunk(chunks, v)) && EndsInNumber(false, AddChunk(chunks, v)) == Numeric(v)
  {
    hide CleanAfter, AddChunk;
    AddChunkKeeps(chunks, v, x => "");
    CleanConcat(false, chunks, [v]);
    CleanOne(EndsInNumber(false, chunks), v);
  }

  /** A statement adds at most one value to the chunks, and it is a string where strings are shown. */
  lemma {:induction false} StatementAdds<W(!new)>(p: Statement, n: nat, chunks: seq<Value>, at: Setting<W>, isSimple: bool, w: W)
    ensures var r := RenderStatement(p, n, chunks, at, isSimple, w);
            r.Rendered? ==>
              && (Silent(p) ==> r.chunks == chunks)
              && (ShowsText(p, at.o) && !Silent(p) ==> exists v: Value :: v.Str? && r.chunks == AddChunk(chunks, v))
              && (r.chunks == chunks
                  || exists v: Value :: r.chunks == AddChunk(Indented(p, chunks, at.o), v))
  {
    hide AddChunk, MustacheMeaning, PartialMeaning, RenderBlock;
    var r := RenderStatement(p, n, chunks, at, isSimple, w);
    if r.Rendered? {
      match p
      case Content(value) =>
        var v := Str(value);
        assert value != "" ==> v.Str? && r.chunks == AddChunk(Indented(p, chunks, at.o), v) == AddChunk(chunks, v);
      case Mustache(c, escaped) =>
        var m := MustacheMeaning(c, at, w);
        var v := if escaped && !at.o.noEscape then Str(at.h.escape(m.vs[0])) else Shown(m.vs[0]);
        assert r.chunks == AddChunk(Indented(p, chunks, at.o), v) == AddChunk(chunks, v);
      case Block(c, bodies) =>
        BlockAdds(c, MainIndex(bodies, n), InverseIndex(bodies, n), chunks, at, isSimple, w);
        if r.chunks != chunks {
          var v: Value :| r.chunks == AddChunk(chunks, v);
          assert r.chunks == AddChunk(Indented(p, chunks, at.o), v);
        }
      case Partial(_, _, _, indent, _) =>
        var m := PartialMeaning(p, n, at, w);
        assert Indented(p, chunks, at.o) == if at.o.preventIndent then AddText(chunks, indent) else chunks;
        assert r.chunks == AddChunk(Indented(p, chunks, at.o), Shown(m.vs[0]));
      case _ =>
    }
  }

  lemma {:induction false} BlockAdds<W(!new)>(c: Sexpr, main: Option<nat>, inverse: Option<nat>, chunks: seq<Value>, at: Setting<W>,
                                              isSimple: bool, w: W)
    ensures var r := RenderBlock(c, main, inverse, chunks, at, isSimple, w);
            r.Rendered? ==> r.chunks == chunks || exists v: Value :: r.chunks == AddChunk(chunks, v)
  {
    hide AddChunk, HelperMeaning, AmbiguousBlock, BlockMissing, SimpleMeaning, OptionsValue, Show;
    match Classify(c.path, HasArguments(c), at.o, at.scope)
    case HelperKind => ShowAdds(chunks, HelperMeaning(c, main, inverse, at, w));
    case SimpleKind =>
      var options := OptionsValue(c.path.original, Record([]), main, inverse, at.o, at.env);
      ShowAdds(chunks, BlockMissing(SimpleMeaning(c, at, w), options, at, w));
    case AmbiguousKind => ShowAdds(chunks, AmbiguousBlock(c, main, inverse, at, w));
  }

  lemma ShowAdds<W(!new)>(chunks: seq<Value>, m: Meaning<W>)
    requires m.Means? ==> |m.vs| == 1
    ensures var r := Show(chunks, m); r.Rendered? ==> exists v: Value :: r.chunks == AddChunk(chunks, v)
  {
  }

  lemma {:induction false} ApartIsClean<W(!new)>(body: seq<Statement>, n: nat, chunks: seq<Value>, at: Setting<W>, isSimple: bool, w: W, after: bool)
    requires Apart(body, at.o, after) && Clean(chunks) && (EndsInNumber(false, chunks) ==> after)
    ensures var r := RenderBody(body, n, chunks, at, isSimple, w); r.Rendered? ==> Clean(r.chunks)
    decreases body
  {
    hide RenderStatement, AddChunk, Clean, EndsInNumber, Silent, ShowsText, StartsWithText, Indented;
    if body != [] {
      var p := body[0];
      var r := RenderStatement(p, n, chunks, at, isSimple, w);
      StatementAdds(p, n, chunks, at, isSimple, w);
      if r.Rendered? {
        var rest := n + |Nested(p)|;
        if Silent(p) {
          ApartIsClean(body[1..], rest, chunks, at, isSimple, r.w, after);
        } else if ShowsText(p, at.o) {
          var v: Value :| v.Str? && r.chunks == AddChunk(chunks, v);
          AddChunkClean(chunks, v);
          ApartIsClean(body[1..], rest, r.chunks, at, isSimple, r.w, false);
        } else {
          if r.chunks != chunks {
            IndentedClean(p, chunks, at.o);
            var v: Value :| r.chunks == AddChunk(Indented(p, chunks, at.o), v);
            AddChunkClean(Indented(p, chunks, at.o), v);
          }
          ApartIsClean(body[1..], rest, r.chunks, at, isSimple, r.w, true);
        }
      }
    }
  }

  /** Whatever the values are, a program that keeps its raw values apart renders the text it means. */
  lemma {:induction false} ApartRendersText<W(!new)>(p: Program, scope: Scope, cfg: Config, at: Setting<W>, text: Value -> string, s: Store, w: W)
    requires Enabled(cfg, at) && at.scope == Inner(p, scope) && Allowed(p, at.o, scope)
    requires var env := EnvironmentOf(p, at.o, scope); (env.useDepths ==> cfg.useDepths) && cfg.isSimple == env.isSimple
    requires (forall i :: 0 <= i < |p.body| ==> !Swapped(p.body[i], at.o)) && !Unreached(p.body, at.o)
    requires Apart(p.body, at.o, false)
    ensures var ops := EnvironmentOf(p, at.o, scope).opcodes;
            Compile(ops, cfg).Success? &&
            var r := RunTemplate(Compile(ops, cfg).value, cfg.isSimple, at.h, text, at.env, s, w);
            match RenderBody(p.body, 0, [], at, cfg.isSimple, w)
            case Broken(w1) => r == Threw(w1)
            case Rendered(chunks, w1) => r.Returned? && r.w == w1 && Text(r.value, text) == TextOf(chunks, text)
  {
    hide Compile, RunTemplate, RenderBody, Allowed, EnvironmentOf, Clean, TextOf, Meets, Apart, Unreached, Swapped, Numerals;
    ProgramRenders(p, scope, cfg, at, text, s, w);
    NothingClean();
    ApartIsClean(p.body, 0, [], at, cfg.isSimple, w, false);
  }

  lemma NothingClean()
    ensures Clean([]) && !EndsInNumber(false, [])
  {
  }
}
