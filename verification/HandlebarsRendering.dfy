/** The compiled function of a program renders what the program means. */
module HandlebarsRendering {
  import opened Wrappers
  import opened HandlebarsAst
  import opened HandlebarsOpcodes
  import opened HandlebarsMachine
  import opened HandlebarsCodegen
  import opened HandlebarsSemantics
  import opened HandlebarsPreservation
  import opened HandlebarsTemplates

  // ----- texts of values -----

  function TextOf(vs: seq<Value>, text: Value -> string): string {
    if vs == [] then "" else Text(vs[0], text) + TextOf(vs[1..], text)
  }

  /** No number follows a number directly: those would be added instead of joined. */
  predicate CleanAfter(number: bool, vs: seq<Value>)
    decreases vs
  {
    vs == [] || (!(number && Numeric(vs[0])) && CleanAfter(Numeric(vs[0]), vs[1..]))
  }

  predicate Clean(vs: seq<Value>) {
    CleanAfter(false, vs)
  }

  predicate EndsInNumber(number: bool, vs: seq<Value>) {
    if vs == [] then number else Numeric(vs[|vs| - 1])
  }

  lemma {:induction false} TextConcat(a: seq<Value>, b: seq<Value>, text: Value -> string)
    ensures TextOf(a + b, text) == TextOf(a, text) + TextOf(b, text)
  {
    if a == [] {
      assert a + b == b;
    } else {
      assert (a + b)[1..] == a[1..] + b;
      TextConcat(a[1..], b, text);
    }
  }

  lemma {:induction false} CleanConcat(number: bool, a: seq<Value>, b: seq<Value>)
    ensures CleanAfter(number, a + b) <==> CleanAfter(number, a) && CleanAfter(EndsInNumber(number, a), b)
    decreases a
  {
    if a == [] {
      assert a + b == b;
    } else {
      assert (a + b)[1..] == a[1..] + b;
      CleanConcat(Numeric(a[0]), a[1..], b);
    }
  }

  lemma TextOne(v: Value, text: Value -> string)
    ensures TextOf([v], text) == Text(v, text)
  {
    assert TextOf([], text) == "" && [v][1..] == [];
  }

  lemma {:induction false} CleanOne(number: bool, v: Value)
    ensures CleanAfter(number, [v]) <==> !(number && Numeric(v))
  {
    assert [v][1..] == [];
  }

  lemma {:induction false} AddChunkKeeps(chunks: seq<Value>, v: Value, text: Value -> string)
    ensures TextOf(AddChunk(chunks, v), text) == TextOf(chunks, text) + Text(v, text)
    ensures Clean(AddChunk(chunks, v)) <==> Clean(chunks + [v])
    ensures EndsInNumber(false, AddChunk(chunks, v)) == Numeric(v)
  {
    hide CleanAfter, TextOf;
    var last := |chunks| - 1;
    TextConcat(chunks, [v], text);
    TextOne(v, text);
    if chunks != [] && chunks[last].Str? && v.Str? {
      var front := chunks[..last];
      var joined := Str(chunks[last].s + v.s);
      assert chunks == front + [chunks[last]];
      TextConcat(front, [chunks[last]], text);
      TextConcat(front, [joined], text);
      TextOne(joined, text);
      TextOne(chunks[last], text);
      CleanConcat(false, front, [joined]);
      CleanConcat(false, front, [chunks[last]]);
      CleanOne(EndsInNumber(false, front), joined);
      CleanOne(EndsInNumber(false, front), chunks[last]);
      CleanOne(EndsInNumber(false, chunks), v);
      CleanConcat(false, chunks, [v]);
    }
  }

  lemma EndsInLast(vs: seq<Value>, v: Value)
    ensures EndsInNumber(false, vs + [v]) == Numeric(v)
  {
  }

  /** Joining neighbouring strings changes neither the text nor where numbers meet. */
  lemma {:induction false} AddChunksKeep(chunks: seq<Value>, vs: seq<Value>, text: Value -> string)
    ensures TextOf(AddChunks(chunks, vs), text) == TextOf(chunks, text) + TextOf(vs, text)
    ensures Clean(AddChunks(chunks, vs)) <==> Clean(chunks + vs)
    decreases vs
  {
    hide AddChunk, Text, CleanAfter, EndsInNumber;
    if vs == [] {
      assert chunks + vs == chunks;
      assert TextOf(chunks, text) + "" == TextOf(chunks, text);
    } else {
      var next := AddChunk(chunks, vs[0]);
      AddChunkKeeps(chunks, vs[0], text);
      AddChunksKeep(next, vs[1..], text);
      assert chunks + vs == (chunks + [vs[0]]) + vs[1..];
      CleanConcat(false, chunks + [vs[0]], vs[1..]);
      CleanConcat(false, next, vs[1..]);
      EndsInLast(chunks, vs[0]);
    }
  }

  lemma {:induction false} AddChunksConcat(chunks: seq<Value>, a: seq<Value>, b: seq<Value>)
    ensures AddChunks(chunks, a + b) == AddChunks(AddChunks(chunks, a), b)
    decreases a
  {
    if a == [] {
      assert a + b == b;
    } else {
      assert (a + b)[0] == a[0] && (a + b)[1..] == a[1..] + b;
      AddChunksConcat(AddChunk(chunks, a[0]), a[1..], b);
    }
  }

  lemma AddTextTwice(chunks: seq<Value>, a: string, b: string)
    ensures AddText(AddText(chunks, a), b) == AddText(chunks, a + b)
  {
    if a == "" {
      assert a + b == b;
    } else if b == "" {
      assert a + b == a;
    } else {
      var last := |chunks| - 1;
      if chunks != [] && chunks[last].Str? {
        JoinLast(chunks[..last], chunks[last].s + a, b);
        assert (chunks[last].s + a) + b == chunks[last].s + (a + b);
      } else {
        JoinLast(chunks, a, b);
      }
    }
  }

  lemma JoinLast(front: seq<Value>, a: string, b: string)
    ensures AddChunk(front + [Str(a)], Str(b)) == front + [Str(a + b)]
  {
    assert (front + [Str(a)])[..|front|] == front;
  }

  // ----- all the values some lines append -----

  datatype Collected<W> = CollectThrew(w: W) | Collected(vs: seq<Value>, s: Store, w: W, taken: bool)

  function Collect<W>(source: seq<Line>, taken: bool, h: Host<W>, env: Env, s: Store, w: W): Collected<W>
    decreases source
  {
    if source == [] then Collected([], s, w, taken)
    else
      var r := RunLine(source[0], taken, h, env, s, w);
      if r.LineThrew? then CollectThrew(r.w)
      else
        var rest := Collect(source[1..], r.taken, h, env, r.s, r.w);
        if rest.CollectThrew? then rest else rest.(vs := r.appended + rest.vs)
  }

  lemma {:induction false} CollectConcat<W>(a: seq<Line>, b: seq<Line>, taken: bool, h: Host<W>, env: Env, s: Store, w: W)
    ensures Collect(a + b, taken, h, env, s, w) ==
            var first := Collect(a, taken, h, env, s, w);
            if first.CollectThrew? then first
            else
              var rest := Collect(b, first.taken, h, env, first.s, first.w);
              if rest.CollectThrew? then rest else rest.(vs := first.vs + rest.vs)
    decreases a
  {
    hide RunLine;
    if a == [] {
      assert a + b == b;
    } else {
      assert (a + b)[0] == a[0] && (a + b)[1..] == a[1..] + b;
      var r := RunLine(a[0], taken, h, env, s, w);
      if r.LineDone? {
        CollectConcat(a[1..], b, r.taken, h, env, r.s, r.w);
        var first := Collect(a[1..], r.taken, h, env, r.s, r.w);
        if first.Collected? {
          var rest := Collect(b, first.taken, h, env, first.s, first.w);
          assert rest.Collected? ==> r.appended + (first.vs + rest.vs) == (r.appended + first.vs) + rest.vs;
        }
      }
    }
  }

  lemma {:induction false} CollectOne<W>(line: Line, taken: bool, h: Host<W>, env: Env, s: Store, w: W)
    ensures Collect([line], taken, h, env, s, w) ==
            var r := RunLine(line, taken, h, env, s, w);
            if r.LineThrew? then CollectThrew(r.w) else Collected(r.appended, r.s, r.w, r.taken)
  {
    hide RunLine;
    var r := RunLine(line, taken, h, env, s, w);
    assert [line][1..] == [];
    if r.LineDone? {
      assert Collect([], r.taken, h, env, r.s, r.w) == Collected([], r.s, r.w, r.taken);
      assert r.appended + [] == r.appended;
    }
  }

  function Pending(text: string): seq<Value> {
    if text == "" then [] else [Str(text)]
  }

  lemma {:induction false} AddPending(chunks: seq<Value>, text: string)
    ensures AddChunks(chunks, Pending(text)) == AddText(chunks, text)
  {
    if text != "" {
      assert AddChunks(chunks, [Str(text)]) == AddChunks(AddChunk(chunks, Str(text)), []);
    }
  }

  lemma {:induction false} RunAppendLine<W>(e: Js, cfg: Config, taken: bool, h: Host<W>, env: Env, s: Store, w: W)
    ensures RunLine(AppendLine(e, cfg), taken, h, env, s, w) == Appended(Evaluate(e, h, env, s, w), taken)
    ensures RunLine(AppendExplicitly(e, cfg), taken, h, env, s, w) == Appended(Evaluate(e, h, env, s, w), taken)
  {
    hide Evaluate;
  }

  /** Flushing the pending content appends exactly that content. */
  lemma {:induction false} CollectFlushed<W(!new)>(out: Output, cfg: Config, taken: bool, h: Host<W>, env: Env, s: Store, w: W)
    ensures var before := Collect(out.source, taken, h, env, s, w);
            Collect(FlushContent(out, cfg).source, taken, h, env, s, w)
            == if before.CollectThrew? then before else before.(vs := before.vs + Pending(out.pending))
  {
    hide RunLine, Evaluate, AppendLine;
    var before := Collect(out.source, taken, h, env, s, w);
    if out.pending == "" {
      assert before.Collected? ==> before.vs + [] == before.vs;
    } else {
      var line := AppendLine(JText(out.pending), cfg);
      CollectConcat(out.source, [line], taken, h, env, s, w);
      if before.Collected? {
        CollectOne(line, before.taken, h, env, before.s, before.w);
        RunAppendLine(JText(out.pending), cfg, before.taken, h, env, before.s, before.w);
        EvalText(out.pending, h, env, before.s, before.w);
      }
    }
  }

  lemma {:induction false} CollectPushed<W(!new)>(out: Output, line: Line, cfg: Config, taken: bool, h: Host<W>, env: Env, s: Store, w: W)
    ensures var before := Collect(out.source, taken, h, env, s, w);
            Collect(PushSource(out, line, cfg).source, taken, h, env, s, w) ==
            if before.CollectThrew? then before
            else
              var r := RunLine(line, before.taken, h, env, before.s, before.w);
              if r.LineThrew? then CollectThrew(r.w)
              else Collected(before.vs + Pending(out.pending) + r.appended, r.s, r.w, r.taken)
  {
    hide RunLine;
    CollectFlushed(out, cfg, taken, h, env, s, w);
    var flushed := FlushContent(out, cfg);
    CollectConcat(flushed.source, [line], taken, h, env, s, w);
    var before := Collect(flushed.source, taken, h, env, s, w);
    if before.Collected? {
      CollectOne(line, before.taken, h, env, before.s, before.w);
    }
  }

  // ----- statements -----

  /** Values collected so far and content still pending amount to the rendered chunks. */
  predicate Tracks<W(==)>(c: Collected<W>, pending: string, r: Rendering<W>) {
    match r
    case Broken(w) => c == CollectThrew(w)
    case Rendered(chunks, w) => c.Collected? && c.w == w && AddText(AddChunks([], c.vs), pending) == chunks
  }

  /** What a pushed line appends comes after the chunks so far. */
  lemma {:induction false} PushTracks<W(!new)>(out: Output, line: Line, cfg: Config, chunks: seq<Value>, h: Host<W>, env: Env, s: Store, w: W)
    requires var c := Collect(out.source, false, h, env, s, w); c.Collected? && Tracks(c, out.pending, Rendered(chunks, c.w))
    ensures var c := Collect(out.source, false, h, env, s, w);
            var r := RunLine(line, c.taken, h, env, c.s, c.w);
            var after := Collect(PushSource(out, line, cfg).source, false, h, env, s, w);
            PushSource(out, line, cfg).pending == "" &&
            if r.LineThrew? then after == CollectThrew(r.w)
            else after.Collected? && after.s == r.s && after.w == r.w && after.taken == r.taken
                 && AddChunks([], after.vs) == AddChunks(chunks, r.appended)
  {
    hide RunLine;
    var c := Collect(out.source, false, h, env, s, w);
    CollectPushed(out, line, cfg, false, h, env, s, w);
    AddPending(AddChunks([], c.vs), out.pending);
    AddChunksConcat([], c.vs, Pending(out.pending));
    var r := RunLine(line, c.taken, h, env, c.s, c.w);
    if r.LineDone? {
      AddChunksConcat([], c.vs + Pending(out.pending), r.appended);
    }
  }

  lemma {:induction false} AddOne(chunks: seq<Value>, v: Value)
    ensures AddChunks(chunks, [v]) == AddChunk(chunks, v) && AddChunks(chunks, []) == chunks
  {
    assert AddChunks(chunks, [v]) == AddChunks(AddChunk(chunks, v), []);
  }

  /** The appended form `(stack1 = e) != null ? stack1 : ""` shows the value. */
  lemma {:induction false} ShownForm<W(!new)>(e: Js, h: Host<W>, env: Env, s: Store, w: W)
    ensures var r := Evaluate(e, h, env, s, w);
            var shown := Evaluate(Replaced(Code(e), 0, OrEmpty()).e, h, env, s, w);
            if r.Thrown? then shown == r else shown.Val? && shown.v == Shown(r.v) && shown.w == r.w
  {
    var r := Evaluate(e, h, env, s, w);
    if r.Val? {
      hide Evaluate;
      EvalTemp(1, e, h, env, s, w);
      EvalIfPresent(JSetTemp(1, e), JTemp(1), JText(""), h, env, s, w);
      var t := r.s.(temps := r.s.temps[1 := r.v]);
      EvalText("", h, env, t, r.w);
    } else {
      hide GetProp, DataUp, DepthedLookup, LambdaOf, EvaluateAll, EvaluateFields, LiteralValue, Zip, Done;
      assert Evaluate(JSetTemp(1, e), h, env, s, w) == r;
    }
  }

  /** Generated code with the given meaning, whatever else it stores. */
  ghost predicate Evaluates<W(!new)>(r: Eval<W>, m: Meaning<W>) {
    match m
    case Fails(w) => r == Thrown(w)
    case Means(vs, w) => |vs| == 1 && r.Val? && r.v == vs[0] && r.w == w
  }

  lemma {:induction false} AppendTracks<W(!new)>(out: Output, e: Js, m: Meaning<W>, cfg: Config, chunks: seq<Value>, h: Host<W>, env: Env, s: Store, w: W)
    requires var c := Collect(out.source, false, h, env, s, w);
             c.Collected? && Tracks(c, out.pending, Rendered(chunks, c.w))
             && Evaluates(Evaluate(e, h, env, c.s, c.w), m)
    ensures var next := AppendValue(out, e, 0, cfg);
            Tracks(Collect(next.source, false, h, env, s, w), next.pending, Show(chunks, m))
  {
    hide Evaluate, AppendLine, RunLine, Replaced;
    var c := Collect(out.source, false, h, env, s, w);
    var form := Replaced(Code(e), 0, OrEmpty()).e;
    PushTracks(out, AppendLine(form, cfg), cfg, chunks, h, env, s, w);
    RunAppendLine(form, cfg, c.taken, h, env, c.s, c.w);
    ShownForm(e, h, env, c.s, c.w);
    if m.Means? {
      AddOne(chunks, Shown(m.vs[0]));
    }
  }

  lemma {:induction false} EvalEscape<W(!new)>(e: Js, h: Host<W>, env: Env, s: Store, w: W)
    ensures var r := Evaluate(e, h, env, s, w);
            Evaluate(JEscape(e), h, env, s, w) == if r.Thrown? then r else Val(Str(h.escape(r.v)), r.s, r.w)
  {
  }

  lemma {:induction false} EscapeTracks<W(!new)>(out: Output, e: Js, m: Meaning<W>, cfg: Config, chunks: seq<Value>, h: Host<W>, env: Env, s: Store, w: W)
    requires var c := Collect(out.source, false, h, env, s, w);
             c.Collected? && Tracks(c, out.pending, Rendered(chunks, c.w))
             && Evaluates(Evaluate(e, h, env, c.s, c.w), m)
    ensures var next := PushSource(out, AppendLine(JEscape(e), cfg), cfg);
            Tracks(Collect(next.source, false, h, env, s, w), next.pending,
                   if m.Fails? then Broken(m.w) else Rendered(AddChunk(chunks, Str(h.escape(m.vs[0]))), m.w))
  {
    hide Evaluate, AppendLine, RunLine;
    var c := Collect(out.source, false, h, env, s, w);
    PushTracks(out, AppendLine(JEscape(e), cfg), cfg, chunks, h, env, s, w);
    RunAppendLine(JEscape(e), cfg, c.taken, h, env, c.s, c.w);
    EvalEscape(e, h, env, c.s, c.w);
    if m.Means? {
      AddOne(chunks, Str(h.escape(m.vs[0])));
    }
  }

  // ----- bare names -----

  lemma {:induction false} EvalSetHelper<W(!new)>(e: Js, h: Host<W>, env: Env, s: Store, w: W)
    ensures var r := Evaluate(e, h, env, s, w);
            Evaluate(JSetHelper(e), h, env, s, w) == if r.Thrown? then r else r.(s := r.s.(helper := r.v))
  {
  }

  lemma {:induction false} EvalSetOptions<W(!new)>(e: Js, h: Host<W>, env: Env, s: Store, w: W)
    ensures var r := Evaluate(e, h, env, s, w);
            Evaluate(JSetOptions(e), h, env, s, w) == if r.Thrown? then r else r.(s := r.s.(options := r.v))
  {
  }

  lemma {:induction false} EvalComma<W(!new)>(left: Js, right: Js, h: Host<W>, env: Env, s: Store, w: W)
    ensures var r := Evaluate(left, h, env, s, w);
            (r.Thrown? ==> Evaluate(JComma(left, right), h, env, s, w) == r)
            && (r.Val? ==> Evaluate(JComma(left, right), h, env, s, w) == Evaluate(right, h, env, r.s, r.w))
  {
    var comma := JComma(left, right);
    assert comma.JComma? && comma.left == left && comma.right == right;
  }

  lemma {:induction false} EvalIfFunction<W(!new)>(yes: Js, h: Host<W>, env: Env, s: Store, w: W)
    ensures Evaluate(JIfFunction(JHelperVar, yes, JHelperVar), h, env, s, w)
         == if h.isFunction(s.helper) then Evaluate(yes, h, env, s, w) else Val(s.helper, s, w)
  {
    assert Evaluate(JHelperVar, h, env, s, w) == Val(s.helper, s, w);
  }

  lemma {:induction false} EvalRegisters<W(!new)>(h: Host<W>, env: Env, s: Store, w: W)
    ensures Evaluate(JHelperVar, h, env, s, w) == Val(s.helper, s, w)
    ensures Evaluate(JOptionsVar, h, env, s, w) == Val(s.options, s, w)
    ensures forall slot :: Evaluate(JTemp(slot), h, env, s, w) == Val(s.Temp(slot), s, w)
    ensures forall t, x :: Evaluate(JContext(0), h, env, t, x) == Val(ContextAt(env, 0), t, x)
  {
  }

  /** The choice of helper, left in the register. */
  lemma {:induction false} ChosenHelper<W(!new)>(c: Sexpr, cfg: Config, at: Setting<W>, s: Store, w: W)
    requires Enabled(cfg, at) && c.path.parts != []
    requires DepthsDeclared(PathOps(c.path, false, true, at.scope), cfg)
    ensures var found := JSetHelper(JOr(Helper(c.path.parts[0]), PathEntry(c.path, false, true, 0, at.scope, cfg).e));
            var r := Evaluate(JSetHelper(JIfPresent(found, JHelperVar, Helper("helperMissing"))), at.h, at.env, s, w);
            var m := AmbiguousHelper(c, at, w);
            if m.Threw? then r == Thrown(w) && m.w == w
            else r.Val? && r.w == w && m.w == w && r.s.helper == m.value
  {
    hide Evaluate, PathEntry, PathValue, PathOps;
    var (h, env) := (at.h, at.env);
    var name, path := c.path.parts[0], PathEntry(c.path, false, true, 0, at.scope, cfg).e;
    var found := JSetHelper(JOr(Helper(name), path));
    PathYields(c.path, false, true, 0, cfg, at, s, w);
    EvalHelper(name, h, env, s, w);
    EvalOr(Helper(name), path, h, env, s, w);
    EvalSetHelper(JOr(Helper(name), path), h, env, s, w);
    var r := Evaluate(found, h, env, s, w);
    EvalSetHelper(JIfPresent(found, JHelperVar, Helper("helperMissing")), h, env, s, w);
    if r.Val? {
      EvalIfPresent(found, JHelperVar, Helper("helperMissing"), h, env, s, w);
      EvalRegisters(h, env, r.s, r.w);
      EvalHelper("helperMissing", h, env, r.s, r.w);
    } else {
      EvalIfPresentThrown(found, JHelperVar, Helper("helperMissing"), h, env, s, w);
    }
  }

  lemma {:induction false} EvalIfPresentThrown<W(!new)>(test: Js, yes: Js, no: Js, h: Host<W>, env: Env, s: Store, w: W)
    requires Evaluate(test, h, env, s, w).Thrown?
    ensures Evaluate(JIfPresent(test, yes, no), h, env, s, w) == Evaluate(test, h, env, s, w)
  {
  }

  lemma {:induction false} OptionsObject<W(!new)>(name: string, main: Option<nat>, inverse: Option<nat>, o: Options, h: Host<W>, env: Env, s: Store, w: W)
    ensures var r := Evaluate(JObject(PlainFields(name, JObject([]), main, inverse, o)), h, env, s, w);
            r.Val? && r.v == OptionsValue(name, Record([]), main, inverse, o, env) && r.w == w
            && r.s.helper == s.helper && r.s.options == s.options && Agree(s, r.s, 1)
  {
    hide Evaluate, PlainFields, OptionsValue;
    EvalEmptyObject(h, env, s, w);
    OptionsCompute(name, JObject([]), Means([Record([])], w), main, inverse, 1, o, h, env, s, w);
  }

  /** Calling the helper register, or taking its value. */
  lemma {:induction false} CallRegister<W(!new)>(last: Js, options: Value, h: Host<W>, env: Env, s: Store, w: W)
    requires var r := Evaluate(last, h, env, s, w);
             r.Val? && r.v == options && r.w == w && r.s.helper == s.helper && r.s.options == s.options
    ensures var call := JIfFunction(JHelperVar, JInvoke(JHelperVar, JThis, [last]), JHelperVar);
            var r := Evaluate(call, h, env, s, w);
            if !h.isFunction(s.helper) then r == Val(s.helper, s, w)
            else if Nullish(s.helper) then r == Thrown(w)
            else
              match h.call(w, s.helper, Self(env), [options])
              case Threw(w') => r == Thrown(w')
              case Returned(v, w') => r.Val? && r.v == v && r.w == w' && r.s.options == s.options
  {
    hide Evaluate;
    var invoke := JInvoke(JHelperVar, JThis, [last]);
    EvalIfFunction(invoke, h, env, s, w);
    EvalThis(h, env);
    EvalRegisters(h, env, s, w);
    EvalInvoke(JHelperVar, JThis, [last], Self(env), h, env, s, w);
    EvalAllSnoc([], last, h, env, s, w);
    assert [] + [last] == [last];
    assert EvaluateAll([], h, env, s, w) == Vals([], s, w);
    assert [] + [options] == [options];
  }

  lemma AmbiguousShape(c: Sexpr, main: Option<nat>, inverse: Option<nat>, scope: Scope, cfg: Config)
    requires Plain(cfg.opts) && c.path.parts != []
    ensures var name := c.path.parts[0];
            var options := JObject(PlainFields(name, JObject([]), main, inverse, cfg.opts));
            AmbiguousCode(c, main, inverse, 0, scope, cfg)
            == AmbiguousForm(name, PathEntry(c.path, false, true, 0, scope, cfg).e, options, main.Some? || inverse.Some?)
  {
    hide PathEntry, TakeArguments, PlainFields, Kept;
    var name := c.path.parts[0];
    EmptyArguments(name, main, inverse, cfg.opts);
    PlainKept(name, JObject([]), main, inverse, cfg.opts);
    var last := if main.Some? || inverse.Some? then JOptionsVar else JObject(PlainFields(name, JObject([]), main, inverse, cfg.opts));
    assert [] + [last] == [last];
  }

  function AmbiguousForm(name: string, path: Js, options: Js, isBlock: bool): Js {
    var found := JSetHelper(JOr(Helper(name), path));
    var chosen := JSetHelper(JIfPresent(found, JHelperVar, Helper("helperMissing")));
    var last := if isBlock then JOptionsVar else options;
    var call := JIfFunction(JHelperVar, JInvoke(JHelperVar, JThis, [last]), JHelperVar);
    if isBlock then JComma(chosen, JComma(JSetOptions(options), call)) else JComma(chosen, call)
  }

  /** A bare name in a mustache or a block; a block leaves its options object in the register. */
  lemma {:induction false} AmbiguousEvaluates<W(!new)>(c: Sexpr, main: Option<nat>, inverse: Option<nat>, cfg: Config, at: Setting<W>, s: Store, w: W)
    requires Enabled(cfg, at) && c.path.parts != []
    requires DepthsDeclared(PathOps(c.path, false, true, at.scope), cfg)
    ensures var r := Evaluate(AmbiguousCode(c, main, inverse, 0, at.scope, cfg), at.h, at.env, s, w);
            Evaluates(r, AmbiguousMeaning(c, main, inverse, at, w))
            && (r.Val? && (main.Some? || inverse.Some?) ==>
                  r.s.options == OptionsValue(c.path.parts[0], Record([]), main, inverse, at.o, at.env))
  {
    hide Evaluate, PathEntry, PathOps, PlainFields, OptionsValue, AmbiguousHelper, AmbiguousCode;
    var (h, env) := (at.h, at.env);
    var name, path := c.path.parts[0], PathEntry(c.path, false, true, 0, at.scope, cfg).e;
    var isBlock := main.Some? || inverse.Some?;
    var options := JObject(PlainFields(name, JObject([]), main, inverse, at.o));
    var value := OptionsValue(name, Record([]), main, inverse, at.o, env);
    var found := JSetHelper(JOr(Helper(name), path));
    var chosen := JSetHelper(JIfPresent(found, JHelperVar, Helper("helperMissing")));
    var last := if isBlock then JOptionsVar else options;
    var call := JIfFunction(JHelperVar, JInvoke(JHelperVar, JThis, [last]), JHelperVar);
    AmbiguousShape(c, main, inverse, at.scope, cfg);
    ChosenHelper(c, cfg, at, s, w);
    var t := Evaluate(chosen, h, env, s, w);
    EvalComma(chosen, if isBlock then JComma(JSetOptions(options), call) else call, h, env, s, w);
    if t.Val? {
      OptionsObject(name, main, inverse, at.o, h, env, t.s, w);
      if isBlock {
        EvalSetOptions(options, h, env, t.s, w);
        var u := Evaluate(JSetOptions(options), h, env, t.s, w);
        EvalComma(JSetOptions(options), call, h, env, t.s, w);
        EvalRegisters(h, env, u.s, w);
        CallRegister(last, value, h, env, u.s, w);
      } else {
        CallRegister(last, value, h, env, t.s, w);
      }
    }
  }

  // ----- mustaches and blocks -----

  lemma {:induction false} MustacheEvaluates<W(!new)>(c: Sexpr, cfg: Config, at: Setting<W>, s: Store, w: W)
    requires Enabled(cfg, at) && DepthsDeclared(CallOps(c, HasArguments(c), at.o, at.scope), cfg)
    ensures Evaluates(Evaluate(CallCode(c, HasArguments(c), 0, at.scope, cfg), at.h, at.env, s, w), MustacheMeaning(c, at, w))
  {
    hide Evaluate, HelperOps, HelperCode, HelperMeaning, AmbiguousCode, AmbiguousMeaning, SimpleOps, SimpleCode, SimpleMeaning;
    match Classify(c.path, HasArguments(c), at.o, at.scope)
    case HelperKind => HelperComputes(c, None, None, 0, cfg, at, s, w);
    case AmbiguousKind =>
      AmbiguousDeclares(c, None, None, at.scope, cfg);
      AmbiguousEvaluates(c, None, None, cfg, at, s, w);
    case SimpleKind => SimpleComputes(c, 0, cfg, at, s, w);
  }

  lemma AmbiguousDeclares(c: Sexpr, main: Option<nat>, inverse: Option<nat>, scope: Scope, cfg: Config)
    requires c.path.parts != [] && DepthsDeclared(AmbiguousOps(c, main, inverse, scope), cfg)
    ensures DepthsDeclared(PathOps(c.path, false, true, scope), cfg)
  {
    hide PathOps;
  }

  lemma {:induction false} MissingEvaluates<W(!new)>(value: Js, options: Js, m: Meaning<W>, v: Value, h: Host<W>, env: Env, at: Setting<W>, s: Store, w: W)
    requires at.h == h && at.env == env
    requires Evaluates(Evaluate(value, h, env, s, w), m)
    requires m.Means? ==>
      var t := Evaluate(value, h, env, s, w).s;
      var r := Evaluate(options, h, env, t, m.w); r.Val? && r.v == v && r.w == m.w
    ensures Evaluates(Evaluate(MissingBlock(value, options), h, env, s, w), BlockMissing(m, v, at, w))
  {
    hide Evaluate;
    EvalRegisters(h, env, s, w);
    EvalHelper("blockHelperMissing", h, env, s, w);
    EvalInvoke(Helper("blockHelperMissing"), JContext(0), [value, options], ContextAt(env, 0), h, env, s, w);
    assert [value] + [options] == [value, options] && [] + [value] == [value];
    EvalAllSnoc([value], options, h, env, s, w);
    EvalAllSnoc([], value, h, env, s, w);
    assert EvaluateAll([], h, env, s, w) == Vals([], s, w);
    if m.Means? {
      assert [] + [m.vs[0]] == [m.vs[0]] && [m.vs[0]] + [v] == [m.vs[0], v];
    }
  }

  lemma {:induction false} SimpleBlockEvaluates<W(!new)>(c: Sexpr, main: Option<nat>, inverse: Option<nat>, cfg: Config, at: Setting<W>, s: Store, w: W)
    requires Enabled(cfg, at) && DepthsDeclared(SimpleOps(c, at.scope), cfg)
    ensures var a := BlockArguments(c.path.original, main, inverse, cfg.opts);
            var options := OptionsValue(c.path.original, Record([]), main, inverse, at.o, at.env);
            Evaluates(Evaluate(MissingBlock(SimpleCode(c, 0, at.scope, cfg), ObjectLiteral(a.fields)), at.h, at.env, s, w),
                      BlockMissing(SimpleMeaning(c, at, w), options, at, w))
  {
    hide Evaluate, SimpleCode, SimpleMeaning, SimpleOps, PlainFields, OptionsValue, TakeArguments, MissingBlock;
    var name := c.path.original;
    EmptyArguments(name, main, inverse, at.o);
    PlainKept(name, JObject([]), main, inverse, at.o);
    var value, options := SimpleCode(c, 0, at.scope, cfg), JObject(PlainFields(name, JObject([]), main, inverse, at.o));
    SimpleComputes(c, 0, cfg, at, s, w);
    var m := SimpleMeaning(c, at, w);
    if m.Means? {
      OptionsObject(name, main, inverse, at.o, at.h, at.env, Evaluate(value, at.h, at.env, s, w).s, m.w);
    }
    MissingEvaluates(value, options, m, OptionsValue(name, Record([]), main, inverse, at.o, at.env), at.h, at.env, at, s, w);
  }

  lemma {:induction false} RunFlushTest<W(!new)>(cfg: Config, taken: bool, h: Host<W>, env: Env, s: Store, w: W)
    ensures var v := s.Temp(1);
            RunLine(IfPresent(JTemp(1), AppendExplicitly(JTemp(1), cfg)), taken, h, env, s, w)
            == if Nullish(v) then LineDone([], s, w, false) else LineDone([v], s, w, true)
    ensures RunLine(Otherwise(AppendExplicitly(JText(""), cfg)), taken, h, env, s, w)
            == if taken then LineDone([], s, w, taken) else LineDone([Str("")], s, w, taken)
  {
    hide Evaluate, AppendExplicitly;
    EvalRegisters(h, env, s, w);
    RunAppendLine(JTemp(1), cfg, true, h, env, s, w);
    RunAppendLine(JText(""), cfg, taken, h, env, s, w);
    EvalText("", h, env, s, w);
  }

  /** What is left to do once a bare block's value is in the first temporary. */
  lemma {:induction false} FlushedTracks<W(!new)>(out: Output, m: Meaning<W>, cfg: Config, chunks: seq<Value>, h: Host<W>, env: Env, s: Store, w: W)
    requires m.Means? && |m.vs| == 1
    requires var c := Collect(out.source, false, h, env, s, w);
             c.Collected? && Tracks(c, out.pending, Rendered(chunks, m.w)) && c.s.Temp(1) == m.vs[0]
    ensures var next := AppendFlushed(out, JTemp(1), cfg);
            Tracks(Collect(next.source, false, h, env, s, w), next.pending,
                   if Nullish(m.vs[0]) && !cfg.isSimple then Rendered(chunks, m.w) else Show(chunks, m))
  {
    hide Evaluate, AppendExplicitly, RunLine, Collect, PushSource, AddChunks, AddChunk;
    var c := Collect(out.source, false, h, env, s, w);
    var v := m.vs[0];
    var test, otherwise := IfPresent(JTemp(1), AppendExplicitly(JTemp(1), cfg)), Otherwise(AppendExplicitly(JText(""), cfg));
    PushTracks(out, test, cfg, chunks, h, env, s, w);
    RunFlushTest(cfg, c.taken, h, env, c.s, c.w);
    AddOne(chunks, v);
    AddOne(chunks, Str(""));
    if cfg.isSimple {
      var tested := PushSource(out, test, cfg);
      var d := Collect(tested.source, false, h, env, s, w);
      PushTracks(tested, otherwise, cfg, AddChunks([], d.vs), h, env, s, w);
      RunFlushTest(cfg, d.taken, h, env, d.s, d.w);
      AddOne(AddChunk(chunks, v), Str(""));
    }
  }

  lemma {:induction false} RunSet<W(!new)>(slot: nat, e: Js, taken: bool, h: Host<W>, env: Env, s: Store, w: W)
    ensures var r := Evaluate(e, h, env, s, w);
            RunLine(SetTemp(slot, e), taken, h, env, s, w)
            == if r.Thrown? then LineThrew(r.w) else LineDone([], r.s.(temps := r.s.temps[slot := r.v]), r.w, taken)
  {
    var r := Evaluate(e, h, env, s, w);
    if r.Val? {
      EvalTemp(slot, e, h, env, s, w);
    } else {
      assert Evaluate(JSetTemp(slot, e), h, env, s, w) == r;
    }
  }

  lemma {:induction false} RunIfNoHelper<W(!new)>(name: string, e: Js, taken: bool, h: Host<W>, env: Env, s: Store, w: W)
    ensures var own := GetProp(h, w, env.helpers, name);
            var r := Evaluate(e, h, env, s, w);
            RunLine(IfNoHelper(Helper(name), JTemp(1), e), taken, h, env, s, w) ==
            if own.Threw? then LineThrew(w)
            else if IsTrue(own.value) then LineDone([], s, w, taken)
            else if r.Thrown? then LineThrew(r.w)
            else LineDone([], r.s.(temps := r.s.temps[1 := r.v]), r.w, taken)
  {
    hide Evaluate;
    EvalHelper(name, h, env, s, w);
    RunSet(1, e, taken, h, env, s, w);
  }

  lemma {:induction false} AmbiguousBlockTracks<W(!new)>(c: Sexpr, main: Option<nat>, inverse: Option<nat>, out: Output, cfg: Config, chunks: seq<Value>,
                                      at: Setting<W>, s: Store, w: W)
    requires Enabled(cfg, at) && (main.Some? || inverse.Some?)
    requires Classify(c.path, HasArguments(c), at.o, at.scope) == AmbiguousKind
    requires DepthsDeclared(AmbiguousOps(c, main, inverse, at.scope), cfg)
    requires var d := Collect(out.source, false, at.h, at.env, s, w); d.Collected? && Tracks(d, out.pending, Rendered(chunks, d.w))
    ensures var d := Collect(out.source, false, at.h, at.env, s, w);
            var next := BlockOutput(c, main, inverse, out, at.scope, cfg);
            Tracks(Collect(next.source, false, at.h, at.env, s, w), next.pending,
                   RenderBlock(c, main, inverse, chunks, at, cfg.isSimple, d.w))
  {
    hide Evaluate, AmbiguousCode, AmbiguousMeaning, OptionsValue, RunLine, MissingBlock, BlockMissing, AmbiguousOps, AppendFlushed,
         Collect, PushSource, AddChunks;
    var (h, env) := (at.h, at.env);
    var d := Collect(out.source, false, h, env, s, w);
    var code, name := AmbiguousCode(c, main, inverse, 0, at.scope, cfg), c.path.parts[0];
    var m := AmbiguousMeaning(c, main, inverse, at, d.w);
    var options := OptionsValue(name, Record([]), main, inverse, at.o, env);
    var missing := MissingBlock(JTemp(1), JOptionsVar);
    AmbiguousDeclares(c, main, inverse, at.scope, cfg);
    AmbiguousEvaluates(c, main, inverse, cfg, at, d.s, d.w);
    var stored := PushSource(out, SetTemp(1, code), cfg);
    PushTracks(out, SetTemp(1, code), cfg, chunks, h, env, s, w);
    RunSet(1, code, d.taken, h, env, d.s, d.w);
    var tested := PushSource(stored, IfNoHelper(Helper(name), JTemp(1), missing), cfg);
    if m.Fails? {
      CollectPushed(stored, IfNoHelper(Helper(name), JTemp(1), missing), cfg, false, h, env, s, w);
      FlushedThrown(tested, cfg, h, env, s, w);
    } else {
      AddOne(chunks, Undefined);
      var e := Collect(stored.source, false, h, env, s, w);
      PushTracks(stored, IfNoHelper(Helper(name), JTemp(1), missing), cfg, chunks, h, env, s, w);
      RunIfNoHelper(name, missing, e.taken, h, env, e.s, e.w);
      EvalRegisters(h, env, e.s, e.w);
      MissingEvaluates(JTemp(1), JOptionsVar, m, options, h, env, at, e.s, e.w);
      var result := AmbiguousBlock(c, main, inverse, at, d.w);
      if result.Fails? {
        FlushedThrown(tested, cfg, h, env, s, w);
      } else {
        FlushedTracks(tested, result, cfg, chunks, h, env, s, w);
      }
    }
  }

  lemma {:induction false} FlushedThrown<W(!new)>(out: Output, cfg: Config, h: Host<W>, env: Env, s: Store, w: W)
    requires Collect(out.source, false, h, env, s, w).CollectThrew?
    ensures Collect(AppendFlushed(out, JTemp(1), cfg).source, false, h, env, s, w) == Collect(out.source, false, h, env, s, w)
  {
    hide RunLine;
    var test := IfPresent(JTemp(1), AppendExplicitly(JTemp(1), cfg));
    CollectPushed(out, test, cfg, false, h, env, s, w);
    CollectPushed(PushSource(out, test, cfg), Otherwise(AppendExplicitly(JText(""), cfg)), cfg, false, h, env, s, w);
  }

  lemma {:induction false} BlockTracks<W(!new)>(c: Sexpr, main: Option<nat>, inverse: Option<nat>, out: Output, cfg: Config, chunks: seq<Value>,
                             at: Setting<W>, s: Store, w: W)
    requires Enabled(cfg, at) && (main.Some? || inverse.Some?)
    requires DepthsDeclared(BlockOps(c, main, inverse, at.o, at.scope), cfg)
    requires var d := Collect(out.source, false, at.h, at.env, s, w); d.Collected? && Tracks(d, out.pending, Rendered(chunks, d.w))
    ensures var d := Collect(out.source, false, at.h, at.env, s, w);
            var next := BlockOutput(c, main, inverse, out, at.scope, cfg);
            Tracks(Collect(next.source, false, at.h, at.env, s, w), next.pending,
                   RenderBlock(c, main, inverse, chunks, at, cfg.isSimple, d.w))
  {
    hide Evaluate, HelperOps, HelperCode, HelperMeaning, AmbiguousOps, SimpleOps, SimpleCode, SimpleMeaning, AppendValue, MissingBlock,
         BlockMissing, Collect, Tracks;
    var (h, env) := (at.h, at.env);
    var d := Collect(out.source, false, h, env, s, w);
    match Classify(c.path, HasArguments(c), at.o, at.scope)
    case HelperKind =>
      HelperComputes(c, main, inverse, 0, cfg, at, d.s, d.w);
      AppendTracks(out, HelperCode(c, main, inverse, 0, at.scope, cfg), HelperMeaning(c, main, inverse, at, d.w), cfg, chunks, h, env, s, w);
    case SimpleKind =>
      var a := BlockArguments(c.path.original, main, inverse, cfg.opts);
      var options := OptionsValue(c.path.original, Record([]), main, inverse, at.o, env);
      assert DepthsDeclared(SimpleOps(c, at.scope), cfg);
      SimpleBlockEvaluates(c, main, inverse, cfg, at, d.s, d.w);
      AppendTracks(out, MissingBlock(SimpleCode(c, 0, at.scope, cfg), ObjectLiteral(a.fields)),
                   BlockMissing(SimpleMeaning(c, at, d.w), options, at, d.w), cfg, chunks, h, env, s, w);
    case AmbiguousKind =>
      assert DepthsDeclared(AmbiguousOps(c, main, inverse, at.scope), cfg);
      AmbiguousBlockTracks(c, main, inverse, out, cfg, chunks, at, s, w);
  }
}
