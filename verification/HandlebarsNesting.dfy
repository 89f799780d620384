/** The programs nested in blocks, partials and decorators, at every depth. */
module HandlebarsNesting {
  import opened Wrappers
  import opened HandlebarsAst
  import opened HandlebarsOpcodes
  import opened HandlebarsMachine
  import opened HandlebarsSemantics
  import opened HandlebarsPreservation
  import opened HandlebarsTemplates
  import opened HandlebarsRendering
  import opened HandlebarsRuns
  import opened HandlebarsPartials
  import opened HandlebarsCompiler
  import opened HandlebarsMain

  /** A nested program, by the numbers of the programs that lead to it. */
  function ProgramAt(p: Program, path: seq<nat>): Option<Program>
    decreases path
  {
    if path == [] then Some(p)
    else if path[0] >= |NestedAll(p.body)| then None
    else ProgramAt(NestedAll(p.body)[path[0]], path[1..])
  }

  /** The block parameters in force around it. */
  function ScopeAt(p: Program, path: seq<nat>, scope: Scope): Scope
    decreases path
  {
    if path == [] || path[0] >= |NestedAll(p.body)| then scope
    else ScopeAt(NestedAll(p.body)[path[0]], path[1..], Inner(p, scope))
  }

  function EnvironmentAt(e: Environment, path: seq<nat>): Option<Environment>
    decreases path
  {
    if path == [] then Some(e)
    else if path[0] >= |e.children| then None
    else EnvironmentAt(e.children[path[0]], path[1..])
  }

  lemma {:induction false} StatementNested(s: Statement, o: Options, scope: Scope, i: nat)
    requires i < |Nested(s)|
    ensures StatementEnvironments(s, o, scope)[i] == EnvironmentOf(Nested(s)[i], o, scope)
    ensures StatementAllowed(s, o, scope) ==> Allowed(Nested(s)[i], o, scope)
  {
    hide EnvironmentOf, Allowed, CallAllowed, ParamsAllowed, HashAllowed;
  }

  lemma {:induction false} BodyNested(body: seq<Statement>, o: Options, scope: Scope, i: nat)
    requires i < |NestedAll(body)|
    ensures BodyEnvironments(body, o, scope)[i] == EnvironmentOf(NestedAll(body)[i], o, scope)
    ensures BodyAllowed(body, o, scope) ==> Allowed(NestedAll(body)[i], o, scope)
    decreases body
  {
    hide EnvironmentOf, Allowed, StatementAllowed, StatementEnvironments, Nested;
    var first := |Nested(body[0])|;
    if i < first {
      StatementNested(body[0], o, scope, i);
    } else {
      BodyNested(body[1..], o, scope, i - first);
    }
  }

  lemma {:induction false} NestedConcat(a: seq<Statement>, b: seq<Statement>)
    ensures NestedAll(a + b) == NestedAll(a) + NestedAll(b)
    decreases a
  {
    hide Nested;
    if a == [] {
      assert a + b == b;
    } else {
      assert (a + b)[0] == a[0] && (a + b)[1..] == a[1..] + b;
      NestedConcat(a[1..], b);
    }
  }

  /** The numbers that a statement knows its programs by lead to those programs. */
  lemma {:induction false} ProgramNumbers(before: seq<Statement>, s: Statement, behind: seq<Statement>)
    ensures var n, all := |NestedAll(before)|, NestedAll(before + [s] + behind);
            && (s.Block? ==>
                  && (MainIndex(s.bodies, n).Some? <==> s.bodies.Main? || s.bodies.Both?)
                  && (InverseIndex(s.bodies, n).Some? <==> s.bodies.Inverse? || s.bodies.Both?)
                  && (s.bodies.Main? || s.bodies.Both? ==>
                        MainIndex(s.bodies, n).value < |all| && all[MainIndex(s.bodies, n).value] == s.bodies.program)
                  && (s.bodies.Inverse? || s.bodies.Both? ==>
                        InverseIndex(s.bodies, n).value < |all| && all[InverseIndex(s.bodies, n).value] == s.bodies.inverse))
            && (s.Partial? ==>
                  && (BodyIndex(s.fallback, n).Some? <==> s.fallback.Some?)
                  && (s.fallback.Some? ==> BodyIndex(s.fallback, n).value < |all| && all[BodyIndex(s.fallback, n).value] == s.fallback.value))
  {
    hide NestedAll;
    OwnPrograms(before, s, behind);
    var n, all := |NestedAll(before)|, NestedAll(before + [s] + behind);
    assert |Nested(s)| >= 1 ==> all[n] == Nested(s)[0];
    assert |Nested(s)| >= 2 ==> all[n + 1] == Nested(s)[1];
  }

  lemma {:induction false} OwnPrograms(before: seq<Statement>, s: Statement, behind: seq<Statement>)
    ensures var n, all := |NestedAll(before)|, NestedAll(before + [s] + behind);
            n + |Nested(s)| <= |all| && forall i :: 0 <= i < |Nested(s)| ==> all[n + i] == Nested(s)[i]
  {
    hide NestedAll, Nested;
    NestedConcat(before, [s] + behind);
    NestedFirst(s, behind);
    assert before + [s] + behind == before + ([s] + behind);
    Middle(NestedAll(before), Nested(s), NestedAll(behind));
  }

  lemma {:induction false} NestedFirst(s: Statement, behind: seq<Statement>)
    ensures NestedAll([s] + behind) == Nested(s) + NestedAll(behind)
  {
    hide Nested;
    assert ([s] + behind)[1..] == behind;
  }

  lemma Middle<T>(a: seq<T>, b: seq<T>, c: seq<T>)
    ensures |a| + |b| <= |a + (b + c)| && forall i :: 0 <= i < |b| ==> (a + (b + c))[|a| + i] == b[i]
  {
  }

  /** A body is rendered statement after statement, each with the numbers of the programs before it left out. */
  lemma {:induction false} RenderConcat<W(!new)>(a: seq<Statement>, b: seq<Statement>, n: nat, chunks: seq<Value>, at: Setting<W>, isSimple: bool, w: W)
    ensures RenderBody(a + b, n, chunks, at, isSimple, w)
         == match RenderBody(a, n, chunks, at, isSimple, w)
            case Broken(w1) => Broken(w1)
            case Rendered(after, w1) => RenderBody(b, n + |NestedAll(a)|, after, at, isSimple, w1)
    decreases a
  {
    hide RenderStatement, Nested;
    if a == [] {
      assert a + b == b;
    } else {
      assert (a + b)[0] == a[0] && (a + b)[1..] == a[1..] + b;
      var r := RenderStatement(a[0], n, chunks, at, isSimple, w);
      if r.Rendered? {
        RenderConcat(a[1..], b, n + |Nested(a[0])|, r.chunks, at, isSimple, r.w);
      }
    }
  }

  /** The environment at any depth is that of the program there, which was allowed; parent contexts are declared outwards. */
  lemma {:induction false} NestedEnvironments(p: Program, path: seq<nat>, o: Options, scope: Scope)
    requires Allowed(p, o, scope)
    ensures var q, e := ProgramAt(p, path), EnvironmentAt(EnvironmentOf(p, o, scope), path);
            if q.None? then e.None?
            else
              && e == Some(EnvironmentOf(q.value, o, ScopeAt(p, path, scope)))
              && Allowed(q.value, o, ScopeAt(p, path, scope))
              && (e.value.useDepths ==> EnvironmentOf(p, o, scope).useDepths)
    decreases path
  {
    hide BodyAllowed, BodyEnvironments, BodyOps, HasDeep;
    if path != [] && path[0] < |NestedAll(p.body)| {
      BodyNested(p.body, o, Inner(p, scope), path[0]);
      NestedEnvironments(NestedAll(p.body)[path[0]], path[1..], o, Inner(p, scope));
    }
  }

  /**
   So what a compiled function renders is what its program means at every depth: for the child number path[0], its child
   number path[1], and so on, whatever contexts and block parameters it is called with.
   */
  lemma {:induction false} NestedRenders<W(!new)>(p: Program, path: seq<nat>, scope: Scope, cfg: Config, at: Setting<W>, text: Value -> string,
                                                  s: Store, w: W)
    requires Allowed(p, at.o, scope) && ProgramAt(p, path).Some?
    requires Enabled(cfg, at) && at.scope == Inner(ProgramAt(p, path).value, ScopeAt(p, path, scope))
    requires (EnvironmentOf(p, at.o, scope).useDepths ==> cfg.useDepths) && cfg.isSimple == (|ProgramAt(p, path).value.body| == 1)
    requires var body := ProgramAt(p, path).value.body;
             (forall i :: 0 <= i < |body| ==> !Swapped(body[i], at.o)) && !Unreached(body, at.o)
    ensures var e, q := EnvironmentAt(EnvironmentOf(p, at.o, scope), path), ProgramAt(p, path).value;
            e.Some? && Compile(e.value.opcodes, cfg).Success? &&
            var out := Compile(e.value.opcodes, cfg).value;
            var r := RunTemplate(out, cfg.isSimple, at.h, text, at.env, s, w);
            match RenderBody(q.body, 0, [], at, cfg.isSimple, w)
            case Broken(w1) => r == Threw(w1)
            case Rendered(chunks, w1) =>
              && r.Returned? && r.w == w1
              && SameUnless(Meets(out, cfg, at, s, w), Text(r.value, text), TextOf(chunks, text), text)
              && (Clean(chunks) ==> !Meets(out, cfg, at, s, w))
  {
    hide Compile, RunTemplate, RenderBody, Allowed, Clean, TextOf, SameUnless, Meets, Unreached, Swapped;
    NestedEnvironments(p, path, at.o, scope);
    var q := ProgramAt(p, path).value;
    SimpleForm(q, at.o, ScopeAt(p, path, scope));
    ProgramRenders(q, ScopeAt(p, path, scope), cfg, at, text, s, w);
  }

  lemma SimpleForm(p: Program, o: Options, scope: Scope)
    ensures EnvironmentOf(p, o, scope).isSimple <==> |p.body| == 1
  {
    hide BodyOps, BodyEnvironments;
  }
}
