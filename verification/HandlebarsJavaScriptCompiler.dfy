/** The `JavaScriptCompiler` object itself, opcode by opcode, against the stack machine. */
module HandlebarsJavaScriptCompiler {
  import opened Wrappers
  import opened HandlebarsAst
  import opened HandlebarsOpcodes
  import opened HandlebarsMachine
  import opened HandlebarsTemplates

  predicate IsPush(op: Op) {
    op.GetContext? || op.PushContext? || op.PushStringParam? || op.PushId? || op.PushLiteral? || op.PushProgram?
    || op.EmptyHash? || op.PushHash? || op.AppendContent?
  }

  class JavaScriptCompiler {
    const cfg: Config
    var inlineStack: seq<Entry>
    var compileStack: seq<Entry>
    var stackSlot: nat
    var lastContext: nat
    var hash: Option<HashBuffer>
    var hashes: seq<HashBuffer>
    var lastHelper: Js
    var source: seq<Line>
    var pendingContent: string
    var decorators: seq<Js>

    ghost function Abs(): State
      reads this
    {
      State(inlineStack, compileStack, stackSlot, lastContext, hash, hashes, lastHelper,
            Output(source, pendingContent), decorators)
    }

    constructor (cfg: Config)
      ensures this.cfg == cfg && Abs() == START
    {
      this.cfg := cfg;
      inlineStack, compileStack, stackSlot, lastContext := [], [], 0, 0;
      hash, hashes, lastHelper := None, [], JNothing;
      source, pendingContent, decorators := [], "", [];
    }

    method Push(entry: Entry)
      modifies this
      ensures Abs() == HandlebarsMachine.Push(old(Abs()), entry)
    {
      inlineStack := inlineStack + [entry];
    }

    method PushAll(entries: seq<Entry>)
      modifies this
      ensures Abs() == old(Abs()).(inline := old(inlineStack) + entries)
    {
      inlineStack := inlineStack + entries;
    }

    /** popStack; unwrapped, a literal is handed out without touching stackSlot; wrapped, every flushed entry counts. */
    method PopStack(wrapped: bool) returns (r: Result<Entry, Error>)
      modifies this
      ensures !wrapped || old(inlineStack) != [] ==>
        match Pop(old(Abs()))
        case Failure(e) => r == Failure(e)
        case Success(p) => r.Success? && r.value.e == p.value && Abs() == p.st
      ensures old(inlineStack) != [] ==> r.Success? && r.value == old(inlineStack)[|old(inlineStack)| - 1]
      ensures wrapped && old(inlineStack) == [] ==>
        var below := |old(compileStack)| - 1;
        if old(stackSlot) == 0 then r == Failure(InvalidStackPop)
        else
          && r == Success(if below < 0 then Code(JNothing) else old(compileStack)[below])
          && Abs() == old(Abs()).(stack := if below < 0 then [] else old(compileStack)[..below], slot := old(stackSlot) - 1)
    {
      var inline := inlineStack != [];
      var entry := Code(JNothing);
      if inline {
        entry := inlineStack[|inlineStack| - 1];
        inlineStack := inlineStack[..|inlineStack| - 1];
      } else if compileStack != [] {
        entry := compileStack[|compileStack| - 1];
        compileStack := compileStack[..|compileStack| - 1];
      }
      if !wrapped && entry.Lit? {
        return Success(entry);
      }
      if !inline {
        if stackSlot == 0 {
          return Failure(InvalidStackPop);
        }
        stackSlot := stackSlot - 1;
      }
      return Success(entry);
    }

    method PopWhen(wanted: bool) returns (r: Result<Js, Error>)
      modifies this
      ensures match PopIf(old(Abs()), wanted)
              case Failure(e) => r == Failure(e)
              case Success(p) => r == Success(p.value) && Abs() == p.st
    {
      if !wanted {
        return Success(JNothing);
      }
      var entry := PopStack(false);
      r := if entry.Failure? then Failure(entry.error) else Success(entry.value.e);
    }

    method TopStack() returns (e: Js)
      ensures e == Top(Abs())
    {
      var stack := if inlineStack != [] then inlineStack else compileStack;
      e := if stack == [] then JNothing else stack[|stack| - 1].e;
    }

    method IncrStack() returns (slot: nat)
      modifies this
      ensures slot == old(stackSlot) + 1 && Abs() == old(Abs()).(slot := slot)
    {
      stackSlot := stackSlot + 1;
      slot := stackSlot;
    }

    method EmitContent()
      modifies this
      ensures Abs() == old(Abs()).(out := FlushContent(old(Abs()).out, cfg))
    {
      if pendingContent != "" {
        source := source + [AppendLine(JText(pendingContent), cfg)];
        pendingContent := "";
      }
    }

    method PushSource(line: Line)
      modifies this
      ensures Abs() == old(Abs()).(out := HandlebarsMachine.PushSource(old(Abs()).out, line, cfg))
    {
      EmitContent();
      source := source + [line];
    }

    /** A temp is pushed for the time of one call, to name the entry that was popped. */
    method BorrowTemp() returns (slot: nat, value: Js)
      modifies this
      ensures Abs() == old(Abs()) && slot == old(stackSlot) + 1 && value == JTemp(slot)
    {
      ghost var before := inlineStack;
      slot := IncrStack();
      Push(Code(JTemp(slot)));
      value := TopStack();
      var _ := PopStack(false);
      assert inlineStack == before;
      stackSlot := stackSlot - 1;
    }

    /** A computed entry is kept in the next temp slot, which is free again afterwards. */
    method ReplaceComputed(n: Js, f: (Js, Js) -> Js)
      modifies this
      ensures Abs() == HandlebarsMachine.Push(old(Abs()), Replaced(Code(n), old(stackSlot), f))
    {
      var slot, value := BorrowTemp();
      Push(Code(f(JSetTemp(slot, n), value)));
    }

    method ReplaceStack(f: (Js, Js) -> Js) returns (error: Option<Error>)
      modifies this
      ensures match Replace(old(Abs()), f)
              case Failure(e) => error == Some(e)
              case Success(st) => error == None && Abs() == st
    {
      if inlineStack == [] {
        return Some(ReplaceStackOnNonInline);
      }
      var top := PopStack(true);
      match top.value {
        case Lit(v) =>
          Push(Code(f(v, v)));
        case Code(n) =>
          ReplaceComputed(n, f);
      }
      return None;
    }

    method FlushInline()
      modifies this
      ensures Abs() == Flush(old(Abs()), cfg)
    {
      var entries := inlineStack;
      inlineStack := [];
      for i := 0 to |entries|
        invariant FlushEntries(entries[i..], Abs(), cfg) == Flush(old(Abs()), cfg)
      {
        assert entries[i..][1..] == entries[i + 1..];
        match entries[i] {
          case Lit(_) => compileStack := compileStack + [entries[i]];
          case Code(e) =>
            var slot := IncrStack();
            PushSource(SetTemp(slot, e));
            compileStack := compileStack + [Code(JTemp(slot))];
        }
      }
    }

    method ResolvePath(parts: seq<string>, from: nat, falsy: bool, strict: bool) returns (error: Option<Error>)
      modifies this
      ensures match HandlebarsMachine.ResolvePath(old(Abs()), parts, from, falsy, strict, cfg)
              case Failure(e) => error == Some(e)
              case Success(st) => error == None && Abs() == st
    {
      if cfg.opts.strict || cfg.opts.assumeObjects {
        var base := PopStack(false);
        if base.Failure? {
          return Some(base.error);
        }
        Push(Code(StrictChain(base.value.e, parts, cfg.opts.strict && strict)));
        return None;
      }
      var i := from;
      while i < |parts|
        invariant from <= i
        invariant from <= |parts| ==> i <= |parts| && Links(Abs(), parts[i..], falsy) == Links(old(Abs()), parts[from..], falsy)
        invariant from > |parts| ==> Abs() == old(Abs())
      {
        assert parts[i..][0] == parts[i] && parts[i..][1..] == parts[i + 1..];
        error := ReplaceStack(Link(parts[i], falsy));
        if error.Some? {
          return;
        }
        i := i + 1;
      }
      return None;
    }

    /** The parameters come off the stack from the last to the first. */
    method TakeParams(count: nat) returns (r: Result<Params, Error>)
      modifies this
      ensures match PopParams(old(Abs()), count, cfg.opts)
              case Failure(e) => r == Failure(e)
              case Success(p) => r == Success(p.value) && Abs() == p.st
    {
      hide Pop;
      var o := cfg.opts;
      var values, ids, types, contexts := [], [], [], [];
      var p := count;
      ghost var all := PopParams(Abs(), count, o);
      if all.Success? {
        NothingYet(all.value.value);
      }
      while p > 0
        invariant match PopParams(Abs(), p, o)
                  case Failure(e) => PopParams(old(Abs()), count, o) == Failure(e)
                  case Success(rest) =>
                    PopParams(old(Abs()), count, o)
                    == Success(Popped(Params(rest.value.values + values, rest.value.ids + ids,
                                             rest.value.types + types, rest.value.contexts + contexts), rest.st))
      {
        ghost var before := PopParams(Abs(), p, o);
        p := p - 1;
        var value := PopWhen(true);
        if value.Failure? { return Failure(value.error); }
        var id := PopWhen(o.trackIds);
        if id.Failure? { return Failure(id.error); }
        var kind := PopWhen(o.stringParams);
        if kind.Failure? { return Failure(kind.error); }
        var context := PopWhen(o.stringParams);
        if context.Failure? { return Failure(context.error); }
        ghost var after := PopParams(Abs(), p, o);
        if after.Success? {
          AppendGrouping(after.value.value, value.value, id.value, kind.value, context.value, values, ids, types, contexts);
        }
        values, ids := [value.value] + values, [id.value] + ids;
        types, contexts := [kind.value] + types, [context.value] + contexts;
      }
      assert [] + values == values && [] + ids == ids && [] + types == types && [] + contexts == contexts;
      return Success(Params(values, ids, types, contexts));
    }

    static lemma NothingYet(p: Params)
      ensures p.values + [] == p.values && p.ids + [] == p.ids && p.types + [] == p.types && p.contexts + [] == p.contexts
    {
    }

    static lemma AppendGrouping(p: Params, value: Js, id: Js, kind: Js, context: Js,
                                values: seq<Js>, ids: seq<Js>, types: seq<Js>, contexts: seq<Js>)
      ensures (p.values + [value]) + values == p.values + ([value] + values)
      ensures (p.ids + [id]) + ids == p.ids + ([id] + ids)
      ensures (p.types + [kind]) + types == p.types + ([kind] + types)
      ensures (p.contexts + [context]) + contexts == p.contexts + ([context] + contexts)
    {
    }

    method TakeHashParts() returns (r: Result<HashParts, Error>)
      modifies this
      ensures match PopHashParts(old(Abs()), cfg.opts)
              case Failure(e) => r == Failure(e)
              case Success(p) => r == Success(p.value) && Abs() == p.st
    {
      var o := cfg.opts;
      var h := PopWhen(true);
      if h.Failure? { return Failure(h.error); }
      var ids := PopWhen(o.trackIds);
      if ids.Failure? { return Failure(ids.error); }
      var types := PopWhen(o.stringParams);
      if types.Failure? { return Failure(types.error); }
      var contexts := PopWhen(o.stringParams);
      if contexts.Failure? { return Failure(contexts.error); }
      var inverse := PopWhen(true);
      if inverse.Failure? { return Failure(inverse.error); }
      var main := PopWhen(true);
      if main.Failure? { return Failure(main.error); }
      return Success(HashParts(h.value, ids.value, types.value, contexts.value, inverse.value, main.value));
    }

    method SetupParams(name: string, count: nat, withArgs: bool) returns (r: Result<Arguments, Error>)
      modifies this
      ensures match HandlebarsMachine.SetupParams(old(Abs()), name, count, withArgs, cfg.opts)
              case Failure(e) => r == Failure(e)
              case Success(p) => r == Success(p.value) && Abs() == p.st
    {
      var h := TakeHashParts();
      if h.Failure? { return Failure(h.error); }
      var p := TakeParams(count);
      if p.Failure? { return Failure(p.error); }
      return Success(Arguments(p.value.values, OptionFields(name, h.value, p.value, withArgs, cfg.opts)));
    }

    method LookupOnContext(parts: seq<string>, falsy: bool, strict: bool, scoped: bool) returns (error: Option<Error>)
      modifies this
      ensures match LookupContext(old(Abs()), parts, falsy, strict, scoped, cfg)
              case Failure(e) => error == Some(e)
              case Success(st) => error == None && Abs() == st
    {
      var i := 0;
      if scoped || !cfg.opts.compat || lastContext != 0 || parts == [] {
        Push(Lit(ContextName(lastContext, cfg)));
      } else {
        Push(Code(JDepthedLookup(parts[0])));
        i := 1;
      }
      error := ResolvePath(parts, i, falsy, strict);
    }

    method InvokeHelper(count: nat, name: string, simple: bool) returns (error: Option<Error>)
      modifies this
      ensures match StepHelper(count, name, simple, old(Abs()), cfg.opts)
              case Failure(e) => error == Some(e)
              case Success(st) => error == None && Abs() == st
    {
      var path := PopStack(false);
      if path.Failure? { return Some(path.error); }
      var a := SetupParams(name, count, false);
      if a.Failure? { return Some(a.error); }
      Push(Code(HelperCall(name, simple, path.value.e, a.value, cfg.opts)));
      return None;
    }

    method InvokeKnownHelper(count: nat, name: string) returns (error: Option<Error>)
      modifies this
      ensures match StepKnownHelper(count, name, old(Abs()), cfg.opts)
              case Failure(e) => error == Some(e)
              case Success(st) => error == None && Abs() == st
    {
      var a := SetupParams(name, count, false);
      if a.Failure? { return Some(a.error); }
      Push(Code(KnownHelperCall(name, a.value)));
      return None;
    }

    method InvokeAmbiguous(name: string, isBlock: bool) returns (error: Option<Error>)
      modifies this
      ensures match StepAmbiguous(name, isBlock, old(Abs()), cfg.opts)
              case Failure(e) => error == Some(e)
              case Success(st) => error == None && Abs() == st
    {
      var path := PopStack(false);
      if path.Failure? { return Some(path.error); }
      PushAll(EmptyHashEntries(false, cfg.opts));
      var a := SetupParams(name, 0, false);
      if a.Failure? { return Some(a.error); }
      lastHelper := Helper(name);
      Push(Code(AmbiguousCallCode(name, isBlock, path.value.e, a.value, cfg.opts)));
      return None;
    }

    method InvokePartial(dynamic: bool, name: string, indent: string) returns (error: Option<Error>)
      modifies this
      ensures match StepPartial(dynamic, name, indent, old(Abs()), cfg.opts)
              case Failure(e) => error == Some(e)
              case Success(st) => error == None && Abs() == st
    {
      var a := SetupParams(name, 1, false);
      if a.Failure? { return Some(a.error); }
      var target := PopWhen(dynamic);
      if target.Failure? { return Some(target.error); }
      var partial := if dynamic then target.value else JMember(JPartials, name);
      Push(Code(PartialCallCode(partial, a.value, dynamic, indent, cfg.opts)));
      return None;
    }

    method RegisterDecorator(count: nat, name: string) returns (error: Option<Error>)
      modifies this
      ensures match StepDecorator(count, name, old(Abs()), cfg.opts)
              case Failure(e) => error == Some(e)
              case Success(st) => error == None && Abs() == st
    {
      var a := SetupParams(name, count, true);
      if a.Failure? { return Some(a.error); }
      decorators := decorators + [JInvoke(JMember(JDecorators, name), JNothing, [ObjectLiteral(a.value.fields)])];
      return None;
    }

    method BlockValue(name: string) returns (error: Option<Error>)
      modifies this
      ensures match StepBlockValue(name, old(Abs()), cfg.opts)
              case Failure(e) => error == Some(e)
              case Success(st) => error == None && Abs() == st
    {
      var a := SetupParams(name, 0, false);
      if a.Failure? { return Some(a.error); }
      var value := PopStack(false);
      if value.Failure? { return Some(value.error); }
      Push(Code(MissingBlock(value.value.e, ObjectLiteral(a.value.fields))));
      return None;
    }

    method AmbiguousBlockValue() returns (error: Option<Error>)
      modifies this
      ensures match StepAmbiguousBlock(old(Abs()), cfg)
              case Failure(e) => error == Some(e)
              case Success(st) => error == None && Abs() == st
    {
      var a := SetupParams("", 0, false);
      if a.Failure? { return Some(a.error); }
      FlushInline();
      var current := TopStack();
      PushSource(IfNoHelper(lastHelper, current, MissingBlock(current, JOptionsVar)));
      return None;
    }

    /** The value on top becomes the property `key` of the open hash; its other properties stay. */
    method AssignToHash(key: string) returns (error: Option<Error>)
      modifies this
      ensures match AssignHash(old(Abs()), key, cfg.opts)
              case Failure(e) => error == Some(e)
              case Success(st) => error == None && Abs() == st
      ensures error.None? ==>
        && old(hash).Some? && hash.Some?
        && forall k :: Property(hash.value.values, k)
                    == if k == key then Some(Top(old(Abs()))) else Property(old(hash).value.values, k)
    {
      hide Pop, Property, Put, Top;
      AssignSets(Abs(), key, cfg.opts);
      var o := cfg.opts;
      var value := PopWhen(true);
      if value.Failure? { return Some(value.error); }
      var id := PopWhen(o.trackIds);
      if id.Failure? { return Some(id.error); }
      var kind := PopWhen(o.stringParams);
      if kind.Failure? { return Some(kind.error); }
      var context := PopWhen(o.stringParams);
      if context.Failure? { return Some(context.error); }
      if hash == None { return Some(NoHashBuffer); }
      var h := hash.value;
      hash := Some(HashBuffer(Put(h.values, key, value.value), AssignField(o.stringParams, h.types, key, kind.value),
                              AssignField(o.stringParams, h.contexts, key, context.value),
                              AssignField(o.trackIds, h.ids, key, id.value)));
      return None;
    }

    method PushHash()
      modifies this
      ensures Abs() == OpenHash(old(Abs()))
    {
      if hash.Some? {
        hashes := hashes + [hash.value];
      }
      hash := Some(EMPTY_BUFFER);
    }

    method PopHash() returns (error: Option<Error>)
      modifies this
      ensures match CloseHash(old(Abs()), cfg.opts)
              case Failure(e) => error == Some(e)
              case Success(st) => error == None && Abs() == st
    {
      if hash == None { return Some(NoHashBuffer); }
      var closed := hash.value;
      if hashes == [] {
        hash := None;
      } else {
        hash, hashes := Some(hashes[|hashes| - 1]), hashes[..|hashes| - 1];
      }
      PushAll(HashBufferEntries(closed, cfg.opts));
      return None;
    }

    method Append() returns (error: Option<Error>)
      modifies this
      ensures match AppendTop(old(Abs()), cfg)
              case Failure(e) => error == Some(e)
              case Success(st) => error == None && Abs() == st
    {
      if inlineStack != [] {
        error := ReplaceStack(OrEmpty());
        var shown := PopStack(false);
        PushSource(AppendLine(shown.value.e, cfg));
      } else {
        var local := PopStack(false);
        if local.Failure? { return Some(local.error); }
        PushSource(IfPresent(local.value.e, AppendExplicitly(local.value.e, cfg)));
        if cfg.isSimple {
          PushSource(Otherwise(AppendExplicitly(JText(""), cfg)));
        }
      }
      return None;
    }

    method AppendEscaped() returns (error: Option<Error>)
      modifies this
      ensures match Step(Op.AppendEscaped, old(Abs()), cfg)
              case Failure(e) => error == Some(e)
              case Success(st) => error == None && Abs() == st
    {
      var top := PopStack(false);
      if top.Failure? { return Some(top.error); }
      PushSource(AppendLine(JEscape(top.value.e), cfg));
      return None;
    }

    method ResolvePossibleLambda() returns (error: Option<Error>)
      modifies this
      ensures match Step(Op.ResolvePossibleLambda, old(Abs()), cfg)
              case Failure(e) => error == Some(e)
              case Success(st) => error == None && Abs() == st
    {
      var top := PopStack(false);
      if top.Failure? { return Some(top.error); }
      Push(Code(JLambda(top.value.e)));
      return None;
    }

    method LookupBlockParam(at: (nat, nat), parts: seq<string>) returns (error: Option<Error>)
      modifies this
      ensures match Step(Op.LookupBlockParam(at, parts), old(Abs()), cfg)
              case Failure(e) => error == Some(e)
              case Success(st) => error == None && Abs() == st
    {
      Push(Code(JBlockParam(at)));
      error := ResolvePath(parts, 1, false, false);
    }

    method LookupData(depth: nat, parts: seq<string>, strict: bool) returns (error: Option<Error>)
      modifies this
      ensures match Step(Op.LookupData(depth, parts, strict), old(Abs()), cfg)
              case Failure(e) => error == Some(e)
              case Success(st) => error == None && Abs() == st
    {
      Push(Lit(JData(depth)));
      error := ResolvePath(parts, 0, true, strict);
    }

    method PushStringParam(of: Expr, typeName: string)
      modifies this
      ensures Step(Op.PushStringParam(of, typeName), old(Abs()), cfg) == Success(Abs())
    {
      Push(Lit(ContextName(lastContext, cfg)));
      Push(Lit(JText(typeName)));
      if !of.SubExpr? {
        Push(Lit(JSide(of)));
      }
    }

    /** The opcodes that only move or push something. */
    method ExecutePush(op: Op)
      requires IsPush(op)
      modifies this
      ensures Step(op, old(Abs()), cfg) == Success(Abs())
    {
      hide OpenHash, EmptyHashEntries, LiteralEntry, ContextName;
      match op {
        case GetContext(depth) => lastContext := depth;
        case PushContext => Push(Lit(ContextName(lastContext, cfg)));
        case PushStringParam(of, typeName) => PushStringParam(of, typeName);
        case PushId(of) => Push(Lit(JSide(of)));
        case PushLiteral(of) => Push(LiteralEntry(of));
        case PushProgram(index) => Push(ProgramEntry(index));
        case EmptyHash(omit) => PushAll(EmptyHashEntries(omit, cfg.opts));
        case PushHash => PushHash();
        case AppendContent(text) => pendingContent := pendingContent + text;
        case _ => assert false;
      }
    }

    /** this[opcode].apply(this, args) */
    method Execute(op: Op) returns (error: Option<Error>)
      modifies this
      ensures match Step(op, old(Abs()), cfg)
              case Failure(e) => error == Some(e)
              case Success(st) => error == None && Abs() == st
    {
      hide StepHelper, StepKnownHelper, StepAmbiguous, StepPartial, StepDecorator, StepBlockValue, StepAmbiguousBlock, AssignHash,
           CloseHash, AppendTop, LookupContext, HandlebarsMachine.ResolvePath, HandlebarsMachine.PushSource, HandlebarsMachine.Push, Pop;
      if IsPush(op) {
        hide Step;
        ExecutePush(op);
        return None;
      }
      match op {
        case LookupOnContext(parts, falsy, strict, scoped) => error := LookupOnContext(parts, falsy, strict, scoped);
        case LookupBlockParam(at, parts) => error := LookupBlockParam(at, parts);
        case LookupData(depth, parts, strict) => error := LookupData(depth, parts, strict);
        case ResolvePossibleLambda => error := ResolvePossibleLambda();
        case AssignToHash(key) => error := AssignToHash(key);
        case PopHash => error := PopHash();
        case InvokeHelper(count, name, simple) => error := InvokeHelper(count, name, simple);
        case InvokeKnownHelper(count, name) => error := InvokeKnownHelper(count, name);
        case InvokeAmbiguous(name, isBlock) => error := InvokeAmbiguous(name, isBlock);
        case InvokePartial(dynamic, name, indent) => error := InvokePartial(dynamic, name, indent);
        case RegisterDecorator(count, name) => error := RegisterDecorator(count, name);
        case BlockValue(name) => error := BlockValue(name);
        case AmbiguousBlockValue => error := AmbiguousBlockValue();
        case Append => error := Append();
        case AppendEscaped => error := AppendEscaped();
        case _ => assert false;
      }
    }

    /** The opcode loop of compile on a fresh compiler, and its check that nothing is left on the stacks. */
    method Compile(opcodes: seq<Op>) returns (r: Result<Output, Error>)
      requires Abs() == START
      modifies this
      ensures r == HandlebarsMachine.Compile(opcodes, cfg)
    {
      hide Step;
      for o := 0 to |opcodes|
        invariant Run(opcodes[o..], Abs(), cfg) == Run(opcodes, START, cfg)
      {
        assert opcodes[o..][0] == opcodes[o] && opcodes[o..][1..] == opcodes[o + 1..];
        var error := Execute(opcodes[o]);
        if error.Some? {
          return Failure(error.value);
        }
      }
      EmitContent();
      if stackSlot != 0 || inlineStack != [] || compileStack != [] {
        return Failure(ContentLeftOnStack);
      }
      return Success(Output(source, pendingContent));
    }
  }

  /** What mergeSource has built from the first `i` lines; `run` is the open stretch of marked nodes. */
  predicate Merging(source: seq<Line>, i: nat, parts: seq<Part>, run: seq<Js>, sourceSeen: bool, isSimple: bool)
    requires i <= |source|
  {
    && (sourceSeen <==> !AllPieces(source[..i]))
    && (isSimple ==> run == [] && parts + AllWhole(source[i..]) == AllWhole(source))
    && (!sourceSeen ==> parts == [] && source == Pieces(run) + source[i..])
    && (!isSimple && sourceSeen ==> parts + MergeRest(Pieces(run) + source[i..]) == Merge(source, false))
  }

  /** mergeSource: `run` is the stretch of marked nodes from bufferStart to bufferEnd. */
  method MergeSource(source: seq<Line>, isSimple: bool) returns (parts: seq<Part>)
    requires isSimple ==> forall i :: 0 <= i < |source| ==> !source[i].Piece?
    ensures parts == Merge(source, isSimple)
  {
    hide Merging, Merge;
    var appendOnly, sourceSeen, run: seq<Js> := true, false, [];
    parts := [];
    MergingStart(source, isSimple);
    for i := 0 to |source|
      invariant appendOnly == (isSimple || !sourceSeen)
      invariant Merging(source, i, parts, run, sourceSeen, isSimple)
    {
      var line := source[i];
      MergingStep(source, i, parts, run, sourceSeen, isSimple);
      if line.Piece? {
        run := run + [line.e];
      } else {
        if run != [] {
          parts := parts + [if sourceSeen then Extend(run) else Init(run)];
          run := [];
        }
        parts := parts + [Whole(line)];
        sourceSeen := true;
        if !isSimple {
          appendOnly := false;
        }
      }
    }
    MergingEnd(source, parts, run, sourceSeen, isSimple);
    if appendOnly {
      if run != [] {
        parts := parts + [ReturnRun(run)];
      } else if !sourceSeen {
        parts := parts + [ReturnEmpty];
      }
    } else if run != [] {
      parts := parts + [ReturnMore(run)];
    } else {
      parts := parts + [ReturnBuffer];
    }
  }

  lemma MergingStart(source: seq<Line>, isSimple: bool)
    ensures Merging(source, 0, [], [], false, isSimple)
  {
    EmptyStart(source);
  }

  lemma {:induction false} MergingStep(source: seq<Line>, i: nat, parts: seq<Part>, run: seq<Js>, seen: bool, isSimple: bool)
    requires i < |source| && Merging(source, i, parts, run, seen, isSimple)
    requires isSimple ==> !source[i].Piece?
    ensures source[i].Piece? ==> Merging(source, i + 1, parts, run + [source[i].e], seen, isSimple)
    ensures !source[i].Piece? ==>
      Merging(source, i + 1, (if run == [] then parts else parts + [if seen then Extend(run) else Init(run)]) + [Whole(source[i])],
              [], true, isSimple)
  {
    hide Merge, MergeRest, AllWhole, Pieces;
    var line, rest := source[i], source[i + 1..];
    assert source[..i + 1] == source[..i] + [line] && source[i..] == [line] + rest;
    AllPiecesSnoc(source[..i], line);
    if line.Piece? {
      PiecesSnoc(run, line.e);
      assert Pieces(run) + source[i..] == Pieces(run + [line.e]) + rest;
    } else if isSimple {
      WholeFirst(line, rest);
      assert parts + ([Whole(line)] + AllWhole(rest)) == (parts + [Whole(line)]) + AllWhole(rest);
    } else {
      MergeAtLine(source, parts, run, seen, line, rest);
    }
  }

  lemma {:induction false} MergingEnd(source: seq<Line>, parts: seq<Part>, run: seq<Js>, seen: bool, isSimple: bool)
    requires Merging(source, |source|, parts, run, seen, isSimple)
    requires isSimple ==> forall i :: 0 <= i < |source| ==> !source[i].Piece?
    ensures Merge(source, isSimple) ==
            parts + (if isSimple || !seen then
                       if run != [] then [ReturnRun(run)] else if !seen then [ReturnEmpty] else []
                     else if run != [] then [ReturnMore(run)] else [ReturnBuffer])
  {
    hide Pieces, Leading;
    assert source[..|source|] == source && source[|source|..] == [];
    LeadingOf(run, []);
    LeadingLength(source);
    assert Pieces(run) + [] == Pieces(run);
    assert AllWhole([]) == [] && parts + [] == parts;
    if isSimple && source != [] {
      assert !source[0].Piece?;
      LeadingOf([], source);
      EmptyStart(source);
    }
  }

  lemma {:induction false} EmptyStart(source: seq<Line>)
    ensures Pieces([]) + source == source && [] + AllWhole(source) == AllWhole(source) && source[0..] == source
  {
  }

  lemma {:induction false} WholeFirst(line: Line, rest: seq<Line>)
    ensures AllWhole([line] + rest) == [Whole(line)] + AllWhole(rest)
  {
    assert ([line] + rest)[1..] == rest;
  }

  lemma {:induction false} PiecesSnoc(run: seq<Js>, e: Js)
    ensures Pieces(run + [e]) == Pieces(run) + [Piece(e)]
  {
    if run == [] {
      assert run + [e] == [e] && [e][1..] == [];
      assert Pieces([e]) == [Piece(e)] + Pieces([]);
    } else {
      assert (run + [e])[1..] == run[1..] + [e];
      PiecesSnoc(run[1..], e);
    }
  }

  lemma AllPiecesSnoc(source: seq<Line>, line: Line)
    ensures AllPieces(source + [line]) <==> AllPieces(source) && line.Piece?
  {
    assert (source + [line])[|source|] == line;
    assert forall i :: 0 <= i < |source| ==> (source + [line])[i] == source[i];
  }

  lemma {:induction false} LeadingOf(run: seq<Js>, rest: seq<Line>)
    requires rest != [] ==> !rest[0].Piece?
    ensures Leading(Pieces(run) + rest) == run && |Pieces(run)| == |run|
    decreases run
  {
    if run == [] {
      assert Pieces(run) + rest == rest;
    } else {
      assert (Pieces(run) + rest)[1..] == Pieces(run[1..]) + rest;
      LeadingOf(run[1..], rest);
    }
  }

  lemma {:induction false} RestAtLine(run: seq<Js>, line: Line, rest: seq<Line>)
    requires !line.Piece?
    ensures MergeRest(Pieces(run) + ([line] + rest))
         == (if run == [] then [] else [Extend(run)]) + [Whole(line)] + MergeRest(rest)
  {
    hide Leading, Pieces, MergeRest;
    LineAt(run, line, rest);
    RestUnfolds(Pieces(run) + ([line] + rest), run, line, rest);
  }

  lemma {:induction false} LineAt(run: seq<Js>, line: Line, rest: seq<Line>)
    requires !line.Piece?
    ensures var at := Pieces(run) + ([line] + rest);
            Leading(at) == run && |at| > |run| && at[|run|] == line && at[|run| + 1..] == rest
  {
    hide Leading, Pieces;
    LeadingOf(run, [line] + rest);
  }

  lemma {:induction false} RestUnfolds(at: seq<Line>, run: seq<Js>, line: Line, rest: seq<Line>)
    requires Leading(at) == run && |at| > |run| && at[|run|] == line && at[|run| + 1..] == rest
    ensures MergeRest(at) == (if run == [] then [] else [Extend(run)]) + [Whole(line)] + MergeRest(rest)
  {
    hide Leading;
    assert [] + [Whole(line)] == [Whole(line)];
  }

  lemma {:induction false} StartAtLine(run: seq<Js>, line: Line, rest: seq<Line>)
    requires !line.Piece?
    ensures Merge(Pieces(run) + ([line] + rest), false)
         == (if run == [] then [] else [Init(run)]) + [Whole(line)] + MergeRest(rest)
  {
    hide Leading, Pieces, MergeRest;
    var at := Pieces(run) + ([line] + rest);
    LineAt(run, line, rest);
    if run == [] {
      RestUnfolds(at, run, line, rest);
    }
  }

  /** What the merged body continues with at a line that is no piece. */
  lemma {:induction false} MergeAtLine(source: seq<Line>, parts: seq<Part>, run: seq<Js>, seen: bool, line: Line, rest: seq<Line>)
    requires !line.Piece?
    requires !seen ==> parts == [] && source == Pieces(run) + ([line] + rest)
    requires seen ==> parts + MergeRest(Pieces(run) + ([line] + rest)) == Merge(source, false)
    ensures (if run == [] then parts else parts + [if seen then Extend(run) else Init(run)]) + [Whole(line)]
            + MergeRest(Pieces([]) + rest) == Merge(source, false)
  {
    hide Merge, MergeRest, Pieces;
    EmptyStart(rest);
    var first := if run == [] then [] else [if seen then Extend(run) else Init(run)];
    if seen {
      RestAtLine(run, line, rest);
    } else {
      StartAtLine(run, line, rest);
    }
    assert parts + (first + [Whole(line)] + MergeRest(rest)) == (parts + first) + [Whole(line)] + MergeRest(rest);
    assert parts + [] == parts;
  }
}
