/**
 The stack machine against the direct description: which opcode lists run without an error,
 what they push, and that both stacks end empty.
 */
module HandlebarsBalance {
  import opened Wrappers
  import opened HandlebarsAst
  import opened HandlebarsOpcodes
  import opened HandlebarsMachine
  import opened HandlebarsCodegen

  lemma {:induction false} RunConcat(a: seq<Op>, b: seq<Op>, st: State, cfg: Config)
    ensures Run(a + b, st, cfg) ==
            (match Run(a, st, cfg)
             case Success(mid) => Run(b, mid, cfg)
             case Failure(e) => Failure(e))
    decreases a
  {
    if a == [] {
      assert a + b == b;
    } else {
      assert (a + b)[0] == a[0] && (a + b)[1..] == a[1..] + b;
      var next := Step(a[0], st, cfg);
      if next.Success? {
        RunConcat(a[1..], b, next.value, cfg);
      }
    }
  }

  // ----- the count of entries, for any opcode list whatever -----

  function CodeCount(stack: seq<Entry>): nat {
    if stack == [] then 0
    else CodeCount(stack[..|stack| - 1]) + (if stack[|stack| - 1].Code? then 1 else 0)
  }

  /** stackSlot counts the entries of compileStack that occupy a temporary. */
  predicate SlotsCounted(st: State) {
    st.slot == CodeCount(st.stack)
  }

  function Height(st: State): nat {
    |st.inline| + |st.stack|
  }

  /** The change in height every successful run of the opcode makes. */
  function Net(op: Op, o: Options): int {
    var w: int := Width(o);
    match op
    case GetContext(_) => 0
    case PushContext => 1
    case LookupOnContext(_, _, _, _) => 1
    case LookupBlockParam(_, _) => 1
    case LookupData(_, _, _) => 1
    case ResolvePossibleLambda => 0
    case PushStringParam(of, _) => if of.SubExpr? then 2 else 3
    case PushId(_) => 1
    case PushLiteral(_) => 1
    case PushProgram(_) => 1
    case EmptyHash(_) => w
    case PushHash => 0
    case AssignToHash(_) => -w
    case PopHash => w
    case InvokeHelper(count, _, _) => -w - 2 - count * w
    case InvokeKnownHelper(count, _) => -w - 1 - count * w
    case InvokeAmbiguous(_, _) => -2
    case InvokePartial(dynamic, _, _) => -w - 1 - w - (if dynamic then 1 else 0)
    case RegisterDecorator(count, _) => -w - 2 - count * w
    case BlockValue(_) => -w - 2
    case AmbiguousBlockValue => -w - 2
    case AppendContent(_) => 0
    case Append => -1
    case AppendEscaped => -1
  }

  function NetOf(ops: seq<Op>, o: Options): int {
    if ops == [] then 0 else Net(ops[0], o) + NetOf(ops[1..], o)
  }

  predicate Moved(st: State, delta: int, r: Result<State, Error>) {
    r.Success? ==> SlotsCounted(r.value) && Height(r.value) == Height(st) + delta
  }

  lemma PopMoves(st: State)
    requires SlotsCounted(st)
    ensures Pop(st).Success? ==> SlotsCounted(Pop(st).value.st) && Height(Pop(st).value.st) == Height(st) - 1
  {
  }

  lemma PopIfMoves(st: State, wanted: bool)
    requires SlotsCounted(st)
    ensures var r := PopIf(st, wanted);
            r.Success? ==> SlotsCounted(r.value.st) && Height(r.value.st) == Height(st) - (if wanted then 1 else 0)
  {
    if wanted {
      PopMoves(st);
    }
  }

  lemma PushMoves(st: State)
    requires SlotsCounted(st)
    ensures forall e :: SlotsCounted(Push(st, e)) && Height(Push(st, e)) == Height(st) + 1
  {
    hide CodeCount;
  }

  lemma {:induction false} LinksMove(st: State, parts: seq<string>, falsy: bool)
    requires SlotsCounted(st)
    ensures Moved(st, 0, Links(st, parts, falsy))
    decreases parts
  {
    if parts != [] {
      var next := Replace(st, Link(parts[0], falsy));
      if next.Success? {
        LinksMove(next.value, parts[1..], falsy);
      }
    }
  }

  lemma ResolveMoves(st: State, parts: seq<string>, from: nat, falsy: bool, strict: bool, cfg: Config)
    requires SlotsCounted(st)
    ensures Moved(st, 0, ResolvePath(st, parts, from, falsy, strict, cfg))
  {
    PopMoves(st);
    if from <= |parts| {
      LinksMove(st, parts[from..], falsy);
    }
  }

  lemma {:induction false} HashPartsMove(st: State, o: Options)
    requires SlotsCounted(st)
    ensures var r := PopHashParts(st, o);
            r.Success? ==> SlotsCounted(r.value.st) && Height(r.value.st) == Height(st) - Width(o) - 2
  {
    PopMoves(st);
    var hash := Pop(st);
    if hash.Success? {
      PopIfMoves(hash.value.st, o.trackIds);
      var ids := PopIf(hash.value.st, o.trackIds);
      if ids.Success? {
        PopIfMoves(ids.value.st, o.stringParams);
        var types := PopIf(ids.value.st, o.stringParams);
        if types.Success? {
          PopIfMoves(types.value.st, o.stringParams);
          var contexts := PopIf(types.value.st, o.stringParams);
          if contexts.Success? {
            PopMoves(contexts.value.st);
            var inverse := Pop(contexts.value.st);
            if inverse.Success? {
              PopMoves(inverse.value.st);
            }
          }
        }
      }
    }
  }

  /** One parameter's worth of pops. */
  lemma ParamMoves(st: State, o: Options)
    requires SlotsCounted(st)
    ensures var value := Pop(st);
            value.Success? ==>
              var id := PopIf(value.value.st, o.trackIds);
              id.Success? ==>
                var kind := PopIf(id.value.st, o.stringParams);
                kind.Success? ==>
                  var context := PopIf(kind.value.st, o.stringParams);
                  context.Success? ==>
                    SlotsCounted(context.value.st) && Height(context.value.st) == Height(st) - Width(o)
  {
    PopMoves(st);
    var value := Pop(st);
    if value.Success? {
      PopIfMoves(value.value.st, o.trackIds);
      var id := PopIf(value.value.st, o.trackIds);
      if id.Success? {
        PopIfMoves(id.value.st, o.stringParams);
        var kind := PopIf(id.value.st, o.stringParams);
        if kind.Success? {
          PopIfMoves(kind.value.st, o.stringParams);
        }
      }
    }
  }

  lemma {:induction false} ParamsMove(st: State, count: nat, o: Options)
    requires SlotsCounted(st)
    ensures var r := PopParams(st, count, o);
            r.Success? ==> SlotsCounted(r.value.st) && Height(r.value.st) == Height(st) - count * Width(o)
    decreases count
  {
    if count > 0 {
      ParamMoves(st, o);
      var r := PopParams(st, count, o);
      if r.Success? {
        var value := Pop(st);
        var id := PopIf(value.value.st, o.trackIds);
        var kind := PopIf(id.value.st, o.stringParams);
        var context := PopIf(kind.value.st, o.stringParams);
        ParamsMove(context.value.st, count - 1, o);
        assert count * Width(o) == (count - 1) * Width(o) + Width(o);
      }
    }
  }

  lemma {:induction false} SetupMoves(st: State, name: string, count: nat, withArgs: bool, o: Options)
    requires SlotsCounted(st)
    ensures var r := SetupParams(st, name, count, withArgs, o);
            r.Success? ==> SlotsCounted(r.value.st) && Height(r.value.st) == Height(st) - Width(o) - 2 - count * Width(o)
  {
    HashPartsMove(st, o);
    var h := PopHashParts(st, o);
    if h.Success? {
      ParamsMove(h.value.st, count, o);
    }
  }

  lemma {:induction false} FlushMoves(entries: seq<Entry>, st: State, cfg: Config)
    requires SlotsCounted(st)
    ensures var r := FlushEntries(entries, st, cfg);
            SlotsCounted(r) && |r.stack| == |st.stack| + |entries| && r.inline == st.inline
    decreases entries
  {
    hide PushSource;
    if entries != [] {
      var pushed := if entries[0].Lit? then entries[0] else Code(JTemp(st.slot + 1));
      assert (st.stack + [pushed])[..|st.stack|] == st.stack;
      var next := if entries[0].Lit? then st.(stack := st.stack + [entries[0]])
                  else st.(slot := st.slot + 1, stack := st.stack + [pushed],
                           out := PushSource(st.out, SetTemp(st.slot + 1, entries[0].e), cfg));
      FlushMoves(entries[1..], next, cfg);
    }
  }

  lemma {:induction false} LookupMoves(op: Op, st: State, cfg: Config)
    requires SlotsCounted(st)
    requires op.LookupOnContext? || op.LookupBlockParam? || op.LookupData?
    ensures Moved(st, 1, Step(op, st, cfg))
  {
    var o := cfg.opts;
    match op {
      case LookupOnContext(parts, falsy, strict, scoped) =>
        if !scoped && o.compat && st.lastContext == 0 && parts != [] {
          ResolveMoves(Push(st, Code(JDepthedLookup(parts[0]))), parts, 1, falsy, strict, cfg);
        } else {
          ResolveMoves(Push(st, Lit(ContextName(st.lastContext, cfg))), parts, 0, falsy, strict, cfg);
        }
      case LookupBlockParam(at, parts) =>
        ResolveMoves(Push(st, Code(JBlockParam(at))), parts, 1, false, false, cfg);
      case LookupData(depth, parts, strict) =>
        ResolveMoves(Push(st, Lit(JData(depth))), parts, 0, true, strict, cfg);
    }
  }

  lemma {:induction false} HelperMoves(count: nat, name: string, simple: bool, st: State, o: Options)
    requires SlotsCounted(st)
    ensures Moved(st, Net(InvokeHelper(count, name, simple), o), StepHelper(count, name, simple, st, o))
  {
    hide CodeCount, Pop, SetupParams, HelperCall;
    PopMoves(st);
    if Pop(st).Success? {
      SetupMoves(Pop(st).value.st, name, count, false, o);
    }
  }

  lemma {:induction false} AmbiguousMoves(name: string, isBlock: bool, st: State, o: Options)
    requires SlotsCounted(st)
    ensures Moved(st, -2, StepAmbiguous(name, isBlock, st, o))
  {
    hide CodeCount, Pop, SetupParams, AmbiguousCallCode;
    PopMoves(st);
    if Pop(st).Success? {
      var path := Pop(st).value.st;
      SetupMoves(path.(inline := path.inline + EmptyHashEntries(false, o)), name, 0, false, o);
    }
  }

  lemma {:induction false} PartialMoves(dynamic: bool, name: string, indent: string, st: State, o: Options)
    requires SlotsCounted(st)
    ensures Moved(st, Net(InvokePartial(dynamic, name, indent), o), StepPartial(dynamic, name, indent, st, o))
  {
    hide CodeCount, PopIf, SetupParams, PartialCallCode;
    SetupMoves(st, name, 1, false, o);
    var a := SetupParams(st, name, 1, false, o);
    if a.Success? {
      PopIfMoves(a.value.st, dynamic);
      var partial := PopIf(a.value.st, dynamic);
      if partial.Success? {
        PushMoves(partial.value.st);
      }
    }
  }

  lemma {:induction false} BlockValueMoves(name: string, st: State, o: Options)
    requires SlotsCounted(st)
    ensures Moved(st, Net(BlockValue(name), o), StepBlockValue(name, st, o))
  {
    hide CodeCount, SetupParams, Pop, MissingBlock;
    SetupMoves(st, name, 0, false, o);
    var a := SetupParams(st, name, 0, false, o);
    if a.Success? {
      PopMoves(a.value.st);
      var value := Pop(a.value.st);
      if value.Success? {
        PushMoves(value.value.st);
      }
    }
  }

  lemma {:induction false} AmbiguousBlockMoves(st: State, cfg: Config)
    requires SlotsCounted(st)
    ensures Moved(st, Net(AmbiguousBlockValue, cfg.opts), StepAmbiguousBlock(st, cfg))
  {
    hide CodeCount, SetupParams, FlushEntries, MissingBlock, PushSource;
    SetupMoves(st, "", 0, false, cfg.opts);
    var a := SetupParams(st, "", 0, false, cfg.opts);
    if a.Success? {
      var below := a.value.st.(inline := []);
      assert SlotsCounted(below);
      FlushMoves(a.value.st.inline, below, cfg);
      assert Height(Flush(a.value.st, cfg)) == Height(a.value.st);
    }
  }

  lemma AppendMoves(st: State, cfg: Config)
    requires SlotsCounted(st)
    ensures Moved(st, -1, AppendTop(st, cfg))
  {
    PopMoves(st);
    if st.inline != [] {
      PopMoves(Replace(st, OrEmpty()).value);
    }
  }

  /** Between any two opcodes stackSlot is the number of temporaries on compileStack. */
  lemma {:induction false} StepMoves(op: Op, st: State, cfg: Config)
    requires SlotsCounted(st)
    ensures Moved(st, Net(op, cfg.opts), Step(op, st, cfg))
  {
    hide CodeCount, SetupParams, Pop, PopIf, StepHelper, StepAmbiguous, StepPartial, StepBlockValue, StepAmbiguousBlock, AppendTop,
         LookupContext, ResolvePath;
    var o := cfg.opts;
    match op {
      case LookupOnContext(_, _, _, _) => LookupMoves(op, st, cfg);
      case LookupBlockParam(_, _) => LookupMoves(op, st, cfg);
      case LookupData(_, _, _) => LookupMoves(op, st, cfg);
      case InvokeHelper(count, name, simple) => HelperMoves(count, name, simple, st, o);
      case InvokeKnownHelper(count, name) => SetupMoves(st, name, count, false, o);
      case RegisterDecorator(count, name) => SetupMoves(st, name, count, true, o);
      case InvokeAmbiguous(name, isBlock) => AmbiguousMoves(name, isBlock, st, o);
      case InvokePartial(dynamic, name, indent) => PartialMoves(dynamic, name, indent, st, o);
      case BlockValue(name) => BlockValueMoves(name, st, o);
      case AmbiguousBlockValue => AmbiguousBlockMoves(st, cfg);
      case Append => AppendMoves(st, cfg);
      case AssignToHash(_) => ParamMoves(st, o);
      case ResolvePossibleLambda => PopMoves(st);
      case AppendEscaped => PopMoves(st);
      case _ =>
    }
  }

  lemma {:induction false} RunMoves(ops: seq<Op>, st: State, cfg: Config)
    requires SlotsCounted(st)
    ensures Moved(st, NetOf(ops, cfg.opts), Run(ops, st, cfg))
    decreases ops
  {
    if ops != [] {
      StepMoves(ops[0], st, cfg);
      var next := Step(ops[0], st, cfg);
      if next.Success? {
        RunMoves(ops[1..], next.value, cfg);
      }
    }
  }
}
