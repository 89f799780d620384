/** How a function body that mergeSource has built adds up the values its lines append, and when that joins their texts. */
module HandlebarsRuns {
  import opened Wrappers
  import opened HandlebarsAst
  import opened HandlebarsMachine
  import opened HandlebarsSemantics
  import opened HandlebarsTemplates
  import opened HandlebarsRendering
  import opened HandlebarsNumbers

  // ----- sums of sums -----

  /** acc + a + b + ... */
  function AddAll(acc: Value, vs: seq<Value>, text: Value -> string): Value
    decreases vs
  {
    if vs == [] then acc else AddAll(Plus(acc, vs[0], text), vs[1..], text)
  }

  predicate NoneEmpty(groups: seq<seq<Value>>) {
    forall i :: 0 <= i < |groups| ==> groups[i] != []
  }

  /** Each group is added up and then added to the buffer. */
  function AddGroups(buffer: Value, groups: seq<seq<Value>>, text: Value -> string): Value
    requires NoneEmpty(groups)
    decreases groups
  {
    if groups == [] then buffer
    else AddGroups(Plus(buffer, AddAll(groups[0][0], groups[0][1..], text), text), groups[1..], text)
  }

  function Flat(groups: seq<seq<Value>>): seq<Value> {
    if groups == [] then [] else groups[0] + Flat(groups[1..])
  }

  function Singles(vs: seq<Value>): (groups: seq<seq<Value>>)
    ensures |groups| == |vs| && NoneEmpty(groups)
  {
    if vs == [] then [] else [[vs[0]]] + Singles(vs[1..])
  }

  predicate OpensWithTwo(group: seq<Value>) {
    |group| >= 2 && Numeric(group[0]) && Numeric(group[1])
  }

  predicate OneNumber(group: seq<Value>) {
    |group| == 1 && Numeric(group[0])
  }

  /** Some group opens with two numbers, or the first two groups are a number each. */
  predicate NumbersMeet(groups: seq<seq<Value>>) {
    || (exists i :: 0 <= i < |groups| && OpensWithTwo(groups[i]))
    || (|groups| >= 2 && OneNumber(groups[0]) && OneNumber(groups[1]))
  }

  /**
   v was made by adding up the values. As long as no two numbers were added to each other its text is theirs, joined;
   otherwise it is another text, when numbers are written as numerals.
   */
  ghost predicate Adds(v: Value, vs: seq<Value>, added: bool, text: Value -> string) {
    && vs != [] && (Numeric(v) <==> AllNumeric(vs))
    && (Numeric(v) ==> NumberOf(v) == Total(vs) && (|vs| >= 2 ==> v == Num(Total(vs)) && added))
    && (!added ==> Text(v, text) == TextOf(vs, text))
    && (Numerals(text) ==> |Text(v, text)| <= |TextOf(vs, text)| && (added ==> Text(v, text) != TextOf(vs, text)))
  }

  lemma AddsOne(v: Value, text: Value -> string)
    ensures Adds(v, [v], false, text)
  {
    hide Numerals;
    TextOne(v, text);
    assert [v][1..] == [];
    assert Numeric(v) ==> Total([v]) == NumberOf(v) + Total([]);
  }

  lemma {:induction false} AddsPlus(a: Value, va: seq<Value>, adda: bool, b: Value, vb: seq<Value>, addb: bool, text: Value -> string)
    requires Adds(a, va, adda, text) && Adds(b, vb, addb, text)
    ensures Adds(Plus(a, b, text), va + vb, adda || addb || (Numeric(a) && Numeric(b)), text)
  {
    hide Numerals, TextOf, Total, Numeral;
    var v, vs := Plus(a, b, text), va + vb;
    TextConcat(va, vb, text);
    assert AllNumeric(vs) <==> AllNumeric(va) && AllNumeric(vb) by {
      BothNumeric(va, vb);
    }
    if Numeric(a) && Numeric(b) {
      TotalConcat(va, vb);
      if Numerals(text) {
        NumberText(v, text);
        TotalNoLonger(vs, text);
        TotalDiffers(vs, text);
      }
    } else {
      if Numerals(text) {
        Lengths(Text(a, text), TextOf(va, text), Text(b, text), TextOf(vb, text));
      }
    }
  }

  lemma BothNumeric(a: seq<Value>, b: seq<Value>)
    ensures AllNumeric(a + b) <==> AllNumeric(a) && AllNumeric(b)
  {
    var s := a + b;
    assert forall i :: 0 <= i < |a| ==> s[i] == a[i];
    assert forall i :: 0 <= i < |b| ==> s[|a| + i] == b[i];
  }

  /** Texts no longer than others are joined to the same text only if they are the same. */
  lemma Lengths(a: string, a1: string, b: string, b1: string)
    requires |a| <= |a1| && |b| <= |b1|
    ensures a + b == a1 + b1 <==> a == a1 && b == b1
  {
    if a + b == a1 + b1 {
      assert |a + b| == |a1 + b1|;
      assert a == (a + b)[..|a|] && a1 == (a1 + b1)[..|a|];
      assert b == (a + b)[|a|..] && b1 == (a1 + b1)[|a|..];
    }
  }

  lemma {:induction false} AddAllAdds(acc: Value, before: seq<Value>, added: bool, vs: seq<Value>, text: Value -> string)
    requires Adds(acc, before, added, text)
    ensures Adds(AddAll(acc, vs, text), before + vs, added || (vs != [] && Numeric(acc) && Numeric(vs[0])), text)
    decreases vs
  {
    hide Adds, Plus;
    if vs == [] {
      assert before + vs == before;
    } else {
      AddsOne(vs[0], text);
      AddsPlus(acc, before, added, vs[0], [vs[0]], false, text);
      var next := Plus(acc, vs[0], text);
      var now := added || (Numeric(acc) && Numeric(vs[0]));
      AddAllAdds(next, before + [vs[0]], now, vs[1..], text);
      assert (before + [vs[0]]) + vs[1..] == before + vs;
      PlusNumeric(acc, vs[0], text);
    }
  }

  lemma PlusNumeric(a: Value, b: Value, text: Value -> string)
    ensures Numeric(Plus(a, b, text)) <==> Numeric(a) && Numeric(b)
  {
  }

  /** A group on its own. */
  lemma {:induction false} GroupAdds(group: seq<Value>, text: Value -> string)
    requires group != []
    ensures Adds(AddAll(group[0], group[1..], text), group, OpensWithTwo(group), text)
    ensures Numeric(AddAll(group[0], group[1..], text)) <==> AllNumeric(group)
  {
    hide AddAll;
    AddsOne(group[0], text);
    AddAllAdds(group[0], [group[0]], false, group[1..], text);
    assert [group[0]] + group[1..] == group;
  }

  lemma {:induction false} AddGroupsAdds(buffer: Value, before: seq<Value>, added: bool, groups: seq<seq<Value>>, text: Value -> string)
    requires Adds(buffer, before, added, text) && NoneEmpty(groups)
    ensures Adds(AddGroups(buffer, groups, text), before + Flat(groups),
                 || added || (exists i :: 0 <= i < |groups| && OpensWithTwo(groups[i]))
                 || (groups != [] && Numeric(buffer) && OneNumber(groups[0])), text)
    decreases groups
  {
    hide Adds, Plus, AddAll, OpensWithTwo, OneNumber;
    if groups == [] {
      assert before + Flat(groups) == before;
    } else {
      var g, rest := groups[0], groups[1..];
      var v := AddAll(g[0], g[1..], text);
      GroupAdds(g, text);
      AddsPlus(buffer, before, added, v, g, OpensWithTwo(g), text);
      PlusNumeric(buffer, v, text);
      OneOrTwo(g);
      var now := added || OpensWithTwo(g) || (Numeric(buffer) && Numeric(v));
      AddGroupsAdds(Plus(buffer, v, text), before + g, now, rest, text);
      assert (before + g) + Flat(rest) == before + Flat(groups);
      assert (exists i :: 0 <= i < |groups| && OpensWithTwo(groups[i]))
        <==> OpensWithTwo(g) || exists i :: 0 <= i < |rest| && OpensWithTwo(rest[i]) by {
        FirstOrLater(groups);
      }
    }
  }

  lemma OneOrTwo(g: seq<Value>)
    requires g != []
    ensures AllNumeric(g) ==> OneNumber(g) || OpensWithTwo(g)
    ensures OneNumber(g) ==> AllNumeric(g)
  {
  }

  lemma FirstOrLater(groups: seq<seq<Value>>)
    requires groups != []
    ensures (exists i :: 0 <= i < |groups| && OpensWithTwo(groups[i]))
       <==> OpensWithTwo(groups[0]) || exists i :: 0 <= i < |groups[1..]| && OpensWithTwo(groups[1..][i])
  {
    hide OpensWithTwo;
    var rest := groups[1..];
    if i :| 0 <= i < |groups| && OpensWithTwo(groups[i]) {
      assert i > 0 ==> rest[i - 1] == groups[i];
    }
    if i :| 0 <= i < |rest| && OpensWithTwo(rest[i]) {
      assert groups[i + 1] == rest[i];
    }
  }

  /** The value of all groups, the first of them being what the buffer starts with. */
  function Sum(groups: seq<seq<Value>>, text: Value -> string): Value
    requires groups != [] && NoneEmpty(groups)
  {
    AddGroups(AddAll(groups[0][0], groups[0][1..], text), groups[1..], text)
  }

  /** The text of the sum is that of the values side by side exactly when no numbers meet. */
  lemma {:induction false} SumText(groups: seq<seq<Value>>, text: Value -> string)
    requires groups != [] && NoneEmpty(groups)
    ensures !NumbersMeet(groups) ==> Text(Sum(groups, text), text) == TextOf(Flat(groups), text)
    ensures Numerals(text) ==> (Text(Sum(groups, text), text) == TextOf(Flat(groups), text) <==> !NumbersMeet(groups))
  {
    hide AddAll, OpensWithTwo, OneNumber, Numerals, TextOf, Total, AddGroups;
    var g, rest := groups[0], groups[1..];
    GroupAdds(g, text);
    OneOrTwo(g);
    AddGroupsAdds(AddAll(g[0], g[1..], text), g, OpensWithTwo(g), rest, text);
    FirstOrLater(groups);
    assert g + Flat(rest) == Flat(groups);
    assert |groups| >= 2 ==> rest[0] == groups[1];
  }

  // ----- the groups of a function body -----

  datatype Grouped<W> = GroupsThrew(w: W) | Grouped(groups: seq<seq<Value>>, w: W)

  function Before<W>(first: seq<seq<Value>>, rest: Grouped<W>): Grouped<W> {
    if rest.GroupsThrew? then rest else Grouped(first + rest.groups, rest.w)
  }

  /** The values that the parts append, a group for each expression that adds them up before the buffer is added to. */
  function GroupsOf<W>(parts: seq<Part>, taken: bool, h: Host<W>, env: Env, s: Store, w: W): Grouped<W>
    decreases parts
  {
    if parts == [] then Grouped([], w)
    else
      match parts[0]
      case ReturnBuffer => Grouped([], w)
      case ReturnEmpty => Grouped([[Str("")]], w)
      case Whole(line) =>
        var r := RunLine(line, taken, h, env, s, w);
        if r.LineThrew? then GroupsThrew(r.w)
        else Before(if r.appended == [] then [] else [r.appended], GroupsOf(parts[1..], r.taken, h, env, r.s, r.w))
      case ReturnMore(run) =>
        var c := Collect(Pieces(run), taken, h, env, s, w);
        if c.CollectThrew? then GroupsThrew(c.w) else Grouped(Singles(c.vs), c.w)
      case ReturnRun(run) =>
        var c := Collect(Pieces(run), taken, h, env, s, w);
        if c.CollectThrew? then GroupsThrew(c.w) else Grouped([c.vs], c.w)
      case Init(run) =>
        var c := Collect(Pieces(run), taken, h, env, s, w);
        if c.CollectThrew? then GroupsThrew(c.w) else Before([c.vs], GroupsOf(parts[1..], taken, h, env, c.s, c.w))
      case Extend(run) =>
        var c := Collect(Pieces(run), taken, h, env, s, w);
        if c.CollectThrew? then GroupsThrew(c.w) else Before([c.vs], GroupsOf(parts[1..], taken, h, env, c.s, c.w))
  }

  /** With the empty string that the buffer starts with, unless the body starts by setting it. */
  function BodyGroups<W>(source: seq<Line>, h: Host<W>, env: Env, s: Store, w: W): Grouped<W> {
    var parts := Merge(source, false);
    var g := GroupsOf(parts, false, h, env, s, w);
    if parts != [] && (parts[0].Init? || parts[0].ReturnRun? || parts[0].ReturnEmpty?) then g else Before([[Str("")]], g)
  }

  predicate NeverReturns(source: seq<Line>) {
    forall i :: 0 <= i < |source| ==> !Returns(source[i])
  }

  lemma {:induction false} FlatSingles(vs: seq<Value>)
    ensures Flat(Singles(vs)) == vs
    decreases vs
  {
    if vs != [] {
      FlatSingles(vs[1..]);
      assert ([[vs[0]]] + Singles(vs[1..]))[1..] == Singles(vs[1..]);
    }
  }

  lemma {:induction false} AddSingles(acc: Value, vs: seq<Value>, text: Value -> string)
    ensures AddGroups(acc, Singles(vs), text) == AddAll(acc, vs, text)
    decreases vs
  {
    hide Plus;
    if vs != [] {
      var groups := Singles(vs);
      assert groups[1..] == Singles(vs[1..]);
      AddSingles(Plus(acc, vs[0], text), vs[1..], text);
      assert groups[0][1..] == [] && AddAll(vs[0], [], text) == vs[0];
    }
  }

  /** A sum from left to right adds up the values its pieces append. */
  lemma {:induction false} SumFromAdds<W(!new)>(acc: Value, run: seq<Js>, taken: bool, h: Host<W>, text: Value -> string,
                                                env: Env, s: Store, w: W)
    ensures var c := Collect(Pieces(run), taken, h, env, s, w);
            var r := SumFrom(acc, run, h, text, env, s, w);
            if c.CollectThrew? then r == SumThrew(c.w)
            else c.taken == taken && |c.vs| == |run| && r == Summed.Sum(AddAll(acc, c.vs, text), c.s, c.w)
    decreases run
  {
    hide Evaluate, Plus;
    if run != [] {
      assert Pieces(run)[1..] == Pieces(run[1..]);
      var r := Evaluate(run[0], h, env, s, w);
      if r.Val? {
        SumFromAdds(Plus(acc, r.v, text), run[1..], taken, h, text, env, r.s, r.w);
        var rest := Collect(Pieces(run[1..]), taken, h, env, r.s, r.w);
        if rest.Collected? {
          assert ([r.v] + rest.vs)[1..] == rest.vs;
        }
      }
    }
  }

  lemma {:induction false} SumOfAdds<W(!new)>(run: seq<Js>, taken: bool, h: Host<W>, text: Value -> string, env: Env, s: Store, w: W)
    requires run != []
    ensures var c := Collect(Pieces(run), taken, h, env, s, w);
            var r := SumOf(run, h, text, env, s, w);
            if c.CollectThrew? then r == SumThrew(c.w)
            else c.taken == taken && c.vs != [] && r == Summed.Sum(AddAll(c.vs[0], c.vs[1..], text), c.s, c.w)
  {
    hide Evaluate, AddAll;
    assert Pieces(run)[1..] == Pieces(run[1..]);
    var r := Evaluate(run[0], h, env, s, w);
    if r.Val? {
      SumFromAdds(r.v, run[1..], taken, h, text, env, r.s, r.w);
      var rest := Collect(Pieces(run[1..]), taken, h, env, r.s, r.w);
      if rest.Collected? {
        assert ([r.v] + rest.vs)[1..] == rest.vs;
      }
    }
  }

  /** A run from a buffer ends with the groups added to it, and the groups hold what the lines append. */
  ghost predicate Runs<W(!new)>(r: Outcome<W>, c: Collected<W>, g: Grouped<W>, buffer: Value, text: Value -> string) {
    match c
    case CollectThrew(w) => r == Threw(w) && g == GroupsThrew(w)
    case Collected(vs, _, w, _) =>
      && g.Grouped? && g.w == w && NoneEmpty(g.groups) && Flat(g.groups) == vs
      && r == Returned(AddGroups(buffer, g.groups, text), w)
  }

  /** A group in front. */
  lemma {:induction false} GroupFirst<W(!new)>(group: seq<Value>, r: Outcome<W>, c: Collected<W>, g: Grouped<W>, buffer: Value,
                                               text: Value -> string)
    requires group != []
    requires Runs(r, c, g, Plus(buffer, AddAll(group[0], group[1..], text), text), text)
    ensures Runs(r, if c.CollectThrew? then c else c.(vs := group + c.vs), Before([group], g), buffer, text)
  {
    hide Plus, AddAll;
    if g.Grouped? {
      assert ([group] + g.groups)[1..] == g.groups;
    }
  }

  lemma {:induction false} AppendsOne<W(!new)>(line: Line, taken: bool, h: Host<W>, env: Env, s: Store, w: W)
    ensures var r := RunLine(line, taken, h, env, s, w); r.LineDone? ==> |r.appended| <= 1
    decreases line
  {
    hide Evaluate;
    match line
    case IfPresent(test, body) =>
      var r := Evaluate(test, h, env, s, w);
      if r.Val? {
        AppendsOne(body, true, h, env, r.s, r.w);
      }
    case Otherwise(body) => AppendsOne(body, taken, h, env, s, w);
    case _ =>
  }

  lemma {:induction false} LeadingSplits(source: seq<Line>)
    ensures |Leading(source)| <= |source| && source == Pieces(Leading(source)) + source[|Leading(source)|..]
    decreases source
  {
    if source != [] && source[0].Piece? {
      LeadingSplits(source[1..]);
      PiecesFirst(source[0].e, Leading(source[1..]));
      var k := |Leading(source[1..])|;
      assert source == [source[0]] + source[1..];
      assert source[1..][k..] == source[k + 1..];
      assert source == ([source[0]] + Pieces(Leading(source[1..]))) + source[k + 1..];
    } else {
      assert Pieces([]) + source == source;
    }
  }

  lemma {:induction false} PiecesFirst(e: Js, run: seq<Js>)
    ensures Pieces([e] + run) == [Piece(e)] + Pieces(run)
  {
    assert ([e] + run)[1..] == run;
  }

  /** One whole line in the middle of the body. */
  lemma {:induction false} WholeRuns<W(!new)>(line: Line, rest: seq<Line>, buffer: Value, taken: bool,
                                              h: Host<W>, text: Value -> string, env: Env, s: Store, w: W)
    requires !Returns(line) && NeverReturns(rest)
    ensures var parts := [Whole(line)] + MergeRest(rest);
            Runs(RunParts(parts, buffer, taken, h, text, env, s, w), Collect([line] + rest, taken, h, env, s, w),
                 GroupsOf(parts, taken, h, env, s, w), buffer, text)
    decreases |rest|, 1
  {
    hide Evaluate, RunLine, Plus, Returns, MergeRest, Runs;
    var parts := [Whole(line)] + MergeRest(rest);
    assert parts[1..] == MergeRest(rest) && ([line] + rest)[1..] == rest;
    var r := RunLine(line, taken, h, env, s, w);
    AppendsOne(line, taken, h, env, s, w);
    if r.LineThrew? {
      ThrewRuns(r.w, buffer, text);
    } else {
      var c, g := Collect(rest, r.taken, h, env, r.s, r.w), GroupsOf(MergeRest(rest), r.taken, h, env, r.s, r.w);
      if r.appended == [] {
        RestRuns(rest, buffer, r.taken, h, text, env, r.s, r.w);
        assert c.Collected? ==> [] + c.vs == c.vs;
        assert g.Grouped? ==> [] + g.groups == g.groups;
      } else {
        var v := r.appended[0];
        assert r.appended == [v] && [v][1..] == [];
        assert AddAll(v, [], text) == v;
        var next := Plus(buffer, v, text);
        RestRuns(rest, next, r.taken, h, text, env, r.s, r.w);
        GroupFirst([v], RunParts(MergeRest(rest), next, r.taken, h, text, env, r.s, r.w), c, g, buffer, text);
      }
    }
  }

  lemma ThrewRuns<W(!new)>(w: W, buffer: Value, text: Value -> string)
    ensures Runs(Threw(w), CollectThrew(w), GroupsThrew(w), buffer, text)
  {
  }

  lemma {:induction false} RestRuns<W(!new)>(source: seq<Line>, buffer: Value, taken: bool,
                                             h: Host<W>, text: Value -> string, env: Env, s: Store, w: W)
    requires NeverReturns(source)
    ensures Runs(RunParts(MergeRest(source), buffer, taken, h, text, env, s, w), Collect(source, taken, h, env, s, w),
                 GroupsOf(MergeRest(source), taken, h, env, s, w), buffer, text)
    decreases |source|, 0
  {
    hide Evaluate, RunLine, Plus, Returns, Leading, Pieces;
    var run := Leading(source);
    LeadingLength(source);
    LeadingSplits(source);
    if source != [] && |run| == |source| {
      assert source == Pieces(run) + [] == Pieces(run);
      SumFromAdds(buffer, run, taken, h, text, env, s, w);
      var c := Collect(source, taken, h, env, s, w);
      if c.Collected? {
        AddSingles(buffer, c.vs, text);
        FlatSingles(c.vs);
      }
    } else if source != [] {
      var line, rest := source[|run|], source[|run| + 1..];
      assert source[|run|..] == [line] + rest;
      if run == [] {
        WholeRuns(line, rest, buffer, taken, h, text, env, s, w);
        assert source == [line] + rest;
      } else {
        ExtendRuns(run, line, rest, buffer, taken, h, text, env, s, w);
        assert MergeRest(source) == [Extend(run)] + ([Whole(line)] + MergeRest(rest));
      }
    }
  }

  lemma {:induction false} ExtendRuns<W(!new)>(run: seq<Js>, line: Line, rest: seq<Line>, buffer: Value, taken: bool,
                                               h: Host<W>, text: Value -> string, env: Env, s: Store, w: W)
    requires run != [] && !Returns(line) && NeverReturns(rest)
    ensures var parts := [Extend(run)] + ([Whole(line)] + MergeRest(rest));
            Runs(RunParts(parts, buffer, taken, h, text, env, s, w), Collect(Pieces(run) + ([line] + rest), taken, h, env, s, w),
                 GroupsOf(parts, taken, h, env, s, w), buffer, text)
    decreases |rest|, 2
  {
    hide Evaluate, RunLine, Plus, SumOf, MergeRest, Returns, Runs, Pieces, AddAll;
    var more := [Whole(line)] + MergeRest(rest);
    assert ([Extend(run)] + more)[1..] == more;
    SumOfAdds(run, taken, h, text, env, s, w);
    CollectConcat(Pieces(run), [line] + rest, taken, h, env, s, w);
    var c := Collect(Pieces(run), taken, h, env, s, w);
    if c.CollectThrew? {
      ThrewRuns(c.w, buffer, text);
    } else {
      var next := Plus(buffer, AddAll(c.vs[0], c.vs[1..], text), text);
      WholeRuns(line, rest, next, taken, h, text, env, c.s, c.w);
      GroupFirst(c.vs, RunParts(more, next, taken, h, text, env, c.s, c.w), Collect([line] + rest, taken, h, env, c.s, c.w),
                 GroupsOf(more, taken, h, env, c.s, c.w), buffer, text);
    }
  }

  // ----- the whole body -----

  /** Numbers meet in a run of the body. */
  predicate MeetIn<W>(source: seq<Line>, h: Host<W>, env: Env, s: Store, w: W) {
    var g := BodyGroups(source, h, env, s, w);
    g.Grouped? && NumbersMeet(g.groups)
  }

  /** The text made is the text meant, unless numbers meet; then it is not, when numbers are written as numerals. */
  ghost predicate SameUnless(meet: bool, made: string, meant: string, text: Value -> string) {
    (!meet ==> made == meant) && (Numerals(text) ==> (made == meant <==> !meet))
  }

  /** A run of a function body against the values its lines append. */
  ghost predicate Agrees<W(!new)>(r: Outcome<W>, c: Collected<W>, meet: bool, text: Value -> string) {
    match c
    case CollectThrew(w) => r == Threw(w)
    case Collected(vs, _, w, _) => r.Returned? && r.w == w && SameUnless(meet, Text(r.value, text), TextOf(vs, text), text)
  }

  lemma {:induction false} SumAgrees<W(!new)>(r: Outcome<W>, c: Collected<W>, groups: seq<seq<Value>>, text: Value -> string)
    requires c.Collected? && groups != [] && NoneEmpty(groups) && (Flat(groups) == c.vs || Flat(groups) == [Str("")] + c.vs)
    requires r == Returned(Sum(groups, text), c.w)
    ensures Agrees(r, c, NumbersMeet(groups), text)
  {
    hide Sum, NumbersMeet, TextOf, Numerals;
    SumText(groups, text);
    TextConcat([Str("")], c.vs, text);
    TextOne(Str(""), text);
  }

  /** Running the merged body fails as its lines do, and otherwise returns the sum of the groups. */
  lemma {:induction false} MergedAgrees<W(!new)>(source: seq<Line>, h: Host<W>, text: Value -> string, env: Env, s: Store, w: W)
    requires NeverReturns(source)
    ensures Agrees(RunParts(Merge(source, false), Str(""), false, h, text, env, s, w), Collect(source, false, h, env, s, w),
                   MeetIn(source, h, env, s, w), text)
    ensures var c, g := Collect(source, false, h, env, s, w), BodyGroups(source, h, env, s, w);
            c.Collected? ==>
              g.Grouped? && g.groups != [] && NoneEmpty(g.groups)
              && (Flat(g.groups) == c.vs || Flat(g.groups) == [Str("")] + c.vs)
              && RunParts(Merge(source, false), Str(""), false, h, text, env, s, w) == Returned(Sum(g.groups, text), c.w)
              && (Clean(c.vs) ==> !NumbersMeet(g.groups))
  {
    hide Evaluate, RunLine, Plus, Returns, SumOf, AddAll, NumbersMeet, Agrees, MergeRest, Leading, Pieces, Clean;
    var run := Leading(source);
    LeadingLength(source);
    LeadingSplits(source);
    var c, g := Collect(source, false, h, env, s, w), BodyGroups(source, h, env, s, w);
    var r := RunParts(Merge(source, false), Str(""), false, h, text, env, s, w);
    if source == [] {
      AddAllNone(text);
    } else if |run| == |source| {
      assert source == Pieces(run) + [] == Pieces(run);
      SumOfAdds(run, false, h, text, env, s, w);
      if c.Collected? {
        assert [c.vs][1..] == [] && c.vs + [] == c.vs;
      }
    } else if run == [] {
      RestRuns(source, Str(""), false, h, text, env, s, w);
      RestIsWhole(source);
      AddAllNone(text);
      var rest := GroupsOf(MergeRest(source), false, h, env, s, w);
      if c.Collected? {
        assert ([[Str("")]] + rest.groups)[1..] == rest.groups;
        assert [Str("")][1..] == [];
      }
    } else {
      var line, rest := source[|run|], source[|run| + 1..];
      assert source[|run|..] == [line] + rest;
      InitRuns(run, line, rest, h, text, env, s, w);
      assert Merge(source, false) == [Init(run)] + ([Whole(line)] + MergeRest(rest));
    }
    if c.Collected? {
      SumAgrees(r, c, g.groups, text);
      if Clean(c.vs) {
        CleanAfterNothing(c.vs);
        CleanNeverMeets(g.groups);
      }
    } else {
      ThrewAgrees(c.w, MeetIn(source, h, env, s, w), text);
    }
  }

  lemma {:induction false} AddAllNone(text: Value -> string)
    ensures AddAll(Str(""), [], text) == Str("") && Flat([[Str("")]]) == [Str("")] + []
  {
    assert [[Str("")]][1..] == [] && Flat([]) == [];
  }

  lemma {:induction false} RestIsWhole(source: seq<Line>)
    requires source != [] && Leading(source) == []
    ensures MergeRest(source) != [] && MergeRest(source)[0].Whole?
  {
    hide Leading;
  }

  lemma ThrewAgrees<W(!new)>(w: W, meet: bool, text: Value -> string)
    ensures Agrees(Threw(w), CollectThrew(w), meet, text)
  {
  }

  lemma {:induction false} InitRuns<W(!new)>(run: seq<Js>, line: Line, rest: seq<Line>, h: Host<W>, text: Value -> string, env: Env, s: Store, w: W)
    requires run != [] && !Returns(line) && NeverReturns(rest)
    ensures var parts := [Init(run)] + ([Whole(line)] + MergeRest(rest));
            var r := RunParts(parts, Str(""), false, h, text, env, s, w);
            var g := GroupsOf(parts, false, h, env, s, w);
            match Collect(Pieces(run) + ([line] + rest), false, h, env, s, w)
            case CollectThrew(w1) => r == Threw(w1) && g == GroupsThrew(w1)
            case Collected(vs, _, w1, _) =>
              g.Grouped? && g.groups != [] && NoneEmpty(g.groups) && Flat(g.groups) == vs && r == Returned(Sum(g.groups, text), w1)
  {
    hide Evaluate, RunLine, Plus, SumOf, MergeRest, Returns, Pieces, AddAll;
    var more := [Whole(line)] + MergeRest(rest);
    assert ([Init(run)] + more)[1..] == more;
    SumOfAdds(run, false, h, text, env, s, w);
    CollectConcat(Pieces(run), [line] + rest, false, h, env, s, w);
    var c := Collect(Pieces(run), false, h, env, s, w);
    if c.Collected? {
      WholeRuns(line, rest, AddAll(c.vs[0], c.vs[1..], text), false, h, text, env, c.s, c.w);
      var g := GroupsOf(more, false, h, env, c.s, c.w);
      assert g.Grouped? ==> ([c.vs] + g.groups)[1..] == g.groups;
    }
  }

  // ----- values among which no number follows a number -----

  lemma CleanPrefix(a: seq<Value>, b: seq<Value>)
    requires Clean(a + b)
    ensures Clean(a)
  {
    CleanConcat(false, a, b);
  }

  lemma CleanSuffix(a: seq<Value>, b: seq<Value>)
    requires Clean(a + b)
    ensures Clean(b)
  {
    CleanConcat(false, a, b);
    if b != [] {
      assert CleanAfter(Numeric(b[0]), b[1..]);
    }
  }

  lemma {:induction false} CleanAfterNothing(vs: seq<Value>)
    requires Clean(vs)
    ensures Clean([Str("")] + vs)
  {
    assert ([Str("")] + vs)[1..] == vs;
  }

  lemma {:induction false} CleanOpens(vs: seq<Value>)
    requires Clean(vs)
    ensures !OpensWithTwo(vs)
  {
    if |vs| >= 2 {
      assert CleanAfter(Numeric(vs[0]), vs[1..]);
    }
  }

  lemma {:induction false} CleanGroups(groups: seq<seq<Value>>)
    requires Clean(Flat(groups))
    ensures forall i :: 0 <= i < |groups| ==> !OpensWithTwo(groups[i])
    decreases groups
  {
    hide Clean, OpensWithTwo;
    if groups != [] {
      CleanPrefix(groups[0], Flat(groups[1..]));
      CleanSuffix(groups[0], Flat(groups[1..]));
      CleanOpens(groups[0]);
      CleanGroups(groups[1..]);
      assert groups == [groups[0]] + groups[1..];
    }
  }

  lemma {:induction false} CleanNeverMeets(groups: seq<seq<Value>>)
    requires Clean(Flat(groups))
    ensures !NumbersMeet(groups)
  {
    hide OpensWithTwo;
    CleanGroups(groups);
    if |groups| >= 2 && OneNumber(groups[0]) && OneNumber(groups[1]) {
      var rest := groups[1..];
      assert rest[0] == groups[1] && Flat(groups) == groups[0] + (groups[1] + Flat(rest[1..]));
      assert Flat(groups) == (groups[0] + groups[1]) + Flat(rest[1..]);
      CleanPrefix(groups[0] + groups[1], Flat(rest[1..]));
      CleanOpens(groups[0] + groups[1]);
      TwoOpen(groups[0], groups[1]);
      assert false;
    }
  }

  lemma TwoOpen(a: seq<Value>, b: seq<Value>)
    requires OneNumber(a) && OneNumber(b)
    ensures OpensWithTwo(a + b)
  {
  }
}
