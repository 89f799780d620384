/**
 The backbone Collection without a comparator: a list of models, an index by id and cid, and a length counted by
 hand. Event handlers, validation and the making of models from attributes are parameters of the inputs.
 */
module BackboneCollection {
  import opened Wrappers
  import opened BackboneIndex

  // ----- get -----

  datatype Query =
    | Key(key: string)
    | Of(model: Model)
    | Attributes(id: Option<string>, cid: Option<string>)

  /** The three property names `get` tries in turn. */
  function Keys(ids: Ids, q: Query): (keys: seq<string>)
    ensures |keys| == 3
  {
    match q
    case Key(key) => [key, "undefined", "undefined"]
    case Of(m) => ["[object Object]", KeyOf(IdOf(ids, m)), m]
    case Attributes(id, cid) => ["[object Object]", KeyOf(id), KeyOf(cid)]
  }

  function Lookup(ids: Ids, ms: seq<Model>, q: Query): Option<Model> {
    var keys := Keys(ids, q);
    if Search(ids, ms, keys[0]).Some? then Search(ids, ms, keys[0])
    else if Search(ids, ms, keys[1]).Some? then Search(ids, ms, keys[1])
    else Search(ids, ms, keys[2])
  }

  lemma {:induction false} LookupFinds(ids: Ids, ms: seq<Model>, q: Query)
    ensures Lookup(ids, ms, q).Some? ==> Lookup(ids, ms, q).value in ms
    ensures Lookup(ids, ms, q).None? ==>
              Search(ids, ms, Keys(ids, q)[0]).None? && Search(ids, ms, Keys(ids, q)[1]).None?
              && Search(ids, ms, Keys(ids, q)[2]).None?
  {
    hide Search;
    SearchFinds(ids, ms, Keys(ids, q)[0]);
    SearchFinds(ids, ms, Keys(ids, q)[1]);
    SearchFinds(ids, ms, Keys(ids, q)[2]);
  }

  /** A member is found by itself. */
  lemma MemberFound(ids: Ids, ms: seq<Model>, byId: map<string, Model>, m: Model)
    requires Indexed(ids, ms, byId) && m in ms
    ensures Lookup(ids, ms, Of(m)) == Some(m)
  {
    hide Search;
    NoReservedKeys(ids, ms, byId);
    IndexIsSearch(ids, ms, byId, "[object Object]");
    IndexIsSearch(ids, ms, byId, KeyOf(IdOf(ids, m)));
    IndexIsSearch(ids, ms, byId, m);
  }

  /** A member is found by its id and by its cid, and with both given the id decides. */
  lemma IdBeforeCid(ids: Ids, ms: seq<Model>, byId: map<string, Model>, m: Model, id: string, cid: Option<string>)
    requires Indexed(ids, ms, byId) && m in ms && IdOf(ids, m) == Some(id)
    ensures Lookup(ids, ms, Key(id)) == Lookup(ids, ms, Key(m)) == Some(m)
    ensures Lookup(ids, ms, Attributes(Some(id), cid)) == Some(m)
    ensures forall other :: Lookup(ids, ms, Attributes(other, Some(m))).Some?
  {
    hide Search;
    NoReservedKeys(ids, ms, byId);
    IndexIsSearch(ids, ms, byId, "[object Object]");
    IndexIsSearch(ids, ms, byId, id);
    IndexIsSearch(ids, ms, byId, m);
  }

  // ----- remove -----

  function Removed(ms: seq<Model>, o: Option<Model>): seq<Model> {
    match o case None => ms case Some(m) => Except(ms, {m})
  }

  function RemoveAll(ids: Ids, ms: seq<Model>, qs: seq<Query>): seq<Model>
    decreases qs
  {
    if qs == [] then ms else RemoveAll(ids, Removed(ms, Lookup(ids, ms, qs[0])), qs[1..])
  }

  // ----- set -----

  /** A model, or attributes with the model that would be made of them, if they are valid. */
  datatype Input =
    | Instance(model: Model)
    | Hash(id: Option<string>, made: Option<Model>)

  function Candidate(h: Input): Option<Model> {
    match h case Instance(m) => Some(m) case Hash(_, made) => made
  }

  function Found(ids: Ids, ms: seq<Model>, h: Input): Option<Model> {
    match h
    case Instance(m) => Lookup(ids, ms, Of(m))
    case Hash(None, _) => None
    case Hash(Some(key), _) => Lookup(ids, ms, Key(key))
  }

  /**
   What the loop over the list has gathered: `order` is the list it may become, `seen` holds cids of members met
   and ids of all models met, and `listed` is every model met.
   */
  datatype Progress = Progress(added: seq<Model>, order: seq<Model>, seen: set<string>, last: Option<Model>, listed: seq<Model>)

  function Start(): Progress {
    Progress([], [], {}, None, [])
  }

  function Noted(ids: Ids, p: Progress, o: Model, ordered: bool): Progress {
    p.(order := if ordered && !(IdOf(ids, o).Some? && KeyOf(IdOf(ids, o)) in p.seen) then p.order + [o] else p.order,
       seen := p.seen + {KeyOf(IdOf(ids, o))},
       last := Some(o),
       listed := p.listed + [o])
  }

  /** One turn of the loop; None when it throws for want of any model. */
  function Step(ids: Ids, ms: seq<Model>, p: Progress, h: Input, add: bool, remove: bool): Option<Progress> {
    match Found(ids, ms + p.added, h)
    case Some(c) => Some(Noted(ids, p.(seen := if remove then p.seen + {c} else p.seen), c, add && remove))
    case None =>
      if add then
        (match Candidate(h)
         case None => Some(p.(last := None))
         case Some(o) => Some(Noted(ids, p.(added := p.added + [o]), o, remove)))
      else
        match if h.Instance? then Some(h.model) else p.last
        case None => None
        case Some(o) => Some(Noted(ids, p, o, false))
  }

  function Walk(ids: Ids, ms: seq<Model>, p: Progress, inputs: seq<Input>, add: bool, remove: bool): Option<Progress>
    decreases inputs
  {
    if inputs == [] then Some(p)
    else
      match Step(ids, ms, p, inputs[0], add, remove)
      case None => None
      case Some(next) => Walk(ids, ms, next, inputs[1..], add, remove)
  }

  /** `splice(at + s, 0, m)` for each added model in turn. */
  function InsertedAt(ms: seq<Model>, at: int, added: seq<Model>): seq<Model>
    decreases added
  {
    if added == [] then ms
    else InsertedAt(ms[..Clamped(at, |ms|)] + [added[0]] + ms[Clamped(at, |ms|)..], at + 1, added[1..])
  }

  function Clamped(at: int, length: nat): (k: nat)
    ensures k <= length
  {
    if at < 0 then (if length + at > 0 then length + at else 0) else if at <= length then at else length
  }

  function Unmet(ms: seq<Model>, seen: set<string>): seq<Model> {
    if ms == [] then [] else (if ms[0] in seen then [] else [ms[0]]) + Unmet(ms[1..], seen)
  }

  function Members(s: seq<Model>): set<Model> {
    set m | m in s
  }

  /** The members the list has met, in their old order. */
  function Met(ms: seq<Model>, seen: set<string>): seq<Model> {
    Except(ms, Members(Unmet(ms, seen)))
  }

  /** The list after `set`. */
  function Updated(ms: seq<Model>, p: Progress, add: bool, remove: bool, at: Option<int>): seq<Model> {
    var kept := if remove then Met(ms, p.seen) else ms;
    if p.added == [] && !(add && remove && p.order != []) then kept
    else if at.Some? then InsertedAt(kept, at.value, p.added)
    else if add && remove then p.order
    else kept + p.added
  }

  // ----- what is asked of the inputs -----

  /** Ids are no cids, and a model made of attributes has their id and is new each time. */
  predicate Proper(ids: Ids, ms: seq<Model>, inputs: seq<Input>) {
    && (forall i :: 0 <= i < |inputs| && Candidate(inputs[i]).Some? ==> Named(ids, Candidate(inputs[i]).value))
    && (forall i :: 0 <= i < |inputs| && inputs[i].Hash? && inputs[i].made.Some? ==>
          IdOf(ids, inputs[i].made.value) == inputs[i].id && inputs[i].made.value !in ms)
    && (forall i, j :: 0 <= i < |inputs| && 0 <= j < |inputs| && i != j && inputs[i].Hash? && inputs[i].made.Some? ==>
          Candidate(inputs[i]) != Candidate(inputs[j]))
  }

  /** No model without an id is met twice. */
  predicate NoNewTwice(ids: Ids, listed: seq<Model>) {
    forall i, j :: 0 <= i < j < |listed| && listed[i] == listed[j] ==> IdOf(ids, listed[i]).Some?
  }

  /** An entry that is the model m, is made into it, or has its cid as an id. */
  predicate Meets(h: Input, m: Model) {
    Candidate(h) == Some(m) || (h.Hash? && h.id == Some(m))
  }

  /** Two entries lead the loop to m. It must be a member, or the first of them must bring it in. */
  predicate MetTwice(ms: seq<Model>, inputs: seq<Input>, m: Model) {
    exists i, j :: 0 <= i < j < |inputs| && Meets(inputs[i], m) && Meets(inputs[j], m)
                   && (m in ms || Candidate(inputs[i]) == Some(m))
  }

  /** The list leads to some model without an id more than once. */
  ghost predicate NewTwice(ids: Ids, ms: seq<Model>, inputs: seq<Input>) {
    exists m :: IdOf(ids, m).None? && MetTwice(ms, inputs, m)
  }

  // ----- what the loop keeps -----

  predicate SameId(ids: Ids, o: Model, s: seq<Model>) {
    exists m :: m in s && IdOf(ids, m) == IdOf(ids, o)
  }

  /** Every model met, one with an id only where it comes first. */
  function FirstOfEach(ids: Ids, listed: seq<Model>): seq<Model> {
    if listed == [] then []
    else
      var front, o := listed[..|listed| - 1], listed[|listed| - 1];
      FirstOfEach(ids, front) + (if IdOf(ids, o).Some? && SameId(ids, o, front) then [] else [o])
  }

  /** Listed models are exactly the added ones and the members met; `pending` is known but not yet listed. */
  ghost predicate Orderly(ids: Ids, ms: seq<Model>, p: Progress, pending: set<Model>) {
    && p.order == FirstOfEach(ids, p.listed)
    && (forall m :: m in p.listed ==> m in ms + p.added && (m in ms ==> m in p.seen))
    && (forall m :: m in p.added ==> m in p.listed || m in pending)
    && (forall m :: m in ms && m in p.seen ==> m in p.listed || m in pending)
    && (forall k :: OkId(k) ==> (k in p.seen <==> exists m :: m in p.listed && IdOf(ids, m) == Some(k)))
  }

  /** The rest of the list makes no model that is already there. */
  predicate FreshLeft(p: Progress, inputs: seq<Input>) {
    forall i :: 0 <= i < |inputs| && inputs[i].Hash? && inputs[i].made.Some? ==> inputs[i].made.value !in p.added
  }

  lemma {:induction false} NewCandidate(ids: Ids, ms: seq<Model>, byId: map<string, Model>, p: Progress, inputs: seq<Input>)
    requires inputs != [] && Proper(ids, ms, inputs) && FreshLeft(p, inputs) && Indexed(ids, ms + p.added, byId)
    requires Found(ids, ms + p.added, inputs[0]).None? && Candidate(inputs[0]).Some?
    ensures var o := Candidate(inputs[0]).value;
            && Named(ids, o) && o !in ms + p.added
            && (IdOf(ids, o).Some? ==> Search(ids, ms + p.added, IdOf(ids, o).value).None?)
  {
    hide Search, Lookup;
    var h, known := inputs[0], ms + p.added;
    if h.Instance? {
      LookupFinds(ids, known, Of(h.model));
      SearchFinds(ids, known, h.model);
      assert forall m :: m in known ==> !Answers(ids, m, h.model);
    } else {
      if h.id.Some? {
        LookupFinds(ids, known, Key(h.id.value));
      }
    }
  }

  lemma FoundKnown(ids: Ids, known: seq<Model>, h: Input)
    ensures Found(ids, known, h).Some? ==> Found(ids, known, h).value in known
  {
    hide Lookup;
    if h.Instance? {
      LookupFinds(ids, known, Of(h.model));
    } else if h.id.Some? {
      LookupFinds(ids, known, Key(h.id.value));
    }
  }

  lemma SameIdSame(ids: Ids, known: seq<Model>, byId: map<string, Model>, m: Model, o: Model)
    requires Indexed(ids, known, byId) && m in known && o in known && IdOf(ids, m).Some? && IdOf(ids, m) == IdOf(ids, o)
    ensures m == o
  {
  }

  lemma {:induction false} FirstMembers(ids: Ids, listed: seq<Model>, known: seq<Model>, byId: map<string, Model>)
    requires Indexed(ids, known, byId) && forall m :: m in listed ==> m in known
    ensures forall m :: m in FirstOfEach(ids, listed) <==> m in listed
    ensures Distinct(FirstOfEach(ids, listed)) <==> NoNewTwice(ids, listed)
    decreases listed
  {
    hide Indexed;
    if listed != [] {
      var front, o := listed[..|listed| - 1], listed[|listed| - 1];
      FirstMembers(ids, front, known, byId);
      assert listed == front + [o];
      var first := FirstOfEach(ids, front);
      if IdOf(ids, o).Some? && SameId(ids, o, front) {
        var m :| m in front && IdOf(ids, m) == IdOf(ids, o);
        SameIdSame(ids, known, byId, m, o);
        assert first + [] == first;
        assert NoNewTwice(ids, listed) == NoNewTwice(ids, front) by {
          NoNewLast(ids, front, o);
        }
      } else {
        NoNewLast(ids, front, o);
        DistinctLast(first, o);
      }
    }
  }

  lemma NoNewLast(ids: Ids, front: seq<Model>, o: Model)
    ensures NoNewTwice(ids, front + [o]) <==> NoNewTwice(ids, front) && (o in front ==> IdOf(ids, o).Some?)
  {
    var s := front + [o];
    if NoNewTwice(ids, s) {
      forall i, j | 0 <= i < j < |front| && front[i] == front[j] ensures IdOf(ids, front[i]).Some? {
        assert s[i] == s[j];
      }
      if o in front {
        var i :| 0 <= i < |front| && front[i] == o;
        assert s[i] == s[|front|];
      }
    }
  }

  lemma DistinctLast(s: seq<Model>, o: Model)
    ensures Distinct(s + [o]) <==> Distinct(s) && o !in s
  {
    var t := s + [o];
    if Distinct(t) {
      forall i, j | 0 <= i < j < |s| ensures s[i] != s[j] {
        assert t[i] != t[j];
      }
      forall i | 0 <= i < |s| ensures s[i] != o {
        assert t[i] != t[|s|];
      }
    }
  }

  lemma {:induction false} FirstLast(ids: Ids, listed: seq<Model>, o: Model)
    ensures FirstOfEach(ids, listed + [o])
         == FirstOfEach(ids, listed) + (if IdOf(ids, o).Some? && SameId(ids, o, listed) then [] else [o])
  {
    var s := listed + [o];
    assert s[..|s| - 1] == listed;
  }

  lemma NotedOrderly(ids: Ids, ms: seq<Model>, p: Progress, o: Model)
    requires Orderly(ids, ms, p, {o})
    requires o in ms + p.added && Named(ids, o) && (o in ms ==> o in p.seen)
    requires forall m :: m in ms ==> IsCid(m)
    ensures Orderly(ids, ms, Noted(ids, p, o, true), {})
  {
    var r := Noted(ids, p, o, true);
    FirstLast(ids, p.listed, o);
    var id := IdOf(ids, o);
    if id.Some? {
      assert id.value in p.seen <==> SameId(ids, o, p.listed);
    }
    assert FirstOfEach(ids, p.listed) + [] == FirstOfEach(ids, p.listed);
    forall k | OkId(k) ensures k in r.seen <==> exists m :: m in r.listed && IdOf(ids, m) == Some(k) {
      if k in r.seen {
        if k in p.seen {
          var m :| m in p.listed && IdOf(ids, m) == Some(k);
          assert m in r.listed;
        } else {
          assert o in r.listed;
        }
      }
    }
  }

  lemma PendingMet(ids: Ids, ms: seq<Model>, p: Progress, o: Model)
    requires Orderly(ids, ms, p, {}) && Named(ids, o)
    ensures Orderly(ids, ms, p.(seen := p.seen + {o}), {o})
  {
    hide FirstOfEach;
  }

  lemma PendingAdded(ids: Ids, ms: seq<Model>, p: Progress, o: Model)
    requires Orderly(ids, ms, p, {})
    ensures Orderly(ids, ms, p.(added := p.added + [o]), {o})
  {
    hide FirstOfEach;
  }

  lemma Forgotten(ids: Ids, ms: seq<Model>, p: Progress)
    requires Orderly(ids, ms, p, {})
    ensures Orderly(ids, ms, p.(last := None), {})
  {
    hide FirstOfEach;
  }

  lemma StepOrderly(ids: Ids, ms: seq<Model>, byId: map<string, Model>, p: Progress, inputs: seq<Input>)
    requires inputs != [] && Proper(ids, ms, inputs) && FreshLeft(p, inputs) && Indexed(ids, ms + p.added, byId)
    requires Orderly(ids, ms, p, {})
    ensures var next := Step(ids, ms, p, inputs[0], true, true);
            next.Some? && Orderly(ids, ms, next.value, {})
  {
    hide FirstOfEach, Search, Lookup, Orderly;
    var h, known := inputs[0], ms + p.added;
    FoundKnown(ids, known, h);
    var c := Found(ids, known, h);
    forall m | m in ms ensures IsCid(m) {
      assert m in known && Named(ids, m);
    }
    if c.Some? {
      PendingMet(ids, ms, p, c.value);
      NotedOrderly(ids, ms, p.(seen := p.seen + {c.value}), c.value);
    } else if Candidate(h).Some? {
      NewCandidate(ids, ms, byId, p, inputs);
      PendingAdded(ids, ms, p, Candidate(h).value);
      NotedOrderly(ids, ms, p.(added := p.added + [Candidate(h).value]), Candidate(h).value);
    } else {
      Forgotten(ids, ms, p);
    }
  }

  /** The index, the distinctness and the freshness of what is left, for any options. */
  lemma StepKnown(ids: Ids, ms: seq<Model>, byId: map<string, Model>, p: Progress, inputs: seq<Input>, add: bool, remove: bool)
    requires inputs != [] && Proper(ids, ms, inputs) && FreshLeft(p, inputs)
    requires Indexed(ids, ms + p.added, byId) && Distinct(ms + p.added)
    ensures Proper(ids, ms, inputs[1..])
    ensures var next := Step(ids, ms, p, inputs[0], add, remove);
            next.Some? ==>
              Distinct(ms + next.value.added) && FreshLeft(next.value, inputs[1..])
              && (next.value.added == p.added
                  || (next.value.added == p.added + [Candidate(inputs[0]).value]
                      && Indexed(ids, ms + next.value.added, Referenced(ids, byId, Candidate(inputs[0]).value))))
  {
    hide Search, Lookup, Indexed, Referenced;
    ProperRest(ids, ms, inputs);
    var h, known := inputs[0], ms + p.added;
    if Found(ids, known, h).None? && add && Candidate(h).Some? {
      var o := Candidate(h).value;
      NewCandidate(ids, ms, byId, p, inputs);
      ReferencedIndexes(ids, known, byId, o);
      DistinctLast(known, o);
      assert known + [o] == ms + (p.added + [o]);
      forall i | 0 <= i < |inputs[1..]| && inputs[1..][i].Hash? && inputs[1..][i].made.Some?
        ensures inputs[1..][i].made.value !in p.added + [o]
      {
        assert inputs[1..][i] == inputs[i + 1];
        assert Candidate(inputs[i + 1]) != Candidate(inputs[0]);
      }
    } else {
      FreshRest(p, inputs);
    }
  }

  lemma ProperRest(ids: Ids, ms: seq<Model>, inputs: seq<Input>)
    requires inputs != [] && Proper(ids, ms, inputs)
    ensures Proper(ids, ms, inputs[1..])
  {
  }

  lemma FreshRest(p: Progress, inputs: seq<Input>)
    requires inputs != [] && FreshLeft(p, inputs)
    ensures FreshLeft(p, inputs[1..])
  {
  }

  // ----- lengths -----

  lemma {:induction false} CountMembers(s: seq<Model>)
    ensures Distinct(s) ==> |Members(s)| == |s|
    ensures !Distinct(s) ==> |Members(s)| < |s|
    ensures |Members(s)| <= |s|
    decreases s
  {
    if s != [] {
      var front, o := s[..|s| - 1], s[|s| - 1];
      CountMembers(front);
      assert s == front + [o];
      DistinctLast(front, o);
      assert Members(s) == Members(front) + {o};
    } else {
      assert Members(s) == {};
    }
  }

  /** The length counted by hand is the length of the list exactly when the list repeats nothing. */
  lemma CountedLength(kept: seq<Model>, added: seq<Model>, order: seq<Model>)
    requires Distinct(kept + added) && forall m :: m in order <==> m in kept + added
    ensures |kept| + |added| == |order| <==> Distinct(order)
  {
    CountMembers(kept + added);
    CountMembers(order);
    assert Members(order) == Members(kept + added);
  }

  lemma {:induction false} UnmetMembers(ms: seq<Model>, seen: set<string>)
    ensures forall m :: m in Unmet(ms, seen) <==> m in ms && m !in seen
    ensures Distinct(ms) ==> Distinct(Unmet(ms, seen))
    decreases ms
  {
    if ms != [] {
      UnmetMembers(ms[1..], seen);
      assert ms == [ms[0]] + ms[1..];
      if Distinct(ms) {
        assert Distinct(ms[1..]) && ms[0] !in ms[1..];
      }
    }
  }

  lemma MetMembers(ms: seq<Model>, seen: set<string>)
    ensures forall m :: m in Met(ms, seen) <==> m in ms && m in seen
    ensures Distinct(ms) ==> Distinct(Met(ms, seen))
  {
    UnmetMembers(ms, seen);
    ExceptMembers(ms, Members(Unmet(ms, seen)));
  }

  lemma {:induction false} InsertedMembers(ms: seq<Model>, at: int, added: seq<Model>)
    requires Distinct(ms + added)
    ensures Distinct(InsertedAt(ms, at, added)) && |InsertedAt(ms, at, added)| == |ms| + |added|
    ensures forall m :: m in InsertedAt(ms, at, added) <==> m in ms + added
    decreases added
  {
    if added == [] {
      assert ms + added == ms;
    } else {
      var k := Clamped(at, |ms|);
      var next := ms[..k] + [added[0]] + ms[k..];
      assert ms + added == (ms + [added[0]]) + added[1..];
      OneInserted(ms, k, added[0], added[1..]);
      InsertedMembers(next, at + 1, added[1..]);
      assert forall m :: m in next + added[1..] <==> m in ms + added;
    }
  }

  lemma OneInserted(ms: seq<Model>, k: nat, o: Model, more: seq<Model>)
    requires k <= |ms| && Distinct((ms + [o]) + more)
    ensures var next := ms[..k] + [o] + ms[k..];
            Distinct(next + more) && |next| == |ms| + 1 && forall m :: m in next <==> m in ms || m == o
  {
    var a, b := (ms + [o]) + more, ms[..k] + [o] + ms[k..] + more;
    forall i, j | 0 <= i < j < |b| ensures b[i] != b[j] {
      assert b[i] == a[if i < k then i else if i == k then |ms| else if i <= |ms| then i - 1 else i];
      assert b[j] == a[if j < k then j else if j == k then |ms| else if j <= |ms| then j - 1 else j];
    }
    forall m ensures m in ms[..k] + [o] + ms[k..] <==> m in ms || m == o {
      assert ms == ms[..k] + ms[k..];
    }
  }

  // ----- the collection -----

  /** Where the ids of all models live. */
  class World {
    var ids: Ids
  }

  class Collection {
    const world: World
    var models: seq<Model>
    var byId: map<string, Model>
    var length: int

    ghost predicate Valid()
      reads this, world
    {
      length == |models| && Distinct(models) && Indexed(world.ids, models, byId)
    }

    constructor (world: World)
      ensures this.world == world && Valid() && models == []
    {
      this.world := world;
      models, byId, length := [], map[], 0;
    }

    /** `known` are the models indexed so far. */
    method Get(q: Query, ghost known: seq<Model>) returns (m: Option<Model>)
      requires Indexed(world.ids, known, byId)
      ensures m == Lookup(world.ids, known, q)
    {
      hide Search, Indexed;
      var keys := Keys(world.ids, q);
      IndexIsSearch(world.ids, known, byId, keys[0]);
      IndexIsSearch(world.ids, known, byId, keys[1]);
      IndexIsSearch(world.ids, known, byId, keys[2]);
      if keys[0] in byId {
        m := Some(byId[keys[0]]);
      } else if keys[1] in byId {
        m := Some(byId[keys[1]]);
      } else if keys[2] in byId {
        m := Some(byId[keys[2]]);
      } else {
        m := None;
      }
    }

    method IndexOf(o: Model) returns (at: nat)
      requires o in models
      ensures at < |models| && models[at] == o
    {
      at := 0;
      while models[at] != o
        invariant at < |models| && o !in models[..at]
        decreases |models| - at
      {
        at := at + 1;
      }
    }

    /** One model is removed, also while `set` has indexed models that it has not yet put into the list. */
    method RemoveOne(q: Query, ghost extra: seq<Model>)
      requires Indexed(world.ids, models + extra, byId) && Distinct(models) && length == |models|
      requires forall m :: m in models ==> m !in extra
      requires extra == [] || (q.Of? && q.model in models)
      modifies this
      ensures Indexed(world.ids, models + extra, byId) && Distinct(models) && length == |models|
      ensures models == Removed(old(models), Lookup(world.ids, old(models) + extra, q))
    {
      hide Indexed, Lookup, Distinct, Except;
      var o := Get(q, models + extra);
      FoundIsMember(world.ids, models, extra, byId, q);
      if o.Some? {
        var gone := o.value;
        RemovedIndexes(world.ids, models, extra, byId, gone);
        ExceptMembers(models, {gone});
        byId := byId - {KeyOf(IdOf(world.ids, gone))};
        byId := byId - {gone};
        var at := IndexOf(gone);
        SplicedOut(models, at);
        models := models[..at] + models[at + 1..];
        length := length - 1;
      }
    }

    method Remove(qs: seq<Query>)
      requires Valid()
      modifies this
      ensures Valid() && models == RemoveAll(world.ids, old(models), qs)
    {
      hide Indexed, Lookup, Distinct, Removed;
      var s := 0;
      assert qs[0..] == qs;
      while s < |qs|
        invariant 0 <= s <= |qs|
        invariant Indexed(world.ids, models, byId) && Distinct(models) && length == |models|
        invariant RemoveAll(world.ids, models, qs[s..]) == RemoveAll(world.ids, old(models), qs)
      {
        assert qs[s..][0] == qs[s] && qs[s..][1..] == qs[s + 1..];
        ghost var before := models;
        assert before + [] == before;
        RemoveOne(qs[s], []);
        assert models + [] == models;
        s := s + 1;
      }
      assert qs[s..] == [];
    }

    /** The members that the list did not meet are removed. */
    method RemoveUnmet(seen: set<string>, ghost extra: seq<Model>)
      requires Indexed(world.ids, models + extra, byId) && Distinct(models) && length == |models|
      requires forall m :: m in models ==> m !in extra
      modifies this
      ensures Indexed(world.ids, models + extra, byId) && Distinct(models) && length == |models|
      ensures models == Met(old(models), seen)
    {
      hide Indexed, Lookup, Distinct, Except;
      var y := Unmet(models, seen);
      ghost var all := models;
      UnmetMembers(all, seen);
      var s := 0;
      ExceptAbsent(all, {});
      assert y[..0] == [] && Members([]) == {};
      while s < |y|
        invariant 0 <= s <= |y|
        invariant Indexed(world.ids, models + extra, byId) && Distinct(models) && length == |models|
        invariant models == Except(all, Members(y[..s]))
        invariant forall m :: m in models ==> m !in extra
      {
        NotBefore(y, s);
        ExceptMembers(all, Members(y[..s]));
        MemberFound(world.ids, models + extra, byId, y[s]);
        RemoveOne(Of(y[s]), extra);
        ExceptMore(all, Members(y[..s]), {y[s]});
        assert Members(y[..s + 1]) == Members(y[..s]) + {y[s]};
        ExceptMembers(all, Members(y[..s + 1]));
        s := s + 1;
      }
      assert y[..s] == y;
    }

    method AddReference(o: Model)
      modifies this`byId
      ensures byId == Referenced(world.ids, old(byId), o)
    {
      byId := byId[o := o];
      if IdOf(world.ids, o).Some? {
        byId := byId[IdOf(world.ids, o).value := o];
      }
    }

    /** The loop over the list; None when it throws. */
    method Gather(inputs: seq<Input>, add: bool, remove: bool) returns (p: Option<Progress>)
      requires Valid() && Proper(world.ids, models, inputs)
      modifies this`byId
      ensures p == Walk(world.ids, models, Start(), inputs, add, remove)
      ensures p.Some? ==> Distinct(models + p.value.added) && Indexed(world.ids, models + p.value.added, byId)
      ensures p.Some? && !add ==> p.value.added == []
      ensures p.Some? && add && remove ==> Orderly(world.ids, models, p.value, {})
      ensures p.None? ==> byId == old(byId)
    {
      hide Indexed, Lookup, Distinct, Search, Proper, Orderly, FreshLeft, Referenced, Walk;
      var g := Start();
      StartOrderly(world.ids, models, inputs);
      var s := 0;
      assert inputs[0..] == inputs;
      while s < |inputs|
        invariant 0 <= s <= |inputs|
        invariant Walk(world.ids, models, g, inputs[s..], add, remove) == Walk(world.ids, models, Start(), inputs, add, remove)
        invariant Proper(world.ids, models, inputs[s..]) && FreshLeft(g, inputs[s..])
        invariant Distinct(models + g.added) && Indexed(world.ids, models + g.added, byId)
        invariant !add ==> g.added == [] && byId == old(byId)
        invariant add && remove ==> Orderly(world.ids, models, g, {})
      {
        ghost var left := inputs[s..];
        assert left[0] == inputs[s] && left[1..] == inputs[s + 1..];
        WalkFirst(world.ids, models, g, left, add, remove);
        StepKnown(world.ids, models, byId, g, left, add, remove);
        if add && remove {
          StepOrderly(world.ids, models, byId, g, left);
        }
        var h := inputs[s];
        var c: Option<Model> := None;
        match h {
          case Instance(m) => c := Get(Of(m), models + g.added);
          case Hash(None, _) =>
          case Hash(Some(key), _) => c := Get(Key(key), models + g.added);
        }
        if c.Some? {
          if remove {
            g := g.(seen := g.seen + {c.value});
          }
          g := Noted(world.ids, g, c.value, add && remove);
        } else if add {
          var made := Candidate(h);
          if made.None? {
            g := g.(last := None);
          } else {
            g := g.(added := g.added + [made.value]);
            AddReference(made.value);
            g := Noted(world.ids, g, made.value, remove);
          }
        } else {
          var o := if h.Instance? then Some(h.model) else g.last;
          if o.None? {
            return None;
          }
          g := Noted(world.ids, g, o.value, false);
        }
        s := s + 1;
      }
      assert inputs[s..] == [];
      WalkNothing(world.ids, models, g, add, remove);
      p := Some(g);
    }

    method Set(inputs: seq<Input>, add: bool, remove: bool, at: Option<int>) returns (threw: bool)
      requires Valid() && Proper(world.ids, models, inputs)
      modifies this
      ensures var p := Walk(world.ids, old(models), Start(), inputs, add, remove);
              && (threw <==> p.None?)
              && (threw ==> Valid() && models == old(models))
              && (!threw ==> models == Updated(old(models), p.value, add, remove, at)
                             && (Valid() <==> (add && remove && at.None? ==> !NewTwice(world.ids, old(models), inputs))))
    {
      hide Indexed, Lookup, Distinct, Search, Proper, Orderly, Walk, Met, InsertedAt, NoNewTwice, NewTwice;
      if add && remove {
        ListedTwice(world.ids, models, inputs, byId);
      }
      var g := Gather(inputs, add, remove);
      if g.None? {
        return true;
      }
      var p := g.value;
      ghost var ms := models;
      ApartFrom(ms, p.added);
      if remove {
        RemoveUnmet(p.seen, p.added);
        MetMembers(ms, p.seen);
      }
      ghost var kept := models;
      KeptDistinct(ms, kept, p.added);
      if p.added != [] || (add && remove && p.order != []) {
        length := length + |p.added|;
        if at.Some? {
          InsertedMembers(kept, at.value, p.added);
          SpliceIn(at.value, p.added);
          SameMembers(world.ids, kept + p.added, models, byId);
        } else if add && remove {
          models := p.order;
          OrderedList(world.ids, ms, kept, p, byId);
        } else {
          models := models + p.added;
        }
      } else {
        assert kept + [] == kept;
        if add && remove && at.None? {
          OrderedList(world.ids, ms, kept, p, byId);
        }
      }
      threw := false;
    }

    method SpliceIn(at: int, added: seq<Model>)
      modifies this`models
      ensures models == InsertedAt(old(models), at, added)
    {
      var s := 0;
      assert added[0..] == added;
      while s < |added|
        invariant 0 <= s <= |added|
        invariant InsertedAt(models, at + s, added[s..]) == InsertedAt(old(models), at, added)
      {
        assert added[s..][0] == added[s] && added[s..][1..] == added[s + 1..];
        var k := Clamped(at + s, |models|);
        models := models[..k] + [added[s]] + models[k..];
        s := s + 1;
      }
      assert added[s..] == [];
    }

    /** `add` never removes, so it never lists a model twice. */
    method Add(inputs: seq<Input>, at: Option<int>)
      requires Valid() && Proper(world.ids, models, inputs)
      modifies this
      ensures Valid()
      ensures var p := Walk(world.ids, old(models), Start(), inputs, true, false);
              p.Some? && models == Updated(old(models), p.value, true, false, at)
    {
      hide Indexed, Lookup, Distinct, Search, Proper, Walk, NewTwice, Updated;
      ThrowsIff(world.ids, models, inputs, true, false);
      var threw := Set(inputs, true, false, at);
    }

    method Reset(inputs: seq<Input>)
      requires Proper(world.ids, [], inputs)
      modifies this
      ensures Valid()
      ensures var p := Walk(world.ids, [], Start(), inputs, true, false);
              p.Some? && models == Updated([], p.value, true, false, None)
    {
      hide Lookup, Search, Proper, Walk, Updated;
      models, byId, length := [], map[], 0;
      Add(inputs, None);
    }

    /** The id of a member changes and the collection hears of it. */
    method ChangeId(m: Model, id: Option<string>)
      requires Valid() && m in models && world.ids.Keys >= {m}
      requires id.Some? ==> OkId(id.value) && forall o :: o in models && o != m ==> IdOf(world.ids, o) != id
      modifies this`byId, world
      ensures Valid() && models == old(models) && world.ids == old(world.ids)[m := id]
    {
      var previous := IdOf(world.ids, m);
      ghost var was, index := world.ids, byId;
      NoReservedKeys(was, models, index);
      world.ids := world.ids[m := id];
      if previous != id {
        byId := byId - {KeyOf(previous)};
        if id.Some? {
          byId := byId[id.value := m];
        }
      }
      Reindexed(was, world.ids, models, index, byId, m, id);
    }
  }

  lemma Reindexed(was: Ids, now: Ids, ms: seq<Model>, index: map<string, Model>, byId: map<string, Model>, m: Model, id: Option<string>)
    requires Indexed(was, ms, index) && m in ms && now == was[m := id]
    requires id.Some? ==> OkId(id.value) && forall o :: o in ms && o != m ==> IdOf(was, o) != id
    requires var cleared := if IdOf(was, m) != id then index - {KeyOf(IdOf(was, m))} else index;
             byId == if IdOf(was, m) != id && id.Some? then cleared[id.value := m] else cleared
    ensures Indexed(now, ms, byId)
  {
    NoReservedKeys(was, ms, index);
    forall o | o in ms
      ensures Named(now, o) && o in byId && byId[o] == o
      ensures IdOf(now, o).Some? ==> IdOf(now, o).value in byId && byId[IdOf(now, o).value] == o
    {
      assert Named(was, o) && o in index && index[o] == o && Named(was, m);
      if o != m && IdOf(was, o).Some? {
        assert index[IdOf(was, o).value] == o;
      }
    }
    forall k | k in byId ensures byId[k] in ms && Answers(now, byId[k], k) {
      if id != Some(k) || IdOf(was, m) == id {
        assert k in index && index[k] in ms && Answers(was, index[k], k);
      }
    }
  }

  lemma FoundIsMember(ids: Ids, ms: seq<Model>, extra: seq<Model>, byId: map<string, Model>, q: Query)
    requires Indexed(ids, ms + extra, byId) && (extra == [] || (q.Of? && q.model in ms))
    ensures var o := Lookup(ids, ms + extra, q); o.Some? ==> o.value in ms
  {
    hide Lookup, Indexed;
    LookupFinds(ids, ms + extra, q);
    if extra != [] {
      MemberFound(ids, ms + extra, byId, q.model);
    } else {
      assert ms + extra == ms;
    }
  }

  lemma {:induction false} RemovedIndexes(ids: Ids, ms: seq<Model>, extra: seq<Model>, byId: map<string, Model>, gone: Model)
    requires Indexed(ids, ms + extra, byId) && gone in ms && gone !in extra
    ensures Indexed(ids, Except(ms, {gone}) + extra, (byId - {KeyOf(IdOf(ids, gone))}) - {gone})
  {
    hide Indexed, Except;
    UnreferencedIndexes(ids, ms + extra, byId, gone);
    ExceptMembers(ms + extra, {gone});
    ExceptMembers(ms, {gone});
    SameMembers(ids, Except(ms + extra, {gone}), Except(ms, {gone}) + extra, Unreferenced(ids, byId, gone));
  }

  lemma NotBefore(y: seq<Model>, s: nat)
    requires Distinct(y) && s < |y|
    ensures y[s] !in y[..s]
  {
  }

  lemma ApartFrom(ms: seq<Model>, added: seq<Model>)
    requires Distinct(ms + added)
    ensures forall m :: m in ms ==> m !in added
    ensures Distinct(ms) && Distinct(added)
  {
    var s := ms + added;
    forall m | m in ms ensures m !in added {
      var i :| 0 <= i < |ms| && ms[i] == m;
      forall j | 0 <= j < |added| ensures added[j] != m {
        assert s[i] != s[|ms| + j];
      }
    }
    forall i, j | 0 <= i < j < |added| ensures added[i] != added[j] {
      assert s[|ms| + i] != s[|ms| + j];
    }
    forall i, j | 0 <= i < j < |ms| ensures ms[i] != ms[j] {
      assert s[i] != s[j];
    }
  }

  lemma KeptDistinct(ms: seq<Model>, kept: seq<Model>, added: seq<Model>)
    requires Distinct(ms + added) && Distinct(kept) && forall m :: m in kept ==> m in ms
    ensures Distinct(kept + added)
  {
    ApartFrom(ms, added);
    var s := kept + added;
    forall i, j | 0 <= i < j < |s| ensures s[i] != s[j] {
      if i < |kept| <= j {
        assert s[i] in kept && s[j] in added;
      }
    }
  }

  /** With the default options the list is what was met, and its length is right when nothing new was met twice. */
  lemma OrderedList(ids: Ids, ms: seq<Model>, kept: seq<Model>, p: Progress, byId: map<string, Model>)
    requires Orderly(ids, ms, p, {}) && kept == Met(ms, p.seen) && Distinct(kept + p.added)
    requires Indexed(ids, kept + p.added, byId)
    ensures Indexed(ids, p.order, byId)
    ensures |kept| + |p.added| == |p.order| <==> Distinct(p.order)
    ensures Distinct(p.order) <==> NoNewTwice(ids, p.listed)
    ensures p.order == [] ==> kept == [] && p.added == []
  {
    hide Indexed, FirstOfEach, Met, Distinct;
    MetMembers(ms, p.seen);
    FirstMembers(ids, p.listed, kept + p.added, byId);
    CountedLength(kept, p.added, p.order);
    SameMembers(ids, kept + p.added, p.order, byId);
    var all := kept + p.added;
    if all != [] {
      assert all[0] in all;
      assert all[0] in p.order;
    }
  }

  lemma StartOrderly(ids: Ids, ms: seq<Model>, inputs: seq<Input>)
    ensures FreshLeft(Start(), inputs) && ms + Start().added == ms && Orderly(ids, ms, Start(), {})
  {
  }

  lemma {:induction false} WalkFirst(ids: Ids, ms: seq<Model>, p: Progress, inputs: seq<Input>, add: bool, remove: bool)
    requires inputs != []
    ensures var next := Step(ids, ms, p, inputs[0], add, remove);
            Walk(ids, ms, p, inputs, add, remove)
              == if next.None? then None else Walk(ids, ms, next.value, inputs[1..], add, remove)
  {
    hide Step;
  }

  lemma {:induction false} WalkNothing(ids: Ids, ms: seq<Model>, p: Progress, add: bool, remove: bool)
    ensures Walk(ids, ms, p, [], add, remove) == Some(p)
  {
  }

  // ----- models met twice -----

  predicate Hit(h: Input, m: Model, known: bool) {
    Meets(h, m) && (known || Candidate(h) == Some(m))
  }

  /** How often a list leads to the model m. */
  function Hits(inputs: seq<Input>, m: Model, known: bool): nat {
    if inputs == [] then 0
    else (if Hit(inputs[0], m, known) then 1 else 0) + Hits(inputs[1..], m, known || Candidate(inputs[0]) == Some(m))
  }

  lemma {:induction false} HitsOnce(inputs: seq<Input>, m: Model, known: bool)
    ensures Hits(inputs, m, known) >= 1 <==> exists i :: 0 <= i < |inputs| && Hit(inputs[i], m, known)
    decreases inputs
  {
    if inputs != [] {
      var rest := inputs[1..];
      assert inputs == [inputs[0]] + rest;
      HitsOnce(rest, m, known || Candidate(inputs[0]) == Some(m));
      if i :| 0 <= i < |inputs| && Hit(inputs[i], m, known) {
        assert i > 0 ==> rest[i - 1] == inputs[i];
      }
    }
  }

  lemma {:induction false} HitsTwice(inputs: seq<Input>, m: Model, known: bool)
    ensures Hits(inputs, m, known) >= 2
       <==> exists i, j :: 0 <= i < j < |inputs| && Hit(inputs[i], m, known) && Meets(inputs[j], m)
    decreases inputs
  {
    if inputs != [] {
      var rest := inputs[1..];
      assert inputs == [inputs[0]] + rest;
      HitsOnce(rest, m, true);
      HitsTwice(rest, m, known);
      if i, j :| 0 <= i < j < |inputs| && Hit(inputs[i], m, known) && Meets(inputs[j], m) {
        assert rest[j - 1] == inputs[j];
        assert i > 0 ==> rest[i - 1] == inputs[i];
      }
    }
  }

  lemma {:induction false} Occurrences(s: seq<Model>, m: Model)
    ensures multiset(s)[m] >= 1 <==> m in s
    ensures multiset(s)[m] >= 2 <==> exists i, j :: 0 <= i < j < |s| && s[i] == m && s[j] == m
    decreases s
  {
    if s != [] {
      var rest := s[1..];
      assert s == [s[0]] + rest;
      Occurrences(rest, m);
      if i, j :| 0 <= i < j < |s| && s[i] == m && s[j] == m {
        assert rest[j - 1] == s[j];
        assert i > 0 ==> rest[i - 1] == s[i];
      }
      if multiset(s)[m] >= 2 && s[0] == m {
        var j :| 0 <= j < |rest| && rest[j] == m;
        assert s[0] == m && s[j + 1] == m;
      }
    }
  }

  /** What an entry finds among models without an id. */
  lemma {:induction false} FindsNew(ids: Ids, known: seq<Model>, h: Input, m: Model)
    requires (forall o :: o in known ==> Named(ids, o)) && IdOf(ids, m).None?
    requires Candidate(h).Some? ==> Named(ids, Candidate(h).value)
    requires h.Hash? && h.made.Some? ==> IdOf(ids, h.made.value) == h.id
    ensures Found(ids, known, h) == Some(m) <==> m in known && (h == Instance(m) || (h.Hash? && h.id == Some(m)))
  {
    hide Search;
    if m in known {
      assert Named(ids, m);
    }
    SearchFinds(ids, known, "[object Object]");
    SearchFinds(ids, known, "undefined");
    if h.Instance? {
      SearchFinds(ids, known, KeyOf(IdOf(ids, h.model)));
      SearchFinds(ids, known, h.model);
    } else if h.id.Some? {
      SearchFinds(ids, known, h.id.value);
    }
  }

  /** The model that a turn of the loop with the default options meets. */
  function MetBy(ids: Ids, known: seq<Model>, h: Input): Option<Model> {
    if Found(ids, known, h).Some? then Found(ids, known, h) else Candidate(h)
  }

  lemma {:induction false} MetByHit(ids: Ids, known: seq<Model>, h: Input, m: Model)
    requires (forall o :: o in known ==> Named(ids, o)) && IdOf(ids, m).None?
    requires Candidate(h).Some? ==> Named(ids, Candidate(h).value)
    requires h.Hash? && h.made.Some? ==> IdOf(ids, h.made.value) == h.id
    ensures MetBy(ids, known, h) == Some(m) <==> Hit(h, m, m in known)
  {
    hide Found;
    FindsNew(ids, known, h, m);
    CandidateFound(ids, known, h, m);
    NoIdFindsNothing(ids, known, h);
    if m in known {
      assert Named(ids, m);
    }
  }

  lemma {:induction false} StepHits(ids: Ids, ms: seq<Model>, p: Progress, inputs: seq<Input>, m: Model)
    requires inputs != [] && Proper(ids, ms, inputs) && IdOf(ids, m).None?
    requires forall o :: o in ms + p.added ==> Named(ids, o)
    ensures var next := Step(ids, ms, p, inputs[0], true, true);
            && next.Some?
            && multiset(next.value.listed)[m] == multiset(p.listed)[m] + (if Hit(inputs[0], m, m in ms + p.added) then 1 else 0)
            && (m in ms + next.value.added <==> m in ms + p.added || Candidate(inputs[0]) == Some(m))
  {
    hide Found, Hit, Named;
    var h, known := inputs[0], ms + p.added;
    MetByHit(ids, known, h, m);
    CandidateFound(ids, known, h, m);
    var met := MetBy(ids, known, h);
    if met.Some? {
      OneMore(p.listed, met.value, m);
    }
  }

  lemma {:induction false} CandidateFound(ids: Ids, known: seq<Model>, h: Input, m: Model)
    requires (forall o :: o in known ==> Named(ids, o)) && IdOf(ids, m).None?
    requires Candidate(h).Some? ==> Named(ids, Candidate(h).value)
    requires h.Hash? && h.made.Some? ==> IdOf(ids, h.made.value) == h.id
    ensures Candidate(h) == Some(m) && Found(ids, known, h).Some? ==> m in known
  {
    hide Search;
    if h.Instance? {
      SearchFinds(ids, known, "[object Object]");
      SearchFinds(ids, known, "undefined");
      SearchFinds(ids, known, m);
    }
  }

  lemma OneMore(s: seq<Model>, o: Model, m: Model)
    ensures multiset(s + [o])[m] == multiset(s)[m] + (if o == m then 1 else 0)
  {
    assert multiset(s + [o]) == multiset(s) + multiset([o]);
  }

  lemma NoIdFindsNothing(ids: Ids, known: seq<Model>, h: Input)
    ensures h.Hash? && h.id.None? ==> Found(ids, known, h).None?
  {
  }

  lemma {:induction false} WalkHits(ids: Ids, ms: seq<Model>, byId: map<string, Model>, p: Progress, inputs: seq<Input>, m: Model)
    requires Proper(ids, ms, inputs) && FreshLeft(p, inputs) && IdOf(ids, m).None?
    requires Indexed(ids, ms + p.added, byId) && Distinct(ms + p.added)
    ensures var w := Walk(ids, ms, p, inputs, true, true);
            w.Some? && multiset(w.value.listed)[m] == multiset(p.listed)[m] + Hits(inputs, m, m in ms + p.added)
    decreases inputs
  {
    hide Step, Indexed, Distinct, Proper, FreshLeft, Hit, Referenced;
    if inputs != [] {
      AllNamed(ids, ms + p.added, byId);
      StepHits(ids, ms, p, inputs, m);
      StepKnown(ids, ms, byId, p, inputs, true, true);
      var next := Step(ids, ms, p, inputs[0], true, true).value;
      OnlyCandidates(ids, ms, p, inputs[0]);
      var index := if next.added == p.added then byId else Referenced(ids, byId, Candidate(inputs[0]).value);
      WalkHits(ids, ms, index, next, inputs[1..], m);
    }
  }

  lemma OnlyCandidates(ids: Ids, ms: seq<Model>, p: Progress, h: Input)
    ensures var next := Step(ids, ms, p, h, true, true); next.Some? && next.value.added != p.added ==> Candidate(h).Some?
  {
    hide Found;
  }

  lemma AllNamed(ids: Ids, known: seq<Model>, byId: map<string, Model>)
    requires Indexed(ids, known, byId)
    ensures forall o :: o in known ==> Named(ids, o)
  {
  }

  /** The loop meets a model without an id twice exactly when the list it is given leads to one twice. */
  lemma {:induction false} ListedTwice(ids: Ids, ms: seq<Model>, inputs: seq<Input>, byId: map<string, Model>)
    requires Proper(ids, ms, inputs) && Indexed(ids, ms, byId) && Distinct(ms)
    ensures var w := Walk(ids, ms, Start(), inputs, true, true);
            w.Some? && (NoNewTwice(ids, w.value.listed) <==> !NewTwice(ids, ms, inputs))
  {
    hide Walk, Indexed, Distinct, Proper, Meets, MetTwice;
    StartOrderly(ids, ms, inputs);
    var w := Walk(ids, ms, Start(), inputs, true, true);
    GoesOn(ids, ms, Start(), inputs, true, true);
    var listed := w.value.listed;
    forall m | IdOf(ids, m).None?
      ensures MetTwice(ms, inputs, m) <==> exists i, j :: 0 <= i < j < |listed| && listed[i] == m && listed[j] == m
    {
      WalkHits(ids, ms, byId, Start(), inputs, m);
      Occurrences(listed, m);
      MetIsHits(ms, inputs, m);
    }
    if !NoNewTwice(ids, listed) {
      var i, j :| 0 <= i < j < |listed| && listed[i] == listed[j] && IdOf(ids, listed[i]).None?;
      assert MetTwice(ms, inputs, listed[i]);
    }
  }

  lemma MetIsHits(ms: seq<Model>, inputs: seq<Input>, m: Model)
    ensures MetTwice(ms, inputs, m) <==> Hits(inputs, m, m in ms) >= 2
  {
    hide Meets;
    HitsTwice(inputs, m, m in ms);
  }

  /** When no attributes have a cid as their id, that is a model object without an id in two places of the list. */
  lemma NewTwiceInstances(ids: Ids, ms: seq<Model>, inputs: seq<Input>)
    requires Proper(ids, ms, inputs)
    requires forall i :: 0 <= i < |inputs| && inputs[i].Hash? && inputs[i].id.Some? ==> !IsCid(inputs[i].id.value)
    requires forall m :: m in ms ==> Named(ids, m)
    ensures NewTwice(ids, ms, inputs)
       <==> exists i, j :: 0 <= i < j < |inputs| && inputs[i] == inputs[j] && inputs[i].Instance? && IdOf(ids, inputs[i].model).None?
  {
    if NewTwice(ids, ms, inputs) {
      var m :| IdOf(ids, m).None? && MetTwice(ms, inputs, m);
      var i, j :| 0 <= i < j < |inputs| && Meets(inputs[i], m) && Meets(inputs[j], m)
                  && (m in ms || Candidate(inputs[i]) == Some(m));
      assert Named(ids, m);
      assert Candidate(inputs[i]) == Candidate(inputs[j]) == Some(m);
      assert inputs[i] == inputs[j];
    }
    if i, j :| 0 <= i < j < |inputs| && inputs[i] == inputs[j] && inputs[i].Instance? && IdOf(ids, inputs[i].model).None? {
      assert Meets(inputs[i], inputs[i].model) && Meets(inputs[j], inputs[i].model);
      assert MetTwice(ms, inputs, inputs[i].model);
    }
  }

  // ----- what callers rely on -----

  /** Without `add`, the first of the list must be a model or be found: otherwise `set` throws. */
  lemma {:induction false} ThrowsIff(ids: Ids, ms: seq<Model>, inputs: seq<Input>, add: bool, remove: bool)
    ensures Walk(ids, ms, Start(), inputs, add, remove).None?
       <==> !add && inputs != [] && inputs[0].Hash? && Found(ids, ms, inputs[0]).None?
  {
    hide Found;
    if inputs != [] {
      assert ms + [] == ms;
      var next := Step(ids, ms, Start(), inputs[0], add, remove);
      if next.Some? {
        GoesOn(ids, ms, next.value, inputs[1..], add, remove);
      }
    }
  }

  lemma {:induction false} GoesOn(ids: Ids, ms: seq<Model>, p: Progress, inputs: seq<Input>, add: bool, remove: bool)
    requires add || p.last.Some?
    ensures Walk(ids, ms, p, inputs, add, remove).Some?
    decreases inputs
  {
    hide Found;
    if inputs != [] {
      GoesOn(ids, ms, Step(ids, ms, p, inputs[0], add, remove).value, inputs[1..], add, remove);
    }
  }

  function Instances(list: seq<Model>): (inputs: seq<Input>)
    ensures |inputs| == |list| && forall i :: 0 <= i < |list| ==> inputs[i] == Instance(list[i])
  {
    if list == [] then [] else [Instance(list[0])] + Instances(list[1..])
  }

  /** A list of different models, none with the id of another model around, is what the collection becomes. */
  lemma {:induction false} InListOrder(ids: Ids, ms: seq<Model>, p: Progress, list: seq<Model>)
    requires Distinct(p.listed + list) && (forall m :: m in ms + p.listed + list ==> Named(ids, m))
    requires forall m, o :: m in ms + p.listed + list && o in ms + p.listed + list && IdOf(ids, m).Some? && IdOf(ids, m) == IdOf(ids, o)
               ==> m == o
    requires p.order == p.listed && (forall m :: m in p.added ==> m in p.listed)
    requires forall k :: OkId(k) && k in p.seen ==> exists m :: m in p.listed && IdOf(ids, m) == Some(k)
    ensures var r := Walk(ids, ms, p, Instances(list), true, true); r.Some? && r.value.order == p.listed + list
    decreases list
  {
    hide Search, Lookup;
    if list == [] {
      assert p.listed + list == p.listed;
    } else {
      var o, known := list[0], ms + p.added;
      var all := p.listed + list;
      OnlyItself(ids, ms + p.listed + list, known, o);
      var found := Lookup(ids, known, Of(o));
      assert found.Some? ==> found.value == o;
      var next := Step(ids, ms, p, Instance(o), true, true).value;
      NotListed(p.listed, list);
      forall m | m in p.listed && IdOf(ids, o).Some? ensures IdOf(ids, m) != IdOf(ids, o) {
        assert m != o && m in ms + p.listed + list;
      }
      assert Named(ids, o);
      assert next.order == p.order + [o] && next.listed == p.listed + [o];
      assert (p.listed + [o]) + list[1..] == all;
      assert ms + (p.listed + [o]) + list[1..] == ms + p.listed + list;
      forall k | OkId(k) && k in next.seen ensures exists m :: m in next.listed && IdOf(ids, m) == Some(k) {
        if k in p.seen {
          var m :| m in p.listed && IdOf(ids, m) == Some(k);
          assert m in next.listed;
        } else {
          assert o in next.listed;
        }
      }
      InListOrder(ids, ms, next, list[1..]);
    }
  }

  /** After `set` with such a list the collection is the list, whatever it was before, and its length is right. */
  lemma {:induction false} SetInListOrder(ids: Ids, ms: seq<Model>, list: seq<Model>)
    requires Distinct(list) && (forall m :: m in ms + list ==> Named(ids, m))
    requires forall m, o :: m in ms + list && o in ms + list && IdOf(ids, m).Some? && IdOf(ids, m) == IdOf(ids, o) ==> m == o
    ensures var r := Walk(ids, ms, Start(), Instances(list), true, true);
            r.Some? && Updated(ms, r.value, true, true, None) == list && !NewTwice(ids, ms, Instances(list))
  {
    hide Walk, Met, Named, IdOf;
    assert Start().listed + list == list && ms + Start().listed + list == ms + list;
    InListOrder(ids, ms, Start(), list);
    if list == [] {
      WalkNothing(ids, ms, Start(), true, true);
      NothingMet(ms);
    }
    NothingTwice(ids, ms, list);
  }

  lemma NothingTwice(ids: Ids, ms: seq<Model>, list: seq<Model>)
    requires Distinct(list)
    ensures !NewTwice(ids, ms, Instances(list))
  {
    var inputs := Instances(list);
    forall m ensures !MetTwice(ms, inputs, m) {
      forall i, j | 0 <= i < j < |inputs| && Meets(inputs[i], m) ensures !Meets(inputs[j], m) {
        assert list[i] != list[j];
      }
    }
  }

  lemma NoMembers(s: seq<Model>)
    ensures s == [] || exists m :: m in s
  {
    if s != [] {
      assert s[0] in s;
    }
  }

  lemma NothingMet(ms: seq<Model>)
    ensures Met(ms, {}) == []
  {
    MetMembers(ms, {});
    NoMembers(Met(ms, {}));
  }

  // ----- where additions go -----

  /** With a place from the front on, the additions go there as one block; a place behind the end is the end. */
  lemma {:induction false} OneBlock(ms: seq<Model>, at: nat, added: seq<Model>)
    ensures at <= |ms| ==> InsertedAt(ms, at, added) == ms[..at] + added + ms[at..]
    ensures at > |ms| ==> InsertedAt(ms, at, added) == ms + added
    decreases added
  {
    var k := if at <= |ms| then at else |ms|;
    if added == [] {
      assert ms[..k] + [] + ms[k..] == ms && ms + [] == ms;
    } else {
      var next := ms[..k] + [added[0]] + ms[k..];
      OneBlock(next, at + 1, added[1..]);
      assert added == [added[0]] + added[1..];
      if at <= |ms| {
        assert next[..at + 1] == ms[..at] + [added[0]] && next[at + 1..] == ms[at..];
        assert (ms[..at] + [added[0]]) + added[1..] + ms[at..] == ms[..at] + added + ms[at..];
      } else {
        assert next == ms + [added[0]];
        assert (ms + [added[0]]) + added[1..] == ms + added;
      }
    }
  }

  /** For a negative place that fails, even in an empty collection: each addition is placed anew from the end. */
  lemma {:induction false} NegativePlace(at: int)
    requires at < 0
    ensures InsertedAt([], at, ["c1", "c2"]) == ["c2", "c1"]
  {
    var first: seq<Model> := ["c1"];
    var nothing: seq<Model> := [];
    assert ["c1", "c2"][1..] == ["c2"] && ["c2"][1..] == [];
    assert nothing[..0] + ["c1"] + nothing[0..] == first;
    assert InsertedAt([], at, ["c1", "c2"]) == InsertedAt(first, at + 1, ["c2"]);
    assert Clamped(at + 1, 1) == 0;
    assert first[..0] + ["c2"] + first[0..] == ["c2", "c1"];
    assert InsertedAt(["c2", "c1"], at + 2, []) == ["c2", "c1"];
  }

  /** A single addition counts a negative place from the end, and stops at the front. */
  lemma OneFromTheEnd(ms: seq<Model>, back: nat, o: Model)
    requires back > 0
    ensures InsertedAt(ms, 0 - back, [o])
         == if back <= |ms| then ms[..|ms| - back] + [o] + ms[|ms| - back..] else [o] + ms
  {
    assert [o][1..] == [];
    var k := if back <= |ms| then |ms| - back else 0;
    assert InsertedAt(ms, 0 - back, [o]) == InsertedAt(ms[..k] + [o] + ms[k..], 1 - back, []);
    assert ms[..0] + [o] + ms[0..] == [o] + ms;
  }

  /** The additions stand together, in their order, somewhere among the models. */
  predicate Together(ms: seq<Model>, at: int, added: seq<Model>) {
    exists k :: 0 <= k <= |ms| && InsertedAt(ms, at, added) == ms[..k] + added + ms[k..]
  }

  /** That holds of every collection exactly when the place is not negative. */
  lemma BlockIff(at: int)
    ensures (forall ms, added :: Together(ms, at, added)) <==> at >= 0
  {
    if at >= 0 {
      forall ms, added ensures Together(ms, at, added) {
        OneBlock(ms, at, added);
        assert ms[..|ms|] + added + ms[|ms|..] == ms + added;
      }
    } else {
      NegativePlace(at);
      var nothing: seq<Model> := [];
      var two: seq<Model> := ["c1", "c2"];
      forall k | 0 <= k <= |nothing| ensures InsertedAt(nothing, at, two) != nothing[..k] + two + nothing[k..] {
        assert (nothing[..k] + two + nothing[k..])[0] == "c1";
      }
      assert !Together(nothing, at, two);
    }
  }

  /** `add` gathers the models of the list that are no members, in the order of the list. */
  lemma {:induction false} AddGathers(ids: Ids, ms: seq<Model>, p: Progress, list: seq<Model>)
    requires Distinct(list) && (forall m :: m in list ==> m !in p.added)
    requires forall m :: m in ms + p.added + list ==> Named(ids, m)
    requires forall m, o :: m in ms + p.added + list && o in ms + p.added + list && IdOf(ids, m).Some? && IdOf(ids, m) == IdOf(ids, o) ==> m == o
    ensures var r := Walk(ids, ms, p, Instances(list), true, false);
            r.Some? && r.value.added == p.added + Except(list, Members(ms))
    decreases list
  {
    hide Search, Lookup, Noted, Named, IdOf;
    if list == [] {
      assert p.added + [] == p.added;
    } else {
      var o, rest, known := list[0], list[1..], ms + p.added;
      assert list == [o] + rest;
      NotInRest(list);
      OnlyItself(ids, ms + p.added + list, known, o);
      LookupFinds(ids, known, Of(o));
      SelfFound(ids, ms + p.added + list, known, o);
      var next := Step(ids, ms, p, Instance(o), true, false).value;
      NotedAdds(ids, p, o);
      NotedAdds(ids, p.(added := p.added + [o]), o);
      assert next.added == if o in ms then p.added else p.added + [o];
      AddGathers(ids, ms, next, rest);
      assert (p.added + [o]) + Except(rest, Members(ms)) == p.added + ([o] + Except(rest, Members(ms)));
      assert p.added + ([] + Except(rest, Members(ms))) == p.added + Except(rest, Members(ms));
    }
  }

  lemma NotInRest(list: seq<Model>)
    requires Distinct(list) && list != []
    ensures list[0] !in list[1..] && Distinct(list[1..])
  {
  }

  lemma NotedAdds(ids: Ids, p: Progress, o: Model)
    ensures Noted(ids, p, o, false).added == p.added
  {
  }

  lemma {:induction false} SelfFound(ids: Ids, all: seq<Model>, known: seq<Model>, o: Model)
    requires (forall m :: m in all ==> Named(ids, m)) && o in all && forall m :: m in known ==> m in all
    ensures o in known ==> Lookup(ids, known, Of(o)).Some?
  {
    hide Search, Named;
    LookupFinds(ids, known, Of(o));
    SearchFinds(ids, known, o);
  }

  /** After `add` the new models stand behind the old ones, or as one block at the place asked for, in the order of the list. */
  lemma {:induction false} AddInListOrder(ids: Ids, ms: seq<Model>, list: seq<Model>)
    requires Distinct(list) && (forall m :: m in ms + list ==> Named(ids, m))
    requires forall m, o :: m in ms + list && o in ms + list && IdOf(ids, m).Some? && IdOf(ids, m) == IdOf(ids, o) ==> m == o
    ensures var r, more := Walk(ids, ms, Start(), Instances(list), true, false), Except(list, Members(ms));
            && r.Some? && Updated(ms, r.value, true, false, None) == ms + more
            && forall at: nat :: at <= |ms| ==> Updated(ms, r.value, true, false, Some(at)) == ms[..at] + more + ms[at..]
  {
    hide Walk, Except, Named, IdOf, InsertedAt;
    assert ms + Start().added + list == ms + list;
    AddGathers(ids, ms, Start(), list);
    var more := Except(list, Members(ms));
    assert [] + more == more && ms + [] == ms;
    forall at: nat | at <= |ms|
      ensures Updated(ms, Walk(ids, ms, Start(), Instances(list), true, false).value, true, false, Some(at)) == ms[..at] + more + ms[at..]
    {
      OneBlock(ms, at, more);
      assert ms[..at] + [] + ms[at..] == ms;
    }
  }

  // ----- attributes -----

  /** Attributes that name no id, with the models made of them. */
  function NewHashes(made: seq<Model>): (inputs: seq<Input>)
    ensures |inputs| == |made| && forall i :: 0 <= i < |made| ==> inputs[i] == Hash(None, Some(made[i]))
  {
    if made == [] then [] else [Hash(None, Some(made[0]))] + NewHashes(made[1..])
  }

  /** What is asked of the list holds of attributes made into new models, and of model objects. */
  lemma ListsAreProper(ids: Ids, ms: seq<Model>, made: seq<Model>)
    requires Distinct(made) && forall m :: m in made ==> Named(ids, m) && IdOf(ids, m).None? && m !in ms
    ensures Proper(ids, ms, NewHashes(made))
  {
    hide Named;
    var inputs := NewHashes(made);
    forall i, j | 0 <= i < |inputs| && 0 <= j < |inputs| && i != j ensures Candidate(inputs[i]) != Candidate(inputs[j]) {
      assert made[i] != made[j];
    }
  }

  lemma InstancesAreProper(ids: Ids, ms: seq<Model>, list: seq<Model>)
    requires forall m :: m in list ==> Named(ids, m)
    ensures Proper(ids, ms, Instances(list))
  {
    hide Named;
  }

  /** Attributes without an id always make new models, which come in the order of the list. */
  lemma {:induction false} HashesGather(ids: Ids, ms: seq<Model>, p: Progress, made: seq<Model>)
    ensures var r := Walk(ids, ms, p, NewHashes(made), true, false); r.Some? && r.value.added == p.added + made
    decreases made
  {
    hide Noted;
    if made == [] {
      assert p.added + [] == p.added;
    } else {
      var next := Step(ids, ms, p, Hash(None, Some(made[0])), true, false).value;
      NotedAdds(ids, p.(added := p.added + [made[0]]), made[0]);
      HashesGather(ids, ms, next, made[1..]);
      assert (p.added + [made[0]]) + made[1..] == p.added + made;
    }
  }

  /** So `add` of such attributes appends the models made of them. */
  lemma {:induction false} AddMakes(ids: Ids, ms: seq<Model>, made: seq<Model>)
    ensures var r := Walk(ids, ms, Start(), NewHashes(made), true, false);
            r.Some? && Updated(ms, r.value, true, false, None) == ms + made
  {
    hide Walk;
    HashesGather(ids, ms, Start(), made);
    assert [] + made == made && ms + [] == ms;
  }

  lemma NotListed(listed: seq<Model>, list: seq<Model>)
    requires Distinct(listed + list) && list != []
    ensures list[0] !in listed
  {
    var s := listed + list;
    forall i | 0 <= i < |listed| ensures listed[i] != list[0] {
      assert s[i] != s[|listed|];
    }
  }

  lemma OnlyItself(ids: Ids, all: seq<Model>, known: seq<Model>, o: Model)
    requires (forall m :: m in all ==> Named(ids, m)) && o in all && forall m :: m in known ==> m in all
    requires forall m, n :: m in all && n in all && IdOf(ids, m).Some? && IdOf(ids, m) == IdOf(ids, n) ==> m == n
    ensures var f := Lookup(ids, known, Of(o)); f.Some? ==> f.value == o
  {
    hide Search;
    SearchFinds(ids, known, "[object Object]");
    SearchFinds(ids, known, KeyOf(IdOf(ids, o)));
    SearchFinds(ids, known, o);
    assert Named(ids, o);
    var f := Lookup(ids, known, Of(o));
    if f.Some? {
      assert f.value in known && Named(ids, f.value);
    }
  }

  /** A new model listed twice is put into the list twice and counted once. */
  lemma NewModelTwice()
    ensures var w := Walk(map["c1" := None], [], Start(), [Instance("c1"), Instance("c1")], true, true);
            w.Some? && w.value.order == ["c1", "c1"] && w.value.added == ["c1"] && NewTwice(map["c1" := None], [], [Instance("c1"), Instance("c1")])
  {
    var ids: Ids := map["c1" := None];
    var h := Instance("c1");
    var inputs := [h, h];
    var nothing: seq<Model> := [];
    assert inputs[1..] == [h] && [h][1..] == [] && nothing + [] == [];
    assert Search(ids, [], "[object Object]") == None && Search(ids, [], "undefined") == None && Search(ids, [], "c1") == None;
    var p1 := Step(ids, [], Start(), h, true, true).value;
    assert p1.added == ["c1"] && p1.order == ["c1"] && p1.listed == ["c1"];
    var one := nothing + p1.added;
    assert one == ["c1"] && one[1..] == [];
    assert Search(ids, one, "c1") == Some("c1");
    assert Search(ids, one, "[object Object]") == None && Search(ids, one, "undefined") == None;
    var p2 := Step(ids, [], p1, h, true, true).value;
    assert p2.order == ["c1", "c1"] && p2.listed == ["c1", "c1"] && p2.added == ["c1"];
    assert Meets(inputs[0], "c1") && Meets(inputs[1], "c1") && Candidate(inputs[0]) == Some("c1");
    assert MetTwice([], inputs, "c1") && IdOf(ids, "c1").None?;
  }
}
