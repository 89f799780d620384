/**
 What it means for the `_byId` index of a backbone Collection to agree with a linear search. A model object is
 named by its cid, which `uniqueId` gives to one object only; the ids, which change, are kept apart.
 */
module BackboneIndex {
  import opened Wrappers

  type Model = string

  /** The id attribute of every model at one moment. */
  type Ids = map<Model, Option<string>>

  function IdOf(ids: Ids, m: Model): Option<string> {
    if m in ids then ids[m] else None
  }

  /** `uniqueId("c")`: the letter and digits. */
  predicate IsCid(key: string) {
    |key| > 1 && key[0] == 'c' && forall i :: 1 <= i < |key| ==> '0' <= key[i] <= '9'
  }

  /** What a counter gives is a cid, whatever its digits. */
  lemma CounterIsCid(digits: string)
    requires digits != "" && forall i :: 0 <= i < |digits| ==> digits[i] in "0123456789"
    ensures IsCid("c" + digits) && !IsCid(digits) && !IsCid("x" + digits)
  {
    var key := "c" + digits;
    forall i | 1 <= i < |key| ensures '0' <= key[i] <= '9' {
      assert key[i] == digits[i - 1];
    }
  }

  /** An id that cannot be taken for a cid, nor for what a missing id or an object is as a property name. */
  predicate OkId(key: string) {
    !IsCid(key) && key != "undefined" && key != "[object Object]"
  }

  predicate Named(ids: Ids, m: Model) {
    IsCid(m) && (IdOf(ids, m).Some? ==> OkId(IdOf(ids, m).value))
  }

  predicate Answers(ids: Ids, m: Model, key: string) {
    m == key || IdOf(ids, m) == Some(key)
  }

  /** The property name that an id is looked up by. */
  function KeyOf(id: Option<string>): string {
    match id case None => "undefined" case Some(k) => k
  }

  // ----- linear search -----

  function Search(ids: Ids, ms: seq<Model>, key: string): (m: Option<Model>) {
    if ms == [] then None else if Answers(ids, ms[0], key) then Some(ms[0]) else Search(ids, ms[1..], key)
  }

  lemma {:induction false} SearchFinds(ids: Ids, ms: seq<Model>, key: string)
    ensures Search(ids, ms, key).None? ==> forall m :: m in ms ==> !Answers(ids, m, key)
    ensures Search(ids, ms, key).Some? ==>
              Search(ids, ms, key).value in ms && Answers(ids, Search(ids, ms, key).value, key)
    decreases ms
  {
    if ms != [] {
      SearchFinds(ids, ms[1..], key);
    }
  }

  // ----- the index -----

  predicate Distinct<T(==)>(s: seq<T>) {
    forall i, j :: 0 <= i < j < |s| ==> s[i] != s[j]
  }

  predicate Indexed(ids: Ids, ms: seq<Model>, byId: map<string, Model>) {
    && (forall m :: m in ms ==> Named(ids, m) && m in byId && byId[m] == m)
    && (forall m :: m in ms && IdOf(ids, m).Some? ==> IdOf(ids, m).value in byId && byId[IdOf(ids, m).value] == m)
    && (forall k :: k in byId ==> byId[k] in ms && Answers(ids, byId[k], k))
  }

  /** The index is the linear search. */
  lemma {:induction false} IndexIsSearch(ids: Ids, ms: seq<Model>, byId: map<string, Model>, key: string)
    requires Indexed(ids, ms, byId)
    ensures Search(ids, ms, key) == if key in byId then Some(byId[key]) else None
  {
    SearchFinds(ids, ms, key);
    assert key in byId ==> byId[key] in ms && Answers(ids, byId[key], key);
  }

  lemma NoReservedKeys(ids: Ids, ms: seq<Model>, byId: map<string, Model>)
    requires Indexed(ids, ms, byId)
    ensures "undefined" !in byId && "[object Object]" !in byId
  {
    forall k | k in byId ensures k != "undefined" && k != "[object Object]" {
      assert byId[k] in ms && Named(ids, byId[k]) && Answers(ids, byId[k], k);
    }
  }

  /** Only the members of the list matter, not their order. */
  lemma SameMembers(ids: Ids, ms: seq<Model>, ns: seq<Model>, byId: map<string, Model>)
    requires Indexed(ids, ms, byId) && forall m :: m in ms <==> m in ns
    ensures Indexed(ids, ns, byId)
  {
  }

  function Referenced(ids: Ids, byId: map<string, Model>, m: Model): map<string, Model> {
    var withCid := byId[m := m];
    if IdOf(ids, m).Some? then withCid[IdOf(ids, m).value := m] else withCid
  }

  lemma {:induction false} ReferencedIndexes(ids: Ids, ms: seq<Model>, byId: map<string, Model>, m: Model)
    requires Indexed(ids, ms, byId) && Named(ids, m) && m !in ms
    requires IdOf(ids, m).Some? ==> Search(ids, ms, IdOf(ids, m).value).None?
    ensures Indexed(ids, ms + [m], Referenced(ids, byId, m))
  {
    if IdOf(ids, m).Some? {
      IndexIsSearch(ids, ms, byId, IdOf(ids, m).value);
    }
    var all, index := ms + [m], Referenced(ids, byId, m);
    forall o | o in all
      ensures Named(ids, o) && o in index && index[o] == o
      ensures IdOf(ids, o).Some? ==> IdOf(ids, o).value in index && index[IdOf(ids, o).value] == o
    {
      if o in ms {
        assert Named(ids, o) && o in byId && byId[o] == o;
        if IdOf(ids, o).Some? {
          assert IdOf(ids, o).value in byId && IdOf(ids, o).value != m;
        }
      } else {
        assert o == m;
      }
    }
    forall k | k in index ensures index[k] in all && Answers(ids, index[k], k) {
      if k != m && IdOf(ids, m) != Some(k) {
        assert k in byId;
      }
    }
  }

  function Unreferenced(ids: Ids, byId: map<string, Model>, m: Model): map<string, Model> {
    (byId - {KeyOf(IdOf(ids, m))}) - {m}
  }

  /** The list without some models. */
  function Except(ms: seq<Model>, gone: set<Model>): seq<Model> {
    if ms == [] then [] else (if ms[0] in gone then [] else [ms[0]]) + Except(ms[1..], gone)
  }

  lemma {:induction false} ExceptMembers(ms: seq<Model>, gone: set<Model>)
    ensures forall m :: m in Except(ms, gone) <==> m in ms && m !in gone
    ensures Distinct(ms) ==> Distinct(Except(ms, gone))
    decreases ms
  {
    if ms != [] {
      ExceptMembers(ms[1..], gone);
      assert ms == [ms[0]] + ms[1..];
      if Distinct(ms) {
        assert Distinct(ms[1..]) && ms[0] !in ms[1..];
      }
    }
  }

  lemma {:induction false} ExceptAbsent(ms: seq<Model>, gone: set<Model>)
    requires forall m :: m in ms ==> m !in gone
    ensures Except(ms, gone) == ms
    decreases ms
  {
    if ms != [] {
      ExceptAbsent(ms[1..], gone);
      assert ms == [ms[0]] + ms[1..];
    }
  }

  lemma {:induction false} ExceptMore(ms: seq<Model>, gone: set<Model>, more: set<Model>)
    ensures Except(Except(ms, gone), more) == Except(ms, gone + more)
    decreases ms
  {
    if ms != [] {
      ExceptMore(ms[1..], gone, more);
      var rest := Except(ms[1..], gone);
      if ms[0] !in gone {
        assert ([ms[0]] + rest)[1..] == rest;
      } else {
        assert [] + rest == rest;
      }
    }
  }

  /** Splicing out the one place of a model. */
  lemma {:induction false} SplicedOut(ms: seq<Model>, at: nat)
    requires Distinct(ms) && at < |ms|
    ensures ms[..at] + ms[at + 1..] == Except(ms, {ms[at]})
    decreases ms
  {
    assert Distinct(ms[1..]);
    if at == 0 {
      ExceptAbsent(ms[1..], {ms[0]});
    } else {
      SplicedOut(ms[1..], at - 1);
      assert ms[..at] + ms[at + 1..] == [ms[0]] + (ms[1..][..at - 1] + ms[1..][at..]);
    }
  }

  lemma {:induction false} UnreferencedIndexes(ids: Ids, ms: seq<Model>, byId: map<string, Model>, m: Model)
    requires Indexed(ids, ms, byId) && m in ms
    ensures Indexed(ids, Except(ms, {m}), Unreferenced(ids, byId, m))
  {
    hide Except;
    ExceptMembers(ms, {m});
    NoReservedKeys(ids, ms, byId);
    var rest, index := Except(ms, {m}), Unreferenced(ids, byId, m);
    forall o | o in rest
      ensures Named(ids, o) && o in index && index[o] == o
      ensures IdOf(ids, o).Some? ==> IdOf(ids, o).value in index && index[IdOf(ids, o).value] == o
    {
      assert o in ms && o != m;
      assert byId[o] == o && byId[m] == m;
    }
    forall k | k in index ensures index[k] in rest && Answers(ids, index[k], k) {
      assert byId[k] in ms && Answers(ids, byId[k], k);
    }
  }
}
