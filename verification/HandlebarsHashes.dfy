/** The order in which a hash's values are computed, and which of several equal keys is kept. */
module HandlebarsHashes {
  import opened Wrappers
  import opened HandlebarsAst
  import opened HandlebarsMachine
  import opened HandlebarsSemantics

  predicate InRange(order: seq<nat>, pairs: seq<HashPair>, from: nat) {
    forall k :: 0 <= k < |order| ==> from <= order[k] < |pairs|
  }

  /** No key is met twice in the order. */
  predicate KeysOnce(order: seq<nat>, pairs: seq<HashPair>)
    requires InRange(order, pairs, 0)
    decreases order
  {
    order == []
    || ((forall j :: j in order[1..] ==> pairs[j].key != pairs[order[0]].key) && KeysOnce(order[1..], pairs))
  }

  /** Joining a pair adds its key if it is new, and otherwise makes this pair the one computed for the key. */
  lemma {:induction false} JoinKeeps(order: seq<nat>, i: nat, pairs: seq<HashPair>)
    requires i < |pairs| && InRange(order, pairs, 0) && KeysOnce(order, pairs)
    ensures InRange(JoinIndex(order, i, pairs), pairs, 0) && KeysOnce(JoinIndex(order, i, pairs), pairs)
    ensures forall j :: j in JoinIndex(order, i, pairs) <==> j == i || (j in order && pairs[j].key != pairs[i].key)
    decreases order
  {
    var r := JoinIndex(order, i, pairs);
    if order == [] {
      assert r == [i] && [i][1..] == [];
    } else {
      var first, rest := order[0], order[1..];
      assert order == [first] + rest;
      if pairs[first].key == pairs[i].key {
        assert r == [i] + rest && r[1..] == rest;
      } else if Precedes(pairs[first].key, pairs[i].key)
                || exists k :: 0 <= k < |order| && pairs[order[k]].key == pairs[i].key {
        JoinKeeps(rest, i, pairs);
        var tail := JoinIndex(rest, i, pairs);
        assert r == [first] + tail && r[1..] == tail;
      } else {
        assert r == [i] + order && r[1..] == order;
      }
    }
  }

  /** Of several pairs with one key exactly the first is computed; every key is computed once. */
  lemma {:induction false} FirstPairWins(pairs: seq<HashPair>, from: nat)
    requires from <= |pairs|
    ensures InRange(HashOrder(pairs, from), pairs, 0) && KeysOnce(HashOrder(pairs, from), pairs)
    ensures forall i :: i in HashOrder(pairs, from) <==>
      from <= i < |pairs| && forall j :: from <= j < i ==> pairs[j].key != pairs[i].key
    decreases |pairs| - from
  {
    hide JoinIndex, KeysOnce;
    if from < |pairs| {
      FirstPairWins(pairs, from + 1);
      var rest := HashOrder(pairs, from + 1);
      JoinKeeps(rest, from, pairs);
      forall i ensures i in HashOrder(pairs, from) <==>
        from <= i < |pairs| && forall j :: from <= j < i ==> pairs[j].key != pairs[i].key
      {
        assert i in HashOrder(pairs, from) <==> i == from || (i in rest && pairs[i].key != pairs[from].key);
      }
    } else {
      NothingOnce(pairs);
    }
  }

  lemma {:induction false} NothingOnce(pairs: seq<HashPair>)
    ensures InRange([], pairs, 0) && KeysOnce([], pairs)
  {
  }

  /** With distinct keys, none of them an array index, the values are computed from the last pair to the first. */
  lemma {:induction false} LastToFirst(pairs: seq<HashPair>, from: nat)
    requires from <= |pairs|
    requires forall i, j :: from <= i < j < |pairs| ==> pairs[i].key != pairs[j].key
    requires forall i :: from <= i < |pairs| ==> ArrayIndex(pairs[i].key).None?
    ensures HashOrder(pairs, from) == seq(|pairs| - from, k requires 0 <= k < |pairs| - from => |pairs| - 1 - k)
    decreases |pairs| - from
  {
    if from < |pairs| {
      LastToFirst(pairs, from + 1);
      JoinAtEnd(HashOrder(pairs, from + 1), from, pairs);
    }
  }

  lemma {:induction false} JoinAtEnd(order: seq<nat>, i: nat, pairs: seq<HashPair>)
    requires i < |pairs| && InRange(order, pairs, 0) && ArrayIndex(pairs[i].key).None?
    requires forall k :: 0 <= k < |order| ==> pairs[order[k]].key != pairs[i].key
    ensures JoinIndex(order, i, pairs) == order + [i]
    decreases order
  {
    if order != [] {
      JoinAtEnd(order[1..], i, pairs);
    }
  }

  // ----- the order of properties -----

  /** As for-in visits them: array indices first and ascending, and no name twice. */
  predicate InOrder(fields: seq<Field>) {
    forall i, j :: 0 <= i < j < |fields| ==>
      fields[i].name != fields[j].name
      && (ArrayIndex(fields[j].name).Some? ==>
            ArrayIndex(fields[i].name).Some? && ArrayIndex(fields[i].name).value <= ArrayIndex(fields[j].name).value)
  }

  predicate HasName(fields: seq<Field>, key: string) {
    exists i :: 0 <= i < |fields| && fields[i].name == key
  }

  /** Assigning keeps the order: a property that exists keeps its place, and a new one that is no array index comes last. */
  lemma {:induction false} PutKeepsOrder(fields: seq<Field>, key: string, value: Js)
    requires InOrder(fields)
    ensures InOrder(Put(fields, key, value))
    ensures forall n :: HasName(Put(fields, key, value), n) <==> HasName(fields, n) || n == key
    ensures HasName(fields, key) ==>
              |Put(fields, key, value)| == |fields| && forall i :: 0 <= i < |fields| ==> Put(fields, key, value)[i].name == fields[i].name
    ensures !HasName(fields, key) && ArrayIndex(key).None? ==> Put(fields, key, value) == fields + [Field(key, value)]
    decreases fields
  {
    hide ArrayIndex;
    var r := Put(fields, key, value);
    if fields == [] {
      assert r == [Field(key, value)] && r[0].name == key;
    } else {
      var first, rest := fields[0], fields[1..];
      assert fields == [first] + rest;
      assert InOrder(rest);
      NamesOf(first, rest);
      if first.name == key {
        assert r == [Field(key, value)] + rest;
        NamesOf(Field(key, value), rest);
      } else if Precedes(first.name, key) || exists i :: 0 <= i < |fields| && fields[i].name == key {
        PutKeepsOrder(rest, key, value);
        var tail := Put(rest, key, value);
        assert r == [first] + tail;
        NamesOf(first, tail);
        FirstBefore(first, rest, tail, key);
      } else {
        assert r == [Field(key, value)] + fields;
        NamesOf(Field(key, value), fields);
        NewFirst(key, value, fields);
      }
    }
  }

  lemma NamesOf(first: Field, rest: seq<Field>)
    ensures forall n :: HasName([first] + rest, n) <==> first.name == n || HasName(rest, n)
  {
    var all := [first] + rest;
    assert all[0] == first && forall i :: 0 <= i < |rest| ==> all[i + 1] == rest[i];
  }

  lemma FirstBefore(first: Field, rest: seq<Field>, tail: seq<Field>, key: string)
    requires InOrder([first] + rest) && InOrder(tail) && first.name != key
    requires forall n :: HasName(tail, n) <==> HasName(rest, n) || n == key
    requires Precedes(first.name, key) || HasName([first] + rest, key)
    ensures InOrder([first] + tail)
  {
    hide ArrayIndex;
    var all, old_ := [first] + tail, [first] + rest;
    NamesOf(first, rest);
    forall j | 0 <= j < |tail|
      ensures first.name != tail[j].name
      ensures ArrayIndex(tail[j].name).Some? ==>
                ArrayIndex(first.name).Some? && ArrayIndex(first.name).value <= ArrayIndex(tail[j].name).value
    {
      assert HasName(tail, tail[j].name);
      if HasName(rest, tail[j].name) {
        var i :| 0 <= i < |rest| && rest[i].name == tail[j].name;
        assert old_[0] == first && old_[i + 1] == rest[i];
      }
    }
  }

  lemma NewFirst(key: string, value: Js, fields: seq<Field>)
    requires fields != [] && InOrder(fields) && !HasName(fields, key) && !Precedes(fields[0].name, key)
    ensures InOrder([Field(key, value)] + fields) && ArrayIndex(key).Some?
  {
    hide ArrayIndex;
    var all := [Field(key, value)] + fields;
    forall j | 0 <= j < |fields|
      ensures key != fields[j].name
      ensures ArrayIndex(fields[j].name).Some? ==> ArrayIndex(key).value <= ArrayIndex(fields[j].name).value
    {
      if j > 0 && ArrayIndex(fields[j].name).Some? {
        assert ArrayIndex(fields[0].name).Some? && ArrayIndex(fields[0].name).value <= ArrayIndex(fields[j].name).value;
      }
    }
  }
}
