/** The wallet contract: a ledger of deposits by caller, in a contract that holds the deposited amounts. */
module Wallet {
  import opened Wrappers

  const LONG_MAX := 0x7FFF_FFFF_FFFF_FFFF

  type Key = string

  datatype Entry = IntegerEntry(value: int) | OtherEntry

  /** The contract's data and its balance in waves. */
  datatype Contract = Contract(data: map<Key, Entry>, balance: nat)

  datatype Payment = Payment(asset: Option<string>, amount: nat)

  /** An invocation that throws leaves the contract as it was and pays nothing. */
  datatype Effect = Accepted(contract: Contract, received: nat, paid: nat) | Rejected

  /** `getInteger(this, key)`, with 0 for a missing entry and for one of another type. */
  function Amount(data: map<Key, Entry>, key: Key): int {
    if key in data && data[key].IntegerEntry? then data[key].value else 0
  }

  function Deposit(c: Contract, key: Key, payment: Option<Payment>): Effect {
    match payment
    case None => Rejected
    case Some(p) =>
      if p.asset.Some? then Rejected
      else
        var newAmount := Amount(c.data, key) + p.amount;
        if newAmount > LONG_MAX then Rejected
        else Accepted(Contract(c.data[key := IntegerEntry(newAmount)], c.balance + p.amount), p.amount, 0)
  }

  function Withdraw(c: Contract, key: Key, amount: int): Effect {
    var newAmount := Amount(c.data, key) - amount;
    if newAmount > LONG_MAX || newAmount < -LONG_MAX - 1 then Rejected
    else if amount < 0 then Rejected
    else if newAmount < 0 then Rejected
    else if amount > c.balance then Rejected
    else Accepted(Contract(c.data[key := IntegerEntry(newAmount)], c.balance - amount), 0, amount)
  }

  // ----- runs -----

  datatype Call =
    | DepositCall(key: Key, payment: Option<Payment>)
    | WithdrawCall(key: Key, amount: int)

  function Invoke(c: Contract, call: Call): Effect {
    match call
    case DepositCall(key, payment) => Deposit(c, key, payment)
    case WithdrawCall(key, amount) => Withdraw(c, key, amount)
  }

  function Step(c: Contract, call: Call): Contract {
    var e := Invoke(c, call);
    if e.Accepted? then e.contract else c
  }

  function Run(c: Contract, calls: seq<Call>): Contract
    decreases calls
  {
    if calls == [] then c else Run(Step(c, calls[0]), calls[1..])
  }

  /** What a caller paid in less what was paid out to it, over a run. */
  function NetOf(c: Contract, calls: seq<Call>, key: Key): int
    decreases calls
  {
    if calls == [] then 0
    else
      var e := Invoke(c, calls[0]);
      (if e.Accepted? && calls[0].key == key then e.received - e.paid else 0) + NetOf(Step(c, calls[0]), calls[1..], key)
  }

  function NetTotal(c: Contract, calls: seq<Call>): int
    decreases calls
  {
    if calls == [] then 0
    else
      var e := Invoke(c, calls[0]);
      (if e.Accepted? then e.received - e.paid else 0) + NetTotal(Step(c, calls[0]), calls[1..])
  }

  // ----- the ledger as a sum -----

  ghost function Sum(data: map<Key, Entry>, keys: set<Key>): int
    decreases keys
  {
    if keys == {} then 0
    else
      var k :| k in keys;
      Amount(data, k) + Sum(data, keys - {k})
  }

  lemma {:induction false} SumPicks(data: map<Key, Entry>, keys: set<Key>, k: Key)
    requires k in keys
    ensures Sum(data, keys) == Amount(data, k) + Sum(data, keys - {k})
    decreases keys
  {
    hide Amount;
    var p :| p in keys && Sum(data, keys) == Amount(data, p) + Sum(data, keys - {p});
    if p != k {
      SumPicks(data, keys - {p}, k);
      SumPicks(data, keys - {k}, p);
      assert (keys - {p}) - {k} == (keys - {k}) - {p};
    }
  }

  lemma {:induction false} SumSame(a: map<Key, Entry>, b: map<Key, Entry>, keys: set<Key>)
    requires forall k :: k in keys ==> Amount(a, k) == Amount(b, k)
    ensures Sum(a, keys) == Sum(b, keys)
    decreases keys
  {
    hide Amount;
    if keys != {} {
      var k :| k in keys;
      SumPicks(a, keys, k);
      SumPicks(b, keys, k);
      SumSame(a, b, keys - {k});
    }
  }

  lemma SumUpdated(data: map<Key, Entry>, key: Key, value: int)
    ensures var now := data[key := IntegerEntry(value)];
            Sum(now, now.Keys) == Sum(data, data.Keys) - Amount(data, key) + value
  {
    var now := data[key := IntegerEntry(value)];
    SumPicks(now, now.Keys, key);
    var others := now.Keys - {key};
    SumSame(now, data, others);
    if key in data {
      SumPicks(data, data.Keys, key);
      assert data.Keys - {key} == others;
    } else {
      assert data.Keys == others;
    }
  }

  lemma {:induction false} SumAtLeast(data: map<Key, Entry>, keys: set<Key>, k: Key)
    requires k in keys && forall o :: o in keys ==> Amount(data, o) >= 0
    ensures Sum(data, keys) >= Amount(data, k)
    decreases keys
  {
    hide Amount;
    SumPicks(data, keys, k);
    SumNonNegative(data, keys - {k});
  }

  lemma {:induction false} SumNonNegative(data: map<Key, Entry>, keys: set<Key>)
    requires forall o :: o in keys ==> Amount(data, o) >= 0
    ensures Sum(data, keys) >= 0
    decreases keys
  {
    hide Amount;
    if keys != {} {
      var k :| k in keys;
      SumPicks(data, keys, k);
      SumNonNegative(data, keys - {k});
    }
  }

  /** No entry is negative and all entries together are covered by the balance. */
  ghost predicate Covered(c: Contract) {
    (forall k :: k in c.data ==> Amount(c.data, k) >= 0) && Sum(c.data, c.data.Keys) <= c.balance
  }

  lemma {:induction false} StepCovers(c: Contract, call: Call)
    requires Covered(c)
    ensures Covered(Step(c, call))
    ensures forall k :: Amount(Step(c, call).data, k) == Amount(c.data, k) + NetOf(c, [call], k)
    ensures var e := Invoke(c, call);
            Sum(Step(c, call).data, Step(c, call).data.Keys) - Sum(c.data, c.data.Keys)
              == (if e.Accepted? then e.received - e.paid else 0)
            && Step(c, call).balance - c.balance == (if e.Accepted? then e.received - e.paid else 0)
  {
    hide Sum;
    var e := Invoke(c, call);
    assert [call][1..] == [];
    assert forall k :: NetOf(Step(c, call), [], k) == 0;
    if e.Accepted? {
      SumUpdated(c.data, call.key, Amount(c.data, call.key) + e.received - e.paid);
    }
  }

  /** Over any calls by any callers: each entry is its caller's deposits less withdrawals, and everything stays covered. */
  lemma {:induction false} RunKeeps(c: Contract, calls: seq<Call>)
    requires Covered(c)
    ensures Covered(Run(c, calls))
    ensures forall k :: Amount(Run(c, calls).data, k) == Amount(c.data, k) + NetOf(c, calls, k)
    ensures Sum(Run(c, calls).data, Run(c, calls).data.Keys) == Sum(c.data, c.data.Keys) + NetTotal(c, calls)
    ensures Run(c, calls).balance == c.balance + NetTotal(c, calls)
    decreases calls
  {
    hide Sum, Amount, Invoke, Covered, Step;
    if calls != [] {
      StepCovers(c, calls[0]);
      RunKeeps(Step(c, calls[0]), calls[1..]);
      forall k ensures Amount(Run(c, calls).data, k) == Amount(c.data, k) + NetOf(c, calls, k) {
        FirstNet(c, calls, k);
      }
    }
  }

  lemma {:induction false} FirstNet(c: Contract, calls: seq<Call>, k: Key)
    requires calls != []
    ensures NetOf(c, calls, k) == NetOf(c, [calls[0]], k) + NetOf(Step(c, calls[0]), calls[1..], k)
  {
    hide Invoke, Step;
    assert [calls[0]][1..] == [];
  }

  /** Every entry is a 64-bit integer, as the ledger stores it. */
  ghost predicate Stored(c: Contract) {
    forall k :: Amount(c.data, k) <= LONG_MAX
  }

  lemma {:induction false} RunStores(c: Contract, calls: seq<Call>)
    requires Stored(c)
    ensures Stored(Run(c, calls))
    decreases calls
  {
    if calls != [] {
      StepStores(c, calls[0]);
      RunStores(Step(c, calls[0]), calls[1..]);
    }
  }

  lemma StepStores(c: Contract, call: Call)
    requires Stored(c)
    ensures Stored(Step(c, call))
  {
    var now := Step(c, call);
    forall k ensures Amount(now.data, k) <= LONG_MAX {
      assert Amount(c.data, k) <= LONG_MAX;
      assert Amount(c.data, call.key) <= LONG_MAX;
    }
  }

  /** Exactly the amounts from 0 to the recorded one can be withdrawn, whatever any callers did before. */
  lemma AlwaysWithdrawable(c: Contract, calls: seq<Call>, key: Key, amount: int)
    requires Covered(c) && Stored(c) && -LONG_MAX - 1 <= amount <= LONG_MAX
    ensures Withdraw(Run(c, calls), key, amount).Accepted? <==> 0 <= amount <= Amount(Run(c, calls).data, key)
  {
    hide Sum, Run;
    RunKeeps(c, calls);
    RunStores(c, calls);
    var now := Run(c, calls);
    if key in now.data {
      SumAtLeast(now.data, now.data.Keys, key);
    } else {
      SumNonNegative(now.data, now.data.Keys);
    }
  }

  /** A deposit is taken exactly for a payment in waves that the recorded amount has room for; it adds to the caller's entry alone. */
  lemma DepositIff(c: Contract, key: Key, payment: Option<Payment>)
    ensures var e := Deposit(c, key, payment);
            && (e.Accepted? <==> payment.Some? && payment.value.asset.None?
                                 && Amount(c.data, key) + payment.value.amount <= 9_223_372_036_854_775_807)
            && (e.Accepted? ==>
                  && e.received == payment.value.amount && e.paid == 0 && e.contract.balance == c.balance + payment.value.amount
                  && Amount(e.contract.data, key) == Amount(c.data, key) + payment.value.amount
                  && forall o :: o != key ==> Amount(e.contract.data, o) == Amount(c.data, o))
  {
  }

  /** What was paid in can be taken out again at once, and the ledger is as before. */
  lemma DepositThenWithdraw(c: Contract, key: Key, amount: nat)
    requires Covered(c) && Amount(c.data, key) + amount <= LONG_MAX
    ensures var paid := Deposit(c, key, Some(Payment(None, amount)));
            && paid.Accepted?
            && var back := Withdraw(paid.contract, key, amount);
               && back.Accepted? && back.paid == amount && back.contract.balance == c.balance
               && forall o :: Amount(back.contract.data, o) == Amount(c.data, o)
  {
    hide Sum;
    assert key in c.data ==> Amount(c.data, key) >= 0;
    assert key !in c.data ==> Amount(c.data, key) == 0;
  }

  /** A withdrawal that is accepted pays what it takes from the caller's entry, and from no other. */
  lemma WithdrawPays(c: Contract, key: Key, amount: int)
    requires Withdraw(c, key, amount).Accepted?
    ensures var e := Withdraw(c, key, amount);
            && e.paid == amount && e.received == 0 && e.contract.balance + amount == c.balance
            && Amount(e.contract.data, key) + amount == Amount(c.data, key)
            && forall o :: o != key ==> Amount(e.contract.data, o) == Amount(c.data, o)
  {
  }
}
