/**
 The shared queue of active leases in the transaction generator: every batch folds over it, cancelling from its
 head and adding at its end, and writes it back.
 */
module LeaseQueue {
  import opened Wrappers

  datatype Transaction =
    | Lease(id: int)
    | LeaseCancel(leaseId: int)
    | Other(tag: int)

  /** What one turn of the batch may make; a transaction that cannot be built is None. */
  datatype Choice =
    | MakeLease(tx: Option<Transaction>)
    | MakeCancel(senderKnown: bool, built: bool)
    | MakeOther(tx: Option<Transaction>)

  predicate OkChoice(c: Choice) {
    (c.MakeLease? && c.tx.Some? ==> c.tx.value.Lease?) && (c.MakeOther? && c.tx.Some? ==> c.tx.value.Other?)
  }

  function Made(leases: seq<int>, c: Choice): Option<Transaction> {
    match c
    case MakeLease(tx) => tx
    case MakeCancel(senderKnown, built) =>
      if leases != [] && senderKnown && built then Some(LeaseCancel(leases[0])) else None
    case MakeOther(tx) => tx
  }

  function NotId(leases: seq<int>, id: int): seq<int> {
    if leases == [] then [] else (if leases[0] != id then [leases[0]] else []) + NotId(leases[1..], id)
  }

  function Updated(leases: seq<int>, tx: Option<Transaction>): seq<int> {
    match tx
    case Some(Lease(id)) => leases + [id]
    case Some(LeaseCancel(id)) => NotId(leases, id)
    case _ => leases
  }

  datatype Batch = Batch(transactions: seq<Transaction>, leases: seq<int>)

  function Turn(b: Batch, c: Choice): Batch {
    var tx := Made(b.leases, c);
    Batch(b.transactions + (if tx.Some? then [tx.value] else []), Updated(b.leases, tx))
  }

  function Fold(b: Batch, choices: seq<Choice>): Batch
    decreases choices
  {
    if choices == [] then b else Fold(Turn(b, choices[0]), choices[1..])
  }

  /** The shared variable. */
  class Universe {
    var leases: seq<int>

    constructor (leases: seq<int>)
      ensures this.leases == leases
    {
      this.leases := leases;
    }

    method Generate(choices: seq<Choice>) returns (transactions: seq<Transaction>)
      modifies this
      ensures Batch(transactions, leases) == Fold(Batch([], old(leases)), choices)
    {
      var b := Batch([], leases);
      var i := 0;
      assert choices[0..] == choices;
      while i < |choices|
        invariant 0 <= i <= |choices|
        invariant Fold(b, choices[i..]) == Fold(Batch([], old(leases)), choices)
      {
        assert choices[i..][0] == choices[i] && choices[i..][1..] == choices[i + 1..];
        b := Turn(b, choices[i]);
        i := i + 1;
      }
      assert choices[i..] == [];
      leases := b.leases;
      transactions := b.transactions;
    }
  }

  /** Every batch in turn over the one queue, as `Generate` leaves it. */
  function Run(leases: seq<int>, batches: seq<seq<Choice>>): Batch
    decreases batches
  {
    if batches == [] then Batch([], leases)
    else
      var first := Fold(Batch([], leases), batches[0]);
      var rest := Run(first.leases, batches[1..]);
      Batch(first.transactions + rest.transactions, rest.leases)
  }

  function Created(txs: seq<Transaction>): seq<int> {
    if txs == [] then [] else (if txs[0].Lease? then [txs[0].id] else []) + Created(txs[1..])
  }

  function Cancelled(txs: seq<Transaction>): seq<int> {
    if txs == [] then [] else (if txs[0].LeaseCancel? then [txs[0].leaseId] else []) + Cancelled(txs[1..])
  }

  predicate Distinct(s: seq<int>) {
    forall i, j :: 0 <= i < j < |s| ==> s[i] != s[j]
  }

  lemma {:induction false} CreatedConcat(a: seq<Transaction>, b: seq<Transaction>)
    ensures Created(a + b) == Created(a) + Created(b)
    decreases a
  {
    if a == [] {
      assert a + b == b;
    } else {
      CreatedConcat(a[1..], b);
      assert (a + b)[0] == a[0] && (a + b)[1..] == a[1..] + b;
      var first := if a[0].Lease? then [a[0].id] else [];
      assert (first + Created(a[1..])) + Created(b) == first + (Created(a[1..]) + Created(b));
    }
  }

  lemma {:induction false} CancelledConcat(a: seq<Transaction>, b: seq<Transaction>)
    ensures Cancelled(a + b) == Cancelled(a) + Cancelled(b)
    decreases a
  {
    if a == [] {
      assert a + b == b;
    } else {
      CancelledConcat(a[1..], b);
      assert (a + b)[0] == a[0] && (a + b)[1..] == a[1..] + b;
      var first := if a[0].LeaseCancel? then [a[0].leaseId] else [];
      assert (first + Cancelled(a[1..])) + Cancelled(b) == first + (Cancelled(a[1..]) + Cancelled(b));
    }
  }

  lemma {:induction false} NotIdAbsent(s: seq<int>, id: int)
    requires id !in s
    ensures NotId(s, id) == s
    decreases s
  {
    if s != [] {
      NotIdAbsent(s[1..], id);
    }
  }

  /** The queue's history: what was cancelled, then what is still there, is all there ever was, in order. */
  ghost predicate Accounts(initial: seq<int>, b: Batch) {
    Cancelled(b.transactions) + b.leases == initial + Created(b.transactions)
  }

  lemma TurnAccounts(initial: seq<int>, b: Batch, c: Choice)
    requires Accounts(initial, b) && OkChoice(c) && Distinct(initial + Created(Turn(b, c).transactions))
    ensures Accounts(initial, Turn(b, c))
  {
    hide Created, Cancelled;
    var tx := Made(b.leases, c);
    if tx.Some? {
      CreatedConcat(b.transactions, [tx.value]);
      CancelledConcat(b.transactions, [tx.value]);
      CreatedOne(tx.value);
      match tx.value
      case Lease(id) =>
        assert Cancelled(b.transactions) + (b.leases + [id]) == (Cancelled(b.transactions) + b.leases) + [id];
        assert (initial + Created(b.transactions)) + [id] == initial + (Created(b.transactions) + [id]);
      case LeaseCancel(id) =>
        assert Created(b.transactions) + [] == Created(b.transactions);
        OnlyHead(Cancelled(b.transactions), b.leases);
        assert (Cancelled(b.transactions) + [id]) + b.leases[1..] == Cancelled(b.transactions) + b.leases;
      case Other(_) =>
        assert Created(b.transactions) + [] == Created(b.transactions);
        assert Cancelled(b.transactions) + [] == Cancelled(b.transactions);
    } else {
      assert b.transactions + [] == b.transactions;
    }
  }

  lemma CreatedOne(tx: Transaction)
    ensures Created([tx]) == if tx.Lease? then [tx.id] else []
    ensures Cancelled([tx]) == if tx.LeaseCancel? then [tx.leaseId] else []
  {
    assert [tx][1..] == [];
  }

  lemma {:induction false} OnlyHead(before: seq<int>, leases: seq<int>)
    requires Distinct(before + leases) && leases != []
    ensures NotId(leases, leases[0]) == leases[1..]
  {
    var all := before + leases;
    forall i | 0 <= i < |leases[1..]| ensures leases[1..][i] != leases[0] {
      assert all[|before|] != all[|before| + 1 + i];
    }
    NotIdAbsent(leases[1..], leases[0]);
  }

  /** More turns only add transactions behind. */
  lemma {:induction false} FoldExtends(b: Batch, choices: seq<Choice>)
    ensures b.transactions <= Fold(b, choices).transactions
    decreases choices
  {
    if choices != [] {
      FoldExtends(Turn(b, choices[0]), choices[1..]);
    }
  }

  lemma DistinctPrefix(a: seq<int>, b: seq<int>)
    requires a <= b && Distinct(b)
    ensures Distinct(a)
  {
  }

  lemma {:induction false} CreatedPrefix(initial: seq<int>, a: seq<Transaction>, b: seq<Transaction>)
    requires a <= b && Distinct(initial + Created(b))
    ensures Distinct(initial + Created(a))
  {
    CreatedConcat(a, b[|a|..]);
    assert b == a + b[|a|..];
    assert initial + Created(b) == (initial + Created(a)) + Created(b[|a|..]);
    DistinctPrefix(initial + Created(a), initial + Created(b));
  }

  lemma {:induction false} FoldAccounts(initial: seq<int>, b: Batch, choices: seq<Choice>)
    requires Accounts(initial, b) && (forall i :: 0 <= i < |choices| ==> OkChoice(choices[i]))
    requires Distinct(initial + Created(Fold(b, choices).transactions))
    ensures Accounts(initial, Fold(b, choices))
    decreases choices
  {
    hide Created, Cancelled, Accounts, Distinct, Turn;
    if choices != [] {
      FoldExtends(Turn(b, choices[0]), choices[1..]);
      CreatedPrefix(initial, Turn(b, choices[0]).transactions, Fold(b, choices).transactions);
      TurnAccounts(initial, b, choices[0]);
      FoldAccounts(initial, Turn(b, choices[0]), choices[1..]);
    }
  }

  ghost predicate OkBatches(batches: seq<seq<Choice>>) {
    forall i, j :: 0 <= i < |batches| && 0 <= j < |batches[i]| ==> OkChoice(batches[i][j])
  }

  /**
   Over any run of batches with fresh lease ids: the cancelled leases followed by the queue are the initial leases
   followed by the created ones. So leases are cancelled in order, each after it exists and at most once.
   */
  lemma {:induction false} RunAccounts(leases: seq<int>, batches: seq<seq<Choice>>)
    requires OkBatches(batches) && Distinct(leases + Created(Run(leases, batches).transactions))
    ensures Accounts(leases, Run(leases, batches))
    decreases batches
  {
    hide Created, Cancelled, Distinct, Fold;
    NothingMade(leases);
    if batches != [] {
      var first := Fold(Batch([], leases), batches[0]);
      var rest := Run(first.leases, batches[1..]);
      CreatedConcat(first.transactions, rest.transactions);
      CancelledConcat(first.transactions, rest.transactions);
      CreatedPrefix(leases, first.transactions, Run(leases, batches).transactions);
      FoldAccounts(leases, Batch([], leases), batches[0]);
      var c1, c2, k1, k2 := Cancelled(first.transactions), Cancelled(rest.transactions), Created(first.transactions), Created(rest.transactions);
      LaterDistinct(leases, first, rest.transactions);
      RunAccounts(first.leases, batches[1..]);
      assert c1 + (first.leases + k2) == (c1 + first.leases) + k2 == (leases + k1) + k2 == leases + (k1 + k2);
      assert (c1 + c2) + rest.leases == c1 + (c2 + rest.leases);
    }
  }

  lemma DistinctTail(a: seq<int>, b: seq<int>)
    requires Distinct(a + b)
    ensures Distinct(b)
  {
    forall i, j | 0 <= i < j < |b| ensures b[i] != b[j] {
      assert (a + b)[|a| + i] != (a + b)[|a| + j];
    }
  }

  lemma NothingMade(leases: seq<int>)
    ensures Accounts(leases, Batch([], leases))
  {
    assert [] + leases == leases + [];
  }

  // ----- at every moment -----

  /** After every transaction the leases cancelled so far are the first of those that exist by then. */
  ghost predicate InTime(initial: seq<int>, txs: seq<Transaction>) {
    forall n :: 0 <= n <= |txs| ==> Cancelled(txs[..n]) <= initial + Created(txs[..n])
  }

  lemma AccountsInTime(initial: seq<int>, b: Batch)
    requires Accounts(initial, b)
    ensures Cancelled(b.transactions) <= initial + Created(b.transactions)
  {
    hide Created, Cancelled;
    assert Cancelled(b.transactions) <= Cancelled(b.transactions) + b.leases;
  }

  lemma OneMoreInTime(initial: seq<int>, b: Batch, c: Choice)
    requires InTime(initial, b.transactions) && Accounts(initial, Turn(b, c))
    ensures InTime(initial, Turn(b, c).transactions)
  {
    hide Created, Cancelled, Accounts, Made, Updated;
    var txs, next := b.transactions, Turn(b, c).transactions;
    AccountsInTime(initial, Turn(b, c));
    forall n | 0 <= n <= |next| ensures Cancelled(next[..n]) <= initial + Created(next[..n]) {
      if n <= |txs| {
        assert next[..n] == txs[..n];
      } else {
        assert next[..n] == next;
      }
    }
  }

  lemma {:induction false} FoldInTime(initial: seq<int>, b: Batch, choices: seq<Choice>)
    requires InTime(initial, b.transactions) && Accounts(initial, b) && (forall i :: 0 <= i < |choices| ==> OkChoice(choices[i]))
    requires Distinct(initial + Created(Fold(b, choices).transactions))
    ensures InTime(initial, Fold(b, choices).transactions)
    decreases choices
  {
    hide Created, Cancelled, Accounts, Distinct, Turn, InTime;
    if choices != [] {
      FoldExtends(Turn(b, choices[0]), choices[1..]);
      CreatedPrefix(initial, Turn(b, choices[0]).transactions, Fold(b, choices).transactions);
      TurnAccounts(initial, b, choices[0]);
      OneMoreInTime(initial, b, choices[0]);
      FoldInTime(initial, Turn(b, choices[0]), choices[1..]);
    }
  }

  /** A later stretch starts from the queue an earlier one left. */
  lemma InTimeJoined(initial: seq<int>, first: Batch, later: seq<Transaction>)
    requires InTime(initial, first.transactions) && Accounts(initial, first) && InTime(first.leases, later)
    ensures InTime(initial, first.transactions + later)
  {
    hide Created, Cancelled;
    var a, all := first.transactions, first.transactions + later;
    forall n | 0 <= n <= |all| ensures Cancelled(all[..n]) <= initial + Created(all[..n]) {
      if n <= |a| {
        assert all[..n] == a[..n];
      } else {
        var part := later[..n - |a|];
        assert all[..n] == a + part;
        CreatedConcat(a, part);
        CancelledConcat(a, part);
        PrefixBehind(Cancelled(a), Cancelled(part), first.leases + Created(part));
        assert Cancelled(a) + (first.leases + Created(part)) == (Cancelled(a) + first.leases) + Created(part);
        assert (initial + Created(a)) + Created(part) == initial + (Created(a) + Created(part));
      }
    }
  }

  lemma PrefixBehind(a: seq<int>, b: seq<int>, c: seq<int>)
    requires b <= c
    ensures a + b <= a + c
  {
  }

  lemma NothingInTime(leases: seq<int>)
    ensures InTime(leases, [])
  {
  }

  lemma {:induction false} RunInTime(leases: seq<int>, batches: seq<seq<Choice>>)
    requires OkBatches(batches) && Distinct(leases + Created(Run(leases, batches).transactions))
    ensures InTime(leases, Run(leases, batches).transactions)
    decreases batches
  {
    hide Created, Cancelled, Distinct, Fold, InTime, Accounts;
    NothingInTime(leases);
    NothingMade(leases);
    if batches != [] {
      var first := Fold(Batch([], leases), batches[0]);
      var rest := Run(first.leases, batches[1..]);
      CreatedPrefix(leases, first.transactions, Run(leases, batches).transactions);
      FoldAccounts(leases, Batch([], leases), batches[0]);
      FoldInTime(leases, Batch([], leases), batches[0]);
      LaterDistinct(leases, first, rest.transactions);
      RunInTime(first.leases, batches[1..]);
      InTimeJoined(leases, first, rest.transactions);
    }
  }

  lemma LaterDistinct(initial: seq<int>, first: Batch, later: seq<Transaction>)
    requires Accounts(initial, first) && Distinct(initial + Created(first.transactions + later))
    ensures Distinct(first.leases + Created(later))
  {
    hide Created, Cancelled, Distinct;
    CreatedConcat(first.transactions, later);
    var c1, k1, k2 := Cancelled(first.transactions), Created(first.transactions), Created(later);
    assert initial + (k1 + k2) == (initial + k1) + k2 == (c1 + first.leases) + k2 == c1 + (first.leases + k2);
    DistinctTail(c1, first.leases + k2);
  }

  /** No lease is cancelled twice, and at every moment of the run only leases that exist have been cancelled. */
  lemma CancelledOnce(leases: seq<int>, batches: seq<seq<Choice>>)
    requires OkBatches(batches) && Distinct(leases + Created(Run(leases, batches).transactions))
    ensures Distinct(Cancelled(Run(leases, batches).transactions))
    ensures InTime(leases, Run(leases, batches).transactions)
  {
    hide Created, Cancelled, Run, InTime;
    RunAccounts(leases, batches);
    RunInTime(leases, batches);
    var r := Run(leases, batches);
    DistinctPrefix(Cancelled(r.transactions), Cancelled(r.transactions) + r.leases);
  }

  // ----- what one turn makes -----

  /** A cancel is made exactly when a lease is active, its sender is known and the transaction can be built; it cancels the oldest. */
  lemma CancelsOldest(b: Batch, senderKnown: bool, built: bool)
    requires Distinct(b.leases)
    ensures var r := Turn(b, MakeCancel(senderKnown, built));
            if |b.leases| > 0 && senderKnown && built
            then r.transactions == b.transactions + [LeaseCancel(b.leases[0])] && r.leases == b.leases[1..]
            else r == b
  {
    assert b.transactions + [] == b.transactions;
    if b.leases != [] {
      assert b.leases == [b.leases[0]] + b.leases[1..];
      NotIdAbsent(b.leases[1..], b.leases[0]);
    }
  }

  /** A lease that is made becomes the newest active one; what cannot be built leaves everything as it was. */
  lemma LeasesQueueUp(b: Batch, id: int)
    ensures Turn(b, MakeLease(Some(Lease(id)))) == Batch(b.transactions + [Lease(id)], b.leases + [id])
    ensures Turn(b, MakeLease(None)) == b && Turn(b, MakeOther(None)) == b
    ensures forall tag :: Turn(b, MakeOther(Some(Other(tag)))) == Batch(b.transactions + [Other(tag)], b.leases)
  {
    assert b.transactions + [] == b.transactions;
  }
}
