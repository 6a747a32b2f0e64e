/** What an accepted list of transactions does to balances, nonces and the money supply. */
module Accounting {
  import opened Bytes
  import opened Canonical
  import opened Gate

  // ---- Totals over a list of transactions ----

  datatype Metric = Received(a: Address) | Sent(a: Address) | SendCount(a: Address) | Coinbases | SelfAmount

  predicate Leaves(t: Txn, a: Address) { t.sender == a && !IsCoinbase(t) && !IsSelfTransfer(t) }

  function Weight(q: Metric, t: Txn): nat
  {
    match q
    case Received(a) => if t.recipient == a then t.amount else 0
    case Sent(a) => if Leaves(t, a) then t.amount else 0
    case SendCount(a) => if Leaves(t, a) then 1 else 0
    case Coinbases => if IsCoinbase(t) then 1 else 0
    case SelfAmount => if IsSelfTransfer(t) then t.amount else 0
  }

  function Total(q: Metric, ts: seq<Txn>): nat
  {
    if ts == [] then 0 else Total(q, ts[..|ts| - 1]) + Weight(q, ts[|ts| - 1])
  }

  lemma {:induction false} TotalConcat(q: Metric, xs: seq<Txn>, ys: seq<Txn>)
    ensures Total(q, xs + ys) == Total(q, xs) + Total(q, ys)
  {
    if ys == [] {
      assert xs + ys == xs;
    } else {
      var init := ys[..|ys| - 1];
      TotalConcat(q, xs, init);
      assert (xs + ys)[..|xs + ys| - 1] == xs + init;
    }
  }

  lemma TotalPrefix(q: Metric, ts: seq<Txn>, k: nat)
    requires k <= |ts|
    ensures Total(q, ts[..k]) <= Total(q, ts)
  {
    TotalConcat(q, ts[..k], ts[k..]);
    assert ts == ts[..k] + ts[k..];
  }

  lemma {:induction false} TotalZero(q: Metric, ts: seq<Txn>)
    requires forall i :: 0 <= i < |ts| ==> Weight(q, ts[i]) == 0
    ensures Total(q, ts) == 0
  {
    if ts != [] {
      TotalZero(q, ts[..|ts| - 1]);
    }
  }

  // ---- The account law ----

  function AccountAfter(acct: Account, received: nat, sent: nat, sends: nat): Account
  {
    Account(Wrap64(acct.balance + received - sent), Wrap64(acct.nonce + sends))
  }

  lemma AccountLawTxn(w: Ledger, t: Txn, a: Address)
    requires Fundable(w, t)
    ensures Lookup(Apply(w, t), a) ==
            AccountAfter(Lookup(w, a), Weight(Received(a), t), Weight(Sent(a), t), Weight(SendCount(a), t))
  {
  }

  // After any accepted list, each account is its old value plus everything it received less everything
  // it sent away, modulo 2^64, and its nonce counts its sends. A self-transfer is received and not sent.
  lemma {:induction false} AccountLaw(w: Ledger, txns: seq<Txn>, a: Address)
    requires Funded(w, txns)
    ensures Lookup(ApplyAll(w, txns), a) ==
            AccountAfter(Lookup(w, a), Total(Received(a), txns), Total(Sent(a), txns), Total(SendCount(a), txns))
  {
    if txns != [] {
      var init, t := txns[..|txns| - 1], txns[|txns| - 1];
      AccountLaw(w, init, a);
      AccountLawSnoc(Lookup(w, a), ApplyAll(w, init), t, a,
                     Total(Received(a), init), Total(Sent(a), init), Total(SendCount(a), init));
    }
  }

  lemma AccountLawSnoc(acct: Account, mid: Ledger, t: Txn, a: Address, received: nat, sent: nat, sends: nat)
    requires Lookup(mid, a) == AccountAfter(acct, received, sent, sends) && Fundable(mid, t)
    ensures Lookup(Apply(mid, t), a) ==
            AccountAfter(acct, received + Weight(Received(a), t), sent + Weight(Sent(a), t),
                         sends + Weight(SendCount(a), t))
  {
    AccountLawTxn(mid, t, a);
    AccountAfterTwice(acct, received, sent, sends,
                      Weight(Received(a), t), Weight(Sent(a), t), Weight(SendCount(a), t));
  }

  lemma AccountAfterTwice(acct: Account, r1: nat, s1: nat, n1: nat, r2: nat, s2: nat, n2: nat)
    ensures AccountAfter(AccountAfter(acct, r1, s1, n1), r2, s2, n2) == AccountAfter(acct, r1 + r2, s1 + s2, n1 + n2)
  {
    WrapWrap(acct.balance + r1 - s1, r2 - s2);
    WrapWrap(acct.nonce + n1, n2);
  }

  // ---- The sum of all balances ----

  ghost function SumBalances(m: Ledger): nat
  {
    if m == map[] then 0
    else
      var a :| a in m;
      m[a].balance + SumBalances(m - {a})
  }

  lemma {:induction false} SumRemove(m: Ledger, a: Address)
    requires a in m
    ensures SumBalances(m) == m[a].balance + SumBalances(m - {a})
    decreases |m|
  {
    var b :| b in m && SumBalances(m) == m[b].balance + SumBalances(m - {b});
    if a != b {
      SumRemove(m - {b}, a);
      SumRemove(m - {a}, b);
      assert m - {a} - {b} == m - {b} - {a};
    }
  }

  lemma SumUpdate(m: Ledger, a: Address, v: Account)
    ensures SumBalances(m[a := v]) == SumBalances(m) - Lookup(m, a).balance + v.balance
  {
    SumRemove(m[a := v], a);
    if a in m {
      SumRemove(m, a);
      assert m[a := v] - {a} == m - {a};
    } else {
      assert m[a := v] - {a} == m;
    }
  }

  lemma SumCovers(m: Ledger, a: Address)
    ensures Lookup(m, a).balance <= SumBalances(m)
  {
    if a in m {
      SumRemove(m, a);
    }
  }

  // ---- The supply law ----

  // What one accepted transaction adds to the sum of balances when nothing wraps.
  function Mint(t: Txn): nat
  {
    if IsCoinbase(t) then COINBASE_REWARD else Weight(SelfAmount, t)
  }

  function Minted(txns: seq<Txn>): nat
  {
    if txns == [] then 0 else Minted(txns[..|txns| - 1]) + Mint(txns[|txns| - 1])
  }

  lemma {:induction false} MintedConcat(xs: seq<Txn>, ys: seq<Txn>)
    ensures Minted(xs + ys) == Minted(xs) + Minted(ys)
  {
    if ys == [] {
      assert xs + ys == xs;
    } else {
      MintedConcat(xs, ys[..|ys| - 1]);
      assert (xs + ys)[..|xs + ys| - 1] == xs + ys[..|ys| - 1];
    }
  }

  // One reward per coinbase, and every self-transfer's amount.
  lemma {:induction false} MintedIs(txns: seq<Txn>)
    ensures Minted(txns) == Times(Total(Coinbases, txns), COINBASE_REWARD) + Total(SelfAmount, txns)
  {
    if txns != [] {
      MintedIs(txns[..|txns| - 1]);
    }
  }

  lemma CreditSum(w: Ledger, a: Address, amount: u64)
    ensures var sum := SumBalances(w) + amount;
      SumBalances(Credit(w, a, amount)) == if Lookup(w, a).balance + amount < TWO64 then sum else sum - TWO64
  {
    SumUpdate(w, a, Credit(w, a, amount)[a]);
  }

  // Debit with nonce increment: the first half of a transfer.
  ghost function Debit(w: Ledger, t: Txn): Ledger
  {
    var before := Lookup(w, t.sender);
    w[t.sender := Account(Wrap64(before.balance - t.amount), Wrap64(before.nonce + 1))]
  }

  lemma DebitSum(w: Ledger, t: Txn)
    requires t.amount <= Lookup(w, t.sender).balance
    ensures SumBalances(Debit(w, t)) == SumBalances(w) - t.amount
  {
    SumUpdate(w, t.sender, Debit(w, t)[t.sender]);
  }

  // A transfer between two accounts is a debit and a credit; a self-transfer is a credit alone.
  lemma TransferSteps(w: Ledger, t: Txn)
    ensures Transfer(w, t) ==
            if t.sender == t.recipient then Credit(w, t.recipient, t.amount)
            else Credit(Debit(w, t), t.recipient, t.amount)
  {
  }

  // One applied transaction moves the sum by its mint, or by its mint less 2^64 when the credited
  // balance wraps; the latter needs a sum of at least 2^64.
  lemma SupplyLawTxn(w: Ledger, t: Txn)
    requires Fundable(w, t)
    ensures var sum := SumBalances(w) + Mint(t);
      || SumBalances(Apply(w, t)) == sum
      || (SumBalances(Apply(w, t)) == sum - TWO64 && sum >= TWO64)
  {
    if IsCoinbase(t) || t.sender == t.recipient {
      CreditSum(w, t.recipient, t.amount);
      SumCovers(w, t.recipient);
    } else {
      DebitSum(w, t);
      CreditSum(Debit(w, t), t.recipient, t.amount);
      TwoCovered(w, t.sender, t.recipient);
    }
    if !IsCoinbase(t) {
      TransferSteps(w, t);
    }
  }

  lemma TwoCovered(m: Ledger, a: Address, b: Address)
    requires a != b
    ensures Lookup(m, a).balance + Lookup(m, b).balance <= SumBalances(m)
  {
    if a in m {
      SumRemove(m, a);
      SumCovers(m - {a}, b);
    } else {
      SumCovers(m, b);
    }
  }

  function Wraps(k: nat): nat { k * 0x1_0000_0000_0000_0000 }

  // The actual sum is the expected one less a whole number of wraps.
  ghost predicate Tracks(expected: nat, actual: nat)
  {
    exists k: nat :: expected == actual + Wraps(k)
  }

  lemma TracksStep(expected: nat, actual: nat, mint: nat, actual': nat)
    requires Tracks(expected, actual)
    requires actual' == actual + mint || actual' == actual + mint - TWO64
    ensures Tracks(expected + mint, actual')
  {
    var k: nat :| expected == actual + Wraps(k);
    assert expected + mint == actual' + Wraps(k) || expected + mint == actual' + Wraps(k + 1);
  }

  // So the two agree modulo 2^64, and agree exactly while the expected sum is below 2^64.
  lemma TracksMeaning(expected: nat, actual: nat)
    ensures Tracks(expected, actual) <==> actual <= expected && Wrap64(actual) == Wrap64(expected)
    ensures Tracks(expected, actual) && expected < TWO64 ==> actual == expected
  {
    WrapIsMod(actual);
    WrapIsMod(expected);
    if actual <= expected && Wrap64(actual) == Wrap64(expected) {
      var k := expected / 0x1_0000_0000_0000_0000 - actual / 0x1_0000_0000_0000_0000;
      assert expected == actual + Wraps(k);
    }
  }

  lemma {:induction false} SupplyLaw(w: Ledger, txns: seq<Txn>)
    requires Funded(w, txns)
    ensures Tracks(SumBalances(w) + Minted(txns), SumBalances(ApplyAll(w, txns)))
  {
    if txns == [] {
      TracksMeaning(SumBalances(w), SumBalances(w));
    } else {
      var init, t := txns[..|txns| - 1], txns[|txns| - 1];
      var mid := ApplyAll(w, init);
      SupplyLaw(w, init);
      SupplyLawTxn(mid, t);
      TracksStep(SumBalances(w) + Minted(init), SumBalances(mid), Mint(t), SumBalances(Apply(mid, t)));
    }
  }

  // "Apply conserves supply" holds of a transfer exactly when it is not a self-transfer of a positive amount.
  lemma TransferConservesExactly(w: Ledger, t: Txn)
    requires Fundable(w, t) && !IsCoinbase(t)
    ensures Wrap64(SumBalances(Apply(w, t))) == Wrap64(SumBalances(w)) <==> t.sender != t.recipient || t.amount == 0
  {
    SupplyLawTxn(w, t);
    WrapIsMod(SumBalances(Apply(w, t)));
    WrapIsMod(SumBalances(w) + Mint(t));
    WrapSame(SumBalances(w), Mint(t));
  }

  lemma WrapSame(x: nat, y: u64)
    ensures Wrap64(x + y) == Wrap64(x) <==> y == 0
  {
    WrapIsMod(x);
    WrapIsMod(x + y);
  }

  // Below 2^64 in total no credited balance wraps.
  lemma CreditIsExact(w: Ledger, t: Txn)
    requires Fundable(w, t) && SumBalances(w) + Mint(t) < TWO64
    ensures Lookup(Apply(w, t), t.recipient).balance == Lookup(w, t.recipient).balance + t.amount
  {
    if IsCoinbase(t) || t.sender == t.recipient {
      SumCovers(w, t.recipient);
    } else {
      TwoCovered(w, t.sender, t.recipient);
    }
  }

  // ---- Accounts that do not send ----

  ghost predicate NoSendBy(a: Address, txns: seq<Txn>)
  {
    forall i :: 0 <= i < |txns| ==> IsCoinbase(txns[i]) || txns[i].sender != a
  }

  // An account that sends nothing keeps its nonce and, below 2^64 in total, never loses balance.
  lemma {:induction false} BystanderKeeps(w: Ledger, txns: seq<Txn>, a: Address)
    requires Funded(w, txns) && NoSendBy(a, txns) && SumBalances(w) + Minted(txns) < TWO64
    ensures var acct := Lookup(ApplyAll(w, txns), a);
      acct.nonce == Lookup(w, a).nonce && acct.balance >= Lookup(w, a).balance
  {
    if txns != [] {
      var init := txns[..|txns| - 1];
      BystanderKeeps(w, init, a);
      SupplyLaw(w, init);
      TracksMeaning(SumBalances(w) + Minted(init), SumBalances(ApplyAll(w, init)));
      CreditIsExact(ApplyAll(w, init), txns[|txns| - 1]);
    }
  }
}
