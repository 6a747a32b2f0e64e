/** The per-transaction consensus gate and its block-level driver. */
module Gate {
  import opened Bytes
  import opened Wrappers
  import opened Canonical

  const COINBASE_REWARD: u64 := 50
  const NULL_ADDRESS: Address := Zeros(20)
  const NULL_PUBKEY: PubKey := Zeros(32)
  const NULL_SIGNATURE: Signature := Zeros(64)

  datatype Reason =
    OK | BadLink | BadTxnsHash | BadPow | BadSig | BadAddr | StaleNonce | InsufficientFunds | BadSupply

  datatype Account = Account(balance: u64, nonce: u64)

  const EMPTY_ACCOUNT := Account(0, 0)

  type Ledger = map<Address, Account>

  // An absent address is the empty account.
  function Lookup(m: Ledger, a: Address): Account { if a in m then m[a] else EMPTY_ACCOUNT }

  predicate IsCoinbase(t: Txn) { t.sender == NULL_ADDRESS }

  predicate IsSelfTransfer(t: Txn) { !IsCoinbase(t) && t.sender == t.recipient }

  function CoinbaseTxn(recipient: Address, height: u64): Txn
  {
    Txn(TXN_VERSION, NULL_ADDRESS, recipient, COINBASE_REWARD, height, NULL_PUBKEY, NULL_SIGNATURE)
  }

  datatype Outcome = Outcome(reason: Reason, work: Ledger)

  /** The verdict on a transaction at position ti of block idx, given its sender's account. */
  function Verdict(c: Crypto, acct: Account, t: Txn, idx: u64, ti: nat): Reason
  {
    if IsCoinbase(t) then
      if ti != 0 then BadTxnsHash
      else if t.pubkey != NULL_PUBKEY || t.sig != NULL_SIGNATURE || t.nonce != idx then BadTxnsHash
      else if t.amount != COINBASE_REWARD then BadSupply
      else OK
    else if !c.addressMatches(t.sender, t.pubkey) then BadAddr
    else if !c.verifies(t) then BadSig
    else if t.nonce != acct.nonce then StaleNonce
    else if t.amount > acct.balance then InsufficientFunds
    else OK
  }

  // A transaction the ledger can carry out, signatures aside.
  predicate Fundable(work: Ledger, t: Txn)
  {
    if IsCoinbase(t) then t.amount == COINBASE_REWARD
    else t.nonce == Lookup(work, t.sender).nonce && t.amount <= Lookup(work, t.sender).balance
  }

  /** The ledger after a transaction that was accepted. */
  function Apply(work: Ledger, t: Txn): Ledger
  {
    if IsCoinbase(t) then Credit(work, t.recipient, t.amount) else Transfer(work, t)
  }

  function Credit(work: Ledger, a: Address, amount: u64): Ledger
  {
    work[a := Account(Wrap64(Lookup(work, a).balance + amount), Lookup(work, a).nonce)]
  }

  // Both accounts are read before either is written, and the recipient is written last.
  function Transfer(work: Ledger, t: Txn): Ledger
  {
    var fromBefore, toBefore := Lookup(work, t.sender), Lookup(work, t.recipient);
    var fromAfter := Account(Wrap64(fromBefore.balance - t.amount), Wrap64(fromBefore.nonce + 1));
    var toAfter := Account(Wrap64(toBefore.balance + t.amount), toBefore.nonce);
    work[t.sender := fromAfter][t.recipient := toAfter]
  }

  /** The gate: the verdict, and the ledger after it. */
  function GateTxn(c: Crypto, work: Ledger, t: Txn, idx: u64, ti: nat): Outcome
  {
    var r := Verdict(c, Lookup(work, t.sender), t, idx, ti);
    Outcome(r, if r == OK then Apply(work, t) else work)
  }

  /** The gate run over a list of transactions, stopping at the first refusal. */
  function GateTxns(c: Crypto, work: Ledger, txns: seq<Txn>, idx: u64): Outcome
  {
    if txns == [] then Outcome(OK, work)
    else
      var n := |txns| - 1;
      var o := GateTxns(c, work, txns[..n], idx);
      if o.reason != OK then o else GateTxn(c, o.work, txns[n], idx, n)
  }

  /** The whole block: the gate over its transactions, then the demand for a coinbase. */
  function GateBlock(c: Crypto, work: Ledger, b: Block, reward: u64): Outcome
  {
    var o := GateTxns(c, work, b.txns, b.header.index);
    if o.reason == OK && reward > 0 && (b.txns == [] || !IsCoinbase(b.txns[0])) then Outcome(BadSupply, o.work)
    else o
  }

  // ---- What the gate decides ----

  // The accept condition of a transfer, free of the order of the checks.
  predicate Admissible(c: Crypto, acct: Account, t: Txn)
  {
    !IsCoinbase(t) && Authentic(c, t) && t.nonce == acct.nonce && t.amount <= acct.balance
  }

  predicate GoodCoinbase(t: Txn, idx: u64)
  {
    t == CoinbaseTxn(t.recipient, idx).(ver := t.ver)
  }

  lemma VerdictOkExactly(c: Crypto, acct: Account, t: Txn, idx: u64, ti: nat)
    ensures Verdict(c, acct, t, idx, ti) == OK <==> (ti == 0 && GoodCoinbase(t, idx)) || Admissible(c, acct, t)
  {
  }

  // A refusal inside a list is final, so it is the list's verdict.
  lemma {:induction false} GateStops(c: Crypto, work: Ledger, txns: seq<Txn>, idx: u64, k: nat)
    requires k <= |txns| && GateTxns(c, work, txns[..k], idx).reason != OK
    ensures GateTxns(c, work, txns, idx) == GateTxns(c, work, txns[..k], idx)
  {
    if k == |txns| {
      assert txns[..k] == txns;
    } else {
      var init := txns[..|txns| - 1];
      assert init[..k] == txns[..k];
      GateStops(c, work, init, idx, k);
    }
  }

  lemma GateSnoc(c: Crypto, work: Ledger, txns: seq<Txn>, t: Txn, idx: u64)
    ensures GateTxns(c, work, txns + [t], idx) ==
            var o := GateTxns(c, work, txns, idx);
            if o.reason != OK then o else GateTxn(c, o.work, t, idx, |txns|)
  {
    assert (txns + [t])[..|txns|] == txns;
  }

  // One turn of the driver's loop: the transaction is judged on the ledger so far, and a refusal is final.
  lemma GateNext(c: Crypto, work: Ledger, txns: seq<Txn>, idx: u64, i: nat)
    requires i < |txns| && GateTxns(c, work, txns[..i], idx).reason == OK
    ensures var o := GateTxn(c, GateTxns(c, work, txns[..i], idx).work, txns[i], idx, i);
      GateTxns(c, work, txns[..i + 1], idx) == o && (o.reason != OK ==> GateTxns(c, work, txns, idx) == o)
  {
    TakeSnoc(txns, i);
    GateSnoc(c, work, txns[..i], txns[i], idx);
    if GateTxns(c, work, txns[..i + 1], idx).reason != OK {
      GateStops(c, work, txns, idx, i + 1);
    }
  }

  // The i-th transaction may stand where it stands: a well-formed coinbase in front, or a transfer that
  // the ledger left by its predecessors admits.
  predicate AcceptableAt(c: Crypto, work: Ledger, txns: seq<Txn>, idx: u64, i: nat)
    requires i < |txns|
  {
    || (i == 0 && GoodCoinbase(txns[i], idx))
    || Admissible(c, Lookup(GateTxns(c, work, txns[..i], idx).work, txns[i].sender), txns[i])
  }

  lemma AcceptableLast(c: Crypto, work: Ledger, txns: seq<Txn>, idx: u64)
    requires txns != []
    ensures GateTxns(c, work, txns, idx).reason == OK <==>
            GateTxns(c, work, txns[..|txns| - 1], idx).reason == OK && AcceptableAt(c, work, txns, idx, |txns| - 1)
  {
    var last := txns[|txns| - 1];
    VerdictOkExactly(c, Lookup(GateTxns(c, work, txns[..|txns| - 1], idx).work, last.sender), last, idx, |txns| - 1);
  }

  lemma AcceptableInPrefix(c: Crypto, work: Ledger, txns: seq<Txn>, idx: u64, n: nat, i: nat)
    requires i < n <= |txns|
    ensures AcceptableAt(c, work, txns[..n], idx, i) == AcceptableAt(c, work, txns, idx, i)
  {
    assert txns[..n][..i] == txns[..i] && txns[..n][i] == txns[i];
  }

  lemma {:induction false} AcceptedIsAcceptable(c: Crypto, work: Ledger, txns: seq<Txn>, idx: u64, i: nat)
    requires i < |txns| && GateTxns(c, work, txns, idx).reason == OK
    ensures AcceptableAt(c, work, txns, idx, i)
  {
    AcceptableLast(c, work, txns, idx);
    if i < |txns| - 1 {
      AcceptedIsAcceptable(c, work, txns[..|txns| - 1], idx, i);
      AcceptableInPrefix(c, work, txns, idx, |txns| - 1, i);
    }
  }

  lemma AcceptedCoinbaseIsGood(c: Crypto, work: Ledger, txns: seq<Txn>, idx: u64)
    requires txns != [] && IsCoinbase(txns[0]) && GateTxns(c, work, txns, idx).reason == OK
    ensures GoodCoinbase(txns[0], idx)
  {
    AcceptedIsAcceptable(c, work, txns, idx, 0);
  }

  lemma {:induction false} GateTxnsAcceptsExactly(c: Crypto, work: Ledger, txns: seq<Txn>, idx: u64)
    ensures GateTxns(c, work, txns, idx).reason == OK <==>
            forall i :: 0 <= i < |txns| ==> AcceptableAt(c, work, txns, idx, i)
  {
    if GateTxns(c, work, txns, idx).reason == OK {
      forall i | 0 <= i < |txns| ensures AcceptableAt(c, work, txns, idx, i) {
        AcceptedIsAcceptable(c, work, txns, idx, i);
      }
    } else {
      var k := FirstRefused(c, work, txns, idx);
    }
  }

  lemma {:induction false} FirstRefused(c: Crypto, work: Ledger, txns: seq<Txn>, idx: u64) returns (k: nat)
    requires GateTxns(c, work, txns, idx).reason != OK
    ensures k < |txns| && GateTxns(c, work, txns[..k], idx).reason == OK && !AcceptableAt(c, work, txns, idx, k)
  {
    k := |txns| - 1;
    if GateTxns(c, work, txns[..k], idx).reason == OK {
      AcceptableLast(c, work, txns, idx);
    } else {
      var n := k;
      k := FirstRefused(c, work, txns[..n], idx);
      AcceptableInPrefix(c, work, txns, idx, n, k);
      assert txns[..n][..k] == txns[..k];
    }
  }

  // The block verdict free of loops and counters: an optional well-formed coinbase in front, compulsory
  // under a reward, then transfers each admissible where it stands.
  lemma GateBlockAcceptsExactly(c: Crypto, work: Ledger, b: Block, reward: u64)
    ensures GateBlock(c, work, b, reward).reason == OK <==>
            && (reward > 0 ==> b.txns != [] && GoodCoinbase(b.txns[0], b.header.index))
            && forall i :: 0 <= i < |b.txns| ==> AcceptableAt(c, work, b.txns, b.header.index, i)
  {
    GateTxnsAcceptsExactly(c, work, b.txns, b.header.index);
    if b.txns != [] && AcceptableAt(c, work, b.txns, b.header.index, 0) {
      assert IsCoinbase(b.txns[0]) <==> GoodCoinbase(b.txns[0], b.header.index);
    }
  }

  // At every position but the first, or for a transfer, block and position do not matter.
  lemma TransferVerdictIsLocal(c: Crypto, acct: Account, t: Txn, idx1: u64, ti1: nat, idx2: u64, ti2: nat)
    requires !IsCoinbase(t)
    ensures Verdict(c, acct, t, idx1, ti1) == Verdict(c, acct, t, idx2, ti2)
  {
  }

  // ---- The ledger semantics of accepted lists, free of signatures ----

  ghost predicate Funded(work: Ledger, txns: seq<Txn>)
  {
    txns == [] ||
    (Funded(work, txns[..|txns| - 1]) && Fundable(ApplyAll(work, txns[..|txns| - 1]), txns[|txns| - 1]))
  }

  ghost function ApplyAll(work: Ledger, txns: seq<Txn>): Ledger
  {
    if txns == [] then work else Apply(ApplyAll(work, txns[..|txns| - 1]), txns[|txns| - 1])
  }

  lemma {:induction false} AcceptedIsApplied(c: Crypto, work: Ledger, txns: seq<Txn>, idx: u64)
    requires GateTxns(c, work, txns, idx).reason == OK
    ensures Funded(work, txns) && GateTxns(c, work, txns, idx).work == ApplyAll(work, txns)
  {
    if txns != [] {
      AcceptedIsApplied(c, work, txns[..|txns| - 1], idx);
    }
  }

  // ---- The program's own gate, on a map it changes in place ----

  class AccountMap {
    var m: Ledger

    constructor (init: Ledger)
      ensures m == init
    {
      m := init;
    }

    method ApplyTxn(c: Crypto, t: Txn, idx: u64, ti: nat) returns (r: Reason)
      modifies this
      ensures Outcome(r, m) == GateTxn(c, old(m), t, idx, ti)
    {
      var nullFrom := t.sender == NULL_ADDRESS;
      if nullFrom {
        if ti != 0 {
          return BadTxnsHash;
        }
        if t.pubkey != NULL_PUBKEY || t.sig != NULL_SIGNATURE || t.nonce != idx {
          return BadTxnsHash;
        }
        if t.amount != COINBASE_REWARD {
          return BadSupply;
        }
        Mint(t.recipient, t.amount);
        return OK;
      }
      if !c.addressMatches(t.sender, t.pubkey) {
        return BadAddr;
      }
      if !c.verifies(t) {
        return BadSig;
      }
      var fromBefore := if t.sender in m then m[t.sender] else EMPTY_ACCOUNT;
      if t.nonce != fromBefore.nonce {
        return StaleNonce;
      }
      if t.amount > fromBefore.balance {
        return InsufficientFunds;
      }
      var toBefore := if t.recipient in m then m[t.recipient] else EMPTY_ACCOUNT;
      var fromAfter := fromBefore;
      fromAfter := fromAfter.(balance := fromAfter.balance - t.amount);
      fromAfter := fromAfter.(nonce := Wrap64(fromAfter.nonce + 1));
      var toAfter := toBefore;
      toAfter := toAfter.(balance := Wrap64(toAfter.balance + t.amount));
      m := m[t.sender := fromAfter];
      m := m[t.recipient := toAfter];
      return OK;
    }

    // The effect of indexing the map for an in-place addition: an absent entry is created first.
    method Mint(a: Address, amount: u64)
      modifies this
      ensures m == Credit(old(m), a, amount)
    {
      if a !in m {
        m := m[a := EMPTY_ACCOUNT];
      }
      m := m[a := m[a].(balance := Wrap64(m[a].balance + amount))];
    }

    // The driver's own copy of the coinbase rule, with a counter. It decides as the gate does.
    method ApplyCoinbase(c: Crypto, t: Txn, idx: u64, ti: nat, coinbaseCount: nat) returns (r: Reason)
      requires IsCoinbase(t) && (ti == 0 ==> coinbaseCount == 1)
      modifies this
      ensures Outcome(r, m) == GateTxn(c, old(m), t, idx, ti)
    {
      if coinbaseCount > 1 {
        return BadTxnsHash;
      }
      if ti != 0 {
        return BadTxnsHash;
      }
      if t.pubkey != NULL_PUBKEY || t.sig != NULL_SIGNATURE || t.nonce != idx {
        return BadTxnsHash;
      }
      if t.amount != COINBASE_REWARD {
        return BadSupply;
      }
      Mint(t.recipient, t.amount);
      return OK;
    }

    // On a refusal `at` is the offending position.
    method ApplyBlockTxns(c: Crypto, b: Block, reward: u64) returns (r: Reason, at: nat)
      modifies this
      ensures Outcome(r, m) == GateBlock(c, old(m), b, reward)
      ensures r == OK ==> at == 0
      ensures r != OK ==> at <= |b.txns| && GateTxns(c, old(m), b.txns[..at], b.header.index) == Outcome(OK, m)
      ensures r != OK && at < |b.txns| ==> GateTxn(c, m, b.txns[at], b.header.index, at).reason == r
    {
      var idx := b.header.index;
      var coinbaseCount := 0;
      var ti := 0;
      while ti < |b.txns|
        invariant 0 <= ti <= |b.txns|
        invariant GateTxns(c, old(m), b.txns[..ti], idx) == Outcome(OK, m)
        invariant coinbaseCount == if ti > 0 && IsCoinbase(b.txns[0]) then 1 else 0
      {
        var t := b.txns[ti];
        GateNext(c, old(m), b.txns, idx, ti);
        if t.sender == NULL_ADDRESS {
          coinbaseCount := coinbaseCount + 1;
          r := ApplyCoinbase(c, t, idx, ti, coinbaseCount);
        } else {
          r := ApplyTxn(c, t, idx, ti);
        }
        if r != OK {
          return r, ti;
        }
        ti := ti + 1;
      }
      assert b.txns[..|b.txns|] == b.txns;
      if reward > 0 && coinbaseCount == 0 {
        return BadSupply, |b.txns|;
      }
      return OK, 0;
    }
  }

  // ---- What each verdict means ----

  // Every reason on the transaction and its sender's account, free of the order of the checks.
  lemma VerdictReasonsExactly(c: Crypto, acct: Account, t: Txn, idx: u64, ti: nat)
    ensures var v := Verdict(c, acct, t, idx, ti);
      var shaped := ti == 0 && t.pubkey == Zeros(32) && t.sig == Zeros(64) && t.nonce == idx;
      var coinbase := t.sender == Zeros(20);
      && (v == BadTxnsHash <==> coinbase && !shaped)
      && (v == BadSupply <==> coinbase && shaped && t.amount != 50)
      && (v == BadAddr <==> !coinbase && !c.addressMatches(t.sender, t.pubkey))
      && (v == BadSig <==> !coinbase && c.addressMatches(t.sender, t.pubkey) && !c.verifies(t))
      && (v == StaleNonce <==> !coinbase && Authentic(c, t) && t.nonce != acct.nonce)
      && (v == InsufficientFunds <==>
            !coinbase && Authentic(c, t) && t.nonce == acct.nonce && t.amount > acct.balance)
      && v != BadLink && v != BadPow
  {
  }

  // A transfer that was altered after it was signed, its signature kept, is refused for its signature.
  lemma TamperedIsRefused(prim: Primitives, acct: Account, t: Txn, u: Txn, idx: u64, ti: nat)
    requires t.pubkey == u.pubkey && t.sig == u.sig && SignsOnce(prim, t.pubkey, t.sig)
    requires CryptoOf(prim).verifies(t) && u != t && u.sender == t.sender && !IsCoinbase(t)
    requires CryptoOf(prim).addressMatches(t.sender, t.pubkey)
    ensures Verdict(CryptoOf(prim), acct, u, idx, ti) == BadSig
  {
    if CryptoOf(prim).verifies(u) {
      NoTampering(prim, t, u);
    }
  }

  // A list is refused with a reason exactly when it is the verdict on the first transaction that is not
  // accepted, on the ledger its predecessors leave; that ledger is then the list's.
  lemma {:induction false} RefusalIsFirst(c: Crypto, work: Ledger, txns: seq<Txn>, idx: u64, o: Outcome)
    requires o.reason != OK
    ensures GateTxns(c, work, txns, idx) == o <==>
            exists k :: 0 <= k < |txns| && GateTxns(c, work, txns[..k], idx) == Outcome(OK, o.work) &&
                        GateTxn(c, o.work, txns[k], idx, k) == o
  {
    if GateTxns(c, work, txns, idx) == o {
      var k := FirstRefused(c, work, txns, idx);
      GateNext(c, work, txns, idx, k);
      AcceptableLast(c, work, txns[..k + 1], idx);
      AcceptableInPrefix(c, work, txns, idx, k + 1, k);
      TakeSnoc(txns, k);
      assert txns[..k + 1][..k] == txns[..k];
      assert GateTxns(c, work, txns[..k], idx) == Outcome(OK, o.work);
    }
    forall k | 0 <= k < |txns| && GateTxns(c, work, txns[..k], idx) == Outcome(OK, o.work) &&
               GateTxn(c, o.work, txns[k], idx, k) == o
      ensures GateTxns(c, work, txns, idx) == o
    {
      GateNext(c, work, txns, idx, k);
    }
  }

  // A block is refused as its transactions are, or for the coinbase it lacks.
  lemma BlockRefusals(c: Crypto, work: Ledger, b: Block, reward: u64)
    ensures var o, l := GateBlock(c, work, b, reward), GateTxns(c, work, b.txns, b.header.index);
      && (l.reason != OK ==> o == l)
      && (l.reason == OK && reward > 0 && (b.txns == [] || b.txns[0].sender != Zeros(20)) ==> o.reason == BadSupply)
      && (l.reason == OK && (reward == 0 || (b.txns != [] && b.txns[0].sender == Zeros(20))) ==> o == l)
  {
  }

  // The 153 bytes of a coinbase: 50 coins to the recipient, the height as nonce, zeros for the rest.
  lemma CoinbaseBytes(recipient: Address, height: u64)
    ensures SerializeTxn(CoinbaseTxn(recipient, height)) ==
            [1] + Zeros(20) + recipient + (Zeros(7) + [50]) + ToBigEndian(height, 8) + Zeros(32) + Zeros(64)
  {
    Pow256Values();
    assert ToBigEndian(50, 8) == Zeros(7) + [50];
  }
}
