/** Assembling an unmined block from the tip and the pending set. */
module CandidateModel {
  import opened Bytes
  import opened Canonical
  import opened Target
  import opened Gate
  import opened ChainModel
  import opened MempoolModel
  import opened Miner

  // ---- The reference: greedy selection by the consensus gate itself ----

  // From entry i on, a pending transaction joins the block exactly when the block has room and the gate
  // accepts it there; w is the ledger after the transactions chosen so far.
  function Greedy(c: Crypto, w: Ledger, q: seq<Entry>, i: nat, chosen: seq<Txn>, idx: u64): seq<Txn>
    requires i <= |q|
    decreases |q| - i
  {
    if i == |q| || |chosen| >= MAX_TXNS_PER_BLOCK then chosen
    else
      var o := GateTxn(c, w, q[i].txn, idx, |chosen|);
      if o.reason == OK then Greedy(c, o.work, q, i + 1, chosen + [q[i].txn], idx)
      else Greedy(c, w, q, i + 1, chosen, idx)
  }

  function GreedyTxns(c: Crypto, w: Ledger, q: seq<Entry>, miner: Address, height: u64): seq<Txn>
  {
    var cb := CoinbaseTxn(miner, height);
    Greedy(c, Apply(w, cb), q, 0, [cb], height)
  }

  function CandidateHeader(c: Crypto, txns: seq<Txn>, height: u64, tipHash: Digest, tipTime: u64, now: u64): Header
  {
    Header(height, StartTime(tipTime, now), tipHash, c.txnsHash(txns), 0)
  }

  // ---- The program's selection, against a lazily filled shadow ----

  // What the shadow shows for an address: its own entry, else the committed account.
  function Seen(shadow: Ledger, accountAt: Address -> Account, a: Address): Account
  {
    if a in shadow then shadow[a] else accountAt(a)
  }

  // The shadow and the ledger agree on the senders of the entries still to come. They may differ on the
  // sender of a chosen self-transfer, which the shadow leaves even and the ledger credits.
  ghost predicate InStep(q: seq<Entry>, i: nat, shadow: Ledger, accountAt: Address -> Account, w: Ledger)
  {
    forall j :: i <= j < |q| ==> Seen(shadow, accountAt, q[j].txn.sender) == Lookup(w, q[j].txn.sender)
  }

  function ShadowTransfer(shadow: Ledger, t: Txn): Ledger
    requires t.sender in shadow && t.recipient in shadow
  {
    var from := shadow[t.sender];
    var debited: Ledger := shadow[t.sender := Account(Wrap64(from.balance - t.amount), Wrap64(from.nonce + 1))];
    debited[t.recipient := Account(Wrap64(debited[t.recipient].balance + t.amount), debited[t.recipient].nonce)]
  }

  lemma ShadowTransferAt(shadow: Ledger, t: Txn, w: Ledger, accountAt: Address -> Account, a: Address)
    requires t.sender in shadow && t.recipient in shadow && a != t.sender
    requires Seen(shadow, accountAt, a) == Lookup(w, a)
    ensures Seen(ShadowTransfer(shadow, t), accountAt, a) == Lookup(Transfer(w, t), a)
  {
  }

  lemma InStepAfter(c: Crypto, q: seq<Entry>, i: nat, shadow: Ledger, accountAt: Address -> Account, w: Ledger)
    requires i < |q| && Distinct(Senders(q)) && InStep(q, i, shadow, accountAt, w)
    requires q[i].txn.sender in shadow && q[i].txn.recipient in shadow
    ensures InStep(q, i + 1, ShadowTransfer(shadow, q[i].txn), accountAt, Transfer(w, q[i].txn))
  {
    forall j | i < j < |q|
      ensures Seen(ShadowTransfer(shadow, q[i].txn), accountAt, q[j].txn.sender) ==
              Lookup(Transfer(w, q[i].txn), q[j].txn.sender)
    {
      DistinctAt(Senders(q), i, j);
      ShadowTransferAt(shadow, q[i].txn, w, accountAt, q[j].txn.sender);
    }
  }

  // On an authentic entry the two checks of the shadow are the verdict of the gate.
  lemma ShadowChecksAreTheGate(c: Crypto, e: Entry, acct: Account, idx: u64, ti: nat)
    requires GoodEntry(c, e)
    ensures Verdict(c, acct, e.txn, idx, ti) == OK <==> e.txn.nonce == acct.nonce && e.txn.amount <= acct.balance
  {
  }

  function Touch(shadow: Ledger, accountAt: Address -> Account, a: Address): (s: Ledger)
    ensures a in s && forall b: Address :: Seen(s, accountAt, b) == Seen(shadow, accountAt, b)
    ensures shadow.Keys <= s.Keys
  {
    if a in shadow then shadow else shadow[a := accountAt(a)]
  }

  method BuildCandidate(c: Crypto, miner: Address, tipIndex: u64, tipHash: Digest, tipTime: u64, now: u64, mp: Mempool,
                        accountAt: Address -> Account, ghost tip: Ledger)
    returns (cand: Candidate)
    requires mp.Valid() && mp.c == c
    requires forall a: Address :: accountAt(a) == Lookup(tip, a)
    ensures cand.txns == GreedyTxns(c, tip, mp.queue, miner, Wrap64(tipIndex + 1))
    ensures cand.hdr == CandidateHeader(c, cand.txns, Wrap64(tipIndex + 1), tipHash, tipTime, now)
    ensures tipTime < TWO64 - 1 ==> IsLeastTime(cand.hdr.timestamp, tipTime, now)
  {
    StartTimeIsLeast(tipTime, now);
    var height := Wrap64(tipIndex + 1);
    var pending := mp.SortedBySeq();
    var txns := SelectTxns(c, miner, height, pending, accountAt, tip);
    var floor := Wrap64(tipTime + 1);
    cand := Candidate(Header(height, if now < floor then floor else now, tipHash, c.txnsHash(txns), 0), txns);
  }

  method SelectTxns(c: Crypto, miner: Address, height: u64, q: seq<Entry>, accountAt: Address -> Account,
                    ghost tip: Ledger)
    returns (txns: seq<Txn>)
    requires GoodQueue(c, q) && forall a: Address :: accountAt(a) == Lookup(tip, a)
    ensures txns == GreedyTxns(c, tip, q, miner, height)
  {
    txns := [CoinbaseTxn(miner, height)];
    ghost var w := Apply(tip, txns[0]);
    var shadow: Ledger := Touch(map[], accountAt, miner);
    shadow := shadow[miner := shadow[miner].(balance := Wrap64(shadow[miner].balance + COINBASE_REWARD))];
    var i := 0;
    while i < |q|
      invariant i <= |q| && InStep(q, i, shadow, accountAt, w)
      invariant Greedy(c, w, q, i, txns, height) == GreedyTxns(c, tip, q, miner, height)
    {
      if |txns| >= MAX_TXNS_PER_BLOCK {
        break;
      }
      var t := q[i].txn;
      shadow := Touch(shadow, accountAt, t.sender);
      shadow := Touch(shadow, accountAt, t.recipient);
      ShadowChecksAreTheGate(c, q[i], Lookup(w, t.sender), height, |txns|);
      i := i + 1;
      if t.nonce != shadow[t.sender].nonce {
        continue;
      }
      if t.amount > shadow[t.sender].balance {
        continue;
      }
      InStepAfter(c, q, i - 1, shadow, accountAt, w);
      txns := txns + [t];
      shadow := ShadowTransfer(shadow, t);
      w := Transfer(w, t);
    }
  }

  // ---- Assembled blocks are accepted ----

  lemma {:induction false} GreedyIsAccepted(c: Crypto, w0: Ledger, w: Ledger, q: seq<Entry>, i: nat, chosen: seq<Txn>,
                                            idx: u64)
    requires i <= |q| && GateTxns(c, w0, chosen, idx) == Outcome(OK, w) && 0 < |chosen| <= MAX_TXNS_PER_BLOCK
    ensures var r := Greedy(c, w, q, i, chosen, idx);
      GateTxns(c, w0, r, idx).reason == OK && |chosen| <= |r| <= MAX_TXNS_PER_BLOCK && r[0] == chosen[0]
    decreases |q| - i
  {
    if i < |q| && |chosen| < MAX_TXNS_PER_BLOCK {
      var o := GateTxn(c, w, q[i].txn, idx, |chosen|);
      if o.reason == OK {
        GateSnoc(c, w0, chosen, q[i].txn, idx);
        GreedyIsAccepted(c, w0, o.work, q, i + 1, chosen + [q[i].txn], idx);
      } else {
        GreedyIsAccepted(c, w0, w, q, i + 1, chosen, idx);
      }
    }
  }

  lemma CoinbaseAccepted(c: Crypto, w: Ledger, miner: Address, height: u64)
    ensures var cb := CoinbaseTxn(miner, height);
      IsCoinbase(cb) && GateTxns(c, w, [cb], height) == Outcome(OK, Apply(w, cb))
  {
    var cb := CoinbaseTxn(miner, height);
    assert [cb][..0] == [];
    VerdictOkExactly(c, Lookup(w, cb.sender), cb, height, 0);
  }

  lemma CandidateTxnsAccepted(c: Crypto, w: Ledger, q: seq<Entry>, miner: Address, height: u64)
    ensures var r := GreedyTxns(c, w, q, miner, height);
      && GateTxns(c, w, r, height).reason == OK && 0 < |r| <= MAX_TXNS_PER_BLOCK
      && r[0] == CoinbaseTxn(miner, height) && IsCoinbase(r[0])
  {
    var cb := CoinbaseTxn(miner, height);
    CoinbaseAccepted(c, w, miner, height);
    GreedyIsAccepted(c, w, Apply(w, cb), q, 0, [cb], height);
  }

  // A block built on the tip and then given any timestamp and nonce is accepted by the unchanged tip
  // exactly when its hash meets the target and its timestamp lies between the tip and the clock's bound.
  lemma AssembledBlockConnectsExactly(p: Params, cs: ChainState, q: seq<Entry>, miner: Address, hdr: Header, now: u64)
    requires cs.blocks != []
    requires var height := Wrap64(|cs.blocks|);
      && hdr.index == height && hdr.prevHash == p.crypto.blockHash(Tip(cs.blocks))
      && hdr.txnsHash == p.crypto.txnsHash(GreedyTxns(p.crypto, cs.state, q, miner, height))
    ensures var b := Block(hdr, GreedyTxns(p.crypto, cs.state, q, miner, Wrap64(|cs.blocks|)));
      Connect(p, cs, b, now).reason == OK <==>
        && MeetsDifficulty(p.crypto.blockHash(hdr), p.difficulty)
        && Tip(cs.blocks).timestamp < hdr.timestamp <= Wrap64(now + MAX_CLOCK_SKEW_S)
  {
    CandidateTxnsAccepted(p.crypto, cs.state, q, miner, Wrap64(|cs.blocks|));
    ConnectAcceptsExactly(p, cs, Block(hdr, GreedyTxns(p.crypto, cs.state, q, miner, Wrap64(|cs.blocks|))), now);
  }

  // The timestamp a candidate starts from lies in that window exactly when the tip is not already at the
  // edge of the clock's bound.
  lemma CandidateTimeInWindow(tipTime: u64, now: u64)
    ensures var t := StartTime(tipTime, now);
      tipTime < t <= Wrap64(now + MAX_CLOCK_SKEW_S) <==>
      now + MAX_CLOCK_SKEW_S < TWO64 && tipTime < now + MAX_CLOCK_SKEW_S
  {
  }

  // ---- What greedy selection takes ----

  // Selecting from one more pending transaction: it joins exactly when there is room and the gate accepts
  // it behind what was chosen before. So a pending transaction is skipped only for these two reasons.
  lemma {:induction false} GreedyTakesExactly(c: Crypto, w0: Ledger, w: Ledger, q: seq<Entry>, i: nat, n: nat,
                                              chosen: seq<Txn>, idx: u64)
    requires i <= n < |q| && GateTxns(c, w0, chosen, idx) == Outcome(OK, w)
    ensures var g := Greedy(c, w, q[..n], i, chosen, idx);
      var o := GateTxns(c, w0, g, idx);
      && o.reason == OK
      && Greedy(c, w, q[..n + 1], i, chosen, idx) ==
         if |g| < MAX_TXNS_PER_BLOCK && GateTxn(c, o.work, q[n].txn, idx, |g|).reason == OK then g + [q[n].txn] else g
    decreases n - i
  {
    GreedyOne(c, w, q, i, n + 1, chosen, idx);
    if i < n {
      GreedyOne(c, w, q, i, n, chosen, idx);
      var o := GateTxn(c, w, q[i].txn, idx, |chosen|);
      if |chosen| < MAX_TXNS_PER_BLOCK && o.reason == OK {
        GateSnoc(c, w0, chosen, q[i].txn, idx);
        GreedyTakesExactly(c, w0, o.work, q, i + 1, n, chosen + [q[i].txn], idx);
      } else if |chosen| < MAX_TXNS_PER_BLOCK {
        GreedyTakesExactly(c, w0, w, q, i + 1, n, chosen, idx);
      }
    } else {
      GreedyEnd(c, w, q, n, chosen, idx);
      var o := GateTxn(c, w, q[n].txn, idx, |chosen|);
      GreedyEnd(c, o.work, q, n + 1, chosen + [q[n].txn], idx);
      GreedyEnd(c, w, q, n + 1, chosen, idx);
    }
  }

  // Selection on the first m pending transactions, one at a time.
  lemma GreedyOne(c: Crypto, w: Ledger, q: seq<Entry>, i: nat, m: nat, chosen: seq<Txn>, idx: u64)
    requires i < m <= |q|
    ensures var o := GateTxn(c, w, q[i].txn, idx, |chosen|);
      Greedy(c, w, q[..m], i, chosen, idx) ==
      if |chosen| >= MAX_TXNS_PER_BLOCK then chosen
      else if o.reason == OK then Greedy(c, o.work, q[..m], i + 1, chosen + [q[i].txn], idx)
      else Greedy(c, w, q[..m], i + 1, chosen, idx)
  {
  }

  lemma GreedyEnd(c: Crypto, w: Ledger, q: seq<Entry>, m: nat, chosen: seq<Txn>, idx: u64)
    requires m <= |q|
    ensures Greedy(c, w, q[..m], m, chosen, idx) == chosen
  {
  }

  // In terms of whole selections, from the first pending transaction on.
  lemma SelectionTakesExactly(c: Crypto, w: Ledger, q: seq<Entry>, n: nat, miner: Address, height: u64)
    requires n < |q|
    ensures GreedyTxns(c, w, [], miner, height) == [CoinbaseTxn(miner, height)]
    ensures var g := GreedyTxns(c, w, q[..n], miner, height);
      var ledger := GateTxns(c, w, g, height).work;
      GreedyTxns(c, w, q[..n + 1], miner, height) ==
      if |g| < 8 && GateTxn(c, ledger, q[n].txn, height, |g|).reason == OK then g + [q[n].txn] else g
  {
    var cb := CoinbaseTxn(miner, height);
    CoinbaseAccepted(c, w, miner, height);
    GreedyTakesExactly(c, w, Apply(w, cb), q, 0, n, [cb], height);
  }

  // The header names the next height and the tip, commits to the transactions, starts the search at nonce 0,
  // and carries the least time that is not before the clock and after the tip.
  lemma CandidateHeaderIs(c: Crypto, txns: seq<Txn>, height: u64, tipHash: Digest, tipTime: u64, now: u64)
    ensures var h := CandidateHeader(c, txns, height, tipHash, tipTime, now);
      && h.index == height && h.prevHash == tipHash && h.txnsHash == c.txnsHash(txns) && h.nonce == 0
      && (IsLeastTime(h.timestamp, tipTime, now) <==> tipTime < TWO64 - 1)
  {
    StartTimeIsLeast(tipTime, now);
  }
}
