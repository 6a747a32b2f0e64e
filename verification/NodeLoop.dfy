/** The event loop: admissions interleaved with snapshot, search and commit, or with cadence seals. */
module NodeLoop {
  import opened Bytes
  import opened Wrappers
  import opened Canonical
  import opened Gate
  import opened Accounting
  import opened ChainModel
  import opened MempoolModel
  import opened Miner
  import opened CandidateModel
  import opened NodeModel

  // ---- The shared state and its locked steps ----

  /** Chain, pending list and sequence counter; the candidate being searched and the clock reading it was
      taken at; the latest clock reading; and the log: the transfers the chain held at boot, `booted` of
      them, followed by everything admitted since. */
  datatype LoopState = LoopState(
    chain: ChainState, queue: seq<Entry>, nextSeq: u64, work: Option<Candidate>, taken: u64, clock: u64,
    booted: nat, log: seq<Txn>)

  datatype Step =
    | Admit(t: Txn)                  // a transaction arrives over RPC
    | Snapshot(now: u64)             // proof of work: copy tip and pending set into a candidate
    | GiveUp                         // the search was pre-empted
    | CommitMined(k: nat, now: u64)  // the search ended at attempt k
    | SealTick(now: u64)             // cadence mode: the timer fired

  datatype Config = Config(p: Params, cap: nat, miner: Address)

  // The loop starts on the chain that boot brought up, with nothing pending.
  function BootedLoop(chain: ChainState, now: u64): LoopState
  {
    LoopState(chain, [], 0, None, 0, now, |Transfers(chain.blocks)|, Transfers(chain.blocks))
  }

  // Reading the clock; a reading that lies back changes nothing.
  function Tick(s: LoopState, now: u64): LoopState { s.(clock := if now < s.clock then s.clock else now) }

  function Height(s: LoopState): int { |s.chain.blocks| - 1 }

  function AdmitNext(cfg: Config, s: LoopState, t: Txn): LoopState
  {
    var r := AdmitVerdict(cfg.p.crypto, s.queue, cfg.cap, t, Lookup(s.chain.state, t.sender));
    if r != Admitted then s
    else s.(queue := s.queue + [Entry(t, cfg.p.crypto.txId(t), s.nextSeq)], nextSeq := Wrap64(s.nextSeq + 1),
            log := s.log + [t])
  }

  function SnapshotOf(cfg: Config, s: LoopState, now: u64): Candidate
    requires s.chain.blocks != []
  {
    var height, tip := Wrap64(|s.chain.blocks|), Tip(s.chain.blocks);
    var txns := GreedyTxns(cfg.p.crypto, s.chain.state, s.queue, cfg.miner, height);
    Candidate(CandidateHeader(cfg.p.crypto, txns, height, cfg.p.crypto.blockHash(tip), tip.timestamp, now), txns)
  }

  function MinedBlock(cand: Candidate, k: nat): Block { Block(Attempt(cand.hdr, k), cand.txns) }

  // The tip must not have moved, and connecting must succeed; then the included transfers are evicted.
  function CommitNext(cfg: Config, s: LoopState, b: Block, now: u64): LoopState
    requires s.chain.blocks != []
  {
    var idle := s.(work := None);
    var next := Connect(cfg.p, s.chain, b, now);
    if b.header.index != Wrap64(|s.chain.blocks|) || b.header.prevHash != cfg.p.crypto.blockHash(Tip(s.chain.blocks))
    then idle
    else if next.reason != OK then idle
    else idle.(chain := next.chain,
               queue := if |b.txns| > 1 then Evict(cfg.p.crypto, s.queue, b.txns[1..]) else s.queue)
  }

  function Batch(s: LoopState): seq<Txn>
  {
    TxnsOf(s.queue[..if |s.queue| < MAX_TXNS_PER_BLOCK then |s.queue| else MAX_TXNS_PER_BLOCK])
  }

  function SealNext(cfg: Config, s: LoopState, now: u64): LoopState
    requires s.chain.blocks != []
  {
    var b := SealedBlock(cfg.p, s.chain.blocks, Batch(s), now);
    var next := Connect(cfg.p, s.chain, b, now);
    if next.reason != OK then s else s.(chain := next.chain, queue := Evict(cfg.p.crypto, s.queue, Batch(s)))
  }

  /** One step; a step that is not enabled changes nothing. The mode is fixed by the difficulty. */
  function Next(cfg: Config, s: LoopState, step: Step): (n: LoopState)
    requires s.chain.blocks != []
    ensures n.chain.blocks != []
  {
    match step
    case Admit(t) => AdmitNext(cfg, s, t)
    case Snapshot(now) =>
      if cfg.p.difficulty > 0 && s.work.None? then Tick(s, now).(work := Some(SnapshotOf(cfg, s, now)), taken := now)
      else s
    case GiveUp => s.(work := None)
    case CommitMined(k, now) =>
      if s.work.Some? && Solves(cfg.p, s.work.value.hdr, k) then
        CommitNext(cfg, Tick(s, now), MinedBlock(s.work.value, k), now)
      else s
    case SealTick(now) => if cfg.p.difficulty == 0 then SealNext(cfg, Tick(s, now), now) else s
  }

  function RunFrom(cfg: Config, s: LoopState, steps: seq<Step>): (n: LoopState)
    requires s.chain.blocks != []
    ensures n.chain.blocks != []
  {
    if steps == [] then s else Next(cfg, RunFrom(cfg, s, steps[..|steps| - 1]), steps[|steps| - 1])
  }

  // ---- What every run keeps ----

  // The transfers of a chain in inclusion order: its history without the coinbases.
  function NonCoinbase(ts: seq<Txn>): seq<Txn>
  {
    if ts == [] then []
    else NonCoinbase(ts[..|ts| - 1]) + if IsCoinbase(ts[|ts| - 1]) then [] else [ts[|ts| - 1]]
  }

  function Transfers(blocks: seq<Block>): seq<Txn>
  {
    if |blocks| <= 1 then [] else Transfers(blocks[..|blocks| - 1]) + NonCoinbase(blocks[|blocks| - 1].txns)
  }

  // The entry can be committed on the given ledger as it stands.
  predicate Fits(w: Ledger, e: Entry)
  {
    e.txn.nonce == Lookup(w, e.txn.sender).nonce && e.txn.amount <= Lookup(w, e.txn.sender).balance
  }

  ghost predicate AllFit(w: Ledger, q: seq<Entry>) { forall i :: 0 <= i < |q| ==> Fits(w, q[i]) }

  function Min(a: nat, b: nat): nat { if a < b then a else b }

  // The candidate in flight extends the tip with a coinbase and the front of the pending list, and carries
  // the starting time of its snapshot.
  ghost predicate InFlight(cfg: Config, s: LoopState, cand: Candidate)
  {
    var k := |cand.txns| - 1;
    && s.chain.blocks != []
    && 0 <= k <= |s.queue| && k < MAX_TXNS_PER_BLOCK
    && cand.txns == [CoinbaseTxn(cfg.miner, Wrap64(|s.chain.blocks|))] + TxnsOf(s.queue[..k])
    && cand.hdr.index == Wrap64(|s.chain.blocks|)
    && cand.hdr.prevHash == cfg.p.crypto.blockHash(Tip(s.chain.blocks))
    && cand.hdr.txnsHash == cfg.p.crypto.txnsHash(cand.txns)
    && cand.hdr.timestamp == StartTime(Tip(s.chain.blocks).timestamp, s.taken) && s.taken <= s.clock
    && GateTxns(cfg.p.crypto, s.chain.state, cand.txns, cand.hdr.index).reason == OK
  }

  ghost predicate GoodPool(c: Crypto, cap: nat, q: seq<Entry>, next: int)
  {
    GoodQueue(c, q) && |q| <= cap && Below(q, next)
  }

  // Nothing admitted is lost, repeated or reordered: what is on the chain followed by what is pending is
  // the log.
  ghost predicate Conserved(blocks: seq<Block>, q: seq<Entry>, log: seq<Txn>)
  {
    Transfers(blocks) + TxnsOf(q) == log
  }

  ghost predicate Inv(cfg: Config, s: LoopState)
  {
    && Coherent(cfg.p, s.chain)
    && GoodPool(cfg.p.crypto, cfg.cap, s.queue, s.nextSeq)
    && s.booted + s.nextSeq == |s.log|
    && AllFit(s.chain.state, s.queue)
    && Conserved(s.chain.blocks, s.queue, s.log)
    && (s.work.Some? ==> cfg.p.difficulty > 0 && InFlight(cfg, s, s.work.value))
  }

  // Room for one more block: the supply counted without wrapping, every self-transfer of the log included,
  // and the length of the log, stay below 2^64.
  ghost predicate Headroom(s: LoopState)
  {
    && GENESIS_SUPPLY + Times(|s.chain.blocks|, COINBASE_REWARD) + Total(SelfAmount, s.log) < TWO64
    && |s.log| < TWO64
  }

  predicate WellConfigured(cfg: Config)
  {
    IsGenesisTable(cfg.p.genesis) && cfg.p.reward == if cfg.p.difficulty > 0 then COINBASE_REWARD else 0
  }

  // ---- How much money there is ----

  lemma {:induction false} NonCoinbaseSelfAmount(ts: seq<Txn>)
    ensures Total(SelfAmount, NonCoinbase(ts)) == Total(SelfAmount, ts)
  {
    if ts != [] {
      var init, t := ts[..|ts| - 1], ts[|ts| - 1];
      NonCoinbaseSelfAmount(init);
      if !IsCoinbase(t) {
        assert (NonCoinbase(init) + [t])[..|NonCoinbase(init)|] == NonCoinbase(init);
      } else {
        assert NonCoinbase(init) + [] == NonCoinbase(init);
      }
    }
  }

  lemma {:induction false} TransfersSelfAmount(blocks: seq<Block>)
    ensures Total(SelfAmount, Transfers(blocks)) == Total(SelfAmount, History(blocks))
  {
    if |blocks| > 1 {
      var init, ts := blocks[..|blocks| - 1], blocks[|blocks| - 1].txns;
      TransfersSelfAmount(init);
      NonCoinbaseSelfAmount(ts);
      TotalConcat(SelfAmount, Transfers(init), NonCoinbase(ts));
      TotalConcat(SelfAmount, History(init), ts);
    }
  }

  lemma {:induction false} AtMostOneCoinbasePerBlock(p: Params, blocks: seq<Block>)
    requires LedgerOf(p, blocks).Some?
    ensures Total(Coinbases, History(blocks)) <= |blocks| - 1
  {
    if |blocks| > 1 {
      var init, b := blocks[..|blocks| - 1], blocks[|blocks| - 1];
      AtMostOneCoinbasePerBlock(p, init);
      CoinbasesOfList(p.crypto, LedgerOf(p, init).value, b.txns, b.header.index);
      TotalConcat(Coinbases, History(init), b.txns);
    }
  }

  lemma {:induction false} TimesMonotone(m: nat, n: nat, w: nat)
    requires m <= n
    ensures Times(m, w) <= Times(n, w)
  {
    if m < n {
      TimesMonotone(m, n - 1, w);
    }
  }

  // All balances together never exceed what genesis, the coinbases and the self-transfers account for.
  lemma MoneyBound(cfg: Config, chain: ChainState)
    requires WellConfigured(cfg) && Coherent(cfg.p, chain)
    ensures SumBalances(chain.state) <=
            GENESIS_SUPPLY + Times(|chain.blocks| - 1, COINBASE_REWARD) + Total(SelfAmount, Transfers(chain.blocks))
  {
    ChainSupply(cfg.p, chain.blocks);
    TracksMeaning(GENESIS_SUPPLY + Minted(History(chain.blocks)), SumBalances(chain.state));
    AtMostOneCoinbasePerBlock(cfg.p, chain.blocks);
    MintBound(chain.blocks);
  }

  lemma MintBound(blocks: seq<Block>)
    requires Total(Coinbases, History(blocks)) <= |blocks| - 1
    ensures Minted(History(blocks)) <= Times(|blocks| - 1, COINBASE_REWARD) + Total(SelfAmount, Transfers(blocks))
  {
    MintedIs(History(blocks));
    TimesMonotone(Total(Coinbases, History(blocks)), |blocks| - 1, COINBASE_REWARD);
    TransfersSelfAmount(blocks);
  }

  // ---- The front of the pending list fits in a block ----

  ghost predicate NoCoinbaseIn(ts: seq<Txn>) { forall i :: 0 <= i < |ts| ==> !IsCoinbase(ts[i]) }

  lemma NoCoinbaseInit(ts: seq<Txn>)
    requires NoCoinbaseIn(ts) && ts != []
    ensures NoCoinbaseIn(ts[..|ts| - 1]) && !IsCoinbase(ts[|ts| - 1])
  {
    assert forall i :: 0 <= i < |ts| - 1 ==> ts[..|ts| - 1][i] == ts[i];
  }

  lemma {:induction false} MintedOfTransfers(ts: seq<Txn>)
    requires NoCoinbaseIn(ts)
    ensures Minted(ts) == Total(SelfAmount, ts)
  {
    if ts != [] {
      NoCoinbaseInit(ts);
      MintedOfTransfers(ts[..|ts| - 1]);
    }
  }

  lemma {:induction false} NonCoinbaseOfTransfers(ts: seq<Txn>)
    requires NoCoinbaseIn(ts)
    ensures NonCoinbase(ts) == ts
  {
    if ts != [] {
      NoCoinbaseInit(ts);
      NonCoinbaseOfTransfers(ts[..|ts| - 1]);
      InitLast(ts);
    }
  }

  lemma {:induction false} NonCoinbaseConcat(xs: seq<Txn>, ys: seq<Txn>)
    ensures NonCoinbase(xs + ys) == NonCoinbase(xs) + NonCoinbase(ys)
  {
    if ys == [] {
      assert xs + ys == xs;
    } else {
      NonCoinbaseConcat(xs, ys[..|ys| - 1]);
      assert (xs + ys)[..|xs + ys| - 1] == xs + ys[..|ys| - 1];
    }
  }

  lemma PendingAreTransfers(c: Crypto, q: seq<Entry>, k: nat)
    requires GoodQueue(c, q) && k <= |q|
    ensures NoCoinbaseIn(TxnsOf(q[..k]))
  {
    forall i | 0 <= i < k ensures !IsCoinbase(TxnsOf(q[..k])[i]) {
      assert GoodEntry(c, q[i]);
    }
  }

  // The sender of a later entry sends nothing in a block made of coinbases and earlier entries.
  lemma LaterSenderIsBystander(c: Crypto, q: seq<Entry>, pre: seq<Txn>, k: nat, j: nat)
    requires GoodQueue(c, q) && k <= j < |q| && (forall i :: 0 <= i < |pre| ==> IsCoinbase(pre[i]))
    ensures NoSendBy(q[j].txn.sender, pre + TxnsOf(q[..k]))
  {
    var txns := pre + TxnsOf(q[..k]);
    forall i | 0 <= i < |txns| ensures IsCoinbase(txns[i]) || txns[i].sender != q[j].txn.sender {
      if i >= |pre| {
        DistinctAt(Senders(q), i - |pre|, j);
      }
    }
  }

  // After such a block the later entries still fit.
  lemma LaterStillFits(c: Crypto, w: Ledger, q: seq<Entry>, pre: seq<Txn>, k: nat, j: nat, idx: u64)
    requires GoodQueue(c, q) && AllFit(w, q) && k <= j < |q| && (forall i :: 0 <= i < |pre| ==> IsCoinbase(pre[i]))
    requires GateTxns(c, w, pre + TxnsOf(q[..k]), idx).reason == OK
    requires SumBalances(w) + Minted(pre) + Total(SelfAmount, TxnsOf(q[..k])) < TWO64
    ensures Fits(GateTxns(c, w, pre + TxnsOf(q[..k]), idx).work, q[j])
  {
    var txns := pre + TxnsOf(q[..k]);
    AcceptedIsApplied(c, w, txns, idx);
    LaterSenderIsBystander(c, q, pre, k, j);
    PendingAreTransfers(c, q, k);
    MintedOfTransfers(TxnsOf(q[..k]));
    MintedConcat(pre, TxnsOf(q[..k]));
    BystanderKeeps(w, txns, q[j].txn.sender);
    assert Fits(w, q[j]);
  }

  lemma FrontSnoc(q: seq<Entry>, pre: seq<Txn>, k: nat)
    requires k < |q|
    ensures pre + TxnsOf(q[..k + 1]) == (pre + TxnsOf(q[..k])) + [q[k].txn]
    ensures Total(SelfAmount, TxnsOf(q[..k])) <= Total(SelfAmount, TxnsOf(q[..k + 1]))
  {
    assert TxnsOf(q[..k + 1])[..k] == TxnsOf(q[..k]);
    assert TxnsOf(q[..k + 1]) == TxnsOf(q[..k]) + [q[k].txn];
  }

  // The first k pending entries are accepted behind any accepted coinbases.
  lemma {:induction false} FrontAccepted(c: Crypto, w: Ledger, q: seq<Entry>, pre: seq<Txn>, k: nat, idx: u64)
    requires GoodQueue(c, q) && AllFit(w, q) && k <= |q| && (forall i :: 0 <= i < |pre| ==> IsCoinbase(pre[i]))
    requires GateTxns(c, w, pre, idx).reason == OK
    requires SumBalances(w) + Minted(pre) + Total(SelfAmount, TxnsOf(q[..k])) < TWO64
    ensures GateTxns(c, w, pre + TxnsOf(q[..k]), idx).reason == OK
  {
    if k == 0 {
      assert pre + TxnsOf(q[..0]) == pre;
    } else {
      FrontSnoc(q, pre, k - 1);
      FrontAccepted(c, w, q, pre, k - 1, idx);
      LaterStillFits(c, w, q, pre, k - 1, k - 1, idx);
      var txns := pre + TxnsOf(q[..k - 1]);
      GateSnoc(c, w, txns, q[k - 1].txn, idx);
      ShadowChecksAreTheGate(c, q[k - 1], Lookup(GateTxns(c, w, txns, idx).work, q[k - 1].txn.sender), idx, |txns|);
    }
  }

  // So greedy selection skips nothing: it takes the front of the list until the block is full.
  lemma {:induction false} GreedyTakesFront(c: Crypto, w: Ledger, q: seq<Entry>, cb: Txn, i: nat, k: nat, idx: u64)
    requires GoodQueue(c, q) && AllFit(w, q) && i <= k && k == Min(|q|, MAX_TXNS_PER_BLOCK - 1)
    requires IsCoinbase(cb) && GateTxns(c, w, [cb], idx).reason == OK
    requires SumBalances(w) + Minted([cb]) + Total(SelfAmount, TxnsOf(q[..k])) < TWO64
    ensures Greedy(c, GateTxns(c, w, [cb] + TxnsOf(q[..i]), idx).work, q, i, [cb] + TxnsOf(q[..i]), idx) ==
            [cb] + TxnsOf(q[..k])
    decreases k - i
  {
    if i < k {
      SelfAmountPrefix(q, i, k);
      SelfAmountPrefix(q, i + 1, k);
      FrontAccepted(c, w, q, [cb], i, idx);
      FrontAccepted(c, w, q, [cb], i + 1, idx);
      FrontSnoc(q, [cb], i);
      GateSnoc(c, w, [cb] + TxnsOf(q[..i]), q[i].txn, idx);
      GreedyTakesFront(c, w, q, cb, i + 1, k, idx);
    }
  }

  lemma SelfAmountPrefix(q: seq<Entry>, i: nat, k: nat)
    requires i <= k <= |q|
    ensures Total(SelfAmount, TxnsOf(q[..i])) <= Total(SelfAmount, TxnsOf(q[..k]))
  {
    TotalPrefix(SelfAmount, TxnsOf(q[..k]), i);
    assert TxnsOf(q[..k])[..i] == TxnsOf(q[..i]);
  }

  lemma SnapshotTakesFront(c: Crypto, w: Ledger, q: seq<Entry>, miner: Address, height: u64)
    requires GoodQueue(c, q) && AllFit(w, q)
    requires SumBalances(w) + COINBASE_REWARD + Total(SelfAmount, TxnsOf(q)) < TWO64
    ensures GreedyTxns(c, w, q, miner, height) ==
            [CoinbaseTxn(miner, height)] + TxnsOf(q[..Min(|q|, MAX_TXNS_PER_BLOCK - 1)])
  {
    var cb, k := CoinbaseTxn(miner, height), Min(|q|, MAX_TXNS_PER_BLOCK - 1);
    CoinbaseAccepted(c, w, miner, height);
    assert [cb][..0] == [] && Minted([cb]) == COINBASE_REWARD;
    assert q[..|q|] == q;
    SelfAmountPrefix(q, k, |q|);
    assert [cb] + TxnsOf(q[..0]) == [cb];
    GreedyTakesFront(c, w, q, cb, 0, k, height);
  }
}
