/** Theorems about every run of the event loop. */
module NodeRuns {
  import opened Bytes
  import opened Wrappers
  import opened Canonical
  import opened Gate
  import opened Accounting
  import opened ChainModel
  import opened MempoolModel
  import opened Miner
  import opened CandidateModel
  import opened NodeModel
  import opened NodeLoop

  // ---- Room ----

  lemma RoomForBlock(cfg: Config, s: LoopState)
    requires WellConfigured(cfg) && Coherent(cfg.p, s.chain) && Conserved(s.chain.blocks, s.queue, s.log)
    requires Headroom(s)
    ensures SumBalances(s.chain.state) + COINBASE_REWARD + Total(SelfAmount, TxnsOf(s.queue)) < TWO64
  {
    MoneyBound(cfg, s.chain);
    TotalConcat(SelfAmount, Transfers(s.chain.blocks), TxnsOf(s.queue));
    assert Times(|s.chain.blocks|, COINBASE_REWARD) == Times(|s.chain.blocks| - 1, COINBASE_REWARD) + COINBASE_REWARD;
  }

  lemma StepGrows(cfg: Config, s: LoopState, step: Step)
    requires s.chain.blocks != []
    ensures |s.chain.blocks| <= |Next(cfg, s, step).chain.blocks| && s.log <= Next(cfg, s, step).log
  {
  }

  lemma HeadroomBefore(cfg: Config, s: LoopState, step: Step)
    requires s.chain.blocks != [] && Headroom(Next(cfg, s, step))
    ensures Headroom(s)
  {
    var n := Next(cfg, s, step);
    StepGrows(cfg, s, step);
    TimesMonotone(|s.chain.blocks|, |n.chain.blocks|, COINBASE_REWARD);
    assert n.log[..|s.log|] == s.log;
    TotalPrefix(SelfAmount, n.log, |s.log|);
  }

  lemma {:induction false} TickKeeps(cfg: Config, s: LoopState, now: u64)
    requires Inv(cfg, s)
    ensures Inv(cfg, Tick(s, now)) && Headroom(Tick(s, now)) == Headroom(s)
  {
    if s.work.Some? {
      assert InFlight(cfg, Tick(s, now), s.work.value);
    }
  }

  // ---- Admission keeps the invariant ----

  lemma AdmitKeepsQueue(cfg: Config, s: LoopState, t: Txn)
    requires Inv(cfg, s) && |s.log| + 1 < TWO64
    requires AdmitVerdict(cfg.p.crypto, s.queue, cfg.cap, t, Lookup(s.chain.state, t.sender)) == Admitted
    ensures var n := AdmitNext(cfg, s, t);
      && GoodPool(cfg.p.crypto, cfg.cap, n.queue, n.nextSeq)
      && n.booted + n.nextSeq == |n.log| && AllFit(n.chain.state, n.queue)
      && Conserved(n.chain.blocks, n.queue, n.log)
  {
    var e := Entry(t, cfg.p.crypto.txId(t), s.nextSeq);
    GoodAppend(cfg.p.crypto, s.queue, e);
    FitAppend(s.chain.state, s.queue, e);
    ConservedAppend(s.chain.blocks, s.queue, s.log, e);
  }

  lemma FitAppend(w: Ledger, q: seq<Entry>, e: Entry)
    requires AllFit(w, q) && Fits(w, e)
    ensures AllFit(w, q + [e])
  {
  }

  lemma ConservedAppend(blocks: seq<Block>, q: seq<Entry>, log: seq<Txn>, e: Entry)
    requires Conserved(blocks, q, log)
    ensures Conserved(blocks, q + [e], log + [e.txn])
  {
    KeysAppend(q, e);
    Assoc(Transfers(blocks), TxnsOf(q), [e.txn]);
  }

  lemma InFlightAfterAppend(cfg: Config, s: LoopState, n: LoopState, e: Entry, cand: Candidate)
    requires InFlight(cfg, s, cand) && n.chain == s.chain && n.queue == s.queue + [e]
    requires n.taken == s.taken && n.clock == s.clock
    ensures InFlight(cfg, n, cand)
  {
    var k := |cand.txns| - 1;
    assert n.queue[..k] == s.queue[..k];
  }

  lemma AdmitKeeps(cfg: Config, s: LoopState, t: Txn)
    requires Inv(cfg, s) && Headroom(AdmitNext(cfg, s, t))
    ensures Inv(cfg, AdmitNext(cfg, s, t))
  {
    var n := AdmitNext(cfg, s, t);
    if n != s {
      AdmitKeepsQueue(cfg, s, t);
      if s.work.Some? {
        InFlightAfterAppend(cfg, s, n, Entry(t, cfg.p.crypto.txId(t), s.nextSeq), s.work.value);
      }
    }
  }

  // ---- Snapshots ----

  lemma SnapshotInFlight(cfg: Config, s: LoopState, now: u64)
    requires WellConfigured(cfg) && Inv(cfg, s) && Headroom(s)
    ensures InFlight(cfg, Tick(s, now).(taken := now), SnapshotOf(cfg, s, now))
    ensures |SnapshotOf(cfg, s, now).txns| == 1 + Min(|s.queue|, MAX_TXNS_PER_BLOCK - 1)
  {
    var height := Wrap64(|s.chain.blocks|);
    RoomForBlock(cfg, s);
    SnapshotTakesFront(cfg.p.crypto, s.chain.state, s.queue, cfg.miner, height);
    CandidateTxnsAccepted(cfg.p.crypto, s.chain.state, s.queue, cfg.miner, height);
  }

  // ---- Blocks made of the front of the pending list ----

  ghost predicate FrontBlock(cfg: Config, s: LoopState, b: Block, pre: seq<Txn>, k: nat)
  {
    && k <= |s.queue| && b.txns == pre + TxnsOf(s.queue[..k]) && |pre| <= 1 && |b.txns| <= MAX_TXNS_PER_BLOCK
    && (forall i :: 0 <= i < |pre| ==> GoodCoinbase(pre[i], b.header.index))
    && GateTxns(cfg.p.crypto, s.chain.state, b.txns, b.header.index).reason == OK
  }

  lemma FrontTransfers(c: Crypto, q: seq<Entry>, pre: seq<Txn>, k: nat)
    requires GoodQueue(c, q) && k <= |q| && |pre| <= 1 && (forall i :: 0 <= i < |pre| ==> IsCoinbase(pre[i]))
    ensures NonCoinbase(pre + TxnsOf(q[..k])) == TxnsOf(q[..k])
  {
    NonCoinbaseConcat(pre, TxnsOf(q[..k]));
    PendingAreTransfers(c, q, k);
    NonCoinbaseOfTransfers(TxnsOf(q[..k]));
    assert |pre| == 1 ==> pre[..0] == [];
    assert NonCoinbase(pre) == [];
  }

  lemma TransfersSnoc(blocks: seq<Block>, b: Block)
    requires blocks != []
    ensures Transfers(blocks + [b]) == Transfers(blocks) + NonCoinbase(b.txns)
  {
    assert (blocks + [b])[..|blocks|] == blocks;
  }

  lemma QueueRest(c: Crypto, q: seq<Entry>, k: nat, next: int)
    requires GoodQueue(c, q) && k <= |q| && Below(q, next)
    ensures GoodQueue(c, q[k..]) && Below(q[k..], next)
  {
    EvictGood(c, q, TxnsOf(q[..k]));
    EvictFront(c, q, k);
  }

  lemma CoinbaseMint(pre: seq<Txn>, idx: u64)
    requires |pre| <= 1 && (forall i :: 0 <= i < |pre| ==> GoodCoinbase(pre[i], idx))
    ensures Minted(pre) <= COINBASE_REWARD && (forall i :: 0 <= i < |pre| ==> IsCoinbase(pre[i]))
  {
    assert |pre| == 1 ==> pre[..0] == [];
  }

  lemma RestFits(c: Crypto, w: Ledger, q: seq<Entry>, pre: seq<Txn>, k: nat, idx: u64)
    requires GoodQueue(c, q) && AllFit(w, q) && k <= |q| && (forall i :: 0 <= i < |pre| ==> IsCoinbase(pre[i]))
    requires GateTxns(c, w, pre + TxnsOf(q[..k]), idx).reason == OK
    requires SumBalances(w) + Minted(pre) + Total(SelfAmount, TxnsOf(q[..k])) < TWO64
    ensures AllFit(GateTxns(c, w, pre + TxnsOf(q[..k]), idx).work, q[k..])
  {
    var w' := GateTxns(c, w, pre + TxnsOf(q[..k]), idx).work;
    forall j | k <= j < |q| ensures Fits(w', q[j]) {
      LaterStillFits(c, w, q, pre, k, j, idx);
    }
    FitDrop(w', q, k);
  }

  lemma FitDrop(w: Ledger, q: seq<Entry>, k: nat)
    requires k <= |q| && forall j :: k <= j < |q| ==> Fits(w, q[j])
    ensures AllFit(w, q[k..])
  {
  }

  lemma RoomForFront(cfg: Config, s: LoopState, pre: seq<Txn>, k: nat, idx: u64)
    requires WellConfigured(cfg) && Inv(cfg, s) && Headroom(s) && k <= |s.queue|
    requires |pre| <= 1 && (forall i :: 0 <= i < |pre| ==> GoodCoinbase(pre[i], idx))
    ensures SumBalances(s.chain.state) + Minted(pre) + Total(SelfAmount, TxnsOf(s.queue[..k])) < TWO64
  {
    RoomForBlock(cfg, s);
    CoinbaseMint(pre, idx);
    assert s.queue[..|s.queue|] == s.queue;
    SelfAmountPrefix(s.queue, k, |s.queue|);
  }

  // The state after such a block was connected and its transfers were evicted.
  function AfterFront(cfg: Config, s: LoopState, b: Block, k: nat, now: u64): LoopState
    requires s.chain.blocks != [] && k <= |s.queue|
  {
    s.(work := None, chain := Connect(cfg.p, s.chain, b, now).chain, queue := s.queue[k..])
  }

  lemma FrontConserves(c: Crypto, blocks: seq<Block>, q: seq<Entry>, log: seq<Txn>, b: Block, pre: seq<Txn>,
                       k: nat)
    requires GoodQueue(c, q) && k <= |q| && blocks != [] && Conserved(blocks, q, log)
    requires |pre| <= 1 && (forall i :: 0 <= i < |pre| ==> IsCoinbase(pre[i])) && b.txns == pre + TxnsOf(q[..k])
    ensures Conserved(blocks + [b], q[k..], log)
    ensures Transfers(blocks + [b]) == Transfers(blocks) + TxnsOf(q[..k])
  {
    FrontTransfers(c, q, pre, k);
    TransfersSnoc(blocks, b);
    TxnsSplit(q, k);
    Assoc(Transfers(blocks), TxnsOf(q[..k]), TxnsOf(q[k..]));
  }

  lemma TxnsSplit(q: seq<Entry>, k: nat)
    requires k <= |q|
    ensures TxnsOf(q) == TxnsOf(q[..k]) + TxnsOf(q[k..])
  {
  }

  lemma FrontBlockKeeps(cfg: Config, s: LoopState, b: Block, pre: seq<Txn>, k: nat, now: u64)
    requires WellConfigured(cfg) && Inv(cfg, s) && Headroom(s) && FrontBlock(cfg, s, b, pre, k)
    requires Connect(cfg.p, s.chain, b, now).reason == OK
    ensures Inv(cfg, AfterFront(cfg, s, b, k, now))
  {
    ConnectKeepsCoherent(cfg.p, s.chain, b, now);
    ConnectedFields(cfg.p, s.chain, b, now);
    CoinbaseMint(pre, b.header.index);
    RoomForFront(cfg, s, pre, k, b.header.index);
    RestFits(cfg.p.crypto, s.chain.state, s.queue, pre, k, b.header.index);
    FrontConserves(cfg.p.crypto, s.chain.blocks, s.queue, s.log, b, pre, k);
    QueueRest(cfg.p.crypto, s.queue, k, s.nextSeq);
  }

  // ---- Commits ----

  predicate InWindow(s: LoopState, time: u64, now: u64)
    requires s.chain.blocks != []
  {
    Tip(s.chain.blocks).timestamp < time <= Wrap64(now + MAX_CLOCK_SKEW_S)
  }

  lemma MinedIsFront(cfg: Config, s: LoopState, k: nat)
    requires Inv(cfg, s) && s.work.Some?
    ensures var cand := s.work.value;
      FrontBlock(cfg, s, MinedBlock(cand, k), [CoinbaseTxn(cfg.miner, cand.hdr.index)], |cand.txns| - 1)
  {
  }

  lemma {:induction false} MinedConnectsExactly(cfg: Config, s: LoopState, k: nat, now: u64)
    requires Inv(cfg, s) && s.work.Some? && Solves(cfg.p, s.work.value.hdr, k)
    ensures var b := MinedBlock(s.work.value, k);
      Connect(cfg.p, s.chain, b, now).reason == OK <==> InWindow(s, b.header.timestamp, now)
  {
    var b := MinedBlock(s.work.value, k);
    assert b.txns[0] == CoinbaseTxn(cfg.miner, b.header.index);
    ConnectAcceptsExactly(cfg.p, s.chain, b, now);
  }

  lemma {:induction false} CommitTakesFront(cfg: Config, s: LoopState, k: nat, now: u64)
    requires Inv(cfg, s) && s.work.Some? && Solves(cfg.p, s.work.value.hdr, k)
    ensures var b := MinedBlock(s.work.value, k);
      CommitNext(cfg, s, b, now) ==
      if InWindow(s, b.header.timestamp, now) then AfterFront(cfg, s, b, |b.txns| - 1, now) else s.(work := None)
  {
    var b := MinedBlock(s.work.value, k);
    MinedConnectsExactly(cfg, s, k, now);
    var m := |b.txns| - 1;
    EvictFront(cfg.p.crypto, s.queue, m);
    assert b.txns[1..] == TxnsOf(s.queue[..m]);
    assert m == 0 ==> s.queue[m..] == s.queue;
  }

  // A mined block is committed exactly when its timestamp is in the window: the tip has not moved, nothing
  // in it has gone stale, and its transfers are the front of the pending list.
  lemma {:induction false} CommitOutcome(cfg: Config, s: LoopState, k: nat, now: u64)
    requires Inv(cfg, s) && s.work.Some? && Solves(cfg.p, s.work.value.hdr, k)
    ensures var b := MinedBlock(s.work.value, k);
      Next(cfg, s, CommitMined(k, now)) ==
      if InWindow(s, b.header.timestamp, now) then AfterFront(cfg, Tick(s, now), b, |b.txns| - 1, now)
      else Tick(s, now).(work := None)
  {
    TickKeeps(cfg, s, now);
    CommitTakesFront(cfg, Tick(s, now), k, now);
  }

  // The time of a candidate that was started no later than now is in the window exactly when the tip is not
  // at the edge of the clock's bound.
  lemma StartInWindow(tipTime: u64, taken: u64, now: u64)
    requires taken <= now && now + MAX_CLOCK_SKEW_S < TWO64
    ensures tipTime < StartTime(tipTime, taken) <= Wrap64(now + MAX_CLOCK_SKEW_S) <==> tipTime < now + MAX_CLOCK_SKEW_S
  {
  }

  predicate ClockAllows(s: LoopState, now: u64)
    requires s.chain.blocks != []
  {
    now + MAX_CLOCK_SKEW_S < TWO64 && Tip(s.chain.blocks).timestamp < now + MAX_CLOCK_SKEW_S
  }

  // The search ended within the first timestamp's nonces.
  predicate FirstTime(k: nat) { k < 0x1_0000_0000_0000_0000 }

  lemma FirstTimeIsStart(start: u64, k: nat)
    requires FirstTime(k)
    ensures TimeAt(start, k) == start
  {
  }

  // So with a clock that never goes back a search that ends within the first timestamp always leads to a
  // commit, unless the tip is at the edge of the clock's bound.
  lemma {:induction false} CommitSucceedsExactly(cfg: Config, s: LoopState, k: nat, now: u64)
    requires Inv(cfg, s) && s.work.Some? && Solves(cfg.p, s.work.value.hdr, k) && FirstTime(k)
    requires s.clock <= now && now + MAX_CLOCK_SKEW_S < TWO64
    ensures var n := Next(cfg, s, CommitMined(k, now));
      && (Height(n) == Height(s) + 1 <==> ClockAllows(s, now))
      && (Height(n) == Height(s) <==> !ClockAllows(s, now))
  {
    var b := MinedBlock(s.work.value, k);
    CommitOutcome(cfg, s, k, now);
    MinedConnectsExactly(cfg, s, k, now);
    FirstTimeIsStart(s.work.value.hdr.timestamp, k);
    StartInWindow(Tip(s.chain.blocks).timestamp, s.taken, now);
    if InWindow(s, b.header.timestamp, now) {
      ConnectedFields(cfg.p, s.chain, b, now);
    }
  }

  // ---- Seals ----

  lemma BatchIsFront(cfg: Config, s: LoopState, now: u64)
    requires WellConfigured(cfg) && Inv(cfg, s) && Headroom(s)
    ensures FrontBlock(cfg, s, SealedBlock(cfg.p, s.chain.blocks, Batch(s), now), [],
                       Min(|s.queue|, MAX_TXNS_PER_BLOCK))
  {
    var k := Min(|s.queue|, MAX_TXNS_PER_BLOCK);
    BatchAccepted(cfg, s, k, Wrap64(|s.chain.blocks|));
    NothingBefore(TxnsOf(s.queue[..k]));
  }

  lemma BatchAccepted(cfg: Config, s: LoopState, k: nat, idx: u64)
    requires WellConfigured(cfg) && Inv(cfg, s) && Headroom(s) && k <= |s.queue|
    ensures GateTxns(cfg.p.crypto, s.chain.state, TxnsOf(s.queue[..k]), idx).reason == OK
  {
    RoomForFront(cfg, s, [], k, idx);
    NothingBefore(TxnsOf(s.queue[..k]));
    FrontAccepted(cfg.p.crypto, s.chain.state, s.queue, [], k, idx);
  }

  lemma {:induction false} SealConnectsExactly(cfg: Config, s: LoopState, now: u64)
    requires WellConfigured(cfg) && Inv(cfg, s) && Headroom(s) && cfg.p.difficulty == 0
    ensures Connect(cfg.p, s.chain, SealedBlock(cfg.p, s.chain.blocks, Batch(s), now), now).reason == OK <==>
            ClockAllows(s, now)
  {
    BatchIsFront(cfg, s, now);
    CandidateTimeInWindow(Tip(s.chain.blocks).timestamp, now);
    ConnectAcceptsExactly(cfg.p, s.chain, SealedBlock(cfg.p, s.chain.blocks, Batch(s), now), now);
  }

  // A seal succeeds exactly when the tip is not at the edge of the clock's bound, and takes the front of
  // the pending list.
  lemma {:induction false} SealOutcome(cfg: Config, s: LoopState, now: u64)
    requires WellConfigured(cfg) && Inv(cfg, s) && Headroom(s) && cfg.p.difficulty == 0
    ensures Next(cfg, s, SealTick(now)) ==
            if ClockAllows(s, now) then
              AfterFront(cfg, Tick(s, now), SealedBlock(cfg.p, s.chain.blocks, Batch(s), now),
                         Min(|s.queue|, MAX_TXNS_PER_BLOCK), now)
            else Tick(s, now)
  {
    TickKeeps(cfg, s, now);
    SealNextOutcome(cfg, Tick(s, now), now);
    SealIsNext(cfg, s, now);
  }

  lemma {:induction false} SealNextOutcome(cfg: Config, s: LoopState, now: u64)
    requires WellConfigured(cfg) && Inv(cfg, s) && Headroom(s) && cfg.p.difficulty == 0
    ensures SealNext(cfg, s, now) ==
            if ClockAllows(s, now) then
              AfterFront(cfg, s, SealedBlock(cfg.p, s.chain.blocks, Batch(s), now),
                         Min(|s.queue|, MAX_TXNS_PER_BLOCK), now)
            else s
  {
    SealConnectsExactly(cfg, s, now);
    SealTakesFront(cfg, s, now);
  }

  lemma {:induction false} SealTakesFront(cfg: Config, s: LoopState, now: u64)
    requires s.chain.blocks != [] && s.work.None? && GoodQueue(cfg.p.crypto, s.queue)
    ensures var b := SealedBlock(cfg.p, s.chain.blocks, Batch(s), now);
      SealNext(cfg, s, now) ==
      if Connect(cfg.p, s.chain, b, now).reason == OK then
        AfterFront(cfg, s, b, Min(|s.queue|, MAX_TXNS_PER_BLOCK), now)
      else s
  {
    EvictFront(cfg.p.crypto, s.queue, Min(|s.queue|, MAX_TXNS_PER_BLOCK));
  }

  // ---- The whole-run theorem ----

  lemma {:induction false} StepKeeps(cfg: Config, s: LoopState, step: Step)
    requires WellConfigured(cfg) && Inv(cfg, s) && Headroom(Next(cfg, s, step))
    ensures Inv(cfg, Next(cfg, s, step))
  {
    HeadroomBefore(cfg, s, step);
    match step
    case Admit(t) => AdmitKeeps(cfg, s, t);
    case Snapshot(now) => SnapshotInFlight(cfg, s, now);
    case GiveUp =>
    case CommitMined(k, now) => CommitKeeps(cfg, s, k, now);
    case SealTick(now) => SealKeeps(cfg, s, now);
  }

  lemma {:induction false} CommitKeeps(cfg: Config, s: LoopState, k: nat, now: u64)
    requires WellConfigured(cfg) && Inv(cfg, s) && Headroom(s)
    ensures Inv(cfg, Next(cfg, s, CommitMined(k, now)))
  {
    if s.work.Some? && Solves(cfg.p, s.work.value.hdr, k) {
      TickKeeps(cfg, s, now);
      CommitNextKeeps(cfg, Tick(s, now), k, now);
    }
  }

  lemma {:induction false} CommitNextKeeps(cfg: Config, s: LoopState, k: nat, now: u64)
    requires WellConfigured(cfg) && Inv(cfg, s) && Headroom(s)
    requires s.work.Some? && Solves(cfg.p, s.work.value.hdr, k)
    ensures Inv(cfg, CommitNext(cfg, s, MinedBlock(s.work.value, k), now))
  {
    var b := MinedBlock(s.work.value, k);
    CommitTakesFront(cfg, s, k, now);
    if InWindow(s, b.header.timestamp, now) {
      MinedConnectsExactly(cfg, s, k, now);
      MinedIsFront(cfg, s, k);
      FrontBlockKeeps(cfg, s, b, [CoinbaseTxn(cfg.miner, b.header.index)], |b.txns| - 1, now);
    } else {
      IdleKeeps(cfg, s);
    }
  }

  lemma IdleKeeps(cfg: Config, s: LoopState)
    requires Inv(cfg, s)
    ensures Inv(cfg, s.(work := None))
  {
  }

  lemma {:induction false} SealKeeps(cfg: Config, s: LoopState, now: u64)
    requires WellConfigured(cfg) && Inv(cfg, s) && Headroom(s)
    ensures Inv(cfg, Next(cfg, s, SealTick(now)))
  {
    if cfg.p.difficulty == 0 {
      TickKeeps(cfg, s, now);
      SealNextKeeps(cfg, Tick(s, now), now);
      SealIsNext(cfg, s, now);
    }
  }

  lemma SealIsNext(cfg: Config, s: LoopState, now: u64)
    requires s.chain.blocks != [] && cfg.p.difficulty == 0
    ensures Next(cfg, s, SealTick(now)) == SealNext(cfg, Tick(s, now), now)
  {
  }

  lemma {:induction false} SealNextKeeps(cfg: Config, s: LoopState, now: u64)
    requires WellConfigured(cfg) && Inv(cfg, s) && Headroom(s) && cfg.p.difficulty == 0
    ensures Inv(cfg, SealNext(cfg, s, now))
  {
    SealTakesFront(cfg, s, now);
    SealConnectsExactly(cfg, s, now);
    if ClockAllows(s, now) {
      BatchIsFront(cfg, s, now);
      FrontBlockKeeps(cfg, s, SealedBlock(cfg.p, s.chain.blocks, Batch(s), now), [],
                      Min(|s.queue|, MAX_TXNS_PER_BLOCK), now);
    }
  }

  // Under any interleaving, from any good state, as long as the money and the admissions stay countable.
  lemma {:induction false} RunKeeps(cfg: Config, s: LoopState, steps: seq<Step>)
    requires WellConfigured(cfg) && Inv(cfg, s) && Headroom(RunFrom(cfg, s, steps))
    ensures Inv(cfg, RunFrom(cfg, s, steps))
  {
    if steps != [] {
      var mid := RunFrom(cfg, s, steps[..|steps| - 1]);
      HeadroomBefore(cfg, mid, steps[|steps| - 1]);
      RunKeeps(cfg, s, steps[..|steps| - 1]);
      StepKeeps(cfg, mid, steps[|steps| - 1]);
    }
  }

  lemma BootedInv(cfg: Config, chain: ChainState, now: u64)
    requires Coherent(cfg.p, chain)
    ensures Inv(cfg, BootedLoop(chain, now))
  {
    assert TxnsOf([]) == [];
    assert Transfers(chain.blocks) + [] == Transfers(chain.blocks);
  }

  // A run starts from whatever boot brought up: a fresh chain, or one that earlier runs left on file.
  lemma EveryRunKeeps(cfg: Config, file: ChainFile, now: u64, appendOk: bool, chain: ChainState, stored: seq<Block>,
                      steps: seq<Step>)
    requires WellConfigured(cfg) && Booted(cfg.p, file, now, appendOk, Up, chain, stored)
    requires chain.blocks != [] && Headroom(RunFrom(cfg, BootedLoop(chain, now), steps))
    ensures Inv(cfg, RunFrom(cfg, BootedLoop(chain, now), steps))
  {
    BootIsCoherent(cfg.p, file, now, appendOk, chain, stored);
    BootedInv(cfg, chain, now);
    RunKeeps(cfg, BootedLoop(chain, now), steps);
  }

  // ---- First in, first out ----

  // How many pending transfers n more blocks must have taken.
  function Due(cfg: Config, n: int): nat
  {
    if n <= 0 then 0 else if cfg.p.difficulty > 0 then 7 * n else 8 * n
  }

  function TransferCount(s: LoopState): nat { |Transfers(s.chain.blocks)| }

  // The blocks committed since s0, not counting one in flight at s0.
  function Beyond(s0: LoopState, s: LoopState): int
  {
    Height(s) - Height(s0) - if s0.work.Some? then 1 else 0
  }

  // Measured against an earlier state s0: every block beyond the one in flight at s0 took its due from the
  // front of what was pending then, and the candidate in flight will.
  ghost predicate OnSchedule(cfg: Config, s0: LoopState, s: LoopState)
  {
    var n := Beyond(s0, s);
    && Height(s) >= Height(s0) && s0.log <= s.log
    && TransferCount(s) >= TransferCount(s0) + Min(Due(cfg, n), |s0.queue|)
    && (s.work.Some? ==>
          TransferCount(s) + |s.work.value.txns| - 1 >= TransferCount(s0) + Min(Due(cfg, n + 1), |s0.queue|))
  }

  lemma FrontCounts(cfg: Config, s: LoopState, b: Block, pre: seq<Txn>, k: nat, now: u64)
    requires Inv(cfg, s) && FrontBlock(cfg, s, b, pre, k) && Connect(cfg.p, s.chain, b, now).reason == OK
    ensures TransferCount(AfterFront(cfg, s, b, k, now)) == TransferCount(s) + k
    ensures Height(AfterFront(cfg, s, b, k, now)) == Height(s) + 1
  {
    ConnectedFields(cfg.p, s.chain, b, now);
    CoinbaseMint(pre, b.header.index);
    FrontConserves(cfg.p.crypto, s.chain.blocks, s.queue, s.log, b, pre, k);
  }

  lemma CountsAdmitted(cfg: Config, s: LoopState)
    requires Inv(cfg, s)
    ensures TransferCount(s) + |s.queue| == |s.log|
  {
  }

  lemma {:induction false} ScheduleCommit(cfg: Config, s0: LoopState, s: LoopState, k: nat, now: u64)
    requires Inv(cfg, s) && OnSchedule(cfg, s0, s)
    ensures OnSchedule(cfg, s0, Next(cfg, s, CommitMined(k, now)))
  {
    if s.work.Some? && Solves(cfg.p, s.work.value.hdr, k) {
      CommitCounts(cfg, s, k, now);
      CommitOnSchedule(cfg, s0, s, Next(cfg, s, CommitMined(k, now)));
    }
  }

  lemma {:induction false} CommitCounts(cfg: Config, s: LoopState, k: nat, now: u64)
    requires Inv(cfg, s) && s.work.Some? && Solves(cfg.p, s.work.value.hdr, k)
    ensures var n := Next(cfg, s, CommitMined(k, now));
      && n.work == None && n.log == s.log
      && if InWindow(s, MinedBlock(s.work.value, k).header.timestamp, now) then
           TransferCount(n) == TransferCount(s) + |s.work.value.txns| - 1 && Height(n) == Height(s) + 1
         else TransferCount(n) == TransferCount(s) && Height(n) == Height(s)
  {
    var b := MinedBlock(s.work.value, k);
    CommitOutcome(cfg, s, k, now);
    if InWindow(s, b.header.timestamp, now) {
      TickKeeps(cfg, s, now);
      MinedConnectsExactly(cfg, Tick(s, now), k, now);
      MinedIsFront(cfg, Tick(s, now), k);
      FrontCounts(cfg, Tick(s, now), b, [CoinbaseTxn(cfg.miner, b.header.index)], |b.txns| - 1, now);
    }
  }

  lemma CommitOnSchedule(cfg: Config, s0: LoopState, s: LoopState, n: LoopState)
    requires OnSchedule(cfg, s0, s) && s.work.Some? && n.work.None? && n.log == s.log
    requires || (TransferCount(n) == TransferCount(s) + |s.work.value.txns| - 1 && Height(n) == Height(s) + 1)
             || (TransferCount(n) == TransferCount(s) && Height(n) == Height(s))
    ensures OnSchedule(cfg, s0, n)
  {
  }

  // A block that takes all there is, or its full share, keeps the schedule.
  lemma TakeShare(taken0: nat, pending0: nat, taken: nat, pending: nat, due: nat, share: nat)
    requires taken0 + pending0 <= taken + pending && taken >= taken0 + Min(due, pending0)
    ensures taken + Min(pending, share) >= taken0 + Min(due + share, pending0)
  {
  }

  lemma DueStep(cfg: Config, n: int)
    ensures Due(cfg, n + 1) <= Due(cfg, n) + if cfg.p.difficulty > 0 then 7 else 8
  {
  }

  lemma {:induction false} ScheduleSeal(cfg: Config, s0: LoopState, s: LoopState, now: u64)
    requires WellConfigured(cfg) && Inv(cfg, s) && Headroom(s) && OnSchedule(cfg, s0, s)
    requires TransferCount(s0) + |s0.queue| == |s0.log|
    ensures OnSchedule(cfg, s0, Next(cfg, s, SealTick(now)))
  {
    if cfg.p.difficulty == 0 {
      CountsAdmitted(cfg, s);
      SealCounts(cfg, s, now);
      SealOnSchedule(cfg, s0, s, Next(cfg, s, SealTick(now)));
    }
  }

  lemma SealOnSchedule(cfg: Config, s0: LoopState, s: LoopState, n: LoopState)
    requires OnSchedule(cfg, s0, s) && cfg.p.difficulty == 0 && n.work.None? && n.log == s.log
    requires TransferCount(s0) + |s0.queue| == |s0.log| && TransferCount(s) + |s.queue| == |s.log|
    requires || (TransferCount(n) == TransferCount(s) + Min(|s.queue|, 8) && Height(n) == Height(s) + 1)
             || (TransferCount(n) == TransferCount(s) && Height(n) == Height(s))
    ensures OnSchedule(cfg, s0, n)
  {
    var k := Beyond(s0, s);
    DueStep(cfg, k);
    TakeShare(TransferCount(s0), |s0.queue|, TransferCount(s), |s.queue|, Due(cfg, k), 8);
  }

  lemma {:induction false} SealCounts(cfg: Config, s: LoopState, now: u64)
    requires WellConfigured(cfg) && Inv(cfg, s) && Headroom(s) && cfg.p.difficulty == 0
    ensures var n := Next(cfg, s, SealTick(now));
      && n.work == None && n.log == s.log
      && if ClockAllows(s, now) then
           TransferCount(n) == TransferCount(s) + Min(|s.queue|, 8) && Height(n) == Height(s) + 1
         else n == Tick(s, now)
  {
    TickKeeps(cfg, s, now);
    SealOutcome(cfg, s, now);
    SealConnectsExactly(cfg, Tick(s, now), now);
    BatchIsFront(cfg, Tick(s, now), now);
    if ClockAllows(s, now) {
      FrontCounts(cfg, Tick(s, now), SealedBlock(cfg.p, s.chain.blocks, Batch(s), now), [],
                  Min(|s.queue|, MAX_TXNS_PER_BLOCK), now);
    }
  }

  lemma SnapshotCounts(cfg: Config, s: LoopState, now: u64)
    requires WellConfigured(cfg) && Inv(cfg, s) && Headroom(s) && cfg.p.difficulty > 0 && s.work.None?
    ensures var n := Next(cfg, s, Snapshot(now));
      n.work.Some? && |n.work.value.txns| - 1 == Min(|s.queue|, 7) && n == Tick(s, now).(work := n.work, taken := now)
  {
    SnapshotInFlight(cfg, s, now);
  }

  lemma {:induction false} ScheduleSnapshot(cfg: Config, s0: LoopState, s: LoopState, now: u64)
    requires WellConfigured(cfg) && Inv(cfg, s) && Headroom(s) && OnSchedule(cfg, s0, s)
    requires TransferCount(s0) + |s0.queue| == |s0.log|
    ensures OnSchedule(cfg, s0, Next(cfg, s, Snapshot(now)))
  {
    if cfg.p.difficulty > 0 && s.work.None? {
      CountsAdmitted(cfg, s);
      SnapshotCounts(cfg, s, now);
      SnapshotOnSchedule(cfg, s0, s, Next(cfg, s, Snapshot(now)));
    }
  }

  lemma SnapshotOnSchedule(cfg: Config, s0: LoopState, s: LoopState, n: LoopState)
    requires OnSchedule(cfg, s0, s) && cfg.p.difficulty > 0 && n.log == s.log && n.chain == s.chain
    requires TransferCount(s0) + |s0.queue| == |s0.log| && TransferCount(s) + |s.queue| == |s.log|
    requires n.work.Some? && |n.work.value.txns| - 1 == Min(|s.queue|, 7)
    ensures OnSchedule(cfg, s0, n)
  {
    var k := Beyond(s0, s);
    DueStep(cfg, k);
    TakeShare(TransferCount(s0), |s0.queue|, TransferCount(s), |s.queue|, Due(cfg, k), 7);
  }

  lemma {:induction false} ScheduleStep(cfg: Config, s0: LoopState, s: LoopState, step: Step)
    requires WellConfigured(cfg) && Inv(cfg, s) && Headroom(s) && OnSchedule(cfg, s0, s)
    requires TransferCount(s0) + |s0.queue| == |s0.log|
    ensures OnSchedule(cfg, s0, Next(cfg, s, step))
  {
    match step
    case Admit(t) =>
    case Snapshot(now) => ScheduleSnapshot(cfg, s0, s, now);
    case GiveUp =>
    case CommitMined(k, now) => ScheduleCommit(cfg, s0, s, k, now);
    case SealTick(now) => ScheduleSeal(cfg, s0, s, now);
  }

  lemma {:induction false} RunOnSchedule(cfg: Config, s0: LoopState, steps: seq<Step>)
    requires WellConfigured(cfg) && Inv(cfg, s0) && Headroom(RunFrom(cfg, s0, steps))
    ensures OnSchedule(cfg, s0, RunFrom(cfg, s0, steps))
  {
    if steps != [] {
      var init := steps[..|steps| - 1];
      var mid := RunFrom(cfg, s0, init);
      HeadroomBefore(cfg, mid, steps[|steps| - 1]);
      RunKeeps(cfg, s0, init);
      RunOnSchedule(cfg, s0, init);
      CountsAdmitted(cfg, s0);
      ScheduleStep(cfg, s0, mid, steps[|steps| - 1]);
    }
  }

  // Where an admission is found.
  lemma LogAt(blocks: seq<Block>, q: seq<Entry>, log: seq<Txn>, at: nat)
    requires Conserved(blocks, q, log) && at < |log|
    ensures log[at] == if at < |Transfers(blocks)| then Transfers(blocks)[at] else q[at - |Transfers(blocks)|].txn
  {
  }

  lemma Reached(cfg: Config, s0: LoopState, s: LoopState, i: nat)
    requires OnSchedule(cfg, s0, s) && i < |s0.queue|
    requires Conserved(s0.chain.blocks, s0.queue, s0.log) && Conserved(s.chain.blocks, s.queue, s.log)
    requires i < Due(cfg, Beyond(s0, s))
    ensures TransferCount(s0) + i < TransferCount(s)
    ensures Transfers(s.chain.blocks)[TransferCount(s0) + i] == s0.queue[i].txn
  {
    LogAt(s0.chain.blocks, s0.queue, s0.log, TransferCount(s0) + i);
    LogAt(s.chain.blocks, s.queue, s.log, TransferCount(s0) + i);
  }

  // The entry at position i of the pending list is on the chain, at its place in the order of admission,
  // as soon as enough blocks were committed: seven transfers a mined block, eight a seal, not counting a
  // block whose candidate was already in flight.
  lemma FirstInFirstOut(cfg: Config, s0: LoopState, steps: seq<Step>, i: nat, s: LoopState)
    requires WellConfigured(cfg) && Inv(cfg, s0) && s == RunFrom(cfg, s0, steps) && Headroom(s)
    requires i < |s0.queue| && i < Due(cfg, Beyond(s0, s))
    ensures TransferCount(s0) + i < TransferCount(s)
    ensures Transfers(s.chain.blocks)[TransferCount(s0) + i] == s0.queue[i].txn
  {
    RunKeeps(cfg, s0, steps);
    RunOnSchedule(cfg, s0, steps);
    Reached(cfg, s0, s, i);
  }
}
