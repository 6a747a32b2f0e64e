/** The event loop itself: its critical sections on the shared node and pending set. */
module EventLoopModel {
  import opened Bytes
  import opened Wrappers
  import opened Canonical
  import opened Gate
  import opened ChainModel
  import opened MempoolModel
  import opened Miner
  import opened CandidateModel
  import opened NodeModel
  import opened NodeLoop
  import opened NodeRuns

  function AccountsOf(w: Ledger): (f: Address -> Account)
    ensures forall a: Address :: f(a) == Lookup(w, a)
  {
    (a: Address) => Lookup(w, a)
  }

  class EventLoop {
    const cfg: Config
    const nd: Node
    const mp: Mempool
    var work: Option<Candidate>
    ghost var taken: u64
    ghost var clock: u64
    ghost var booted: nat
    ghost var log: seq<Txn>

    ghost predicate Wired()
      reads this, nd, nd.chain, mp
    {
      && nd.Valid() && nd.p == cfg.p
      && mp.Valid() && mp.c == cfg.p.crypto && mp.cap == cfg.cap
    }

    ghost function View(): LoopState
      reads this, nd, nd.chain, mp
    {
      LoopState(nd.chain.View(), mp.queue, mp.nextSeq, work, taken, clock, booted, log)
    }

    // What is on file is what the chain serves, as long as no append failed.
    ghost predicate OnFile()
      reads this, nd, nd.chain
    {
      nd.stored == nd.chain.blocks
    }

    // The loop starts on a node that has booted.
    constructor (cfg: Config, nd: Node, ghost now: u64)
      requires nd.Valid() && nd.p == cfg.p
      ensures fresh(mp) && this.cfg == cfg && this.nd == nd
      ensures Wired() && View() == BootedLoop(nd.chain.View(), now)
    {
      this.cfg := cfg;
      this.nd := nd;
      mp := new Mempool(cfg.p.crypto, cfg.cap);
      work := None;
      taken := 0;
      clock := now;
      booted := |Transfers(nd.chain.blocks)|;
      log := Transfers(nd.chain.blocks);
    }

    // Start of the program: boot, refuse to run on a chain that fails, else enter the loop. What is served is
    // then what is on file, as long as a first genesis block could be written.
    static method Start(cfg: Config, file: ChainFile, now: u64, appendOk: bool)
      returns (out: BootResult, loop: EventLoop?)
      ensures out == Up <==> loop != null
      ensures loop != null ==>
        && fresh(loop) && fresh(loop.nd) && fresh(loop.nd.chain) && fresh(loop.mp) && loop.cfg == cfg && loop.Wired()
        && Booted(cfg.p, file, now, appendOk, Up, loop.nd.chain.View(), loop.nd.stored)
        && loop.View() == BootedLoop(loop.nd.chain.View(), now) && Inv(cfg, loop.View())
        && (appendOk || (file.Readable? && file.blocks != []) ==> loop.OnFile())
    {
      var nd := new Node(cfg.p, if file.Readable? then file.blocks else []);
      out := nd.Boot(file, now, appendOk);
      if out != Up {
        return out, null;
      }
      BootIsCoherent(cfg.p, file, now, appendOk, nd.chain.View(), nd.stored);
      BootedInv(cfg, nd.chain.View(), now);
      loop := new EventLoop(cfg, nd, now);
    }

    // A request of the RPC thread. Only the 2^64-th admission, where the sequence counter wraps, is not
    // covered.
    method Admit(t: Txn) returns (r: AdmitResult)
      requires Wired() && mp.nextSeq < TWO64 - 1
      modifies this`log, mp
      ensures Wired() && View() == Next(cfg, old(View()), Step.Admit(t))
      ensures r == AdmitVerdict(cfg.p.crypto, old(mp.queue), cfg.cap, t, Lookup(nd.chain.state, t.sender))
    {
      ghost var s := View();
      log := AdmitNext(cfg, s, t).log;
      r := mp.Admit(t, AccountsOf(nd.chain.state));
    }

    // Proof of work: copy the tip and the pending set into a candidate.
    method Snapshot(now: u64)
      requires Wired() && cfg.p.difficulty > 0 && work.None?
      modifies this`work, this`taken, this`clock
      ensures Wired() && View() == Next(cfg, old(View()), Step.Snapshot(now))
    {
      taken, clock := now, Tick(View(), now).clock;
      var chain := nd.chain;
      var tip := chain.blocks[|chain.blocks| - 1].header;
      WrapWrap(|chain.blocks| - 1, 1);
      var cand := BuildCandidate(cfg.p.crypto, cfg.miner, chain.Height(), chain.TipHash(), tip.timestamp, now, mp,
                                 AccountsOf(chain.state), chain.state);
      work := Some(cand);
    }

    // The search ended with a block; it is committed only if the tip has not moved, and its transfers are
    // then evicted.
    method Commit(mined: Block, ghost k: nat, now: u64, appendOk: bool) returns (committed: bool)
      requires Wired() && work.Some? && Solves(cfg.p, work.value.hdr, k) && mined == MinedBlock(work.value, k)
      requires |mined.txns| > 0 && NoClash(cfg.p.crypto, mp.queue, mined.txns[1..])
      modifies this`work, this`clock, nd`stored, nd.chain, mp
      ensures Wired() && View() == Next(cfg, old(View()), CommitMined(k, now))
      ensures appendOk && old(OnFile()) ==> OnFile()
    {
      clock := Tick(View(), now).clock;
      committed := CommitIfUnmoved(mined, now, appendOk);
    }

    method CommitIfUnmoved(mined: Block, now: u64, appendOk: bool) returns (committed: bool)
      requires Wired() && |mined.txns| > 0 && NoClash(cfg.p.crypto, mp.queue, mined.txns[1..])
      modifies this`work, nd`stored, nd.chain, mp
      ensures Wired() && View() == CommitNext(cfg, old(View()), mined, now)
      ensures appendOk && old(OnFile()) ==> OnFile()
    {
      work := None;
      var unmoved := ExtendsTip(mined.header);
      if !unmoved {
        return false;
      }
      var r := nd.CommitBlock(mined, now, appendOk);
      if r != OK {
        return false;
      }
      if |mined.txns| > 1 {
        Evict(mined.txns[1..]);
      }
      committed := true;
    }

    method ExtendsTip(h: Header) returns (ok: bool)
      requires Wired()
      ensures ok <==>
        h.index == Wrap64(|nd.chain.blocks|) && h.prevHash == cfg.p.crypto.blockHash(Tip(nd.chain.blocks))
    {
      WrapWrap(|nd.chain.blocks| - 1, 1);
      ok := Wrap64(nd.chain.Height() + 1) == h.index && nd.chain.TipHash() == h.prevHash;
    }

    method Evict(txns: seq<Txn>)
      requires Wired() && NoClash(cfg.p.crypto, mp.queue, txns)
      modifies mp
      ensures Wired() && View() == old(View()).(queue := MempoolModel.Evict(cfg.p.crypto, old(mp.queue), txns))
    {
      mp.EvictIncluded(txns);
    }

    method GiveUp()
      requires Wired()
      modifies this`work
      ensures Wired() && View() == Next(cfg, old(View()), Step.GiveUp)
    {
      work := None;
    }

    // One round of the proof-of-work loop with nothing in between: snapshot, search, and commit.
    method MineRound(now: u64, later: u64, stop: nat -> bool, appendOk: bool, ghost bound: nat) returns (ghost k: nat)
      requires Wired() && Inv(cfg, View()) && WellConfigured(cfg) && Headroom(View())
      requires cfg.p.difficulty > 0 && work.None?
      requires Ends(cfg.p, SnapshotOf(cfg, View(), now).hdr, stop, bound)
      modifies this`work, this`taken, this`clock, nd`stored, nd.chain, mp
      ensures appendOk && old(OnFile()) ==> OnFile()
      ensures Wired() && k <= bound && Fruitless(cfg.p, SnapshotOf(cfg, old(View()), now).hdr, stop, k)
      ensures View() == RunFrom(cfg, old(View()), [Step.Snapshot(now),
                                                   if Preempted(stop, k) then Step.GiveUp else CommitMined(k, later)])
    {
      ghost var s := View();
      Snapshot(now);
      ghost var mid := View();
      StepKeeps(cfg, s, Step.Snapshot(now));
      var mined;
      mined, k := Mine(cfg.p, work.value, stop, bound);
      if mined.None? {
        GiveUp();
        TwoSteps(cfg, s, Step.Snapshot(now), Step.GiveUp);
        return;
      }
      TransfersArePending(cfg, mid, k);
      var committed := Commit(mined.value, k, later, appendOk);
      TwoSteps(cfg, s, Step.Snapshot(now), CommitMined(k, later));
    }

    // Cadence mode: drain up to a block's worth of pending transactions and seal them.
    method SealTick(now: u64, appendOk: bool) returns (r: Reason)
      requires Wired() && cfg.p.difficulty == 0
      modifies this`clock, nd`stored, nd.chain, mp
      ensures Wired() && View() == Next(cfg, old(View()), Step.SealTick(now))
      ensures appendOk && old(OnFile()) ==> OnFile()
    {
      clock := Tick(View(), now).clock;
      ghost var s := View();
      var batch := Drain();
      r := nd.SealNextBlock(now, batch, appendOk);
      if r == OK && batch != [] {
        BatchIsPending(cfg, s);
        Evict(batch);
      }
    }

    method Drain() returns (batch: seq<Txn>)
      requires Wired()
      ensures batch == Batch(View())
    {
      var pending := mp.SortedBySeq();
      batch := FrontTxns(pending);
    }
  }

  method FrontTxns(pending: seq<Entry>) returns (batch: seq<Txn>)
    ensures batch == TxnsOf(pending[..if |pending| < MAX_TXNS_PER_BLOCK then |pending| else MAX_TXNS_PER_BLOCK])
  {
    batch := [];
    for i := 0 to |pending|
      invariant batch == TxnsOf(pending[..i]) && i < MAX_TXNS_PER_BLOCK
    {
      FrontNext(pending, i);
      batch := batch + [pending[i].txn];
      if |batch| >= MAX_TXNS_PER_BLOCK {
        return;
      }
    }
  }

  lemma FrontNext(q: seq<Entry>, i: nat)
    requires i < |q|
    ensures TxnsOf(q[..i + 1]) == TxnsOf(q[..i]) + [q[i].txn] && |TxnsOf(q[..i + 1])| == i + 1
  {
  }

  lemma FrontIsPending(c: Crypto, q: seq<Entry>, k: nat)
    requires k <= |q|
    ensures NoClash(c, q, TxnsOf(q[..k]))
  {
    forall i | 0 <= i < k ensures TxnsOf(q[..k])[i] in TxnsOf(q) {
      assert TxnsOf(q[..k])[i] == TxnsOf(q)[i];
    }
  }

  lemma TransfersArePending(cfg: Config, s: LoopState, k: nat)
    requires Inv(cfg, s) && s.work.Some?
    ensures var mined := MinedBlock(s.work.value, k);
      |mined.txns| > 0 && NoClash(cfg.p.crypto, s.queue, mined.txns[1..])
  {
    var txns := s.work.value.txns;
    assert InFlight(cfg, s, s.work.value);
    TailOf(txns[0], TxnsOf(s.queue[..|txns| - 1]), txns);
    FrontIsPending(cfg.p.crypto, s.queue, |txns| - 1);
  }

  lemma TailOf<T>(x: T, rest: seq<T>, s: seq<T>)
    requires s == [x] + rest
    ensures s[1..] == rest
  {
  }

  lemma BatchIsPending(cfg: Config, s: LoopState)
    ensures NoClash(cfg.p.crypto, s.queue, Batch(s))
  {
    FrontIsPending(cfg.p.crypto, s.queue, if |s.queue| < MAX_TXNS_PER_BLOCK then |s.queue| else MAX_TXNS_PER_BLOCK);
  }

  lemma TwoSteps(cfg: Config, s: LoopState, a: Step, b: Step)
    requires s.chain.blocks != []
    ensures RunFrom(cfg, s, [a, b]) == Next(cfg, Next(cfg, s, a), b)
  {
    assert [a, b][..1] == [a] && [a][..0] == [];
    assert RunFrom(cfg, s, []) == s;
    assert RunFrom(cfg, s, [a]) == Next(cfg, s, a);
  }
}
