/** Runs whose clock never goes back: when blocks are committed, and what a restart finds. */
module NodeTime {
  import opened Bytes
  import opened Canonical
  import opened Gate
  import opened Accounting
  import opened ChainModel
  import opened Replay
  import opened Miner
  import opened NodeModel
  import opened NodeLoop
  import opened NodeRuns

  // ---- Every timely step commits ----

  predicate Forward(s: LoopState, step: Step)
  {
    match step
    case Snapshot(now) => s.clock <= now
    case CommitMined(_, now) => s.clock <= now
    case SealTick(now) => s.clock <= now
    case _ => true
  }

  predicate ForwardRun(cfg: Config, s: LoopState, steps: seq<Step>)
    requires s.chain.blocks != []
  {
    steps == [] ||
    (ForwardRun(cfg, s, steps[..|steps| - 1]) && Forward(RunFrom(cfg, s, steps[..|steps| - 1]), steps[|steps| - 1]))
  }

  // A search that ended within the first timestamp, or a fired timer, while the tip is not at the edge of
  // the clock's bound.
  predicate Timely(cfg: Config, s: LoopState, step: Step)
    requires s.chain.blocks != []
  {
    match step
    case CommitMined(k, now) =>
      s.work.Some? && Solves(cfg.p, s.work.value.hdr, k) && FirstTime(k) && ClockAllows(s, now)
    case SealTick(now) => cfg.p.difficulty == 0 && ClockAllows(s, now)
    case _ => false
  }

  function TimelyCount(cfg: Config, s: LoopState, steps: seq<Step>): nat
    requires s.chain.blocks != []
  {
    if steps == [] then 0
    else
      var init := steps[..|steps| - 1];
      TimelyCount(cfg, s, init) + if Timely(cfg, RunFrom(cfg, s, init), steps[|steps| - 1]) then 1 else 0
  }

  lemma TimelyCommits(cfg: Config, s: LoopState, step: Step)
    requires WellConfigured(cfg) && Inv(cfg, s) && Headroom(s) && Forward(s, step) && Timely(cfg, s, step)
    ensures Height(Next(cfg, s, step)) == Height(s) + 1
  {
    match step
    case CommitMined(k, now) => CommitSucceedsExactly(cfg, s, k, now);
    case SealTick(now) => SealCounts(cfg, s, now);
    case _ =>
  }

  // A run commits at least one block for each of its timely steps.
  lemma {:induction false} RunCommits(cfg: Config, s: LoopState, steps: seq<Step>)
    requires WellConfigured(cfg) && Inv(cfg, s) && Headroom(RunFrom(cfg, s, steps)) && ForwardRun(cfg, s, steps)
    ensures Height(RunFrom(cfg, s, steps)) >= Height(s) + TimelyCount(cfg, s, steps)
  {
    if steps != [] {
      var init, last := steps[..|steps| - 1], steps[|steps| - 1];
      var mid := RunFrom(cfg, s, init);
      HeadroomBefore(cfg, mid, last);
      RunCommits(cfg, s, init);
      StepGrows(cfg, mid, last);
      if Timely(cfg, mid, last) {
        RunKeeps(cfg, s, init);
        TimelyCommits(cfg, mid, last);
      }
    }
  }

  lemma DueMonotone(cfg: Config, m: int, n: int)
    requires m <= n
    ensures Due(cfg, m) <= Due(cfg, n)
  {
  }

  // Position i needs the search to end i / 7 + 1 times, or the timer to fire i / 8 + 1 times, and once more if
  // a candidate was already in flight.
  function StepsNeeded(cfg: Config, s0: LoopState, i: nat): nat
  {
    (if cfg.p.difficulty > 0 then i / 7 else i / 8) + 1 + if s0.work.Some? then 1 else 0
  }

  // So the entry at queue position i is on the chain, at its place in the order of admission, after so many
  // timely steps.
  lemma ServedInTime(cfg: Config, s0: LoopState, steps: seq<Step>, i: nat, s: LoopState)
    requires WellConfigured(cfg) && Inv(cfg, s0) && s == RunFrom(cfg, s0, steps) && Headroom(s)
    requires ForwardRun(cfg, s0, steps) && i < |s0.queue|
    requires TimelyCount(cfg, s0, steps) >= StepsNeeded(cfg, s0, i)
    ensures TransferCount(s0) + i < TransferCount(s)
    ensures Transfers(s.chain.blocks)[TransferCount(s0) + i] == s0.queue[i].txn
  {
    RunCommits(cfg, s0, steps);
    var n := TimelyCount(cfg, s0, steps) - if s0.work.Some? then 1 else 0;
    DueMonotone(cfg, n, Beyond(s0, s));
    FirstInFirstOut(cfg, s0, steps, i, s);
  }

  // ---- Restarting ----

  lemma SkewLater(blocks: seq<Block>, now: u64, later: u64)
    requires WithinSkew(blocks, 1, now) && now <= later && later + MAX_CLOCK_SKEW_S < TWO64
    ensures WithinSkew(blocks, 1, later)
  {
    LaterBound(now, later);
  }

  lemma ConnectWithinSkew(p: Params, cs: ChainState, b: Block, now: u64, clock: u64)
    requires cs.blocks != [] && WithinSkew(cs.blocks, 1, clock) && now <= clock && clock + MAX_CLOCK_SKEW_S < TWO64
    ensures WithinSkew(Connect(p, cs, b, now).chain.blocks, 1, clock)
  {
    if Connect(p, cs, b, now).reason == OK {
      AcceptedStep(p, cs, b, now);
      LaterBound(now, clock);
      SkewSnoc(cs.blocks, b, clock);
    }
  }

  lemma StepWithinSkew(cfg: Config, s: LoopState, step: Step)
    requires s.chain.blocks != [] && WithinSkew(s.chain.blocks, 1, s.clock)
    requires Next(cfg, s, step).clock + MAX_CLOCK_SKEW_S < TWO64
    ensures var n := Next(cfg, s, step); s.clock <= n.clock && WithinSkew(n.chain.blocks, 1, n.clock)
  {
    var n := Next(cfg, s, step);
    SkewLater(s.chain.blocks, s.clock, n.clock);
    match step
    case CommitMined(k, now) =>
      if s.work.Some? && Solves(cfg.p, s.work.value.hdr, k) {
        ConnectWithinSkew(cfg.p, s.chain, MinedBlock(s.work.value, k), now, n.clock);
      }
    case SealTick(now) =>
      if cfg.p.difficulty == 0 {
        ConnectWithinSkew(cfg.p, s.chain, SealedBlock(cfg.p, s.chain.blocks, Batch(s), now), now, n.clock);
      }
    case _ =>
  }

  lemma {:induction false} RunWithinSkew(cfg: Config, s: LoopState, steps: seq<Step>)
    requires s.chain.blocks != [] && WithinSkew(s.chain.blocks, 1, s.clock)
    requires RunFrom(cfg, s, steps).clock + MAX_CLOCK_SKEW_S < TWO64
    ensures var n := RunFrom(cfg, s, steps); s.clock <= n.clock && WithinSkew(n.chain.blocks, 1, n.clock)
  {
    if steps != [] {
      var init, last := steps[..|steps| - 1], steps[|steps| - 1];
      ClockAdvances(cfg, RunFrom(cfg, s, init), last);
      RunWithinSkew(cfg, s, init);
      StepWithinSkew(cfg, RunFrom(cfg, s, init), last);
    }
  }

  lemma ClockAdvances(cfg: Config, s: LoopState, step: Step)
    requires s.chain.blocks != []
    ensures s.clock <= Next(cfg, s, step).clock
  {
  }

  lemma BootWithinSkew(p: Params, file: ChainFile, now: u64, appendOk: bool, chain: ChainState, stored: seq<Block>)
    requires Booted(p, file, now, appendOk, Up, chain, stored)
    ensures chain.blocks != [] && WithinSkew(chain.blocks, 1, now)
  {
    if file.Readable? && file.blocks != [] {
      ConnectAllExactly(p, file.blocks, now);
    }
  }

  // Whatever the loop did since it booted, stopping it and booting again at a later clock, on the blocks it
  // served, continues with that very chain exactly when its mints amount to one reward per block; the run
  // theorem then holds for the next run.
  lemma LoopRestartsExactly(cfg: Config, file: ChainFile, now: u64, ok: bool, chain: ChainState, stored: seq<Block>,
                            steps: seq<Step>, s: LoopState, later: u64, ok': bool, out: BootResult,
                            chain': ChainState, stored': seq<Block>)
    requires WellConfigured(cfg) && Booted(cfg.p, file, now, ok, Up, chain, stored)
    requires chain.blocks != [] && s == RunFrom(cfg, BootedLoop(chain, now), steps) && Headroom(s)
    requires s.clock <= later && later + MAX_CLOCK_SKEW_S < TWO64
    requires Booted(cfg.p, Readable(s.chain.blocks), later, ok', out, chain', stored')
    ensures out == Up <==>
            Wrap64(Minted(History(s.chain.blocks))) == Wrap64(Times(|s.chain.blocks| - 1, cfg.p.reward))
    ensures out == Up ==> chain' == s.chain && Inv(cfg, BootedLoop(chain', later))
  {
    RunIsBootable(cfg, file, now, ok, chain, stored, steps, s, later);
    RebootExactly(cfg.p, s.chain, later, ok', out, chain', stored');
    if out == Up {
      BootedInv(cfg, chain', later);
    }
  }

  lemma RunIsBootable(cfg: Config, file: ChainFile, now: u64, ok: bool, chain: ChainState, stored: seq<Block>,
                      steps: seq<Step>, s: LoopState, later: u64)
    requires WellConfigured(cfg) && Booted(cfg.p, file, now, ok, Up, chain, stored)
    requires chain.blocks != [] && s == RunFrom(cfg, BootedLoop(chain, now), steps) && Headroom(s)
    requires s.clock <= later && later + MAX_CLOCK_SKEW_S < TWO64
    ensures Coherent(cfg.p, s.chain) && WithinSkew(s.chain.blocks, 1, later)
  {
    EveryRunKeeps(cfg, file, now, ok, chain, stored, steps);
    BootWithinSkew(cfg.p, file, now, ok, chain, stored);
    RunWithinSkew(cfg, BootedLoop(chain, now), steps);
    SkewLater(s.chain.blocks, s.clock, later);
  }
}
