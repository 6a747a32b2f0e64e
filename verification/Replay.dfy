/** The from-genesis batch validator, measured against connecting the same blocks one by one. */
module Replay {
  import opened Bytes
  import opened Wrappers
  import opened Canonical
  import opened Target
  import opened Gate
  import opened Accounting
  import opened ChainModel

  // ---- The reference: a chain that connects the blocks one after the other ----

  datatype ConnectAll = AllConnected(chain: ChainState) | RefusedAt(i: nat, reason: Reason)

  function ConnectFrom(p: Params, cs: ChainState, blocks: seq<Block>, i: nat, now: u64): ConnectAll
    requires cs.blocks != [] && i <= |blocks|
    decreases |blocks| - i
  {
    if i == |blocks| then AllConnected(cs)
    else
      var next := Connect(p, cs, blocks[i], now);
      if next.reason != OK then RefusedAt(i, next.reason) else ConnectFrom(p, next.chain, blocks, i + 1, now)
  }

  // A chain that holds nothing but the given block, with the genesis allocation.
  function ChainFrom(p: Params, b0: Block): ChainState { ChainState([b0], p.genesis, 0, []) }

  datatype VerifyResult = Verified | Failed(at: u64, reason: Reason)

  // The closing check: the sum of balances against the closed form, both modulo 2^64.
  ghost predicate SupplyMatches(p: Params, state: Ledger, height: nat)
  {
    Wrap64(SumBalances(state)) == Wrap64(GENESIS_SUPPLY + Times(height, p.reward))
  }

  ghost function Closing(p: Params, height: nat, all: ConnectAll): VerifyResult
  {
    match all
    case RefusedAt(i, r) => Failed(Wrap64(i), r)
    case AllConnected(cs) => if SupplyMatches(p, cs.state, height) then Verified else Failed(Wrap64(height), BadSupply)
  }

  // The genesis block is checked for its place and its commitment, and for nothing else.
  function GenesisVerdict(p: Params, b0: Block): Reason
  {
    if b0.header.index != 0 || b0.header.prevHash != ZERO_DIGEST then BadLink
    else if p.crypto.txnsHash(b0.txns) != b0.header.txnsHash then BadTxnsHash
    else OK
  }

  /** What replay must report: the first refusal of the reference, else the closing supply check. */
  ghost function Replayed(p: Params, blocks: seq<Block>, now: u64): VerifyResult
  {
    if blocks == [] then Failed(0, BadLink)
    else if GenesisVerdict(p, blocks[0]) != OK then Failed(0, GenesisVerdict(p, blocks[0]))
    else Closing(p, |blocks| - 1, ConnectFrom(p, ChainFrom(p, blocks[0]), blocks, 1, now))
  }

  // ---- The batch validator ----

  // Its checks of one block, on the two values it carries from the previous one.
  method CheckLink(p: Params, b: Block, idx: u64, prevHash: Digest, prevTime: u64, now: u64) returns (r: Reason)
    ensures r == LinkVerdict(p, idx, prevHash, prevTime, b, now)
  {
    if b.header.index != idx {
      return BadLink;
    }
    if b.header.prevHash != prevHash {
      return BadLink;
    }
    if !(b.header.timestamp > prevTime && b.header.timestamp <= Wrap64(now + MAX_CLOCK_SKEW_S)) {
      return BadLink;
    }
    var zeroBits := LeadingZeroBits(p.crypto.blockHash(b.header));
    if !(zeroBits >= p.difficulty) {
      return BadPow;
    }
    var commitment := p.crypto.txnsHash(b.txns);
    if commitment != b.header.txnsHash {
      return BadTxnsHash;
    }
    if |b.txns| > MAX_TXNS_PER_BLOCK {
      return BadTxnsHash;
    }
    return OK;
  }

  method SumAll(state: Ledger) returns (actual: u64)
    ensures actual == Wrap64(SumBalances(state))
  {
    actual := 0;
    var rest := state;
    while rest != map[]
      invariant Wrap64(SumBalances(state)) == Wrap64(actual + SumBalances(rest))
      decreases |rest|
    {
      var a :| a in rest;
      SumRemove(rest, a);
      WrapWrap(actual + rest[a].balance, SumBalances(rest - {a}));
      actual := Wrap64(actual + rest[a].balance);
      rest := rest - {a};
    }
  }

  // The loop body: one block against the carried values, in step with the reference connecting it.
  method ReplayBlock(p: Params, blocks: seq<Block>, i: nat, prevHash: Digest, prevTime: u64, now: u64,
                     state: AccountMap, ghost cs: ChainState)
    returns (r: Reason, ghost next: ChainState)
    requires 0 < i < |blocks| && cs.blocks == blocks[..i] && cs.state == state.m
    requires prevHash == p.crypto.blockHash(Tip(cs.blocks)) && prevTime == Tip(cs.blocks).timestamp
    modifies state
    ensures r != OK ==> ConnectFrom(p, cs, blocks, i, now) == RefusedAt(i, r)
    ensures r == OK ==> next.blocks == blocks[..i + 1] && next.state == state.m
    ensures r == OK ==> ConnectFrom(p, next, blocks, i + 1, now) == ConnectFrom(p, cs, blocks, i, now)
  {
    next := Connect(p, cs, blocks[i], now).chain;
    TakeSnoc(blocks, i);
    r := CheckLink(p, blocks[i], Wrap64(i), prevHash, prevTime, now);
    if r != OK {
      return r, next;
    }
    var at;
    r, at := state.ApplyBlockTxns(p.crypto, blocks[i], p.reward);
  }

  method CheckGenesis(p: Params, b0: Block) returns (r: Reason)
    ensures r == GenesisVerdict(p, b0)
  {
    if b0.header.index != 0 {
      return BadLink;
    }
    if b0.header.prevHash != ZERO_DIGEST {
      return BadLink;
    }
    var commitment := p.crypto.txnsHash(b0.txns);
    if commitment != b0.header.txnsHash {
      return BadTxnsHash;
    }
    return OK;
  }

  // Blocks 1 and up, on a ledger that starts as the genesis allocation.
  method ReplayBlocks(p: Params, blocks: seq<Block>, now: u64, state: AccountMap) returns (v: VerifyResult)
    requires blocks != [] && state.m == p.genesis
    modifies state
    ensures v == Closing(p, |blocks| - 1, ConnectFrom(p, ChainFrom(p, blocks[0]), blocks, 1, now))
  {
    var prevHash := p.crypto.blockHash(blocks[0].header);
    var prevTime := blocks[0].header.timestamp;
    ghost var cs := ChainFrom(p, blocks[0]);
    ghost var all := ConnectFrom(p, cs, blocks, 1, now);
    var i := 1;
    while i < |blocks|
      invariant 1 <= i <= |blocks| && cs.blocks == blocks[..i] && cs.state == state.m
      invariant prevHash == p.crypto.blockHash(Tip(cs.blocks)) && prevTime == Tip(cs.blocks).timestamp
      invariant ConnectFrom(p, cs, blocks, i, now) == all
    {
      var r;
      r, cs := ReplayBlock(p, blocks, i, prevHash, prevTime, now, state, cs);
      if r != OK {
        return Failed(Wrap64(i), r);
      }
      prevHash := p.crypto.blockHash(blocks[i].header);
      prevTime := blocks[i].header.timestamp;
      i := i + 1;
    }
    var ok := CheckSupply(p, state.m, |blocks| - 1);
    v := if ok then Verified else Failed(Wrap64(|blocks| - 1), BadSupply);
  }

  method ReplayFromGenesis(p: Params, blocks: seq<Block>, now: u64) returns (v: VerifyResult)
    ensures v == Replayed(p, blocks, now)
  {
    if blocks == [] {
      return Failed(0, BadLink);
    }
    var state := new AccountMap(p.genesis);
    var r := CheckGenesis(p, blocks[0]);
    if r != OK {
      return Failed(0, r);
    }
    v := ReplayBlocks(p, blocks, now, state);
  }

  method CheckSupply(p: Params, state: Ledger, h: nat) returns (ok: bool)
    ensures ok <==> SupplyMatches(p, state, h)
  {
    var actual := SumAll(state);
    var height := Wrap64(h);
    var expected := Wrap64(GENESIS_SUPPLY + Wrap64(height * p.reward));
    HeightTimesReward(h, p.reward);
    ok := actual == expected;
  }

  lemma HeightTimesReward(h: nat, reward: u64)
    ensures Wrap64(GENESIS_SUPPLY + Wrap64(Wrap64(h) * reward)) == Wrap64(GENESIS_SUPPLY + Times(h, reward))
  {
    TimesIsProduct(h, reward);
    WrapProduct(h, reward);
    WrapWrap(h * reward, GENESIS_SUPPLY);
  }

  lemma WrapProduct(h: nat, r: nat)
    ensures Wrap64(Wrap64(h) * r) == Wrap64(h * r)
  {
    WrapIsMod(h);
    var w, q := Wrap64(h), h / 0x1_0000_0000_0000_0000;
    assert h == w + q * 0x1_0000_0000_0000_0000;
    ProductShift(w, q, r);
    WrapIsMod(w * r);
    WrapIsMod(h * r);
    ModShift(w * r, q * r);
  }

  lemma ProductShift(w: nat, q: nat, r: nat)
    ensures (w + q * 0x1_0000_0000_0000_0000) * r == w * r + (q * r) * 0x1_0000_0000_0000_0000
  {
  }

  lemma ModShift(x: int, k: int)
    ensures (x + k * 0x1_0000_0000_0000_0000) % 0x1_0000_0000_0000_0000 == x % 0x1_0000_0000_0000_0000
  {
  }

  // ---- The third path: rebuilding the ledger without validating ----

  // Refused transactions are skipped.
  function LenientTxns(c: Crypto, w: Ledger, txns: seq<Txn>, idx: u64): Ledger
  {
    if txns == [] then w
    else GateTxn(c, LenientTxns(c, w, txns[..|txns| - 1], idx), txns[|txns| - 1], idx, |txns| - 1).work
  }

  function LenientLedger(p: Params, blocks: seq<Block>): Ledger
  {
    if |blocks| <= 1 then p.genesis
    else
      var b := blocks[|blocks| - 1];
      LenientTxns(p.crypto, LenientLedger(p, blocks[..|blocks| - 1]), b.txns, b.header.index)
  }

  method ReplayState(p: Params, blocks: seq<Block>) returns (state: Ledger)
    ensures state == LenientLedger(p, blocks)
  {
    var work := new AccountMap(p.genesis);
    var i := 1;
    while i < |blocks|
      invariant 1 <= i && (i <= |blocks| || |blocks| == 0)
      invariant work.m == LenientLedger(p, if |blocks| == 0 then [] else blocks[..i])
    {
      var b := blocks[i];
      ghost var before := work.m;
      var ti := 0;
      while ti < |b.txns|
        invariant 0 <= ti <= |b.txns|
        invariant work.m == LenientTxns(p.crypto, before, b.txns[..ti], b.header.index)
      {
        var ignored := work.ApplyTxn(p.crypto, b.txns[ti], b.header.index, ti);
        assert b.txns[..ti + 1][..ti] == b.txns[..ti];
        ti := ti + 1;
      }
      assert b.txns[..|b.txns|] == b.txns;
      assert blocks[..i + 1][..i] == blocks[..i];
      i := i + 1;
    }
    assert |blocks| > 0 ==> blocks[..|blocks|] == blocks;
    state := work.m;
  }

  lemma {:induction false} LenientAgreesOnAccepted(c: Crypto, w: Ledger, txns: seq<Txn>, idx: u64)
    requires GateTxns(c, w, txns, idx).reason == OK
    ensures LenientTxns(c, w, txns, idx) == GateTxns(c, w, txns, idx).work
  {
    if txns != [] {
      LenientAgreesOnAccepted(c, w, txns[..|txns| - 1], idx);
    }
  }

  // On a valid chain the unvalidated rebuild is the committed ledger.
  lemma {:induction false} ReplayStateIsCommittedLedger(p: Params, blocks: seq<Block>)
    requires LedgerOf(p, blocks).Some?
    ensures LenientLedger(p, blocks) == LedgerOf(p, blocks).value
  {
    if |blocks| > 1 {
      var init, b := blocks[..|blocks| - 1], blocks[|blocks| - 1];
      ReplayStateIsCommittedLedger(p, init);
      LenientAgreesOnAccepted(p.crypto, LedgerOf(p, init).value, b.txns, b.header.index);
    }
  }

  // ---- When replay passes ----

  // No block after the first i lies beyond the clock's skew bound.
  predicate WithinSkew(blocks: seq<Block>, i: nat, now: u64)
  {
    forall k :: i <= k < |blocks| ==> blocks[k].header.timestamp <= Wrap64(now + MAX_CLOCK_SKEW_S)
  }

  lemma SkewStep(blocks: seq<Block>, i: nat, now: u64)
    requires i < |blocks|
    ensures WithinSkew(blocks, i, now) <==>
            blocks[i].header.timestamp <= Wrap64(now + MAX_CLOCK_SKEW_S) && WithinSkew(blocks, i + 1, now)
  {
  }

  lemma AcceptedStep(p: Params, cs: ChainState, b: Block, now: u64)
    requires cs.blocks != [] && Connect(p, cs, b, now).reason == OK
    ensures Connect(p, cs, b, now).chain.blocks == cs.blocks + [b]
    ensures b.header.timestamp <= Wrap64(now + MAX_CLOCK_SKEW_S)
  {
  }

  lemma RefusedStep(p: Params, cs: ChainState, b: Block, now: u64)
    requires LedgerOf(p, cs.blocks) == Some(cs.state)
    requires Connect(p, cs, b, now).reason != OK
    ensures LedgerOf(p, cs.blocks + [b]).None? || b.header.timestamp > Wrap64(now + MAX_CLOCK_SKEW_S)
  {
    ConnectAcceptsExactly(p, cs, b, now);
    LedgerOfSnoc(p, cs.blocks, b);
  }

  // Connecting the rest of a list succeeds exactly when the list is a valid chain within the clock's
  // bound; the chain then holds the list and what the list determines.
  lemma {:induction false} ConnectFromExactly(p: Params, cs: ChainState, blocks: seq<Block>, i: nat, now: u64)
    requires 0 < i <= |blocks| && cs.blocks == blocks[..i] && Coherent(p, cs)
    ensures var r := ConnectFrom(p, cs, blocks, i, now);
      && (r.AllConnected? <==> LedgerOf(p, blocks).Some? && WithinSkew(blocks, i, now))
      && (r.AllConnected? ==> r.chain.blocks == blocks && Coherent(p, r.chain))
    decreases |blocks| - i
  {
    if i == |blocks| {
      assert blocks[..i] == blocks;
    } else {
      var b := blocks[i];
      SkewStep(blocks, i, now);
      if Connect(p, cs, b, now).reason == OK {
        AcceptedStep(p, cs, b, now);
        TakeSnoc(blocks, i);
        ConnectKeepsCoherent(p, cs, b, now);
        ConnectFromExactly(p, Connect(p, cs, b, now).chain, blocks, i + 1, now);
      } else {
        RefusedForever(p, cs, blocks, i, now);
      }
    }
  }

  lemma {:induction false} RefusedForever(p: Params, cs: ChainState, blocks: seq<Block>, i: nat, now: u64)
    requires 0 < i < |blocks| && cs.blocks == blocks[..i] && LedgerOf(p, cs.blocks) == Some(cs.state)
    requires Connect(p, cs, blocks[i], now).reason != OK
    ensures LedgerOf(p, blocks).None? || blocks[i].header.timestamp > Wrap64(now + MAX_CLOCK_SKEW_S)
  {
    RefusedStep(p, cs, blocks[i], now);
    TakeSnoc(blocks, i);
    if LedgerOf(p, blocks).Some? {
      LedgerOfPrefix(p, blocks, i + 1);
    }
  }

  lemma ConnectAllExactly(p: Params, blocks: seq<Block>, now: u64)
    requires blocks != [] && blocks[0] == GenesisBlock(p.crypto)
    ensures var r := ConnectFrom(p, InitialChain(p), blocks, 1, now);
      && (r.AllConnected? <==> LedgerOf(p, blocks).Some? && WithinSkew(blocks, 1, now))
      && (r.AllConnected? ==> r.chain.blocks == blocks && Coherent(p, r.chain))
  {
    assert blocks[..1] == [blocks[0]];
    InitialCoherent(p);
    ConnectFromExactly(p, InitialChain(p), blocks, 1, now);
  }

  // The closing check of a valid chain looks at nothing but what was minted.
  lemma SupplyMatchesExactly(p: Params, blocks: seq<Block>)
    requires IsGenesisTable(p.genesis) && LedgerOf(p, blocks).Some?
    ensures SupplyMatches(p, LedgerOf(p, blocks).value, |blocks| - 1) <==>
            Wrap64(Minted(History(blocks))) == Wrap64(Times(|blocks| - 1, p.reward))
  {
    ChainSupply(p, blocks);
    SumMatches(Minted(History(blocks)), SumBalances(LedgerOf(p, blocks).value), Times(|blocks| - 1, p.reward));
  }

  lemma SumMatches(minted: nat, sum: nat, due: nat)
    requires Tracks(GENESIS_SUPPLY + minted, sum)
    ensures Wrap64(sum) == Wrap64(GENESIS_SUPPLY + due) <==> Wrap64(minted) == Wrap64(due)
  {
    TracksMeaning(GENESIS_SUPPLY + minted, sum);
    SameShift(minted, due, GENESIS_SUPPLY);
  }

  // A list that starts at the genesis block passes replay exactly when it is a valid chain within the
  // clock's bound whose mints amount, modulo 2^64, to one reward per block.
  lemma {:induction false} ReplayPassesExactly(p: Params, blocks: seq<Block>, now: u64)
    requires IsGenesisTable(p.genesis) && blocks != [] && blocks[0] == GenesisBlock(p.crypto)
    ensures Replayed(p, blocks, now) == Verified <==>
            && LedgerOf(p, blocks).Some? && WithinSkew(blocks, 1, now)
            && Wrap64(Minted(History(blocks))) == Wrap64(Times(|blocks| - 1, p.reward))
  {
    ConnectAllExactly(p, blocks, now);
    if LedgerOf(p, blocks).Some? {
      SupplyMatchesExactly(p, blocks);
    }
  }

  lemma RewardsCancel(p: Params, blocks: seq<Block>)
    requires LedgerOf(p, blocks).Some? && p.reward == COINBASE_REWARD
    ensures Wrap64(Minted(History(blocks))) == Wrap64(Times(|blocks| - 1, p.reward)) <==>
            Wrap64(Total(SelfAmount, History(blocks))) == 0
  {
    OneCoinbasePerBlock(p, blocks);
    MintedIs(History(blocks));
    ExcessVanishes(Times(|blocks| - 1, COINBASE_REWARD), Total(SelfAmount, History(blocks)));
  }

  lemma ExcessVanishes(due: nat, excess: nat)
    ensures Wrap64(due + excess) == Wrap64(due) <==> Wrap64(excess) == 0
  {
    SameShift(excess, 0, due);
  }

  // With the standard reward the closing check sees exactly the self-transfers: the two validators part
  // company precisely when their amounts do not cancel modulo 2^64.
  lemma ReplayPassesExactlyUnderReward(p: Params, blocks: seq<Block>, now: u64)
    requires IsGenesisTable(p.genesis) && p.reward == COINBASE_REWARD
    requires blocks != [] && blocks[0] == GenesisBlock(p.crypto)
    ensures Replayed(p, blocks, now) == Verified <==>
            && ConnectFrom(p, InitialChain(p), blocks, 1, now).AllConnected?
            && Wrap64(Total(SelfAmount, History(blocks))) == 0
  {
    ReplayPassesExactly(p, blocks, now);
    ConnectAllExactly(p, blocks, now);
    if LedgerOf(p, blocks).Some? {
      RewardsCancel(p, blocks);
    }
  }

  // ---- What a failure reports ----

  // The chain over a valid block list.
  function ChainOver(p: Params, blocks: seq<Block>): ChainState
    requires LedgerOf(p, blocks).Some?
  {
    ChainState(blocks, LedgerOf(p, blocks).value, WorkOf(p, blocks), UndoOf(p, blocks))
  }

  // The blocks before k are a valid chain within the clock's bound, and that chain refuses block k for r.
  predicate BreaksAt(p: Params, blocks: seq<Block>, k: nat, now: u64, r: Reason)
    requires k < |blocks|
  {
    && k > 0 && r != OK && LedgerOf(p, blocks[..k]).Some? && WithinSkew(blocks[..k], 1, now)
    && Connect(p, ChainOver(p, blocks[..k]), blocks[k], now).reason == r
  }

  lemma CoherentIsOver(p: Params, cs: ChainState)
    requires Coherent(p, cs)
    ensures cs == ChainOver(p, cs.blocks)
  {
  }

  lemma SkewPrefix(blocks: seq<Block>, i: nat, n: nat, now: u64)
    requires WithinSkew(blocks, i, now) && n <= |blocks|
    ensures WithinSkew(blocks[..n], i, now)
  {
  }

  // The first refusal is where the list breaks: the block before it is in the chain, and it is not.
  lemma {:induction false} RefusedAtExactly(p: Params, cs: ChainState, blocks: seq<Block>, i: nat, now: u64, k: nat,
                                            r: Reason)
    requires 0 < i <= k < |blocks| && cs.blocks == blocks[..i] && Coherent(p, cs) && WithinSkew(cs.blocks, 1, now)
    ensures ConnectFrom(p, cs, blocks, i, now) == RefusedAt(k, r) <==> BreaksAt(p, blocks, k, now, r)
    decreases k - i
  {
    CoherentIsOver(p, cs);
    var next := Connect(p, cs, blocks[i], now);
    if i < k {
      if next.reason == OK {
        AcceptedInto(p, cs, blocks, i, now);
        RefusedAtExactly(p, next.chain, blocks, i + 1, now, k, r);
      } else {
        NotBeyond(p, cs, blocks, i, now, k, r);
      }
    } else if next.reason == OK {
      NotBefore(p, next.chain, blocks, k + 1, now);
    }
  }

  lemma AcceptedInto(p: Params, cs: ChainState, blocks: seq<Block>, i: nat, now: u64)
    requires 0 < i < |blocks| && cs.blocks == blocks[..i] && Coherent(p, cs) && WithinSkew(cs.blocks, 1, now)
    requires Connect(p, cs, blocks[i], now).reason == OK
    ensures var next := Connect(p, cs, blocks[i], now).chain;
      next.blocks == blocks[..i + 1] && Coherent(p, next) && WithinSkew(next.blocks, 1, now)
  {
    TakeSnoc(blocks, i);
    AcceptedStep(p, cs, blocks[i], now);
    SkewSnoc(cs.blocks, blocks[i], now);
    ConnectKeepsCoherent(p, cs, blocks[i], now);
  }

  lemma SkewSnoc(blocks: seq<Block>, b: Block, now: u64)
    requires WithinSkew(blocks, 1, now) && b.header.timestamp <= Wrap64(now + MAX_CLOCK_SKEW_S)
    ensures WithinSkew(blocks + [b], 1, now)
  {
  }

  lemma NotBeyond(p: Params, cs: ChainState, blocks: seq<Block>, i: nat, now: u64, k: nat, r: Reason)
    requires 0 < i < k < |blocks| && cs.blocks == blocks[..i] && Coherent(p, cs)
    requires Connect(p, cs, blocks[i], now).reason != OK
    ensures !BreaksAt(p, blocks, k, now, r)
  {
    if BreaksAt(p, blocks, k, now, r) {
      var front := blocks[..k];
      assert front[..i] == blocks[..i] && front[i] == blocks[i];
      RefusedForever(p, cs, front, i, now);
    }
  }

  // A refusal is never reported for a block before the one being looked at.
  lemma {:induction false} NotBefore(p: Params, cs: ChainState, blocks: seq<Block>, i: nat, now: u64)
    requires cs.blocks != [] && i <= |blocks|
    ensures var all := ConnectFrom(p, cs, blocks, i, now); all.RefusedAt? ==> i <= all.i < |blocks| && all.reason != OK
    decreases |blocks| - i
  {
    if i < |blocks| && Connect(p, cs, blocks[i], now).reason == OK {
      NotBefore(p, Connect(p, cs, blocks[i], now).chain, blocks, i + 1, now);
    }
  }

  // A list that starts at the genesis block fails at k for r exactly when it breaks there, or when all of it
  // is a valid chain within the clock's bound, k is its height, and its mints do not amount, modulo 2^64, to
  // one reward per block.
  lemma {:induction false} ReplayFailsExactly(p: Params, blocks: seq<Block>, now: u64, k: nat, r: Reason)
    requires IsGenesisTable(p.genesis) && blocks != [] && blocks[0] == GenesisBlock(p.crypto)
    requires k < |blocks| <= TWO64
    ensures Replayed(p, blocks, now) == Failed(k, r) <==>
            || BreaksAt(p, blocks, k, now, r)
            || (k == |blocks| - 1 && r == BadSupply && LedgerOf(p, blocks).Some? && WithinSkew(blocks, 1, now) &&
                Wrap64(Minted(History(blocks))) != Wrap64(Times(|blocks| - 1, p.reward)))
  {
    var all := ConnectFrom(p, InitialChain(p), blocks, 1, now);
    assert blocks[..1] == [blocks[0]];
    InitialCoherent(p);
    NotBefore(p, InitialChain(p), blocks, 1, now);
    ConnectAllExactly(p, blocks, now);
    if k > 0 {
      RefusedAtExactly(p, InitialChain(p), blocks, 1, now, k, r);
    }
    FailsByConnecting(p, blocks, now, k, r);
    if LedgerOf(p, blocks).Some? {
      SupplyMatchesExactly(p, blocks);
    }
  }

  lemma FailsByConnecting(p: Params, blocks: seq<Block>, now: u64, k: nat, r: Reason)
    requires blocks != [] && blocks[0] == GenesisBlock(p.crypto) && k < |blocks| <= TWO64
    requires var all := ConnectFrom(p, InitialChain(p), blocks, 1, now); all.RefusedAt? ==> all.i < |blocks|
    ensures var all := ConnectFrom(p, InitialChain(p), blocks, 1, now);
      Replayed(p, blocks, now) == Failed(k, r) <==>
      || all == RefusedAt(k, r)
      || (all.AllConnected? && k == |blocks| - 1 && r == BadSupply && !SupplyMatches(p, all.chain.state, |blocks| - 1))
  {
  }

  // Any other list fails at index 0 exactly when it is empty, or its first block is out of place or does not
  // commit to its transactions.
  lemma ReplayStartExactly(p: Params, blocks: seq<Block>, now: u64)
    requires blocks == [] || blocks[0].header.index != 0 || blocks[0].header.prevHash != Zeros(32) ||
             p.crypto.txnsHash(blocks[0].txns) != blocks[0].header.txnsHash
    ensures Replayed(p, blocks, now) ==
            Failed(0, if blocks != [] && blocks[0].header.index == 0 && blocks[0].header.prevHash == Zeros(32)
                      then BadTxnsHash else BadLink)
  {
  }

  // The unchecked path skips what the gate refuses and applies the rest.
  lemma LenientSkips(p: Params, blocks: seq<Block>, b: Block, t: Txn)
    requires blocks != []
    ensures var w := LenientLedger(p, blocks + [b]);
      LenientLedger(p, blocks + [b.(txns := b.txns + [t])]) ==
      if GateTxn(p.crypto, w, t, b.header.index, |b.txns|).reason == OK then Apply(w, t) else w
  {
    assert (blocks + [b])[..|blocks|] == blocks && (b.txns + [t])[..|b.txns|] == b.txns;
    assert (blocks + [b.(txns := b.txns + [t])])[..|blocks|] == blocks;
  }
}
