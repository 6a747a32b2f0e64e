/** The node: boot from the stored blocks, sealing, committing, and restarting. */
module NodeModel {
  import opened Bytes
  import opened Canonical
  import opened Gate
  import opened Accounting
  import opened ChainModel
  import opened Replay

  // What the chain file holds: nothing yet, an unparsable line, or a list of blocks.
  datatype ChainFile = Absent | Unreadable(status: VerifyResult) | Readable(blocks: seq<Block>)

  datatype BootResult = Up | Refused(status: VerifyResult)

  function SealedBlock(p: Params, blocks: seq<Block>, txns: seq<Txn>, now: u64): Block
    requires blocks != []
  {
    Block(Header(Wrap64(|blocks|), StartTime(Tip(blocks).timestamp, now), p.crypto.blockHash(Tip(blocks)),
                 p.crypto.txnsHash(txns), 0),
          txns)
  }

  // A sealed block names the next height and the tip, commits to its transactions, and carries the least time
  // that is not before the clock and after the tip.
  lemma SealedBlockIs(p: Params, blocks: seq<Block>, txns: seq<Txn>, now: u64)
    requires blocks != []
    ensures var b, tip := SealedBlock(p, blocks, txns, now), blocks[|blocks| - 1].header;
      && b.txns == txns && b.header.index == Wrap64(|blocks|) && b.header.prevHash == p.crypto.blockHash(tip)
      && b.header.txnsHash == p.crypto.txnsHash(txns) && b.header.nonce == 0
      && (IsLeastTime(b.header.timestamp, tip.timestamp, now) <==> tip.timestamp < TWO64 - 1)
  {
    StartTimeIsLeast(Tip(blocks).timestamp, now);
  }

  /** The outcome of booting: the verdict, the chain served and the blocks on file. */
  ghost predicate Booted(p: Params, file: ChainFile, now: u64, appendOk: bool, out: BootResult, chain: ChainState,
                         stored: seq<Block>)
  {
    match file
    case Unreadable(status) => out == Refused(status) && chain == InitialChain(p)
    case Absent => out == Up && chain == InitialChain(p) && stored == if appendOk then [GenesisBlock(p.crypto)] else []
    case Readable(blocks) =>
      if blocks == [] then
        out == Up && chain == InitialChain(p) && stored == if appendOk then [GenesisBlock(p.crypto)] else []
      else if blocks[0] != GenesisBlock(p.crypto) then
        out == Refused(Failed(0, BadLink)) && chain == InitialChain(p) && stored == blocks
      else if Replayed(p, blocks, now) != Verified then
        out == Refused(Replayed(p, blocks, now)) && chain == InitialChain(p) && stored == blocks
      else
        && out == Up && stored == blocks
        && ConnectFrom(p, InitialChain(p), blocks, 1, now) == AllConnected(chain)
        && chain.blocks == blocks
  }

  class Node {
    const p: Params
    const chain: Chain
    var stored: seq<Block>

    ghost predicate Valid()
      reads this, chain
    {
      chain.Valid() && chain.p == p
    }

    // A node is made for a data directory; `onFile` are the blocks its chain file holds.
    constructor (p: Params, onFile: seq<Block>)
      ensures Valid() && fresh(chain) && this.p == p && chain.View() == InitialChain(p) && stored == onFile
    {
      this.p := p;
      chain := new Chain(p);
      stored := onFile;
    }

    // The write to the file may fail; its result is not looked at.
    method AppendBlock(b: Block, appendOk: bool)
      modifies this`stored
      ensures stored == if appendOk then old(stored) + [b] else old(stored)
    {
      if appendOk {
        stored := stored + [b];
      }
    }

    // The reconnect loop of boot, after replay passed. It cannot fail.
    method Reconnect(blocks: seq<Block>, now: u64)
      requires Valid() && chain.View() == InitialChain(p) && blocks != []
      requires blocks[0] == GenesisBlock(p.crypto) && Replayed(p, blocks, now) == Verified
      modifies chain
      ensures Valid() && ConnectFrom(p, InitialChain(p), blocks, 1, now) == AllConnected(chain.View())
    {
      var i := 1;
      while i < |blocks|
        invariant 1 <= i <= |blocks| && Valid()
        invariant ConnectFrom(p, chain.View(), blocks, i, now) == ConnectFrom(p, InitialChain(p), blocks, 1, now)
      {
        var r := chain.ConnectBlock(blocks[i], now);
        assert r == OK;
        i := i + 1;
      }
    }

    // The data-driven half of boot on a chain that starts at the canonical genesis.
    method Boot(file: ChainFile, now: u64, appendOk: bool) returns (out: BootResult)
      requires Valid() && chain.View() == InitialChain(p) && stored == (if file.Readable? then file.blocks else [])
      modifies this`stored, chain
      ensures Valid() && Booted(p, file, now, appendOk, out, chain.View(), stored)
    {
      if file.Absent? {
        AppendBlock(GenesisBlock(p.crypto), appendOk);
        return Up;
      }
      if file.Unreadable? {
        return Refused(file.status);
      }
      var blocks := file.blocks;
      if blocks == [] {
        AppendBlock(GenesisBlock(p.crypto), appendOk);
        return Up;
      }
      if blocks[0] != GenesisBlock(p.crypto) {
        return Refused(Failed(0, BadLink));
      }
      var v := ReplayFromGenesis(p, blocks, now);
      if v != Verified {
        return Refused(v);
      }
      Reconnect(blocks, now);
      ConnectAllExactly(p, blocks, now);
      return Up;
    }

    method CommitBlock(b: Block, now: u64, appendOk: bool) returns (r: Reason)
      requires Valid()
      modifies this`stored, chain
      ensures Valid() && Connected(r, chain.View()) == Connect(p, old(chain.View()), b, now)
      ensures stored == if r == OK && appendOk then old(stored) + [b] else old(stored)
    {
      r := chain.ConnectBlock(b, now);
      if r != OK {
        return r;
      }
      AppendBlock(b, appendOk);
    }

    method SealNextBlock(now: u64, txns: seq<Txn>, appendOk: bool) returns (r: Reason)
      requires Valid()
      modifies this`stored, chain
      ensures var b := SealedBlock(p, old(chain.blocks), txns, now);
        && Valid() && Connected(r, chain.View()) == Connect(p, old(chain.View()), b, now)
        && stored == if r == OK && appendOk then old(stored) + [b] else old(stored)
    {
      var tip := chain.blocks[|chain.blocks| - 1].header;
      WrapWrap(|chain.blocks| - 1, 1);
      var floor := Wrap64(tip.timestamp + 1);
      var header := Header(Wrap64(chain.Height() + 1), if now < floor then floor else now, chain.TipHash(),
                           p.crypto.txnsHash(txns), 0);
      var b := Block(header, txns);
      r := chain.ConnectBlock(b, now);
      if r != OK {
        return r;
      }
      AppendBlock(b, appendOk);
    }
  }

  // ---- Restarting ----

  // One attempt of a running node to extend its chain, by commit or by seal.
  datatype Write = Commit(b: Block, now: u64) | Seal(txns: seq<Txn>, now: u64)

  function Offered(p: Params, blocks: seq<Block>, w: Write): Block
    requires blocks != []
  {
    match w
    case Commit(b, _) => b
    case Seal(txns, now) => SealedBlock(p, blocks, txns, now)
  }

  datatype NodeRun = NodeRun(chain: ChainState, stored: seq<Block>)

  /** A node booted on an empty directory and then driven by any writes, every append succeeding. */
  function Serve(p: Params, writes: seq<Write>): (r: NodeRun)
    ensures r.chain.blocks != [] && r.stored != []
  {
    if writes == [] then NodeRun(InitialChain(p), [GenesisBlock(p.crypto)])
    else
      var s := Serve(p, writes[..|writes| - 1]);
      var w := writes[|writes| - 1];
      var b := Offered(p, s.chain.blocks, w);
      var next := Connect(p, s.chain, b, w.now);
      NodeRun(next.chain, if next.reason == OK then s.stored + [b] else s.stored)
  }

  // No write was clocked after the given reading.
  ghost predicate ClockedBy(writes: seq<Write>, now: u64) { forall i :: 0 <= i < |writes| ==> writes[i].now <= now }

  lemma LaterBound(now: u64, later: u64)
    requires now <= later && later + MAX_CLOCK_SKEW_S < TWO64
    ensures Wrap64(now + MAX_CLOCK_SKEW_S) <= Wrap64(later + MAX_CLOCK_SKEW_S)
  {
  }

  // What a run stores is its chain, its chain is coherent, and no block outruns a later clock.
  lemma {:induction false} ServedIsStored(p: Params, writes: seq<Write>, now: u64)
    requires ClockedBy(writes, now) && now + MAX_CLOCK_SKEW_S < TWO64
    ensures var s := Serve(p, writes);
      s.stored == s.chain.blocks && Coherent(p, s.chain) && WithinSkew(s.stored, 1, now)
  {
    if writes == [] {
      InitialCoherent(p);
    } else {
      var init, w := writes[..|writes| - 1], writes[|writes| - 1];
      assert forall i :: 0 <= i < |init| ==> init[i] == writes[i];
      ServedIsStored(p, init, now);
      var s := Serve(p, init);
      var b := Offered(p, s.chain.blocks, w);
      ConnectKeepsCoherent(p, s.chain, b, w.now);
      if Connect(p, s.chain, b, w.now).reason == OK {
        AcceptedStep(p, s.chain, b, w.now);
        LaterBound(w.now, now);
        SkewSnoc(s.stored, b, now);
      }
    }
  }

  lemma {:induction false} StartsAtGenesis(p: Params, blocks: seq<Block>)
    requires LedgerOf(p, blocks).Some?
    ensures blocks != [] && blocks[0] == GenesisBlock(p.crypto)
  {
    if |blocks| > 1 {
      StartsAtGenesis(p, blocks[..|blocks| - 1]);
    }
  }

  lemma CoherentUnique(p: Params, a: ChainState, b: ChainState)
    requires Coherent(p, a) && Coherent(p, b) && a.blocks == b.blocks
    ensures a == b
  {
  }

  // Booting on the blocks of a valid chain, none ahead of the clock's bound, brings up that very chain —
  // blocks, accounts, work and undo log — exactly when what its history minted is, modulo 2^64, one reward
  // per block. Otherwise the node refuses it.
  lemma RebootExactly(p: Params, cs: ChainState, now: u64, appendOk: bool, out: BootResult, chain: ChainState,
                      stored: seq<Block>)
    requires IsGenesisTable(p.genesis) && Coherent(p, cs) && WithinSkew(cs.blocks, 1, now)
    requires Booted(p, Readable(cs.blocks), now, appendOk, out, chain, stored)
    ensures out == Up <==> Wrap64(Minted(History(cs.blocks))) == Wrap64(Times(|cs.blocks| - 1, p.reward))
    ensures out == Up ==> chain == cs && stored == cs.blocks
    ensures out != Up ==> out == Refused(Failed(Wrap64(|cs.blocks| - 1), BadSupply))
  {
    StartsAtGenesis(p, cs.blocks);
    ReplayPassesExactly(p, cs.blocks, now);
    ConnectAllExactly(p, cs.blocks, now);
    if out == Up {
      CoherentUnique(p, chain, cs);
    } else {
      RefusedForSupply(p, cs.blocks, now);
    }
  }

  // So a node that is shut down and booted at a later clock on what it stored comes up with the very chain
  // it had exactly under that condition. Otherwise it refuses its own chain.
  lemma RestartExactly(p: Params, writes: seq<Write>, now: u64, appendOk: bool, out: BootResult, chain: ChainState,
                       stored: seq<Block>)
    requires IsGenesisTable(p.genesis) && ClockedBy(writes, now) && now + MAX_CLOCK_SKEW_S < TWO64
    requires Booted(p, Readable(Serve(p, writes).stored), now, appendOk, out, chain, stored)
    ensures var s := Serve(p, writes);
      && (out == Up <==> Wrap64(Minted(History(s.stored))) == Wrap64(Times(|s.stored| - 1, p.reward)))
      && (out == Up ==> chain == s.chain && stored == s.stored)
      && (out != Up ==> out == Refused(Failed(Wrap64(|s.stored| - 1), BadSupply)))
  {
    ServedIsStored(p, writes, now);
    RebootExactly(p, Serve(p, writes).chain, now, appendOk, out, chain, stored);
  }

  lemma RefusedForSupply(p: Params, blocks: seq<Block>, now: u64)
    requires blocks != [] && blocks[0] == GenesisBlock(p.crypto)
    requires ConnectFrom(p, InitialChain(p), blocks, 1, now).AllConnected? && Replayed(p, blocks, now) != Verified
    ensures Replayed(p, blocks, now) == Failed(Wrap64(|blocks| - 1), BadSupply)
  {
  }

  // What else boot can come to: it comes up on nothing, and is refused for a file that does not parse or for
  // another genesis block.
  lemma BootStartExactly(p: Params, file: ChainFile, now: u64, appendOk: bool, out: BootResult, chain: ChainState,
                         stored: seq<Block>)
    requires Booted(p, file, now, appendOk, out, chain, stored)
    ensures file.Unreadable? ==> out == Refused(file.status)
    ensures file.Absent? || (file.Readable? && file.blocks == []) ==> out == Up && chain == InitialChain(p)
    ensures file.Readable? && file.blocks != [] && file.blocks[0] != GenesisBlock(p.crypto) ==>
      out == Refused(Failed(0, BadLink))
    ensures out != Up ==> chain == InitialChain(p)
  {
  }

  // On a chain of its own it comes up exactly when all of it is a valid chain within the clock's bound whose
  // mints match, and is refused at k for r exactly when the list breaks there, or for its supply.
  lemma BootOutcomeExactly(p: Params, blocks: seq<Block>, now: u64, appendOk: bool, out: BootResult,
                           chain: ChainState, stored: seq<Block>, k: nat, r: Reason)
    requires IsGenesisTable(p.genesis) && k < |blocks| <= TWO64 && blocks[0] == GenesisBlock(p.crypto)
    requires Booted(p, Readable(blocks), now, appendOk, out, chain, stored)
    ensures out == Up <==> LedgerOf(p, blocks).Some? && WithinSkew(blocks, 1, now) &&
                           Wrap64(Minted(History(blocks))) == Wrap64(Times(|blocks| - 1, p.reward))
    ensures out == Up ==> chain == ChainOver(p, blocks)
    ensures out == Refused(Failed(k, r)) <==>
            || BreaksAt(p, blocks, k, now, r)
            || (k == |blocks| - 1 && r == BadSupply && LedgerOf(p, blocks).Some? && WithinSkew(blocks, 1, now) &&
                Wrap64(Minted(History(blocks))) != Wrap64(Times(|blocks| - 1, p.reward)))
  {
    ReplayPassesExactly(p, blocks, now);
    ReplayFailsExactly(p, blocks, now, k, r);
    ConnectAllExactly(p, blocks, now);
    if out == Up {
      CoherentIsOver(p, chain);
    }
  }

  // Whatever boots is coherent.
  lemma BootIsCoherent(p: Params, file: ChainFile, now: u64, appendOk: bool, chain: ChainState, stored: seq<Block>)
    requires Booted(p, file, now, appendOk, Up, chain, stored)
    ensures Coherent(p, chain)
  {
    InitialCoherent(p);
    if file.Readable? && file.blocks != [] {
      ConnectAllExactly(p, file.blocks, now);
    }
  }

  // In proof-of-work mode the condition is that the self-transfers of the history cancel modulo 2^64.
  lemma {:induction false} RebootExactlyUnderReward(p: Params, cs: ChainState, now: u64, appendOk: bool,
                                                    out: BootResult, chain: ChainState, stored: seq<Block>)
    requires IsGenesisTable(p.genesis) && p.reward == COINBASE_REWARD
    requires Coherent(p, cs) && WithinSkew(cs.blocks, 1, now)
    requires Booted(p, Readable(cs.blocks), now, appendOk, out, chain, stored)
    ensures out == Up <==> Wrap64(Total(SelfAmount, History(cs.blocks))) == 0
  {
    RebootExactly(p, cs, now, appendOk, out, chain, stored);
    RewardsCancel(p, cs.blocks);
  }

  lemma RestartExactlyUnderReward(p: Params, writes: seq<Write>, now: u64, appendOk: bool, out: BootResult,
                                  chain: ChainState, stored: seq<Block>)
    requires IsGenesisTable(p.genesis) && p.reward == COINBASE_REWARD
    requires ClockedBy(writes, now) && now + MAX_CLOCK_SKEW_S < TWO64
    requires Booted(p, Readable(Serve(p, writes).stored), now, appendOk, out, chain, stored)
    ensures out == Up <==> Wrap64(Total(SelfAmount, History(Serve(p, writes).stored))) == 0
  {
    ServedIsStored(p, writes, now);
    RebootExactlyUnderReward(p, Serve(p, writes).chain, now, appendOk, out, chain, stored);
  }

  // ---- A restart that is refused ----

  // A seal of one authentic self-transfer by a founder, on a fresh node, is accepted and stored.
  lemma SelfTransferIsSealed(p: Params, t: Txn, now: u64)
    requires IsGenesisTable(p.genesis) && p.difficulty == 0 && p.reward == 0
    requires IsSelfTransfer(t) && t.sender in p.genesis && t.nonce == 0 && t.amount <= GENESIS_AMOUNT
    requires Authentic(p.crypto, t) && GENESIS_TIMESTAMP < now + MAX_CLOCK_SKEW_S < TWO64
    ensures Serve(p, [Seal([t], now)]).stored ==
            [GenesisBlock(p.crypto), SealedBlock(p, [GenesisBlock(p.crypto)], [t], now)]
  {
    var cs, b := InitialChain(p), SealedBlock(p, [GenesisBlock(p.crypto)], [t], now);
    assert [Seal([t], now)][..0] == [];
    assert Serve(p, []) == NodeRun(cs, [GenesisBlock(p.crypto)]);
    assert [t][..0] == [];
    assert GateTxns(p.crypto, p.genesis, [], b.header.index) == Outcome(OK, p.genesis);
    VerdictOkExactly(p.crypto, Lookup(p.genesis, t.sender), t, b.header.index, 0);
    ConnectAcceptsExactly(p, cs, b, now);
  }

  // The node that stored it refuses to boot on it: the amount was minted.
  lemma SelfTransferForfeitsRestart(p: Params, t: Txn, now: u64, later: u64, appendOk: bool, out: BootResult,
                                    chain: ChainState, stored: seq<Block>)
    requires IsGenesisTable(p.genesis) && p.difficulty == 0 && p.reward == 0
    requires IsSelfTransfer(t) && t.sender in p.genesis && t.nonce == 0 && 0 < t.amount <= GENESIS_AMOUNT
    requires Authentic(p.crypto, t) && GENESIS_TIMESTAMP < now + MAX_CLOCK_SKEW_S
    requires now <= later && later + MAX_CLOCK_SKEW_S < TWO64
    requires Booted(p, Readable(Serve(p, [Seal([t], now)]).stored), later, appendOk, out, chain, stored)
    ensures out == Refused(Failed(1, BadSupply))
  {
    var s := Serve(p, [Seal([t], now)]);
    SelfTransferIsSealed(p, t, now);
    RestartExactly(p, [Seal([t], now)], later, appendOk, out, chain, stored);
    HistoryOfTwo(s.stored);
    assert [t][..0] == [] && Minted([t]) == t.amount;
    assert Times(1, 0) == Times(0, 0) == 0;
  }

  lemma HistoryOfTwo(blocks: seq<Block>)
    requires |blocks| == 2
    ensures History(blocks) == blocks[1].txns
  {
    assert History(blocks[..1]) == [];
  }

  lemma SelfTransferFailsReplay(p: Params, t: Txn, now: u64)
    requires IsGenesisTable(p.genesis) && p.difficulty == 0 && p.reward == 0
    requires IsSelfTransfer(t) && t.sender in p.genesis && t.nonce == 0 && 0 < t.amount <= GENESIS_AMOUNT
    requires Authentic(p.crypto, t) && GENESIS_TIMESTAMP < now + MAX_CLOCK_SKEW_S < TWO64
    ensures |Serve(p, [Seal([t], now)]).stored| == 2
    ensures Replayed(p, Serve(p, [Seal([t], now)]).stored, now) == Failed(1, BadSupply)
  {
    var blocks := Serve(p, [Seal([t], now)]).stored;
    SelfTransferIsSealed(p, t, now);
    ServedIsStored(p, [Seal([t], now)], now);
    ConnectAllExactly(p, blocks, now);
    var all := ConnectFrom(p, InitialChain(p), blocks, 1, now);
    if Replayed(p, blocks, now) == Verified {
      SelfTransferForfeitsRestart(p, t, now, now, true, Up, all.chain, blocks);
    } else {
      RefusedForSupply(p, blocks, now);
    }
  }

  lemma AcceptingPrimitives(t: Txn) returns (prim: Primitives)
    requires t.sender == RACHEAL
    ensures Authentic(CryptoOf(prim), t)
  {
    prim := Primitives(_ => RACHEAL + Zeros(12), (_, _, _) => true);
    assert (RACHEAL + Zeros(12))[..20] == RACHEAL;
  }

  // Such a run exists: with the program's own table, and a hash and a signature scheme that accept it.
  lemma ARestartIsRefused() returns (prim: Primitives, t: Txn, now: u64)
    ensures var p := Params(CryptoOf(prim), 0, 0, GENESIS_ALLOC);
      var blocks := Serve(p, [Seal([t], now)]).stored;
      |blocks| == 2 && Replayed(p, blocks, now) == Failed(1, BadSupply)
  {
    t := Txn(TXN_VERSION, RACHEAL, RACHEAL, 100, 0, Zeros(32), Zeros(64));
    now := GENESIS_TIMESTAMP;
    prim := AcceptingPrimitives(t);
    GenesisAllocIsTable();
    SelfTransferFailsReplay(Params(CryptoOf(prim), 0, 0, GENESIS_ALLOC), t, now);
  }
}
