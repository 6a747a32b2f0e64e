/** Genesis, the single write path of the chain, and the laws of every chain it can build. */
module ChainModel {
  import opened Bytes
  import opened Wrappers
  import opened Canonical
  import opened Target
  import opened Gate
  import opened Accounting

  const MAX_CLOCK_SKEW_S := 7200
  const MAX_TXNS_PER_BLOCK := 8

  // ---- Genesis ----

  const GENESIS_COUNT := 5
  const GENESIS_SUPPLY := 5000
  const GENESIS_TIMESTAMP: u64 := 1704067200
  const GENESIS_AMOUNT: u64 := 1000

  const RACHEAL: Address := [0x62, 0x5c, 0x36, 0xc3, 0x4a, 0x65, 0x6b, 0xf2, 0x5a, 0x53,
                             0x8f, 0x8c, 0x23, 0xa1, 0x31, 0x86, 0x98, 0x5a, 0xf6, 0x69]
  const OLIVER: Address := [0x70, 0xdc, 0xb6, 0xdd, 0xa5, 0xae, 0xae, 0x7b, 0xfc, 0x6f,
                            0x08, 0xc5, 0x90, 0x40, 0x2f, 0x6c, 0x0c, 0x78, 0x97, 0x02]
  const MATTHEW: Address := [0x25, 0xb3, 0xab, 0x87, 0x8b, 0x41, 0x2c, 0x08, 0x67, 0x9b,
                             0x9d, 0x2f, 0xd0, 0xa3, 0x0b, 0xc5, 0x28, 0xdc, 0x07, 0x0d]
  const SOPHIA: Address := [0x32, 0x62, 0xbd, 0x9c, 0x6c, 0xdb, 0xe7, 0x68, 0x05, 0x05,
                            0x8f, 0x64, 0x5f, 0x74, 0x1b, 0x8f, 0x15, 0xec, 0x14, 0xfa]
  const DANIEL: Address := [0x99, 0x3b, 0x59, 0x10, 0xd2, 0xfa, 0x78, 0x40, 0x01, 0x75,
                            0x98, 0x37, 0x91, 0xf4, 0x53, 0x5d, 0x16, 0x9e, 0xb7, 0xe3]

  const GENESIS_ALLOC: Ledger :=
    map[RACHEAL := Account(GENESIS_AMOUNT, 0), OLIVER := Account(GENESIS_AMOUNT, 0),
        MATTHEW := Account(GENESIS_AMOUNT, 0), SOPHIA := Account(GENESIS_AMOUNT, 0),
        DANIEL := Account(GENESIS_AMOUNT, 0)]

  // The shape of the allocation table: five addresses, none null, each with the same amount.
  predicate IsGenesisTable(m: Ledger)
  {
    |m| == GENESIS_COUNT && NULL_ADDRESS !in m && forall a :: a in m ==> m[a] == Account(GENESIS_AMOUNT, 0)
  }

  lemma GenesisAllocIsTable()
    ensures IsGenesisTable(GENESIS_ALLOC)
  {
    var m := GENESIS_ALLOC;
    assert RACHEAL[0] == 0x62 && OLIVER[0] == 0x70 && MATTHEW[0] == 0x25 && SOPHIA[0] == 0x32 && DANIEL[0] == 0x99;
    assert NULL_ADDRESS[0] == 0;
    assert m.Keys == {RACHEAL, OLIVER, MATTHEW, SOPHIA, DANIEL};
  }

  lemma {:induction false} SumOfEqual(m: Ledger, v: Account)
    requires forall a :: a in m ==> m[a] == v
    ensures SumBalances(m) == Times(|m|, v.balance)
    decreases |m|
  {
    if m != map[] {
      var a :| a in m;
      SumRemove(m, a);
      SumOfEqual(m - {a}, v);
      assert |m| == |m - {a}| + 1 by { assert m.Keys == (m - {a}).Keys + {a}; }
    }
  }

  // The table is the only source of the initial supply and starts every nonce at zero.
  lemma GenesisSupply(m: Ledger)
    requires IsGenesisTable(m)
    ensures SumBalances(m) == GENESIS_SUPPLY && forall a: Address :: Lookup(m, a).nonce == 0
  {
    SumOfEqual(m, Account(GENESIS_AMOUNT, 0));
    TimesIsProduct(GENESIS_COUNT, GENESIS_AMOUNT);
  }

  /** The constants a chain runs with: primitives, required zero bits, reward, allocation table. */
  datatype Params = Params(crypto: Crypto, difficulty: u32, reward: u64, genesis: Ledger)

  const ZERO_DIGEST: Digest := Zeros(32)

  function GenesisBlock(c: Crypto): Block
  {
    Block(Header(0, GENESIS_TIMESTAMP, ZERO_DIGEST, c.txnsHash([]), 0), [])
  }

  // The 88 bytes every chain starts from: the first second of 2024 at index 0, and zeros around the hash of
  // no transactions.
  lemma GenesisBytes(c: Crypto)
    ensures GenesisBlock(c).txns == []
    ensures SerializeHeader(GenesisBlock(c).header) ==
            Zeros(8) + [0, 0, 0, 0, 0x65, 0x92, 0x00, 0x80] + Zeros(32) + c.txnsHash([]) + Zeros(8)
  {
    Pow256Values();
    assert ToBigEndian(0, 8) == Zeros(8);
    assert ToBigEndian(1704067200, 8) == [0, 0, 0, 0, 0x65, 0x92, 0x00, 0x80];
  }

  // ---- Connecting a block ----

  type UndoRecord = seq<(Address, Account)>

  datatype ChainState = ChainState(blocks: seq<Block>, state: Ledger, cumWork: u128, undo: seq<UndoRecord>)

  function InitialChain(p: Params): ChainState
  {
    ChainState([GenesisBlock(p.crypto)], p.genesis, 0, [])
  }

  function Tip(blocks: seq<Block>): Header
    requires blocks != []
  {
    blocks[|blocks| - 1].header
  }

  // The timestamp of a new block: the clock's, but later than the tip's.
  function StartTime(tipTime: u64, now: u64): u64
  {
    if now < Wrap64(tipTime + 1) then Wrap64(tipTime + 1) else now
  }

  // The least time that is not before the clock and after the tip.
  ghost predicate IsLeastTime(t: u64, tipTime: u64, now: u64)
  {
    Later(t, tipTime, now) && forall u: u64 :: Later(u, tipTime, now) ==> t <= u
  }

  predicate Later(t: u64, tipTime: u64, now: u64) { t >= now && t > tipTime }

  // That is the timestamp of a new block, unless the tip carries the last one there is.
  lemma StartTimeIsLeast(tipTime: u64, now: u64)
    ensures IsLeastTime(StartTime(tipTime, now), tipTime, now) <==> tipTime < TWO64 - 1
  {
    assert Later(StartTime(tipTime, now), tipTime, now) <==> tipTime < TWO64 - 1;
  }

  // The checks V1 to V6 of a block, in order, on what its predecessor fixes.
  function LinkVerdict(p: Params, idx: u64, prevHash: Digest, prevTime: u64, b: Block, now: u64): Reason
  {
    var h := b.header;
    if h.index != idx then BadLink
    else if h.prevHash != prevHash then BadLink
    else if h.timestamp <= prevTime then BadLink
    else if h.timestamp > Wrap64(now + MAX_CLOCK_SKEW_S) then BadLink
    else if !MeetsDifficulty(p.crypto.blockHash(h), p.difficulty) then BadPow
    else if p.crypto.txnsHash(b.txns) != h.txnsHash then BadTxnsHash
    else if |b.txns| > MAX_TXNS_PER_BLOCK then BadTxnsHash
    else OK
  }

  // Each reason of these checks, on the block and what its predecessor fixes.
  lemma LinkReasonsExactly(p: Params, idx: u64, prevHash: Digest, prevTime: u64, b: Block, now: u64)
    ensures var v, h := LinkVerdict(p, idx, prevHash, prevTime, b, now), b.header;
      var linked := h.index == idx && h.prevHash == prevHash && prevTime < h.timestamp <= Wrap64(now + 7200);
      var worked := p.difficulty <= 256 && BigEndian(p.crypto.blockHash(h)) < Pow2(256 - p.difficulty);
      && (v == BadLink <==> !linked)
      && (v == BadPow <==> linked && !worked)
      && (v == BadTxnsHash <==> linked && worked && (p.crypto.txnsHash(b.txns) != h.txnsHash || |b.txns| > 8))
      && (v == OK <==> linked && worked && p.crypto.txnsHash(b.txns) == h.txnsHash && |b.txns| <= 8)
  {
    MeetsDifficultyIsTarget(p.crypto.blockHash(b.header), p.difficulty);
  }

  function TipVerdict(p: Params, blocks: seq<Block>, b: Block, now: u64): Reason
    requires blocks != []
  {
    LinkVerdict(p, Wrap64(|blocks|), p.crypto.blockHash(Tip(blocks)), Tip(blocks).timestamp, b, now)
  }

  // What the undo log records: every sender and recipient with the account it had before the block.
  function Touched(w: Ledger, txns: seq<Txn>): UndoRecord
  {
    if txns == [] then []
    else
      var t := txns[|txns| - 1];
      Touched(w, txns[..|txns| - 1]) + [(t.sender, Lookup(w, t.sender)), (t.recipient, Lookup(w, t.recipient))]
  }

  datatype Connected = Connected(reason: Reason, chain: ChainState)

  function Connect(p: Params, cs: ChainState, b: Block, now: u64): Connected
    requires cs.blocks != []
  {
    var r := TipVerdict(p, cs.blocks, b, now);
    if r != OK then Connected(r, cs)
    else
      var o := GateBlock(p.crypto, cs.state, b, p.reward);
      if o.reason != OK then Connected(o.reason, cs)
      else Connected(OK, ChainState(cs.blocks + [b], o.work, Wrap128(cs.cumWork + BlockWork(p.difficulty)),
                                    cs.undo + [Touched(cs.state, b.txns)]))
  }

  class Chain {
    const p: Params
    var blocks: seq<Block>
    var state: Ledger
    var cumWork: u128
    var undoLog: seq<UndoRecord>

    ghost predicate Valid()
      reads this
    {
      blocks != []
    }

    ghost function View(): ChainState
      reads this
    {
      ChainState(blocks, state, cumWork, undoLog)
    }

    constructor (p: Params)
      ensures Valid() && this.p == p && View() == InitialChain(p)
    {
      this.p := p;
      blocks := [GenesisBlock(p.crypto)];
      state := p.genesis;
      cumWork := 0;
      undoLog := [];
    }

    function Height(): u64
      requires blocks != []
      reads this
    {
      Wrap64(|blocks| - 1)
    }

    function TipHash(): Digest
      requires blocks != []
      reads this
    {
      p.crypto.blockHash(Tip(blocks))
    }

    // V1 to V6, none of which changes anything.
    method CheckAgainstTip(b: Block, now: u64) returns (r: Reason)
      requires Valid()
      ensures r == TipVerdict(p, blocks, b, now)
    {
      var tip := blocks[|blocks| - 1].header;
      WrapWrap(|blocks| - 1, 1);
      if b.header.index != Wrap64(Height() + 1) {
        return BadLink;
      }
      if b.header.prevHash != TipHash() {
        return BadLink;
      }
      if b.header.timestamp <= tip.timestamp {
        return BadLink;
      }
      if b.header.timestamp > Wrap64(now + MAX_CLOCK_SKEW_S) {
        return BadLink;
      }
      var zeroBits := LeadingZeroBits(p.crypto.blockHash(b.header));
      if !(zeroBits >= p.difficulty) {
        return BadPow;
      }
      var commitment := p.crypto.txnsHash(b.txns);
      if commitment != b.header.txnsHash {
        return BadTxnsHash;
      }
      if |b.txns| > MAX_TXNS_PER_BLOCK {
        return BadTxnsHash;
      }
      return OK;
    }

    // The pre-image of every account the block names, taken before anything is applied.
    method SnapshotTouched(work: Ledger, txns: seq<Txn>) returns (inverse: UndoRecord)
      ensures inverse == Touched(work, txns)
    {
      inverse := [];
      for i := 0 to |txns|
        invariant inverse == Touched(work, txns[..i])
      {
        var t := txns[i];
        inverse := inverse + [(t.sender, Lookup(work, t.sender))];
        inverse := inverse + [(t.recipient, Lookup(work, t.recipient))];
        assert txns[..i + 1][..i] == txns[..i];
      }
      assert txns[..|txns|] == txns;
    }

    method ConnectBlock(b: Block, now: u64) returns (r: Reason)
      requires Valid()
      modifies this
      ensures Valid()
      ensures Connected(r, View()) == Connect(p, old(View()), b, now)
    {
      r := CheckAgainstTip(b, now);
      if r != OK {
        return r;
      }
      var work := new AccountMap(state);
      var inverse := SnapshotTouched(work.m, b.txns);
      var at;
      r, at := work.ApplyBlockTxns(p.crypto, b, p.reward);
      if r != OK {
        return r;
      }
      state := work.m;
      blocks := blocks + [b];
      cumWork := Wrap128(cumWork + BlockWork(p.difficulty));
      undoLog := undoLog + [inverse];
      return OK;
    }
  }

  // ---- Valid chains ----

  // Everything connecting checks of a block except the clock.
  predicate Extends(p: Params, blocks: seq<Block>, w: Ledger, b: Block)
    requires blocks != []
  {
    && b.header.index == Wrap64(|blocks|)
    && b.header.prevHash == p.crypto.blockHash(Tip(blocks))
    && b.header.timestamp > Tip(blocks).timestamp
    && MeetsDifficulty(p.crypto.blockHash(b.header), p.difficulty)
    && b.header.txnsHash == p.crypto.txnsHash(b.txns)
    && |b.txns| <= MAX_TXNS_PER_BLOCK
    && GateBlock(p.crypto, w, b, p.reward).reason == OK
  }

  lemma ConnectAcceptsExactly(p: Params, cs: ChainState, b: Block, now: u64)
    requires cs.blocks != []
    ensures Connect(p, cs, b, now).reason == OK <==>
            Extends(p, cs.blocks, cs.state, b) && b.header.timestamp <= Wrap64(now + MAX_CLOCK_SKEW_S)
    ensures Connect(p, cs, b, now).reason != OK ==> Connect(p, cs, b, now).chain == cs
  {
  }

  // Connecting is refused with the reason of the first check that fails: those of the header, else those of
  // the transactions.
  lemma ConnectReasons(p: Params, cs: ChainState, b: Block, now: u64)
    requires cs.blocks != []
    ensures var v := LinkVerdict(p, Wrap64(|cs.blocks|), p.crypto.blockHash(Tip(cs.blocks)), Tip(cs.blocks).timestamp,
                                 b, now);
      Connect(p, cs, b, now).reason == if v != OK then v else GateBlock(p.crypto, cs.state, b, p.reward).reason
  {
  }

  // The ledger of a valid block list, rebuilt from genesis; None when some block does not extend its
  // predecessors.
  function LedgerOf(p: Params, blocks: seq<Block>): Option<Ledger>
  {
    if blocks == [] then None
    else if |blocks| == 1 then if blocks[0] == GenesisBlock(p.crypto) then Some(p.genesis) else None
    else
      var init, b := blocks[..|blocks| - 1], blocks[|blocks| - 1];
      match LedgerOf(p, init)
      case None => None
      case Some(w) =>
        if Extends(p, init, w, b) then Some(GateTxns(p.crypto, w, b.txns, b.header.index).work) else None
  }

  // The undo log of a valid block list.
  function UndoOf(p: Params, blocks: seq<Block>): seq<UndoRecord>
    requires LedgerOf(p, blocks).Some?
  {
    if |blocks| == 1 then []
    else
      var init, b := blocks[..|blocks| - 1], blocks[|blocks| - 1];
      UndoOf(p, init) + [Touched(LedgerOf(p, init).value, b.txns)]
  }

  function WorkOf(p: Params, blocks: seq<Block>): u128
    requires blocks != []
  {
    Wrap128(Times(|blocks| - 1, BlockWork(p.difficulty)))
  }

  // The fields of a chain are determined by its blocks.
  ghost predicate Coherent(p: Params, cs: ChainState)
  {
    && LedgerOf(p, cs.blocks) == Some(cs.state)
    && cs.cumWork == WorkOf(p, cs.blocks)
    && cs.undo == UndoOf(p, cs.blocks)
  }

  lemma InitialCoherent(p: Params)
    ensures Coherent(p, InitialChain(p))
  {
  }

  lemma WorkStep(n: nat, w: u128)
    ensures Wrap128(Wrap128(Times(n, w)) + w) == Wrap128(Times(n + 1, w))
  {
    Wrap128Wrap(Times(n, w), w);
  }

  lemma LedgerOfSnoc(p: Params, blocks: seq<Block>, b: Block)
    requires LedgerOf(p, blocks).Some?
    ensures var w := LedgerOf(p, blocks).value;
            LedgerOf(p, blocks + [b]) ==
            if Extends(p, blocks, w, b) then Some(GateTxns(p.crypto, w, b.txns, b.header.index).work) else None
  {
    assert (blocks + [b])[..|blocks|] == blocks;
  }

  lemma UndoOfSnoc(p: Params, blocks: seq<Block>, b: Block)
    requires LedgerOf(p, blocks).Some? && LedgerOf(p, blocks + [b]).Some?
    ensures UndoOf(p, blocks + [b]) == UndoOf(p, blocks) + [Touched(LedgerOf(p, blocks).value, b.txns)]
  {
    assert (blocks + [b])[..|blocks|] == blocks;
    assert blocks != [];
  }

  // What an accepted block does to the four fields.
  lemma ConnectedFields(p: Params, cs: ChainState, b: Block, now: u64)
    requires cs.blocks != [] && Connect(p, cs, b, now).reason == OK
    ensures var next := Connect(p, cs, b, now).chain;
      && Extends(p, cs.blocks, cs.state, b)
      && next.blocks == cs.blocks + [b]
      && next.state == GateTxns(p.crypto, cs.state, b.txns, b.header.index).work
      && next.cumWork == Wrap128(cs.cumWork + BlockWork(p.difficulty))
      && next.undo == cs.undo + [Touched(cs.state, b.txns)]
  {
  }

  lemma WorkOfSnoc(p: Params, blocks: seq<Block>, b: Block)
    requires blocks != []
    ensures WorkOf(p, blocks + [b]) == Wrap128(WorkOf(p, blocks) + BlockWork(p.difficulty))
  {
    WorkStep(|blocks| - 1, BlockWork(p.difficulty));
  }

  lemma CoherentSnoc(p: Params, cs: ChainState, b: Block, next: ChainState)
    requires Coherent(p, cs) && Extends(p, cs.blocks, cs.state, b) && next.blocks == cs.blocks + [b]
    requires next.state == GateTxns(p.crypto, cs.state, b.txns, b.header.index).work
    requires next.cumWork == Wrap128(cs.cumWork + BlockWork(p.difficulty))
    requires next.undo == cs.undo + [Touched(cs.state, b.txns)]
    ensures Coherent(p, next)
  {
    LedgerOfSnoc(p, cs.blocks, b);
    UndoOfSnoc(p, cs.blocks, b);
    WorkOfSnoc(p, cs.blocks, b);
  }

  // One attempt to connect, accepted or refused, keeps a chain coherent.
  lemma ConnectKeepsCoherent(p: Params, cs: ChainState, b: Block, now: u64)
    requires Coherent(p, cs)
    ensures Coherent(p, Connect(p, cs, b, now).chain)
  {
    if Connect(p, cs, b, now).reason == OK {
      ConnectedFields(p, cs, b, now);
      CoherentSnoc(p, cs, b, Connect(p, cs, b, now).chain);
    }
  }

  /** A run: any blocks offered at any clock readings, refused ones included. */
  function Run(p: Params, attempts: seq<(Block, u64)>): (cs: ChainState)
    ensures cs.blocks != []
  {
    if attempts == [] then InitialChain(p)
    else
      var last := attempts[|attempts| - 1];
      var prev := Run(p, attempts[..|attempts| - 1]);
      var next := Connect(p, prev, last.0, last.1);
      next.chain
  }

  lemma {:induction false} EveryRunIsCoherent(p: Params, attempts: seq<(Block, u64)>)
    ensures Coherent(p, Run(p, attempts))
  {
    if attempts == [] {
      InitialCoherent(p);
    } else {
      var last := attempts[|attempts| - 1];
      EveryRunIsCoherent(p, attempts[..|attempts| - 1]);
      ConnectKeepsCoherent(p, Run(p, attempts[..|attempts| - 1]), last.0, last.1);
    }
  }

  lemma {:induction false} LedgerOfPrefix(p: Params, blocks: seq<Block>, n: nat)
    requires LedgerOf(p, blocks).Some? && 0 < n <= |blocks|
    ensures LedgerOf(p, blocks[..n]).Some?
    decreases |blocks|
  {
    if n == |blocks| {
      assert blocks[..n] == blocks;
    } else {
      LedgerOfPrefix(p, blocks[..|blocks| - 1], n);
      assert blocks[..|blocks| - 1][..n] == blocks[..n];
    }
  }

  // ---- The history of a chain and its laws ----

  function History(blocks: seq<Block>): seq<Txn>
  {
    if |blocks| <= 1 then [] else History(blocks[..|blocks| - 1]) + blocks[|blocks| - 1].txns
  }

  lemma {:induction false} ApplyConcat(w: Ledger, xs: seq<Txn>, ys: seq<Txn>)
    requires Funded(w, xs) && Funded(ApplyAll(w, xs), ys)
    ensures Funded(w, xs + ys) && ApplyAll(w, xs + ys) == ApplyAll(ApplyAll(w, xs), ys)
  {
    if ys == [] {
      assert xs + ys == xs;
    } else {
      ApplyConcat(w, xs, ys[..|ys| - 1]);
      assert (xs + ys)[..|xs + ys| - 1] == xs + ys[..|ys| - 1];
    }
  }

  // The committed ledger is the genesis ledger with the whole history applied.
  lemma {:induction false} LedgerIsHistory(p: Params, blocks: seq<Block>)
    requires LedgerOf(p, blocks).Some?
    ensures Funded(p.genesis, History(blocks))
    ensures LedgerOf(p, blocks).value == ApplyAll(p.genesis, History(blocks))
  {
    if |blocks| > 1 {
      var init, b := blocks[..|blocks| - 1], blocks[|blocks| - 1];
      var w := LedgerOf(p, init).value;
      LedgerIsHistory(p, init);
      AcceptedIsApplied(p.crypto, w, b.txns, b.header.index);
      ApplyConcat(p.genesis, History(init), b.txns);
    }
  }

  // Every account of every valid chain: genesis allocation plus all it received less all it sent away,
  // modulo 2^64, with the number of its sends as its nonce.
  lemma BalanceSheet(p: Params, blocks: seq<Block>, a: Address)
    requires LedgerOf(p, blocks).Some?
    ensures var h := History(blocks);
      Lookup(LedgerOf(p, blocks).value, a) ==
      AccountAfter(Lookup(p.genesis, a), Total(Received(a), h), Total(Sent(a), h), Total(SendCount(a), h))
  {
    LedgerIsHistory(p, blocks);
    AccountLaw(p.genesis, History(blocks), a);
  }

  // Supply law of every valid chain.
  lemma ChainSupply(p: Params, blocks: seq<Block>)
    requires LedgerOf(p, blocks).Some? && IsGenesisTable(p.genesis)
    ensures Tracks(GENESIS_SUPPLY + Minted(History(blocks)), SumBalances(LedgerOf(p, blocks).value))
  {
    LedgerIsHistory(p, blocks);
    GenesisSupply(p.genesis);
    SupplyLaw(p.genesis, History(blocks));
  }

  lemma {:induction false} CoinbasesOfList(c: Crypto, w: Ledger, txns: seq<Txn>, idx: u64)
    requires GateTxns(c, w, txns, idx).reason == OK
    ensures Total(Coinbases, txns) == if txns != [] && IsCoinbase(txns[0]) then 1 else 0
  {
    if |txns| > 1 {
      CoinbasesOfList(c, w, txns[..|txns| - 1], idx);
    }
  }

  // Under a reward every block after genesis mints exactly once.
  lemma {:induction false} OneCoinbasePerBlock(p: Params, blocks: seq<Block>)
    requires LedgerOf(p, blocks).Some? && p.reward > 0
    ensures Total(Coinbases, History(blocks)) == |blocks| - 1
  {
    if |blocks| > 1 {
      var init, b := blocks[..|blocks| - 1], blocks[|blocks| - 1];
      OneCoinbasePerBlock(p, init);
      CoinbasesOfList(p.crypto, LedgerOf(p, init).value, b.txns, b.header.index);
      TotalConcat(Coinbases, History(init), b.txns);
    }
  }

  // Without self-transfers the money supply is the closed form, exactly, and nothing ever wraps.
  lemma SupplyWithoutSelfTransfers(p: Params, blocks: seq<Block>)
    requires LedgerOf(p, blocks).Some? && IsGenesisTable(p.genesis) && p.reward == COINBASE_REWARD
    requires Total(SelfAmount, History(blocks)) == 0
    requires GENESIS_SUPPLY + Times(|blocks| - 1, COINBASE_REWARD) < TWO64
    ensures SumBalances(LedgerOf(p, blocks).value) == 5000 + 50 * (|blocks| - 1)
  {
    ChainSupply(p, blocks);
    MintedWithoutSelfTransfers(p, blocks);
    TracksMeaning(GENESIS_SUPPLY + Minted(History(blocks)), SumBalances(LedgerOf(p, blocks).value));
  }

  lemma MintedWithoutSelfTransfers(p: Params, blocks: seq<Block>)
    requires LedgerOf(p, blocks).Some? && p.reward == COINBASE_REWARD && Total(SelfAmount, History(blocks)) == 0
    ensures Minted(History(blocks)) == Times(|blocks| - 1, COINBASE_REWARD) == 50 * (|blocks| - 1)
  {
    OneCoinbasePerBlock(p, blocks);
    MintedIs(History(blocks));
    TimesIsProduct(|blocks| - 1, 50);
  }

  // ---- Nonces and double inclusion ----

  lemma {:induction false} FundedPrefix(w: Ledger, txns: seq<Txn>, k: nat)
    requires Funded(w, txns) && k <= |txns|
    ensures Funded(w, txns[..k])
  {
    if k < |txns| {
      FundedPrefix(w, txns[..|txns| - 1], k);
      assert txns[..|txns| - 1][..k] == txns[..k];
    } else {
      assert txns[..k] == txns;
    }
  }

  // The k-th transaction of a history carries the number of earlier sends of its sender, modulo 2^64.
  lemma NonceCountsSends(p: Params, blocks: seq<Block>, k: nat)
    requires LedgerOf(p, blocks).Some? && IsGenesisTable(p.genesis)
    requires k < |History(blocks)| && !IsCoinbase(History(blocks)[k])
    ensures History(blocks)[k].nonce == Wrap64(Total(SendCount(History(blocks)[k].sender), History(blocks)[..k]))
  {
    var h := History(blocks);
    LedgerIsHistory(p, blocks);
    FundedPrefix(p.genesis, h, k);
    FundedPrefix(p.genesis, h, k + 1);
    assert h[..k + 1][..k] == h[..k] && h[..k + 1][k] == h[k];
    AccountLaw(p.genesis, h[..k], h[k].sender);
    GenesisSupply(p.genesis);
  }

  lemma {:induction false} SendCountBound(q: Metric, ts: seq<Txn>)
    requires q.SendCount?
    ensures Total(q, ts) <= |ts|
  {
    if ts != [] {
      SendCountBound(q, ts[..|ts| - 1]);
    }
  }

  lemma SendsBetween(h: seq<Txn>, i: nat, j: nat, a: Address)
    requires i < j <= |h| && Leaves(h[i], a)
    ensures Total(SendCount(a), h[..i]) < Total(SendCount(a), h[..j]) <= j
  {
    var q := SendCount(a);
    SendCountBound(q, h[..j]);
    assert h[..j][..i + 1] == h[..i + 1];
    assert h[..i + 1][..i] == h[..i];
    assert h[..i + 1][i] == h[i];
    assert Total(q, h[..i + 1]) == Total(q, h[..i]) + 1;
    TotalPrefix(q, h[..j], i + 1);
  }

  // In a history of at most 2^64 transactions, transfers away from one sender carry strictly increasing
  // nonces, so none occurs twice.
  lemma NoTransferTwice(p: Params, blocks: seq<Block>, i: nat, j: nat)
    requires LedgerOf(p, blocks).Some? && IsGenesisTable(p.genesis) && i < j < |History(blocks)| <= TWO64
    requires Leaves(History(blocks)[i], History(blocks)[i].sender)
    requires !IsCoinbase(History(blocks)[j]) && History(blocks)[j].sender == History(blocks)[i].sender
    ensures History(blocks)[i].nonce < History(blocks)[j].nonce
  {
    var h := History(blocks);
    NonceCountsSends(p, blocks, i);
    NonceCountsSends(p, blocks, j);
    SendsBetween(h, i, j, h[i].sender);
  }

  // The coinbase of a block carries the block's index, so no two blocks share one.
  lemma CoinbaseCarriesIndex(p: Params, blocks: seq<Block>, i: nat)
    requires LedgerOf(p, blocks).Some? && 0 < i < |blocks| <= TWO64
    requires blocks[i].txns != [] && IsCoinbase(blocks[i].txns[0])
    ensures blocks[i].txns[0].nonce == i
  {
    var w := BlockExtendsPrefix(p, blocks, i);
    AcceptedCoinbaseIsGood(p.crypto, w, blocks[i].txns, blocks[i].header.index);
  }

  lemma BlockExtendsPrefix(p: Params, blocks: seq<Block>, i: nat) returns (w: Ledger)
    requires LedgerOf(p, blocks).Some? && 0 < i < |blocks|
    ensures LedgerOf(p, blocks[..i]) == Some(w) && Extends(p, blocks[..i], w, blocks[i])
  {
    LedgerOfPrefix(p, blocks, i + 1);
    LedgerOfPrefix(p, blocks, i);
    assert blocks[..i + 1][..i] == blocks[..i] && blocks[..i + 1][i] == blocks[i];
    w := LedgerOf(p, blocks[..i]).value;
  }

  // ---- Inclusion a second time ----

  lemma {:induction false} TransfersAreAuthentic(p: Params, blocks: seq<Block>, k: nat)
    requires LedgerOf(p, blocks).Some? && k < |History(blocks)| && !IsCoinbase(History(blocks)[k])
    ensures Authentic(p.crypto, History(blocks)[k])
  {
    var init, b := blocks[..|blocks| - 1], blocks[|blocks| - 1];
    if k < |History(init)| {
      TransfersAreAuthentic(p, init, k);
    } else {
      AcceptedIsAcceptable(p.crypto, LedgerOf(p, init).value, b.txns, b.header.index, k - |History(init)|);
    }
  }

  // The ledger on which position j of a history is judged.
  ghost function LedgerAt(p: Params, h: seq<Txn>, j: nat): Ledger
    requires j <= |h|
  {
    ApplyAll(p.genesis, h[..j])
  }

  lemma NonceAt(p: Params, blocks: seq<Block>, j: nat, a: Address)
    requires LedgerOf(p, blocks).Some? && IsGenesisTable(p.genesis) && j <= |History(blocks)|
    ensures Lookup(LedgerAt(p, History(blocks), j), a).nonce == Wrap64(Total(SendCount(a), History(blocks)[..j]))
  {
    LedgerIsHistory(p, blocks);
    FundedPrefix(p.genesis, History(blocks), j);
    AccountLaw(p.genesis, History(blocks)[..j], a);
    GenesisSupply(p.genesis);
  }

  lemma SameCount(q: Metric, h: seq<Txn>, i: nat, j: nat)
    requires i <= j <= |h|
    ensures Wrap64(Total(q, h[..i])) == Wrap64(Total(q, h[..j])) <==> Wrap64(Total(q, h[i..j])) == 0
  {
    TotalConcat(q, h[..i], h[i..j]);
    assert h[..j] == h[..i] + h[i..j];
    SameShift(0, Total(q, h[i..j]), Total(q, h[..i]));
  }

  // A transfer that a chain includes at position i is accepted again at a later position j of the history,
  // or behind its end, exactly when its sender's sends from i up to j — itself included, if it is one — are
  // a multiple of 2^64, and the balance there covers the amount.
  lemma IncludedAgainExactly(p: Params, blocks: seq<Block>, i: nat, j: nat, idx: u64, ti: nat)
    requires LedgerOf(p, blocks).Some? && IsGenesisTable(p.genesis)
    requires i < j <= |History(blocks)| && !IsCoinbase(History(blocks)[i])
    ensures var h := History(blocks);
      var t, w := h[i], LedgerAt(p, h, j);
      GateTxn(p.crypto, w, t, idx, ti).reason == OK <==>
      Wrap64(Total(SendCount(t.sender), h[i..j])) == 0 && t.amount <= Lookup(w, t.sender).balance
  {
    var h := History(blocks);
    var t, w := h[i], LedgerAt(p, h, j);
    TransfersAreAuthentic(p, blocks, i);
    NonceCountsSends(p, blocks, i);
    NonceAt(p, blocks, j, t.sender);
    SameCount(SendCount(t.sender), h, i, j);
    VerdictOkExactly(p.crypto, Lookup(w, t.sender), t, idx, ti);
  }

  lemma {:induction false} NoSendsExactly(ts: seq<Txn>, a: Address)
    ensures Total(SendCount(a), ts) == 0 <==> forall k :: 0 <= k < |ts| ==> !Leaves(ts[k], a)
  {
    if ts != [] {
      var init := ts[..|ts| - 1];
      NoSendsExactly(init, a);
      assert forall k :: 0 <= k < |init| ==> init[k] == ts[k];
    }
  }

  // So in a history shorter than 2^64 an included self-transfer is accepted again exactly until its sender's
  // next send, as long as the balance covers its amount; its own nonce never stops it.
  lemma SelfTransferAgainExactly(p: Params, blocks: seq<Block>, i: nat, j: nat, idx: u64, ti: nat)
    requires LedgerOf(p, blocks).Some? && IsGenesisTable(p.genesis)
    requires i < j <= |History(blocks)| < TWO64 && IsSelfTransfer(History(blocks)[i])
    ensures var h := History(blocks);
      var t, w := h[i], LedgerAt(p, h, j);
      GateTxn(p.crypto, w, t, idx, ti).reason == OK <==>
      (forall k :: i <= k < j ==> !Leaves(h[k], t.sender)) && t.amount <= Lookup(w, t.sender).balance
  {
    var h := History(blocks);
    var a := h[i].sender;
    IncludedAgainExactly(p, blocks, i, j, idx, ti);
    NoSendsExactly(h[i..j], a);
    SendCountBound(SendCount(a), h[i..j]);
    assert forall k :: i <= k < j ==> h[i..j][k - i] == h[k];
  }

  // Right after it was accepted, the balance covers it unless the minted balance wrapped.
  lemma SelfTransferReplays(c: Crypto, w: Ledger, t: Txn, idx: u64, ti: nat, idx': u64, ti': nat)
    requires IsSelfTransfer(t) && GateTxn(c, w, t, idx, ti).reason == OK
    ensures GateTxn(c, GateTxn(c, w, t, idx, ti).work, t, idx', ti').reason == OK <==>
            Lookup(w, t.sender).balance + t.amount < TWO64
  {
    VerdictOkExactly(c, Lookup(w, t.sender), t, idx, ti);
    AccountLawTxn(w, t, t.sender);
    VerdictOkExactly(c, Lookup(Apply(w, t), t.sender), t, idx', ti');
  }

  // ---- The undo log ----

  function Restore(m: Ledger, undo: UndoRecord): Ledger
  {
    if undo == [] then m
    else
      var (a, acct) := undo[|undo| - 1];
      Restore(m, undo[..|undo| - 1])[a := acct]
  }

  ghost predicate SameAccounts(m: Ledger, n: Ledger)
  {
    forall a: Address :: Lookup(m, a) == Lookup(n, a)
  }

  ghost predicate Names(txns: seq<Txn>, a: Address)
  {
    exists i :: 0 <= i < |txns| && (txns[i].sender == a || txns[i].recipient == a)
  }

  lemma NamesSnoc(txns: seq<Txn>, t: Txn, a: Address)
    ensures Names(txns + [t], a) <==> Names(txns, a) || t.sender == a || t.recipient == a
  {
    var all := txns + [t];
    assert all[|txns|] == t;
    if Names(txns, a) {
      var i :| 0 <= i < |txns| && (txns[i].sender == a || txns[i].recipient == a);
      assert all[i] == txns[i];
    }
  }

  lemma RestoreTwo(m: Ledger, undo: UndoRecord, x: (Address, Account), y: (Address, Account), a: Address)
    ensures Lookup(Restore(m, undo + [x, y]), a) ==
            if a == y.0 then y.1 else if a == x.0 then x.1 else Lookup(Restore(m, undo), a)
  {
    var u := undo + [x, y];
    assert u[..|u| - 1] == undo + [x];
    assert (undo + [x])[..|undo|] == undo;
  }

  // Restoring puts back the recorded account of every address in the record and touches no other.
  lemma {:induction false} RestoreAt(m: Ledger, w: Ledger, txns: seq<Txn>, a: Address)
    ensures Lookup(Restore(m, Touched(w, txns)), a) == if Names(txns, a) then Lookup(w, a) else Lookup(m, a)
  {
    if txns != [] {
      var t, init := txns[|txns| - 1], txns[..|txns| - 1];
      RestoreAt(m, w, init, a);
      assert txns == init + [t];
      NamesSnoc(init, t, a);
      RestoreTwo(m, Touched(w, init), (t.sender, Lookup(w, t.sender)), (t.recipient, Lookup(w, t.recipient)), a);
    }
  }

  lemma {:induction false} UntouchedKeeps(w: Ledger, txns: seq<Txn>, a: Address)
    requires !Names(txns, a)
    ensures Lookup(ApplyAll(w, txns), a) == Lookup(w, a)
  {
    if txns != [] {
      assert txns == txns[..|txns| - 1] + [txns[|txns| - 1]];
      NamesSnoc(txns[..|txns| - 1], txns[|txns| - 1], a);
      UntouchedKeeps(w, txns[..|txns| - 1], a);
    }
  }

  // The record of one block takes the ledger after the block back to the accounts before it, repeated
  // addresses included.
  lemma UndoBlock(m: Ledger, w: Ledger, txns: seq<Txn>)
    requires SameAccounts(m, ApplyAll(w, txns))
    ensures SameAccounts(Restore(m, Touched(w, txns)), w)
  {
    forall a: Address ensures Lookup(Restore(m, Touched(w, txns)), a) == Lookup(w, a) {
      RestoreAt(m, w, txns, a);
      if !Names(txns, a) {
        UntouchedKeeps(w, txns, a);
      }
    }
  }

  // Unwinding the newest records first, down to a log of length n.
  function Unwind(m: Ledger, undo: seq<UndoRecord>, n: nat): Ledger
    requires n <= |undo|
    decreases |undo|
  {
    if n == |undo| then m else Unwind(Restore(m, undo[|undo| - 1]), undo[..|undo| - 1], n)
  }

  lemma {:induction false} UndoLogLength(p: Params, blocks: seq<Block>)
    requires LedgerOf(p, blocks).Some?
    ensures |UndoOf(p, blocks)| == |blocks| - 1
  {
    if |blocks| > 1 {
      UndoLogLength(p, blocks[..|blocks| - 1]);
    }
  }

  // Unwinding the log recovers the accounts of the chain at every earlier height.
  lemma {:induction false} UndoLogSuffices(p: Params, blocks: seq<Block>, m: Ledger, height: nat)
    requires LedgerOf(p, blocks).Some? && height < |blocks| && SameAccounts(m, LedgerOf(p, blocks).value)
    ensures |UndoOf(p, blocks)| == |blocks| - 1 && LedgerOf(p, blocks[..height + 1]).Some?
    ensures SameAccounts(Unwind(m, UndoOf(p, blocks), height), LedgerOf(p, blocks[..height + 1]).value)
    decreases |blocks|
  {
    UndoLogLength(p, blocks);
    LedgerOfPrefix(p, blocks, height + 1);
    if height == |blocks| - 1 {
      assert blocks[..height + 1] == blocks;
    } else {
      var init, b := blocks[..|blocks| - 1], blocks[|blocks| - 1];
      var w := LedgerOf(p, init).value;
      AcceptedIsApplied(p.crypto, w, b.txns, b.header.index);
      UndoBlock(m, w, b.txns);
      var undo := UndoOf(p, blocks);
      assert undo[..|undo| - 1] == UndoOf(p, init);
      UndoLogLength(p, init);
      UndoLogSuffices(p, init, Restore(m, undo[|undo| - 1]), height);
      assert init[..height + 1] == blocks[..height + 1];
    }
  }

  // ---- The shape of valid chains ----

  lemma {:induction false} TimesIncrease(p: Params, blocks: seq<Block>, i: nat, j: nat)
    requires LedgerOf(p, blocks).Some? && i < j < |blocks|
    ensures blocks[i].header.timestamp < blocks[j].header.timestamp
  {
    var w := BlockExtendsPrefix(p, blocks, j);
    assert Tip(blocks[..j]) == blocks[j - 1].header;
    if i < j - 1 {
      TimesIncrease(p, blocks, i, j - 1);
    }
  }

  // On a valid chain every mined block carries its position and its predecessor's hash, meets the target,
  // commits to its at most eight transactions, and is later than every block before it.
  lemma ValidChainShape(p: Params, blocks: seq<Block>, i: nat)
    requires LedgerOf(p, blocks).Some? && 0 < i < |blocks|
    ensures var b := blocks[i];
      && b.header.index == Wrap64(i) && b.header.prevHash == p.crypto.blockHash(blocks[i - 1].header)
      && p.difficulty <= 256 && BigEndian(p.crypto.blockHash(b.header)) < Pow2(256 - p.difficulty)
      && b.header.txnsHash == p.crypto.txnsHash(b.txns) && |b.txns| <= 8
    ensures forall k :: 0 <= k < i ==> blocks[k].header.timestamp < blocks[i].header.timestamp
  {
    var w := BlockExtendsPrefix(p, blocks, i);
    assert Tip(blocks[..i]) == blocks[i - 1].header;
    MeetsDifficultyIsTarget(p.crypto.blockHash(blocks[i].header), p.difficulty);
    forall k | 0 <= k < i ensures blocks[k].header.timestamp < blocks[i].header.timestamp {
      TimesIncrease(p, blocks, k, i);
    }
  }
}
