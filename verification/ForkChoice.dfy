/** Cumulative work and the choice between whole chains. */
module ForkChoice {
  import opened Bytes
  import opened Canonical
  import opened Target
  import opened ChainModel
  import opened Replay

  // Genesis costs nothing, every other block 2^D, in 128-bit arithmetic.
  function CumulativeWork(blocks: seq<Block>, D: u32): u128
  {
    if blocks == [] then 0 else Wrap128((|blocks| - 1) * BlockWork(D))
  }

  predicate CandidateWins(candidateWork: u128, activeWork: u128) { candidateWork > activeWork }

  // The closed form is what connecting accumulates.
  lemma WorkIsAccumulated(p: Params, attempts: seq<(Block, u64)>)
    ensures Run(p, attempts).cumWork == CumulativeWork(Run(p, attempts).blocks, p.difficulty)
    ensures p.difficulty < 128 ==>
      Run(p, attempts).cumWork == Wrap128((|Run(p, attempts).blocks| - 1) * Pow2(p.difficulty))
  {
    EveryRunIsCoherent(p, attempts);
    TimesIsProduct(|Run(p, attempts).blocks| - 1, BlockWork(p.difficulty));
  }

  datatype ImportResult = ImportResult(
    valid: bool, won: bool, status: VerifyResult, activeWork: u128, candidateWork: u128)

  method EvaluateImport(p: Params, active: seq<Block>, candidate: seq<Block>, now: u64) returns (r: ImportResult)
    ensures r.status == Replayed(p, candidate, now)
    ensures r.activeWork == CumulativeWork(active, p.difficulty)
    ensures r.candidateWork == CumulativeWork(candidate, p.difficulty)
    ensures p.difficulty < 128 && active != [] ==> r.activeWork == Wrap128((|active| - 1) * Pow2(p.difficulty))
    ensures p.difficulty < 128 && candidate != [] ==>
      r.candidateWork == Wrap128((|candidate| - 1) * Pow2(p.difficulty))
    ensures r.valid <==> r.status == Verified
    ensures r.won <==> r.status == Verified && r.candidateWork > r.activeWork
    ensures Import(p, active, Offer(candidate, now)) == if r.won then candidate else active
  {
    var status := ReplayFromGenesis(p, candidate, now);
    var valid := status == Verified;
    var activeWork := CumulativeWork(active, p.difficulty);
    var candidateWork := CumulativeWork(candidate, p.difficulty);
    var won := valid && CandidateWins(candidateWork, activeWork);
    r := ImportResult(valid, won, status, activeWork, candidateWork);
  }

  // ---- Runs of imports ----

  datatype Offer = Offer(blocks: seq<Block>, now: u64)

  ghost predicate ValidOffer(p: Params, o: Offer) { Replayed(p, o.blocks, o.now) == Verified }

  // The caller swaps the whole chain exactly when the candidate won.
  ghost function Import(p: Params, active: seq<Block>, o: Offer): seq<Block>
  {
    if ValidOffer(p, o) && CandidateWins(CumulativeWork(o.blocks, p.difficulty), CumulativeWork(active, p.difficulty))
    then o.blocks else active
  }

  ghost function Imports(p: Params, incumbent: seq<Block>, offers: seq<Offer>): seq<Block>
  {
    if offers == [] then incumbent
    else Import(p, Imports(p, incumbent, offers[..|offers| - 1]), offers[|offers| - 1])
  }

  // The chains that stood for election: the incumbent, then the valid candidates in order of arrival.
  ghost function Contenders(p: Params, incumbent: seq<Block>, offers: seq<Offer>): seq<seq<Block>>
  {
    if offers == [] then [incumbent]
    else
      var o := offers[|offers| - 1];
      Contenders(p, incumbent, offers[..|offers| - 1]) + if ValidOffer(p, o) then [o.blocks] else []
  }

  // The k-th contender carries at least everyone's work, and strictly more than everyone's before it.
  ghost predicate FirstHeaviest(D: u32, chains: seq<seq<Block>>, k: nat)
  {
    && k < |chains|
    && (forall j :: 0 <= j < |chains| ==> CumulativeWork(chains[j], D) <= CumulativeWork(chains[k], D))
    && (forall j :: 0 <= j < k ==> CumulativeWork(chains[j], D) < CumulativeWork(chains[k], D))
  }

  // After any sequence of imports the active chain is the first heaviest contender: work never buys
  // validity, a tie keeps the earlier chain, and the order of losing offers does not matter.
  lemma {:induction false} ActiveIsFirstHeaviest(p: Params, incumbent: seq<Block>, offers: seq<Offer>) returns (k: nat)
    ensures FirstHeaviest(p.difficulty, Contenders(p, incumbent, offers), k)
    ensures Imports(p, incumbent, offers) == Contenders(p, incumbent, offers)[k]
  {
    if offers == [] {
      k := 0;
    } else {
      k := ActiveIsFirstHeaviest(p, incumbent, offers[..|offers| - 1]);
      var o := offers[|offers| - 1];
      var before := Contenders(p, incumbent, offers[..|offers| - 1]);
      if ValidOffer(p, o) {
        assert Contenders(p, incumbent, offers) == before + [o.blocks];
        if CandidateWins(CumulativeWork(o.blocks, p.difficulty), CumulativeWork(before[k], p.difficulty)) {
          k := |before|;
        }
      } else {
        assert Contenders(p, incumbent, offers) == before;
      }
    }
  }

  // All pairs of chains of at most n blocks are ordered by length.
  ghost predicate OrderedByLength(D: u32, n: nat)
  {
    forall a: seq<Block>, c: seq<Block> :: 0 < |a| <= n && 0 < |c| <= n ==>
      (CandidateWins(CumulativeWork(c, D), CumulativeWork(a, D)) <==> |c| > |a|)
  }

  lemma WorkBelow(blocks: seq<Block>, n: nat, D: u32)
    requires 0 < |blocks| <= n && (n - 1) * BlockWork(D) < TWO128
    ensures CumulativeWork(blocks, D) == (|blocks| - 1) * BlockWork(D)
  {
    ProductOrder(|blocks| - 1, n, BlockWork(D));
    ProductOrder(n - 1, |blocks| - 1, BlockWork(D));
    assert (|blocks| - 1) * BlockWork(D) >= 0;
  }

  lemma BlockWorkBound(D: u32)
    ensures 0 < BlockWork(D) < TWO128
  {
    if D < 128 {
      Pow2Fits128(D);
    }
  }

  // The least number of blocks' work that overflows.
  lemma {:induction false} FirstOverflow(w: nat, n: nat) returns (k: nat)
    requires 0 < w < TWO128 && n * w >= TWO128
    ensures 1 < k <= n && (k - 1) * w < TWO128 <= k * w
  {
    if (n - 1) * w < TWO128 {
      k := n;
    } else {
      k := FirstOverflow(w, n - 1);
    }
  }

  // The chain whose work overflows first weighs less than a chain with one mined block.
  lemma OverflowWork(blocks: seq<Block>, k: nat, D: u32)
    requires |blocks| == k + 1 && k > 0
    requires (k - 1) * BlockWork(D) < TWO128 <= k * BlockWork(D)
    ensures CumulativeWork(blocks, D) < BlockWork(D)
  {
    BlockWorkBound(D);
    assert k * BlockWork(D) == (k - 1) * BlockWork(D) + BlockWork(D);
  }

  lemma OverflowInverts(D: u32, n: nat)
    requires n > 0 && (n - 1) * BlockWork(D) >= TWO128
    ensures !OrderedByLength(D, n)
  {
    BlockWorkBound(D);
    var k := FirstOverflow(BlockWork(D), n - 1);
    var b := Block(Header(0, 0, Zeros(32), Zeros(32), 0), []);
    var a, c := [b, b], seq(k + 1, i => b);
    OverflowWork(c, k, D);
    assert CumulativeWork(a, D) == BlockWork(D);
    assert !CandidateWins(CumulativeWork(c, D), CumulativeWork(a, D));
  }

  // Heavier means longer exactly as far as the work of the longest chain, (n - 1) times 2^D, stays below
  // 2^128; where the work of a block saturates, that is a chain with one mined block.
  lemma HeavierIsLongerExactly(D: u32, n: nat)
    requires n > 0
    ensures OrderedByLength(D, n) <==> if D < 128 then (n - 1) * Pow2(D) < TWO128 else n <= 2
    ensures OrderedByLength(D, n) <==> (n - 1) * BlockWork(D) < TWO128
  {
    if D >= 128 {
      SaturatedBound(n);
    }
    if (n - 1) * BlockWork(D) < TWO128 {
      BlockWorkBound(D);
      forall a: seq<Block>, c: seq<Block> | 0 < |a| <= n && 0 < |c| <= n
        ensures CandidateWins(CumulativeWork(c, D), CumulativeWork(a, D)) <==> |c| > |a|
      {
        WorkBelow(a, n, D);
        WorkBelow(c, n, D);
        ProductOrder(|a| - 1, |c| - 1, BlockWork(D));
      }
    } else {
      OverflowInverts(D, n);
    }
  }

  lemma SaturatedBound(n: nat)
    requires n > 0
    ensures (n - 1) * 0xffff_ffff_ffff_ffff_ffff_ffff_ffff_ffff < TWO128 <==> n <= 2
  {
  }

  // Up to that length a candidate replaces the active chain exactly when it is valid and strictly longer.
  lemma ImportIsByLength(p: Params, active: seq<Block>, o: Offer, n: nat)
    requires 0 < |active| <= n && 0 < |o.blocks| <= n && (n - 1) * BlockWork(p.difficulty) < TWO128
    ensures Import(p, active, o) == if ValidOffer(p, o) && |o.blocks| > |active| then o.blocks else active
  {
    HeavierIsLongerExactly(p.difficulty, n);
    assert CandidateWins(CumulativeWork(o.blocks, p.difficulty), CumulativeWork(active, p.difficulty)) <==>
           |o.blocks| > |active|;
  }

  // The saturated work of D >= 128 is all ones, and a sum of k of them is 2^128 - k.
  lemma SaturatedWork(blocks: seq<Block>, D: u32)
    requires D >= 128 && 1 <= |blocks| <= TWO128
    ensures CumulativeWork(blocks, D) == if |blocks| == 1 then 0 else TWO128 - (|blocks| - 1)
  {
    var k := |blocks| - 1;
    assert k * BlockWork(D) == k * 0x1_0000_0000_0000_0000_0000_0000_0000_0000 - k;
    Wrap128IsMod(k * BlockWork(D));
  }

  // So there the order is inverted: among chains with mined blocks the shorter one is the heavier; only a
  // chain that holds nothing but genesis is lighter than all of them.
  lemma SaturatedWorkInverts(active: seq<Block>, candidate: seq<Block>, D: u32)
    requires D >= 128 && 1 <= |active| <= TWO128 && 1 <= |candidate| <= TWO128
    ensures CandidateWins(CumulativeWork(candidate, D), CumulativeWork(active, D)) <==>
            |candidate| > 1 && (|active| == 1 || |candidate| < |active|)
  {
    SaturatedWork(active, D);
    SaturatedWork(candidate, D);
  }
}
