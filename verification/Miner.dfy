/** The nonce search. */
module Miner {
  import opened Bytes
  import opened Wrappers
  import opened Canonical
  import opened Target
  import opened ChainModel

  datatype Candidate = Candidate(hdr: Header, txns: seq<Txn>)

  // The search space is walked in one order: all 2^64 nonces of a timestamp, then the next timestamp.
  function NonceAt(k: nat): u64 { k % 0x1_0000_0000_0000_0000 }

  function TimeAt(start: u64, k: nat): u64 { Wrap64(start + k / 0x1_0000_0000_0000_0000) }

  // The header tried at attempt k.
  function Attempt(hdr: Header, k: nat): Header { hdr.(timestamp := TimeAt(hdr.timestamp, k), nonce := NonceAt(k)) }

  predicate Solves(p: Params, hdr: Header, k: nat)
  {
    MeetsDifficulty(p.crypto.blockHash(Attempt(hdr, k)), p.difficulty)
  }

  // The stop flag is read before an attempt whose nonce is a multiple of 2^14; stop(k) is its value then.
  predicate Preempted(stop: nat -> bool, k: nat) { NonceAt(k) % 0x4000 == 0 && stop(k) }

  predicate Ends(p: Params, hdr: Header, stop: nat -> bool, k: nat)
  {
    Preempted(stop, k) || Solves(p, hdr, k)
  }

  // Nothing before attempt k ended the search.
  ghost predicate Fruitless(p: Params, hdr: Header, stop: nat -> bool, k: nat)
  {
    forall j: nat :: j < k ==> !Ends(p, hdr, stop, j)
  }

  // The search runs for ever unless some attempt solves the block or meets a raised flag; `bound` is any
  // such attempt. It then ends at the first one: with nothing when the flag is up, else with the solution.
  method Mine(p: Params, cand: Candidate, stop: nat -> bool, ghost bound: nat)
    returns (mined: Option<Block>, k: nat)
    requires Ends(p, cand.hdr, stop, bound)
    ensures k <= bound && Fruitless(p, cand.hdr, stop, k) && Ends(p, cand.hdr, stop, k)
    ensures mined == if Preempted(stop, k) then None else Some(Block(Attempt(cand.hdr, k), cand.txns))
  {
    var hdr := cand.hdr;
    var nonce: u64 := 0;
    k := 0;
    while true
      invariant k <= bound && Fruitless(p, cand.hdr, stop, k)
      invariant nonce == NonceAt(k)
      invariant hdr.timestamp == TimeAt(cand.hdr.timestamp, k)
      invariant hdr == cand.hdr.(timestamp := hdr.timestamp, nonce := hdr.nonce)
      decreases bound - k
    {
      if nonce % 0x4000 == 0 && stop(k) {
        return None, k;
      }
      hdr := hdr.(nonce := nonce);
      var zeroBits := LeadingZeroBits(p.crypto.blockHash(hdr));
      if zeroBits >= p.difficulty {
        return Some(Block(hdr, cand.txns)), k;
      }
      AttemptStep(cand.hdr.timestamp, k);
      if nonce == TWO64 - 1 {
        hdr := hdr.(timestamp := Wrap64(hdr.timestamp + 1));
        nonce := 0;
      } else {
        nonce := nonce + 1;
      }
      k := k + 1;
    }
  }

  lemma AttemptStep(start: u64, k: nat)
    ensures NonceAt(k + 1) == if NonceAt(k) == TWO64 - 1 then 0 else NonceAt(k) + 1
    ensures TimeAt(start, k + 1) ==
            if NonceAt(k) == TWO64 - 1 then Wrap64(TimeAt(start, k) + 1) else TimeAt(start, k)
  {
    var q, r := k / 0x1_0000_0000_0000_0000, k % 0x1_0000_0000_0000_0000;
    assert k == q * 0x1_0000_0000_0000_0000 + r;
    if r == TWO64 - 1 {
      assert k + 1 == (q + 1) * 0x1_0000_0000_0000_0000;
      WrapWrap(start + q, 1);
    } else {
      assert k + 1 == q * 0x1_0000_0000_0000_0000 + (r + 1);
    }
  }

  // ---- The order of the search ----

  ghost predicate Before(t1: u64, n1: u64, t2: u64, n2: u64) { t1 < t2 || (t1 == t2 && n1 < n2) }

  // Until the timestamp overflows, attempts are numbered in the lexicographic order of (timestamp, nonce).
  lemma AttemptsAreLexicographic(start: u64, j: nat, k: nat)
    requires start + j / 0x1_0000_0000_0000_0000 < TWO64 && start + k / 0x1_0000_0000_0000_0000 < TWO64
    ensures Before(TimeAt(start, j), NonceAt(j), TimeAt(start, k), NonceAt(k)) <==> j < k
  {
  }

  // Every pair from the start on has its attempt.
  lemma EveryPairIsAttempted(start: u64, t: u64, n: u64)
    requires start <= t
    ensures var k := (t - start) * 0x1_0000_0000_0000_0000 + n; TimeAt(start, k) == t && NonceAt(k) == n
  {
    var k := (t - start) * 0x1_0000_0000_0000_0000 + n;
    assert k / 0x1_0000_0000_0000_0000 == t - start && k % 0x1_0000_0000_0000_0000 == n;
  }

  ghost predicate PairSolves(p: Params, hdr: Header, t: u64, n: u64)
  {
    MeetsDifficulty(p.crypto.blockHash(hdr.(timestamp := t, nonce := n)), p.difficulty)
  }

  // When the search is not stopped and a solution exists before the timestamp overflows, the attempt it
  // ends at is the lexicographically least solving pair from (candidate timestamp, 0) on.
  lemma MinedIsLeast(p: Params, hdr: Header, stop: nat -> bool, k: nat, t: u64, n: u64)
    requires Fruitless(p, hdr, stop, k) && Solves(p, hdr, k)
    requires hdr.timestamp <= t && PairSolves(p, hdr, t, n)
    ensures hdr.timestamp + k / 0x1_0000_0000_0000_0000 < TWO64
    ensures hdr.timestamp <= TimeAt(hdr.timestamp, k)
    ensures !Before(t, n, TimeAt(hdr.timestamp, k), NonceAt(k))
  {
    var j: nat := (t - hdr.timestamp) * 0x1_0000_0000_0000_0000 + n;
    EveryPairIsAttempted(hdr.timestamp, t, n);
    assert Ends(p, hdr, stop, j);
    assert k <= j;
    AttemptsAreLexicographic(hdr.timestamp, j, k);
  }

  // ---- Stopping ----

  // A flag that is up from attempt j on ends the search within 2^14 attempts, and it is looked at only at
  // attempts whose nonce is a multiple of 2^14.
  lemma StopIsPrompt(p: Params, hdr: Header, stop: nat -> bool, j: nat, k: nat)
    requires Fruitless(p, hdr, stop, k) && forall m: nat :: m >= j ==> stop(m)
    ensures k < j + 16384
    ensures Preempted(stop, k) ==> k % 16384 == 0
  {
    var poll: nat := (j + 16383) / 16384 * 16384;
    NonceIsAttempt(poll);
    NonceIsAttempt(k);
    assert j <= poll < j + 16384 && stop(poll);
    assert poll < k ==> !Ends(p, hdr, stop, poll);
  }

  lemma NonceIsAttempt(k: nat)
    ensures NonceAt(k) % 16384 == k % 16384
  {
    assert k == k / 0x1_0000_0000_0000_0000 * 0x1_0000_0000_0000_0000 + NonceAt(k);
  }
}
