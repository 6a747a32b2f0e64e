/** The tip hash commits to the whole history. */
module TipHash {
  import opened Bytes
  import opened Canonical
  import opened Gate
  import opened ChainModel
  import opened Replay

  // The hash links of a block list: positions, commitments and back references.
  ghost predicate LinkedAt(c: Crypto, blocks: seq<Block>, i: nat)
    requires i < |blocks|
  {
    && blocks[i].header.index == Wrap64(i)
    && blocks[i].header.txnsHash == c.txnsHash(blocks[i].txns)
    && (i > 0 ==> blocks[i].header.prevHash == c.blockHash(blocks[i - 1].header))
  }

  ghost predicate Linked(c: Crypto, blocks: seq<Block>)
  {
    forall i :: 0 <= i < |blocks| ==> LinkedAt(c, blocks, i)
  }

  lemma ConnectedIsLinked(p: Params, cs: ChainState, blocks: seq<Block>, i: nat, now: u64)
    requires 0 < i < |blocks| && cs.blocks == blocks[..i] && Connect(p, cs, blocks[i], now).reason == OK
    ensures LinkedAt(p.crypto, blocks, i)
  {
  }

  lemma {:induction false} ConnectFromLinks(p: Params, cs: ChainState, blocks: seq<Block>, i: nat, now: u64)
    requires 0 < i <= |blocks| && cs.blocks == blocks[..i] && ConnectFrom(p, cs, blocks, i, now).AllConnected?
    ensures forall k :: i <= k < |blocks| ==> LinkedAt(p.crypto, blocks, k)
    decreases |blocks| - i
  {
    if i < |blocks| {
      ConnectedIsLinked(p, cs, blocks, i, now);
      AcceptedStep(p, cs, blocks[i], now);
      assert blocks[..i + 1] == blocks[..i] + [blocks[i]];
      ConnectFromLinks(p, Connect(p, cs, blocks[i], now).chain, blocks, i + 1, now);
    }
  }

  lemma VerifiedIsLinked(p: Params, blocks: seq<Block>, now: u64)
    requires Replayed(p, blocks, now) == Verified
    ensures blocks != [] && Linked(p.crypto, blocks)
  {
    assert blocks[..1] == [blocks[0]];
    ConnectFromLinks(p, ChainFrom(p, blocks[0]), blocks, 1, now);
    assert LinkedAt(p.crypto, blocks, 0);
  }

  // The byte strings hashed while validating a list.
  ghost predicate Hashed(blocks: seq<Block>, x: Bytes)
  {
    exists i :: 0 <= i < |blocks| && (x == SerializeHeader(blocks[i].header) || x == ConcatTxns(blocks[i].txns))
  }

  lemma HashedInPrefix(blocks: seq<Block>, x: Bytes)
    requires blocks != [] && Hashed(blocks[..|blocks| - 1], x)
    ensures Hashed(blocks, x)
  {
    var init := blocks[..|blocks| - 1];
    var i :| 0 <= i < |init| && (x == SerializeHeader(init[i].header) || x == ConcatTxns(init[i].txns));
    assert blocks[i] == init[i];
  }

  lemma LinkedPrefix(c: Crypto, blocks: seq<Block>)
    requires blocks != [] && Linked(c, blocks)
    ensures Linked(c, blocks[..|blocks| - 1])
  {
    var init := blocks[..|blocks| - 1];
    forall i | 0 <= i < |init| ensures LinkedAt(c, init, i) {
      assert LinkedAt(c, blocks, i);
    }
  }

  // Two linked lists with one tip hash are one list, or x and y are two different byte strings, one hashed
  // for each list, with a single digest.
  lemma {:induction false} OneTipOneHistory(prim: Primitives, a: seq<Block>, b: seq<Block>) returns (x: Bytes, y: Bytes)
    requires 0 < |a| <= TWO64 && 0 < |b| <= TWO64
    requires Linked(CryptoOf(prim), a) && Linked(CryptoOf(prim), b)
    requires CryptoOf(prim).blockHash(Tip(a)) == CryptoOf(prim).blockHash(Tip(b))
    ensures a == b || (Hashed(a, x) && Hashed(b, y) && x != y && prim.sha256(x) == prim.sha256(y))
    decreases |a|
  {
    var m, n := |a| - 1, |b| - 1;
    x, y := SerializeHeader(a[m].header), SerializeHeader(b[n].header);
    if x == y {
      SerializeHeaderInjective(a[m].header, b[n].header);
      assert LinkedAt(CryptoOf(prim), a, m) && LinkedAt(CryptoOf(prim), b, n);
      assert m == n;
      x, y := ConcatTxns(a[m].txns), ConcatTxns(b[n].txns);
      if x == y {
        ConcatTxnsInjective(a[m].txns, b[n].txns);
        assert a[m] == b[n];
        if m > 0 {
          LinkedPrefix(CryptoOf(prim), a);
          LinkedPrefix(CryptoOf(prim), b);
          x, y := OneTipOneHistory(prim, a[..m], b[..m]);
          if a[..m] == b[..m] {
            assert a == a[..m] + [a[m]] && b == b[..m] + [b[m]];
          } else {
            HashedInPrefix(a, x);
            HashedInPrefix(b, y);
          }
        }
      }
    }
  }

  // Two block lists that replay accepts, at any two clock readings, and that end in the same block hash
  // agree in length, in every header and in every transaction, or exhibit a collision of the hash.
  lemma TipHashDeterminesHistory(prim: Primitives, p: Params, a: seq<Block>, b: seq<Block>, nowA: u64, nowB: u64)
    returns (x: Bytes, y: Bytes)
    requires p.crypto == CryptoOf(prim) && |a| <= TWO64 && |b| <= TWO64
    requires Replayed(p, a, nowA) == Verified && Replayed(p, b, nowB) == Verified
    requires p.crypto.blockHash(a[|a| - 1].header) == p.crypto.blockHash(b[|b| - 1].header)
    ensures a == b || (Hashed(a, x) && Hashed(b, y) && x != y && prim.sha256(x) == prim.sha256(y))
  {
    VerifiedIsLinked(p, a, nowA);
    VerifiedIsLinked(p, b, nowB);
    x, y := OneTipOneHistory(prim, a, b);
  }
}
