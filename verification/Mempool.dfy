/** The pending set: three indices that stand for one first-in first-out list. */
module MempoolModel {
  import opened Bytes
  import opened Wrappers
  import opened Canonical
  import opened Gate

  datatype Entry = Entry(txn: Txn, txid: Digest, feelessSeq: u64)

  datatype AdmitResult =
    Admitted | BadSigToken | BadAddrToken | StaleNonceToken | InsufficientFundsToken
    | Unparseable | Duplicate | MempoolFull | PendingSlotBusy

  // The bridge from gate reasons to admission tokens.
  function ReasonToAdmit(r: Reason): AdmitResult
  {
    match r
    case OK => Admitted
    case BadAddr => BadAddrToken
    case BadSig => BadSigToken
    case StaleNonce => StaleNonceToken
    case InsufficientFunds => InsufficientFundsToken
    case _ => Unparseable
  }

  // ---- Sequences of keys and maps that list them ----

  function Drop<T>(s: seq<T>, i: nat): (r: seq<T>)
    requires i < |s|
    ensures |r| == |s| - 1
  {
    s[..i] + s[i + 1..]
  }

  lemma DropFirst<T>(s: seq<T>)
    requires s != []
    ensures Drop(s, 0) == s[1..]
  {
  }

  lemma DropAt<T>(s: seq<T>, i: nat, j: nat)
    requires i < |s| && j < |s| - 1
    ensures Drop(s, i)[j] == s[if j < i then j else j + 1]
  {
  }

  // No key twice: the last is not among the others, and so on down.
  ghost predicate Distinct<K>(keys: seq<K>)
  {
    keys == [] || (keys[|keys| - 1] !in keys[..|keys| - 1] && Distinct(keys[..|keys| - 1]))
  }

  lemma {:induction false} DistinctAt<K>(keys: seq<K>, i: nat, j: nat)
    requires Distinct(keys) && i < |keys| && j < |keys|
    ensures keys[i] == keys[j] ==> i == j
  {
    var n := |keys| - 1;
    if i == n || j == n {
      assert forall k :: 0 <= k < n ==> keys[..n][k] == keys[k];
    } else {
      DistinctAt(keys[..n], i, j);
    }
  }

  lemma DropSubset<T>(s: seq<T>, i: nat, x: T)
    requires i < |s|
    ensures x in Drop(s, i) ==> x in s
  {
  }

  lemma {:induction false} DistinctDrop<K>(keys: seq<K>, i: nat)
    requires Distinct(keys) && i < |keys|
    ensures Distinct(Drop(keys, i))
  {
    var n := |keys| - 1;
    if i == n {
      assert Drop(keys, i) == keys[..n];
    } else {
      var init, r := keys[..n], Drop(keys, i);
      DistinctDrop(init, i);
      assert r[..n - 1] == Drop(init, i) && r[n - 1] == keys[n];
      DropSubset(init, i, keys[n]);
    }
  }

  // The first position of a key, or the length.
  function Find<K(==)>(keys: seq<K>, k: K): (i: nat)
    ensures i <= |keys| && (i < |keys| ==> keys[i] == k)
    ensures i < |keys| <==> k in keys
  {
    if keys == [] then 0 else if keys[0] == k then 0 else Find(keys[1..], k) + 1
  }

  // m sends the i-th key to the i-th value and has no other key.
  ghost predicate Lists<K, V>(m: map<K, V>, keys: seq<K>, vals: seq<V>)
  {
    && |keys| == |vals|
    && (forall i :: 0 <= i < |keys| ==> keys[i] in m && m[keys[i]] == vals[i])
    && (forall k :: k in m ==> k in keys)
  }

  lemma ListsAppend<K, V>(m: map<K, V>, keys: seq<K>, vals: seq<V>, k: K, v: V)
    requires Lists(m, keys, vals) && k !in m
    ensures Lists(m[k := v], keys + [k], vals + [v])
  {
  }

  lemma InDrop<K>(keys: seq<K>, i: nat, k: K)
    requires i < |keys| && k in keys && k != keys[i]
    ensures k in Drop(keys, i)
  {
    var j :| 0 <= j < |keys| && keys[j] == k;
    DropAt(keys, i, if j < i then j else j - 1);
  }

  lemma ListsDrop<K, V>(m: map<K, V>, keys: seq<K>, vals: seq<V>, i: nat)
    requires Lists(m, keys, vals) && Distinct(keys) && i < |keys|
    ensures Lists(m - {keys[i]}, Drop(keys, i), Drop(vals, i))
  {
    var ks, vs, r := Drop(keys, i), Drop(vals, i), m - {keys[i]};
    forall j | 0 <= j < |ks| ensures ks[j] in r && r[ks[j]] == vs[j] {
      DropAt(keys, i, j);
      DropAt(vals, i, j);
      DistinctAt(keys, if j < i then j else j + 1, i);
    }
    forall k | k in r ensures k in ks {
      InDrop(keys, i, k);
    }
  }

  lemma {:induction false} ListsSize<K, V>(m: map<K, V>, keys: seq<K>, vals: seq<V>)
    requires Lists(m, keys, vals) && Distinct(keys)
    ensures |m| == |keys|
    decreases |keys|
  {
    if keys != [] {
      var n := |keys| - 1;
      ListsDrop(m, keys, vals, n);
      DistinctDrop(keys, n);
      ListsSize(m - {keys[n]}, Drop(keys, n), Drop(vals, n));
      assert m.Keys == (m - {keys[n]}).Keys + {keys[n]};
    } else {
      assert m == map[];
    }
  }

  // ---- The list the indices stand for ----

  function Ids(q: seq<Entry>): (r: seq<Digest>)
    ensures |r| == |q| && forall i :: 0 <= i < |q| ==> r[i] == q[i].txid
  {
    seq(|q|, i requires 0 <= i < |q| => q[i].txid)
  }

  function Senders(q: seq<Entry>): (r: seq<Address>)
    ensures |r| == |q| && forall i :: 0 <= i < |q| ==> r[i] == q[i].txn.sender
  {
    seq(|q|, i requires 0 <= i < |q| => q[i].txn.sender)
  }

  function Seqs(q: seq<Entry>): (r: seq<u64>)
    ensures |r| == |q| && forall i :: 0 <= i < |q| ==> r[i] == q[i].feelessSeq
  {
    seq(|q|, i requires 0 <= i < |q| => q[i].feelessSeq)
  }

  function TxnsOf(q: seq<Entry>): (ts: seq<Txn>)
    ensures |ts| == |q| && forall i :: 0 <= i < |q| ==> ts[i] == q[i].txn
  {
    seq(|q|, i requires 0 <= i < |q| => q[i].txn)
  }

  predicate GoodEntry(c: Crypto, e: Entry)
  {
    e.txid == c.txId(e.txn) && e.txn.ver == TXN_VERSION && !IsCoinbase(e.txn) && Authentic(c, e.txn)
  }

  ghost predicate Increasing(s: seq<u64>)
  {
    |s| < 2 || (s[|s| - 2] < s[|s| - 1] && Increasing(s[..|s| - 1]))
  }

  lemma {:induction false} IncreasingAt(s: seq<u64>, i: nat, j: nat)
    requires Increasing(s) && i < j < |s|
    ensures s[i] < s[j]
  {
    var n := |s| - 1;
    if j < n {
      IncreasingAt(s[..n], i, j);
    } else if i < n - 1 {
      IncreasingAt(s[..n], i, n - 1);
    }
  }

  lemma {:induction false} IncreasingIsDistinct(s: seq<u64>)
    requires Increasing(s)
    ensures Distinct(s)
  {
    if s != [] {
      var n := |s| - 1;
      IncreasingIsDistinct(s[..n]);
      if s[n] in s[..n] {
        var i :| 0 <= i < n && s[..n][i] == s[n];
        IncreasingAt(s, i, n);
      }
    }
  }

  lemma {:induction false} IncreasingDrop(s: seq<u64>, i: nat)
    requires Increasing(s) && i < |s|
    ensures Increasing(Drop(s, i))
  {
    var n := |s| - 1;
    var r := Drop(s, i);
    if i == n {
      assert r == s[..n];
    } else {
      IncreasingDrop(s[..n], i);
      assert r[..n - 1] == Drop(s[..n], i) && r[n - 1] == s[n];
      if n > 1 {
        DropAt(s, i, n - 2);
        IncreasingAt(s, if n - 2 < i then n - 2 else n - 1, n);
      }
    }
  }

  // Every entry authentic, distinct ids, one slot per sender, strictly increasing sequence numbers.
  ghost predicate GoodQueue(c: Crypto, q: seq<Entry>)
  {
    && (forall i :: 0 <= i < |q| ==> GoodEntry(c, q[i]))
    && Distinct(Ids(q)) && Distinct(Senders(q)) && Increasing(Seqs(q))
  }

  /** Admission in its normative order, on the sender's committed account. */
  function AdmitVerdict(c: Crypto, q: seq<Entry>, cap: nat, t: Txn, acct: Account): AdmitResult
  {
    if t.ver != TXN_VERSION then Unparseable
    else if c.txId(t) in Ids(q) then Duplicate
    else if IsCoinbase(t) then BadAddrToken
    else if !c.addressMatches(t.sender, t.pubkey) then BadAddrToken
    else if !c.verifies(t) then BadSigToken
    else if t.nonce != acct.nonce then StaleNonceToken
    else if t.sender in Senders(q) then PendingSlotBusy
    else if t.amount > acct.balance then InsufficientFundsToken
    else if |q| >= cap then MempoolFull
    else Admitted
  }

  // Removing the entry with the given id, and those of a list of transactions.
  function Without(q: seq<Entry>, id: Digest): seq<Entry>
  {
    var k := Find(Ids(q), id);
    if k < |q| then Drop(q, k) else q
  }

  function Evict(c: Crypto, q: seq<Entry>, txns: seq<Txn>): seq<Entry>
  {
    if txns == [] then q else Without(Evict(c, q, txns[..|txns| - 1]), c.txId(txns[|txns| - 1]))
  }

  lemma EvictSnoc(c: Crypto, q: seq<Entry>, txns: seq<Txn>, n: nat)
    requires n < |txns|
    ensures Evict(c, q, txns[..n + 1]) == Without(Evict(c, q, txns[..n]), c.txId(txns[n]))
  {
    assert txns[..n + 1][..n] == txns[..n];
  }

  lemma KeysDrop(q: seq<Entry>, k: nat)
    requires k < |q|
    ensures Ids(Drop(q, k)) == Drop(Ids(q), k)
    ensures Senders(Drop(q, k)) == Drop(Senders(q), k)
    ensures Seqs(Drop(q, k)) == Drop(Seqs(q), k)
  {
  }

  lemma GoodDrop(c: Crypto, q: seq<Entry>, k: nat)
    requires GoodQueue(c, q) && k < |q|
    ensures GoodQueue(c, Drop(q, k))
  {
    KeysDrop(q, k);
    DistinctDrop(Ids(q), k);
    DistinctDrop(Senders(q), k);
    var r := Drop(q, k);
    forall i | 0 <= i < |r| ensures GoodEntry(c, r[i]) {
      DropAt(q, k, i);
    }
    IncreasingDrop(Seqs(q), k);
  }

  lemma GoodAppend(c: Crypto, q: seq<Entry>, e: Entry)
    requires GoodQueue(c, q) && GoodEntry(c, e) && e.txid !in Ids(q) && e.txn.sender !in Senders(q)
    requires Below(q, e.feelessSeq)
    ensures GoodQueue(c, q + [e])
  {
    KeysAppend(q, e);
    assert Ids(q + [e])[..|q|] == Ids(q) && Senders(q + [e])[..|q|] == Senders(q) && Seqs(q + [e])[..|q|] == Seqs(q);
  }

  lemma KeysAppend(q: seq<Entry>, e: Entry)
    ensures Ids(q + [e]) == Ids(q) + [e.txid]
    ensures Senders(q + [e]) == Senders(q) + [e.txn.sender]
    ensures Seqs(q + [e]) == Seqs(q) + [e.feelessSeq]
    ensures TxnsOf(q + [e]) == TxnsOf(q) + [e.txn]
  {
  }

  lemma WithoutFirst(q: seq<Entry>)
    requires q != []
    ensures Without(q, q[0].txid) == q[1..]
  {
    assert Ids(q)[0] == q[0].txid;
    DropFirst(q);
  }

  lemma {:induction false} EvictFrontOf(c: Crypto, q: seq<Entry>, ts: seq<Txn>, k: nat)
    requires |ts| == |q| && k <= |q|
    requires forall i :: 0 <= i < |q| ==> q[i].txid == c.txId(ts[i])
    ensures Evict(c, q, ts[..k]) == q[k..]
  {
    if k > 0 {
      EvictFrontOf(c, q, ts, k - 1);
      EvictSnoc(c, q, ts, k - 1);
      WithoutFirst(q[k - 1..]);
    }
  }

  // Evicting the front of a queue leaves its back, in order.
  lemma EvictFront(c: Crypto, q: seq<Entry>, k: nat)
    requires (forall i :: 0 <= i < |q| ==> GoodEntry(c, q[i])) && k <= |q|
    ensures Evict(c, q, TxnsOf(q[..k])) == q[k..]
  {
    forall i | 0 <= i < |q| ensures q[i].txid == c.txId(TxnsOf(q)[i]) {
      assert GoodEntry(c, q[i]);
    }
    EvictFrontOf(c, q, TxnsOf(q), k);
    assert TxnsOf(q)[..k] == TxnsOf(q[..k]);
  }

  lemma WithoutKeeps(q: seq<Entry>, id: Digest, e: Entry)
    requires Distinct(Ids(q))
    ensures e in Without(q, id) <==> e in q && e.txid != id
  {
    var k := Find(Ids(q), id);
    if k < |q| {
      if e in q && e.txid != id {
        InDrop(q, k, e);
      }
      if e in Drop(q, k) {
        var i :| 0 <= i < |q| - 1 && Drop(q, k)[i] == e;
        DropAt(q, k, i);
        DistinctAt(Ids(q), if i < k then i else i + 1, k);
      }
    } else if e in q {
      var i :| 0 <= i < |q| && q[i] == e;
      assert Ids(q)[i] == e.txid;
    }
  }

  lemma {:induction false} EvictGood(c: Crypto, q: seq<Entry>, txns: seq<Txn>)
    requires GoodQueue(c, q)
    ensures GoodQueue(c, Evict(c, q, txns))
  {
    if txns != [] {
      var rest := Evict(c, q, txns[..|txns| - 1]);
      EvictGood(c, q, txns[..|txns| - 1]);
      var k := Find(Ids(rest), c.txId(txns[|txns| - 1]));
      if k < |rest| {
        GoodDrop(c, rest, k);
      }
    }
  }

  predicate Included(c: Crypto, txns: seq<Txn>, id: Digest)
  {
    txns != [] && (c.txId(txns[|txns| - 1]) == id || Included(c, txns[..|txns| - 1], id))
  }

  lemma {:induction false} IncludedIsExists(c: Crypto, txns: seq<Txn>, id: Digest)
    ensures Included(c, txns, id) <==> exists i :: 0 <= i < |txns| && c.txId(txns[i]) == id
  {
    if txns != [] {
      var n := |txns| - 1;
      IncludedIsExists(c, txns[..n], id);
      assert forall i :: 0 <= i < n ==> txns[..n][i] == txns[i];
    }
  }

  // Eviction keeps exactly the entries whose id was not included.
  lemma {:induction false} EvictKeeps(c: Crypto, q: seq<Entry>, txns: seq<Txn>, e: Entry)
    requires GoodQueue(c, q)
    ensures e in Evict(c, q, txns) <==> e in q && !Included(c, txns, e.txid)
  {
    if txns != [] {
      var init, id := txns[..|txns| - 1], c.txId(txns[|txns| - 1]);
      EvictKeeps(c, q, init, e);
      EvictGood(c, q, init);
      WithoutKeeps(Evict(c, q, init), id, e);
    }
  }

  // An evicted transaction whose id is pending is itself pending: no collision among them.
  ghost predicate NoClash(c: Crypto, q: seq<Entry>, txns: seq<Txn>)
  {
    forall i :: 0 <= i < |txns| && c.txId(txns[i]) in Ids(q) ==> txns[i] in TxnsOf(q)
  }

  lemma NoClashWithout(c: Crypto, q: seq<Entry>, txns: seq<Txn>, id: Digest)
    requires GoodQueue(c, q) && NoClash(c, q, txns)
    ensures NoClash(c, Without(q, id), txns)
  {
    var k := Find(Ids(q), id);
    if k < |q| {
      KeysDrop(q, k);
      var r := Drop(q, k);
      forall i | 0 <= i < |txns| && c.txId(txns[i]) in Ids(r) ensures txns[i] in TxnsOf(r) {
        StillPending(c, q, k, txns[i]);
      }
    }
  }

  lemma StillPending(c: Crypto, q: seq<Entry>, k: nat, t: Txn)
    requires GoodQueue(c, q) && k < |q| && c.txId(t) in Drop(Ids(q), k)
    requires c.txId(t) in Ids(q) ==> t in TxnsOf(q)
    ensures t in TxnsOf(Drop(q, k))
  {
    var i :| 0 <= i < |q| - 1 && Drop(Ids(q), k)[i] == c.txId(t);
    DropAt(Ids(q), k, i);
    var j :| 0 <= j < |q| && TxnsOf(q)[j] == t;
    assert GoodEntry(c, q[j]) && Ids(q)[j] == c.txId(t);
    DistinctAt(Ids(q), j, if i < k then i else i + 1);
    DropAt(q, k, i);
    assert TxnsOf(Drop(q, k))[i] == t;
  }

  // Where a clash-free transaction with a pending id sits.
  lemma PendingAt(c: Crypto, q: seq<Entry>, t: Txn, k: nat)
    requires GoodQueue(c, q) && t in TxnsOf(q) && k < |q| && Ids(q)[k] == c.txId(t)
    ensures q[k].txn == t
  {
    var j :| 0 <= j < |q| && TxnsOf(q)[j] == t;
    assert GoodEntry(c, q[j]) && Ids(q)[j] == c.txId(t);
    DistinctAt(Ids(q), j, k);
  }

  // ---- Walking the sequence index ----

  lemma {:induction false} Least(s: set<u64>) returns (x: u64)
    requires s != {}
    ensures x in s && forall y :: y in s ==> x <= y
  {
    x :| x in s;
    var rest := s - {x};
    assert forall y :: y in s ==> y == x || y in rest;
    if rest != {} {
      var z := Least(rest);
      x := if x <= z then x else z;
    }
  }

  // Stepping an iterator of an ordered map: the least key above the last one visited.
  method NextKey(m: map<u64, Digest>, last: int) returns (found: bool, s: u64)
    ensures found ==> s in m && s > last && forall r :: r in m && r > last ==> s <= r
    ensures !found ==> forall r :: r in m ==> r <= last
  {
    var above := set k | k in m && k > last;
    if above == {} {
      assert forall r :: r in m && r > last ==> r in above;
      return false, 0;
    }
    ghost var least := Least(above);
    s :| s in above && forall y :: y in above ==> s <= y;
    assert forall r :: r in m && r > last ==> r in above;
    found := true;
  }

  // The key visited before entry n.
  function LastVisited(q: seq<Entry>, n: nat): int
    requires n <= |q|
  {
    if n == 0 then -1 else Seqs(q)[n - 1]
  }

  lemma NextIsNext(q: seq<Entry>, bySeq: map<u64, Digest>, n: nat, s: u64)
    requires n <= |q| && Increasing(Seqs(q)) && Lists(bySeq, Seqs(q), Ids(q))
    requires s in bySeq && s > LastVisited(q, n)
    requires forall r :: r in bySeq && r > LastVisited(q, n) ==> s <= r
    ensures n < |q| && s == Seqs(q)[n] && bySeq[s] == q[n].txid
  {
    var i :| 0 <= i < |q| && Seqs(q)[i] == s;
    if i < n - 1 {
      IncreasingAt(Seqs(q), i, n - 1);
    }
    if n > 0 {
      IncreasingAt(Seqs(q), n - 1, n);
    }
    if i > n {
      IncreasingAt(Seqs(q), n, i);
    }
  }

  lemma NoneIsLast(q: seq<Entry>, bySeq: map<u64, Digest>, n: nat)
    requires n <= |q| && Increasing(Seqs(q)) && Lists(bySeq, Seqs(q), Ids(q))
    requires forall r :: r in bySeq ==> r <= LastVisited(q, n)
    ensures n == |q|
  {
    if n < |q| {
      assert Seqs(q)[n] in bySeq;
      if n > 0 {
        IncreasingAt(Seqs(q), n - 1, n);
      }
    }
  }

  lemma ListedById(q: seq<Entry>, byTxid: map<Digest, Entry>, n: nat)
    requires Lists(byTxid, Ids(q), q) && n < |q|
    ensures q[n].txid in byTxid && byTxid[q[n].txid] == q[n]
  {
    assert Ids(q)[n] == q[n].txid;
  }

  // Every pending sequence number lies below the counter.
  predicate Below(q: seq<Entry>, next: int) { q == [] || q[|q| - 1].feelessSeq < next }

  lemma BelowIsFresh(q: seq<Entry>, bySeq: map<u64, Digest>, next: u64)
    requires Increasing(Seqs(q)) && Below(q, next) && Lists(bySeq, Seqs(q), Ids(q))
    ensures next !in bySeq
  {
    if next in bySeq {
      var i :| 0 <= i < |q| && Seqs(q)[i] == next;
      if i < |q| - 1 {
        IncreasingAt(Seqs(q), i, |q| - 1);
      }
    }
  }

  lemma BelowDrop(q: seq<Entry>, k: nat, next: u64)
    requires Increasing(Seqs(q)) && Below(q, next) && k < |q|
    ensures Below(Drop(q, k), next)
  {
    if |q| > 1 {
      DropAt(q, k, |q| - 2);
      IncreasingAt(Seqs(q), |q| - 2, |q| - 1);
    }
  }

  // ---- The pending set as the program keeps it ----

  datatype Maps = Maps(byTxid: map<Digest, Entry>, bySender: map<Address, Digest>, bySeq: map<u64, Digest>)

  // Evicting one transaction drops the entry its id finds, that entry's sequence number, and the slot of the
  // transaction's own sender if it holds the id.
  function DropMaps(m: Maps, t: Txn, id: Digest): Maps
  {
    if id !in m.byTxid then m
    else
      var slot := if t.sender in m.bySender && m.bySender[t.sender] == id then {t.sender} else {};
      Maps(m.byTxid - {id}, m.bySender - slot, m.bySeq - {m.byTxid[id].feelessSeq})
  }

  function EvictMaps(c: Crypto, m: Maps, txns: seq<Txn>): Maps
  {
    if txns == [] then m
    else DropMaps(EvictMaps(c, m, txns[..|txns| - 1]), txns[|txns| - 1], c.txId(txns[|txns| - 1]))
  }

  lemma EvictMapsSnoc(c: Crypto, m: Maps, txns: seq<Txn>, n: nat)
    requires n < |txns|
    ensures EvictMaps(c, m, txns[..n + 1]) == DropMaps(EvictMaps(c, m, txns[..n]), txns[n], c.txId(txns[n]))
  {
    assert txns[..n + 1][..n] == txns[..n];
  }

  class Mempool {
    const c: Crypto
    const cap: nat
    var nextSeq: u64
    var byTxid: map<Digest, Entry>
    var bySender: map<Address, Digest>
    var bySeq: map<u64, Digest>
    ghost var queue: seq<Entry>

    ghost predicate Valid()
      reads this
    {
      && GoodQueue(c, queue) && |queue| <= cap && Below(queue, nextSeq)
      && Indexed(queue, byTxid, bySender, bySeq)
    }

    constructor (c: Crypto, cap: nat := 4096)
      ensures Valid() && queue == [] && nextSeq == 0 && this.c == c && this.cap == cap
    {
      this.c := c;
      this.cap := cap;
      nextSeq := 0;
      byTxid := map[];
      bySender := map[];
      bySeq := map[];
      queue := [];
    }

    // The verdict is the normative one; success appends to the queue and nothing else changes it. Only the
    // 2^64-th admission, where the sequence counter wraps, can spoil the order.
    method Admit(t: Txn, accountAt: Address -> Account) returns (r: AdmitResult)
      requires Valid()
      modifies this
      ensures r == AdmitVerdict(c, old(queue), cap, t, accountAt(t.sender))
      ensures queue == if r == Admitted then old(queue) + [Entry(t, c.txId(t), old(nextSeq))] else old(queue)
      ensures nextSeq == if r == Admitted then Wrap64(old(nextSeq) + 1) else old(nextSeq)
      ensures r != Admitted || old(nextSeq) < TWO64 - 1 ==> Valid()
    {
      r := Judge(t, accountAt);
      if r == Admitted {
        Accept(t, c.txId(t));
      }
    }

    method Judge(t: Txn, accountAt: Address -> Account) returns (r: AdmitResult)
      requires Valid()
      ensures r == AdmitVerdict(c, queue, cap, t, accountAt(t.sender))
    {
      IndexAnswers(c, queue, t, byTxid, bySender, bySeq);
      r := JudgeBy(c, byTxid, bySender, cap, t, accountAt, queue);
    }

    method Accept(t: Txn, id: Digest)
      requires Valid() && |queue| < cap
      requires id == c.txId(t) && t.ver == TXN_VERSION && !IsCoinbase(t) && Authentic(c, t)
      requires id !in Ids(queue) && t.sender !in Senders(queue)
      modifies this
      ensures queue == old(queue) + [Entry(t, id, old(nextSeq))]
      ensures nextSeq == Wrap64(old(nextSeq) + 1)
      ensures old(nextSeq) < TWO64 - 1 ==> Valid()
    {
      var s := nextSeq;
      var e := Entry(t, id, s);
      AcceptEntry(c, queue, e, byTxid, bySender, bySeq);
      nextSeq := Wrap64(nextSeq + 1);
      byTxid := byTxid[id := e];
      bySender := bySender[t.sender := id];
      bySeq := bySeq[s := id];
      queue := queue + [e];
    }

    method AdmitBytes(bytes: Bytes, accountAt: Address -> Account) returns (r: AdmitResult)
      requires Valid()
      modifies this
      ensures ParseTxn(bytes).None? ==> r == Unparseable && Valid() && queue == old(queue)
      ensures ParseTxn(bytes).Some? ==>
        var t := ParseTxn(bytes).value;
        && r == AdmitVerdict(c, old(queue), cap, t, accountAt(t.sender))
        && queue == if r == Admitted then old(queue) + [Entry(t, c.txId(t), old(nextSeq))] else old(queue)
      ensures r != Admitted || old(nextSeq) < TWO64 - 1 ==> Valid()
    {
      var t := ReadTxn(bytes);
      if t.None? {
        return Unparseable;
      }
      r := Admit(t.value, accountAt);
    }

    ghost function Index(): Maps
      reads this
    {
      Maps(byTxid, bySender, bySeq)
    }

    // The maps lose what the ids find in them. They still list the queue unless an evicted transaction has
    // the id of another one that is pending, a collision of the hash.
    method EvictIncluded(txns: seq<Txn>)
      modifies this
      ensures Index() == EvictMaps(c, old(Index()), txns)
      ensures queue == Evict(c, old(queue), txns) && nextSeq == old(nextSeq)
      ensures old(Valid() && NoClash(c, queue, txns)) ==> Valid()
    {
      ghost var sound := Valid() && NoClash(c, queue, txns);
      for n := 0 to |txns|
        invariant Index() == EvictMaps(c, old(Index()), txns[..n])
        invariant queue == Evict(c, old(queue), txns[..n]) && nextSeq == old(nextSeq)
        invariant sound ==> Valid() && NoClash(c, queue, txns)
      {
        EvictSnoc(c, old(queue), txns, n);
        EvictMapsSnoc(c, old(Index()), txns, n);
        if sound {
          NoClashWithout(c, queue, txns, c.txId(txns[n]));
        }
        EvictOne(txns[n]);
      }
      assert txns[..|txns|] == txns;
    }

    method EvictOne(t: Txn)
      modifies this
      ensures Index() == DropMaps(old(Index()), t, c.txId(t))
      ensures queue == Without(old(queue), c.txId(t)) && nextSeq == old(nextSeq)
      ensures old(Valid() && (c.txId(t) in Ids(queue) ==> t in TxnsOf(queue))) ==> Valid()
    {
      var id := c.txId(t);
      ghost var rest := Without(queue, id);
      if Valid() && (id in Ids(queue) ==> t in TxnsOf(queue)) {
        EvictEntry(c, queue, t, nextSeq, Index(), rest);
      }
      queue := rest;
      if id !in byTxid {
        return;
      }
      var entry := byTxid[id];
      bySeq := bySeq - {entry.feelessSeq};
      if t.sender in bySender && bySender[t.sender] == id {
        bySender := bySender - {t.sender};
      }
      byTxid := byTxid - {id};
    }

    // Walking the sequence index in ascending key order lists the queue.
    method SortedBySeq() returns (out: seq<Entry>)
      requires Valid()
      ensures out == queue
    {
      out := WalkIndex(bySeq, byTxid, queue);
    }
  }

  method WalkIndex(bySeq: map<u64, Digest>, byTxid: map<Digest, Entry>, ghost q: seq<Entry>) returns (out: seq<Entry>)
    requires Increasing(Seqs(q)) && Lists(bySeq, Seqs(q), Ids(q)) && Lists(byTxid, Ids(q), q)
    ensures out == q
  {
    out := [];
    var found, s := NextKey(bySeq, -1);
    while found
      invariant |out| <= |q| && out == q[..|out|]
      invariant found ==> s in bySeq && s > LastVisited(q, |out|)
      invariant found ==> forall r :: r in bySeq && r > LastVisited(q, |out|) ==> s <= r
      invariant !found ==> forall r :: r in bySeq ==> r <= LastVisited(q, |out|)
      decreases |q| - |out|, found
    {
      NextIsNext(q, bySeq, |out|, s);
      ListedById(q, byTxid, |out|);
      TakeSnoc(q, |out|);
      if bySeq[s] in byTxid {
        out := out + [byTxid[bySeq[s]]];
      }
      found, s := NextKey(bySeq, s);
    }
    NoneIsLast(q, bySeq, |out|);
  }

  // What the maps and the list become when an entry is accepted.
  lemma AcceptEntry(c: Crypto, q: seq<Entry>, e: Entry, byTxid: map<Digest, Entry>, bySender: map<Address, Digest>,
                    bySeq: map<u64, Digest>)
    requires GoodQueue(c, q) && Below(q, e.feelessSeq) && Indexed(q, byTxid, bySender, bySeq)
    requires GoodEntry(c, e) && e.txid !in Ids(q) && e.txn.sender !in Senders(q)
    ensures GoodQueue(c, q + [e]) && Below(q + [e], e.feelessSeq + 1)
    ensures Indexed(q + [e], byTxid[e.txid := e], bySender[e.txn.sender := e.txid], bySeq[e.feelessSeq := e.txid])
  {
    GoodAppend(c, q, e);
    BelowIsFresh(q, bySeq, e.feelessSeq);
    IndexAppend(q, e, byTxid, bySender, bySeq);
  }

  // What the eviction of entry k relies on and what it leaves.
  lemma DropEntry(c: Crypto, q: seq<Entry>, k: nat, t: Txn, next: u64, byTxid: map<Digest, Entry>,
                  bySender: map<Address, Digest>, bySeq: map<u64, Digest>)
    requires GoodQueue(c, q) && Below(q, next) && Indexed(q, byTxid, bySender, bySeq)
    requires k < |q| && Ids(q)[k] == c.txId(t) && t in TxnsOf(q)
    ensures var id := c.txId(t);
      && id in byTxid && byTxid[id] == q[k] && q[k].txn == t
      && t.sender in bySender && bySender[t.sender] == id
      && GoodQueue(c, Drop(q, k)) && Below(Drop(q, k), next)
      && Indexed(Drop(q, k), byTxid - {id}, bySender - {t.sender}, bySeq - {q[k].feelessSeq})
  {
    PendingAt(c, q, t, k);
    IndexDrop(q, k, byTxid, bySender, bySeq);
    GoodDrop(c, q, k);
    BelowDrop(q, k, next);
    ListedAt(q, k, byTxid, bySender, bySeq);
  }

  lemma AbsentEntry(q: seq<Entry>, id: Digest, byTxid: map<Digest, Entry>)
    requires Lists(byTxid, Ids(q), q) && id !in byTxid
    ensures Without(q, id) == q
  {
  }

  lemma EvictEntry(c: Crypto, q: seq<Entry>, t: Txn, next: u64, m: Maps, rest: seq<Entry>)
    requires GoodQueue(c, q) && Below(q, next) && Indexed(q, m.byTxid, m.bySender, m.bySeq)
    requires (c.txId(t) in Ids(q) ==> t in TxnsOf(q)) && rest == Without(q, c.txId(t))
    ensures GoodQueue(c, rest) && Below(rest, next) && |rest| <= |q|
    ensures var m' := DropMaps(m, t, c.txId(t)); Indexed(rest, m'.byTxid, m'.bySender, m'.bySeq)
  {
    if c.txId(t) in m.byTxid {
      DropEntry(c, q, Find(Ids(q), c.txId(t)), t, next, m.byTxid, m.bySender, m.bySeq);
    } else {
      AbsentEntry(q, c.txId(t), m.byTxid);
    }
  }

  lemma IndexAnswers(c: Crypto, q: seq<Entry>, t: Txn, byTxid: map<Digest, Entry>, bySender: map<Address, Digest>,
                     bySeq: map<u64, Digest>)
    requires GoodQueue(c, q) && Indexed(q, byTxid, bySender, bySeq)
    ensures c.txId(t) in byTxid <==> c.txId(t) in Ids(q)
    ensures t.sender in bySender <==> t.sender in Senders(q)
    ensures |byTxid| == |q|
  {
    ListsSize(byTxid, Ids(q), q);
  }

  // The checks of admission in their order, on the answers of the index.
  method JudgeBy(c: Crypto, byTxid: map<Digest, Entry>, bySender: map<Address, Digest>, cap: nat, t: Txn,
                 accountAt: Address -> Account, ghost q: seq<Entry>)
    returns (r: AdmitResult)
    requires c.txId(t) in byTxid <==> c.txId(t) in Ids(q)
    requires t.sender in bySender <==> t.sender in Senders(q)
    requires |byTxid| == |q|
    ensures r == AdmitVerdict(c, q, cap, t, accountAt(t.sender))
  {
    if t.ver != TXN_VERSION {
      return Unparseable;
    }
    var id := c.txId(t);
    if id in byTxid {
      return Duplicate;
    }
    var reason := ShadowVerdict(c, t, accountAt(t.sender));
    if reason == BadAddr || reason == BadSig || reason == StaleNonce {
      return ReasonToAdmit(reason);
    }
    if reason != OK && reason != InsufficientFunds {
      return BadAddrToken;
    }
    if t.sender in bySender {
      return PendingSlotBusy;
    }
    if reason == InsufficientFunds {
      return InsufficientFundsToken;
    }
    if |byTxid| >= cap {
      return MempoolFull;
    }
    return Admitted;
  }

  // The consensus gate on a shadow that holds one account, at position 1 so that the coinbase exemption
  // is never taken.
  method ShadowVerdict(c: Crypto, t: Txn, acct: Account) returns (r: Reason)
    ensures r == Verdict(c, acct, t, 0, 1)
  {
    var shadow := new AccountMap(map[t.sender := acct]);
    r := shadow.ApplyTxn(c, t, 0, 1);
  }

  // The three maps list exactly the entries of the queue.
  ghost predicate Indexed(q: seq<Entry>, byTxid: map<Digest, Entry>, bySender: map<Address, Digest>,
                          bySeq: map<u64, Digest>)
  {
    Lists(byTxid, Ids(q), q) && Lists(bySender, Senders(q), Ids(q)) && Lists(bySeq, Seqs(q), Ids(q))
  }

  lemma ListedAt(q: seq<Entry>, k: nat, byTxid: map<Digest, Entry>, bySender: map<Address, Digest>,
                 bySeq: map<u64, Digest>)
    requires Indexed(q, byTxid, bySender, bySeq) && k < |q|
    ensures Ids(q)[k] in byTxid && byTxid[Ids(q)[k]] == q[k]
    ensures Senders(q)[k] in bySender && bySender[Senders(q)[k]] == Ids(q)[k]
    ensures Seqs(q)[k] in bySeq && bySeq[Seqs(q)[k]] == Ids(q)[k]
  {
  }

  lemma IndexAppend(q: seq<Entry>, e: Entry, byTxid: map<Digest, Entry>, bySender: map<Address, Digest>,
                    bySeq: map<u64, Digest>)
    requires Indexed(q, byTxid, bySender, bySeq)
    requires e.txid !in byTxid && e.txn.sender !in bySender && e.feelessSeq !in bySeq
    ensures Indexed(q + [e], byTxid[e.txid := e], bySender[e.txn.sender := e.txid], bySeq[e.feelessSeq := e.txid])
  {
    KeysAppend(q, e);
    ListsAppend(byTxid, Ids(q), q, e.txid, e);
    ListsAppend(bySender, Senders(q), Ids(q), e.txn.sender, e.txid);
    ListsAppend(bySeq, Seqs(q), Ids(q), e.feelessSeq, e.txid);
  }

  lemma IndexDrop(q: seq<Entry>, k: nat, byTxid: map<Digest, Entry>, bySender: map<Address, Digest>,
                  bySeq: map<u64, Digest>)
    requires Indexed(q, byTxid, bySender, bySeq) && k < |q|
    requires Distinct(Ids(q)) && Distinct(Senders(q)) && Increasing(Seqs(q))
    ensures Indexed(Drop(q, k), byTxid - {Ids(q)[k]}, bySender - {Senders(q)[k]}, bySeq - {Seqs(q)[k]})
  {
    KeysDrop(q, k);
    IncreasingIsDistinct(Seqs(q));
    ListsDrop(byTxid, Ids(q), q, k);
    ListsDrop(bySender, Senders(q), Ids(q), k);
    ListsDrop(bySeq, Seqs(q), Ids(q), k);
  }

  // ---- What admission means ----

  // Admission runs the gate on a one-account shadow at made-up indices; on any ledger that holds the same
  // account of the sender, and at any position past the coinbase, the verdict on the transaction itself is
  // the consensus one.
  lemma AdmissionIsTheGate(c: Crypto, q: seq<Entry>, cap: nat, t: Txn, work: Ledger, idx: u64, ti: nat)
    requires t.ver == TXN_VERSION && c.txId(t) !in Ids(q) && ti > 0
    ensures var r, g := AdmitVerdict(c, q, cap, t, Lookup(work, t.sender)), GateTxn(c, work, t, idx, ti).reason;
      && (r == Admitted <==> g == OK && t.sender !in Senders(q) && |q| < cap)
      && (g == BadTxnsHash ==> r == BadAddrToken)
      && (g == BadAddr || g == BadSig || g == StaleNonce ==> r == ReasonToAdmit(g))
      && (g == InsufficientFunds ==> r == if t.sender in Senders(q) then PendingSlotBusy else InsufficientFundsToken)
  {
  }

  // Every answer of admission on the transaction, its sender's account and the queue, free of the order of
  // the checks.
  lemma AdmitTokensExactly(c: Crypto, q: seq<Entry>, cap: nat, t: Txn, acct: Account)
    ensures var r := AdmitVerdict(c, q, cap, t, acct);
      var isNew := t.ver == 1 && forall i :: 0 <= i < |q| ==> q[i].txid != c.txId(t);
      var owned := t.sender != Zeros(20) && c.addressMatches(t.sender, t.pubkey);
      var next := owned && c.verifies(t) && t.nonce == acct.nonce;
      var waits := exists i :: 0 <= i < |q| && q[i].txn.sender == t.sender;
      && (r == Unparseable <==> t.ver != 1)
      && (r == Duplicate <==> t.ver == 1 && !isNew)
      && (r == BadAddrToken <==> isNew && !owned)
      && (r == BadSigToken <==> isNew && owned && !c.verifies(t))
      && (r == StaleNonceToken <==> isNew && owned && c.verifies(t) && t.nonce != acct.nonce)
      && (r == PendingSlotBusy <==> isNew && next && waits)
      && (r == InsufficientFundsToken <==> isNew && next && !waits && t.amount > acct.balance)
      && (r == MempoolFull <==> isNew && next && !waits && t.amount <= acct.balance && |q| >= cap)
      && (r == Admitted <==> isNew && next && !waits && t.amount <= acct.balance && |q| < cap)
  {
    assert c.txId(t) in Ids(q) <==> exists i :: 0 <= i < |q| && Ids(q)[i] == c.txId(t);
    assert t.sender in Senders(q) <==> exists i :: 0 <= i < |q| && Senders(q)[i] == t.sender;
  }

  // In a collision of ids between different senders, evicting the one drops the other's entry but leaves the
  // other's slot taken by an id that nothing finds any more.
  lemma CollisionKeepsSlot(m: Maps, t: Txn, id: Digest)
    requires id in m.byTxid && m.byTxid[id].txn.sender != t.sender
    requires m.byTxid[id].txn.sender in m.bySender && m.bySender[m.byTxid[id].txn.sender] == id
    ensures var m' := DropMaps(m, t, id);
      && id !in m'.byTxid && m.byTxid[id].feelessSeq !in m'.bySeq
      && m.byTxid[id].txn.sender in m'.bySender && m'.bySender[m.byTxid[id].txn.sender] == id
  {
  }
}
