/** The canonical serializer: the only place where transactions and headers become bytes. */
module Canonical {
  import opened Bytes
  import opened Wrappers

  const TXN_VERSION: byte := 1
  const TXN_SIZE := 153
  const HEADER_SIZE := 88
  const SIGNED_PAYLOAD_SIZE := 89

  datatype Txn = Txn(
    ver: byte, sender: Address, recipient: Address, amount: u64, nonce: u64, pubkey: PubKey, sig: Signature)

  datatype Header = Header(index: u64, timestamp: u64, prevHash: Digest, txnsHash: Digest, nonce: u64)

  datatype Block = Block(header: Header, txns: seq<Txn>)

  /** The two cryptographic primitives, left uninterpreted: any hash function and any signature
      check. Nothing here assumes that the hash is injective. */
  datatype Primitives = Primitives(sha256: Bytes -> Digest, verify: (PubKey, Signature, Bytes) -> bool)

  /** What the ledger sees of the byte layer. The laws of the ledger hold for any such functions;
      CryptoOf gives the ones the program computes. */
  datatype Crypto = Crypto(
    txId: Txn -> Digest,
    txnsHash: seq<Txn> -> Digest,
    blockHash: Header -> Digest,
    addressMatches: (Address, PubKey) -> bool,
    verifies: Txn -> bool)

  predicate Authentic(c: Crypto, t: Txn) { c.addressMatches(t.sender, t.pubkey) && c.verifies(t) }

  // ---- Byte layout ----

  function SignedPayload(t: Txn): (s: Bytes)
    ensures |s| == SIGNED_PAYLOAD_SIZE
  {
    [t.ver] + t.sender + t.recipient + ToBigEndian(t.amount, 8) + ToBigEndian(t.nonce, 8) + t.pubkey
  }

  function SerializeTxn(t: Txn): (s: Bytes)
    ensures |s| == TXN_SIZE
  {
    SignedPayload(t) + t.sig
  }

  function SerializeHeader(h: Header): (s: Bytes)
    ensures |s| == HEADER_SIZE
  {
    ToBigEndian(h.index, 8) + ToBigEndian(h.timestamp, 8) + h.prevHash + h.txnsHash + ToBigEndian(h.nonce, 8)
  }

  function ConcatTxns(txns: seq<Txn>): Bytes
  {
    if txns == [] then [] else ConcatTxns(txns[..|txns| - 1]) + SerializeTxn(txns[|txns| - 1])
  }

  // ---- Derived digests and checks ----

  // Transactions are identified by the hash of their encoding, lists by the hash of the concatenated
  // encodings, blocks by the hash of the header. An address is the first twenty bytes of the digest of
  // the public key, and a signature covers all of a transaction but itself.
  function CryptoOf(prim: Primitives): Crypto
  {
    Crypto(
      (t: Txn) => prim.sha256(SerializeTxn(t)),
      (txns: seq<Txn>) => prim.sha256(ConcatTxns(txns)),
      (h: Header) => prim.sha256(SerializeHeader(h)),
      (a: Address, pubkey: PubKey) => a == prim.sha256(pubkey)[..20],
      (t: Txn) => prim.verify(t.pubkey, t.sig, SignedPayload(t)))
  }

  // ---- Decoding ----

  function U64At(s: Bytes, off: nat): (v: u64)
    requires off + 8 <= |s|
  {
    BigEndianBound(s[off..off + 8]);
    assert Pow256(8) == TWO64 by { Pow256Of8(); }
    BigEndian(s[off..off + 8])
  }

  lemma Pow256Of8()
    ensures Pow256(8) == TWO64
  {
    assert Pow256(4) == 0x1_0000_0000;
  }

  function ParseTxn(s: Bytes): Option<Txn>
  {
    if |s| != TXN_SIZE || s[0] != TXN_VERSION then None
    else Some(Txn(s[0], s[1..21], s[21..41], U64At(s, 41), U64At(s, 49), s[57..89], s[89..153]))
  }

  function ParseHeader(s: Bytes): Option<Header>
  {
    if |s| != HEADER_SIZE then None
    else Some(Header(U64At(s, 0), U64At(s, 8), s[16..48], s[48..80], U64At(s, 80)))
  }

  // ---- Laws of the codec ----

  lemma U64AtOfEncoding(s: Bytes, off: nat, v: u64)
    requires off + 8 <= |s| && s[off..off + 8] == ToBigEndian(v, 8)
    ensures U64At(s, off) == v
  {
    Pow256Of8();
    DecodeEncode(v, 8);
  }

  lemma EncodingOfU64At(s: Bytes, off: nat)
    requires off + 8 <= |s|
    ensures ToBigEndian(U64At(s, off), 8) == s[off..off + 8]
  {
    EncodeDecode(s[off..off + 8]);
  }

  // Where each field of a transaction sits in its 153 bytes.
  lemma TxnLayout(t: Txn)
    ensures var s := SerializeTxn(t);
      && s[0] == t.ver && s[1..21] == t.sender && s[21..41] == t.recipient
      && s[41..49] == ToBigEndian(t.amount, 8) && s[49..57] == ToBigEndian(t.nonce, 8)
      && s[57..89] == t.pubkey && s[89..153] == t.sig && s[..89] == SignedPayload(t)
  {
  }

  lemma HeaderLayout(h: Header)
    ensures var s := SerializeHeader(h);
      && s[0..8] == ToBigEndian(h.index, 8) && s[8..16] == ToBigEndian(h.timestamp, 8)
      && s[16..48] == h.prevHash && s[48..80] == h.txnsHash && s[80..88] == ToBigEndian(h.nonce, 8)
  {
  }

  // Decoding undoes encoding exactly for version-1 transactions; any other version is refused.
  lemma TxnRoundTrip(t: Txn)
    ensures ParseTxn(SerializeTxn(t)) == if t.ver == TXN_VERSION then Some(t) else None
  {
    TxnLayout(t);
    U64AtOfEncoding(SerializeTxn(t), 41, t.amount);
    U64AtOfEncoding(SerializeTxn(t), 49, t.nonce);
  }

  // Every accepted byte string is the encoding of what it decodes to, and acceptance is a matter of
  // length and version byte alone.
  lemma TxnBytesRoundTrip(s: Bytes)
    ensures ParseTxn(s).Some? <==> |s| == TXN_SIZE && s[0] == TXN_VERSION
    ensures ParseTxn(s).Some? ==> SerializeTxn(ParseTxn(s).value) == s
  {
    if ParseTxn(s).Some? {
      EncodingOfU64At(s, 41);
      EncodingOfU64At(s, 49);
      assert s == s[0..1] + s[1..21] + s[21..41] + s[41..49] + s[49..57] + s[57..89] + s[89..153];
    }
  }

  lemma HeaderRoundTrip(h: Header)
    ensures ParseHeader(SerializeHeader(h)) == Some(h)
  {
    HeaderLayout(h);
    U64AtOfEncoding(SerializeHeader(h), 0, h.index);
    U64AtOfEncoding(SerializeHeader(h), 8, h.timestamp);
    U64AtOfEncoding(SerializeHeader(h), 80, h.nonce);
  }

  lemma HeaderBytesRoundTrip(s: Bytes)
    ensures ParseHeader(s).Some? <==> |s| == HEADER_SIZE
    ensures ParseHeader(s).Some? ==> SerializeHeader(ParseHeader(s).value) == s
  {
    if |s| == HEADER_SIZE {
      EncodingOfU64At(s, 0);
      EncodingOfU64At(s, 8);
      EncodingOfU64At(s, 80);
      assert s == s[0..8] + s[8..16] + s[16..48] + s[48..80] + s[80..88];
    }
  }

  // Encoding loses nothing, whatever the version byte.
  lemma SerializeTxnInjective(t: Txn, u: Txn)
    requires SerializeTxn(t) == SerializeTxn(u)
    ensures t == u
  {
    TxnLayout(t);
    TxnLayout(u);
    U64AtOfEncoding(SerializeTxn(t), 41, t.amount);
    U64AtOfEncoding(SerializeTxn(t), 49, t.nonce);
    U64AtOfEncoding(SerializeTxn(u), 41, u.amount);
    U64AtOfEncoding(SerializeTxn(u), 49, u.nonce);
  }

  // Two transactions with one signed payload differ in nothing but the signature.
  lemma SignedPayloadCoversAllButSig(t: Txn, u: Txn)
    requires SignedPayload(t) == SignedPayload(u)
    ensures t == u.(sig := t.sig)
  {
    SerializeTxnInjective(t, u.(sig := t.sig));
  }

  lemma SerializeHeaderInjective(h: Header, g: Header)
    requires SerializeHeader(h) == SerializeHeader(g)
    ensures h == g
  {
    HeaderRoundTrip(h);
    HeaderRoundTrip(g);
  }

  lemma {:induction false} ConcatTxnsLength(txns: seq<Txn>)
    ensures |ConcatTxns(txns)| == 153 * |txns|
  {
    if txns != [] {
      ConcatTxnsLength(txns[..|txns| - 1]);
    }
  }

  // The undelimited concatenation that is hashed determines the list of transactions.
  lemma {:induction false} ConcatTxnsInjective(xs: seq<Txn>, ys: seq<Txn>)
    requires ConcatTxns(xs) == ConcatTxns(ys)
    ensures xs == ys
  {
    ConcatTxnsLength(xs);
    ConcatTxnsLength(ys);
    if xs != [] {
      var n := |xs| - 1;
      ConcatTxnsLength(xs[..n]);
      ConcatTxnsLength(ys[..n]);
      var cx, cy := ConcatTxns(xs[..n]), ConcatTxns(ys[..n]);
      assert ConcatTxns(xs)[..153 * n] == cx && ConcatTxns(ys)[..153 * n] == cy;
      assert ConcatTxns(xs)[153 * n..] == SerializeTxn(xs[n]);
      assert ConcatTxns(ys)[153 * n..] == SerializeTxn(ys[n]);
      ConcatTxnsInjective(xs[..n], ys[..n]);
      SerializeTxnInjective(xs[n], ys[n]);
      assert xs == xs[..n] + [xs[n]] && ys == ys[..n] + [ys[n]];
    }
  }

  // ---- The serializer as it writes its buffers ----

  method PutU64(buf: array<byte>, off: nat, v: u64) returns (next: nat)
    requires off + 8 <= buf.Length
    modifies buf
    ensures next == off + 8
    ensures buf[..] == old(buf[..off]) + ToBigEndian(v, 8) + old(buf[off + 8..])
  {
    next := off;
    var i := 8;
    while i > 0
      invariant 0 <= i <= 8 && next == off + (8 - i)
      invariant forall k :: 0 <= k < buf.Length && !(off <= k < next) ==> buf[k] == old(buf[k])
      invariant forall k :: 0 <= k < 8 - i ==> buf[off + k] == ToBigEndian(v, 8)[k]
    {
      i := i - 1;
      buf[next] := (v / Pow256(i)) % 256;
      next := next + 1;
    }
  }

  method PutArr(buf: array<byte>, off: nat, a: Bytes) returns (next: nat)
    requires off + |a| <= buf.Length
    modifies buf
    ensures next == off + |a|
    ensures buf[..] == old(buf[..off]) + a + old(buf[off + |a|..])
  {
    next := off;
    for i := 0 to |a|
      invariant next == off + i
      invariant forall k :: 0 <= k < buf.Length && !(off <= k < next) ==> buf[k] == old(buf[k])
      invariant forall k :: 0 <= k < i ==> buf[off + k] == a[k]
    {
      buf[next] := a[i];
      next := next + 1;
    }
  }

  method WriteTxn(t: Txn) returns (out: array<byte>)
    ensures fresh(out) && out[..] == SerializeTxn(t)
  {
    out := new byte[TXN_SIZE](_ => 0);
    out[0] := t.ver;
    var off := 1;
    assert out[..off] == [t.ver];
    off := PutArr(out, off, t.sender);
    off := PutArr(out, off, t.recipient);
    off := PutU64(out, off, t.amount);
    off := PutU64(out, off, t.nonce);
    off := PutArr(out, off, t.pubkey);
    assert out[..89] == SignedPayload(t);
    off := PutArr(out, off, t.sig);
  }

  method WriteHeader(h: Header) returns (out: array<byte>)
    ensures fresh(out) && out[..] == SerializeHeader(h)
  {
    out := new byte[HEADER_SIZE](_ => 0);
    var off := PutU64(out, 0, h.index);
    off := PutU64(out, off, h.timestamp);
    off := PutArr(out, off, h.prevHash);
    off := PutArr(out, off, h.txnsHash);
    off := PutU64(out, off, h.nonce);
  }

  method GetU64(p: Bytes, off: nat) returns (v: u64, next: nat)
    requires off + 8 <= |p|
    ensures next == off + 8 && v == U64At(p, off)
  {
    v, next := 0, off;
    for i := 0 to 8
      invariant next == off + i && v == BigEndian(p[off..next])
    {
      BigEndianBound(p[off..next + 1]);
      assert p[off..next + 1][..i] == p[off..next];
      assert BigEndian(p[off..next + 1]) == 256 * v + p[next];
      Pow256Monotone(i + 1, 8);
      Pow256Of8();
      v := Wrap64(v * 256) + p[next];
      next := next + 1;
    }
  }

  lemma {:induction false} Pow256Monotone(m: nat, n: nat)
    requires m <= n
    ensures Pow256(m) <= Pow256(n)
  {
    if m < n {
      Pow256Monotone(m, n - 1);
    }
  }

  method GetArr(p: Bytes, off: nat, n: nat) returns (a: Bytes, next: nat)
    requires off + n <= |p|
    ensures next == off + n && a == p[off..off + n]
  {
    a, next := [], off;
    for i := 0 to n
      invariant next == off + i && a == p[off..next]
    {
      a := a + [p[next]];
      next := next + 1;
    }
  }

  method ReadTxn(p: Bytes) returns (r: Option<Txn>)
    ensures r == ParseTxn(p)
  {
    if |p| != TXN_SIZE {
      return None;
    }
    if p[0] != TXN_VERSION {
      return None;
    }
    var off := 0;
    var ver := p[off];
    off := off + 1;
    var sender, recipient, amount, nonce, pubkey, sig;
    sender, off := GetArr(p, off, 20);
    recipient, off := GetArr(p, off, 20);
    amount, off := GetU64(p, off);
    nonce, off := GetU64(p, off);
    pubkey, off := GetArr(p, off, 32);
    sig, off := GetArr(p, off, 64);
    r := Some(Txn(ver, sender, recipient, amount, nonce, pubkey, sig));
  }

  method ReadHeader(p: Bytes) returns (r: Option<Header>)
    ensures r == ParseHeader(p)
  {
    if |p| != HEADER_SIZE {
      return None;
    }
    var off := 0;
    var index, timestamp, prevHash, txnsHash, nonce;
    index, off := GetU64(p, off);
    timestamp, off := GetU64(p, off);
    prevHash, off := GetArr(p, off, 32);
    txnsHash, off := GetArr(p, off, 32);
    nonce, off := GetU64(p, off);
    r := Some(Header(index, timestamp, prevHash, txnsHash, nonce));
  }

  // The streaming hash absorbs one 153-byte encoding after another before it is finalised.
  method StreamTxnsHash(prim: Primitives, txns: seq<Txn>) returns (d: Digest)
    ensures d == CryptoOf(prim).txnsHash(txns)
  {
    var absorbed: Bytes := [];
    for i := 0 to |txns|
      invariant absorbed == ConcatTxns(txns[..i])
    {
      var chunk := WriteTxn(txns[i]);
      absorbed := absorbed + chunk[..];
      assert txns[..i + 1][..i] == txns[..i];
    }
    assert txns[..|txns|] == txns;
    d := prim.sha256(absorbed);
  }

  // ---- The digests and checks as the program computes them ----

  // The signed payload is the full encoding without its last 64 bytes, copied byte by byte.
  method WriteSignedPayload(t: Txn) returns (sp: array<byte>)
    ensures fresh(sp) && sp[..] == SerializeTxn(t)[..SIGNED_PAYLOAD_SIZE]
  {
    var full := WriteTxn(t);
    sp := new byte[SIGNED_PAYLOAD_SIZE](_ => 0);
    for i := 0 to SIGNED_PAYLOAD_SIZE
      invariant fresh(sp) && full[..] == SerializeTxn(t)
      invariant forall k :: 0 <= k < i ==> sp[k] == full[k]
    {
      sp[i] := full[i];
    }
    assert sp[..] == full[..][..SIGNED_PAYLOAD_SIZE];
  }

  method CheckSignature(prim: Primitives, t: Txn) returns (ok: bool)
    ensures ok <==> CryptoOf(prim).verifies(t)
  {
    var payload := WriteSignedPayload(t);
    PayloadIsFront(t);
    ok := prim.verify(t.pubkey, t.sig, payload[..]);
  }

  lemma PayloadIsFront(t: Txn)
    ensures SerializeTxn(t)[..SIGNED_PAYLOAD_SIZE] == SignedPayload(t)
  {
  }

  method TxId(prim: Primitives, t: Txn) returns (id: Digest)
    ensures id == CryptoOf(prim).txId(t)
  {
    var bytes := WriteTxn(t);
    id := prim.sha256(bytes[..]);
  }

  method BlockHash(prim: Primitives, h: Header) returns (d: Digest)
    ensures d == CryptoOf(prim).blockHash(h)
  {
    var bytes := WriteHeader(h);
    d := prim.sha256(bytes[..]);
  }

  // The first twenty bytes of the digest of the key.
  method AddressOf(prim: Primitives, pubkey: PubKey) returns (a: Address)
    ensures forall i :: 0 <= i < 20 ==> a[i] == prim.sha256(pubkey)[i]
  {
    var digest := prim.sha256(pubkey);
    var addr := new byte[20](_ => 0);
    for i := 0 to 20
      invariant forall k :: 0 <= k < i ==> addr[k] == digest[k]
    {
      addr[i] := digest[i];
    }
    a := addr[..];
  }

  method AddressMatches(prim: Primitives, sender: Address, pubkey: PubKey) returns (ok: bool)
    ensures ok <==> CryptoOf(prim).addressMatches(sender, pubkey)
    ensures ok <==> forall i :: 0 <= i < 20 ==> sender[i] == prim.sha256(pubkey)[i]
  {
    var a := AddressOf(prim, pubkey);
    assert a == prim.sha256(pubkey)[..20];
    ok := sender == a;
    assert ok <==> forall i :: 0 <= i < 20 ==> sender[i] == a[i];
  }

  // ---- What the digests and checks commit to ----

  // Equal digests of two byte strings that differ.
  ghost predicate Collision(prim: Primitives, x: Bytes, y: Bytes) { x != y && prim.sha256(x) == prim.sha256(y) }

  // An id, or a block hash, stands for one transaction, or one header, or a collision is at hand.
  lemma SameIdSameTxn(prim: Primitives, t: Txn, u: Txn)
    requires CryptoOf(prim).txId(t) == CryptoOf(prim).txId(u)
    ensures t == u || Collision(prim, SerializeTxn(t), SerializeTxn(u))
  {
    if SerializeTxn(t) == SerializeTxn(u) {
      SerializeTxnInjective(t, u);
    }
  }

  lemma SameHashSameHeader(prim: Primitives, h: Header, g: Header)
    requires CryptoOf(prim).blockHash(h) == CryptoOf(prim).blockHash(g)
    ensures h == g || Collision(prim, SerializeHeader(h), SerializeHeader(g))
  {
    if SerializeHeader(h) == SerializeHeader(g) {
      SerializeHeaderInjective(h, g);
    }
  }

  lemma SameHashSameTxns(prim: Primitives, xs: seq<Txn>, ys: seq<Txn>)
    requires CryptoOf(prim).txnsHash(xs) == CryptoOf(prim).txnsHash(ys)
    ensures xs == ys || Collision(prim, ConcatTxns(xs), ConcatTxns(ys))
  {
    if ConcatTxns(xs) == ConcatTxns(ys) {
      ConcatTxnsInjective(xs, ys);
    }
  }

  // The signature scheme accepts this signature of this key for at most one message.
  ghost predicate SignsOnce(prim: Primitives, pubkey: PubKey, sig: Signature)
  {
    forall m: Bytes, n: Bytes :: prim.verify(pubkey, sig, m) && prim.verify(pubkey, sig, n) ==> m == n
  }

  // No tampering: two transactions that verify under one key with one signature are the same transaction.
  lemma NoTampering(prim: Primitives, t: Txn, u: Txn)
    requires t.pubkey == u.pubkey && t.sig == u.sig && SignsOnce(prim, t.pubkey, t.sig)
    requires CryptoOf(prim).verifies(t) && CryptoOf(prim).verifies(u)
    ensures t == u
  {
    SignedPayloadCoversAllButSig(t, u);
  }
}
