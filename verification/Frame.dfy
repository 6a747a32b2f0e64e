/** The length-prefixed frame codec over a byte stream that delivers and accepts in pieces. */
module FrameModel {
  import opened Bytes
  import opened Wrappers

  const FRAME_MAGIC: Bytes := [0x54, 0x58, 0x43, 0x31]
  const MAX_FRAME_LEN := 2097152
  const FRAME_HEADER_LEN := 9

  datatype FrameError = BadMagic | Oversize | ShortRead | IoError

  datatype Frame = Frame(kind: byte, payload: Bytes)

  datatype Result = Success(frame: Frame) | Failure(error: FrameError)

  // ---- The format ----

  function Encode(f: Frame): Bytes
  {
    FRAME_MAGIC + [f.kind] + ToBigEndian(|f.payload|, 4) + f.payload
  }

  // One attempt to take a frame off a stream that ends where the bytes end.
  datatype Parsed = Parsed(result: Result, rest: Bytes)

  function ParseFrame(s: Bytes): Parsed
  {
    if |s| < FRAME_HEADER_LEN then Parsed(Failure(ShortRead), [])
    else if s[..4] != FRAME_MAGIC then Parsed(Failure(BadMagic), s[9..])
    else
      var length := BigEndian(s[5..9]);
      if length > MAX_FRAME_LEN then Parsed(Failure(Oversize), s[9..])
      else if |s| < 9 + length then Parsed(Failure(ShortRead), [])
      else Parsed(Success(Frame(s[4], s[9..9 + length])), s[9 + length..])
  }

  // ---- A stream socket ----

  // What a call of recv or send does: fail with EINTR, fail for good, or move at most `limit` bytes. A
  // script lists the events to come; after its end every call moves all it can.
  datatype Event = Interrupted | Broken | Moves(limit: nat)

  predicate Healthy(script: seq<Event>) { Broken !in script }

  // A buffer whose k elements from off on were overwritten, taken apart.
  lemma Spliced<T>(before: seq<T>, data: seq<T>, after: seq<T>, off: nat, k: nat)
    requires |after| == |before| && off + k <= |before| && k <= |data|
    requires forall i :: 0 <= i < |before| ==>
      after[i] == if off <= i < off + k then data[i - off] else before[i]
    ensures after == before[..off] + data[..k] + before[off + k..]
  {
  }

  // The receiving end: the bytes the peer sends before it closes, and how they arrive.
  class Source {
    var pending: Bytes
    var script: seq<Event>

    constructor (pending: Bytes, script: seq<Event>)
      ensures this.pending == pending && this.script == script
    {
      this.pending := pending;
      this.script := script;
    }

    // Returns the count of bytes placed in the buffer; 0 means that the peer has closed, and a negative
    // number is a failure. An open stream delivers at least one byte.
    method Recv(buf: array<byte>, off: nat, n: nat) returns (r: int, interrupted: bool)
      requires off + n <= buf.Length && n > 0
      modifies this, buf
      ensures -1 <= r <= n && (r >= 0 ==> r <= |old(pending)|)
      ensures pending == old(pending)[if r < 0 then 0 else r..]
      ensures var k := if r < 0 then 0 else r;
        buf[..] == old(buf[..])[..off] + old(pending)[..k] + old(buf[..])[off + k..]
      ensures r == 0 <==> old(pending) == [] && r >= 0
      ensures r < 0 ==> |script| < |old(script)| && (!interrupted ==> Broken in old(script))
      ensures |script| <= |old(script)| && script == old(script)[|old(script)| - |script|..]
    {
      var limit := n;
      interrupted := false;
      if script != [] {
        var e := script[0];
        script := script[1..];
        if e.Interrupted? {
          return -1, true;
        }
        if e.Broken? {
          return -1, false;
        }
        limit := if e.limit == 0 then 1 else if e.limit < n then e.limit else n;
      }
      var k := if |pending| < limit then |pending| else limit;
      forall i | 0 <= i < k {
        buf[off + i] := pending[i];
      }
      Spliced(old(buf[..]), pending, buf[..], off, k);
      pending := pending[k..];
      r := k;
    }
  }

  // The sending end: the bytes the system has accepted, and how it accepts more.
  class Sink {
    var accepted: Bytes
    var script: seq<Event>

    constructor (script: seq<Event>)
      ensures accepted == [] && this.script == script
    {
      accepted := [];
      this.script := script;
    }

    method Send(data: Bytes) returns (w: int, interrupted: bool)
      modifies this
      ensures -1 <= w <= |data|
      ensures accepted == old(accepted) + data[..if w < 0 then 0 else w]
      ensures w < 0 && !interrupted ==> Broken in old(script)
      ensures |script| <= |old(script)| && script == old(script)[|old(script)| - |script|..]
      ensures w == |data| || |script| < |old(script)|
    {
      interrupted := false;
      w := |data|;
      if script != [] {
        var e := script[0];
        script := script[1..];
        if e.Interrupted? {
          return -1, true;
        }
        if e.Broken? {
          return -1, false;
        }
        w := if e.limit < |data| then e.limit else |data|;
      }
      accepted := accepted + data[..w];
    }
  }

  lemma SuffixTrans(a: seq<Event>, b: seq<Event>, c: seq<Event>)
    requires |b| <= |a| && b == a[|a| - |b|..]
    requires |c| <= |b| && c == b[|b| - |c|..]
    ensures c == a[|a| - |c|..]
    ensures Broken in b ==> Broken in a
  {
  }

  // ---- Reading and writing everything ----

  // Success takes exactly the next n bytes; the peer closing early takes all there were. Interrupts and the
  // sizes of the pieces leave no trace.
  method ReadExact(src: Source, buf: array<byte>, n: nat) returns (ok: bool, err: FrameError)
    requires n <= buf.Length
    modifies src, buf
    ensures ok ==> n <= |old(src.pending)| && buf[..n] == old(src.pending)[..n] && src.pending == old(src.pending)[n..]
    ensures !ok && err == ShortRead ==> |old(src.pending)| < n && src.pending == []
    ensures !ok ==> err == ShortRead || (err == IoError && Broken in old(src.script))
    ensures |src.script| <= |old(src.script)| && src.script == old(src.script)[|old(src.script)| - |src.script|..]
  {
    err := IoError;
    ghost var all := src.pending;
    ghost var script := src.script;
    var got := 0;
    while got < n
      invariant got <= n && got <= |all| && src.pending == all[got..] && buf[..got] == all[..got]
      invariant |src.script| <= |script| && src.script == script[|script| - |src.script|..]
      decreases n - got, |src.script|
    {
      ghost var before := src.script;
      var r, interrupted := src.Recv(buf, got, n - got);
      SuffixTrans(script, before, src.script);
      if r == 0 {
        return false, ShortRead;
      }
      if r < 0 {
        if interrupted {
          continue;
        }
        return false, IoError;
      }
      got := got + r;
    }
    ok := true;
  }

  method WriteAll(dst: Sink, data: Bytes) returns (ok: bool, err: FrameError)
    modifies dst
    ensures ok ==> dst.accepted == old(dst.accepted) + data
    ensures !ok ==> err == IoError && Broken in old(dst.script)
    ensures !ok ==> exists k :: 0 <= k < |data| && dst.accepted == old(dst.accepted) + data[..k]
    ensures |dst.script| <= |old(dst.script)| && dst.script == old(dst.script)[|old(dst.script)| - |dst.script|..]
  {
    err := IoError;
    ghost var start := dst.accepted;
    ghost var script := dst.script;
    var sent := 0;
    while sent < |data|
      invariant sent <= |data| && dst.accepted == start + data[..sent]
      invariant |dst.script| <= |script| && dst.script == script[|script| - |dst.script|..]
      decreases |data| - sent, |dst.script|
    {
      ghost var before := dst.script;
      var w, interrupted := dst.Send(data[sent..]);
      SuffixTrans(script, before, dst.script);
      if w < 0 {
        if interrupted {
          continue;
        }
        return false, IoError;
      }
      assert data[..sent + w] == data[..sent] + data[sent..][..w];
      sent := sent + w;
    }
    ok := true;
  }

  // ---- Frames ----

  lemma BigEndian4(s: Bytes)
    requires |s| == 4
    ensures BigEndian(s) == s[0] as int * 0x100_0000 + s[1] as int * 0x1_0000 + s[2] as int * 0x100 + s[3]
  {
    assert s[..3][..2] == s[..2] && s[..2][..1] == s[..1] && s[..1][..0] == [];
    assert BigEndian(s[..1]) == s[0];
    assert BigEndian(s[..2]) == 256 * BigEndian(s[..1]) + s[1];
    assert BigEndian(s[..3]) == 256 * BigEndian(s[..2]) + s[2];
  }

  // The four bytes of the length, put together by shifts.
  function LengthOf(hdr: Bytes): u32
    requires |hdr| == 9
  {
    hdr[5] as int * 0x100_0000 + hdr[6] as int * 0x1_0000 + hdr[7] as int * 0x100 + hdr[8] as int
  }

  // What the stream behind a good header gives.
  function ParseBody(kind: byte, length: u32, rest: Bytes): Parsed
  {
    if length > MAX_FRAME_LEN then Parsed(Failure(Oversize), rest)
    else if |rest| < length then Parsed(Failure(ShortRead), [])
    else Parsed(Success(Frame(kind, rest[..length])), rest[length..])
  }

  predicate HasMagic(hdr: Bytes)
    requires |hdr| == 9
  {
    hdr[0] == FRAME_MAGIC[0] && hdr[1] == FRAME_MAGIC[1] && hdr[2] == FRAME_MAGIC[2] && hdr[3] == FRAME_MAGIC[3]
  }

  lemma ParseByHeader(hdr: Bytes, rest: Bytes)
    requires |hdr| == 9
    ensures ParseFrame(hdr + rest) ==
            if HasMagic(hdr) then ParseBody(hdr[4], LengthOf(hdr), rest) else Parsed(Failure(BadMagic), rest)
  {
    var s := hdr + rest;
    assert s[9..] == rest && s[5..9] == [hdr[5], hdr[6], hdr[7], hdr[8]];
    BigEndian4(s[5..9]);
    assert s[..4] == [hdr[0], hdr[1], hdr[2], hdr[3]];
    if LengthOf(hdr) <= |rest| {
      SplitLater(hdr, rest, LengthOf(hdr));
      assert s[9..9 + LengthOf(hdr)] == rest[..LengthOf(hdr)];
    }
  }

  // Unless the socket failed, the outcome and what is left of the stream are those of the format, however
  // the bytes arrived. An oversized frame is refused with its body unread.
  method ReadFrame(src: Source) returns (r: Result)
    modifies src
    ensures r == Failure(IoError) || Parsed(r, src.pending) == ParseFrame(old(src.pending))
    ensures r == Failure(IoError) ==> Broken in old(src.script)
    ensures |src.script| <= |old(src.script)| && src.script == old(src.script)[|old(src.script)| - |src.script|..]
  {
    ghost var s, script := src.pending, src.script;
    var ok, err, hdr := ReadBytes(src, FRAME_HEADER_LEN);
    if !ok {
      return Failure(err);
    }
    ghost var before := src.script;
    assert s == hdr + src.pending;
    ParseByHeader(hdr, src.pending);
    r := ReadBehind(src, hdr);
    SuffixTrans(script, before, src.script);
  }

  method ReadBehind(src: Source, hdr: Bytes) returns (r: Result)
    requires |hdr| == 9
    modifies src
    ensures r == Failure(IoError) || Parsed(r, src.pending) ==
      if HasMagic(hdr) then ParseBody(hdr[4], LengthOf(hdr), old(src.pending))
      else Parsed(Failure(BadMagic), old(src.pending))
    ensures r == Failure(IoError) ==> Broken in old(src.script)
    ensures |src.script| <= |old(src.script)| && src.script == old(src.script)[|old(src.script)| - |src.script|..]
  {
    if hdr[0] != FRAME_MAGIC[0] || hdr[1] != FRAME_MAGIC[1] || hdr[2] != FRAME_MAGIC[2] || hdr[3] != FRAME_MAGIC[3] {
      return Failure(BadMagic);
    }
    var kind := hdr[4];
    var length: u32 := LengthOf(hdr);
    if length > MAX_FRAME_LEN {
      return Failure(Oversize);
    }
    var ok, err, payload := ReadBytes(src, length);
    if !ok {
      return Failure(err);
    }
    r := Success(Frame(kind, payload));
  }

  // A buffer of the given size, filled from the stream; an empty one takes no call.
  method ReadBytes(src: Source, length: nat) returns (ok: bool, err: FrameError, payload: Bytes)
    modifies src
    ensures ok ==> length <= |old(src.pending)| && payload == old(src.pending)[..length]
    ensures ok ==> src.pending == old(src.pending)[length..]
    ensures !ok && err == ShortRead ==> |old(src.pending)| < length && src.pending == []
    ensures !ok ==> err == ShortRead || (err == IoError && Broken in old(src.script))
    ensures |src.script| <= |old(src.script)| && src.script == old(src.script)[|old(src.script)| - |src.script|..]
  {
    var buf := new byte[length](_ => 0);
    ok, err := true, IoError;
    if length > 0 {
      ok, err := ReadExact(src, buf, length);
    }
    assert buf[..] == buf[..length];
    payload := buf[..];
  }

  lemma ToBigEndian4(v: u32)
    ensures ToBigEndian(v, 4) == [v / 0x100_0000, v / 0x1_0000 % 0x100, v / 0x100 % 0x100, v % 0x100]
  {
    assert Pow256(0) == 1 && Pow256(1) == 0x100 && Pow256(2) == 0x1_0000 && Pow256(3) == 0x100_0000;
  }

  method WriteHeader(kind: byte, length: u32) returns (hdr: array<byte>)
    ensures fresh(hdr) && hdr[..] == FRAME_MAGIC + [kind] + ToBigEndian(length, 4)
  {
    hdr := new byte[FRAME_HEADER_LEN](_ => 0);
    hdr[0], hdr[1], hdr[2], hdr[3] := FRAME_MAGIC[0], FRAME_MAGIC[1], FRAME_MAGIC[2], FRAME_MAGIC[3];
    hdr[4] := kind;
    hdr[5] := length / 0x100_0000;
    hdr[6] := length / 0x1_0000 % 0x100;
    hdr[7] := length / 0x100 % 0x100;
    hdr[8] := length % 0x100;
    ToBigEndian4(length);
  }

  // A payload over the cap is refused before anything is sent; a failure of the socket leaves a strict
  // prefix of the encoding on the wire.
  method WriteFrame(dst: Sink, kind: byte, payload: Bytes) returns (ok: bool, err: FrameError)
    modifies dst
    ensures |payload| > MAX_FRAME_LEN ==> !ok && err == Oversize && dst.accepted == old(dst.accepted)
    ensures ok ==> dst.accepted == old(dst.accepted) + Encode(Frame(kind, payload))
    ensures !ok && |payload| <= MAX_FRAME_LEN ==>
      && err == IoError && Broken in old(dst.script)
      && exists k :: 0 <= k < |Encode(Frame(kind, payload))| &&
                     dst.accepted == old(dst.accepted) + Encode(Frame(kind, payload))[..k]
    ensures |dst.script| <= |old(dst.script)| && dst.script == old(dst.script)[|old(dst.script)| - |dst.script|..]
  {
    err := Oversize;
    if |payload| > MAX_FRAME_LEN {
      return false, Oversize;
    }
    ghost var start, script := dst.accepted, dst.script;
    ghost var encoding := Encode(Frame(kind, payload));
    var hdr := WriteHeader(kind, |payload|);
    assert encoding == hdr[..] + payload;
    ok, err := WriteAll(dst, hdr[..]);
    if !ok {
      ghost var k :| 0 <= k < 9 && dst.accepted == start + hdr[..][..k];
      assert hdr[..][..k] == encoding[..k];
      return;
    }
    if payload != [] {
      ghost var before := dst.script;
      ok, err := WriteAll(dst, payload);
      SuffixTrans(script, before, dst.script);
      if !ok {
        ghost var k :| 0 <= k < |payload| && dst.accepted == (start + hdr[..]) + payload[..k];
        assert (start + hdr[..]) + payload[..k] == start + encoding[..9 + k];
        return;
      }
    }
    assert (start + hdr[..]) + payload == start + encoding;
  }

  // ---- Round trips ----

  lemma EncodedParts(f: Frame, rest: Bytes)
    ensures var s := Encode(f) + rest;
      && |Encode(f)| == 9 + |f.payload| && s[..4] == FRAME_MAGIC && s[4] == f.kind
      && s[5..9] == ToBigEndian(|f.payload|, 4)
      && s[9..9 + |f.payload|] == f.payload && s[9 + |f.payload|..] == rest
  {
  }

  lemma FourBytesHold(n: nat)
    requires n < 0x1_0000_0000
    ensures BigEndian(ToBigEndian(n, 4)) == n
  {
    assert Pow256(0) == 1 && Pow256(1) == 0x100 && Pow256(2) == 0x1_0000 && Pow256(3) == 0x100_0000;
    assert Pow256(4) == 0x1_0000_0000;
    DecodeEncode(n, 4);
  }

  predicate WithinCap(f: Frame) { |f.payload| <= MAX_FRAME_LEN }

  // A frame within the cap is read back, and the stream stands behind it.
  lemma ParseEncode(f: Frame, rest: Bytes)
    requires WithinCap(f)
    ensures ParseFrame(Encode(f) + rest) == Parsed(Success(f), rest)
  {
    EncodedParts(f, rest);
    FourBytesHold(|f.payload|);
  }

  // Reading succeeds on nothing but an encoding of a frame within the cap.
  lemma EncodeParse(s: Bytes)
    requires ParseFrame(s).result.Success?
    ensures var p := ParseFrame(s); WithinCap(p.result.frame) && s == Encode(p.result.frame) + p.rest
  {
    var length := BigEndian(s[5..9]);
    EncodeDecode(s[5..9]);
    assert s == s[..4] + [s[4]] + s[5..9] + s[9..9 + length] + s[9 + length..];
  }

  // ---- Streams of frames ----

  function EncodeAll(fs: seq<Frame>): Bytes
  {
    if fs == [] then [] else Encode(fs[0]) + EncodeAll(fs[1..])
  }

  // The frames read until a read fails, and how it fails.
  datatype Stream = Stream(frames: seq<Frame>, error: FrameError)

  function DecodeAll(s: Bytes): Stream
    decreases |s|
  {
    var p := ParseFrame(s);
    match p.result
    case Failure(e) => Stream([], e)
    case Success(f) =>
      var more := DecodeAll(p.rest);
      Stream([f] + more.frames, more.error)
  }

  ghost predicate AllWithinCap(fs: seq<Frame>) { forall i :: 0 <= i < |fs| ==> WithinCap(fs[i]) }

  // Whole frames are read one by one; whatever follows them decides how reading goes on.
  lemma {:induction false} DecodeThrough(fs: seq<Frame>, tail: Bytes)
    requires AllWithinCap(fs)
    ensures DecodeAll(EncodeAll(fs) + tail) == Stream(fs + DecodeAll(tail).frames, DecodeAll(tail).error)
  {
    if fs == [] {
      assert EncodeAll(fs) + tail == tail;
    } else {
      DecodeThrough(fs[1..], tail);
      DecodeOne(fs[0], EncodeAll(fs[1..]) + tail);
      Assoc(Encode(fs[0]), EncodeAll(fs[1..]), tail);
      Assoc([fs[0]], fs[1..], DecodeAll(tail).frames);
      HeadTail(fs);
    }
  }

  lemma DecodeOne(f: Frame, rest: Bytes)
    requires WithinCap(f)
    ensures DecodeAll(Encode(f) + rest) == Stream([f] + DecodeAll(rest).frames, DecodeAll(rest).error)
  {
    ParseEncode(f, rest);
  }

  // Any list of frames within the cap is read back; the stream then ends with a short read, also at the
  // boundary between two frames.
  lemma StreamRoundTrip(fs: seq<Frame>)
    requires AllWithinCap(fs)
    ensures DecodeAll(EncodeAll(fs)) == Stream(fs, ShortRead)
  {
    DecodeThrough(fs, []);
    assert EncodeAll(fs) + [] == EncodeAll(fs) && fs + [] == fs;
  }

  // A strict prefix of one encoding is a short read.
  lemma ParseTruncated(f: Frame, k: nat)
    requires WithinCap(f) && k < |Encode(f)|
    ensures ParseFrame(Encode(f)[..k]) == Parsed(Failure(ShortRead), [])
  {
    EncodedParts(f, []);
    FourBytesHold(|f.payload|);
    var e, s := Encode(f), Encode(f)[..k];
    assert e + [] == e;
    if k >= 9 {
      assert s[..4] == e[..4] && s[5..9] == e[5..9];
    }
  }

  // The number of frames that lie wholly within the first k bytes.
  function Whole(fs: seq<Frame>, k: nat): (m: nat)
    ensures m <= |fs|
  {
    if fs == [] || k < |Encode(fs[0])| then 0 else 1 + Whole(fs[1..], k - |Encode(fs[0])|)
  }

  lemma CutWithin(f: Frame, more: Bytes, k: nat)
    requires WithinCap(f) && k < |Encode(f)|
    ensures DecodeAll((Encode(f) + more)[..k]) == Stream([], ShortRead)
  {
    assert (Encode(f) + more)[..k] == Encode(f)[..k];
    ParseTruncated(f, k);
  }

  lemma CutBehind(f: Frame, more: Bytes, j: nat)
    requires WithinCap(f) && j <= |more|
    ensures DecodeAll((Encode(f) + more)[..|Encode(f)| + j]) ==
            Stream([f] + DecodeAll(more[..j]).frames, DecodeAll(more[..j]).error)
  {
    SplitLater(Encode(f), more, j);
    DecodeOne(f, more[..j]);
  }

  lemma HeadTake<T>(s: seq<T>, m: nat)
    requires m < |s|
    ensures s[..m + 1] == [s[0]] + s[1..][..m]
  {
  }

  lemma TruncatedCons(fs: seq<Frame>, j: nat, m: nat)
    requires fs != [] && WithinCap(fs[0]) && j <= |EncodeAll(fs[1..])| && m < |fs|
    requires DecodeAll(EncodeAll(fs[1..])[..j]) == Stream(fs[1..][..m], ShortRead)
    ensures DecodeAll(EncodeAll(fs)[..|Encode(fs[0])| + j]) == Stream(fs[..m + 1], ShortRead)
  {
    CutBehind(fs[0], EncodeAll(fs[1..]), j);
    HeadTake(fs, m);
  }

  // Cut anywhere, the stream yields exactly the frames that arrived whole, then a short read: never a
  // damaged frame and never another error.
  lemma {:induction false} TruncatedStream(fs: seq<Frame>, k: nat)
    requires AllWithinCap(fs) && k <= |EncodeAll(fs)|
    ensures DecodeAll(EncodeAll(fs)[..k]) == Stream(fs[..Whole(fs, k)], ShortRead)
  {
    if fs == [] {
    } else {
      var n := |Encode(fs[0])|;
      if k < n {
        CutWithin(fs[0], EncodeAll(fs[1..]), k);
      } else {
        TruncatedStream(fs[1..], k - n);
        TruncatedCons(fs, k - n, Whole(fs[1..], k - n));
      }
    }
  }

  // What Whole counts: the longest run of frames that fits.
  lemma {:induction false} WholeIsMost(fs: seq<Frame>, k: nat)
    ensures var m := Whole(fs, k);
      |EncodeAll(fs[..m])| <= k && (m < |fs| ==> k < |EncodeAll(fs[..m + 1])|)
  {
    var m := Whole(fs, k);
    if fs != [] && k >= |Encode(fs[0])| {
      WholeIsMost(fs[1..], k - |Encode(fs[0])|);
      assert fs[..m][0] == fs[0] && fs[..m][1..] == fs[1..][..m - 1];
      if m < |fs| {
        assert fs[..m + 1][0] == fs[0] && fs[..m + 1][1..] == fs[1..][..m];
      }
    } else if fs != [] {
      assert fs[..1][1..] == [] && EncodeAll([]) == [];
    }
  }

  // The stream is the given frames, followed by a tail that fails to parse with the given error.
  ghost predicate Accounts(s: Bytes, fs: seq<Frame>, e: FrameError)
  {
    var n := |EncodeAll(fs)|;
    AllWithinCap(fs) && n <= |s| && s[..n] == EncodeAll(fs) && ParseFrame(s[n..]).result == Failure(e)
  }

  lemma EncodeCons(f: Frame, fs: seq<Frame>)
    ensures EncodeAll([f] + fs) == Encode(f) + EncodeAll(fs)
  {
    assert ([f] + fs)[1..] == fs;
  }

  lemma SplitLater<T>(a: seq<T>, b: seq<T>, n: nat)
    requires n <= |b|
    ensures (a + b)[..|a| + n] == a + b[..n] && (a + b)[|a| + n..] == b[n..]
  {
  }

  lemma AccountsCons(f: Frame, rest: Bytes, fs: seq<Frame>, e: FrameError)
    requires WithinCap(f) && Accounts(rest, fs, e)
    ensures Accounts(Encode(f) + rest, [f] + fs, e)
  {
    EncodeCons(f, fs);
    SplitLater(Encode(f), rest, |EncodeAll(fs)|);
  }

  // Every byte of any stream is accounted for by what is read from it.
  lemma {:induction false} DecodedIsEncoded(s: Bytes)
    ensures Accounts(s, DecodeAll(s).frames, DecodeAll(s).error)
    decreases |s|
  {
    var p := ParseFrame(s);
    if p.result.Success? {
      EncodeParse(s);
      DecodedIsEncoded(p.rest);
      AccountsCons(p.result.frame, p.rest, DecodeAll(p.rest).frames, DecodeAll(p.rest).error);
    }
  }

  // ---- Where a short read leaves the reader ----

  // The peer closed between two frames, or before the first, or behind the last.
  ghost predicate AtBoundary(fs: seq<Frame>, k: nat) { exists m :: 0 <= m <= |fs| && k == |EncodeAll(fs[..m])| }

  // The peer closed with some bytes of a frame sent, but not all.
  ghost predicate MidFrame(fs: seq<Frame>, k: nat)
  {
    exists m :: 0 <= m < |fs| && |EncodeAll(fs[..m])| < k < |EncodeAll(fs[..m + 1])|
  }

  lemma FrontOf(fs: seq<Frame>, m: nat)
    requires 0 < m <= |fs|
    ensures EncodeAll(fs[..m]) == Encode(fs[0]) + EncodeAll(fs[1..][..m - 1])
  {
    assert fs[..m][1..] == fs[1..][..m - 1];
  }

  // A cut at the end of m frames leaves m whole frames, and between that and the next m still.
  lemma {:induction false} WholeBetween(fs: seq<Frame>, k: nat, m: nat)
    requires m <= |fs| && |EncodeAll(fs[..m])| <= k && (m < |fs| ==> k < |EncodeAll(fs[..m + 1])|)
    ensures Whole(fs, k) == m
  {
    if m > 0 {
      FrontOf(fs, m);
      if m < |fs| {
        FrontOf(fs, m + 1);
      }
      WholeBetween(fs[1..], k - |Encode(fs[0])|, m - 1);
    } else if fs != [] {
      FrontOf(fs, 1);
      assert fs[1..][..0] == [] && EncodeAll([]) == [];
    }
  }

  lemma LongerFront(fs: seq<Frame>, m: nat)
    requires m < |fs|
    ensures |EncodeAll(fs[..m])| < |EncodeAll(fs[..m + 1])|
    decreases m
  {
    FrontOf(fs, m + 1);
    if m > 0 {
      FrontOf(fs, m);
      LongerFront(fs[1..], m - 1);
    } else {
      assert fs[..0] == [];
    }
  }

  lemma BoundaryIsWhole(fs: seq<Frame>, k: nat)
    requires k <= |EncodeAll(fs)|
    ensures AtBoundary(fs, k) <==> k == |EncodeAll(fs[..Whole(fs, k)])|
    ensures MidFrame(fs, k) <==> k != |EncodeAll(fs[..Whole(fs, k)])|
  {
    var w := Whole(fs, k);
    WholeIsMost(fs, k);
    assert fs[..|fs|] == fs;
    forall m | 0 <= m <= |fs| && k == |EncodeAll(fs[..m])| ensures m == w {
      if m < |fs| {
        LongerFront(fs, m);
      }
      WholeBetween(fs, k, m);
    }
    forall m | 0 <= m < |fs| && |EncodeAll(fs[..m])| < k < |EncodeAll(fs[..m + 1])| ensures m == w {
      WholeBetween(fs, k, m);
    }
  }

  // A stream that was cut ends in a short read in either case. It was cut in the middle of a frame exactly
  // when the read that failed had met some byte of it; it was cut at a boundary exactly when that read met
  // the end of the stream at once, that is, when the frames read are all the bytes that arrived.
  lemma ShortReadMidFrameExactly(fs: seq<Frame>, k: nat)
    requires AllWithinCap(fs) && k <= |EncodeAll(fs)|
    ensures var cut := EncodeAll(fs)[..k];
      var d := DecodeAll(cut);
      && d.error == ShortRead && |EncodeAll(d.frames)| <= k
      && (MidFrame(fs, k) <==> cut[|EncodeAll(d.frames)|..] != [])
      && (AtBoundary(fs, k) <==> EncodeAll(d.frames) == cut)
  {
    TruncatedStream(fs, k);
    DecodedIsEncoded(EncodeAll(fs)[..k]);
    BoundaryIsWhole(fs, k);
  }

  // ---- End to end ----

  // Any frames, written over any pattern of partial sends and read over any pattern of partial receives
  // and interrupts, arrive as they were.
  method Transmit(fs: seq<Frame>, dst: Sink)
    requires AllWithinCap(fs) && Healthy(dst.script)
    modifies dst
    ensures dst.accepted == old(dst.accepted) + EncodeAll(fs)
  {
    if fs != [] {
      var ok, err := WriteFrame(dst, fs[0].kind, fs[0].payload);
      assert fs[0] == Frame(fs[0].kind, fs[0].payload) && WithinCap(fs[0]);
      ghost var mid := dst.accepted;
      Transmit(fs[1..], dst);
      assert dst.accepted == old(dst.accepted) + Encode(fs[0]) + EncodeAll(fs[1..]);
    } else {
      assert dst.accepted == old(dst.accepted) + EncodeAll(fs);
    }
  }

  // `met` is what the read that failed still found in the stream.
  method Receive(src: Source) returns (d: Stream, ghost met: Bytes)
    requires Healthy(src.script)
    modifies src
    ensures d == DecodeAll(old(src.pending))
    ensures |EncodeAll(d.frames)| <= |old(src.pending)| && met == old(src.pending)[|EncodeAll(d.frames)|..]
    decreases |src.pending|
  {
    met := src.pending;
    var r := ReadFrame(src);
    if r.Failure? {
      return Stream([], r.error), met;
    }
    EncodeParse(met);
    ghost var rest := src.pending;
    var more;
    more, met := Receive(src);
    EncodeCons(r.frame, more.frames);
    SplitLater(Encode(r.frame), rest, |EncodeAll(more.frames)|);
    d := Stream([r.frame] + more.frames, more.error);
  }

  method RoundTrip(fs: seq<Frame>, sends: seq<Event>, recvs: seq<Event>) returns (d: Stream)
    requires AllWithinCap(fs) && Healthy(sends) && Healthy(recvs)
    ensures d == Stream(fs, ShortRead)
  {
    var dst := new Sink(sends);
    Transmit(fs, dst);
    StreamRoundTrip(fs);
    var src := new Source(dst.accepted, recvs);
    assert dst.accepted == EncodeAll(fs);
    ghost var met;
    d, met := Receive(src);
  }

  // ---- What each failure means ----

  // Every outcome of reading a frame on the bytes: the magic is "TXC1", the length is the four bytes behind
  // the type, and the cap is two mebibytes. A bad magic is reported before an excessive length.
  lemma ParseOutcomesExactly(s: Bytes)
    ensures var p := ParseFrame(s);
      var long := |s| >= 9;
      var magic := long && s[0] == 0x54 && s[1] == 0x58 && s[2] == 0x43 && s[3] == 0x31;
      var n := if !long then 0
               else s[5] as int * 0x100_0000 + s[6] as int * 0x1_0000 + s[7] as int * 0x100 + s[8] as int;
      && (p.result == Failure(BadMagic) <==> long && !magic)
      && (p.result == Failure(Oversize) <==> magic && n > 2 * 1024 * 1024)
      && (p.result == Failure(ShortRead) <==> !long || (magic && n <= 2 * 1024 * 1024 && |s| < 9 + n))
      && (p.result.Success? <==> magic && n <= 2 * 1024 * 1024 && |s| >= 9 + n)
      && (p.result.Success? ==> p.result.frame == Frame(s[4], s[9..9 + n]) && p.rest == s[9 + n..])
      && (p.result in {Failure(BadMagic), Failure(Oversize)} ==> p.rest == s[9..])
  {
    if |s| >= 9 {
      BigEndian4(s[5..9]);
      assert s[..4] == [s[0], s[1], s[2], s[3]];
    }
  }
}
