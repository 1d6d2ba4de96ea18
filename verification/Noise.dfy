/** Message framing over a Noise transport (`noise.rs`): a four-byte length and the message, cut into
    chunks, each chunk sealed into one length-prefixed frame. */
module Noise {
  import opened Wrappers

  type Bytes = seq<Byte>

  const MAX_CHUNK: nat := 65519       // NOISE_MAX_FRAME: plaintext bytes of one frame
  const MAX_FRAME: nat := 65535       // section 3 of the Noise Protocol Framework
  const MAX_MSG: nat := 0x10_0000     // NOISE_MAX_MSG
  const TAG: nat := 16

  // ---- Big-endian integers ----

  function Pow256(k: nat): (r: nat)
    ensures r > 0
  {
    if k == 0 then 1 else 256 * Pow256(k - 1)
  }

  function BigEndian(n: nat, k: nat): (s: Bytes)
    ensures |s| == k
    decreases k
  {
    if k == 0 then [] else BigEndian(n / 256, k - 1) + [n % 256]
  }

  function Number(s: Bytes): nat {
    if s == [] then 0 else Number(s[..|s| - 1]) * 256 + s[|s| - 1]
  }

  lemma {:induction false} NumberOfBigEndian(n: nat, k: nat)
    requires n < Pow256(k)
    ensures Number(BigEndian(n, k)) == n
    decreases k
  {
    if k > 0 {
      NumberOfBigEndian(n / 256, k - 1);
      var s := BigEndian(n, k);
      assert s[..|s| - 1] == BigEndian(n / 256, k - 1);
    }
  }

  // ---- The transport cipher ----

  /** `write_message` and `read_message` with the nonce that the transport counts. */
  datatype Cipher = Cipher(seal: (nat, Bytes) -> Bytes, open: (nat, Bytes) -> Option<Bytes>)

  /** A peer that opens in order what was sealed gets it back; a frame is its plaintext and a tag. */
  ghost predicate Sound(c: Cipher) {
    && (forall n: nat, p: Bytes :: |c.seal(n, p)| == |p| + TAG && c.open(n, c.seal(n, p)) == Some(p))
    && OpensShorter(c)
  }

  /** A cipher that only appends a tag is one. */
  lemma SoundIsPossible() returns (c: Cipher)
    ensures Sound(c)
  {
    var tag: Bytes := seq(TAG, _ => 0);
    c := Cipher((n, p) => p + tag, (n, f) => if |f| < TAG then None else Some(f[..|f| - TAG]));
  }

  ghost predicate OpensShorter(c: Cipher) {
    forall n: nat, f: Bytes :: c.open(n, f).Some? ==> |c.open(n, f).value| + TAG == |f|
  }

  // ---- Sending ----

  function Header(size: nat): (h: Bytes)
    ensures |h| == 4
  {
    BigEndian(size % 0x1_0000_0000, 4)    // `len() as u32`
  }

  function ChunkLen(raw: Bytes): (k: nat)
    requires raw != []
    ensures 1 <= k <= |raw| && k <= MAX_CHUNK && (k == |raw| || k == MAX_CHUNK)
  {
    if |raw| <= MAX_CHUNK then |raw| else MAX_CHUNK
  }

  /** The sealed frames of `raw`, chunk by chunk. */
  function Sealed(c: Cipher, nonce: nat, raw: Bytes): seq<Bytes>
    decreases |raw|
  {
    if raw == [] then []
    else [c.seal(nonce, raw[..ChunkLen(raw)])] + Sealed(c, nonce + 1, raw[ChunkLen(raw)..])
  }

  function Framed(frame: Bytes): Bytes {
    BigEndian(|frame| % 0x1_0000, 2) + frame    // `len() as u16`
  }

  function OnWire(frames: seq<Bytes>): Bytes {
    if frames == [] then [] else Framed(frames[0]) + OnWire(frames[1..])
  }

  /** Everything that sending `m` puts on the stream. */
  function Wire(c: Cipher, nonce: nat, m: Bytes): Bytes {
    OnWire(Sealed(c, nonce, Header(|m|) + m))
  }

  function FrameCount(size: nat): nat {
    (size + MAX_CHUNK - 1) / MAX_CHUNK
  }

  /** No frame exceeds what the Noise framework allows, none is empty, and there are no more than needed. */
  lemma {:induction false} FramesFit(c: Cipher, nonce: nat, raw: Bytes)
    requires Sound(c)
    ensures forall f | f in Sealed(c, nonce, raw) :: 16 < |f| <= 65535
    ensures |Sealed(c, nonce, raw)| == FrameCount(|raw|)
    // every frame but the last is full
    ensures forall i | 0 <= i < |Sealed(c, nonce, raw)| - 1 :: |Sealed(c, nonce, raw)[i]| == 65535
    decreases |raw|
  {
    if raw != [] {
      FramesFit(c, nonce + 1, raw[ChunkLen(raw)..]);
      assert |c.seal(nonce, raw[..ChunkLen(raw)])| == ChunkLen(raw) + TAG;
    }
  }

  // ---- Receiving ----

  datatype Error = Ended | EmptyFrame | Undecryptable | EmptyPlaintext | TooLarge

  /** The result of one receive, what it leaves of the stream, the next nonce, the number of frames
      it read and the most bytes its buffer held. */
  datatype Outcome = Outcome(msg: Result<Bytes, Error>, rest: Bytes, nonce: nat, frames: nat, peak: nat)

  /** `read_frame`. */
  function ReadFrame(s: Bytes): (r: Result<Bytes, Error>)
    ensures r.Ok? ==> 0 < |r.value| <= MAX_FRAME && 2 + |r.value| <= |s|
    ensures r == Err(EmptyFrame) <==> |s| >= 2 && s[0] == s[1] == 0
    ensures r == Err(Ended) <==> |s| < 2 || |s| < 2 + s[0] as int * 256 + s[1] as int
    ensures r.Ok? || r == Err(EmptyFrame) || r == Err(Ended)
  {
    if |s| < 2 then Err(Ended)
    else
      var n: nat := (s[0] as int) * 256 + (s[1] as int);
      if n == 0 then Err(EmptyFrame)
      else if |s| < 2 + n then Err(Ended)
      else Ok(s[2..2 + n])
  }

  function AfterFrame(s: Bytes): Bytes {
    match ReadFrame(s)
    case Ok(f) => s[2 + |f|..]
    case Err(EmptyFrame) => if |s| >= 2 then s[2..] else []
    case Err(_) => []
  }

  function Max(a: nat, b: nat): nat { if a < b then b else a }

  /** The accumulator `out` and the announced length, seen as a recursion over the stream. */
  function Receive(c: Cipher, nonce: nat, out: Bytes, total: Option<nat>, s: Bytes): Outcome
    decreases |s|, 0
  {
    match ReadFrame(s)
    case Err(e) => Outcome(Err(e), AfterFrame(s), nonce, 1, |out|)
    case Ok(frame) =>
      var rest := s[2 + |frame|..];
      match c.open(nonce, frame)
      case None => Outcome(Err(Undecryptable), rest, nonce, 1, |out|)
      case Some(plain) =>
        if plain == [] then Outcome(Err(EmptyPlaintext), rest, nonce + 1, 1, |out|)
        else Absorb(c, nonce + 1, out + plain, total, rest)
  }

  function Counted(o: Outcome, held: nat): Outcome {
    o.(frames := o.frames + 1, peak := Max(held, o.peak))
  }

  /** What happens to the accumulator once a frame has been added to it. */
  function Absorb(c: Cipher, nonce: nat, out: Bytes, total: Option<nat>, s: Bytes): Outcome
    decreases |s|, 1
  {
    if total.None? && |out| < 4 then Counted(Receive(c, nonce, out, None, s), |out|)
    else if total.None? && Number(out[..4]) > MAX_MSG then Outcome(Err(TooLarge), s, nonce, 1, |out|)
    else
      var size := if total.None? then Number(out[..4]) else total.value;
      var body := if total.None? then out[4..] else out;
      if |body| >= size then Outcome(Ok(body[..size]), s, nonce, 1, |out|)
      else Counted(Receive(c, nonce, body, Some(size), s), |out|)
  }

  /** A state between two frames: more bytes are needed. */
  predicate Waiting(out: Bytes, total: Option<nat>) {
    match total
    case None => |out| < 4
    case Some(size) => |out| < size <= MAX_MSG
  }

  function Gathered(out: Bytes, total: Option<nat>): nat {
    |out| + if total.Some? then 4 else 0
  }

  /** Whatever the peer sends: few frames, a small buffer, a message within the limit. */
  lemma {:induction false} ReceiveBounded(c: Cipher, nonce: nat, out: Bytes, total: Option<nat>, s: Bytes)
    requires OpensShorter(c) && Waiting(out, total)
    ensures
      var o := Receive(c, nonce, out, total, s);
      && o.frames + Gathered(out, total) <= 4 + 0x10_0000
      && o.peak < 0x10_0000 + 65519
      && (o.msg.Ok? ==> |o.msg.value| <= 0x10_0000)
    decreases |s|
  {
    var f := ReadFrame(s);
    if f.Ok? && c.open(nonce, f.value).Some? && c.open(nonce, f.value).value != [] {
      var plain := c.open(nonce, f.value).value;
      var all, rest := out + plain, s[2 + |f.value|..];
      assert |plain| + TAG == |f.value|;
      if total.None? && |all| < 4 {
        ReceiveBounded(c, nonce + 1, all, None, rest);
      } else if total.Some? || Number(all[..4]) <= MAX_MSG {
        var size := if total.None? then Number(all[..4]) else total.value;
        var body := if total.None? then all[4..] else all;
        if |body| < size {
          ReceiveBounded(c, nonce + 1, body, Some(size), rest);
        }
      }
    }
  }

  // ---- What a receive takes from the stream ----

  function Joined(ps: seq<Bytes>): Bytes {
    if ps == [] then [] else ps[0] + Joined(ps[1..])
  }

  /** The accumulator and the announced length after the plaintext `raw`. */
  function OutOf(raw: Bytes): Bytes { if |raw| < 4 then raw else raw[4..] }
  function TotalOf(raw: Bytes): Option<nat> { if |raw| < 4 then None else Some(Number(raw[..4])) }

  /** More bytes are needed. */
  predicate Unfinished(raw: Bytes) {
    |raw| < 4 || |raw| < 4 + Number(raw[..4]) <= 4 + MAX_MSG
  }

  /** The frames open one after the other to the plaintexts, none of which is empty; the message was not
      complete before the last of them. */
  ghost predicate Opened(c: Cipher, nonce: nat, raw: Bytes, frames: seq<Bytes>, plains: seq<Bytes>) {
    && |plains| <= |frames|
    && (forall i | 0 <= i < |plains| :: plains[i] != [] && c.open(nonce + i, frames[i]) == Some(plains[i]))
    && (forall i | 0 <= i < |plains| :: Unfinished(raw + Joined(plains[..i])))
  }

  /** How the receive ends behind those frames: with the announced bytes, or because the length is too
      large, or at the first frame that is missing, empty, does not open or opens to nothing. */
  ghost predicate EndsSo(c: Cipher, nonce: nat, raw: Bytes, o: Outcome, frames: seq<Bytes>, plains: seq<Bytes>, tail: Bytes) {
    var all, k := raw + Joined(plains), |plains|;
    match o.msg
    case Ok(m) =>
      && |frames| == k == o.frames && o.rest == tail && o.nonce == nonce + k
      && 4 + |m| <= |all| && Number(all[..4]) == |m| <= MAX_MSG && m == all[4..4 + |m|]
    case Err(TooLarge) =>
      |frames| == k == o.frames && o.rest == tail && o.nonce == nonce + k && 4 <= |all| && Number(all[..4]) > MAX_MSG
    case Err(Undecryptable) =>
      |frames| == k + 1 == o.frames && o.rest == tail && o.nonce == nonce + k && c.open(nonce + k, frames[k]) == None
    case Err(EmptyPlaintext) =>
      |frames| == k + 1 == o.frames && o.rest == tail && o.nonce == nonce + k + 1 && c.open(nonce + k, frames[k]) == Some([])
    case Err(e) =>
      |frames| == k && o.frames == k + 1 && o.rest == AfterFrame(tail) && o.nonce == nonce + k && ReadFrame(tail) == Err(e)
  }

  /** The buffer never holds more than `peak` bytes: what is left of the plaintext so far, and the next one. */
  ghost predicate Held(raw: Bytes, plains: seq<Bytes>, peak: nat) {
    forall i | 0 <= i < |plains| :: |OutOf(raw + Joined(plains[..i]))| + |plains[i]| <= peak
  }

  lemma HeldMore(raw: Bytes, plain: Bytes, ps: seq<Bytes>, peak: nat, held: nat)
    requires Held(raw + plain, ps, peak) && held == |OutOf(raw)| + |plain|
    ensures Held(raw, [plain] + ps, Max(held, peak))
  {
    var qs := [plain] + ps;
    forall i | 0 <= i < |qs| ensures |OutOf(raw + Joined(qs[..i]))| + |qs[i]| <= Max(held, peak) {
      if i == 0 {
        assert raw + Joined(qs[..0]) == raw;
      } else {
        assert qs[i] == ps[i - 1] && qs[..i] == [plain] + ps[..i - 1];
        JoinedMore(raw, plain, ps[..i - 1]);
        assert |OutOf(raw + plain + Joined(ps[..i - 1]))| + |ps[i - 1]| <= peak;
      }
    }
  }

  /** Whatever is on the stream: a receive takes whole frames from its front, opens them in order and ends as
      stated. `raw` is the plaintext it has already, nothing at first. */
  lemma {:induction false} ReceiveTakes(c: Cipher, nonce: nat, raw: Bytes, s: Bytes) returns (frames: seq<Bytes>, plains: seq<Bytes>, tail: Bytes)
    requires Unfinished(raw)
    ensures s == OnWire(frames) + tail
    ensures Opened(c, nonce, raw, frames, plains)
    ensures EndsSo(c, nonce, raw, Receive(c, nonce, OutOf(raw), TotalOf(raw), s), frames, plains, tail)
    ensures Held(raw, plains, Receive(c, nonce, OutOf(raw), TotalOf(raw), s).peak)
    decreases |s|
  {
    frames, plains, tail := [], [], s;
    var f := ReadFrame(s);
    if f.Err? {
      assert raw + Joined([]) == raw;
      assert OnWire([]) + s == s;
      return;
    }
    var rest := s[2 + |f.value|..];
    OneFrame(s, f.value, rest);
    var plain := c.open(nonce, f.value);
    if plain.None? || plain.value == [] {
      assert raw + Joined([]) == raw;
      return [f.value], [], rest;
    }
    var more := raw + plain.value;
    AbsorbsMore(c, nonce + 1, raw, plain.value, rest);
    if Unfinished(more) {
      var fs, ps, end := ReceiveTakes(c, nonce + 1, more, rest);
      OneFrameMore(c, nonce, raw, f.value, plain.value, fs, ps, end, rest);
      HeldMore(raw, plain.value, ps, Receive(c, nonce + 1, OutOf(more), TotalOf(more), rest).peak, |OutOf(raw) + plain.value|);
      EndsMore(c, nonce, raw, Receive(c, nonce + 1, OutOf(more), TotalOf(more), rest), |OutOf(raw) + plain.value|, f.value, plain.value, fs, ps, end);
      return [f.value] + fs, [plain.value] + ps, end;
    }
    LastFrame(c, nonce, raw, f.value, plain.value, rest);
    return [f.value], [plain.value], rest;
  }

  /** The frame that completes the message, or shows that it is too large. */
  lemma LastFrame(c: Cipher, nonce: nat, raw: Bytes, f: Bytes, plain: Bytes, rest: Bytes)
    requires Unfinished(raw) && !Unfinished(raw + plain) && plain != [] && c.open(nonce, f) == Some(plain)
    ensures Opened(c, nonce, raw, [f], [plain])
    ensures Held(raw, [plain], Absorb(c, nonce + 1, OutOf(raw) + plain, TotalOf(raw), rest).peak)
    ensures
      EndsSo(c, nonce, raw, Absorb(c, nonce + 1, OutOf(raw) + plain, TotalOf(raw), rest), [f], [plain], rest)
  {
    AbsorbsMore(c, nonce + 1, raw, plain, rest);
    assert [plain][1..] == [] && Joined([plain]) == plain + Joined([]) == plain;
    assert [plain][..0] == [] && raw + Joined([]) == raw;
  }

  lemma OneFrame(s: Bytes, f: Bytes, rest: Bytes)
    requires ReadFrame(s) == Ok(f) && rest == s[2 + |f|..]
    ensures s == OnWire([f]) + rest && s == Framed(f) + rest
  {
    LengthBytes(s, f);
    assert s == s[..2] + (s[2..2 + |f|] + rest);
    Regroup(s[..2], f, rest);
    assert [f][1..] == [] && Framed(f) + [] == Framed(f);
  }

  lemma LengthBytes(s: Bytes, f: Bytes)
    requires ReadFrame(s) == Ok(f)
    ensures s[..2] == BigEndian(|f| % 0x1_0000, 2) && s[2..2 + |f|] == f
  {
    TwoBytesOf(s[0], s[1]);
    assert |f| == s[0] as int * 256 + s[1] as int;
    assert s[..2] == [s[0], s[1]];
  }

  lemma TwoBytesOf(a: Byte, b: Byte)
    ensures BigEndian((a as int * 256 + b as int) % 0x1_0000, 2) == [a, b]
  {
    SplitsInTwo(a as int, b as int);
    TwoBytes(a as int * 256 + b as int);
  }

  lemma SplitsInTwo(a: int, b: int)
    requires 0 <= a < 256 && 0 <= b < 256
    ensures (a * 256 + b) / 256 == a && (a * 256 + b) % 256 == b
  {
  }

  lemma AbsorbsMore(c: Cipher, nonce: nat, raw: Bytes, plain: Bytes, s: Bytes)
    requires Unfinished(raw)
    ensures
      var all := raw + plain;
      Absorb(c, nonce, OutOf(raw) + plain, TotalOf(raw), s) ==
        if Unfinished(all) then Counted(Receive(c, nonce, OutOf(all), TotalOf(all), s), |OutOf(raw) + plain|)
        else if Number(all[..4]) > MAX_MSG then Outcome(Err(TooLarge), s, nonce, 1, |OutOf(raw) + plain|)
        else Outcome(Ok(all[4..4 + Number(all[..4])]), s, nonce, 1, |OutOf(raw) + plain|)
  {
    var all := raw + plain;
    if |raw| >= 4 {
      assert all[..4] == raw[..4] && all[4..] == raw[4..] + plain;
    }
    if |all| >= 4 {
      var size := Number(all[..4]);
      if 4 + size <= |all| { assert all[4..][..size] == all[4..4 + size]; }
    }
  }

  lemma EndsMore(
    c: Cipher, nonce: nat, raw: Bytes, o: Outcome, held: nat, f: Bytes, plain: Bytes, fs: seq<Bytes>, ps: seq<Bytes>, end: Bytes)
    requires EndsSo(c, nonce + 1, raw + plain, o, fs, ps, end)
    requires raw + Joined([plain] + ps) == raw + plain + Joined(ps)
    ensures EndsSo(c, nonce, raw, Counted(o, held), [f] + fs, [plain] + ps, end)
  {
    assert nonce + (1 + |ps|) == nonce + 1 + |ps|;
    if |fs| > |ps| { assert ([f] + fs)[1 + |ps|] == fs[|ps|]; }
  }

  lemma OneFrameMore(
    c: Cipher, nonce: nat, raw: Bytes, f: Bytes, plain: Bytes, fs: seq<Bytes>, ps: seq<Bytes>, end: Bytes, rest: Bytes)
    requires Unfinished(raw) && plain != [] && c.open(nonce, f) == Some(plain) && Opened(c, nonce + 1, raw + plain, fs, ps)
    requires rest == OnWire(fs) + end
    ensures Opened(c, nonce, raw, [f] + fs, [plain] + ps)
    ensures OnWire([f] + fs) + end == Framed(f) + rest
    ensures raw + Joined([plain] + ps) == raw + plain + Joined(ps)
  {
    OnWireCons(f, fs, end);
    JoinedMore(raw, plain, ps);
    OpenedMore(c, nonce, raw, f, plain, fs, ps);
  }

  lemma JoinedMore(raw: Bytes, plain: Bytes, ps: seq<Bytes>)
    ensures raw + Joined([plain] + ps) == raw + plain + Joined(ps)
  {
    assert ([plain] + ps)[1..] == ps;
    Regroup(raw, plain, Joined(ps));
  }

  lemma OpenedMore(c: Cipher, nonce: nat, raw: Bytes, f: Bytes, plain: Bytes, fs: seq<Bytes>, ps: seq<Bytes>)
    requires Unfinished(raw) && plain != [] && c.open(nonce, f) == Some(plain) && Opened(c, nonce + 1, raw + plain, fs, ps)
    ensures Opened(c, nonce, raw, [f] + fs, [plain] + ps)
  {
    var qs, gs := [plain] + ps, [f] + fs;
    forall i | 0 <= i < |qs| ensures qs[i] != [] && c.open(nonce + i, gs[i]) == Some(qs[i]) && Unfinished(raw + Joined(qs[..i])) {
      if i == 0 {
        assert raw + Joined(qs[..0]) == raw;
      } else {
        assert qs[i] == ps[i - 1] && gs[i] == fs[i - 1] && nonce + i == nonce + 1 + (i - 1);
        assert qs[..i] == [plain] + ps[..i - 1];
        JoinedMore(raw, plain, ps[..i - 1]);
      }
    }
  }

  lemma TwoBytes(n: nat)
    requires n <= MAX_FRAME
    ensures BigEndian(n, 2) == [n / 256, n % 256]
  {
    assert BigEndian(n / 256, 1) == BigEndian(n / 256 / 256, 0) + [n / 256];
  }

  lemma LengthThenFrame(h: Bytes, frame: Bytes, rest: Bytes)
    requires |h| == 2 && h[0] as int * 256 + h[1] as int == |frame| && 0 < |frame| <= MAX_FRAME
    ensures ReadFrame(h + (frame + rest)) == Ok(frame) && (h + (frame + rest))[2 + |frame|..] == rest
  {
    var s := h + (frame + rest);
    assert s[0] == h[0] && s[1] == h[1] && s[2..2 + |frame|] == frame;
  }

  lemma FramedReads(frame: Bytes, rest: Bytes)
    requires 0 < |frame| <= MAX_FRAME
    ensures ReadFrame(Framed(frame) + rest) == Ok(frame)
    ensures (Framed(frame) + rest)[2 + |frame|..] == rest
  {
    TwoBytes(|frame|);
    var h := BigEndian(|frame| % 0x1_0000, 2);
    Regroup(h, frame, rest);
    LengthThenFrame(h, frame, rest);
  }

  /** What is still to come: `raw` completes the header and the message that `out` began. */
  ghost predicate Completes(out: Bytes, total: Option<nat>, raw: Bytes, m: Bytes) {
    match total
    case None => out + raw == Header(|m|) + m
    case Some(size) => size == |m| && out + raw == m
  }

  lemma HeaderReads(m: Bytes)
    requires |m| <= MAX_MSG
    ensures Number(Header(|m|)) == |m|
  {
    assert |m| % 0x1_0000_0000 == |m|;
    assert Pow256(1) == 256 && Pow256(2) == 0x1_0000 && Pow256(3) == 0x100_0000;
    NumberOfBigEndian(|m|, 4);
  }

  lemma {:induction false} OnWireCons(f: Bytes, tail: seq<Bytes>, rest: Bytes)
    ensures OnWire([f] + tail) + rest == Framed(f) + (OnWire(tail) + rest)
  {
    assert ([f] + tail)[1..] == tail;
    Regroup(Framed(f), OnWire(tail), rest);
  }

  lemma OnWireHead(c: Cipher, nonce: nat, raw: Bytes, rest: Bytes, f: Bytes, tail: seq<Bytes>)
    requires Sound(c) && raw != []
    requires f == c.seal(nonce, raw[..ChunkLen(raw)]) && tail == Sealed(c, nonce + 1, raw[ChunkLen(raw)..])
    ensures
      var s := OnWire(Sealed(c, nonce, raw)) + rest;
      ReadFrame(s) == Ok(f) && s[2 + |f|..] == OnWire(tail) + rest
  {
    assert Sealed(c, nonce, raw) == [f] + tail;
    OnWireCons(f, tail, rest);
    FramedReads(f, OnWire(tail) + rest);
  }

  lemma ReceiveStep(c: Cipher, nonce: nat, out: Bytes, total: Option<nat>, s: Bytes, f: Bytes, plain: Bytes)
    requires ReadFrame(s) == Ok(f) && c.open(nonce, f) == Some(plain) && plain != []
    ensures Receive(c, nonce, out, total, s) == Absorb(c, nonce + 1, out + plain, total, s[2 + |f|..])
  {
  }

  /** Receiving the frames of what is still to come completes the message. */
  lemma {:induction false} Gather(c: Cipher, nonce: nat, out: Bytes, total: Option<nat>, raw: Bytes, m: Bytes, rest: Bytes)
    requires Sound(c) && |m| <= MAX_MSG && Waiting(out, total) && Completes(out, total, raw, m)
    ensures Delivers(Receive(c, nonce, out, total, OnWire(Sealed(c, nonce, raw)) + rest), m, rest, nonce + |Sealed(c, nonce, raw)|)
    decreases |raw|, 0
  {
    var chunk, left := raw[..ChunkLen(raw)], raw[ChunkLen(raw)..];
    var f, tail := c.seal(nonce, chunk), Sealed(c, nonce + 1, left);
    OnWireHead(c, nonce, raw, rest, f, tail);
    ReceiveStep(c, nonce, out, total, OnWire(Sealed(c, nonce, raw)) + rest, f, chunk);
    assert raw == chunk + left;
    Regroup(out, chunk, left);
    GatherAbsorb(c, nonce + 1, out + chunk, total, left, m, rest);
  }

  predicate Delivers(o: Outcome, m: Bytes, rest: Bytes, nonce: nat) {
    o.msg == Ok(m) && o.rest == rest && o.nonce == nonce
  }

  lemma GatherAbsorb(c: Cipher, nonce: nat, all: Bytes, total: Option<nat>, left: Bytes, m: Bytes, rest: Bytes)
    requires Sound(c) && |m| <= MAX_MSG && (total.Some? ==> total.value <= MAX_MSG) && Completes(all, total, left, m)
    ensures Delivers(Absorb(c, nonce, all, total, OnWire(Sealed(c, nonce, left)) + rest), m, rest, nonce + |Sealed(c, nonce, left)|)
    decreases |left|, 1
  {
    if total.None? && |all| < 4 {
      Gather(c, nonce, all, None, left, m, rest);
    } else {
      var body := if total.None? then all[4..] else all;
      if total.None? {
        HeaderReads(m);
        SplitsOff(all, left, Header(|m|), m);
      }
      if |body| >= |m| {
        assert left == [] && body == m;
        assert OnWire(Sealed(c, nonce, left)) + rest == rest;
      } else {
        Gather(c, nonce, body, Some(|m|), left, m, rest);
      }
    }
  }

  lemma SplitsOff(all: Bytes, left: Bytes, h: Bytes, m: Bytes)
    requires all + left == h + m && |h| == 4 <= |all|
    ensures all[..4] == h && all[4..] + left == m
  {
    assert (all + left)[..4] == all[..4] && (all + left)[4..] == all[4..] + left;
  }

  lemma RoundTrip(c: Cipher, nonce: nat, m: Bytes, rest: Bytes, s: Bytes)
    requires Sound(c) && |m| <= MAX_MSG && s == Wire(c, nonce, m) + rest
    ensures Delivers(Receive(c, nonce, [], None, s), m, rest, nonce + FrameCount(4 + |m|))
  {
    Gather(c, nonce, [], None, Header(|m|) + m, m, rest);
    FramesFit(c, nonce, Header(|m|) + m);
  }

  /** A receive right behind one send returns the message and eats exactly its bytes, if and only if
      the message is within the limit. */
  lemma RoundTripIff(c: Cipher, nonce: nat, m: Bytes, rest: Bytes)
    requires Sound(c)
    ensures
      Delivers(Receive(c, nonce, [], None, Wire(c, nonce, m) + rest), m, rest, nonce + FrameCount(4 + |m|)) <==> |m| <= 0x10_0000
  {
    if |m| <= MAX_MSG {
      RoundTrip(c, nonce, m, rest, Wire(c, nonce, m) + rest);
    } else {
      ReceiveBounded(c, nonce, [], None, Wire(c, nonce, m) + rest);
    }
  }

  /** The bytes of several messages sent one after the other. */
  function WireAll(c: Cipher, nonce: nat, ms: seq<Bytes>): Bytes
    decreases |ms|
  {
    if ms == [] then []
    else Wire(c, nonce, ms[0]) + WireAll(c, nonce + FrameCount(4 + |ms[0]|), ms[1..])
  }

  datatype Drained = Drained(ms: seq<Bytes>, failed: bool, rest: Bytes, nonce: nat)

  /** `count` receives in a row, stopping at a failure. */
  function ReceiveAll(c: Cipher, nonce: nat, count: nat, s: Bytes): Drained
    decreases count
  {
    if count == 0 then Drained([], false, s, nonce)
    else
      var o := Receive(c, nonce, [], None, s);
      if o.msg.Err? then Drained([], true, o.rest, o.nonce)
      else
        var d := ReceiveAll(c, o.nonce, count - 1, o.rest);
        d.(ms := [o.msg.value] + d.ms)
  }

  predicate Got(d: Drained, ms: seq<Bytes>) {
    d.ms == ms && !d.failed && d.rest == []
  }

  lemma GotFirst(c: Cipher, nonce: nat, s: Bytes, ms: seq<Bytes>, rest: Bytes, next: nat)
    requires ms != [] && Delivers(Receive(c, nonce, [], None, s), ms[0], rest, next)
    requires Got(ReceiveAll(c, next, |ms| - 1, rest), ms[1..])
    ensures Got(ReceiveAll(c, nonce, |ms|, s), ms)
  {
    assert ms == [ms[0]] + ms[1..];
  }

  lemma FirstDelivered(c: Cipher, nonce: nat, ms: seq<Bytes>, rest: Bytes, next: nat)
    requires Sound(c) && ms != [] && |ms[0]| <= MAX_MSG
    requires next == nonce + FrameCount(4 + |ms[0]|) && rest == WireAll(c, next, ms[1..])
    ensures Delivers(Receive(c, nonce, [], None, WireAll(c, nonce, ms)), ms[0], rest, next)
  {
    WireAllHead(c, nonce, ms);
    RoundTrip(c, nonce, ms[0], rest, WireAll(c, nonce, ms));
  }

  lemma WireAllHead(c: Cipher, nonce: nat, ms: seq<Bytes>)
    requires ms != []
    ensures WireAll(c, nonce, ms) == Wire(c, nonce, ms[0]) + WireAll(c, nonce + FrameCount(4 + |ms[0]|), ms[1..])
  {
  }

  lemma {:induction false} RoundTripAll(c: Cipher, nonce: nat, ms: seq<Bytes>)
    requires Sound(c) && forall m | m in ms :: |m| <= MAX_MSG
    ensures Got(ReceiveAll(c, nonce, |ms|, WireAll(c, nonce, ms)), ms)
    decreases |ms|
  {
    if ms != [] {
      var next := nonce + FrameCount(4 + |ms[0]|);
      var rest := WireAll(c, next, ms[1..]);
      RoundTripAll(c, next, ms[1..]);
      FirstDelivered(c, nonce, ms, rest, next);
      GotFirst(c, nonce, WireAll(c, nonce, ms), ms, rest, next);
    }
  }

  lemma {:induction false} ReceivedAreSmall(c: Cipher, nonce: nat, count: nat, s: Bytes)
    requires OpensShorter(c)
    ensures forall m | m in ReceiveAll(c, nonce, count, s).ms :: |m| <= MAX_MSG
    decreases count
  {
    if count > 0 {
      ReceiveBounded(c, nonce, [], None, s);
      var o := Receive(c, nonce, [], None, s);
      ReceivedAreSmall(c, o.nonce, count - 1, o.rest);
    }
  }

  /** A sequence of messages comes back unchanged, with nothing left on the stream, exactly when each
      is within the limit. */
  lemma AllMessagesRoundTripIff(c: Cipher, nonce: nat, ms: seq<Bytes>)
    requires Sound(c)
    ensures Got(ReceiveAll(c, nonce, |ms|, WireAll(c, nonce, ms)), ms) <==> forall m | m in ms :: |m| <= 0x10_0000
  {
    ReceivedAreSmall(c, nonce, |ms|, WireAll(c, nonce, ms));
    if forall m | m in ms :: |m| <= MAX_MSG {
      RoundTripAll(c, nonce, ms);
    }
  }

  // ---- The connection ----

  lemma {:induction false} OnWireSnoc(frames: seq<Bytes>, f: Bytes)
    ensures OnWire(frames + [f]) == OnWire(frames) + Framed(f)
  {
    if frames == [] {
      assert frames + [f] == [f];
      assert OnWire([f]) == Framed(f) + OnWire([f][1..]);
    } else {
      assert (frames + [f])[1..] == frames[1..] + [f];
      OnWireSnoc(frames[1..], f);
    }
  }

  lemma NextFrame(c: Cipher, nonce: nat, raw: Bytes, done: seq<Bytes>, f: Bytes)
    requires raw != [] && f == c.seal(nonce, raw[..ChunkLen(raw)])
    ensures done + Sealed(c, nonce, raw) == (done + [f]) + Sealed(c, nonce + 1, raw[ChunkLen(raw)..])
    ensures OnWire(done + [f]) == OnWire(done) + Framed(f)
  {
    OnWireSnoc(done, f);
    Regroup(done, [f], Sealed(c, nonce + 1, raw[ChunkLen(raw)..]));
  }

  lemma StopsShort(before: Bytes, done: seq<Bytes>, left: seq<Bytes>)
    requires left != []
    ensures CutShort(before, before + OnWire(done), done + left)
  {
    assert (done + left)[..|done|] == done;
  }

  /** Only whole leading frames were written, and not all of them. */
  ghost predicate CutShort(before: Bytes, after: Bytes, frames: seq<Bytes>) {
    exists k: nat :: k < |frames| && after == before + OnWire(frames[..k])
  }

  class NoiseConn {
    const cipher: Cipher
    var incoming: Bytes
    var outgoing: Bytes
    var recvNonce: nat
    var sendNonce: nat

    constructor (cipher: Cipher, incoming: Bytes)
      ensures this.cipher == cipher && this.incoming == incoming && outgoing == [] && recvNonce == 0 && sendNonce == 0
    {
      this.cipher, this.incoming, outgoing, recvNonce, sendNonce := cipher, incoming, [], 0, 0;
    }

    method ReadFrameFrom() returns (r: Result<Bytes, Error>)
      modifies this`incoming
      ensures r == ReadFrame(old(incoming)) && incoming == AfterFrame(old(incoming))
    {
      r := ReadFrame(incoming);
      incoming := AfterFrame(incoming);
    }

    /** `recv`. */
    method Recv() returns (r: Result<Bytes, Error>)
      modifies this`incoming, this`recvNonce
      ensures
        var o := Receive(cipher, old(recvNonce), [], None, old(incoming));
        r == o.msg && incoming == o.rest && recvNonce == o.nonce
    {
      var out: Bytes, total: Option<nat> := [], None;
      ghost var o := Receive(cipher, recvNonce, [], None, incoming);
      while true
        invariant SameEnd(Receive(cipher, recvNonce, out, total, incoming), o)
        invariant total.None? ==> |out| < 4
        decreases |incoming|
      {
        var frame := ReadFrameFrom();
        if frame.Err? { return Err(frame.error); }
        var plain := cipher.open(recvNonce, frame.value);
        if plain.None? { return Err(Undecryptable); }
        recvNonce := recvNonce + 1;
        if plain.value == [] { return Err(EmptyPlaintext); }
        out := out + plain.value;
        assert SameEnd(Absorb(cipher, recvNonce, out, total, incoming), o);
        if total.None? {
          if |out| < 4 { continue; }
          var len := Number(out[..4]);
          if len > MAX_MSG { return Err(TooLarge); }
          out := out[4..];
          total := Some(len);
        }
        if |out| >= total.value { break; }
      }
      r := Ok(out[..total.value]);
    }

    /** `send`. The stream takes `room` frames; the sealing never fails. */
    method Send(m: Bytes, room: nat) returns (ok: bool)
      modifies this`outgoing, this`sendNonce
      ensures ok <==> |Sealed(cipher, old(sendNonce), Header(|m|) + m)| <= room
      ensures !ok ==> outgoing == old(outgoing) + OnWire(Sealed(cipher, old(sendNonce), Header(|m|) + m)[..room])
      ensures ok ==> outgoing == old(outgoing) + Wire(cipher, old(sendNonce), m)
      ensures ok ==> sendNonce == old(sendNonce) + |Sealed(cipher, old(sendNonce), Header(|m|) + m)|
      ensures !ok ==> CutShort(old(outgoing), outgoing, Sealed(cipher, old(sendNonce), Header(|m|) + m))
    {
      var raw := Header(|m|) + m;
      ghost var before, start, all := outgoing, sendNonce, Sealed(cipher, sendNonce, raw);
      ghost var done: seq<Bytes> := [];
      var left: nat := room;
      while raw != []
        invariant SentSoFar(cipher, before, start, all, done, outgoing, sendNonce, raw) && left + |done| == room
        decreases |raw|
      {
        var frame := cipher.seal(sendNonce, raw[..ChunkLen(raw)]);
        OneMoreFrame(cipher, before, start, all, done, outgoing, sendNonce, raw, frame);
        sendNonce := sendNonce + 1;
        if left == 0 {
          assert all[..room] == done;
          return false;
        }
        left := left - 1;
        outgoing := outgoing + Framed(frame);
        done := done + [frame];
        raw := raw[ChunkLen(raw)..];
      }
      AllSent(cipher, before, start, all, done, outgoing, sendNonce);
      ok := true;
    }
  }

  /** `done` frames are on the stream, the rest of the message is still to be sealed. */
  ghost predicate SentSoFar(
    c: Cipher, before: Bytes, start: nat, all: seq<Bytes>, done: seq<Bytes>, outgoing: Bytes, nonce: nat, raw: Bytes)
  {
    all == done + Sealed(c, nonce, raw) && nonce == start + |done| && outgoing == before + OnWire(done)
  }

  lemma AllSent(c: Cipher, before: Bytes, start: nat, all: seq<Bytes>, done: seq<Bytes>, outgoing: Bytes, nonce: nat)
    requires SentSoFar(c, before, start, all, done, outgoing, nonce, [])
    ensures outgoing == before + OnWire(all) && nonce == start + |all| && |all| == |done|
  {
    assert done + [] == done;
  }

  lemma OneMoreFrame(
    c: Cipher, before: Bytes, start: nat, all: seq<Bytes>, done: seq<Bytes>, outgoing: Bytes, nonce: nat, raw: Bytes, f: Bytes)
    requires SentSoFar(c, before, start, all, done, outgoing, nonce, raw)
    requires raw != [] && f == c.seal(nonce, raw[..ChunkLen(raw)])
    ensures CutShort(before, outgoing, all) && |done| < |all|
    ensures SentSoFar(c, before, start, all, done + [f], outgoing + Framed(f), nonce + 1, raw[ChunkLen(raw)..])
  {
    StopsShort(before, done, Sealed(c, nonce, raw));
    NextFrame(c, nonce, raw, done, f);
    Regroup(before, OnWire(done), Framed(f));
  }

  predicate SameEnd(a: Outcome, b: Outcome) {
    a.msg == b.msg && a.rest == b.rest && a.nonce == b.nonce
  }
}
