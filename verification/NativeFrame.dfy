/** The length-prefixed framing of src/native_frame.c. */
module NativeFrame {
  import opened Buffers
  import opened ByteStreams
  import opened Modular

  newtype byte = x: int | 0 <= x < 256

  const FRAME_MAX_PAYLOAD := 16777216
  // A length is cast to uint32_t before anything looks at it.
  const UINT32 := 0x1_0000_0000

  datatype FrameError = ReadError | Timeout | TruncatedHeader | PayloadTooLarge | TruncatedPayload
  datatype FrameResult = Frame(payload: seq<byte>) | NoFrame(error: FrameError)

  /** The four bytes of a uint32_t in memory, least significant first. */
  function LengthBytes(n: nat): (b: seq<byte>)
    requires n < UINT32
    ensures |b| == 4 && LengthOf(b) == n
  {
    var q := n / 256;
    var r := q / 256;
    [(n % 256) as byte, (q % 256) as byte, (r % 256) as byte, (r / 256) as byte]
  }

  function LengthOf(b: seq<byte>): (n: nat)
    requires |b| == 4
    ensures n < UINT32
  {
    b[0] as int + 256 * (b[1] as int + 256 * (b[2] as int + 256 * (b[3] as int)))
  }

  function Encode(payload: seq<byte>): seq<byte> {
    LengthBytes(|payload| % UINT32) + payload
  }

  function EncodeAll(payloads: seq<seq<byte>>): seq<byte> {
    if payloads == [] then [] else Encode(payloads[0]) + EncodeAll(payloads[1..])
  }

  /** What the bytes of a stream say about its first frame, and how many of them
      belong to that verdict. */
  function FirstFrame(s: seq<byte>): (r: (FrameResult, nat))
    ensures r.1 <= |s|
  {
    if s == [] then (NoFrame(ReadError), 0)
    else if |s| < 4 then (NoFrame(TruncatedHeader), |s|)
    else
      var len := LengthOf(s[..4]);
      if len > FRAME_MAX_PAYLOAD then (NoFrame(PayloadTooLarge), 4)
      else if len == 0 then (Frame([]), 4)
      else if |s| == 4 then (NoFrame(ReadError), 4)
      else if |s| < 4 + len then (NoFrame(TruncatedPayload), |s|)
      else (Frame(s[4..4 + len]), 4 + len)
  }

  /** Payloads read one after the other until a read fails or n have been read. */
  function FirstFrames(s: seq<byte>, n: nat): seq<seq<byte>> {
    if n == 0 || FirstFrame(s).0.NoFrame? then []
    else [FirstFrame(s).0.payload] + FirstFrames(s[FirstFrame(s).1..], n - 1)
  }

  function Power256(i: nat): (p: nat)
    ensures p > 0
  {
    if i == 0 then 1 else 256 * Power256(i - 1)
  }

  /** The bytes of a header are the digits of the length to the base 256, the lowest
      first, and the length is read off them so. */
  lemma HeaderBytes(n: nat, i: nat)
    requires n < UINT32 && i < 4
    ensures LengthBytes(n)[i] as int == n / Power256(i) % 256
  {
    DivideTwice(n, 256, 256);
    DivideTwice(n, 65536, 256);
    assert Power256(1) == 256 && Power256(2) == 65536 && Power256(3) == 16777216;
  }

  lemma DivideTwice(n: nat, a: nat, b: nat)
    requires a > 0 && b > 0
    ensures n / a / b == n / (a * b)
  {
    DivMod(n, a);
    DivMod(n / a, b);
    DivideParts(n, a, b, n / a / b, n / a % b, n % a);
  }

  lemma DivideParts(n: nat, a: nat, b: nat, q: nat, r: nat, s: nat)
    requires a > 0 && b > 0 && r < b && s < a && n == (q * b + r) * a + s
    ensures n / (a * b) == q
  {
    Spread(a, b, q, r, s);
    ModUnique(n, a * b, q, r * a + s);
  }

  lemma Spread(a: nat, b: nat, q: nat, r: nat, s: nat)
    requires r < b && s < a
    ensures (q * b + r) * a + s == q * (a * b) + (r * a + s) && 0 <= r * a + s < a * b
  {
    MulBounds(b - r, a);
    assert (b - r) * a == b * a - r * a;
    Assoc(q, b, a);
  }

  lemma LengthIsSum(b: seq<byte>)
    requires |b| == 4
    ensures LengthOf(b) == b[0] as int + 256 * b[1] as int + 65536 * b[2] as int + 16777216 * b[3] as int
  {
  }

  /** What frame_write puts in front of a payload, byte by byte. */
  lemma FrameOnWire(payload: seq<byte>, i: nat)
    requires |payload| < UINT32 && i < 4 + |payload|
    ensures |Encode(payload)| == 4 + |payload|
    ensures Encode(payload)[i] as int == if i < 4 then |payload| / Power256(i) % 256 else payload[i - 4] as int
  {
    SmallLength(|payload|);
    if i < 4 { HeaderBytes(|payload|, i); }
    hide LengthBytes, LengthOf, Power256;
  }

  lemma SmallLength(n: nat)
    requires n < UINT32
    ensures n % UINT32 == n
  {
  }

  /** A frame comes back exactly when its payload is within the limit; this is
      the one place where the uint32_t cast would show. */
  lemma FrameRoundTrip(payload: seq<byte>, rest: seq<byte>)
    requires |payload| < UINT32
    ensures |payload| <= FRAME_MAX_PAYLOAD <==> FirstFrame(Encode(payload) + rest) == (Frame(payload), 4 + |payload|)
    ensures |payload| <= FRAME_MAX_PAYLOAD ==> (Encode(payload) + rest)[4 + |payload|..] == rest
  {
    var s := Encode(payload) + rest;
    hide LengthBytes, LengthOf;
    assert s[..4] == LengthBytes(|payload|);
    assert s[4..4 + |payload|] == payload;
  }

  lemma {:induction false} FramesRoundTrip(payloads: seq<seq<byte>>, rest: seq<byte>)
    requires forall i | 0 <= i < |payloads| :: |payloads[i]| <= FRAME_MAX_PAYLOAD
    ensures FirstFrames(EncodeAll(payloads) + rest, |payloads|) == payloads
  {
    if payloads != [] {
      FirstOfAll(payloads, rest);
      FramesRoundTrip(payloads[1..], rest);
      FirstThenRest(EncodeAll(payloads) + rest, EncodeAll(payloads[1..]) + rest, payloads);
    }
  }

  lemma FirstOfAll(payloads: seq<seq<byte>>, rest: seq<byte>)
    requires payloads != [] && |payloads[0]| <= FRAME_MAX_PAYLOAD
    ensures FirstFrame(EncodeAll(payloads) + rest) == (Frame(payloads[0]), 4 + |payloads[0]|)
    ensures (EncodeAll(payloads) + rest)[4 + |payloads[0]|..] == EncodeAll(payloads[1..]) + rest
  {
    var tail := EncodeAll(payloads[1..]) + rest;
    assert EncodeAll(payloads) + rest == Encode(payloads[0]) + tail;
    FrameRoundTrip(payloads[0], tail);
  }

  lemma FirstThenRest(s: seq<byte>, tail: seq<byte>, payloads: seq<seq<byte>>)
    requires payloads != [] && FirstFrame(s).0 == Frame(payloads[0]) && s[FirstFrame(s).1..] == tail
    requires FirstFrames(tail, |payloads| - 1) == payloads[1..]
    ensures FirstFrames(s, |payloads|) == payloads
  {
  }

  /** A blocking reader that gets a frame from some bytes gets the same frame,
      and no more bytes, whatever arrives after them. */
  lemma FirstFrameIsStable(s: seq<byte>, more: seq<byte>)
    requires FirstFrame(s).0.Frame? || FirstFrame(s).0 == NoFrame(PayloadTooLarge)
    ensures FirstFrame(s + more) == FirstFrame(s)
  {
    assert (s + more)[..4] == s[..4];
    var len := LengthOf(s[..4]);
    if 0 < len <= FRAME_MAX_PAYLOAD {
      assert (s + more)[4..4 + len] == s[4..4 + len];
    }
  }

  /** One read() into the rest of the buffer, of a stream that was s when the buffer
      was empty. */
  method ReadMore(src: Source<byte>, buf: array<byte>, off: nat, ghost s: seq<byte>) returns (r: Outcome, off': nat)
    requires off < buf.Length && off <= |s| && buf[..off] == s[..off] && src.stream == s[off..]
    modifies src`stream, src`pace, buf
    ensures off' == off + (if r.Count? then r.n else 0) <= buf.Length && off' <= |s|
    ensures buf[..off'] == s[..off'] && src.stream == s[off'..]
    ensures r.Count? && r.n == 0 ==> src.stream == []
    ensures src.pace == if old(src.pace) == [] then [] else old(src.pace)[1..]
    ensures r.Interrupted? ==> old(src.pace) != []
    ensures r.Failed? ==> !NoFault(old(src.pace))
  {
    hide Moved;
    var got;
    r, got := src.Read(buf.Length - off);
    assert |src.stream| + |got| == |s[off..]|;
    Put(buf, off, got);
    off' := off + |got|;
    assert s[off..] == got + src.stream;
    Further(s, off, got);
  }

  lemma Further(s: seq<byte>, off: nat, got: seq<byte>)
    requires off <= |s| && got <= s[off..]
    ensures off + |got| <= |s| && s[..off + |got|] == s[..off] + got && s[off..][|got|..] == s[off + |got|..]
  {
  }

  lemma FaultlessLater(pace: seq<Step>)
    ensures NoFault(pace) && pace != [] ==> NoFault(pace[1..])
  {
  }

  /** read_all */
  method ReadAll(src: Source<byte>, buf: array<byte>) returns (n: int)
    modifies src, buf
    ensures NoFault(old(src.pace)) ==> NoFault(src.pace) && 0 <= n
    ensures src.polls == old(src.polls)
    ensures -1 <= n
    ensures 0 <= n ==> n == Min(buf.Length, |old(src.stream)|)
    ensures 0 <= n ==> buf[..n] == old(src.stream)[..n] && src.stream == old(src.stream)[n..]
  {
    hide NoFault;
    ghost var s := src.stream;
    var off: nat := 0;
    while off < buf.Length
      invariant off <= buf.Length && off <= |s|
      invariant NoFault(old(src.pace)) ==> NoFault(src.pace)
      invariant src.polls == old(src.polls)
      invariant buf[..off] == s[..off] && src.stream == s[off..]
      decreases |src.pace| + buf.Length - off
    {
      FaultlessLater(src.pace);
      var r, next := ReadMore(src, buf, off, s);
      off := next;
      if r.Failed? { return -1; }
      if r.Count? && r.n == 0 { return off; }
    }
    return off;
  }

  /** read_all_deadline, with the number of reads that brought data. */
  method ReadAllDeadline(src: Source<byte>, buf: array<byte>, deadlineMs: int)
    returns (n: int, timedOut: bool, ghost dataReads: nat)
    requires buf.Length > 0
    modifies src, buf
    ensures deadlineMs < 0 && NoFault(old(src.pace)) ==> NoFault(src.pace) && 0 <= n
    ensures -1 <= n <= buf.Length && n <= |old(src.stream)|
    ensures 0 <= n ==> buf[..n] == old(src.stream)[..n] && src.stream == old(src.stream)[n..]
    // Short only at the end of the stream, out of time, or when asked not to wait.
    ensures 0 <= n < buf.Length ==> src.stream == [] || timedOut || (deadlineMs == 0 && n > 0)
    ensures timedOut ==> 0 <= n < buf.Length && 0 <= deadlineMs
    ensures deadlineMs > 0 ==> 10 * dataReads < deadlineMs + 10
    ensures deadlineMs == 0 ==> dataReads <= 1
    // Told at once that nothing is there: nothing is consumed.
    ensures 0 <= deadlineMs && FirstVerdict(old(src.polls)) == Quiet ==>
              n == 0 && timedOut && src.stream == old(src.stream) && src.pace == old(src.pace)
  {
    timedOut, dataReads := false, 0;
    if deadlineMs < 0 {
      n := ReadAll(src, buf);
      return;
    }
    hide NoFault;
    ghost var s := src.stream;
    var off: nat, remaining := 0, deadlineMs;
    while off < buf.Length
      invariant off <= buf.Length && off <= |s| && 0 <= remaining
      invariant buf[..off] == s[..off] && src.stream == s[off..]
      invariant deadlineMs > 0 ==> remaining <= deadlineMs - 10 * dataReads || remaining == 0
      invariant deadlineMs > 0 ==> 10 * dataReads < deadlineMs + 10
      invariant deadlineMs == 0 ==> dataReads == 0 && off == 0
      invariant FirstVerdict(old(src.polls)) == Quiet ==>
                  off == 0 && FirstVerdict(src.polls) == Quiet && src.pace == old(src.pace) && remaining == deadlineMs
      decreases |src.polls| + |src.pace| + buf.Length - off
    {
      if deadlineMs > 0 && remaining <= 0 {
        return off, true, dataReads;
      }
      var ready := src.Poll();
      if ready == PollInterrupt { continue; }
      if ready == PollFault { return -1, timedOut, dataReads; }
      if ready == Quiet {
        return off, true, dataReads;
      }
      if ready == Hangup {
        return -1, timedOut, dataReads;
      }
      var r, next := ReadMore(src, buf, off, s);
      off := next;
      if r.Failed? { return -1, timedOut, dataReads; }
      if r.Interrupted? { continue; }
      if r.n == 0 { return off, timedOut, dataReads; }
      dataReads := dataReads + 1;
      if deadlineMs == 0 { break; }
      remaining := remaining - 10;
      if remaining < 0 { remaining := 0; }
    }
    n := off;
  }

  /** The first answer of poll() that is not an interruption. */
  function FirstVerdict(polls: seq<Readiness>): Readiness {
    if polls == [] then Ready
    else if polls[0] == PollInterrupt then FirstVerdict(polls[1..])
    else polls[0]
  }

  /** frame_read. A frame obtained in any mode is the one the bytes spell; a
      blocking read is a function of the bytes alone. */
  method FrameRead(src: Source<byte>, deadlineMs: int) returns (r: FrameResult)
    modifies src
    ensures deadlineMs < 0 && NoFault(old(src.pace)) ==>
              NoFault(src.pace) && r == FirstFrame(old(src.stream)).0
              && src.stream == old(src.stream)[FirstFrame(old(src.stream)).1..]
    ensures r.Frame? || r == NoFrame(PayloadTooLarge) ==>
              r == FirstFrame(old(src.stream)).0 && src.stream == old(src.stream)[FirstFrame(old(src.stream)).1..]
    ensures 0 <= deadlineMs && FirstVerdict(old(src.polls)) == Quiet ==>
              r == NoFrame(Timeout) && src.stream == old(src.stream)
    ensures deadlineMs < 0 ==> r != NoFrame(Timeout)
  {
    ghost var s := src.stream;
    var header := new byte[4];
    var n, timedOut, _ := ReadAllDeadline(src, header, deadlineMs);
    if n <= 0 {
      return NoFrame(if timedOut then Timeout else ReadError);
    }
    if n < 4 {
      return NoFrame(if timedOut then Timeout else TruncatedHeader);
    }
    assert header[..] == s[..4];
    var len := LengthOf(header[..]);
    if len > FRAME_MAX_PAYLOAD { return NoFrame(PayloadTooLarge); }
    if len == 0 { return Frame([]); }
    var buf := new byte[len];
    var payloadDeadline := deadlineMs;
    if deadlineMs > 0 {
      payloadDeadline := deadlineMs - 10;
      if payloadDeadline < 0 { payloadDeadline := 0; }
    }
    ghost var more: nat;
    n, timedOut, more := ReadAllDeadline(src, buf, payloadDeadline);
    if n <= 0 {
      return NoFrame(if timedOut then Timeout else ReadError);
    }
    if n < len {
      return NoFrame(if timedOut then Timeout else TruncatedPayload);
    }
    assert buf[..] == buf[..n] == s[4..4 + len];
    assert s[4..][len..] == s[4 + len..];
    return Frame(buf[..]);
  }

  /** How many of the four header bytes the one write() of them gets out. */
  function HeaderTaken(pace: seq<Step>): (k: nat)
    ensures k <= 4
  {
    if pace == [] || pace[0].Move? then Moved(pace, 4) else 0
  }

  /** frame_write. The payload survives partial writes and interruptions; the
      four header bytes do not, which makes the write fail. */
  method FrameWrite(sink: Sink<byte>, json: seq<byte>) returns (ok: bool)
    modifies sink
    ensures |json| % UINT32 > FRAME_MAX_PAYLOAD ==> !ok && sink.written == old(sink.written)
    ensures ok ==> |json| % UINT32 <= FRAME_MAX_PAYLOAD && sink.written == old(sink.written) + Encode(json)
    ensures NoFault(old(sink.pace)) ==> NoFault(sink.pace)
    ensures NoFault(old(sink.pace)) ==>
              (ok <==> |json| % UINT32 <= FRAME_MAX_PAYLOAD && HeaderTaken(old(sink.pace)) == 4)
    ensures |json| % UINT32 <= FRAME_MAX_PAYLOAD && HeaderTaken(old(sink.pace)) < 4 ==>
              !ok && sink.written == old(sink.written) + Encode(json)[..HeaderTaken(old(sink.pace))]
    ensures old(sink.written) <= sink.written <= old(sink.written) + Encode(json)
  {
    ghost var was := sink.written;
    var netLen := |json| % UINT32;
    if netLen > FRAME_MAX_PAYLOAD { return false; }
    var r := sink.Write(LengthBytes(netLen));
    if r != Count(4) { return false; }
    ok := WritePayload(sink, json);
    assert was + Encode(json) == was + LengthBytes(netLen) + json;
  }

  /** The loop of frame_write. */
  method WritePayload(sink: Sink<byte>, json: seq<byte>) returns (ok: bool)
    modifies sink
    ensures ok ==> sink.written == old(sink.written) + json
    ensures old(sink.written) <= sink.written <= old(sink.written) + json
    ensures NoFault(old(sink.pace)) ==> ok && NoFault(sink.pace)
  {
    var off: nat := 0;
    while off < |json|
      invariant off <= |json|
      invariant NoFault(old(sink.pace)) ==> NoFault(sink.pace)
      invariant sink.written == old(sink.written) + json[..off]
      decreases |sink.pace| + |json| - off
    {
      var r := sink.Write(json[off..]);
      if r.Count? {
        assert json[..off + r.n] == json[..off] + json[off..][..r.n];
        off := off + r.n;
      } else if !r.Interrupted? {
        return false;
      }
    }
    return true;
  }

  method SendAll(sink: Sink<byte>, payloads: seq<seq<byte>>) returns (sent: bool)
    requires forall i | 0 <= i < |payloads| :: |payloads[i]| < UINT32
    modifies sink
    ensures sent ==> forall i | 0 <= i < |payloads| :: |payloads[i]| <= FRAME_MAX_PAYLOAD
    ensures sent ==> sink.written == old(sink.written) + EncodeAll(payloads)
  {
    hide EncodeAll, Encode, NoFault, HeaderTaken;
    ghost var was := sink.written;
    EncodeNothing();
    assert payloads[..0] == [] && was + [] == was;
    for i := 0 to |payloads|
      invariant forall k | 0 <= k < i :: |payloads[k]| <= FRAME_MAX_PAYLOAD
      invariant sink.written == was + EncodeAll(payloads[..i])
    {
      ghost var front := EncodeAll(payloads[..i]);
      var ok := FrameWrite(sink, payloads[i]);
      if !ok { return false; }
      EncodeAllSnoc(payloads[..i], payloads[i]);
      assert payloads[..i + 1] == payloads[..i] + [payloads[i]];
      assert was + front + Encode(payloads[i]) == was + (front + Encode(payloads[i]));
    }
    assert payloads[..|payloads|] == payloads;
    return true;
  }

  method ReceiveAll(src: Source<byte>, n: nat) returns (received: seq<seq<byte>>)
    requires NoFault(src.pace)
    modifies src
    ensures received == FirstFrames(old(src.stream), n)
  {
    received := [];
    for i := 0 to n
      invariant NoFault(src.pace)
      invariant received + FirstFrames(src.stream, n - i) == FirstFrames(old(src.stream), n)
    {
      var r := FrameRead(src, -1);
      if r.NoFrame? { return; }
      received := received + [r.payload];
    }
  }

  /** Any payloads, any pace: if every frame_write reports success then repeated
      blocking reads return the payloads unchanged and in order. */
  method Relay(payloads: seq<seq<byte>>, writePace: seq<Step>, readPace: seq<Step>)
    returns (sent: bool, received: seq<seq<byte>>)
    requires forall i | 0 <= i < |payloads| :: |payloads[i]| < UINT32
    requires NoFault(readPace)
    ensures sent ==> received == payloads
  {
    var sink := new Sink<byte>(writePace);
    sent := SendAll(sink, payloads);
    var src := new Source<byte>(sink.written, readPace, []);
    received := ReceiveAll(src, |payloads|);
    if sent {
      FramesRoundTrip(payloads, []);
      assert sink.written == EncodeAll(payloads) + [];
    }
  }

  lemma EncodeNothing()
    ensures EncodeAll([]) == []
  {
  }

  lemma {:induction false} EncodeAllSnoc(ps: seq<seq<byte>>, p: seq<byte>)
    ensures EncodeAll(ps + [p]) == EncodeAll(ps) + Encode(p)
  {
    if ps != [] {
      assert (ps + [p])[1..] == ps[1..] + [p];
      EncodeAllSnoc(ps[1..], p);
    } else {
      assert ([p])[1..] == [];
    }
  }

  /** A signal-free pipe that takes only two of the four header bytes at first
      makes frame_write give up, with those two bytes already on the wire. */
  method SplitHeaderIsRefused() returns (ok: bool, wire: seq<byte>)
    ensures !ok && wire == [1, 0]
  {
    var sink := new Sink<byte>([Move(2)]);
    ok := FrameWrite(sink, [7]);
    assert Encode([7])[..2] == LengthBytes(1)[..2];
    wire := sink.written;
  }
}
