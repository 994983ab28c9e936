/** Reading a request off a socket and taking its body out, as src/server.c does
    for Content-Length and for the chunked coding. */
module HttpRequest {
  import opened Texts
  import opened HttpHead
  import opened ByteStreams
  import opened DecodeBuffer

  const FIRST_CAP := 1048576
  const LAST_CAP := 16777216
  const LAST_CHUNK := "\r\n0\r\n"
  const HEX_BUF := 31 // sizeof hex_buf, less its NUL

  // NeverDone: the loop that grows the buffer for the decoded body does not end.
  datatype Body = NoBody | Body(text: string) | BodyTooLarge | NeverDone

  // ---- Chunked coding

  predicate IsHex(c: char) { '0' <= c <= '9' || 'a' <= c <= 'f' || 'A' <= c <= 'F' }

  function HexDigit(c: char): (n: nat)
    requires IsHex(c)
    ensures n < 16
  {
    if c <= '9' then c as int - '0' as int
    else if c <= 'F' then c as int - 'A' as int + 10
    else c as int - 'a' as int + 10
  }

  function HexRun(s: string): (d: string)
    ensures d <= s && forall i | 0 <= i < |d| :: IsHex(d[i])
  {
    if s == [] || !IsHex(s[0]) then [] else [s[0]] + HexRun(s[1..])
  }

  function HexValue(d: string): nat
    requires forall i | 0 <= i < |d| :: IsHex(d[i])
  {
    if d == [] then 0 else 16 * HexValue(d[..|d| - 1]) + HexDigit(d[|d| - 1])
  }

  function SkipSpaces(s: string): (t: string)
    ensures |t| <= |s|
  {
    if s != [] && (s[0] == ' ' || '\t' <= s[0] <= '\r') then SkipSpaces(s[1..]) else s
  }

  function Clamp(n: int): int { if n > LONG_MAX then LONG_MAX else if n < -LONG_MAX - 1 then -LONG_MAX - 1 else n }

  /** strtol(s, NULL, 16) */
  function Strtol16(s: string): int {
    var t := SkipSpaces(s);
    var signed := t != [] && (t[0] == '-' || t[0] == '+');
    var u := if signed then t[1..] else t;
    var v := if |u| > 2 && u[0] == '0' && (u[1] == 'x' || u[1] == 'X') && IsHex(u[2]) then u[2..] else u;
    var n: int := HexValue(HexRun(v));
    Clamp(if signed && t[0] == '-' then -n else n)
  }

  function SkipBreaks(s: string): (t: string)
    ensures |t| <= |s|
  {
    if s != [] && IsBreak(s[0]) then SkipBreaks(s[1..]) else s
  }

  function SkipOne(s: string, c: char): (t: string)
    ensures |t| <= |s|
  {
    if s != [] && s[0] == c then s[1..] else s
  }

  /** What follows a size line that ends at n, or nothing if it is cut short. */
  function AfterSizeLine(q: string, n: nat): (rest: Option<string>)
    requires n <= |q|
    ensures rest.Some? ==> |rest.value| < |q|
  {
    if n == |q| || q[n] != '\r' || n + 1 == |q| then None
    else if q[n + 1] == '\n' then Some(q[n + 2..])
    else Some(q[n + 1..])
  }

  /** The chunks from p on, appended to what is decoded already. */
  function DecodeFrom(p: string, decoded: string, maxBody: nat): Body
    decreases |p|
  {
    var q := SkipBreaks(p);
    if q == [] then Body(decoded)
    else
      var line := UpToBreak(q);
      match AfterSizeLine(q, |line|)
      case None => NoBody
      case Some(rest) =>
        var size := Strtol16(Cut(line, HEX_BUF));
        if size < 0 then NoBody
        else if size == 0 then Body(decoded)
        else if |decoded| + size > HALF_WORD then NeverDone
        else
          var data := Cut(rest, size);
          if |decoded| + |data| > maxBody then BodyTooLarge
          else DecodeFrom(SkipOne(SkipOne(rest[|data|..], '\r'), '\n'), decoded + data, maxBody)
  }

  /** The lone bytes of a line end that the decoder passes over. */
  method PassBreaks(p: string) returns (q: string)
    ensures q == SkipBreaks(p)
  {
    q := p;
    while q != [] && (q[0] == '\r' || q[0] == '\n')
      invariant SkipBreaks(q) == SkipBreaks(p)
    {
      q := q[1..];
    }
  }

  lemma {:induction false} LineEndsAt(q: string, i: nat)
    requires i <= |q| && (forall k | 0 <= k < i :: !IsBreak(q[k])) && (i < |q| ==> IsBreak(q[i]))
    ensures UpToBreak(q) == q[..i]
  {
    hide IsBreak;
    if i == 0 {
    } else {
      var t := q[1..];
      assert forall k | 0 <= k < i - 1 :: t[k] == q[k + 1];
      LineEndsAt(t, i - 1);
      assert q[..i] == [q[0]] + t[..i - 1];
    }
  }

  /** The size line at the beginning of q, and what follows it. */
  method ReadSizeLine(q: string) returns (line: string, rest: Option<string>)
    ensures line == UpToBreak(q) && rest == AfterSizeLine(q, |line|)
  {
    hide UpToBreak;
    var i := 0;
    while i < |q| && q[i] != '\r' && q[i] != '\n'
      invariant i <= |q| && forall k | 0 <= k < i :: q[k] != '\r' && q[k] != '\n'
    {
      i := i + 1;
    }
    LineEndsAt(q, i);
    line, rest := q[..i], None;
    if i >= |q| || q[i] != '\r' { return; }
    if i + 1 < |q| && q[i + 1] == '\n' {
      rest := Some(q[i + 2..]);
    } else if i + 1 < |q| {
      rest := Some(q[i + 1..]);
    }
  }

  /** The buffer takes the size a chunk declares, and what a body of at most 16 MiB
      really holds always fits in it. */
  method DecodeChunks(body: string, maxBody: nat) returns (r: Body)
    ensures r == DecodeFrom(body, "", maxBody)
  {
    SmallestCapacity();
    hide Strtol16, UpToBreak, AfterSizeLine, Cut, SkipBreaks, IsCapacity, GrowthEnds;
    var cap: nat, p, decoded := START, body, "";
    while p != []
      invariant DecodeFrom(p, decoded, maxBody) == DecodeFrom(body, "", maxBody)
      invariant IsCapacity(cap) && |decoded| + |p| <= |body|
      decreases |p|
    {
      var q := PassBreaks(p);
      if q == [] { return Body(decoded); }
      var line, rest := ReadSizeLine(q);
      if rest.None? { return NoBody; }
      var size := Strtol16(Cut(line, HEX_BUF));
      if size < 0 { return NoBody; }
      if size == 0 { break; }
      CapacityBounds(cap);
      if |decoded| + size > cap {
        GrowthEndsIff(cap, |decoded| + size);
        if |decoded| + size > HALF_WORD {
          assert !GrowthEnds(cap, |decoded| + size);
          return NeverDone;
        }
        cap := Grow(cap, |decoded| + size);
      }
      var data := Cut(rest.value, size);
      assert |body| <= MOST ==> |decoded| + |data| <= cap;
      if |decoded| + |data| > maxBody { return BodyTooLarge; }
      decoded := decoded + data;
      p := rest.value[|data|..];
      if p != [] && p[0] == '\r' { p := p[1..]; }
      if p != [] && p[0] == '\n' { p := p[1..]; }
    }
    r := Body(decoded);
  }

  // ---- The whole body

  function BodyOf(raw: string, maxBody: nat): Body {
    match IndexOf(raw, BLANK_LINE)
    case None => NoBody
    case Some(h) =>
      var body := raw[h + 4..];
      if IsChunked(raw) then DecodeFrom(body, "", maxBody)
      else
        match FindHeader(raw, "Content-Length")
        case None => if body == [] then NoBody else Body(body)
        case Some(field) =>
          var n := ContentLength(field);
          if n < 0 then NoBody else Body(Cut(body, n))
  }

  method ReadBody(raw: string, maxBody: nat) returns (r: Body)
    ensures r == BodyOf(raw, maxBody)
  {
    hide IsChunked, ContentLength, FindHeader, DecodeFrom;
    var end := IndexOf(raw, BLANK_LINE);
    if end.None? { return NoBody; }
    var body := raw[end.value + 4..];
    var chunked := IsChunkedRequest(raw);
    if chunked { r := DecodeChunks(body, maxBody); return; }
    var field := FindHeaderValue(raw, "Content-Length");
    if field.None? { return if body == [] then NoBody else Body(body); }
    var n := ParseContentLength(field.value);
    if n < 0 { return NoBody; }
    if n == 0 { return Body(""); }
    if |body| >= n { return Body(body[..n]); }
    r := Body(body);
  }

  // ---- When to stop reading

  /** http_expected_request_len: 0 while it is unknown or the body is chunked. */
  function Expected(raw: string): nat {
    match IndexOf(raw, BLANK_LINE)
    case None => 0
    case Some(h) =>
      if IsChunked(raw) then 0
      else
        match FindHeader(raw, "Content-Length")
        case None => h + 4
        case Some(field) => h + 4 + if ContentLength(field) > 0 then ContentLength(field) else 0
  }

  method ExpectedLength(raw: string) returns (n: nat)
    ensures n == Expected(raw)
  {
    hide IsChunked, ContentLength, FindHeader;
    var end := IndexOf(raw, BLANK_LINE);
    if end.None? { return 0; }
    var chunked := IsChunkedRequest(raw);
    if chunked { return 0; }
    var field := FindHeaderValue(raw, "Content-Length");
    if field.None? { return end.value + 4; }
    var length := ParseContentLength(field.value);
    n := end.value + 4 + if length > 0 then length else 0;
  }

  predicate ChunksComplete(raw: string) {
    match IndexOf(raw, BLANK_LINE)
    case None => false
    case Some(h) => Contains(raw[h + 4..], LAST_CHUNK)
  }

  /** The search runs backwards from the end of what was read. */
  method ChunkedBodyComplete(raw: string) returns (yes: bool)
    ensures yes == ChunksComplete(raw)
  {
    var end := IndexOf(raw, BLANK_LINE);
    if end.None? { return false; }
    var body := raw[end.value + 4..];
    yes := FindLastChunk(body);
  }

  method FindLastChunk(body: string) returns (yes: bool)
    ensures yes == Contains(body, LAST_CHUNK)
  {
    var i := |body| - 5;
    while i >= 0
      invariant i <= |body| - 5
      invariant forall k | i < k :: !OccursAt(body, LAST_CHUNK, k)
    {
      if body[i..i + 5] == LAST_CHUNK {
        assert OccursAt(body, LAST_CHUNK, i);
        return true;
      }
      i := i - 1;
    }
    yes := false;
  }

  predicate Enough(raw: string) {
    if Expected(raw) > 0 then |raw| >= Expected(raw) else IsChunked(raw) && ChunksComplete(raw)
  }

  // ---- read_http_request

  datatype Read = Raw(raw: string) | Refused | ReadFailed

  function Doubled(next: nat, expected: nat): (n: nat)
    requires next > 0
    ensures n >= next && (n >= expected || n >= LAST_CAP)
    decreases LAST_CAP - next
  {
    if next < expected && next < LAST_CAP then Doubled(next * 2, expected) else next
  }

  /** The capacity once it is known how long the request is: doubled until the request
      fits, at most 16 MiB and max_req. */
  function NextCap(cap: nat, expected: nat, maxReq: nat): (next: nat)
    requires 0 < cap <= LAST_CAP && expected <= maxReq
    ensures cap <= next <= LAST_CAP && (next >= expected || next == LAST_CAP)
    ensures next > cap ==> expected > cap
  {
    if expected > cap && cap < LAST_CAP then Min(Min(Doubled(cap * 2, expected), LAST_CAP), maxReq) else cap
  }

  method GrownCap(cap: nat, expected: nat, maxReq: nat) returns (next: nat)
    requires 0 < cap < LAST_CAP && cap < expected <= maxReq
    ensures next == NextCap(cap, expected, maxReq)
    ensures cap < next <= LAST_CAP && (next >= expected || next == LAST_CAP)
  {
    next := cap * 2;
    while next < expected && next < LAST_CAP
      invariant cap < next && Doubled(next, expected) == Doubled(cap * 2, expected)
      decreases LAST_CAP - next
    {
      next := next * 2;
    }
    if next > LAST_CAP { next := LAST_CAP; }
    if next > maxReq { next := maxReq; }
  }

  /** Why reading stopped with raw: there is enough, the stream is at its end, or the
      buffer is full; and the buffer grew only once the head was in the first MiB. */
  ghost predicate Stopped(raw: string, atEnd: bool) {
    && (Enough(raw) || atEnd || (|raw| >= FIRST_CAP && (Expected(raw) == 0 || Expected(raw) > LAST_CAP)))
    && (|raw| > FIRST_CAP ==> HeadWithin(raw, FIRST_CAP))
  }

  predicate HeadWithin(raw: string, n: nat) {
    IndexOf(raw, BLANK_LINE).Some? && IndexOf(raw, BLANK_LINE).value + 4 <= n
  }

  lemma HeadStays(raw: string, more: string, n: nat)
    requires HeadWithin(raw, n)
    ensures HeadWithin(raw + more, n)
  {
    assert (raw + more)[..|raw|] == raw;
    IndexInPrefix(raw + more, |raw|, BLANK_LINE);
  }

  lemma HeadIsInside(raw: string)
    requires Expected(raw) > 0
    ensures HeadWithin(raw, |raw|)
  {
  }

  lemma NothingExpectedOfNothing()
    ensures Expected("") == 0 && !Enough("")
  {
  }

  /** The state of the loop below: nothing read so far was enough. */
  ghost predicate Reading(raw: string, cap: nat) {
    && |raw| <= cap && FIRST_CAP <= cap <= LAST_CAP && (cap > FIRST_CAP ==> HeadWithin(raw, FIRST_CAP))
    && !Enough(raw) && (Expected(raw) <= cap || cap == LAST_CAP)
  }

  /** The outcome of reading on from raw, with the stream and the pace that are left. */
  function ReadFrom(raw: string, cap: nat, stream: string, pace: seq<Step>, maxReq: nat): Read
    requires 0 < cap <= LAST_CAP
    decreases |stream|, |pace|
  {
    if |raw| >= cap then Raw(raw)
    else if pace != [] && pace[0].Fault? then ReadFailed
    else if pace != [] && pace[0].Interrupt? then ReadFrom(raw, cap, stream, pace[1..], maxReq)
    else
      var n := Moved(pace, Min(cap - |raw|, |stream|));
      if n == 0 then Raw(raw) else Judged(raw + stream[..n], cap, stream[n..], Later(pace), maxReq)
  }

  /** What is made of a read that brought the request to raw. */
  function Judged(raw: string, cap: nat, stream: string, pace: seq<Step>, maxReq: nat): Read
    requires 0 < cap <= LAST_CAP
    decreases |stream|, |pace| + 1
  {
    if Expected(raw) > maxReq then Refused
    else if Enough(raw) then Raw(raw)
    else ReadFrom(raw, NextCap(cap, Expected(raw), maxReq), stream, pace, maxReq)
  }

  function Later(pace: seq<Step>): seq<Step> { if pace == [] then [] else pace[1..] }

  ghost predicate SomePrefixExpects(all: string, maxReq: nat) {
    exists k | 0 <= k <= |all| :: Expected(all[..k]) > maxReq
  }

  /** Where reading on from raw stops, for every pace. */
  lemma {:induction false} ReadStops(raw: string, cap: nat, stream: string, pace: seq<Step>, maxReq: nat)
    requires Reading(raw, cap)
    ensures var r := ReadFrom(raw, cap, stream, pace, maxReq);
            && (r.Raw? ==> raw <= r.raw <= raw + stream && Stopped(r.raw, r.raw == raw + stream))
            && (r.Refused? ==> SomePrefixExpects(raw + stream, maxReq))
            && (r.ReadFailed? ==> !NoFault(pace))
    decreases |stream|, |pace|
  {
    hide Reading, Stopped, Expected, Enough, HeadWithin, SomePrefixExpects;
    CapOfReading(raw, cap);
    if |raw| >= cap {
      ReadingStops(raw, cap, raw == raw + stream);
    } else if pace != [] && pace[0].Fault? {
    } else if pace != [] && pace[0].Interrupt? {
      ReadStops(raw, cap, stream, pace[1..], maxReq);
    } else {
      var n := Moved(pace, Min(cap - |raw|, |stream|));
      if n == 0 {
        assert raw + stream == raw;
        ReadingStops(raw, cap, true);
      } else {
        JudgedStops(raw, raw + stream[..n], cap, stream[n..], Later(pace), maxReq);
        assert raw + stream[..n] + stream[n..] == raw + stream;
      }
    }
  }

  lemma {:induction false} JudgedStops(raw: string, longer: string, cap: nat, stream: string, pace: seq<Step>,
      maxReq: nat)
    requires Reading(raw, cap) && raw <= longer && |longer| <= cap
    ensures 0 < cap <= LAST_CAP
    ensures var r := Judged(longer, cap, stream, pace, maxReq);
            && (r.Raw? ==> longer <= r.raw <= longer + stream && Stopped(r.raw, r.raw == longer + stream))
            && (r.Refused? ==> SomePrefixExpects(longer + stream, maxReq))
            && (r.ReadFailed? ==> !NoFault(pace))
    decreases |stream|, |pace| + 1
  {
    hide Reading, Stopped, Expected, Enough, HeadWithin, SomePrefixExpects, ReadFrom, NextCap;
    CapOfReading(raw, cap);
    ReadsOn(raw, longer, cap);
    if Expected(longer) > maxReq {
      PrefixExpects(longer, stream, maxReq);
    } else if Enough(longer) {
      StoppedBecause(longer, cap, longer == longer + stream);
    } else {
      var next := NextCap(cap, Expected(longer), maxReq);
      StillReading(longer, next);
      ReadStops(longer, next, stream, pace, maxReq);
    }
  }

  lemma CapOfReading(raw: string, cap: nat)
    requires Reading(raw, cap)
    ensures |raw| <= cap && FIRST_CAP <= cap <= LAST_CAP
  {
    hide Expected, Enough, HeadWithin;
  }

  lemma PrefixExpects(raw: string, stream: string, maxReq: nat)
    requires Expected(raw) > maxReq
    ensures SomePrefixExpects(raw + stream, maxReq)
  {
    hide Expected;
    assert (raw + stream)[..|raw|] == raw;
  }

  /** Where reading a request stops, for every pace. */
  lemma ReadWhole(stream: string, pace: seq<Step>, maxReq: nat)
    ensures var r := ReadFrom("", FIRST_CAP, stream, pace, maxReq);
            && (r.Raw? ==> r.raw <= stream && Stopped(r.raw, r.raw == stream))
            && (r.Refused? ==> SomePrefixExpects(stream, maxReq))
            && (r.ReadFailed? ==> !NoFault(pace))
  {
    hide *;
    BeginsReading();
    ReadStops("", FIRST_CAP, stream, pace, maxReq);
    assert "" + stream == stream;
  }

  // The steps of ReadFrom, one lemma a branch.

  lemma NoRoom(raw: string, cap: nat, stream: string, pace: seq<Step>, maxReq: nat)
    requires 0 < cap <= LAST_CAP && |raw| >= cap
    ensures ReadFrom(raw, cap, stream, pace, maxReq) == Raw(raw)
  {
  }

  lemma NoBytes(raw: string, cap: nat, stream: string, pace: seq<Step>, maxReq: nat)
    requires 0 < cap <= LAST_CAP && |raw| < cap && pace != [] && !pace[0].Move?
    ensures ReadFrom(raw, cap, stream, pace, maxReq)
         == if pace[0].Fault? then ReadFailed else ReadFrom(raw, cap, stream, pace[1..], maxReq)
  {
    hide Judged;
  }

  lemma SomeBytes(raw: string, cap: nat, got: string, left: string, pace: seq<Step>, later: seq<Step>, maxReq: nat)
    requires 0 < cap <= LAST_CAP && |raw| < cap && (pace == [] || pace[0].Move?)
    requires |got| == Moved(pace, Min(cap - |raw|, |got + left|)) && later == if pace == [] then [] else pace[1..]
    ensures ReadFrom(raw, cap, got + left, pace, maxReq)
         == if got == [] then Raw(raw) else Judged(raw + got, cap, left, later, maxReq)
  {
    hide Judged, Moved, Min;
    var stream := got + left;
    assert stream[..|got|] == got && stream[|got|..] == left;
  }

  lemma Judging(raw: string, cap: nat, stream: string, pace: seq<Step>, maxReq: nat)
    requires 0 < cap <= LAST_CAP
    ensures Judged(raw, cap, stream, pace, maxReq)
         == if Expected(raw) > maxReq then Refused
            else if Enough(raw) then Raw(raw)
            else ReadFrom(raw, NextCap(cap, Expected(raw), maxReq), stream, pace, maxReq)
    ensures Expected(raw) <= maxReq && !(Expected(raw) > cap && cap < LAST_CAP)
            ==> NextCap(cap, Expected(raw), maxReq) == cap
  {
    hide Expected, Enough, ReadFrom;
  }

  /** One read, as ReadFrom takes it. */
  method ReadMore(src: Source<char>, raw: string, cap: nat, ghost maxReq: nat) returns (r: Outcome, longer: string)
    requires |raw| < cap <= LAST_CAP
    modifies src`stream, src`pace
    ensures longer + src.stream == raw + old(src.stream) && (!r.Count? || r.n == 0 ==> longer == raw)
    ensures ReadFrom(raw, cap, old(src.stream), old(src.pace), maxReq)
         == if r.Failed? then ReadFailed
            else if r.Interrupted? then ReadFrom(raw, cap, src.stream, src.pace, maxReq)
            else if r.n == 0 then Raw(raw)
            else Judged(longer, cap, src.stream, src.pace, maxReq)
    ensures r.Interrupted? ==> src.stream == old(src.stream) && |src.pace| < |old(src.pace)|
    ensures r.Count? && r.n > 0 ==> |src.stream| < |old(src.stream)|
  {
    hide *;
    ghost var stream, pace := src.stream, src.pace;
    var got;
    r, got := src.Read(cap - |raw|);
    longer := raw + got;
    assert longer + src.stream == raw + (got + src.stream);
    if r.Count? {
      SomeBytes(raw, cap, got, src.stream, pace, src.pace, maxReq);
    } else {
      assert [] + src.stream == src.stream;
      NoBytes(raw, cap, stream, pace, maxReq);
    }
  }

  /** The outcome is a function of the stream and the pace, and a request that comes
      back is a prefix of the stream at which reading may stop. */
  method ReadRequest(src: Source<char>, maxReq: nat) returns (r: Read)
    modifies src`stream, src`pace
    ensures r == ReadFrom("", FIRST_CAP, old(src.stream), old(src.pace), maxReq)
    ensures r.ReadFailed? ==> !NoFault(old(src.pace))
    ensures r.Raw? ==> old(src.stream) == r.raw + src.stream && Stopped(r.raw, src.stream == [])
    ensures r.Refused? ==> SomePrefixExpects(old(src.stream), maxReq)
  {
    ghost var all, whole := src.stream, ReadFrom("", FIRST_CAP, src.stream, src.pace, maxReq);
    ReadWhole(src.stream, src.pace, maxReq);
    assert 0 < FIRST_CAP <= LAST_CAP;
    hide *;
    var cap: nat, raw := FIRST_CAP, "";
    while |raw| < cap
      invariant 0 < cap <= LAST_CAP && all == raw + src.stream
      invariant ReadFrom(raw, cap, src.stream, src.pace, maxReq) == whole
      decreases |src.stream|, |src.pace|
    {
      var n, longer := ReadMore(src, raw, cap, maxReq);
      if n.Failed? { return ReadFailed; }
      if n.Interrupted? { continue; }
      if n.n == 0 { break; }
      raw := longer;
      Judging(raw, cap, src.stream, src.pace, maxReq);
      var expected := ExpectedLength(raw);
      if expected > maxReq { return Refused; }
      if expected > cap && cap < LAST_CAP { cap := GrownCap(cap, expected, maxReq); }
      var enough := EnoughRead(raw, expected);
      if enough { return Raw(raw); }
    }
    if |raw| >= cap { NoRoom(raw, cap, src.stream, src.pace, maxReq); }
    r := Raw(raw);
  }

  lemma BeginsReading()
    ensures Reading("", FIRST_CAP) && FIRST_CAP > 0
  {
    NothingExpectedOfNothing();
  }

  lemma ReadsOn(raw: string, longer: string, cap: nat)
    requires Reading(raw, cap) && raw <= longer && |longer| <= cap
    ensures FIRST_CAP <= cap <= LAST_CAP && (cap > FIRST_CAP ==> HeadWithin(longer, FIRST_CAP))
    ensures Expected(longer) > cap ==> HeadWithin(longer, FIRST_CAP)
  {
    hide Expected, Enough, HeadWithin;
    assert longer == raw + longer[|raw|..];
    if cap > FIRST_CAP {
      HeadStays(raw, longer[|raw|..], FIRST_CAP);
    } else if Expected(longer) > cap {
      HeadIsEarly(longer);
    }
  }

  lemma StillReading(raw: string, cap: nat)
    requires |raw| <= cap && FIRST_CAP <= cap <= LAST_CAP && (cap > FIRST_CAP ==> HeadWithin(raw, FIRST_CAP))
    requires !Enough(raw) && (Expected(raw) <= cap || cap == LAST_CAP)
    ensures Reading(raw, cap)
  {
  }

  lemma ReadingStops(raw: string, cap: nat, atEnd: bool)
    requires Reading(raw, cap) && (atEnd || |raw| >= cap)
    ensures Stopped(raw, atEnd)
  {
    hide Expected, Enough, HeadWithin;
    StoppedBecause(raw, cap, atEnd);
  }

  lemma HeadIsEarly(raw: string)
    requires Expected(raw) > 0 && |raw| <= FIRST_CAP
    ensures HeadWithin(raw, FIRST_CAP)
  {
    HeadIsInside(raw);
  }

  lemma StoppedBecause(raw: string, cap: nat, atEnd: bool)
    requires FIRST_CAP <= cap <= LAST_CAP && |raw| <= cap && (cap > FIRST_CAP ==> HeadWithin(raw, FIRST_CAP))
    requires Enough(raw) || atEnd || (|raw| == cap && (Expected(raw) <= cap || cap == LAST_CAP))
    ensures Stopped(raw, atEnd)
  {
    hide Expected, HeadWithin, IsChunked, ChunksComplete;
  }

  method EnoughRead(raw: string, expected: nat) returns (enough: bool)
    requires expected == Expected(raw)
    ensures enough == Enough(raw)
  {
    hide Expected, IsChunked, ChunksComplete;
    if expected > 0 { return |raw| >= expected; }
    enough := false;
    if |raw| >= 4 {
      var chunked := IsChunkedRequest(raw);
      if chunked { enough := ChunkedBodyComplete(raw); }
    } else {
      ShortIsNotChunked(raw);
    }
  }

  lemma ShortIsNotChunked(raw: string)
    requires |raw| < 4
    ensures !IsChunked(raw)
  {
  }
}
