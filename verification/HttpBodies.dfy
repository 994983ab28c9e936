/** What a client that sends a whole request gets out of HttpRequest, whatever the
    socket's pace: Content-Length bodies (section 6.3 of RFC 9112, section 8.6 of
    RFC 9110) and chunked bodies (section 7.1 of RFC 9112). */
module HttpBodies {
  import opened Texts
  import opened HttpHead
  import opened HttpRequest
  import opened ByteStreams
  import opened DecodeBuffer

  /** What the server has for a body when the client sends `stream` and closes. */
  function Received(stream: string, pace: seq<Step>, maxReq: nat): Body {
    match ReadFrom("", FIRST_CAP, stream, pace, maxReq)
    case Raw(raw) => BodyOf(raw, maxReq)
    case _ => NoBody
  }

  method Receive(src: Source<char>, maxReq: nat) returns (r: Body)
    modifies src`stream, src`pace
    ensures r == Received(old(src.stream), old(src.pace), maxReq)
  {
    hide BodyOf, ReadFrom;
    var read := ReadRequest(src, maxReq);
    if !read.Raw? { return NoBody; }
    r := ReadBody(read.raw, maxReq);
  }

  /** A head: no blank line before the one that ends it. */
  predicate IsHead(head: string) { IndexOf(head + BLANK_LINE, BLANK_LINE) == Some(|head|) }

  predicate ChunkedHead(head: string) { IsChunkedHead(FindIn(head, "Transfer-Encoding")) }

  /** The head declares a body of n bytes. */
  predicate SizedHead(head: string, n: nat) {
    && !ChunkedHead(head) && FindIn(head, "Content-Length").Some?
    && ContentLength(FindIn(head, "Content-Length").value) == n
  }

  /** Non-blank lines make a head, and its fields are found line by line. */
  lemma LinesMakeAHead(lines: seq<string>, name: string)
    requires lines != [] && forall i | 0 <= i < |lines| :: PlainLine(lines[i])
    ensures IsHead(Join(lines)) && FindIn(Join(lines), name) == FirstField(lines, name)
  {
    hide PlainLine, FindIn, FirstField, Join;
    FindInLines(lines, name);
    var head := Join(lines);
    forall k | 0 <= k < |head| ensures !OccursAt(head + BLANK_LINE, BLANK_LINE, k) {
      NoBlankLine(lines, k);
    }
    assert (head + BLANK_LINE)[|head|..|head| + 4] == BLANK_LINE;
    IndexIs(head + BLANK_LINE, BLANK_LINE, |head|);
  }

  lemma {:induction false} NoBlankLine(lines: seq<string>, k: nat)
    requires lines != [] && k < |Join(lines)| && forall i | 0 <= i < |lines| :: PlainLine(lines[i])
    ensures !OccursAt(Join(lines) + BLANK_LINE, BLANK_LINE, k)
    decreases |lines|
  {
    var line, s := lines[0], Join(lines) + BLANK_LINE;
    if k + 4 <= |s| { assert s[k..k + 4][0] == s[k] && s[k..k + 4][2] == s[k + 2]; }
    if |lines| == 1 {
      assert s[k] == line[k];
    } else {
      var rest := Join(lines[1..]);
      JoinStarts(lines[1..]);
      assert s == line + CRLF + (rest + BLANK_LINE);
      if k < |line| {
        assert s[k] == line[k];
      } else if k == |line| {
        assert s[k + 2] == rest[0];
      } else if k == |line| + 1 {
        assert s[k] == '\n';
      } else {
        NoBlankLine(lines[1..], k - |line| - 2);
        OccursAfter(line + CRLF, rest + BLANK_LINE, BLANK_LINE, k);
      }
    }
  }

  lemma JoinStarts(lines: seq<string>)
    requires lines != [] && PlainLine(lines[0])
    ensures Join(lines) != [] && !IsBreak(Join(lines)[0])
  {
  }

  /** In a prefix of the stream that holds the head, the head is what it is. */
  lemma HeadOfPrefix(head: string, body: string, k: nat)
    requires IsHead(head) && k <= |head + BLANK_LINE + body|
    ensures var raw := (head + BLANK_LINE + body)[..k];
            if |head| + 4 <= k
            then IndexOf(raw, BLANK_LINE) == Some(|head|)
                 && raw[..|head|] == head && raw[|head| + 4..] == body[..k - |head| - 4]
            else IndexOf(raw, BLANK_LINE) == None
  {
    var s := head + BLANK_LINE + body;
    assert s[..|head| + 4] == head + BLANK_LINE;
    IndexInPrefix(s, |head| + 4, BLANK_LINE);
    IndexInPrefix(s, k, BLANK_LINE);
    if |head| + 4 <= k {
      assert s[..k][..|head|] == head;
      assert s[..k][|head| + 4..] == body[..k - |head| - 4];
    }
  }

  lemma ExpectedOfPrefix(head: string, body: string, k: nat, n: nat)
    requires IsHead(head) && SizedHead(head, n) && k <= |head + BLANK_LINE + body|
    ensures var raw := (head + BLANK_LINE + body)[..k];
            && Expected(raw) == (if |head| + 4 <= k then |head| + 4 + n else 0)
            && !IsChunked(raw)
            && forall max ::
                 BodyOf(raw, max) == if |head| + 4 <= k then Body(Cut(body[..k - |head| - 4], n)) else NoBody
  {
    hide IndexOf, FindIn, ContentLength, MentionsChunked, IsHead;
    HeadOfPrefix(head, body, k);
  }

  /** With its head in the first MiB, a request of a declared length gives its exact
      body, whatever follows it and however it is cut into reads; with a longer head
      it gives none. */
  lemma SizedBody(head: string, body: string, rest: string, raw: string, left: string, maxBody: nat)
    requires IsHead(head) && SizedHead(head, |body|) && |head| + 4 + |body| <= LAST_CAP
    requires raw + left == head + BLANK_LINE + (body + rest) && Stopped(raw, left == [])
    ensures BodyOf(raw, maxBody) == if |head| + 4 <= FIRST_CAP then Body(body) else NoBody
  {
    hide IsHead, SizedHead, Expected, IsChunked, BodyOf;
    var k, s := |raw|, head + BLANK_LINE + (body + rest);
    assert raw == s[..k];
    ExpectedOfPrefix(head, body + rest, k, |body|);
    HeadOfPrefix(head, body + rest, k);
    if |head| + 4 <= k && |head| + 4 + |body| <= k {
      assert (body + rest)[..k - |head| - 4][..|body|] == body;
    }
  }

  /** Receiving a sized request, end to end: never refused when it fits max_req. */
  lemma ReceiveSized(head: string, body: string, rest: string, pace: seq<Step>, maxReq: nat)
    requires IsHead(head) && SizedHead(head, |body|)
    requires |head| + 4 + |body| <= LAST_CAP && |head| + 4 + |body| <= maxReq && NoFault(pace)
    ensures Received(head + BLANK_LINE + (body + rest), pace, maxReq)
         == if |head| + 4 <= FIRST_CAP then Body(body) else NoBody
  {
    hide IsHead, SizedHead, Stopped, SomePrefixExpects, BodyOf, ReadFrom, NoFault;
    var s := head + BLANK_LINE + (body + rest);
    ReadWhole(s, pace, maxReq);
    NeverRefused(head, body, rest, maxReq);
    var read := ReadFrom("", FIRST_CAP, s, pace, maxReq);
    if read.Raw? { SizedPrefix(head, body, rest, read.raw, maxReq); }
  }

  lemma SizedPrefix(head: string, body: string, rest: string, raw: string, maxReq: nat)
    requires IsHead(head) && SizedHead(head, |body|) && |head| + 4 + |body| <= LAST_CAP
    requires raw <= head + BLANK_LINE + (body + rest) && Stopped(raw, raw == head + BLANK_LINE + (body + rest))
    ensures BodyOf(raw, maxReq) == if |head| + 4 <= FIRST_CAP then Body(body) else NoBody
  {
    hide IsHead, SizedHead, Stopped, BodyOf;
    var left := (head + BLANK_LINE + (body + rest))[|raw|..];
    assert raw + left == head + BLANK_LINE + (body + rest);
    SizedBody(head, body, rest, raw, left, maxReq);
  }

  lemma NeverRefused(head: string, body: string, rest: string, maxReq: nat)
    requires IsHead(head) && SizedHead(head, |body|) && |head| + 4 + |body| <= maxReq
    ensures !SomePrefixExpects(head + BLANK_LINE + (body + rest), maxReq)
  {
    hide IsHead, SizedHead, Expected, IsChunked, BodyOf;
    var s := head + BLANK_LINE + (body + rest);
    forall k | 0 <= k <= |s| ensures Expected(s[..k]) <= maxReq {
      ExpectedOfPrefix(head, body + rest, k, |body|);
    }
  }

  // ---- The chunked coding

  /** One chunk on the wire: the size in hexadecimal, an extension, the data. */
  datatype Chunk = Chunk(size: string, ext: string, data: string)

  predicate WellFormed(c: Chunk) {
    && 0 < |c.size| <= HEX_BUF && (forall i | 0 <= i < |c.size| :: IsHex(c.size[i]))
    && HexValue(c.size) == |c.data| && 0 < |c.data| <= LONG_MAX
    && IsExtension(c.ext)
  }

  predicate IsExtension(ext: string) {
    ext == [] || (ext[0] == ';' && forall i | 0 <= i < |ext| :: !IsBreak(ext[i]))
  }

  function Wire(c: Chunk): string { c.size + c.ext + (CRLF + (c.data + CRLF)) }

  function Wires(cs: seq<Chunk>): string {
    if cs == [] then [] else Wire(cs[0]) + Wires(cs[1..])
  }

  function Data(cs: seq<Chunk>): string {
    if cs == [] then [] else cs[0].data + Data(cs[1..])
  }

  const END := "0\r\n"

  function Encoding(cs: seq<Chunk>): string { Wires(cs) + (END + CRLF) }

  lemma {:induction false} HexRunIs(d: string, rest: string)
    requires (forall i | 0 <= i < |d| :: IsHex(d[i])) && (rest == [] || !IsHex(rest[0]))
    ensures HexRun(d + rest) == d
  {
    if d == [] {
      assert d + rest == rest;
    } else {
      assert (d + rest)[1..] == d[1..] + rest;
      HexRunIs(d[1..], rest);
    }
  }

  /** The size that strtol reads off a size line, at most LONG_MAX. */
  function SizeRead(size: string): nat
    requires forall i | 0 <= i < |size| :: IsHex(size[i])
  {
    if HexValue(size) > LONG_MAX then LONG_MAX else HexValue(size)
  }

  /** strtol reads a size made of hexadecimal digits as its value, or as LONG_MAX. */
  lemma SizeIsRead(size: string, ext: string)
    requires 0 < |size| <= HEX_BUF && (forall i | 0 <= i < |size| :: IsHex(size[i])) && IsExtension(ext)
    ensures Strtol16(Cut(size + ext, HEX_BUF)) == SizeRead(size)
  {
    hide HexRun, HexValue, Strtol16;
    var rest := Cut(ext, HEX_BUF - |size|);
    CutInside(size, ext, HEX_BUF);
    var t := size + rest;
    assert t[0] == size[0];
    assert |t| > 1 ==> t[1] == (if |size| > 1 then size[1] else rest[0]);
    HexRunIs(size, rest);
    PlainNumber(t, size);
  }

  lemma CutInside(a: string, b: string, n: nat)
    requires |a| <= n
    ensures Cut(a + b, n) == a + Cut(b, n - |a|)
  {
  }

  lemma PlainNumber(t: string, d: string)
    requires t != [] && IsHex(t[0]) && (|t| > 1 ==> t[1] != 'x' && t[1] != 'X') && HexRun(t) == d
    ensures Strtol16(t) == Clamp(HexValue(d))
  {
    hide HexRun, HexValue;
  }

  lemma {:induction false} UpToBreakIs(line: string, rest: string)
    requires (forall i | 0 <= i < |line| :: !IsBreak(line[i])) && (rest == [] || IsBreak(rest[0]))
    ensures UpToBreak(line + rest) == line
  {
    if line == [] {
      assert line + rest == rest;
    } else {
      assert (line + rest)[1..] == line[1..] + rest;
      UpToBreakIs(line[1..], rest);
    }
  }

  /** A chunk of which `data`, the beginning of `after`, is there. */
  function Taken(decoded: string, data: string, after: string, max: nat): Body
    requires |data| <= |after|
  {
    if |decoded| + |data| > max then BodyTooLarge
    else DecodeFrom(SkipOne(SkipOne(after[|data|..], '\r'), '\n'), decoded + data, max)
  }

  /** The decoder at a size line: `after` is what follows it. */
  lemma DecodeLine(size: string, ext: string, after: string, decoded: string, max: nat)
    requires 0 < |size| <= HEX_BUF && (forall i | 0 <= i < |size| :: IsHex(size[i])) && IsExtension(ext)
    requires HexValue(size) > 0
    ensures DecodeFrom(size + ext + (CRLF + after), decoded, max)
         == if |decoded| + SizeRead(size) > HALF_WORD then NeverDone
            else Taken(decoded, Cut(after, SizeRead(size)), after, max)
  {
    hide HexValue, Strtol16, UpToBreak, HexRun, DecodeFrom;
    var line := size + ext;
    var p := line + (CRLF + after);
    assert p[0] == size[0];
    UpToBreakIs(line, CRLF + after);
    SizeIsRead(size, ext);
    AfterLine(line, after);
    DecodeStep(p, line, after, SizeRead(size), decoded, max);
  }

  lemma AfterLine(line: string, after: string)
    ensures AfterSizeLine(line + (CRLF + after), |line|) == Some(after)
  {
    var p := line + (CRLF + after);
    assert p[|line|] == '\r' && p[|line| + 1] == '\n' && p[|line| + 2..] == after;
  }

  lemma DecodeStep(p: string, line: string, after: string, size: nat, decoded: string, max: nat)
    requires p != [] && !IsBreak(p[0]) && UpToBreak(p) == line && AfterSizeLine(p, |line|) == Some(after)
    requires Strtol16(Cut(line, HEX_BUF)) == size > 0
    ensures DecodeFrom(p, decoded, max)
         == if |decoded| + size > HALF_WORD then NeverDone else Taken(decoded, Cut(after, size), after, max)
  {
    hide Strtol16, UpToBreak, AfterSizeLine, Cut, SkipOne;
  }

  /** The decoder's way through one chunk. */
  lemma DecodeOne(c: Chunk, more: string, decoded: string, max: nat)
    requires WellFormed(c) && |decoded| + |c.data| <= HALF_WORD
    ensures DecodeFrom(Wire(c) + more, decoded, max)
         == if |decoded| + |c.data| > max then BodyTooLarge else DecodeFrom(more, decoded + c.data, max)
  {
    hide HexValue, DecodeFrom, SkipOne;
    var after := c.data + (CRLF + more);
    DecodeLine(c.size, c.ext, after, decoded, max);
    assert Wire(c) + more == c.size + c.ext + (CRLF + after);
    assert Cut(after, |c.data|) == c.data;
    assert after[|c.data|..] == CRLF + more;
    AfterData(more);
  }

  lemma AfterData(more: string)
    ensures SkipOne(SkipOne(CRLF + more, '\r'), '\n') == more
  {
    var p := CRLF + more;
    assert p[1..] == ['\n'] + more && (['\n'] + more)[1..] == more;
  }

  lemma DecodeEnd(more: string, decoded: string, max: nat)
    ensures DecodeFrom(END + more, decoded, max) == Body(decoded)
  {
    hide HexValue;
    var p := END + more;
    assert p == "0" + (CRLF + more);
    UpToBreakIs("0", CRLF + more);
    SizeIsZero();
    hide Strtol16;
    assert SkipBreaks(p) == p;
    assert p[1] == '\r' && p[2] == '\n';
  }

  lemma SizeIsZero()
    ensures Strtol16(Cut("0", HEX_BUF)) == 0
  {
    assert HexRun("0") == "0" by { assert "0"[1..] == ""; }
    assert HexValue("0") == 0 by { assert "0"[..0] == ""; }
  }

  /** The decoder's way through any number of chunks, whatever follows them. */
  lemma {:induction false} DecodeChunksThen(cs: seq<Chunk>, more: string, decoded: string, max: nat)
    requires forall i | 0 <= i < |cs| :: WellFormed(cs[i])
    requires |decoded| <= max && |decoded| + |Data(cs)| <= HALF_WORD
    ensures DecodeFrom(Wires(cs) + more, decoded, max)
         == if |decoded| + |Data(cs)| > max then BodyTooLarge else DecodeFrom(more, decoded + Data(cs), max)
  {
    hide WellFormed, DecodeFrom, Wire;
    if cs == [] {
      assert Wires(cs) + more == more && decoded + Data(cs) == decoded;
    } else {
      var rest := Wires(cs[1..]) + more;
      assert Wires(cs) + more == Wire(cs[0]) + rest;
      DecodeOne(cs[0], rest, decoded, max);
      if |decoded| + |cs[0].data| <= max {
        DecodeChunksThen(cs[1..], more, decoded + cs[0].data, max);
        assert decoded + cs[0].data + Data(cs[1..]) == decoded + Data(cs);
      }
    }
  }

  /** Decoding undoes the coding, whatever follows the last-chunk line. */
  lemma DecodeOfEncoding(cs: seq<Chunk>, more: string, decoded: string, max: nat)
    requires forall i | 0 <= i < |cs| :: WellFormed(cs[i])
    requires |decoded| <= max && |decoded| + |Data(cs)| <= HALF_WORD
    ensures DecodeFrom(Wires(cs) + (END + more), decoded, max)
         == if |decoded| + |Data(cs)| > max then BodyTooLarge else Body(decoded + Data(cs))
  {
    hide WellFormed, DecodeFrom, Wires, Data;
    DecodeChunksThen(cs, END + more, decoded, max);
    DecodeEnd(more, decoded + Data(cs), max);
  }

  /** After any chunks, the size line that comes next decides: the loop that grows a
      buffer too small for it ends exactly when what is decoded and the declared size
      come to no more than 2^63, and else the decoder never comes back. */
  lemma StuckIffHuge(cs: seq<Chunk>, size: string, ext: string, after: string, max: nat, cap: nat)
    requires forall i | 0 <= i < |cs| :: WellFormed(cs[i])
    requires 0 < |size| <= HEX_BUF && (forall i | 0 <= i < |size| :: IsHex(size[i])) && IsExtension(ext)
    requires HexValue(size) > 0 && |Data(cs)| <= max && |Data(cs)| <= HALF_WORD
    requires IsCapacity(cap) && cap < |Data(cs)| + SizeRead(size)
    ensures GrowthEnds(cap, |Data(cs)| + SizeRead(size)) <==> |Data(cs)| + SizeRead(size) <= HALF_WORD
    ensures DecodeFrom(Wires(cs) + (size + ext + (CRLF + after)), "", max)
         == if !GrowthEnds(cap, |Data(cs)| + SizeRead(size)) then NeverDone
            else Taken(Data(cs), Cut(after, SizeRead(size)), after, max)
  {
    hide WellFormed, DecodeFrom, Wires, Data, HexValue, IsExtension, IsHex, IsCapacity, GrowthEnds, Cut, SkipOne;
    DecodeChunksThen(cs, size + ext + (CRLF + after), "", max);
    assert "" + Data(cs) == Data(cs);
    DecodeLine(size, ext, after, Data(cs), max);
    GrowthEndsIff(cap, |Data(cs)| + SizeRead(size));
  }

  lemma {:induction false} DataIsShort(cs: seq<Chunk>)
    ensures |Data(cs)| <= |Wires(cs)|
  {
    if cs != [] { DataIsShort(cs[1..]); }
  }

  lemma BodyOfChunked(raw: string, head: string, body: string, maxBody: nat)
    requires IndexOf(raw, BLANK_LINE) == Some(|head|) && raw[..|head|] == head && raw[|head| + 4..] == body
             && ChunkedHead(head)
    ensures IsChunked(raw) && Expected(raw) == 0 && BodyOf(raw, maxBody) == DecodeFrom(body, "", maxBody)
    ensures ChunksComplete(raw) <==> Contains(body, LAST_CHUNK)
  {
    hide IndexOf, FindIn, IsChunkedHead, DecodeFrom, Contains;
  }

  /** Reading goes on past any part of the body without CRLF 0 CRLF. */
  lemma LongEnough(head: string, body: string, part: string, k: nat, raw: string, atEnd: bool)
    requires IsHead(head) && ChunkedHead(head) && k <= |head + BLANK_LINE + body|
             && raw == (head + BLANK_LINE + body)[..k]
    requires part < body && !Contains(part, LAST_CHUNK) && |head| + 4 + |part| < FIRST_CAP
    requires Stopped(raw, atEnd) && (atEnd ==> k == |head + BLANK_LINE + body|)
    ensures k > |head| + 4 + |part|
  {
    hide IsHead, IsChunkedHead, FindIn, IndexOf, Contains, BodyOf;
    HeadOfPrefix(head, body, k);
    if |head| + 4 <= k {
      var got := body[..k - |head| - 4];
      BodyOfChunked(raw, head, got, 0);
      if |got| <= |part| {
        assert got == part[..|got|];
        NotInPrefix(part, |got|);
      }
    } else {
      NoHeadNoBody(raw);
    }
  }

  lemma NotInPrefix(s: string, k: nat)
    requires !Contains(s, LAST_CHUNK) && k <= |s|
    ensures !Contains(s[..k], LAST_CHUNK)
  {
    forall i ensures !OccursAt(s[..k], LAST_CHUNK, i) {
      if 0 <= i && i + 5 <= k {
        assert s[..k][i..i + 5] == s[i..i + 5];
        assert !OccursAt(s, LAST_CHUNK, i);
      }
    }
  }

  /** Without its last three bytes the coding does not hold the pattern. */
  lemma NotBeforeTheEnd(cs: seq<Chunk>)
    requires |Encoding(cs)| >= 7 && IndexOf(Encoding(cs), LAST_CHUNK) == Some(|Encoding(cs)| - 7)
    ensures !Contains(Encoding(cs)[..|Encoding(cs)| - 3], LAST_CHUNK)
  {
    hide Encoding;
    IndexInPrefix(Encoding(cs), |Encoding(cs)| - 3, LAST_CHUNK);
    NotContained(Encoding(cs)[..|Encoding(cs)| - 3]);
  }

  lemma NotContained(s: string)
    requires IndexOf(s, LAST_CHUNK) == None
    ensures !Contains(s, LAST_CHUNK)
  {
    hide IndexFrom;
  }

  lemma NoHeadNoBody(raw: string)
    requires IndexOf(raw, BLANK_LINE) == None
    ensures Expected(raw) == 0 && !IsChunked(raw)
  {
  }

  /** Receiving a chunked request, end to end: chunks of non-blank data whose coding
      first contains CRLF 0 CRLF at its last-chunk line come back concatenated, for
      every pace and whatever follows. */
  lemma ReceiveChunked(head: string, cs: seq<Chunk>, rest: string, pace: seq<Step>, maxReq: nat)
    requires IsHead(head) && ChunkedHead(head) && cs != [] && forall i | 0 <= i < |cs| :: WellFormed(cs[i])
    requires |head| + 4 + |Encoding(cs)| <= FIRST_CAP && NoFault(pace)
    requires IndexOf(Encoding(cs), LAST_CHUNK) == Some(|Encoding(cs)| - 7)
    ensures Received(head + BLANK_LINE + (Encoding(cs) + rest), pace, maxReq)
         == if |Data(cs)| > maxReq then BodyTooLarge else Body(Data(cs))
  {
    hide IsHead, ChunkedHead, WellFormed, Wires, Data, NoFault, IndexOf, Contains, Received, DecodeFrom;
    NotBeforeTheEnd(cs);
    var got := ReadsPast(head, Encoding(cs) + rest, Encoding(cs)[..|Encoding(cs)| - 3], pace, maxReq);
    var more := got[|Wires(cs)| + 3..];
    assert got == Wires(cs) + (END + more);
    DataIsShort(cs);
    DecodeOfEncoding(cs, more, "", maxReq);
    assert "" + Data(cs) == Data(cs);
  }

  /** Every reception goes past a part of the body without CRLF 0 CRLF. */
  lemma ReadsPast(head: string, body: string, part: string, pace: seq<Step>, maxReq: nat) returns (got: string)
    requires IsHead(head) && ChunkedHead(head) && NoFault(pace)
    requires part < body && !Contains(part, LAST_CHUNK) && |head| + 4 + |part| < FIRST_CAP
    ensures got <= body && |part| < |got|
    ensures Received(head + BLANK_LINE + body, pace, maxReq) == DecodeFrom(got, "", maxReq)
  {
    hide IsHead, ChunkedHead, Stopped, SomePrefixExpects, BodyOf, ReadFrom, NoFault, Contains, DecodeFrom;
    hide IsChunked, Expected, ChunksComplete, IndexOf;
    var stream := head + BLANK_LINE + body;
    ReadWhole(stream, pace, maxReq);
    NothingExpected(head, body, maxReq);
    var read := ReadFrom("", FIRST_CAP, stream, pace, maxReq);
    var k := |read.raw|;
    LongEnough(head, body, part, k, read.raw, read.raw == stream);
    HeadOfPrefix(head, body, k);
    got := body[..k - |head| - 4];
    BodyOfChunked(read.raw, head, got, maxReq);
  }

  lemma NothingExpected(head: string, body: string, maxReq: nat)
    requires IsHead(head) && ChunkedHead(head)
    ensures forall k | 0 <= k <= |head + BLANK_LINE + body| :: Expected((head + BLANK_LINE + body)[..k]) == 0
    ensures !SomePrefixExpects(head + BLANK_LINE + body, maxReq)
  {
    hide IsHead, IsChunkedHead, FindIn, Expected, IndexOf;
    var s := head + BLANK_LINE + body;
    forall k | 0 <= k <= |s| ensures Expected(s[..k]) == 0 {
      HeadOfPrefix(head, body, k);
      if |head| + 4 <= k {
        BodyOfChunked(s[..k], head, body[..k - |head| - 4], 0);
      } else {
        NoHeadNoBody(s[..k]);
      }
    }
  }

  // ---- Where the end is taken for something else

  /** A read that takes k bytes, if they are enough, is the only one. */
  lemma OneRead(stream: string, k: nat, maxReq: nat)
    requires 0 < k <= |stream| && k <= FIRST_CAP
    requires Expected(stream[..k]) <= maxReq && Enough(stream[..k])
    ensures ReadFrom("", FIRST_CAP, stream, [Move(k)], maxReq) == Raw(stream[..k])
  {
    var got := stream[..k];
    hide *;
    FirstRead(stream, k, maxReq);
    Judging(got, FIRST_CAP, stream[k..], [], maxReq);
  }

  lemma FirstRead(stream: string, k: nat, maxReq: nat)
    requires 0 < k <= |stream| && k <= FIRST_CAP
    ensures ReadFrom("", FIRST_CAP, stream, [Move(k)], maxReq)
            == Judged(stream[..k], FIRST_CAP, stream[k..], [], maxReq)
  {
    hide Judged, ReadFrom;
    assert stream[..k] + stream[k..] == stream && "" + stream[..k] == stream[..k];
    SomeBytes("", FIRST_CAP, stream[..k], stream[k..], [Move(k)], [], maxReq);
  }

  /** With a pace that ends the first read behind `got`, a prefix of the coding that
      holds the bytes looked for, got is what is decoded. */
  lemma StopsBehind(head: string, body: string, got: string, maxReq: nat)
    requires IsHead(head) && ChunkedHead(head) && got <= body && Contains(got, LAST_CHUNK)
    requires |head| + 4 + |got| <= FIRST_CAP
    ensures Received(head + BLANK_LINE + body, [Move(|head| + 4 + |got|)], maxReq) == DecodeFrom(got, "", maxReq)
  {
    hide IsHead, ChunkedHead, Contains, DecodeFrom, BodyOf, ReadFrom, IndexOf, IsChunked, Expected;
    var k, stream := |head| + 4 + |got|, head + BLANK_LINE + body;
    HeadOfPrefix(head, body, k);
    assert body[..k - |head| - 4] == got;
    BodyOfChunked(stream[..k], head, got, maxReq);
    OneRead(stream, k, maxReq);
  }

  /** Chunk data can hold the bytes that are looked for: if a read ends right behind
      them, reading stops there and the body is cut short. */
  lemma DataCanEndReading(head: string, c: Chunk, before: string, after: string, rest: string, maxReq: nat)
    requires IsHead(head) && ChunkedHead(head) && WellFormed(c)
    requires c.data == before + LAST_CHUNK + after && after != [] && |before| + 5 <= maxReq
    requires |head| + |c.size| + |c.ext| + |before| + 11 <= FIRST_CAP
    ensures var stream := head + BLANK_LINE + (Encoding([c]) + rest);
            var pace := [Move(|head| + |c.size| + |c.ext| + |before| + 11)];
            Received(stream, pace, maxReq) == Body(before + LAST_CHUNK) != Body(Data([c]))
  {
    hide IsHead, ChunkedHead, Contains, DecodeFrom, HexValue, Received;
    var line, part := c.size + c.ext, before + LAST_CHUNK;
    var got := line + (CRLF + part);
    EncodingOfOne(c);
    assert Encoding([c]) + rest == got + (after + CRLF + (END + CRLF) + rest);
    HoldsLastChunk(line + CRLF + before);
    assert got == line + CRLF + before + LAST_CHUNK;
    StopsBehind(head, Encoding([c]) + rest, got, maxReq);
    DecodeLine(c.size, c.ext, part, "", maxReq);
    assert part[|part|..] == [] && "" + part == part;
    DecodeNothing(part, maxReq);
  }

  lemma EncodingOfOne(c: Chunk)
    ensures Encoding([c]) == Wire(c) + (END + CRLF) && Data([c]) == c.data
  {
    hide Wire;
    assert [c][1..] == [];
    assert Wires([c]) == Wire(c) + Wires([]) && Data([c]) == c.data + Data([]);
  }

  lemma HoldsLastChunk(s: string)
    ensures Contains(s + LAST_CHUNK, LAST_CHUNK)
  {
    assert (s + LAST_CHUNK)[|s|..|s| + 5] == LAST_CHUNK;
    assert OccursAt(s + LAST_CHUNK, LAST_CHUNK, |s|);
  }

  lemma DecodeNothing(decoded: string, max: nat)
    ensures DecodeFrom([], decoded, max) == Body(decoded)
  {
  }

  /** A chunked request gives its data for every pace exactly when its coding first
      contains CRLF 0 CRLF at its last-chunk line. */
  lemma ReceivedForEveryPaceIff(head: string, cs: seq<Chunk>, rest: string, maxReq: nat)
    requires IsHead(head) && ChunkedHead(head) && cs != [] && forall i | 0 <= i < |cs| :: WellFormed(cs[i])
    requires |head| + 4 + |Encoding(cs)| <= FIRST_CAP && |Data(cs)| <= maxReq
    ensures (forall pace | NoFault(pace) ::
               Received(head + BLANK_LINE + (Encoding(cs) + rest), pace, maxReq) == Body(Data(cs)))
       <==> IndexOf(Encoding(cs), LAST_CHUNK) == Some(|Encoding(cs)| - 7)
  {
    hide IsHead, ChunkedHead, WellFormed, Data, Encoding, Received, IndexOf, NoFault, Contains;
    var stream := head + BLANK_LINE + (Encoding(cs) + rest);
    if IndexOf(Encoding(cs), LAST_CHUNK) == Some(|Encoding(cs)| - 7) {
      forall pace | NoFault(pace) ensures Received(stream, pace, maxReq) == Body(Data(cs)) {
        ReceiveChunked(head, cs, rest, pace, maxReq);
      }
    } else {
      var pace := StopsInLastLine(head, cs, rest, maxReq);
      assert NoFault(pace) && Received(stream, pace, maxReq) == NoBody;
    }
  }

  /** Else a read that ends inside the last-chunk line ends reading there, and the
      body is lost. */
  lemma StopsInLastLine(head: string, cs: seq<Chunk>, rest: string, maxReq: nat) returns (pace: seq<Step>)
    requires IsHead(head) && ChunkedHead(head) && cs != [] && forall i | 0 <= i < |cs| :: WellFormed(cs[i])
    requires |head| + 4 + |Encoding(cs)| <= FIRST_CAP && |Data(cs)| <= maxReq
    requires IndexOf(Encoding(cs), LAST_CHUNK) != Some(|Encoding(cs)| - 7)
    ensures NoFault(pace) && Received(head + BLANK_LINE + (Encoding(cs) + rest), pace, maxReq) == NoBody
  {
    hide IsHead, ChunkedHead, WellFormed, Data, Wires, Received, IndexOf, Contains, DecodeFrom;
    var got := Wires(cs) + "0\r";
    assert Encoding(cs) + rest == got + ("\n" + CRLF + rest);
    OccursEarlier(cs);
    StopsBehind(head, Encoding(cs) + rest, got, maxReq);
    DataIsShort(cs);
    DecodeChunksThen(cs, "0\r", "", maxReq);
    LineWithoutBreak("0", "" + Data(cs), maxReq);
    assert "0" + "\r" == "0\r";
    pace := [Move(|head| + 4 + |got|)];
  }

  lemma OccursEarlier(cs: seq<Chunk>)
    requires cs != [] && IndexOf(Encoding(cs), LAST_CHUNK) != Some(|Encoding(cs)| - 7)
    ensures Contains(Wires(cs) + "0\r", LAST_CHUNK)
  {
    hide Wires, IndexOf;
    LastLine(cs);
    var enc, got := Encoding(cs), Wires(cs) + "0\r";
    var i := IndexOf(enc, LAST_CHUNK).value;
    assert enc[..|got|] == got;
    assert got[i..i + 5] == enc[i..i + 5];
    assert OccursAt(got, LAST_CHUNK, i);
  }

  /** The last-chunk line and the break in front of it. */
  lemma LastLine(cs: seq<Chunk>)
    requires cs != []
    ensures |Encoding(cs)| >= 7 && OccursAt(Encoding(cs), LAST_CHUNK, |Encoding(cs)| - 7)
  {
    hide Wires;
    EndsInBreak(cs);
    var w := Wires(cs);
    assert Encoding(cs)[|w| - 2..|w| + 3] == w[|w| - 2..] + END;
  }

  lemma {:induction false} EndsInBreak(cs: seq<Chunk>)
    requires cs != []
    ensures |Wires(cs)| >= 2 && Wires(cs)[|Wires(cs)| - 2..] == CRLF
  {
    var w, rest := Wire(cs[0]), Wires(cs[1..]);
    assert w[|w| - 2..] == CRLF;
    if |cs| == 1 {
      assert w + rest == w;
    } else {
      EndsInBreak(cs[1..]);
      assert (w + rest)[|w + rest| - 2..] == rest[|rest| - 2..];
    }
  }

  /** What the size line needs: the decoded bytes in front of it and its size. */
  ghost predicate Huge(cs: seq<Chunk>, size: string)
    requires forall i | 0 <= i < |size| :: IsHex(size[i])
  {
    |Data(cs)| + SizeRead(size) > HALF_WORD
  }

  /** A request with a size line that leaves the decoder without an end leaves the
      reception without one for every pace exactly when CRLF 0 CRLF does not occur up to
      the end of that line. */
  lemma StuckForEveryPaceIff(head: string, cs: seq<Chunk>, size: string, ext: string, after: string, maxReq: nat)
    requires IsHead(head) && ChunkedHead(head) && forall i | 0 <= i < |cs| :: WellFormed(cs[i])
    requires 0 < |size| <= HEX_BUF && (forall i | 0 <= i < |size| :: IsHex(size[i])) && IsExtension(ext)
    requires Huge(cs, size) && |Data(cs)| <= maxReq
    requires |head| + 4 + |Wires(cs)| + |size| + |ext| + 2 <= FIRST_CAP
    ensures (forall pace | NoFault(pace) ::
               Received(head + BLANK_LINE + (Wires(cs) + (size + ext + (CRLF + after))), pace, maxReq) == NeverDone)
       <==> !Contains(Wires(cs) + (size + ext + "\r"), LAST_CHUNK)
  {
    hide *;
    var stream := head + BLANK_LINE + (Wires(cs) + (size + ext + (CRLF + after)));
    if Contains(Wires(cs) + (size + ext + "\r"), LAST_CHUNK) {
      var pace := StopsInSizeLine(head, cs, size, ext, after, maxReq);
      assert NoFault(pace) && Received(stream, pace, maxReq) == NoBody;
    } else {
      forall pace | NoFault(pace) ensures Received(stream, pace, maxReq) == NeverDone {
        StuckForPace(head, cs, size, ext, after, pace, maxReq);
      }
    }
  }

  /** A read that ends inside the size line ends reading there, and the body is lost. */
  lemma StopsInSizeLine(head: string, cs: seq<Chunk>, size: string, ext: string, after: string, maxReq: nat)
    returns (pace: seq<Step>)
    requires IsHead(head) && ChunkedHead(head) && forall i | 0 <= i < |cs| :: WellFormed(cs[i])
    requires 0 < |size| <= HEX_BUF && (forall i | 0 <= i < |size| :: IsHex(size[i])) && IsExtension(ext)
    requires |Data(cs)| <= maxReq && |head| + 4 + |Wires(cs)| + |size| + |ext| + 2 <= FIRST_CAP
    requires Contains(Wires(cs) + (size + ext + "\r"), LAST_CHUNK)
    ensures NoFault(pace)
    ensures Received(head + BLANK_LINE + (Wires(cs) + (size + ext + (CRLF + after))), pace, maxReq) == NoBody
  {
    hide *;
    var part := Wires(cs) + (size + ext + "\r");
    AroundBreak(Wires(cs), size + ext, after);
    LineLengths(cs, size, ext);
    StopsBehind(head, Wires(cs) + (size + ext + (CRLF + after)), part, maxReq);
    CutOffSize(cs, size, ext, maxReq);
    OnePace(|head| + 4 + |part|);
    pace := [Move(|head| + 4 + |part|)];
  }

  lemma OnePace(k: nat)
    ensures NoFault([Move(k)])
  {
  }

  /** A size line that is cut short gives no body. */
  lemma CutOffSize(cs: seq<Chunk>, size: string, ext: string, max: nat)
    requires forall i | 0 <= i < |cs| :: WellFormed(cs[i])
    requires 0 < |size| <= HEX_BUF && (forall i | 0 <= i < |size| :: IsHex(size[i])) && IsExtension(ext)
    requires |Data(cs)| <= max && |Wires(cs)| <= FIRST_CAP
    ensures DecodeFrom(Wires(cs) + (size + ext + "\r"), "", max) == NoBody
  {
    hide WellFormed, Wires, Data, DecodeFrom;
    DataIsShort(cs);
    DecodeChunksThen(cs, size + ext + "\r", "", max);
    LineWithoutBreak(size + ext, "" + Data(cs), max);
  }

  lemma LineWithoutBreak(line: string, decoded: string, max: nat)
    requires line != [] && forall i | 0 <= i < |line| :: !IsBreak(line[i])
    ensures DecodeFrom(line + "\r", decoded, max) == NoBody
  {
    var q := line + "\r";
    UpToBreakIs(line, "\r");
    hide UpToBreak, Strtol16;
    assert q[0] == line[0];
    assert SkipBreaks(q) == q;
  }

  lemma StuckForPace(head: string, cs: seq<Chunk>, size: string, ext: string, after: string, pace: seq<Step>,
      maxReq: nat)
    requires IsHead(head) && ChunkedHead(head) && forall i | 0 <= i < |cs| :: WellFormed(cs[i])
    requires 0 < |size| <= HEX_BUF && (forall i | 0 <= i < |size| :: IsHex(size[i])) && IsExtension(ext)
    requires Huge(cs, size) && |Data(cs)| <= maxReq && NoFault(pace)
    requires |head| + 4 + |Wires(cs)| + |size| + |ext| + 2 <= FIRST_CAP
    requires !Contains(Wires(cs) + (size + ext + "\r"), LAST_CHUNK)
    ensures Received(head + BLANK_LINE + (Wires(cs) + (size + ext + (CRLF + after))), pace, maxReq) == NeverDone
  {
    var part, body := Wires(cs) + (size + ext + "\r"), Wires(cs) + (size + ext + (CRLF + after));
    hide *;
    AroundBreak(Wires(cs), size + ext, after);
    LineLengths(cs, size, ext);
    var got := ReadsPast(head, body, part, pace, maxReq);
    var more := BehindLine(Wires(cs), size + ext, after, got);
    StuckDecoder(cs, size, ext, more, maxReq);
  }

  lemma AroundBreak(a: string, line: string, after: string)
    ensures a + (line + (CRLF + after)) == a + (line + "\r") + ("\n" + after)
    ensures a + (line + "\r") < a + (line + (CRLF + after))
  {
  }

  lemma LineLengths(cs: seq<Chunk>, size: string, ext: string)
    ensures |Wires(cs) + (size + ext + "\r")| == |Wires(cs)| + |size| + |ext| + 1
  {
    hide *;
  }

  lemma BehindLine(a: string, line: string, after: string, got: string) returns (more: string)
    requires got <= a + (line + (CRLF + after)) && |got| > |a + (line + "\r")|
    ensures got == a + (line + (CRLF + more))
  {
    more := after[..|got| - |a| - |line| - 2];
    assert a + (line + (CRLF + after)) == a + (line + (CRLF + more)) + after[|more|..];
  }

  lemma StuckDecoder(cs: seq<Chunk>, size: string, ext: string, more: string, max: nat)
    requires forall i | 0 <= i < |cs| :: WellFormed(cs[i])
    requires 0 < |size| <= HEX_BUF && (forall i | 0 <= i < |size| :: IsHex(size[i])) && IsExtension(ext)
    requires Huge(cs, size) && |Data(cs)| <= max && |Wires(cs)| <= FIRST_CAP
    ensures DecodeFrom(Wires(cs) + (size + ext + (CRLF + more)), "", max) == NeverDone
  {
    hide WellFormed, DecodeFrom, Wires, Data, HexValue, IsExtension, IsHex, IsCapacity, GrowthEnds, Taken;
    DataIsShort(cs);
    SmallestCapacity();
    StuckIffHuge(cs, size, ext, more, max, START);
  }

  /** The whole of a chunked request is recognised as such exactly when it has a chunk:
      the only line of an empty body has no line break in front, so reading goes on
      until the client closes. */
  lemma CompleteIffChunks(head: string, cs: seq<Chunk>)
    requires IsHead(head) && ChunkedHead(head)
    ensures Enough(head + BLANK_LINE + Encoding(cs)) <==> cs != []
  {
    hide IsHead, IsChunkedHead, FindIn, IndexOf, Contains, Encoding;
    var body := Encoding(cs);
    var raw := head + BLANK_LINE + body;
    assert raw[..|raw|] == raw && body[..|body|] == body;
    HeadOfPrefix(head, body, |raw|);
    BodyOfChunked(raw, head, body, 0);
    if cs == [] {
      ShortEnd();
    } else {
      LastLine(cs);
      Occurs(body, |body| - 7);
    }
  }

  lemma Occurs(s: string, i: nat)
    requires OccursAt(s, LAST_CHUNK, i)
    ensures Contains(s, LAST_CHUNK)
  {
  }

  lemma ShortEnd()
    ensures !Contains(Encoding([]), LAST_CHUNK)
  {
    var body := Encoding([]);
    assert body == "0\r\n\r\n";
    assert body[0..5][0] == '0';
  }
}
