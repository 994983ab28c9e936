/** Header fields in any spelling: what the head of a request declares, said of its
    lines byte by byte, and what arrives of the body it declares (section 5.1 of
    RFC 9110: field names are case-insensitive). */
module HeadLaws {
  import opened Texts
  import opened Printf
  import opened HttpHead
  import opened HttpRequest
  import opened HttpBodies
  import opened ByteStreams

  // ---- Spelling

  /** The same byte, or the same letter of the alphabet in the other case. */
  predicate SameLetter(a: char, b: char) {
    a == b || ('A' <= a <= 'Z' && b as int == a as int + 32) || ('A' <= b <= 'Z' && a as int == b as int + 32)
  }

  predicate SameSpelling(s: string, t: string) {
    |s| == |t| && forall i | 0 <= i < |s| :: SameLetter(s[i], t[i])
  }

  /** The line is a field of that name. */
  predicate Named(line: string, name: string) {
    |line| > |name| && SameSpelling(line[..|name|], name) && line[|name|] == ':'
  }

  lemma LowerIsSameLetter(a: char, b: char)
    ensures Lower(a) == Lower(b) <==> SameLetter(a, b)
  {
  }

  lemma StartsLikeIff(s: string, t: string)
    ensures StartsLike(s, t) <==> |t| <= |s| && SameSpelling(s[..|t|], t)
  {
    hide Lower, SameLetter;
    forall i | 0 <= i < |t| <= |s| ensures Lower(s[i]) == Lower(t[i]) <==> SameLetter(s[..|t|][i], t[i]) {
      LowerIsSameLetter(s[i], t[i]);
    }
  }

  /** A line is a field of a name exactly if it begins with the name in any spelling
      and a colon. */
  lemma IsFieldIff(line: string, name: string)
    ensures IsField(line, name) <==> Named(line, name)
  {
    hide StartsLike, SameSpelling;
    StartsLikeIff(line, name);
  }

  /** "chunked" in any spelling. */
  predicate SaysAt(s: string, i: int) { 0 <= i <= |s| - 7 && SameSpelling(s[i..i + 7], "chunked") }
  ghost predicate SaysChunked(s: string) { exists i :: SaysAt(s, i) }

  lemma SaysAtIff(s: string, i: nat)
    requires i <= |s|
    ensures StartsLike(s[i..], CHUNKED) <==> SaysAt(s, i)
  {
    hide StartsLike, SameSpelling;
    StartsLikeIff(s[i..], CHUNKED);
    if i + 7 <= |s| { assert s[i..][..7] == s[i..i + 7]; }
  }

  lemma MentionsChunkedIff(s: string)
    ensures MentionsChunked(s) <==> SaysChunked(s)
  {
    hide StartsLike, SaysAt;
    forall i: nat | i <= |s| ensures StartsLike(s[i..], CHUNKED) <==> SaysAt(s, i) {
      SaysAtIff(s, i);
    }
    if SaysChunked(s) {
      var i :| SaysAt(s, i);
      SaysInside(s, i);
      assert StartsLike(s[i..], CHUNKED);
    }
  }

  lemma SaysInside(s: string, i: int)
    requires SaysAt(s, i)
    ensures 0 <= i <= |s|
  {
  }

  // ---- Fields of a head made of lines

  predicate Blanks(ws: string) { forall i | 0 <= i < |ws| :: ws[i] == ' ' || ws[i] == '\t' }

  lemma {:induction false} SkipBlanksOf(ws: string, s: string)
    requires Blanks(ws) && (s == [] || (s[0] != ' ' && s[0] != '\t'))
    ensures SkipBlanks(ws + s) == s
  {
    if ws == [] {
      assert ws + s == s;
    } else {
      assert (ws + s)[1..] == ws[1..] + s;
      SkipBlanksOf(ws[1..], s);
    }
  }

  lemma {:induction false} SkippedBlanks(s: string) returns (ws: string)
    ensures Blanks(ws) && s == ws + SkipBlanks(s)
  {
    ws := [];
    if s != [] && (s[0] == ' ' || s[0] == '\t') {
      ws := SkippedBlanks(s[1..]);
      ws := [s[0]] + ws;
      assert s == [s[0]] + s[1..];
    }
  }

  /** Line k is the first field of that name. */
  ghost predicate FirstNamed(lines: seq<string>, name: string, k: nat) {
    k < |lines| && Named(lines[k], name) && forall i | 0 <= i < k :: !Named(lines[i], name)
  }

  lemma {:induction false} FirstFieldIs(lines: seq<string>, name: string, k: nat)
    requires FirstNamed(lines, name, k)
    ensures IsField(lines[k], name) && FirstField(lines, name) == Some(FieldValue(lines[k], name))
  {
    hide Named, IsField, FieldValue;
    IsFieldIff(lines[0], name);
    if k > 0 {
      assert !Named(lines[0], name);
      forall i | 0 <= i < k - 1 ensures !Named(lines[1..][i], name) {
        assert !Named(lines[i + 1], name);
      }
      FirstFieldIs(lines[1..], name, k - 1);
    }
  }

  lemma {:induction false} NoFirstField(lines: seq<string>, name: string)
    requires forall i | 0 <= i < |lines| :: !Named(lines[i], name)
    ensures FirstField(lines, name) == None
  {
    hide Named, IsField, FieldValue;
    if lines != [] {
      IsFieldIff(lines[0], name);
      NoFirstField(lines[1..], name);
    }
  }

  lemma {:induction false} FindFirst(lines: seq<string>, name: string) returns (k: nat)
    ensures k <= |lines| && forall i | 0 <= i < k :: !Named(lines[i], name)
    ensures k < |lines| ==> FirstNamed(lines, name, k)
  {
    k := 0;
    while k < |lines| && !Named(lines[k], name)
      invariant k <= |lines| && forall i | 0 <= i < k :: !Named(lines[i], name)
    {
      k := k + 1;
    }
  }

  lemma {:induction false} NoBreakToCut(s: string)
    requires forall i | 0 <= i < |s| :: !IsBreak(s[i])
    ensures UpToBreak(s) == s
  {
    if s != [] { NoBreakToCut(s[1..]); }
  }

  /** The first Transfer-Encoding line, in any spelling, says chunked behind its colon. */
  ghost predicate SaysItIsChunked(lines: seq<string>) {
    exists k: nat :: FirstNamed(lines, "Transfer-Encoding", k) && SaysChunked(lines[k][18..])
  }

  /** The head declares the chunked coding exactly if its first Transfer-Encoding line,
      in any spelling, says chunked, in any spelling, behind its colon. */
  lemma ChunkedHeadIff(lines: seq<string>)
    requires lines != [] && forall i | 0 <= i < |lines| :: PlainLine(lines[i])
    ensures ChunkedHead(Join(lines)) <==> SaysItIsChunked(lines)
  {
    FindInLines(lines, "Transfer-Encoding");
    var k := FindFirst(lines, "Transfer-Encoding");
    hide *;
    if k < |lines| {
      FirstFieldIs(lines, "Transfer-Encoding", k);
      SaidBehindColon(lines[k]);
      SaidByFirst(lines, k);
    } else {
      NoFirstField(lines, "Transfer-Encoding");
      SaidByNone(lines);
    }
    HeadByField(Join(lines));
  }

  lemma HeadByField(head: string)
    ensures ChunkedHead(head) <==> IsChunkedHead(FindIn(head, "Transfer-Encoding"))
    ensures !IsChunkedHead(None)
  {
    hide FindIn;
  }

  lemma SaidByFirst(lines: seq<string>, k: nat)
    requires FirstNamed(lines, "Transfer-Encoding", k)
    ensures |lines[k]| >= 18
    ensures SaysItIsChunked(lines) <==> SaysChunked(lines[k][18..])
  {
    hide SaysChunked, SameSpelling;
    if SaysItIsChunked(lines) {
      var j: nat :| FirstNamed(lines, "Transfer-Encoding", j) && SaysChunked(lines[j][18..]);
      OneFirst(lines, "Transfer-Encoding", j, k);
    }
  }

  lemma SaidByNone(lines: seq<string>)
    requires forall i | 0 <= i < |lines| :: !Named(lines[i], "Transfer-Encoding")
    ensures !SaysItIsChunked(lines)
  {
    hide SaysChunked, Named;
  }

  lemma OneFirst(lines: seq<string>, name: string, j: nat, k: nat)
    requires FirstNamed(lines, name, j) && FirstNamed(lines, name, k)
    ensures j == k
  {
    hide Named;
  }

  lemma SaidBehindColon(line: string)
    requires PlainLine(line) && IsField(line, "Transfer-Encoding")
    ensures IsChunkedHead(Some(FieldValue(line, "Transfer-Encoding"))) <==> SaysChunked(line[18..])
  {
    hide SaysChunked, MentionsChunked, SkipBlanks;
    var value := FieldValue(line, "Transfer-Encoding");
    var ws := SkippedBlanks(line[18..]);
    assert forall i | 0 <= i < |value| :: value[i] == line[18 + |ws| + i];
    NoBreakToCut(value);
    MentionsChunkedIff(value);
    SaysAfterBlanks(ws, value);
  }

  lemma SaysAfterBlanks(ws: string, s: string)
    requires Blanks(ws)
    ensures SaysChunked(ws + s) <==> SaysChunked(s)
  {
    hide SaysAt;
    forall i ensures SaysAt(ws + s, i) <==> SaysAt(s, i - |ws|) {
      SaysBehind(ws, s, i);
    }
    if i :| SaysAt(s, i) { assert SaysAt(ws + s, i + |ws|); }
  }

  lemma SaysBehind(ws: string, s: string, i: int)
    requires Blanks(ws)
    ensures SaysAt(ws + s, i) <==> SaysAt(s, i - |ws|)
  {
    var both := ws + s;
    if 0 <= i <= |both| - 7 {
      if i < |ws| {
        assert both[i..i + 7][0] == ws[i];
      } else {
        assert both[i..i + 7] == s[i - |ws|..i - |ws| + 7];
      }
    }
  }

  // ---- Content-Length

  lemma {:induction false} DigitRunOf(d: string, rest: string)
    requires (forall i | 0 <= i < |d| :: IsDigit(d[i])) && (rest == [] || !IsDigit(rest[0]))
    ensures DigitRun(d + rest) == d
  {
    if d == [] {
      assert d + rest == rest;
    } else {
      assert (d + rest)[1..] == d[1..] + rest;
      DigitRunOf(d[1..], rest);
    }
  }

  /** A printed length between blanks is read back exactly when it fits a long. */
  lemma LengthBetweenBlanks(ws: string, n: nat, after: string)
    requires Blanks(ws) && Blanks(after)
    ensures ContentLength(ws + (Digits(n) + after)) == n <==> n <= LONG_MAX
  {
    var d := Digits(n);
    ValueOfDigits(n);
    SkipBlanksOf(ws, d + after);
    DigitRunOf(d, after);
    assert (d + after)[|d|..] == after && after + [] == after;
    SkipBlanksOf(after, []);
  }

  /** The head declares n bytes if its first Content-Length line, in any spelling, has
      the decimal of n between blanks behind its colon, and it is not chunked. */
  lemma SizedHeadOf(lines: seq<string>, k: nat, ws: string, n: nat, after: string)
    requires lines != [] && forall i | 0 <= i < |lines| :: PlainLine(lines[i])
    requires FirstNamed(lines, "Content-Length", k) && lines[k][15..] == ws + (Digits(n) + after)
    requires Blanks(ws) && Blanks(after) && n <= LONG_MAX
    requires !SaysItIsChunked(lines)
    ensures SizedHead(Join(lines), n)
  {
    ChunkedHeadIff(lines);
    FindInLines(lines, "Content-Length");
    FirstFieldIs(lines, "Content-Length", k);
    hide FirstNamed, SaysItIsChunked, FindIn, ContentLength, Digits, ChunkedHead, SkipBlanks, FirstField;
    var value := FieldValue(lines[k], "Content-Length");
    NumberFollows(ws, n, after);
    assert value == Digits(n) + after;
    LengthBetweenBlanks([], n, after);
    assert [] + (Digits(n) + after) == Digits(n) + after;
  }

  lemma NumberFollows(ws: string, n: nat, after: string)
    requires Blanks(ws)
    ensures SkipBlanks(ws + (Digits(n) + after)) == Digits(n) + after
  {
    ValueOfDigits(n);
    SkipBlanksOf(ws, Digits(n) + after);
  }

  // ---- What arrives

  /** A request of a declared length, its fields spelled in any way: exactly its body
      arrives, for every pace and whatever follows. */
  lemma SizedRequestArrives(lines: seq<string>, k: nat, ws: string, after: string, body: string, rest: string,
      pace: seq<Step>, maxReq: nat)
    requires lines != [] && forall i | 0 <= i < |lines| :: PlainLine(lines[i])
    requires FirstNamed(lines, "Content-Length", k) && lines[k][15..] == ws + (Digits(|body|) + after)
    requires Blanks(ws) && Blanks(after)
    requires !SaysItIsChunked(lines)
    requires |Join(lines)| + 4 <= FIRST_CAP && |Join(lines)| + 4 + |body| <= LAST_CAP
    requires |Join(lines)| + 4 + |body| <= maxReq && NoFault(pace)
    ensures Received(Join(lines) + BLANK_LINE + (body + rest), pace, maxReq) == Body(body)
  {
    hide PlainLine, FirstNamed, SaysItIsChunked, Join, Received, SizedHead, IsHead, FindIn, FirstField, Digits;
    SizedHeadOf(lines, k, ws, |body|, after);
    LinesMakeAHead(lines, "Content-Length");
    ReceiveSized(Join(lines), body, rest, pace, maxReq);
  }

  /** A chunked request, its fields spelled in any way: the concatenated chunks arrive. */
  lemma ChunkedRequestArrives(lines: seq<string>, k: nat, cs: seq<Chunk>, rest: string, pace: seq<Step>, maxReq: nat)
    requires lines != [] && forall i | 0 <= i < |lines| :: PlainLine(lines[i])
    requires FirstNamed(lines, "Transfer-Encoding", k) && |lines[k]| >= 18 && SaysChunked(lines[k][18..])
    requires cs != [] && forall i | 0 <= i < |cs| :: WellFormed(cs[i])
    requires |Join(lines)| + 4 + |Encoding(cs)| <= FIRST_CAP && |Data(cs)| <= maxReq && NoFault(pace)
    requires IndexOf(Encoding(cs), LAST_CHUNK) == Some(|Encoding(cs)| - 7)
    ensures Received(Join(lines) + BLANK_LINE + (Encoding(cs) + rest), pace, maxReq) == Body(Data(cs))
  {
    hide PlainLine, FirstNamed, SaysChunked, Join, Received, ChunkedHead, IsHead, FindIn, FirstField, WellFormed;
    hide Encoding, Data, IndexOf, NoFault;
    ChunkedHeadIff(lines);
    SaidByFirst(lines, k);
    LinesMakeAHead(lines, "Transfer-Encoding");
    ReceiveChunked(Join(lines), cs, rest, pace, maxReq);
  }
}
