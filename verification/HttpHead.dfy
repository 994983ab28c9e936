/** The head of an HTTP request as src/server.c reads it: header lookup, the
    Transfer-Encoding test and the Content-Length value. Bytes are chars and none
    of them is NUL. */
module HttpHead {
  import opened Texts
  import opened Printf

  const CRLF := "\r\n"
  const BLANK_LINE := "\r\n\r\n"
  const LONG_MAX := 0x7fff_ffff_ffff_ffff

  newtype long = x: int | -LONG_MAX - 1 <= x <= LONG_MAX

  predicate IsBlank(c: char) { c == ' ' || c == '\t' }
  predicate IsBreak(c: char) { c == '\r' || c == '\n' }
  function Lower(c: char): char { if 'A' <= c <= 'Z' then ((c as int) + 32) as char else c }

  /** strncasecmp(s, t, |t|) == 0 */
  predicate StartsLike(s: string, t: string) {
    |t| <= |s| && forall i | 0 <= i < |t| :: Lower(s[i]) == Lower(t[i])
  }

  function SkipBlanks(s: string): (t: string)
    ensures |t| <= |s|
  {
    if s != [] && IsBlank(s[0]) then SkipBlanks(s[1..]) else s
  }

  // ---- find_header_value

  predicate IsField(line: string, name: string) {
    |line| > |name| && StartsLike(line, name) && line[|name|] == ':'
  }

  function FieldValue(line: string, name: string): string
    requires IsField(line, name)
  {
    SkipBlanks(line[|name| + 1..])
  }

  function FirstLine(head: string): (line: string)
    ensures |line| <= |head|
  {
    match IndexOf(head, CRLF)
    case None => head
    case Some(i) => head[..i]
  }

  /** The head without its first line. */
  function OtherLines(head: string): (rest: string)
    requires head != []
    ensures |rest| < |head|
  {
    match IndexOf(head, CRLF)
    case None => []
    case Some(i) => head[i + 2..]
  }

  /** The value of the first field of that name in a head without its blank line. */
  function FindIn(head: string, name: string): Option<string>
    decreases |head|
  {
    if head == [] then None
    else if IsField(FirstLine(head), name) then Some(FieldValue(FirstLine(head), name))
    else FindIn(OtherLines(head), name)
  }

  function FindHeader(raw: string, name: string): Option<string> {
    match IndexOf(raw, BLANK_LINE)
    case None => None
    case Some(h) => FindIn(raw[..h], name)
  }

  method FindHeaderValue(raw: string, name: string) returns (value: Option<string>)
    ensures value == FindHeader(raw, name)
  {
    var end := IndexOf(raw, BLANK_LINE);
    if end.None? { return None; }
    var rest := raw[..end.value];
    while rest != []
      invariant FindIn(rest, name) == FindIn(raw[..end.value], name)
      decreases |rest|
    {
      var line := FirstLine(rest);
      if IsField(line, name) { return Some(FieldValue(line, name)); }
      rest := OtherLines(rest);
    }
    value := None;
  }

  // ---- A head given by its lines

  function Join(lines: seq<string>): string {
    if lines == [] then [] else if |lines| == 1 then lines[0] else lines[0] + CRLF + Join(lines[1..])
  }

  predicate PlainLine(line: string) { line != [] && forall i | 0 <= i < |line| :: !IsBreak(line[i]) }

  function FirstField(lines: seq<string>, name: string): Option<string> {
    if lines == [] then None
    else if IsField(lines[0], name) then Some(FieldValue(lines[0], name))
    else FirstField(lines[1..], name)
  }

  lemma NoBreakIn(line: string, rest: string)
    requires PlainLine(line) && (rest == [] || CRLF <= rest)
    ensures IndexOf(line + rest, CRLF) == if rest == [] then None else Some(|line|)
  {
    var s := line + rest;
    forall k | 0 <= k < |line| ensures !OccursAt(s, CRLF, k) {
      if k + 2 <= |s| { assert s[k..k + 2][0] == line[k]; }
    }
    if rest != [] {
      assert s[|line|..|line| + 2] == CRLF;
      IndexIs(s, CRLF, |line|);
    } else {
      IndexIsNone(s, CRLF);
    }
  }

  /** Lookup in a head made of lines finds the first line of that name. */
  lemma {:induction false} FindInLines(lines: seq<string>, name: string)
    requires forall i | 0 <= i < |lines| :: PlainLine(lines[i])
    ensures FindIn(Join(lines), name) == FirstField(lines, name)
  {
    hide IsField, PlainLine, FieldValue, IndexOf;
    if lines != [] {
      var rest := if |lines| == 1 then [] else CRLF + Join(lines[1..]);
      assert Join(lines) == lines[0] + rest;
      SplitFirst(lines[0], rest);
      if |lines| > 1 { assert (CRLF + Join(lines[1..]))[2..] == Join(lines[1..]); }
      FindInLines(lines[1..], name);
    }
  }

  lemma SplitFirst(line: string, rest: string)
    requires PlainLine(line) && (rest == [] || CRLF <= rest)
    ensures line + rest != [] && FirstLine(line + rest) == line
    ensures OtherLines(line + rest) == if rest == [] then [] else rest[2..]
  {
    NoBreakIn(line, rest);
    assert line + [] == line;
    if rest != [] {
      assert (line + rest)[..|line|] == line;
      assert (line + rest)[|line| + 2..] == rest[2..];
    }
  }

  // ---- is_chunked_request

  function UpToBreak(s: string): (t: string)
    ensures t <= s && forall i | 0 <= i < |t| :: !IsBreak(t[i])
  {
    if s == [] || IsBreak(s[0]) then [] else [s[0]] + UpToBreak(s[1..])
  }

  const CHUNKED := "chunked"

  predicate MentionsChunked(value: string) {
    exists i | 0 <= i <= |value| :: StartsLike(value[i..], CHUNKED)
  }

  predicate IsChunkedHead(value: Option<string>) { value.Some? && MentionsChunked(UpToBreak(value.value)) }

  predicate IsChunked(raw: string) { IsChunkedHead(FindHeader(raw, "Transfer-Encoding")) }

  method IsChunkedRequest(raw: string) returns (yes: bool)
    ensures yes == IsChunked(raw)
  {
    var te := FindHeaderValue(raw, "Transfer-Encoding");
    if te.None? { return false; }
    yes := FindChunked(UpToBreak(te.value));
  }

  method FindChunked(value: string) returns (yes: bool)
    ensures yes == MentionsChunked(value)
  {
    TooShortForChunked(value);
    hide StartsLike;
    var i := 0;
    while i + |CHUNKED| <= |value|
      invariant i <= |value| && forall k | 0 <= k < i :: !StartsLike(value[k..], CHUNKED)
    {
      if StartsLike(value[i..], CHUNKED) { return true; }
      i := i + 1;
    }
    yes := false;
  }

  lemma TooShortForChunked(value: string)
    ensures forall k | 0 <= k <= |value| < k + |CHUNKED| :: !StartsLike(value[k..], CHUNKED)
  {
  }

  // ---- parse_content_length_safe

  function DigitRun(s: string): (d: string)
    ensures d <= s && forall i | 0 <= i < |d| :: IsDigit(d[i])
  {
    if s == [] || !IsDigit(s[0]) then [] else [s[0]] + DigitRun(s[1..])
  }

  function DigitOf(c: char): (n: nat)
    requires IsDigit(c)
    ensures n < 10
  {
    c as int - '0' as int
  }

  /** The number a string of digits stands for. */
  function Value(d: string): nat
    requires forall i | 0 <= i < |d| :: IsDigit(d[i])
  {
    if d == [] then 0 else 10 * Value(d[..|d| - 1]) + DigitOf(d[|d| - 1])
  }

  /** The decimal value if the field is digits between blanks and the value is at
      most LONG_MAX, and -1 otherwise. */
  function ContentLength(field: string): (n: int)
    ensures -1 <= n <= LONG_MAX
  {
    var start := SkipBlanks(field);
    var digits := DigitRun(start);
    var rest := SkipBlanks(start[|digits|..]);
    if digits == [] || Value(digits) > LONG_MAX || (rest != [] && !IsBreak(rest[0])) then -1 else Value(digits)
  }

  lemma {:induction false} ValueGrows(d: string, k: nat)
    requires (forall i | 0 <= i < |d| :: IsDigit(d[i])) && k <= |d|
    ensures Value(d[..k]) <= Value(d)
  {
    if k < |d| {
      ValueGrows(d[..|d| - 1], k);
      assert d[..|d| - 1][..k] == d[..k];
    } else {
      assert d[..k] == d;
    }
  }

  lemma ValueSnoc(d: string, k: nat)
    requires (forall i | 0 <= i < |d| :: IsDigit(d[i])) && k < |d|
    ensures Value(d[..k + 1]) == 10 * Value(d[..k]) + DigitOf(d[k])
  {
    assert d[..k + 1][..k] == d[..k];
  }

  lemma {:induction false} RunEnds(s: string)
    ensures var d := DigitRun(s); |d| == |s| || !IsDigit(s[|d|])
  {
    if s != [] && IsDigit(s[0]) { RunEnds(s[1..]); }
  }

  /** The accumulator is a long: every operation on it stays within the type. */
  method ParseContentLength(field: string) returns (n: int)
    ensures n == ContentLength(field)
  {
    var val := SkipBlanks(field);
    if val == [] || val[0] == '-' || !IsDigit(val[0]) { return -1; }
    ghost var digits := DigitRun(val);
    RunEnds(val);
    var acc: long, i := 0, 0;
    while i < |val| && IsDigit(val[i])
      invariant 0 <= i <= |digits| && acc as int == Value(digits[..i])
    {
      ValueSnoc(digits, i);
      ValueGrows(digits, i + 1);
      if acc > 0x0ccc_cccc_cccc_cccc { return -1; }
      acc := acc * 10;
      var d := DigitOf(val[i]) as long;
      if acc < 0 || acc > 0x7fff_ffff_ffff_ffff - d { return -1; }
      acc := acc + d;
      i := i + 1;
    }
    assert digits[..i] == digits;
    var rest := SkipBlanks(val[i..]);
    if rest != [] && !IsBreak(rest[0]) { return -1; }
    n := acc as int;
  }

  lemma {:induction false} ValueOfDigits(n: nat)
    ensures forall i | 0 <= i < |Digits(n)| :: IsDigit(Digits(n)[i])
    ensures Digits(n) != [] && Value(Digits(n)) == n
  {
    if n >= 10 {
      ValueOfDigits(n / 10);
      var d := Digits(n);
      assert d[..|d| - 1] == Digits(n / 10);
    } else {
      var d := Digits(n);
      assert d[..|d| - 1] == [];
    }
  }

  lemma {:induction false} RunOfDigits(d: string)
    requires forall i | 0 <= i < |d| :: IsDigit(d[i])
    ensures DigitRun(d) == d
  {
    if d != [] { RunOfDigits(d[1..]); }
  }

  /** A printed length is read back exactly when it fits a long. */
  lemma PrintedLengthIff(n: nat)
    ensures ContentLength(Digits(n)) == n <==> n <= LONG_MAX
  {
    var d := Digits(n);
    ValueOfDigits(n);
    RunOfDigits(d);
    assert d[|d|..] == [];
  }
}
