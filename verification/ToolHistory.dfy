/** The bounded tool history of src/tool_history.c: a list of parsed entries with
    a drop counter, and the raw text kept beside it. */
module ToolHistory {
  import opened Printf
  import opened Buffers
  import opened Texts

  const RAW_MAX := 2048
  const MAX_HISTORY_ENTRIES := 64
  const SHOWN_MAX := 12

  datatype Status = Ok | Error
  datatype Entry = Entry(tool: string, args: string, status: Status)

  // ---- Texts

  /** The position of the first space, |s| if there is none. */
  function SpaceAt(s: string): (i: nat)
    ensures i <= |s|
  {
    if s == [] || s[0] == ' ' then 0 else 1 + SpaceAt(s[1..])
  }

  /** The entry a line stands for; a line without a space in its first 1023 bytes
      stands for none. */
  function EntryOf(line: string): Option<Entry> {
    var tmp := Cut(line, 1023);
    var i := SpaceAt(tmp);
    if i == |tmp| then None else Some(EntryFrom(tmp[i + 1..], StatusIn(line)))
  }

  /** The tool up to the next space, and the arguments behind it. */
  function EntryFrom(rest: string, status: Status): Entry {
    var j := SpaceAt(rest);
    Entry(Cut(rest[..j], 63), if j == |rest| then [] else Cut(rest[j + 1..], 255), status)
  }

  function StatusIn(line: string): Status { if Contains(line, "TOOL_ERROR") then Error else Ok }

  /** Lines too long for the raw buffer are never parsed. */
  predicate Oversize(line: string) { |line| + 1 >= RAW_MAX }

  function Limit(configured: int): (n: nat)
    ensures 1 <= n <= MAX_HISTORY_ENTRIES
  {
    if configured <= 0 then 20 else if configured > MAX_HISTORY_ENTRIES then MAX_HISTORY_ENTRIES else configured
  }

  // ---- What the history should hold after some lines

  /** The entries of all lines that have one. */
  function Recorded(lines: seq<string>): seq<Entry> {
    if lines == [] then []
    else Recorded(lines[..|lines| - 1]) + EntriesOf(lines[|lines| - 1])
  }

  function EntriesOf(line: string): seq<Entry> {
    if Oversize(line) || EntryOf(line).None? then [] else [EntryOf(line).value]
  }

  /** The text since the last oversize line, of which only the first 2047 bytes
      are ever kept. */
  function TextSince(lines: seq<string>): string {
    if lines == [] then []
    else
      var line := lines[|lines| - 1];
      if Oversize(line) then line[..RAW_MAX - 1] else TextSince(lines[..|lines| - 1]) + line
  }

  lemma {:induction false} TextSinceOfShortLines(lines: seq<string>)
    requires forall i | 0 <= i < |lines| :: !Oversize(lines[i])
    ensures TextSince(lines) == Concat(lines)
  {
    if lines != [] {
      TextSinceOfShortLines(lines[..|lines| - 1]);
    }
  }

  lemma TextSinceSnoc(lines: seq<string>, line: string)
    ensures TextSince(lines + [line]) == if Oversize(line) then line[..RAW_MAX - 1] else TextSince(lines) + line
    ensures Recorded(lines + [line]) == Recorded(lines) + EntriesOf(line)
  {
    assert (lines + [line])[..|lines|] == lines;
  }

  lemma LastOfSum(s: string, t: string)
    requires |s| < RAW_MAX && |t| < RAW_MAX - 1
    ensures |s| + |t| < RAW_MAX ==> Last(s + t, RAW_MAX - 1) == s + t
    ensures |s| + |t| >= RAW_MAX - 1 ==> Last(s + t, RAW_MAX - 1) == s[|s| + |t| + 1 - RAW_MAX..] + t
  {
  }

  lemma LastOfFew(s: string)
    requires |s| < RAW_MAX
    ensures Last(s, RAW_MAX - 1) == s
  {
  }

  lemma DropThenStore<T>(recorded: seq<T>, dropped: nat, e: T, k: nat)
    requires dropped <= |recorded| && k <= |recorded| - dropped + 1
    ensures (recorded[dropped..] + [e])[k..] == (recorded + [e])[dropped + k..]
  {
  }

  // ---- The store

  class History {
    const entries: array<Entry>
    var count: nat
    var limit: nat
    var dropped: nat
    const raw: array<char>
    var rawLength: nat

    // The lines appended since the last reset.
    ghost var Lines: seq<string>

    ghost predicate Valid()
      reads this, entries, raw
    {
      Sizes() && EntriesMatch(Recorded(Lines)) && RawMatches(TextSince(Lines))
    }

    /** Stored plus dropped is everything recorded, and the newest is stored. */
    ghost predicate EntriesMatch(recorded: seq<Entry>)
      requires count <= entries.Length
      reads this`count, this`dropped, entries
    {
      |recorded| == dropped + count && entries[..count] == recorded[dropped..]
    }

    ghost predicate RawMatches(text: string)
      requires rawLength < raw.Length
      reads this`rawLength, raw
    {
      raw[..rawLength] == Last(text, RAW_MAX - 1) && raw[rawLength] == '\0'
    }

    ghost predicate Sizes()
      reads this
    {
      && entries.Length == MAX_HISTORY_ENTRIES && raw.Length == RAW_MAX
      && 1 <= limit <= MAX_HISTORY_ENTRIES && count <= MAX_HISTORY_ENTRIES && rawLength < RAW_MAX
    }

    constructor ()
      ensures Valid() && fresh(entries) && fresh(raw) && Lines == [] && limit == 20
    {
      entries := new Entry[MAX_HISTORY_ENTRIES](_ => Entry([], [], Ok));
      raw := new char[RAW_MAX](_ => '\0');
      count, limit, dropped, rawLength := 0, 20, 0, 0;
      Lines := [];
    }

    /** tool_history_reset; the limit stays. */
    method Reset()
      requires Valid()
      modifies this, raw
      ensures Valid() && Lines == [] && limit == old(limit)
    {
      count, dropped, rawLength := 0, 0, 0;
      raw[0] := '\0';
      Lines := [];
    }

    /** tool_history_append, under whatever limit is configured at the time. Only
        a line that is recorded brings the store down to that limit. */
    method Append(line: string, configured: int)
      requires Valid()
      modifies this, entries, raw
      ensures Valid() && Lines == if line == [] then old(Lines) else old(Lines) + [line]
      ensures limit == if line == [] || Oversize(line) then old(limit) else Limit(configured)
      ensures line != [] && EntriesOf(line) != [] ==> count == if old(count) >= limit then limit else old(count) + 1
      ensures line == [] || EntriesOf(line) == [] ==> count == old(count) && dropped == old(dropped)
    {
      hide EntryOf, Recorded, TextSince, EntriesMatch, RawMatches;
      if line == [] { return; }
      TextSinceSnoc(Lines, line);
      assert Recorded(Lines) + [] == Recorded(Lines);
      RecordRaw(line);
      if Oversize(line) {
        Lines := Lines + [line];
        return;
      }
      limit := Limit(configured);
      var e := EntryOf(line);
      if e.None? {
        Lines := Lines + [line];
        return;
      }
      Record(e.value, Recorded(Lines));
      Lines := Lines + [line];
    }

    /** The two halves, with what they stand for. */
    method RecordRaw(line: string)
      requires Sizes() && RawMatches(TextSince(Lines))
      modifies this`rawLength, raw
      ensures rawLength < RAW_MAX && RawMatches(TextSince(Lines + [line]))
    {
      hide Last, TextSince;
      TextSinceSnoc(Lines, line);
      LastOfLast(TextSince(Lines), line, RAW_MAX - 1);
      LastOfFew(line[..if Oversize(line) then RAW_MAX - 1 else 0]);
      AppendRaw(line);
    }

    method Record(e: Entry, ghost recorded: seq<Entry>)
      requires Sizes() && EntriesMatch(recorded)
      modifies this`count, this`dropped, entries
      ensures count == if old(count) >= limit then limit else old(count) + 1
      ensures count <= MAX_HISTORY_ENTRIES && EntriesMatch(recorded + [e])
    {
      StoreEntry(e);
      DropThenStore(recorded, old(dropped), e, dropped - old(dropped));
    }

    /** The raw half: an oversize line replaces the text by its beginning, any
        other is appended and pushes out what no longer fits. */
    method AppendRaw(line: string)
      requires Sizes()
      modifies this`rawLength, raw
      ensures rawLength < RAW_MAX && raw[rawLength] == '\0'
      ensures raw[..rawLength] == if Oversize(line) then line[..RAW_MAX - 1]
                                  else Last(old(raw[..rawLength]) + line, RAW_MAX - 1)
    {
      hide Last;
      ghost var was := raw[..rawLength];
      if !Oversize(line) { LastOfSum(was, line); }
      if |line| + 1 >= RAW_MAX {
        Put(raw, 0, line[..RAW_MAX - 1]);
        EndRaw(RAW_MAX - 1);
        return;
      }
      MakeRoom(|line|);
      Put(raw, rawLength, line);
      EndRaw(rawLength + |line|);
    }

    /** Pushing out what no longer fits in front of n more bytes. */
    method MakeRoom(n: nat)
      requires Sizes() && n + 1 < RAW_MAX
      modifies this`rawLength, raw
      ensures rawLength + n < RAW_MAX
      ensures raw[..rawLength]
           == if old(rawLength) + n + 1 >= RAW_MAX then old(raw[..rawLength])[old(rawLength) + n + 1 - RAW_MAX..]
              else old(raw[..rawLength])
    {
      if rawLength + n + 1 >= RAW_MAX {
        var drop := rawLength + n + 1 - RAW_MAX;
        if drop >= rawLength {
          // The source empties the buffer here; a line this short never gets it there.
          assert false;
        } else {
          MoveDown(raw, drop, rawLength - drop);
          rawLength := rawLength - drop;
        }
      }
    }

    /** The NUL behind the text. */
    method EndRaw(n: nat)
      requires n < raw.Length
      modifies this`rawLength, raw
      ensures rawLength == n && raw[n] == '\0' && raw[..n] == old(raw[..n])
    {
      rawLength := n;
      raw[n] := '\0';
    }

    /** Evicting the oldest entries and adding one. */
    method StoreEntry(e: Entry)
      requires Sizes()
      modifies this`count, this`dropped, entries
      ensures dropped >= old(dropped) && count + dropped == old(count + dropped) + 1
      ensures count == if old(count) >= limit then limit else old(count) + 1
      ensures entries[..count] == (old(entries[..count]) + [e])[dropped - old(dropped)..]
    {
      ghost var was := entries[..count];
      if count >= limit {
        var evict := count - limit + 1;
        MoveDown(entries, evict, count - evict);
        count := count - evict;
        dropped := dropped + evict;
      }
      Put(entries, count, [e]);
      count := count + 1;
    }

    /** tool_history_build_json: the newest entries, until one finds the text too
        close to the end of its buffer. */
    method BuildJson() returns (json: string, shown: nat)
      requires Valid() && dropped + count <= INT_MAX
      ensures StopsAt(|Header(ReportedDropped(), count)|, TextsOf(NewestFew(entries[..count])),
                     1024 * limit + 512, shown)
      ensures json == Header(ReportedDropped(), count) + Join(TextsOf(NewestFew(entries[..count]))[..shown]) + "]"
    {
      hide EntryText, Recorded, TextSince, Last, Header, Join, EntriesMatch, RawMatches, NewestFew, TextsOf;
      var alloc := limit * 1024 + 512;
      var start := if count > SHOWN_MAX then count - SHOWN_MAX else 0;
      json := Header(dropped + start, count);
      ghost var header, texts := json, TextsOf(NewestFew(entries[..count]));
      shown := 0;
      var i := start;
      FewFrom(entries[..count], start);
      JoinStart(header, texts);
      while i < count && |json| + 512 < alloc
        invariant start <= i <= count && shown == i - start
        invariant json == header + Join(texts[..shown])
        invariant forall k: nat | k < shown :: HasRoom(|header|, texts, alloc, k)
      {
        JoinSnoc(header, texts, shown);
        if i > start { json := json + ","; }
        var entry := ShowEntry(entries[i]);
        json := json + entry;
        i, shown := i + 1, shown + 1;
      }
      json := json + "]";
    }

    /** The number of dropped entries the text reports. */
    ghost function ReportedDropped(): nat
      reads this
    {
      dropped + (if count > SHOWN_MAX then count - SHOWN_MAX else 0)
    }

    /** The view has room for its last entry, behind the header and the others. */
    ghost predicate ViewFits()
      requires Sizes()
      reads this, entries
    {
      var texts := TextsOf(NewestFew(entries[..count]));
      texts == [] || HasRoom(|Header(ReportedDropped(), count)|, texts, 1024 * limit + 512, |texts| - 1)
    }

    /** Dropped plus shown is everything recorded exactly when the last entry of the
        view had room, which it always has while the store respects the limit or the
        limit is at least four. */
    lemma ViewConserves(shown: nat)
      requires Valid()
      requires StopsAt(|Header(ReportedDropped(), count)|, TextsOf(NewestFew(entries[..count])),
                      1024 * limit + 512, shown)
      ensures ReportedDropped() + shown == |Recorded(Lines)| <==> ViewFits()
      ensures (count <= limit || 4 <= limit) && ReportedDropped() <= INT_MAX ==> ViewFits()
    {
      hide EntryText, Recorded, TextSince, Last, Header, Join;
      var texts := TextsOf(NewestFew(entries[..count]));
      AllShownIff(|Header(ReportedDropped(), count)|, texts, 1024 * limit + 512, shown);
      if texts != [] && ReportedDropped() <= INT_MAX {
        HeaderLength(ReportedDropped(), count);
        JoinLength(texts[..|texts| - 1]);
      }
    }
  }

  // ---- The JSON view

  function NewestFew(entries: seq<Entry>): (few: seq<Entry>)
    ensures |few| <= SHOWN_MAX
  {
    if |entries| <= SHOWN_MAX then entries else entries[|entries| - SHOWN_MAX..]
  }

  lemma FewFrom(entries: seq<Entry>, start: nat)
    requires start == if |entries| > SHOWN_MAX then |entries| - SHOWN_MAX else 0
    ensures |NewestFew(entries)| == |entries| - start
    ensures forall i | start <= i < |entries| :: TextsOf(NewestFew(entries))[i - start] == EntryText(entries[i])
  {
  }

  /** Escaping into a buffer of maxLen bytes, with four bytes to spare. */
  function EscapeField(s: string, newlines: bool, out: string, maxLen: nat): (t: string)
    requires |out| < maxLen
    ensures |t| < maxLen
    decreases |s|
  {
    if s == [] || |out| + 5 >= maxLen then out
    else if s[0] == '"' || s[0] == '\\' then EscapeField(s[1..], newlines, out + ['\\', s[0]], maxLen)
    else if newlines && s[0] == '\n' then EscapeField(s[1..], newlines, out + ['\\', 'n'], maxLen)
    else EscapeField(s[1..], newlines, out + [s[0]], maxLen)
  }

  /** The escaping loops of the view. */
  method EscapeBytes(s: string, newlines: bool, maxLen: nat) returns (t: string)
    requires 0 < maxLen
    ensures t == EscapeField(s, newlines, [], maxLen)
  {
    t := [];
    var i := 0;
    assert s[0..] == s;
    while i < |s| && |t| + 5 < maxLen
      invariant i <= |s| && |t| < maxLen
      invariant EscapeField(s[i..], newlines, t, maxLen) == EscapeField(s, newlines, [], maxLen)
    {
      assert s[i..][1..] == s[i + 1..];
      if s[i] == '"' || s[i] == '\\' {
        t := t + ['\\', s[i]];
      } else if newlines && s[i] == '\n' {
        t := t + ['\\', 'n'];
      } else {
        t := t + [s[i]];
      }
      i := i + 1;
    }
  }

  method ShowEntry(e: Entry) returns (t: string)
    ensures t == EntryText(e)
  {
    hide EscapeField;
    var args := EscapeBytes(e.args, true, 160);
    var name := EscapeBytes(e.tool, false, 128);
    t := "{\"tool\":\"" + name + "\",\"args\":\"" + args + "\",\"status\":\""
         + (match e.status case Ok => "ok" case Error => "error") + "\"}";
  }

  function EntryText(e: Entry): (t: string)
    ensures 1 <= |t| <= 330
  {
    "{\"tool\":\"" + EscapeField(e.tool, false, [], 128) + "\",\"args\":\"" + EscapeField(e.args, true, [], 160)
    + "\",\"status\":\"" + (if e.status.Ok? then "ok" else "error") + "\"}"
  }

  function TextsOf(entries: seq<Entry>): (texts: seq<string>)
    ensures |texts| == |entries| && forall i | 0 <= i < |texts| :: texts[i] == EntryText(entries[i])
  {
    seq(|entries|, i requires 0 <= i < |entries| => EntryText(entries[i]))
  }

  function Header(dropped: nat, count: nat): string {
    "[" + (if dropped > 0 && count > 0 then "{\"truncated\":true,\"dropped\":" + Decimal(dropped) + "}," else "")
  }

  lemma HeaderLength(dropped: nat, count: nat)
    requires dropped <= INT_MAX
    ensures |Header(dropped, count)| <= 42
  {
    DecimalLength(dropped);
  }

  function Join(texts: seq<string>): string {
    if texts == [] then []
    else Join(texts[..|texts| - 1]) + (if |texts| > 1 then "," else "") + texts[|texts| - 1]
  }

  lemma JoinStart(header: string, texts: seq<string>)
    ensures header + Join(texts[..0]) == header
  {
  }

  lemma JoinSnoc(header: string, texts: seq<string>, i: nat)
    requires i < |texts|
    ensures header + Join(texts[..i + 1]) ==
            (if i > 0 then header + Join(texts[..i]) + "," else header + Join(texts[..i])) + texts[i]
    ensures |header + Join(texts[..i])| == |header| + |Join(texts[..i])|
  {
    assert texts[..i + 1][..i] == texts[..i];
  }

  lemma {:induction false} JoinLength(texts: seq<string>)
    requires forall i | 0 <= i < |texts| :: 1 <= |texts[i]| <= 330
    ensures |texts| <= |Join(texts)| <= 331 * |texts|
  {
    if texts != [] {
      JoinLength(texts[..|texts| - 1]);
    }
  }

  lemma {:induction false} JoinGrows(texts: seq<string>, j: nat, k: nat)
    requires j <= k <= |texts|
    ensures |Join(texts[..j])| <= |Join(texts[..k])|
  {
    if j < k {
      JoinGrows(texts, j, k - 1);
      assert texts[..k][..k - 1] == texts[..k - 1];
    }
  }

  /** Room for entry i once the header and the entries before it are out. */
  predicate HasRoom(header: nat, texts: seq<string>, alloc: nat, i: nat)
    requires i <= |texts|
  {
    header + |Join(texts[..i])| + 512 < alloc
  }

  lemma AllShownIff(header: nat, texts: seq<string>, alloc: nat, shown: nat)
    requires StopsAt(header, texts, alloc, shown)
    ensures shown == |texts| <==> texts == [] || HasRoom(header, texts, alloc, |texts| - 1)
  {
    hide Join;
    if shown < |texts| { JoinGrows(texts, shown, |texts| - 1); }
  }

  predicate StopsAt(header: nat, texts: seq<string>, alloc: nat, shown: nat) {
    && shown <= |texts|
    && (forall k: nat | k < shown :: HasRoom(header, texts, alloc, k))
    && (shown < |texts| ==> !HasRoom(header, texts, alloc, shown))
  }

  // ---- A store whose view hides entries

  lemma {:induction false} SpaceAtIs(word: string, rest: string)
    requires forall i | 0 <= i < |word| :: word[i] != ' '
    ensures SpaceAt(word + rest) == |word| + SpaceAt(rest)
  {
    if word == [] {
      assert word + rest == rest;
    } else {
      assert (word + rest)[1..] == word[1..] + rest;
      SpaceAtIs(word[1..], rest);
    }
  }

  lemma {:induction false} PlainField(s: string, out: string)
    requires |out| + |s| + 5 < 160 && forall i | 0 <= i < |s| :: s[i] !in "\"\\\n"
    ensures EscapeField(s, true, out, 160) == out + s
  {
    if s == [] {
      assert out + s == out;
    } else {
      PlainField(s[1..], out + [s[0]]);
      assert out + [s[0]] + s[1..] == out + s;
    }
  }

  /** A line as a tool run leaves it, with a hundred bytes of arguments. */
  function LongLine(): string { "TOOL_RESULT" + (" " + ("read" + (" " + LongArgs()))) }

  function LongArgs(): (args: string)
    ensures |args| == 100 && forall i | 0 <= i < |args| :: args[i] == 'a'
  {
    seq(100, _ => 'a')
  }

  lemma LongLineIsRecorded()
    ensures LongLine() != [] && !Oversize(LongLine()) && EntryOf(LongLine()).Some?
    ensures 100 <= |EntryText(EntryOf(LongLine()).value)|
  {
    hide EntryOf, LongLine, EntryText;
    LongLineText();
    LongLineEntry();
    LongEntryText(EntryOf(LongLine()).value);
  }

  lemma LongLineEntry()
    ensures EntryOf(LongLine()).Some? && EntryOf(LongLine()).value.args == LongArgs()
  {
    hide *;
    LongLineText();
    LineParts("TOOL_RESULT", "read" + (" " + LongArgs()));
    EntryParts("read", LongArgs(), StatusIn(LongLine()));
    NoSpaces();
    CutOfFew(LongArgs(), 255);
  }

  lemma NoSpaces()
    ensures (forall i | 0 <= i < |"TOOL_RESULT"| :: "TOOL_RESULT"[i] != ' ')
    ensures (forall i | 0 <= i < |"read"| :: "read"[i] != ' ')
    ensures |LongArgs()| == 100
  {
  }

  lemma CutOfFew(s: string, n: nat)
    requires |s| <= n
    ensures Cut(s, n) == s
  {
  }

  /** A line of a word and a rest. */
  lemma LineParts(kind: string, rest: string)
    requires forall i | 0 <= i < |kind| :: kind[i] != ' '
    ensures var line := kind + (" " + rest);
            |line| <= 1023 ==> EntryOf(line) == Some(EntryFrom(rest, StatusIn(line)))
  {
    SpaceAtIs(kind, " " + rest);
    AtSpace(rest);
    var line := kind + (" " + rest);
    assert line[|kind| + 1..] == rest;
    hide SpaceAt, EntryFrom, StatusIn;
  }

  /** A rest of a tool and its arguments. */
  lemma EntryParts(tool: string, args: string, status: Status)
    requires forall i | 0 <= i < |tool| :: tool[i] != ' '
    ensures EntryFrom(tool + (" " + args), status) == Entry(Cut(tool, 63), Cut(args, 255), status)
    ensures EntryFrom(tool, status) == Entry(Cut(tool, 63), [], status)
  {
    SpaceAtIs(tool, " " + args);
    SpaceAtIs(tool, "");
    AtSpace(args);
    var rest := tool + (" " + args);
    assert rest[..|tool|] == tool && rest[|tool| + 1..] == args;
    assert tool + "" == tool && SpaceAt("") == 0 && tool[..|tool|] == tool;
    hide SpaceAt, Cut;
  }

  lemma AtSpace(rest: string)
    ensures SpaceAt(" " + rest) == 0
  {
  }

  lemma LongEntryText(e: Entry)
    requires e.args == LongArgs()
    ensures 100 <= |EntryText(e)|
  {
    hide EscapeField, LongArgs;
    PlainField(LongArgs(), []);
    assert [] + LongArgs() == LongArgs();
  }

  lemma LongLineText()
    ensures LongLine() == "TOOL_RESULT" + (" " + ("read" + (" " + LongArgs()))) && |LongLine()| == 117
  {
  }

  lemma WordIsNotRecorded()
    ensures EntryOf("x") == None && !Oversize("x")
  {
    SpaceAtIs("x", "");
    assert "x" + "" == "x";
    assert Cut("x", 1023) == "x";
  }

  /** All entries recorded are long. */
  ghost predicate LongOnly(entries: seq<Entry>) {
    forall k | 0 <= k < |entries| :: 100 <= |EntryText(entries[k])|
  }

  method TwelveLongLines() returns (history: History)
    ensures fresh(history) && fresh(history.entries) && fresh(history.raw) && history.Valid() && history.dropped == 0
    ensures history.count == SHOWN_MAX && LongOnly(Recorded(history.Lines))
  {
    LongLineIsRecorded();
    hide EntryOf, EntryText, TextSince, LongLine, Oversize, Recorded, LongOnly;
    history := NewHistory();
    var i := 0;
    while i < SHOWN_MAX
      invariant i <= SHOWN_MAX && (i > 0 ==> history.limit == 20)
      invariant history.Valid() && fresh(history) && fresh(history.entries) && fresh(history.raw)
      invariant history.count == i && history.dropped == 0 && LongOnly(Recorded(history.Lines))
    {
      TextSinceSnoc(history.Lines, LongLine());
      OneMoreLong(Recorded(history.Lines), EntryOf(LongLine()).value);
      AppendUnderTwenty(history, LongLine());
      i := i + 1;
    }
  }

  /** Nothing is dropped while there is room. */
  method AppendUnderTwenty(history: History, line: string)
    requires history.Valid() && line != [] && !Oversize(line) && EntriesOf(line) != []
    requires history.count < 20 && history.dropped == 0
    modifies history, history.entries, history.raw
    ensures history.Valid() && history.Lines == old(history.Lines) + [line] && history.limit == 20
    ensures history.count == old(history.count) + 1 && history.dropped == 0
  {
    hide EntryOf, TextSince, Oversize, Recorded;
    TextSinceSnoc(history.Lines, line);
    history.Append(line, 20);
  }

  method NewHistory() returns (history: History)
    ensures fresh(history) && fresh(history.entries) && fresh(history.raw) && history.Valid()
    ensures history.count == 0 == history.dropped && LongOnly(Recorded(history.Lines))
  {
    history := new History();
    NothingRecorded();
  }

  lemma OneMoreLong(entries: seq<Entry>, e: Entry)
    requires LongOnly(entries) && 100 <= |EntryText(e)|
    ensures LongOnly(entries + [e])
  {
    hide EntryText;
  }

  /** Twelve long entries, then a limit of one and a line without a space: nothing is
      evicted, the view shows fewer than twelve entries and reports none as dropped. */
  method LoweredLimitHidesEntries() returns (history: History, json: string, shown: nat)
    ensures fresh(history) && history.Valid() && history.limit == 1 && history.count == SHOWN_MAX
    ensures |Recorded(history.Lines)| == SHOWN_MAX && history.ReportedDropped() == 0 && shown < SHOWN_MAX
    ensures json == Header(0, SHOWN_MAX) + Join(TextsOf(history.entries[..SHOWN_MAX])[..shown]) + "]"
  {
    WordIsNotRecorded();
    hide EntryOf, EntryText, TextSince, Last, Oversize, Recorded, Join, Header, HasRoom;
    history := TwelveLongLines();
    TextSinceSnoc(history.Lines, "x");
    history.Append("x", 1);
    json, shown := history.BuildJson();
    CopiesDoNotFit(TextsOf(history.entries[..SHOWN_MAX]), |Header(0, SHOWN_MAX)|, shown);
  }

  lemma NothingRecorded()
    ensures Recorded([]) == []
  {
  }

  lemma CopiesDoNotFit(texts: seq<string>, header: nat, shown: nat)
    requires |texts| == SHOWN_MAX && forall i | 0 <= i < |texts| :: 100 <= |texts[i]|
    requires StopsAt(header, texts, 1024 * 1 + 512, shown)
    ensures shown < |texts|
  {
    if shown == |texts| {
      assert HasRoom(header, texts, 1024 * 1 + 512, 11);
      LongJoin(texts[..11]);
    }
  }

  lemma {:induction false} LongJoin(texts: seq<string>)
    requires forall i | 0 <= i < |texts| :: 100 <= |texts[i]|
    ensures 100 * |texts| <= |Join(texts)|
  {
    if texts != [] {
      LongJoin(texts[..|texts| - 1]);
    }
  }

  // ---- What an oversize line does to the raw text

  /** The lines that are short enough for the raw buffer. */
  function ShortLines(lines: seq<string>): seq<string> {
    if lines == [] then []
    else ShortLines(lines[..|lines| - 1]) + if Oversize(lines[|lines| - 1]) then [] else [lines[|lines| - 1]]
  }

  function ShortText(lines: seq<string>): string { Concat(ShortLines(lines)) }

  lemma ShortTextSnoc(lines: seq<string>, line: string)
    ensures ShortText(lines + [line]) == if Oversize(line) then ShortText(lines) else ShortText(lines) + line
  {
    assert (lines + [line])[..|lines|] == lines;
    var short := ShortLines(lines);
    assert short + [] == short;
    assert (short + [line])[..|short|] == short;
  }

  /** Where the last oversize line is, if there is one. */
  function LastOversize(lines: seq<string>): (i: Option<nat>)
    ensures i.Some? ==> i.value < |lines| && Oversize(lines[i.value])
    ensures forall k | (if i.Some? then i.value else -1) < k < |lines| :: !Oversize(lines[k])
  {
    if lines == [] then None
    else if Oversize(lines[|lines| - 1]) then Some(|lines| - 1)
    else LastOversize(lines[..|lines| - 1])
  }

  /** Lines after the last oversize one go behind what was there before. */
  lemma {:induction false} ShortLinesFollow(before: seq<string>, after: seq<string>)
    requires forall i | 0 <= i < |after| :: !Oversize(after[i])
    ensures TextSince(before + after) == TextSince(before) + Concat(after)
    ensures ShortText(before + after) == ShortText(before) + Concat(after)
  {
    hide *;
    if after == [] {
      assert before + after == before;
      ConcatOne("");
      assert TextSince(before) + "" == TextSince(before) && ShortText(before) + "" == ShortText(before);
    } else {
      var most, line := after[..|after| - 1], after[|after| - 1];
      ShortLinesFollow(before, most);
      assert before + after == (before + most) + [line] && most + [line] == after;
      TextSinceSnoc(before + most, line);
      ShortTextSnoc(before + most, line);
      ConcatBoth(most, [line]);
      ConcatOne(line);
      assert TextSince(before) + (Concat(most) + line) == TextSince(before) + Concat(most) + line;
      assert ShortText(before) + (Concat(most) + line) == ShortText(before) + Concat(most) + line;
    }
  }

  /** Two texts end alike behind the same text exactly when what it leaves room for
      ends alike. */
  lemma LastBehind(a: string, b: string, c: string, n: nat)
    ensures Last(a + c, n) == Last(b + c, n)
       <==> Last(a, if |c| < n then n - |c| else 0) == Last(b, if |c| < n then n - |c| else 0)
  {
    if |c| < n {
      LastWithTail(a, c, n);
      LastWithTail(b, c, n);
      var x, y := Last(a, n - |c|), Last(b, n - |c|);
      if x + c == y + c {
        assert |x| == |y|;
        assert x == (x + c)[..|x|] && y == (y + c)[..|x|];
      }
    } else {
      assert Last(a + c, n) == c[|c| - n..] == Last(b + c, n);
    }
  }

  lemma LastWithTail(a: string, c: string, n: nat)
    requires |c| < n
    ensures Last(a + c, n) == Last(a, n - |c|) + c
  {
  }

  /** How much of the raw buffer the text after the last oversize line leaves. */
  function RoomBehind(after: seq<string>): nat {
    if |Concat(after)| < RAW_MAX - 1 then RAW_MAX - 1 - |Concat(after)| else 0
  }

  /** The raw text is the last 2047 bytes of the short lines exactly when there was no
      oversize line, or the 2047 bytes kept of the last one end, as far as there is
      room for them, like the short lines before it. */
  lemma RawTextIsShortLinesIff(lines: seq<string>)
    ensures match LastOversize(lines)
            case None => Last(TextSince(lines), RAW_MAX - 1) == Last(ShortText(lines), RAW_MAX - 1)
            case Some(i) =>
              var room := RoomBehind(lines[i + 1..]);
              Last(TextSince(lines), RAW_MAX - 1) == Last(ShortText(lines), RAW_MAX - 1)
              <==> Last(lines[i][..RAW_MAX - 1], room) == Last(ShortText(lines[..i]), room)
  {
    hide TextSince, ShortText, Last, Concat, Oversize;
    match LastOversize(lines)
    case None =>
      assert [] + lines == lines;
      ShortLinesFollow([], lines);
      NoText();
    case Some(i) =>
      assert lines == lines[..i] + [lines[i]] + lines[i + 1..];
      RawTextBehind(lines[..i], lines[i], lines[i + 1..]);
  }

  lemma RawTextBehind(before: seq<string>, line: string, after: seq<string>)
    requires Oversize(line) && forall i | 0 <= i < |after| :: !Oversize(after[i])
    ensures var lines, room := before + [line] + after, RoomBehind(after);
            Last(TextSince(lines), RAW_MAX - 1) == Last(ShortText(lines), RAW_MAX - 1)
            <==> Last(line[..RAW_MAX - 1], room) == Last(ShortText(before), room)
  {
    hide TextSince, ShortText, Last, Concat;
    ShortLinesFollow(before + [line], after);
    TextSinceSnoc(before, line);
    ShortTextSnoc(before, line);
    LastBehind(line[..RAW_MAX - 1], ShortText(before), Concat(after), RAW_MAX - 1);
  }

  lemma NoText()
    ensures TextSince([]) == [] == ShortText([])
  {
  }

  /** So an oversize line behind a shorter one displaces it. */
  lemma OversizeLineTakesOver(short: string, line: string)
    requires Oversize(line) && !Oversize(short)
    ensures Last(TextSince([short, line]), RAW_MAX - 1)
            == line[..RAW_MAX - 1] != Last(ShortText([short, line]), RAW_MAX - 1)
  {
    hide ShortText, TextSince;
    assert [] + [short] == [short] && [short] + [line] == [short, line];
    TextSinceSnoc([short], line);
    ShortTextSnoc([short], line);
    ShortTextSnoc([], short);
    NoText();
  }
}
