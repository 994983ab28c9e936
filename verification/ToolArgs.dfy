/** The strict one-field argument objects of src/tool_policy.c, and the second
    copy of their parser in src/tool_runner.c. */
module ToolArgs {
  import opened JsonText
  import opened Texts

  // Buffer sizes: the key in both copies, the value in the policy, the payload
  // in the runner.
  const KEY_MAX := 64
  const POLICY_MAX := 2048
  const RUNNER_MAX := 4096

  // ---- The parser

  predicate IsSpace(c: char) { c == ' ' || c == '\t' || c == '\n' || c == '\r' }

  function SkipSpace(s: string): (t: string)
    ensures t == [] || !IsSpace(t[0])
  {
    if s != [] && IsSpace(s[0]) then SkipSpace(s[1..]) else s
  }

  const SIMPLE_LETTERS := "\"\\/bfnrt"

  /** From just after the opening quote: the decoded text and what follows the
      closing quote. */
  function ParseString(s: string, out: string, maxLen: nat): Option<(string, string)>
    decreases |s|
  {
    if s == [] then None
    else if s[0] == '"' then Some((out, s[1..]))
    else if s[0] == '\\' then
      if |s| == 1 || s[1] !in SIMPLE_LETTERS || |out| + 2 >= maxLen then None
      else ParseString(s[2..], out + [SimpleMeaning(s[1])], maxLen)
    else if s[0] < 0x20 as char || |out| + 1 >= maxLen then None
    else ParseString(s[1..], out + [s[0]], maxLen)
  }

  function ParseQuoted(s: string, maxLen: nat): Option<(string, string)> {
    if s == [] || s[0] != '"' || maxLen == 0 then None else ParseString(s[1..], [], maxLen)
  }

  /** Past the expected byte and the white space after it. */
  function Expect(s: string, c: char): Option<string> {
    if s == [] || s[0] != c then None else Some(SkipSpace(s[1..]))
  }

  /** What follows an opening brace, the field's name and a colon. */
  function AfterKey(json: string, field: string): Option<string> {
    match Expect(SkipSpace(json), '{')
    case None => None
    case Some(s) => match ParseQuoted(s, KEY_MAX)
    case None => None
    case Some((key, t)) => if key == field then Expect(SkipSpace(t), ':') else None
  }

  /** A non-empty string and a closing brace with nothing but space after it. */
  function LastValue(s: string, maxLen: nat): Option<string> {
    match ParseQuoted(s, maxLen)
    case None => None
    case Some((value, t)) => match Expect(SkipSpace(t), '}')
    case None => None
    case Some(end) => if end == [] && value != [] then Some(value) else None
  }

  /** The value of the only field of an object, if json is such an object. */
  function ObjectField(json: string, field: string, maxLen: nat): Option<string> {
    if field == [] then None
    else match AfterKey(json, field)
    case None => None
    case Some(s) => LastValue(s, maxLen)
  }

  /** One step of the parser at position q. */
  lemma ParseAt(p: string, q: nat, out: string, maxLen: nat)
    requires q < |p|
    ensures p[q] == '"' ==> ParseString(p[q..], out, maxLen) == Some((out, p[q + 1..]))
    ensures p[q] == '\\' ==>
              ParseString(p[q..], out, maxLen) == (
              if q + 1 == |p| || p[q + 1] !in SIMPLE_LETTERS || |out| + 2 >= maxLen then None
              else ParseString(p[q + 2..], out + [SimpleMeaning(p[q + 1])], maxLen))
    ensures p[q] != '"' && p[q] != '\\' ==>
              ParseString(p[q..], out, maxLen) == (
              if p[q] < 0x20 as char || |out| + 1 >= maxLen then None
              else ParseString(p[q + 1..], out + [p[q]], maxLen))
  {
    Suffix(p, q, 1);
    if q + 1 < |p| { Suffix(p, q, 2); }
  }

  lemma ParseNothing(out: string, maxLen: nat)
    ensures ParseString([], out, maxLen) == None
  {
  }

  /** decode_json_string_value, the same text in both files. */
  method DecodeStringValue(p: string, dest: array<char>) returns (ok: bool, rest: string, n: nat)
    modifies dest
    ensures ok <==> ParseQuoted(p, dest.Length).Some?
    ensures ok ==> n < dest.Length && dest[n] == '\0' && ParseQuoted(p, dest.Length).value == (dest[..n], rest)
  {
    hide ParseString, SimpleMeaning;
    ok, rest, n := false, p, 0;
    if p == [] || p[0] != '"' || dest.Length == 0 { return; }
    var q: nat, i: nat := 1, 0;
    while q < |p|
      invariant 1 <= q <= |p| && i < dest.Length
      invariant ParseString(p[1..], [], dest.Length) == ParseString(p[q..], dest[..i], dest.Length)
      decreases |p| - q
    {
      ghost var before := dest[..i];
      ParseAt(p, q, before, dest.Length);
      if p[q] == '"' {
        dest[i] := '\0';
        return true, p[q + 1..], i;
      }
      if p[q] == '\\' {
        if q + 1 == |p| || p[q + 1] !in SIMPLE_LETTERS { return; }
        dest[i] := SimpleMeaning(p[q + 1]);
        i := i + 1;
        assert dest[..i] == before + [SimpleMeaning(p[q + 1])];
        q := q + 2;
        if i + 1 >= dest.Length { return; }
        continue;
      }
      if p[q] < 0x20 as char || i + 1 >= dest.Length { return; }
      dest[i] := p[q];
      i := i + 1;
      assert dest[..i] == before + [p[q]];
      q := q + 1;
    }
    assert p[q..] == [];
    ParseNothing(dest[..i], dest.Length);
  }

  /** extract_object_string_field, in its two halves. */
  method ExtractObjectStringField(json: string, field: string, dest: array<char>) returns (ok: bool, n: nat)
    modifies dest
    ensures ok <==> ObjectField(json, field, dest.Length).Some?
    ensures ok ==> n < dest.Length && dest[n] == '\0' && ObjectField(json, field, dest.Length) == Some(dest[..n])
  {
    hide AfterKey, LastValue;
    ok, n := false, 0;
    if field == [] { return; }
    var found, p := ReadKey(json, field);
    if found { ok, n := ReadValue(p, dest); }
  }

  method ReadKey(json: string, field: string) returns (ok: bool, rest: string)
    ensures ok <==> AfterKey(json, field).Some?
    ensures ok ==> AfterKey(json, field) == Some(rest)
  {
    hide ParseQuoted, SkipSpace;
    ok, rest := false, json;
    var p := SkipSpace(json);
    if p == [] || p[0] != '{' { return; }
    p := SkipSpace(p[1..]);
    var key := new char[KEY_MAX];
    var decoded, keyLength;
    decoded, p, keyLength := DecodeStringValue(p, key);
    if !decoded || key[..keyLength] != field { return; }
    p := SkipSpace(p);
    if p == [] || p[0] != ':' { return; }
    return true, SkipSpace(p[1..]);
  }

  method ReadValue(start: string, dest: array<char>) returns (ok: bool, n: nat)
    modifies dest
    ensures ok <==> LastValue(start, dest.Length).Some?
    ensures ok ==> n < dest.Length && dest[n] == '\0' && LastValue(start, dest.Length) == Some(dest[..n])
  {
    hide ParseQuoted, SkipSpace;
    var p;
    ok, p, n := DecodeStringValue(start, dest);
    if !ok { return; }
    p := SkipSpace(p);
    if p == [] || p[0] != '}' { return false, n; }
    p := SkipSpace(p[1..]);
    ok := p == [] && n > 0;
  }

  /** tool_args_exact_object_field: the same walk, with a buffer of its own. */
  method ArgsExactObjectField(json: string, field: string) returns (ok: bool)
    ensures ok <==> ObjectField(json, field, POLICY_MAX).Some?
  {
    var value := new char[POLICY_MAX];
    var n;
    ok, n := ExtractObjectStringField(json, field, value);
  }

  /** tool_policy_args_valid */
  method ArgsValid(tool: string, args: string) returns (ok: bool)
    ensures ok <==> Valid(tool, args)
  {
    if tool == [] || args == [] { return false; }
    if tool == "google_search" { ok := ArgsExactObjectField(args, "query"); return; }
    if tool == "browse_url" { ok := ArgsExactObjectField(args, "url"); return; }
    if tool == "shell_command" { ok := ArgsExactObjectField(args, "command"); return; }
    return true;
  }

  /** The tools whose arguments are checked, and the field each must have. */
  function RequiredField(tool: string): Option<string> {
    if tool == "google_search" then Some("query")
    else if tool == "browse_url" then Some("url")
    else if tool == "shell_command" then Some("command")
    else None
  }

  predicate Valid(tool: string, args: string) {
    tool != [] && args != []
    && (RequiredField(tool).Some? ==> ObjectField(args, RequiredField(tool).value, POLICY_MAX).Some?)
  }

  /** build_command_args for shell_command: the payload handed to the shell. */
  method ShellPayload(args: string) returns (payload: string)
    ensures payload == match ObjectField(args, "command", RUNNER_MAX) case Some(v) => v case None => []
  {
    var buffer := new char[RUNNER_MAX];
    var ok, n := ExtractObjectStringField(args, "command", buffer);
    payload := if ok then buffer[..n] else [];
  }

  // ---- The grammar

  predicate AllRfc8259(us: seq<Unit>) {
    AllWellFormed(us) && forall i | 0 <= i < |us| :: Rfc8259(us[i])
  }

  /** A string of plain bytes and the eight simple escapes. */
  predicate Strict(us: seq<Unit>)
    ensures Strict(us) ==> AllRfc8259(us)
  {
    AllWellFormed(us) && forall i | 0 <= i < |us| :: Rfc8259(us[i]) && !us[i].Hex?
  }

  /** JSON white space, section 2 of RFC 8259. */
  predicate AllSpace(ws: string) {
    forall i | 0 <= i < |ws| :: ws[i] == ' ' || ws[i] == '\t' || ws[i] == '\n' || ws[i] == '\r'
  }

  /** Room for one unit after k decoded bytes: an escape wants a byte more than
      a plain byte does. */
  predicate UnitFits(u: Unit, k: nat, maxLen: nat) {
    if u.Plain? then k + 1 < maxLen else k + 2 < maxLen
  }

  predicate FitsAfter(us: seq<Unit>, k: nat, maxLen: nat) {
    forall i | 0 <= i < |us| :: UnitFits(us[i], k + i, maxLen)
  }

  /** The same in closed form: a value of maxLen-1 bytes fits only if it does not
      end in an escape. */
  lemma FitsIffShort(us: seq<Unit>, maxLen: nat)
    ensures FitsAfter(us, 0, maxLen) <==>
              us == [] || |us| + 1 < maxLen || (|us| + 1 == maxLen && us[|us| - 1].Plain?)
  {
    if us != [] && FitsAfter(us, 0, maxLen) {
      assert UnitFits(us[|us| - 1], |us| - 1, maxLen);
    }
  }

  datatype Layout = Layout(spaces: seq<string>, key: seq<Unit>, value: seq<Unit>)

  function PrintLayout(l: Layout): string
    requires |l.spaces| == 6
  {
    PrintKey(l, PrintValue(l))
  }

  function PrintKey(l: Layout, rest: string): string
    requires |l.spaces| == 6
  {
    l.spaces[0] + ("{" + (l.spaces[1] + ("\"" +
      (PrintAll(l.key) + "\"" + (l.spaces[2] + (":" + (l.spaces[3] + rest)))))))
  }

  function PrintValue(l: Layout): string
    requires |l.spaces| == 6
  {
    "\"" + (PrintAll(l.value) + "\"" + (l.spaces[4] + ("}" + l.spaces[5])))
  }

  predicate KeyOf(l: Layout, field: string) {
    && |l.spaces| == 6 && (forall i | 0 <= i < 6 :: AllSpace(l.spaces[i]))
    && Strict(l.key) && MeaningAll(l.key) == field && FitsAfter(l.key, 0, KEY_MAX)
  }

  predicate LayoutOf(l: Layout, field: string, maxLen: nat) {
    KeyOf(l, field) && Strict(l.value) && l.value != [] && FitsAfter(l.value, 0, maxLen) && 0 < maxLen
  }

  // ---- From the grammar to the parser

  lemma {:induction false} SkipSpaces(ws: string, t: string)
    requires AllSpace(ws) && (t == [] || !IsSpace(t[0]))
    ensures SkipSpace(ws + t) == t
  {
    if ws == [] {
      assert ws + t == t;
    } else {
      assert (ws + t)[1..] == ws[1..] + t;
      SkipSpaces(ws[1..], t);
    }
  }

  /** A string literal of the standard is parsed exactly when it has no \u escape
      and fits, and then into its meaning. */
  lemma {:induction false} ParsePrinted(us: seq<Unit>, rest: string, out: string, maxLen: nat)
    requires AllRfc8259(us)
    ensures ParseString(PrintAll(us) + "\"" + rest, out, maxLen) ==
            if Strict(us) && FitsAfter(us, |out|, maxLen) then Some((out + MeaningAll(us), rest)) else None
  {
    if us == [] {
      assert (PrintAll(us) + "\"" + rest)[1..] == rest && out + MeaningAll(us) == out;
    } else {
      PrintAllCons(us, rest);
      ParseUnit(us[0], PrintAll(us[1..]) + "\"" + rest, out, maxLen);
      SplitUnits(us, |out|, maxLen);
      if !us[0].Hex? && UnitFits(us[0], |out|, maxLen) {
        MeaningAllCons(out, us);
        ParsePrinted(us[1..], rest, out + Meaning(us[0]), maxLen);
      }
    }
  }

  lemma SplitUnits(us: seq<Unit>, k: nat, maxLen: nat)
    requires us != [] && AllRfc8259(us)
    ensures Strict(us) <==> !us[0].Hex? && Strict(us[1..])
    ensures FitsAfter(us, k, maxLen) <==> UnitFits(us[0], k, maxLen) && FitsAfter(us[1..], k + 1, maxLen)
  {
    var tail := us[1..];
    assert us == [us[0]] + tail;
    if FitsAfter(us, k, maxLen) {
      assert UnitFits(us[0], k + 0, maxLen);
      forall i | 0 <= i < |tail| ensures UnitFits(tail[i], k + 1 + i, maxLen) {
        assert UnitFits(us[1 + i], k + (1 + i), maxLen);
      }
    }
    if UnitFits(us[0], k, maxLen) && FitsAfter(tail, k + 1, maxLen) {
      forall i | 0 <= i < |us| ensures UnitFits(us[i], k + i, maxLen) {
        if i > 0 { assert UnitFits(tail[i - 1], k + 1 + (i - 1), maxLen); }
      }
    }
  }

  lemma ParseUnit(u: Unit, tail: string, out: string, maxLen: nat)
    requires Rfc8259(u)
    ensures ParseString(Print(u) + tail, out, maxLen) ==
            if !u.Hex? && UnitFits(u, |out|, maxLen) then ParseString(tail, out + Meaning(u), maxLen) else None
  {
    assert (Print(u) + tail)[|Print(u)|..] == tail;
  }

  /** Every strict object is accepted, with the value it spells. */
  lemma LayoutIsAccepted(l: Layout, field: string, maxLen: nat)
    requires field != [] && LayoutOf(l, field, maxLen)
    ensures ObjectField(PrintLayout(l), field, maxLen) == Some(MeaningAll(l.value))
  {
    hide AfterKey, LastValue, PrintKey;
    KeyIsAccepted(l, field, PrintValue(l));
    ValueIsAccepted(l, field, maxLen);
  }

  lemma KeyIsAccepted(l: Layout, field: string, rest: string)
    requires KeyOf(l, field) && (rest == [] || !IsSpace(rest[0]))
    ensures AfterKey(PrintKey(l, rest), field) == Some(rest)
  {
    hide SkipSpace, PrintAll, MeaningAll, FitsAfter, Strict, AllSpace, ParseQuoted, Expect;
    var t2 := ":" + (l.spaces[3] + rest);
    var t1 := l.spaces[2] + t2;
    var t0 := "\"" + (PrintAll(l.key) + "\"" + t1);
    SkipSpaces(l.spaces[0], "{" + (l.spaces[1] + t0));
    ExpectThen('{', l.spaces[1], t0);
    QuotedIsParsed(l.key, t1, KEY_MAX);
    SkipSpaces(l.spaces[2], t2);
    ExpectThen(':', l.spaces[3], rest);
  }

  lemma ValueIsAccepted(l: Layout, field: string, maxLen: nat)
    requires LayoutOf(l, field, maxLen)
    ensures LastValue(PrintValue(l), maxLen) == Some(MeaningAll(l.value))
  {
    hide SkipSpace, PrintAll, MeaningAll, FitsAfter, Strict, AllSpace, ParseQuoted, Expect;
    var t5 := "}" + l.spaces[5];
    QuotedIsParsed(l.value, l.spaces[4] + t5, maxLen);
    SkipSpaces(l.spaces[4], t5);
    assert l.spaces[5] + [] == l.spaces[5];
    ExpectThen('}', l.spaces[5], []);
    MeaningIsEmpty(l.value);
  }

  lemma ExpectThen(c: char, ws: string, rest: string)
    requires AllSpace(ws) && (rest == [] || !IsSpace(rest[0]))
    ensures Expect([c] + (ws + rest), c) == Some(rest)
  {
    SkipSpaces(ws, rest);
    assert ([c] + (ws + rest))[1..] == ws + rest;
  }

  lemma QuotedIsParsed(us: seq<Unit>, rest: string, maxLen: nat)
    requires AllRfc8259(us) && 0 < maxLen
    ensures ParseQuoted("\"" + (PrintAll(us) + "\"" + rest), maxLen) ==
            if Strict(us) && FitsAfter(us, 0, maxLen) then Some((MeaningAll(us), rest)) else None
  {
    var body := PrintAll(us) + "\"" + rest;
    assert ("\"" + body)[1..] == body;
    ParsePrinted(us, rest, [], maxLen);
    assert [] + MeaningAll(us) == MeaningAll(us);
  }

  lemma MeaningIsEmpty(us: seq<Unit>)
    requires Strict(us)
    ensures MeaningAll(us) == [] <==> us == []
    ensures [] + MeaningAll(us) == MeaningAll(us)
  {
  }

  // ---- From the parser to the grammar

  lemma SpaceBefore(s: string) returns (ws: string)
    ensures AllSpace(ws) && s == ws + SkipSpace(s)
  {
    var n := SpaceCount(s);
    ws := s[..n];
  }

  lemma SpaceCount(s: string) returns (n: nat)
    ensures n <= |s| && SkipSpace(s) == s[n..]
    ensures forall i | 0 <= i < n :: IsSpace(s[i])
  {
    n := 0;
    if s != [] && IsSpace(s[0]) {
      var m := SpaceCount(s[1..]);
      n := 1 + m;
      Suffix(s, 1, m);
      forall i | 0 <= i < n ensures IsSpace(s[i]) {
        if i > 0 { assert IsSpace(s[1..][i - 1]); }
      }
    }
  }

  lemma UnitsOfAccepted(s: string, out: string, maxLen: nat) returns (us: seq<Unit>)
    requires ParseString(s, out, maxLen).Some?
    ensures Strict(us) && FitsAfter(us, |out|, maxLen)
    ensures ParseString(s, out, maxLen).value.0 == out + MeaningAll(us)
    ensures s == PrintAll(us) + "\"" + ParseString(s, out, maxLen).value.1
    decreases |s|
  {
    if s[0] == '"' {
      us := [];
      assert s == "\"" + s[1..];
    } else {
      var u := if s[0] == '\\' then Simple(s[1]) else Plain(s[0]);
      var tail := s[|Print(u)|..];
      assert s == Print(u) + tail;
      ParseUnit(u, tail, out, maxLen);
      var more := UnitsOfAccepted(tail, out + Meaning(u), maxLen);
      us := [u] + more;
      ConsUnit(u, more, ParseString(s, out, maxLen).value.1, out, maxLen);
    }
  }

  lemma ConsUnit(u: Unit, us: seq<Unit>, rest: string, out: string, maxLen: nat)
    requires Rfc8259(u) && !u.Hex? && Strict(us) && UnitFits(u, |out|, maxLen) && FitsAfter(us, |out| + 1, maxLen)
    ensures Strict([u] + us) && FitsAfter([u] + us, |out|, maxLen)
    ensures out + MeaningAll([u] + us) == out + Meaning(u) + MeaningAll(us)
    ensures PrintAll([u] + us) + "\"" + rest == Print(u) + (PrintAll(us) + "\"" + rest)
  {
    assert ([u] + us)[1..] == us;
    forall i | 0 <= i < |[u] + us| ensures UnitFits(([u] + us)[i], |out| + i, maxLen) {
      if i > 0 { assert UnitFits(us[i - 1], |out| + 1 + (i - 1), maxLen); }
    }
  }

  lemma UnitsOfQuoted(s: string, maxLen: nat) returns (us: seq<Unit>)
    requires ParseQuoted(s, maxLen).Some?
    ensures Strict(us) && FitsAfter(us, 0, maxLen) && 0 < maxLen
    ensures MeaningAll(us) == ParseQuoted(s, maxLen).value.0
    ensures s == "\"" + (PrintAll(us) + "\"" + ParseQuoted(s, maxLen).value.1)
  {
    us := UnitsOfAccepted(s[1..], [], maxLen);
    MeaningIsEmpty(us);
  }

  lemma SpaceAfter(s: string, c: char) returns (ws: string)
    requires Expect(s, c).Some?
    ensures AllSpace(ws) && s == [c] + (ws + Expect(s, c).value)
  {
    ws := SpaceBefore(s[1..]);
  }

  lemma KeyOfAccepted(json: string, field: string)
      returns (s0: string, s1: string, key: seq<Unit>, s2: string, s3: string)
    requires AfterKey(json, field).Some?
    ensures AllSpace(s0) && AllSpace(s1) && AllSpace(s2) && AllSpace(s3)
    ensures Strict(key) && MeaningAll(key) == field && FitsAfter(key, 0, KEY_MAX)
    ensures json == PrintKey(Layout([s0, s1, s2, s3, [], []], key, []), AfterKey(json, field).value)
  {
    hide SkipSpace, PrintAll, MeaningAll, FitsAfter, Strict, AllSpace, ParseQuoted, Expect;
    s0 := SpaceBefore(json);
    s1 := SpaceAfter(SkipSpace(json), '{');
    var quoted := Expect(SkipSpace(json), '{').value;
    key := UnitsOfQuoted(quoted, KEY_MAX);
    var t := ParseQuoted(quoted, KEY_MAX).value.1;
    s2 := SpaceBefore(t);
    s3 := SpaceAfter(SkipSpace(t), ':');
  }

  lemma ValueOfAccepted(s: string, maxLen: nat) returns (value: seq<Unit>, s4: string, s5: string)
    requires LastValue(s, maxLen).Some?
    ensures AllSpace(s4) && AllSpace(s5)
    ensures Strict(value) && value != [] && FitsAfter(value, 0, maxLen) && 0 < maxLen
    ensures LastValue(s, maxLen) == Some(MeaningAll(value))
    ensures s == PrintValue(Layout([[], [], [], [], s4, s5], [], value))
  {
    hide SkipSpace, PrintAll, FitsAfter, AllSpace, ParseQuoted, Expect;
    value := UnitsOfQuoted(s, maxLen);
    var t := ParseQuoted(s, maxLen).value.1;
    s4 := SpaceBefore(t);
    s5 := SpaceAfter(SkipSpace(t), '}');
    assert s5 + [] == s5;
  }

  lemma LayoutOfAccepted(json: string, field: string, maxLen: nat) returns (l: Layout)
    requires ObjectField(json, field, maxLen).Some?
    ensures LayoutOf(l, field, maxLen) && PrintLayout(l) == json
    ensures ObjectField(json, field, maxLen) == Some(MeaningAll(l.value))
  {
    hide AfterKey, LastValue, PrintAll, MeaningAll, FitsAfter, Strict, AllSpace;
    var s0, s1, key, s2, s3 := KeyOfAccepted(json, field);
    var rest := AfterKey(json, field).value;
    var value, s4, s5 := ValueOfAccepted(rest, maxLen);
    l := Layout([s0, s1, s2, s3, s4, s5], key, value);
  }

  /** Exactly the one-field objects are accepted whose key is the field and whose
      value is a non-empty string of plain bytes and simple escapes that fits. */
  lemma AcceptedIffLayout(json: string, field: string, maxLen: nat, value: string)
    requires field != []
    ensures ObjectField(json, field, maxLen) == Some(value)
            <==> exists l: Layout ::
                   LayoutOf(l, field, maxLen) && PrintLayout(l) == json && MeaningAll(l.value) == value
  {
    if ObjectField(json, field, maxLen) == Some(value) {
      var l := LayoutOfAccepted(json, field, maxLen);
    }
    forall l: Layout | LayoutOf(l, field, maxLen) && PrintLayout(l) == json && MeaningAll(l.value) == value
      ensures ObjectField(json, field, maxLen) == Some(value)
    {
      LayoutIsAccepted(l, field, maxLen);
    }
  }

  // ---- What the policy lets through, the runner reads the same way

  lemma BiggerBufferAgrees(json: string, field: string, small: nat, big: nat)
    requires small <= big && ObjectField(json, field, small).Some?
    ensures ObjectField(json, field, big) == ObjectField(json, field, small)
  {
    hide ObjectField, PrintLayout, Strict, FitsAfter, MeaningAll;
    var l := LayoutOfAccepted(json, field, small);
    BiggerBufferFits(l.value, small, big);
    HasField(json, field, small);
    LayoutIsAccepted(l, field, big);
  }

  lemma HasField(json: string, field: string, maxLen: nat)
    requires ObjectField(json, field, maxLen).Some?
    ensures field != []
  {
  }

  lemma BiggerBufferFits(us: seq<Unit>, small: nat, big: nat)
    requires small <= big && FitsAfter(us, 0, small)
    ensures FitsAfter(us, 0, big)
  {
    forall i | 0 <= i < |us| ensures UnitFits(us[i], 0 + i, big) {
      assert UnitFits(us[i], 0 + i, small);
    }
  }

  /** Whatever the policy accepts as shell_command arguments reaches the shell as
      the very value the policy saw. */
  lemma PolicyAndRunnerAgree(args: string)
    requires Valid("shell_command", args)
    ensures ObjectField(args, "command", POLICY_MAX).Some?
    ensures ObjectField(args, "command", RUNNER_MAX) == ObjectField(args, "command", POLICY_MAX)
  {
    hide ObjectField;
    BiggerBufferAgrees(args, "command", POLICY_MAX, RUNNER_MAX);
  }

  /** The object with one field, its texts printed by json_escape. */
  function PrintArgs(field: string, value: string): string {
    PrintLayout(ArgsLayout(field, value))
  }

  function ArgsLayout(field: string, value: string): Layout {
    Layout(["", "", "", "", "", ""], EscapeUnits(field), EscapeUnits(value))
  }

  predicate Printable(text: string, maxLen: nat) {
    Strict(EscapeUnits(text)) && FitsAfter(EscapeUnits(text), 0, maxLen)
  }

  /** Printing a value with json_escape and reading it back is the identity
      exactly when no byte of it needs a \u escape and it fits. */
  lemma PrintedArgsRoundTrip(field: string, value: string, maxLen: nat)
    requires field != [] && Printable(field, KEY_MAX) && value != [] && 0 < maxLen
    ensures ObjectField(PrintArgs(field, value), field, maxLen) == Some(value) <==> Printable(value, maxLen)
  {
    hide AfterKey, LastValue, PrintKey, PrintAll, MeaningAll, FitsAfter, Strict, EscapeUnits;
    var l := ArgsLayout(field, value);
    EscapeMeansItself(field);
    EscapeMeansItself(value);
    EscapeIsRfc8259(value);
    if Printable(value, maxLen) {
      LayoutIsAccepted(l, field, maxLen);
    } else {
      KeyIsAccepted(l, field, PrintValue(l));
      NoValue(l, maxLen);
    }
  }

  lemma NoValue(l: Layout, maxLen: nat)
    requires |l.spaces| == 6 && AllRfc8259(l.value) && 0 < maxLen
    requires !Strict(l.value) || !FitsAfter(l.value, 0, maxLen)
    ensures LastValue(PrintValue(l), maxLen) == None
  {
    QuotedIsParsed(l.value, l.spaces[4] + ("}" + l.spaces[5]), maxLen);
  }

  lemma EscapeIsRfc8259(s: string)
    ensures AllRfc8259(EscapeUnits(s))
  {
  }

  /** Which values those are. */
  lemma StrictIffNoHex(value: string)
    ensures Strict(EscapeUnits(value)) <==>
              forall i | 0 <= i < |value| :: value[i] >= 0x20 as char
                  || value[i] in [BACKSPACE, FORM_FEED, '\n', '\r', '\t']
  {
    var us := EscapeUnits(value);
    forall i | 0 <= i < |value|
      ensures us[i].Hex? <==> !(value[i] >= 0x20 as char || value[i] in [BACKSPACE, FORM_FEED, '\n', '\r', '\t'])
    {
      assert us[i] == EscapeUnit(value[i]);
    }
  }
}
