/** The request envelope of frame_build_request in src/native_frame.c, with the
    empty system and tools texts that src/turn_context.c passes. */
module RequestFrame {
  import opened JsonText
  import opened Texts
  import opened Printf

  // ---- The input field

  predicate Survives(c: char) { c == '\n' || c >= 0x20 as char }

  /** The input as the agent gets to see it. */
  function Surviving(s: string): string {
    if s == [] then []
    else if Survives(s[0]) then [s[0]] + Surviving(s[1..])
    else Surviving(s[1..])
  }

  function InputUnit(c: char): (u: Unit)
    requires Survives(c)
    ensures Rfc8259(u) && Meaning(u) == [c] && 1 <= |Print(u)| <= 2
  {
    if c == '"' || c == '\\' then Simple(c)
    else if c == '\n' then Simple('n')
    else Plain(c)
  }

  function InputUnits(s: string): (us: seq<Unit>)
    ensures AllWellFormed(us)
  {
    if s == [] then []
    else if Survives(s[0]) then [InputUnit(s[0])] + InputUnits(s[1..])
    else InputUnits(s[1..])
  }

  lemma {:induction false} InputMeansSurviving(s: string)
    ensures MeaningAll(InputUnits(s)) == Surviving(s)
  {
    if s != [] {
      InputMeansSurviving(s[1..]);
      if Survives(s[0]) {
        assert InputUnits(s)[1..] == InputUnits(s[1..]);
      }
    }
  }

  lemma {:induction false} InputUnitsSnoc(s: string, k: nat)
    requires k < |s|
    ensures InputUnits(s[..k + 1]) == InputUnits(s[..k]) + (if Survives(s[k]) then [InputUnit(s[k])] else [])
  {
    if k > 0 {
      assert s[..k + 1][1..] == s[1..][..k] && s[..k][1..] == s[1..][..k - 1];
      InputUnitsSnoc(s[1..], k - 1);
    } else {
      assert s[..1][1..] == [];
    }
  }

  function EscapedInput(s: string): string { PrintAll(InputUnits(s)) }

  lemma EscapedInputSnoc(s: string, k: nat)
    requires k < |s|
    ensures EscapedInput(s[..k + 1]) == EscapedInput(s[..k]) + (if Survives(s[k]) then Print(InputUnit(s[k])) else [])
  {
    InputUnitsSnoc(s, k);
    if Survives(s[k]) {
      PrintAllSnoc(InputUnits(s[..k]), InputUnit(s[k]));
    } else {
      assert InputUnits(s[..k + 1]) == InputUnits(s[..k]);
    }
  }

  lemma EscapedNothing()
    ensures EscapedInput([]) == []
  {
  }

  lemma PrintCases(c: char)
    ensures c == '"' || c == '\\' ==> Print(InputUnit(c)) == ['\\', c]
    ensures c == '\n' ==> Print(InputUnit(c)) == "\\n"
    ensures Survives(c) && c !in "\"\\\n" ==> Print(InputUnit(c)) == [c]
  {
  }

  // ---- The whole envelope

  function BeforeInput(id: string): (t: string)
    ensures |t| < 300
  {
    EscapeWithinFits(id, 256);
    "{\"type\":\"request\",\"id\":\"" + EscapeWithin(id, 256) + "\",\"input\":\""
  }

  function Field(name: string, value: string): (t: string)
    ensures |t| < |name| + 270
  {
    EscapeWithinFits(value, 256);
    ",\"" + name + "\":\"" + EscapeWithin(value, 256) + "\""
  }

  function Bool(b: bool): string { if b then "true" else "false" }

  function ResumeField(resume: bool): (t: string)
    ensures |t| < 40
  {
    ",\"auto_load_resume_session\":" + Bool(resume)
  }

  function ContextField(tokens: int): (t: string)
    requires INT_MIN <= tokens <= INT_MAX
    ensures |t| < 40
  {
    DecimalLength(tokens);
    ",\"context_tokens\":" + Decimal(tokens)
  }

  function ResetField(reset: bool): (t: string)
    ensures |t| < 40
  {
    ",\"reset_session\":" + Bool(reset)
  }

  function PermissionFields(): (t: string)
    ensures |t| < 100
  {
    ",\"tool_permission_mode\":\"auto_allow_safe\",\"do_not_prompt_for_read_only_tools\":true"
  }

  function EventFields(): (t: string)
    ensures |t| < 100
  {
    ",\"accepted_events\":[\"compaction.started\",\"compaction.summary\",\"compaction.completed\"]"
  }

  function HistoryField(history: string): (t: string)
    ensures |t| < |history| + 20
  {
    ",\"tool_history\":" + history
  }

  /** The fields after the input, in order; absent ones do not appear. */
  function LaterFields(effort: string, previous: string, resume: bool, tokens: int, reset: bool,
      history: string): (fs: seq<string>)
    requires INT_MIN <= tokens <= INT_MAX
  {
    (if effort == [] then [] else [Field("reasoning_effort", effort)])
    + (if previous == [] then [] else [Field("previous_response_id", previous)])
    + [ResumeField(resume), ContextField(tokens), ResetField(reset), PermissionFields(), EventFields()]
    + (if history == [] || history == "[]" then [] else [HistoryField(history)])
    + ["}"]
  }

  lemma LaterFieldsLength(effort: string, previous: string, resume: bool, tokens: int, reset: bool, history: string)
    requires INT_MIN <= tokens <= INT_MAX
    ensures |Concat(LaterFields(effort, previous, resume, tokens, reset, history))| < |history| + 1000
  {
    hide Concat, Field, ResumeField, ContextField, ResetField, PermissionFields, EventFields, HistoryField;
    var a := if effort == [] then [] else [Field("reasoning_effort", effort)];
    var b := if previous == [] then [] else [Field("previous_response_id", previous)];
    var c := [ResumeField(resume), ContextField(tokens), ResetField(reset), PermissionFields(), EventFields()];
    var d := if history == [] || history == "[]" then [] else [HistoryField(history)];
    ConcatBoth(a, b);
    ConcatBoth(a + b, c);
    ConcatBoth(a + b + c, d);
    ConcatBoth(a + b + c + d, ["}"]);
    ConcatOne("}");
    ConcatOne(Field("reasoning_effort", effort));
    ConcatOne(Field("previous_response_id", previous));
    ConcatOne(HistoryField(history));
    FiveTexts(c[0], c[1], c[2], c[3], c[4]);
  }

  lemma FiveTexts(a: string, b: string, c: string, d: string, e: string)
    ensures |Concat([a, b, c, d, e])| == |a| + |b| + |c| + |d| + |e|
  {
    hide Concat;
    ConcatOne(a);
    ConcatOne(b);
    ConcatOne(c);
    ConcatOne(d);
    ConcatOne(e);
    assert [a, b, c, d, e] == [a] + [b] + [c] + [d] + [e];
    ConcatBoth([a] + [b] + [c] + [d], [e]);
    ConcatBoth([a] + [b] + [c], [d]);
    ConcatBoth([a] + [b], [c]);
    ConcatBoth([a], [b]);
  }

  /** snprintf(buf + off, alloc - off, ...) where off is the end of the text: the
      text as far as it fits, and the offset it would have wanted to reach. */
  method Snprintf(buf: string, off: nat, alloc: nat, text: string) returns (buf': string, off': nat)
    requires |buf| == off < alloc
    ensures off' == off + |text|
    ensures off' < alloc ==> buf' == buf + text && |buf'| == off'
    ensures off' >= alloc ==> buf' == (buf + text)[..alloc - 1]
  {
    off' := off + |text|;
    buf' := buf + (if off' < alloc then text else text[..alloc - off - 1]);
  }

  /** The escaping loop, which stops early when six bytes are no longer free: the
      first k bytes of the input are escaped, all of them if there is room. */
  method EscapeInput(buf: string, off: nat, alloc: nat, input: string) returns (buf': string, off': nat, ghost k: nat)
    requires |buf| == off
    ensures k <= |input| && buf' == buf + EscapedInput(input[..k]) && off' == |buf'| <= off + 2 * k
    ensures k < |input| ==> off' + 6 >= alloc
    ensures off' <= off || off' + 4 < alloc
  {
    hide InputUnits, EscapedInput, Print;
    EscapedNothing();
    buf', off', k := buf, off, 0;
    assert input[..0] == [];
    var i := 0;
    while i < |input| && off' + 6 < alloc
      invariant i <= |input| && off' == |buf'| <= off + 2 * i
      invariant off' <= off || off' + 4 < alloc
      invariant buf' == buf + EscapedInput(input[..i])
    {
      EscapedInputSnoc(input, i);
      PrintCases(input[i]);
      var c := input[i];
      if c == '"' || c == '\\' {
        buf', off' := buf' + ['\\', c], off' + 2;
      } else if c == '\n' {
        buf', off' := buf' + "\\n", off' + 2;
      } else if c == '\r' {
      } else if c < 0x20 as char {
      } else {
        buf', off' := buf' + [c], off' + 1;
      }
      i := i + 1;
    }
    k := i;
  }

  /** frame_build_request: for any lengths of input and history the buffer end is
      never reached, so nothing is cut off. The fields after the input go out
      through one loop where the source has a snprintf for each. */
  method BuildRequest(id: string, input: string, effort: string, previous: string,
                      resume: bool, tokens: int, reset: bool, history: string)
    returns (buf: string)
    requires INT_MIN <= tokens <= INT_MAX
    ensures buf == BeforeInput(id) + EscapedInput(input) + "\""
                   + Concat(LaterFields(effort, previous, resume, tokens, reset, history))
    ensures |buf| < 2 * |input| + |history| + 8192
  {
    hide *;
    var alloc := 2 * |input| + |history| + 8192;
    var off;
    buf, off := Snprintf([], 0, alloc, BeforeInput(id));
    ghost var k;
    buf, off, k := EscapeInput(buf, off, alloc, input);
    assert input[..|input|] == input;
    buf, off := Snprintf(buf, off, alloc, "\"");
    LaterFieldsLength(effort, previous, resume, tokens, reset, history);
    buf := PrintFields(buf, off, alloc, LaterFields(effort, previous, resume, tokens, reset, history));
  }

  method PrintFields(buf: string, off: nat, alloc: nat, fields: seq<string>) returns (buf': string)
    requires |buf| == off && off + |Concat(fields)| < alloc
    ensures buf' == buf + Concat(fields) && |buf'| < alloc
  {
    buf' := buf;
    var off' := off;
    assert fields[..|fields|] == fields;
    for i := 0 to |fields|
      invariant |buf'| == off' == off + |Concat(fields[..i])|
      invariant buf' == buf + Concat(fields[..i])
    {
      ConcatSnoc(fields, i);
      ConcatPrefix(fields, i);
      ConcatPrefix(fields, i + 1);
      buf', off' := Snprintf(buf', off', alloc, fields[i]);
    }
  }

  /** Decoding the input field of any request gives the input back, except for
      the control characters that were left out of it. */
  lemma InputFieldDecodes(id: string, input: string, after: string, maxLen: nat)
    ensures var frame := BeforeInput(id) + EscapedInput(input) + "\"" + after;
            Decode(frame[|BeforeInput(id)|..], [], maxLen) == (Surviving(input), Some(SkipSeparators(after)))
            <==> |Surviving(input)| + 1 < maxLen
  {
    FieldText(BeforeInput(id), EscapedInput(input), "\"", after);
    InputMeansSurviving(input);
    DecodeOfPrinted(InputUnits(input), after, maxLen);
  }

  lemma FieldText(a: string, b: string, c: string, d: string)
    ensures (a + b + c + d)[|a|..] == b + c + d
  {
  }
}
