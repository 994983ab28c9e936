/** The frames of src/native_frame.c letter by letter: the definitions of RequestFrame
    and ToolFrames put together. */
module EnvelopeLaws {
  import opened JsonText
  import opened Printf
  import opened RequestFrame
  import opened Texts
  import ToolFrames

  function Text(s: string): string { EscapeWithin(s, 256) }
  function Truth(b: bool): string { if b then "true" else "false" }

  /** A field that is there only if its value is. */
  function Optional(name: string, value: string): string {
    if value == "" then "" else ",\"" + name + "\":\"" + Text(value) + "\""
  }

  lemma Pair(a: string, b: string)
    ensures Concat([a, b]) == a + b
  {
    hide Concat;
    assert [a, b] == [a] + [b];
    ConcatBoth([a], [b]);
    ConcatOne(a);
    ConcatOne(b);
  }

  lemma Five(a: string, b: string, c: string, d: string, e: string)
    ensures Concat([a, b, c, d, e]) == a + b + (c + d) + e
  {
    hide Concat;
    assert [a, b, c, d, e] == [a, b] + [c, d] + [e];
    ConcatBoth([a, b] + [c, d], [e]);
    ConcatBoth([a, b], [c, d]);
    Pair(a, b);
    Pair(c, d);
    ConcatOne(e);
  }

  lemma AllFields(a: seq<string>, b: seq<string>, c: seq<string>, d: seq<string>, e: seq<string>)
    ensures Concat(a + b + c + d + e) == Concat(a) + Concat(b) + Concat(c) + Concat(d) + Concat(e)
  {
    hide Concat;
    ConcatBoth(a + b + c + d, e);
    ConcatBoth(a + b + c, d);
    ConcatBoth(a + b, c);
    ConcatBoth(a, b);
  }

  function Session(resume: bool, tokens: int): string {
    ",\"auto_load_resume_session\":" + Truth(resume) + (",\"context_tokens\":" + Decimal(tokens))
  }

  function Reset(reset: bool): string { ",\"reset_session\":" + Truth(reset) }

  function Permissions(): string {
    ",\"tool_permission_mode\":\"auto_allow_safe\",\"do_not_prompt_for_read_only_tools\":true"
  }

  function Accepted(): string {
    ",\"accepted_events\":[\"compaction.started\",\"compaction.summary\",\"compaction.completed\"]"
  }

  function Past(history: string): string {
    if history == "" || history == "[]" then "" else ",\"tool_history\":" + history
  }

  /** The request envelope from its first byte to its last. */
  function RequestText(id: string, input: string, effort: string, previous: string,
      resume: bool, tokens: int, reset: bool, history: string): string
  {
    "{\"type\":\"request\",\"id\":\"" + Text(id) + "\",\"input\":\"" + EscapedInput(input) + "\""
    + (Optional("reasoning_effort", effort) + Optional("previous_response_id", previous)
       + (Session(resume, tokens) + (Reset(reset) + Permissions()) + Accepted()) + Past(history) + "}")
  }

  lemma EnvelopeIs(id: string, input: string, effort: string, previous: string,
      resume: bool, tokens: int, reset: bool, history: string)
    requires INT_MIN <= tokens <= INT_MAX
    ensures BeforeInput(id) + EscapedInput(input) + "\""
            + Concat(LaterFields(effort, previous, resume, tokens, reset, history))
         == RequestText(id, input, effort, previous, resume, tokens, reset, history)
  {
    LaterAre(effort, previous, resume, tokens, reset, history);
    hide Concat, LaterFields, EscapedInput, EscapeWithin, Optional, Session, Reset, Permissions, Accepted, Past;
  }

  lemma LaterAre(effort: string, previous: string, resume: bool, tokens: int, reset: bool, history: string)
    requires INT_MIN <= tokens <= INT_MAX
    ensures Concat(LaterFields(effort, previous, resume, tokens, reset, history))
         == Optional("reasoning_effort", effort) + Optional("previous_response_id", previous)
            + (Session(resume, tokens) + (Reset(reset) + Permissions()) + Accepted()) + Past(history) + "}"
  {
    hide *;
    var a := if effort == "" then [] else [Field("reasoning_effort", effort)];
    var b := if previous == "" then [] else [Field("previous_response_id", previous)];
    var c := [ResumeField(resume), ContextField(tokens), ResetField(reset), PermissionFields(), EventFields()];
    var d := if history == "" || history == "[]" then [] else [HistoryField(history)];
    FieldsInOrder(effort, previous, resume, tokens, reset, history);
    AllFields(a, b, c, d, ["}"]);
    ConcatOne("}");
    OptionalIs("reasoning_effort", effort);
    OptionalIs("previous_response_id", previous);
    PastIs(history);
    Five(c[0], c[1], c[2], c[3], c[4]);
    SessionIs(resume, tokens, reset);
    FixedAre();
  }

  lemma FieldsInOrder(effort: string, previous: string, resume: bool, tokens: int, reset: bool, history: string)
    requires INT_MIN <= tokens <= INT_MAX
    ensures LaterFields(effort, previous, resume, tokens, reset, history)
         == (if effort == "" then [] else [Field("reasoning_effort", effort)])
            + (if previous == "" then [] else [Field("previous_response_id", previous)])
            + [ResumeField(resume), ContextField(tokens), ResetField(reset), PermissionFields(), EventFields()]
            + (if history == "" || history == "[]" then [] else [HistoryField(history)]) + ["}"]
  {
    hide Field, ResumeField, ContextField, ResetField, PermissionFields, EventFields, HistoryField;
  }

  lemma OptionalIs(name: string, value: string)
    ensures Concat(if value == "" then [] else [Field(name, value)]) == Optional(name, value)
  {
    hide Concat, EscapeWithin;
    ConcatOne(Field(name, value));
  }

  lemma PastIs(history: string)
    ensures Concat(if history == "" || history == "[]" then [] else [HistoryField(history)]) == Past(history)
  {
    hide Concat;
    ConcatOne(HistoryField(history));
  }

  lemma SessionIs(resume: bool, tokens: int, reset: bool)
    requires INT_MIN <= tokens <= INT_MAX
    ensures ResumeField(resume) + ContextField(tokens) == Session(resume, tokens) && ResetField(reset) == Reset(reset)
  {
    hide Decimal;
  }

  lemma FixedAre()
    ensures PermissionFields() == Permissions() && EventFields() == Accepted()
  {
  }

  /** A result frame, and an error frame, from the first byte to the last. */
  lemma ResultFrameIs(id: string, tool: string, json: string)
    ensures ToolFrames.Head(id, tool) + ToolFrames.ResultText(json) + "}}"
         == "{\"type\":\"tool_result\",\"id\":\"" + Text(id) + "\",\"tool\":{\"name\":\"" + Text(tool)
            + "\",\"result\":" + (if json == "" then "\"{}\"" else json) + "}}"
  {
    hide EscapeWithin;
  }

  lemma ErrorFrameIs(id: string, tool: string, message: string)
    ensures ToolFrames.Head(id, tool) + ToolFrames.ERROR_START + EscapedInput(message) + ToolFrames.ERROR_END
         == "{\"type\":\"tool_result\",\"id\":\"" + Text(id) + "\",\"tool\":{\"name\":\"" + Text(tool)
            + "\",\"result\":" + "{\"status\":\"error\",\"message\":\"" + EscapedInput(message) + "\"}}}"
  {
    hide EscapeWithin, EscapedInput;
  }
}
