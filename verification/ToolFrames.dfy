/** The frames that answer a tool call, as src/native_frame.c builds them in 4096
    bytes whatever the length of the result. */
module ToolFrames {
  import opened JsonText
  import opened RequestFrame
  import opened Texts
  import ToolArgs
  import opened TurnTrace

  const ALLOC := 4096

  // What a builder leaves in the buffer: the whole frame, its beginning only, or
  // nothing that can be told, because the last snprintf wrote behind the buffer.
  datatype Envelope = Whole(text: string) | Short(text: string) | PastEnd

  function Head(id: string, tool: string): (t: string)
    ensures |t| < 600
  {
    EscapeWithinFits(id, 256);
    EscapeWithinFits(tool, 256);
    "{\"type\":\"tool_result\",\"id\":\"" + EscapeWithin(id, 256)
    + "\",\"tool\":{\"name\":\"" + EscapeWithin(tool, 256) + "\",\"result\":"
  }

  function ResultText(json: string): string { if json == "" then "\"{}\"" else json }

  const ERROR_START := "{\"status\":\"error\",\"message\":\""
  const ERROR_END := "\"}}}"

  /** frame_build_tool_result: `alloc - off` is unsigned, so once off is past the end
      the text behind the result is written there. */
  method BuildToolResult(id: string, tool: string, json: string) returns (e: Envelope)
    ensures var frame := Head(id, tool) + ResultText(json) + "}}";
            e == if |frame| < ALLOC then Whole(frame)
                 else if |frame| <= ALLOC + 2 then Short(frame[..ALLOC - 1])
                 else PastEnd
  {
    hide Head, ResultText;
    var buf, off := Snprintf([], 0, ALLOC, Head(id, tool));
    ghost var frame := Head(id, tool) + ResultText(json) + "}}";
    buf, off := Snprintf(buf, off, ALLOC, ResultText(json));
    if off > ALLOC { return PastEnd; }
    if off == ALLOC {
      assert buf == frame[..ALLOC - 1];
      return Short(buf);
    }
    buf, off := Snprintf(buf, off, ALLOC, "}}");
    if off >= ALLOC { assert buf == frame[..ALLOC - 1]; }
    e := if off < ALLOC then Whole(buf) else Short(buf);
  }

  /** frame_build_tool_error: a whole frame for any message, which is cut between
      characters where the room ends. */
  method BuildToolError(id: string, tool: string, message: string) returns (e: Envelope, ghost k: nat)
    ensures k <= |message| && (2 * |message| <= 3000 ==> k == |message|)
    ensures e == Whole(Head(id, tool) + ERROR_START + EscapedInput(message[..k]) + ERROR_END)
    ensures |e.text| < ALLOC
  {
    hide Head, EscapedInput;
    var buf, off := Snprintf([], 0, ALLOC, Head(id, tool) + ERROR_START);
    buf, off, k := EscapeInput(buf, off, ALLOC, message);
    buf, off := Snprintf(buf, off, ALLOC, ERROR_END);
    e := Whole(buf);
  }

  /** The bytes of a tool result frame besides the id, the tool's name and the result. */
  const FRAMING := 59

  lemma FrameLength(id: string, tool: string, json: string)
    ensures |Head(id, tool) + ResultText(json) + "}}"|
         == |EscapeWithin(id, 256)| + |EscapeWithin(tool, 256)| + |ResultText(json)| + FRAMING
  {
    hide EscapeWithin, ResultText;
  }

  lemma MessagesAreShort()
    ensures 2 * |DENIED| <= 3000 && 2 * |MALFORMED| <= 3000
  {
  }

  /** The frame for the reply to a tool call: an error frame is always whole, a result
      frame exactly when its parts leave room for the framing; from 4099 bytes on the
      builder writes behind its buffer. */
  method Answer(call: ToolCall, id: string) returns (e: Envelope)
    ensures var r := ReplyTo(call, id);
            r.ToolError? ==> e == Whole(Head(id, call.name) + ERROR_START + EscapedInput(r.message) + ERROR_END)
    ensures var n := |EscapeWithin(id, 256)| + |EscapeWithin(call.name, 256)| + |ResultText(call.outcome)| + FRAMING;
            ReplyTo(call, id).ToolResult? ==>
              && (e.Whole? <==> n < ALLOC) && (e.PastEnd? <==> n > ALLOC + 2)
              && (e.Whole? ==> e.text == Head(id, call.name) + ResultText(call.outcome) + "}}")
  {
    hide Head, ResultText, EscapedInput, EscapeWithin, ToolArgs.Valid;
    MessagesAreShort();
    if call.name == "shell" {
      ghost var k;
      e, k := BuildToolError(id, call.name, DENIED);
      assert DENIED[..k] == DENIED;
      return;
    }
    var valid := ToolArgs.ArgsValid(call.name, call.args);
    if valid {
      FrameLength(id, call.name, call.outcome);
      e := BuildToolResult(id, call.name, call.outcome);
    } else {
      ghost var k;
      e, k := BuildToolError(id, call.name, MALFORMED);
      assert MALFORMED[..k] == MALFORMED;
    }
  }
}
