/** How a request reads once it is normalised, text by text: the definitions of
    RequestText spelled out from src/codex_request_parser.c. */
module RequestLaws {
  import opened Texts
  import opened RequestText

  function When(value: string, text: string): string { if value == "" then "" else text }

  /** The beginning of every normalised text: the instructions, the id of the previous
      response and the metadata, each on lines of its own and each only if it is there. */
  function Start(r: Request): string {
    When(r.instructions, r.instructions + "\n")
    + When(r.previousId, "previous_response_id: " + r.previousId + "\n")
    + When(r.metadata, "metadata: " + r.metadata + "\n")
  }

  lemma Three(a: string, b: string, c: string)
    ensures Concat([a, b, c]) == a + b + c
  {
    hide Concat;
    assert [a, b, c] == [a] + [b] + [c];
    ConcatBoth([a] + [b], [c]);
    ConcatBoth([a], [b]);
    ConcatOne(a);
    ConcatOne(b);
    ConcatOne(c);
  }

  lemma LineIs(name: string, value: string)
    ensures Concat(Line(name, value)) == When(value, name + value + "\n")
  {
    hide Concat;
    ConcatOne("");
    Three(name, value, "\n");
  }

  lemma StartIs(r: Request)
    ensures Concat(PreamblePieces(r)) == Start(r)
  {
    LineIs("", r.instructions);
    LineIs("previous_response_id: ", r.previousId);
    LineIs("metadata: ", r.metadata);
    hide Concat, Line;
    ConcatBoth(Line("", r.instructions) + Line("previous_response_id: ", r.previousId), Line("metadata: ", r.metadata));
    ConcatBoth(Line("", r.instructions), Line("previous_response_id: ", r.previousId));
    assert "" + r.instructions + "\n" == r.instructions + "\n";
  }

  /** The text is the start and a plain input, the start and the items one after the
      other, or the start alone. */
  lemma RenderedIs(r: Request)
    ensures r.input.Str? ==> Rendered(r) == Start(r) + r.input.s
    ensures r.input.Items? ==> Rendered(r) == WithItems(Start(r), r.input.items)
    ensures r.input.Absent? || r.input.OtherJson? ==> Rendered(r) == Start(r)
  {
    StartIs(r);
    hide Concat, PreamblePieces, Start, WithItems;
  }

  /** A name with its arguments, and a call id, if they are there. */
  function CallText(name: string, args: string): string { When(name, name + "(" + args + ")") }
  function IdText(callId: string): string { When(callId, " [call_id: " + callId + "]") }

  /** What each kind of item reads like. */
  function ItemText(item: Item): string {
    match item
    case TextItem(text) => text
    case Message(role, text) => (if role == "" then "user" else role) + ": " + text
    case ToolCall(name, args, callId) => "tool_call: " + CallText(name, args) + IdText(callId)
    case ToolOutput(output, callId) => "tool_output: " + output + IdText(callId)
    case Image(url, data) =>
      "[image: " + (if url != "" then url else if data != "" then "base64_data " + data + "..." else "unknown") + "]"
    case Computer(text) => "computer_call: " + text
    case Reasoning(text) => "reasoning: " + text
  }

  lemma {:induction false} JoinsUp(a: seq<string>, b: seq<string>, c: seq<string>)
    ensures Concat(a + b + c) == Concat(a) + Concat(b) + Concat(c)
  {
    hide Concat;
    ConcatBoth(a + b, c);
    ConcatBoth(a, b);
  }

  lemma CallIdIs(callId: string)
    ensures Concat(CallIdPieces(callId)) == IdText(callId)
  {
    hide Concat;
    ConcatOne("");
    Three(" [call_id: ", callId, "]");
  }

  lemma PiecesAre(item: Item)
    ensures Concat(Pieces(item)) == ItemText(item)
  {
    hide Concat, CallIdPieces, IdText;
    ConcatOne("");
    match item
    case TextItem(text) => ConcatOne(text);
    case Message(role, text) => Three(if role == "" then "user" else role, ": ", text);
    case ToolCall(name, args, callId) => ToolCallIs(name, args, callId);
    case ToolOutput(output, callId) =>
      assert ["tool_output: ", output] == ["tool_output: "] + [output];
      CallIdIs(callId);
      ConcatOne("tool_output: ");
      ConcatOne(output);
      JoinsUp(["tool_output: "], [output], CallIdPieces(callId));
    case Image(url, data) => ImageIs(url, data);
    case Computer(text) => Two("computer_call: ", text);
    case Reasoning(text) => Two("reasoning: ", text);
  }

  lemma Two(a: string, b: string)
    ensures Concat([a, b]) == a + b
  {
    hide Concat;
    assert [a, b] == [a] + [b];
    ConcatBoth([a], [b]);
    ConcatOne(a);
    ConcatOne(b);
  }

  lemma ToolCallIs(name: string, args: string, callId: string)
    ensures Concat(Pieces(ToolCall(name, args, callId))) == ItemText(ToolCall(name, args, callId))
  {
    hide Concat, CallIdPieces, IdText;
    CallIdIs(callId);
    ConcatOne("tool_call: ");
    ConcatOne("");
    var call := if name == "" then [] else [name, "(", args, ")"];
    if name != "" {
      assert call == [name, "(", args] + [")"];
      ConcatBoth([name, "(", args], [")"]);
      Three(name, "(", args);
      ConcatOne(")");
    }
    JoinsUp(["tool_call: "], call, CallIdPieces(callId));
  }

  lemma ImageIs(url: string, data: string)
    ensures Concat(Pieces(Image(url, data))) == ItemText(Image(url, data))
  {
    hide Concat;
    var source := if url != "" then [url] else if data != "" then ["base64_data ", data, "..."] else ["unknown"];
    ConcatOne("[image: ");
    ConcatOne("]");
    ConcatOne(url);
    ConcatOne("unknown");
    Three("base64_data ", data, "...");
    JoinsUp(["[image: "], source, ["]"]);
  }

  /** One more item: nothing for an empty text, and otherwise its text on a line of its
      own, behind a newline unless there is one or nothing in front. */
  lemma OneMoreItem(before: string, items: seq<Item>, item: Item)
    ensures WithItems(before, []) == before
    ensures var text := WithItems(before, items);
            WithItems(before, items + [item])
            == if item == TextItem("") then text
               else if text == "" || text[|text| - 1] == '\n' then text + ItemText(item)
               else text + "\n" + ItemText(item)
  {
    PiecesAre(item);
    hide Concat, Pieces, ItemText;
    assert (items + [item])[..|items|] == items;
    WithNoNewline(WithItems(before, items), ItemText(item));
  }

  lemma WithNoNewline(text: string, more: string)
    ensures text + "" + more == text + more
  {
  }

  /** The request is refused exactly when its text is longer than the limit, which is
      8 MiB unless one is configured, and an empty text is no request. */
  lemma OutcomeIs(r: Request, configured: int)
    ensures var limit := if configured > 0 then configured else 8388608;
            var text := Rendered(r);
            Expected(r, LimitOf(configured))
            == if |text| > limit then InputTooLarge else if text == "" then NothingToSay else Normalized(text)
  {
    hide Rendered;
  }
}
