/** The normalised request text of src/codex_request_parser.c: an owned buffer
    that grows by doubling under a limit, and the rendering of input items. */
module RequestText {
  import opened Buffers
  import opened Texts

  const DEFAULT_LIMIT := 8 * 1024 * 1024

  function LimitOf(configured: int): (n: nat)
    ensures n > 0
  {
    if configured > 0 then configured else DEFAULT_LIMIT
  }

  // ---- What a request should read like

  /** Absent C strings are empty here; the source treats the two alike. */
  datatype Item =
    | TextItem(text: string)
    | Message(role: string, text: string)
    | ToolCall(name: string, arguments: string, callId: string)
    | ToolOutput(output: string, callId: string)
    | Image(url: string, data: string)
    | Computer(text: string)
    | Reasoning(text: string)

  datatype Input = Absent | Str(s: string) | Items(items: seq<Item>) | OtherJson

  datatype Request = Request(instructions: string, previousId: string, metadata: string, input: Input)

  function CallIdPieces(callId: string): seq<string> {
    if callId == [] then [] else [" [call_id: ", callId, "]"]
  }

  /** The texts appended for an item, in order. */
  function Pieces(item: Item): seq<string> {
    match item
    case TextItem(t) => [t]
    case Message(role, t) => [if role == [] then "user" else role, ": ", t]
    case ToolCall(name, args, id) =>
      ["tool_call: "] + (if name == [] then [] else [name, "(", args, ")"]) + CallIdPieces(id)
    case ToolOutput(output, id) => ["tool_output: ", output] + CallIdPieces(id)
    case Image(url, data) =>
      ["[image: "] + (if url != [] then [url] else if data != [] then ["base64_data ", data, "..."] else ["unknown"])
          + ["]"]
    case Computer(t) => ["computer_call: ", t]
    case Reasoning(t) => ["reasoning: ", t]
  }

  predicate Blank(item: Item) { item == TextItem([]) }

  /** A newline between the text so far and the next item, unless it is there. */
  function Separator(text: string): string {
    if text != [] && text[|text| - 1] != '\n' then "\n" else []
  }

  function WithItem(text: string, item: Item): string {
    if Blank(item) then text else text + Separator(text) + Concat(Pieces(item))
  }

  function WithItems(text: string, items: seq<Item>): string {
    if items == [] then text else WithItem(WithItems(text, items[..|items| - 1]), items[|items| - 1])
  }

  function Line(name: string, value: string): seq<string> {
    if value == [] then [] else [name, value, "\n"]
  }

  function PreamblePieces(r: Request): seq<string> {
    Line("", r.instructions) + Line("previous_response_id: ", r.previousId) + Line("metadata: ", r.metadata)
  }

  function Rendered(r: Request): string {
    var preamble := Concat(PreamblePieces(r));
    match r.input
    case Str(s) => preamble + s
    case Items(items) => WithItems(preamble, items)
    case _ => preamble
  }

  datatype Outcome = Normalized(text: string) | InputTooLarge | NothingToSay

  /** All or nothing. */
  function Expected(r: Request, limit: nat): Outcome {
    if |Rendered(r)| > limit then InputTooLarge
    else if Rendered(r) == [] then NothingToSay
    else Normalized(Rendered(r))
  }

  lemma WithItemGrows(text: string, item: Item)
    ensures text <= WithItem(text, item)
  {
  }

  lemma {:induction false} WithItemsGrows(text: string, items: seq<Item>, i: nat)
    requires i <= |items|
    ensures |WithItems(text, items[..i])| <= |WithItems(text, items)|
    decreases |items| - i
  {
    if i < |items| {
      assert items[..i + 1][..i] == items[..i];
      WithItemGrows(WithItems(text, items[..i]), items[i]);
      WithItemsGrows(text, items, i + 1);
    } else {
      assert items[..i] == items;
    }
  }

  lemma {:induction false} WithItemsPrefix(text: string, items: seq<Item>, k: nat)
    requires k <= |items|
    ensures WithItems(text, items[..k]) <= WithItems(text, items)
  {
    hide WithItem;
    if k == |items| {
      assert items[..k] == items;
    } else {
      var n := |items| - 1;
      WithItemsPrefix(text, items[..n], k);
      assert items[..n][..k] == items[..k];
      WithItemGrows(WithItems(text, items[..n]), items[n]);
    }
  }

  /** Each item that is not blank stands whole in the text, after everything before
      it and at the start of a line. */
  lemma ItemsStandOnLines(text: string, items: seq<Item>, i: nat)
    requires i < |items| && !Blank(items[i])
    ensures var before := WithItems(text, items[..i]);
            var start := before + Separator(before);
            WholeLines(start) && start + Concat(Pieces(items[i])) <= WithItems(text, items)
  {
    assert items[..i + 1][..i] == items[..i];
    hide Concat, Pieces;
    WithItemsPrefix(text, items, i + 1);
  }

  // ---- The owned buffer

  class Owned {
    var dest: array<char>
    var len: nat
    const limit: nat

    ghost predicate Valid()
      reads this
    {
      && 0 < limit && len <= limit
      && (len == 0 || len < dest.Length)
      && dest.Length <= if limit + 1 > 1024 then limit + 1 else 1024
    }

    ghost function Text(): string
      reads this, dest
      requires Valid()
    {
      dest[..len]
    }

    constructor (limit: nat)
      requires 0 < limit
      ensures Valid() && fresh(dest) && len == 0 && this.limit == limit
    {
      dest := new char[0];
      len := 0;
      this.limit := limit;
    }

    /** The growth loop of append_owned: big enough, and never past limit+1. */
    method GrownCapacity(capacity: nat, needed: nat) returns (next: nat)
      requires 0 < needed <= limit + 1
      requires capacity <= if limit + 1 > 1024 then limit + 1 else 1024
      ensures needed <= next <= if limit + 1 > 1024 then limit + 1 else 1024
    {
      next := if capacity != 0 then capacity else 1024;
      while next < needed
        invariant 0 < next <= if limit + 1 > 1024 then limit + 1 else 1024
        decreases needed - next
      {
        if next > limit / 2 {
          next := limit + 1;
          break;
        }
        next := next * 2;
      }
    }

    /** Room for n bytes and a NUL. */
    method Reserve(n: nat)
      requires Valid() && len <= n <= limit
      modifies this`dest
      ensures Valid() && Text() == old(Text()) && n < dest.Length
      ensures dest == old(dest) || fresh(dest)
    {
      if n + 1 > dest.Length {
        var next := GrownCapacity(dest.Length, n + 1);
        var grown := new char[next];
        Put(grown, 0, dest[..len]);
        dest := grown;
      }
    }

    /** append_owned, with allocation succeeding: it fails exactly when the text
        would grow past the limit, and then changes nothing. */
    method Append(text: string) returns (ok: bool)
      requires Valid()
      modifies this, dest
      ensures Valid() && (dest == old(dest) || fresh(dest))
      ensures ok <==> |old(Text())| + |text| <= limit
      ensures Text() == if ok then old(Text()) + text else old(Text())
      ensures ok ==> len < dest.Length && dest[len] == '\0'
    {
      if len + |text| > limit { return false; }
      Reserve(len + |text|);
      Put(dest, len, text);
      ghost var whole := dest[..len + |text|];
      len := len + |text|;
      dest[len] := '\0';
      assert dest[..len] == whole;
      return true;
    }

    /** A chain of append_owned calls, given up at the first that fails. */
    method AppendAll(texts: seq<string>) returns (ok: bool)
      requires Valid()
      modifies this, dest
      ensures Valid() && (dest == old(dest) || fresh(dest))
      ensures ok <==> |old(Text())| + |Concat(texts)| <= limit
      ensures ok ==> Text() == old(Text()) + Concat(texts)
    {
      hide Concat;
      ghost var was := Text();
      ConcatOne([]);
      assert texts[..|texts|] == texts;
      for i := 0 to |texts|
        invariant Valid() && (dest == old(dest) || fresh(dest))
        invariant Text() == was + Concat(texts[..i])
      {
        ConcatSnoc(texts, i);
        ConcatPrefix(texts, i + 1);
        ok := Append(texts[i]);
        if !ok { return; }
      }
      ok := true;
    }

    /** normalize_text_item */
    method AppendItem(item: Item) returns (ok: bool)
      requires Valid()
      modifies this, dest
      ensures Valid() && (dest == old(dest) || fresh(dest))
      ensures ok <==> |WithItem(old(Text()), item)| <= limit
      ensures ok ==> Text() == WithItem(old(Text()), item)
    {
      hide Concat, Pieces;
      if Blank(item) { return true; }
      if len > 0 && dest[len - 1] != '\n' {
        ok := Append("\n");
        if !ok { return; }
      }
      assert Text() == old(Text()) + Separator(old(Text()));
      ok := AppendAll(Pieces(item));
    }

    /** parse_input_array, given the parsed items. */
    method AppendItems(items: seq<Item>) returns (ok: bool)
      requires Valid()
      modifies this, dest
      ensures Valid() && (dest == old(dest) || fresh(dest))
      ensures ok <==> |WithItems(old(Text()), items)| <= limit
      ensures ok ==> Text() == WithItems(old(Text()), items)
    {
      hide WithItem;
      assert items[..|items|] == items;
      for i := 0 to |items|
        invariant Valid() && (dest == old(dest) || fresh(dest))
        invariant Text() == WithItems(old(Text()), items[..i])
      {
        assert items[..i + 1][..i] == items[..i];
        WithItemsGrows(old(Text()), items, i + 1);
        ok := AppendItem(items[i]);
        if !ok { return; }
      }
      ok := true;
    }
  }

  /** normalize_request_text: the whole rendering, or request_input_too_large
      exactly when the rendering is longer than the limit. */
  method Normalize(r: Request, configured: int) returns (result: Outcome)
    ensures result == Expected(r, LimitOf(configured))
  {
    hide Concat, PreamblePieces, WithItems;
    ghost var preamble := Concat(PreamblePieces(r));
    RenderedStart(r);
    var out := new Owned(LimitOf(configured));
    var ok := out.Append("");
    assert out.Text() == [] && [] + preamble == preamble;
    ok := out.AppendAll(PreamblePieces(r));
    if !ok { return InputTooLarge; }
    match r.input {
      case Str(s) => ok := out.Append(s);
      case Items(items) => ok := out.AppendItems(items);
      case Absent =>
      case OtherJson =>
    }
    if !ok { return InputTooLarge; }
    result := if out.len == 0 then NothingToSay else Normalized(out.dest[..out.len]);
  }

  lemma RenderedStart(r: Request)
    ensures |Concat(PreamblePieces(r))| <= |Rendered(r)|
  {
    if r.input.Items? {
      WithItemsStart(Concat(PreamblePieces(r)), r.input.items);
    }
  }

  lemma WithItemsStart(text: string, items: seq<Item>)
    ensures |text| <= |WithItems(text, items)|
  {
    WithItemsGrows(text, items, 0);
    assert items[..0] == [];
  }
}
