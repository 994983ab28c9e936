/** What the tool history records of a line and shows of an entry, spelled out from
    src/tool_history.c. */
module HistoryLaws {
  import opened JsonText
  import opened Printf
  import opened Texts
  import H = ToolHistory

  // ---- What is recorded

  predicate IsWord(s: string) { forall i | 0 <= i < |s| :: s[i] != ' ' }

  /** A line "KIND tool args" of at most 1023 bytes is recorded as the first 63 bytes of
      the tool and the first 255 of the arguments, with an error exactly if TOOL_ERROR
      occurs anywhere in it. */
  lemma LineIsRecorded(kind: string, tool: string, args: string)
    requires IsWord(kind) && IsWord(tool)
    ensures var line := kind + (" " + (tool + (" " + args)));
            |line| <= 1023 ==>
              H.EntryOf(line) == Some(H.Entry(if |tool| <= 63 then tool else tool[..63],
                                              if |args| <= 255 then args else args[..255], StatusOf(line)))
  {
    hide *;
    NoSpace(kind);
    NoSpace(tool);
    H.LineParts(kind, tool + (" " + args));
    H.EntryParts(tool, args, StatusOf(kind + (" " + (tool + (" " + args)))));
    StatusIs(kind + (" " + (tool + (" " + args))));
    CutsAre(tool, 63);
    CutsAre(args, 255);
  }

  /** Without arguments. */
  lemma LineWithoutArgs(kind: string, tool: string)
    requires IsWord(kind) && IsWord(tool)
    ensures var line := kind + (" " + tool);
            |line| <= 1023 ==>
              H.EntryOf(line) == Some(H.Entry(if |tool| <= 63 then tool else tool[..63], "", StatusOf(line)))
  {
    hide *;
    NoSpace(kind);
    NoSpace(tool);
    H.LineParts(kind, tool);
    H.EntryParts(tool, "", StatusOf(kind + (" " + tool)));
    StatusIs(kind + (" " + tool));
    CutsAre(tool, 63);
  }

  lemma NoSpace(s: string)
    ensures IsWord(s) <==> forall i | 0 <= i < |s| :: s[i] != ' '
  {
  }

  function StatusOf(line: string): H.Status { if Contains(line, "TOOL_ERROR") then H.Error else H.Ok }

  lemma CutsAre(s: string, n: nat)
    ensures Cut(s, n) == if |s| <= n then s else s[..n]
  {
  }

  lemma StatusIs(line: string)
    ensures StatusOf(line) == H.StatusIn(line)
  {
    hide Contains;
  }

  /** A line without a space in its first 1023 bytes is not recorded. */
  lemma WordIsNotRecorded(line: string)
    requires IsWord(if |line| <= 1023 then line else line[..1023])
    ensures H.EntryOf(line) == None
  {
    var word := Cut(line, 1023);
    H.SpaceAtIs(word, "");
    assert word + "" == word && H.SpaceAt("") == 0;
    hide Contains, H.SpaceAt;
  }

  /** Twenty entries are kept unless a number is configured, and never more than 64. */
  lemma LimitIs(configured: int)
    ensures H.Limit(configured) == if configured <= 0 then 20 else if configured > 64 then 64 else configured
  {
  }

  /** Lines of 2047 bytes and more are not parsed. */
  lemma OversizeIs(line: string)
    ensures H.Oversize(line) <==> |line| >= 2047
  {
  }

  // ---- What is shown

  /** A byte of a field: quotes and backslashes are escaped, and newlines if asked. */
  function FieldUnit(c: char, newlines: bool): (u: Unit)
    ensures WellFormed(u)
  {
    if c == '"' || c == '\\' then Simple(c) else if newlines && c == '\n' then Simple('n') else Plain(c)
  }

  function FieldUnits(s: string, newlines: bool): (us: seq<Unit>)
    ensures AllWellFormed(us)
  {
    if s == [] then [] else [FieldUnit(s[0], newlines)] + FieldUnits(s[1..], newlines)
  }

  /** A field short enough is written as a JSON string that stands for it. */
  lemma FieldStandsForItself(s: string, newlines: bool, maxLen: nat)
    requires 2 * |s| + 5 <= maxLen
    ensures H.EscapeField(s, newlines, [], maxLen) == PrintAll(FieldUnits(s, newlines))
    ensures MeaningAll(FieldUnits(s, newlines)) == s
  {
    FieldFrom(s, newlines, [], maxLen);
    assert [] + PrintAll(FieldUnits(s, newlines)) == PrintAll(FieldUnits(s, newlines));
  }

  lemma {:induction false} FieldFrom(s: string, newlines: bool, out: string, maxLen: nat)
    requires |out| + 2 * |s| + 5 <= maxLen
    ensures H.EscapeField(s, newlines, out, maxLen) == out + PrintAll(FieldUnits(s, newlines))
    ensures MeaningAll(FieldUnits(s, newlines)) == s
  {
    if s == [] {
      assert out + [] == out;
    } else {
      hide *;
      var u, rest := Print(FieldUnit(s[0], newlines)), PrintAll(FieldUnits(s[1..], newlines));
      UnitText(s[0], newlines);
      FieldFrom(s[1..], newlines, out + u, maxLen);
      FirstUnit(s, newlines);
      FieldStep(s, newlines, out, maxLen);
      assert out + u + rest == out + (u + rest);
      assert [s[0]] + s[1..] == s;
    }
  }

  lemma FieldStep(s: string, newlines: bool, out: string, maxLen: nat)
    requires s != [] && |out| + 5 < maxLen
    ensures |Print(FieldUnit(s[0], newlines))| <= 2
    ensures H.EscapeField(s, newlines, out, maxLen)
         == H.EscapeField(s[1..], newlines, out + Print(FieldUnit(s[0], newlines)), maxLen)
  {
    UnitText(s[0], newlines);
    hide FieldUnit;
  }

  lemma FirstUnit(s: string, newlines: bool)
    requires s != []
    ensures PrintAll(FieldUnits(s, newlines))
         == Print(FieldUnit(s[0], newlines)) + PrintAll(FieldUnits(s[1..], newlines))
    ensures MeaningAll(FieldUnits(s, newlines))
         == Meaning(FieldUnit(s[0], newlines)) + MeaningAll(FieldUnits(s[1..], newlines))
  {
    hide FieldUnit, Print, Meaning;
    assert FieldUnits(s, newlines)[1..] == FieldUnits(s[1..], newlines);
  }

  lemma UnitText(c: char, newlines: bool)
    ensures var u := FieldUnit(c, newlines);
            && |Print(u)| <= 2 && Meaning(u) == [c]
            && Print(u) == (if c == '"' || c == '\\' then ['\\', c] else if newlines && c == '\n' then "\\n" else [c])
  {
  }

  /** An entry as the view shows it. */
  lemma EntryIsShown(e: H.Entry)
    ensures H.EntryText(e)
         == "{\"tool\":\"" + H.EscapeField(e.tool, false, [], 128) + "\",\"args\":\""
            + H.EscapeField(e.args, true, [], 160) + "\",\"status\":\""
            + (if e.status.Ok? then "ok" else "error") + "\"}"
  {
    hide H.EscapeField;
  }

  /** The text in front of the entries says how many are missing, if any are. */
  lemma HeaderIs(dropped: nat, count: nat)
    ensures H.Header(dropped, count)
         == if dropped == 0 || count == 0 then "["
            else "[{\"truncated\":true,\"dropped\":" + Decimal(dropped) + "},"
  {
    hide Decimal;
    assert "[" + "" == "[";
    assert "[" + ("{\"truncated\":true,\"dropped\":" + Decimal(dropped) + "},")
        == "[" + "{\"truncated\":true,\"dropped\":" + Decimal(dropped) + "},";
    assert "[" + "{\"truncated\":true,\"dropped\":" == "[{\"truncated\":true,\"dropped\":";
  }

  /** The last twelve entries are considered. */
  lemma NewestTwelve(entries: seq<H.Entry>)
    ensures H.NewestFew(entries) <= entries || |entries| > 12
    ensures |H.NewestFew(entries)| == if |entries| < 12 then |entries| else 12
    ensures H.NewestFew(entries) == entries[|entries| - |H.NewestFew(entries)|..]
  {
  }
}
