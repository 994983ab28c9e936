/** The server-sent events of one response: src/responses_stream_state.c. An event
    is kept as a record; its JSON text is not. Socket writes succeed. */
module ResponsesStream {
  import opened Texts

  const MAX_ITEMS := 16
  const MAX_PARTS := 16
  const TEXT_SIZE := 131072 // sizeof part->text, one byte of it for the NUL

  datatype Kind = Created | ItemAdded | PartAdded | Delta | TextDone | PartDone | ItemDone
                | Completed(incomplete: string) | Failed | Error

  datatype Event = Event(kind: Kind, text: string, number: nat)

  datatype PartType = OutputText | ReasoningSummary | FunctionCall
  datatype Part = Part(kind: PartType, text: string, seqStart: nat)
  datatype Item = Item(parts: seq<Part>, completed: bool)
  datatype Terminal = Active | Done | Broken

  predicate IsTerminal(k: Kind) { k.Completed? || k.Failed? || k.Error? }

  // ---- What the client should see, on values

  /** The events of a list of payloads, numbered from n without a gap. */
  function Numbered(payloads: seq<(Kind, string)>, n: nat): (es: seq<Event>)
    ensures |es| == |payloads|
  {
    seq(|payloads|, i requires 0 <= i < |payloads| => Event(payloads[i].0, payloads[i].1, n + i))
  }

  lemma NumberedBoth(a: seq<(Kind, string)>, b: seq<(Kind, string)>, n: nat)
    ensures Numbered(a + b, n) == Numbered(a, n) + Numbered(b, n + |a|)
  {
  }

  function DeltaPayloads(deltas: seq<string>): (ps: seq<(Kind, string)>)
    ensures |ps| == |deltas|
  {
    seq(|deltas|, i requires 0 <= i < |deltas| => (Delta, deltas[i]))
  }

  const OPENING: seq<(Kind, string)> := [(Created, ""), (ItemAdded, ""), (PartAdded, "")]

  function CompletedTail(text: string, incomplete: string): seq<(Kind, string)> {
    [(TextDone, text), (PartDone, text), (ItemDone, text), (Completed(incomplete), text)]
  }

  /** The text a part ends up with: each delta in turn, unless it no longer fits. */
  function Fit(deltas: seq<string>): (text: string)
    ensures |text| < TEXT_SIZE
  {
    if deltas == [] then [] else Grown(Fit(deltas[..|deltas| - 1]), deltas[|deltas| - 1])
  }

  function Grown(text: string, delta: string): string {
    if |text| + |delta| < TEXT_SIZE then text + delta else text
  }

  lemma FitSnoc(deltas: seq<string>, delta: string)
    ensures Fit(deltas + [delta]) == Grown(Fit(deltas), delta)
  {
    assert (deltas + [delta])[..|deltas|] == deltas;
  }

  /** The final text is everything that was streamed exactly when that is shorter
      than the buffer. */
  lemma {:induction false} FitIsConcatIff(deltas: seq<string>)
    ensures Fit(deltas) == Concat(deltas) <==> |Concat(deltas)| < TEXT_SIZE
  {
    if deltas != [] {
      FitIsConcatIff(deltas[..|deltas| - 1]);
      if |Concat(deltas)| < TEXT_SIZE {
        assert |Concat(deltas[..|deltas| - 1])| < TEXT_SIZE;
      }
    }
  }

  predicate Picks(kept: seq<nat>, n: nat) {
    forall i | 0 <= i < |kept| :: kept[i] < n && (i > 0 ==> kept[i - 1] < kept[i])
  }

  function Picked(deltas: seq<string>, kept: seq<nat>): (ts: seq<string>)
    requires Picks(kept, |deltas|)
    ensures |ts| == |kept| && forall i | 0 <= i < |ts| :: ts[i] == deltas[kept[i]]
  {
    seq(|kept|, i requires 0 <= i < |kept| => deltas[kept[i]])
  }

  /** In general it is the concatenation of the deltas at some of the positions,
      and a delta is left out only where it would have overflowed the buffer. */
  lemma {:induction false} FitKeepsWhatFits(deltas: seq<string>) returns (kept: seq<nat>)
    ensures Picks(kept, |deltas|) && Fit(deltas) == Concat(Picked(deltas, kept))
    ensures KeepsFitting(deltas, kept)
  {
    if deltas == [] {
      kept := [];
      assert Picked(deltas, kept) == [];
    } else {
      hide *;
      var n := |deltas| - 1;
      var before := FitKeepsWhatFits(deltas[..n]);
      kept := if |Fit(deltas[..n])| + |deltas[n]| < TEXT_SIZE then before + [n] else before;
      StillFits(deltas, before, kept);
      PickedStep(deltas, before, kept);
    }
  }

  ghost predicate KeepsFitting(deltas: seq<string>, kept: seq<nat>) {
    forall k | 0 <= k < |deltas| :: k in kept <==> |Fit(deltas[..k])| + |deltas[k]| < TEXT_SIZE
  }

  lemma StillFits(deltas: seq<string>, before: seq<nat>, kept: seq<nat>)
    requires deltas != [] && Picks(before, |deltas| - 1) && KeepsFitting(deltas[..|deltas| - 1], before)
    requires kept == if |Fit(deltas[..|deltas| - 1])| + |deltas[|deltas| - 1]| < TEXT_SIZE
                     then before + [|deltas| - 1] else before
    ensures Picks(kept, |deltas|) && KeepsFitting(deltas, kept)
  {
    hide Fit;
    var n := |deltas| - 1;
    forall k | 0 <= k < |deltas| ensures k in kept <==> |Fit(deltas[..k])| + |deltas[k]| < TEXT_SIZE {
      if k < n { assert deltas[..n][..k] == deltas[..k] && deltas[..n][k] == deltas[k]; }
    }
  }

  lemma PickedStep(deltas: seq<string>, before: seq<nat>, kept: seq<nat>)
    requires deltas != [] && Picks(before, |deltas| - 1) && Picks(kept, |deltas|)
    requires kept == if |Fit(deltas[..|deltas| - 1])| + |deltas[|deltas| - 1]| < TEXT_SIZE
                     then before + [|deltas| - 1] else before
    requires Fit(deltas[..|deltas| - 1]) == Concat(Picked(deltas[..|deltas| - 1], before))
    ensures Fit(deltas) == Concat(Picked(deltas, kept))
  {
    var n := |deltas| - 1;
    var chosen := Picked(deltas[..n], before);
    assert Fit(deltas) == Grown(Fit(deltas[..n]), deltas[n]);
    PickedSnoc(deltas, before);
    hide Fit, Concat, Picked, Picks;
    ConcatBoth(chosen, [deltas[n]]);
    ConcatOne(deltas[n]);
  }

  lemma PickedSnoc(deltas: seq<string>, before: seq<nat>)
    requires deltas != [] && Picks(before, |deltas| - 1)
    ensures Picks(before, |deltas|) && Picks(before + [|deltas| - 1], |deltas|)
    ensures Picked(deltas, before) == Picked(deltas[..|deltas| - 1], before)
    ensures Picked(deltas, before + [|deltas| - 1]) == Picked(deltas[..|deltas| - 1], before) + [deltas[|deltas| - 1]]
  {
  }

  // ---- The stream object

  class Stream {
    var wire: seq<Event>
    var sequenceNumber: nat
    var items: seq<Item>
    var curItem: int
    var curPart: int
    var terminal: Terminal
    var incompleteDetails: string
    var errorMessage: string
    var doneMarkers: nat

    predicate Valid() reads this {
      && sequenceNumber == |wire|
      && -1 <= curItem < |items| && -1 <= curPart
      && (curItem < 0 ==> curPart == -1)
      && (curItem >= 0 ==> curPart < |items[curItem].parts|)
    }

    /** One text part is open: what a turn streams into. */
    predicate Open() reads this {
      Valid() && curItem == 0 && curPart == 0 && |items| == 1 && |items[0].parts| == 1
      && items[0].parts[0].kind == OutputText
    }

    function Text(): string
      requires Open()
      reads this
    {
      items[0].parts[0].text
    }

    constructor ()
      ensures Valid() && wire == [] && items == [] && terminal == Active && incompleteDetails == "" && curItem == -1
      ensures doneMarkers == 0
    {
      wire, sequenceNumber, items, curItem, curPart := [], 0, [], -1, -1;
      terminal, incompleteDetails, errorMessage, doneMarkers := Active, "", "", 0;
    }

    method Send(kind: Kind, text: string)
      modifies this`wire, this`sequenceNumber
      ensures wire == old(wire) + [Event(kind, text, old(sequenceNumber))]
      ensures sequenceNumber == old(sequenceNumber) + 1
    {
      wire := wire + [Event(kind, text, sequenceNumber)];
      sequenceNumber := sequenceNumber + 1;
    }

    /** The JSON of response.created carries the literal number 0. */
    method EmitCreated()
      modifies this`wire, this`sequenceNumber
      ensures wire == old(wire) + [Event(Created, "", 0)]
      ensures sequenceNumber == old(sequenceNumber) + 1
    {
      wire := wire + [Event(Created, "", 0)];
      sequenceNumber := sequenceNumber + 1;
    }

    method StartItem() returns (ok: bool)
      requires Valid()
      modifies this`wire, this`sequenceNumber, this`items, this`curItem, this`curPart
      ensures Valid() && (ok <==> old(|items|) < MAX_ITEMS)
      ensures if ok
              then wire == old(wire) + [Event(ItemAdded, "", old(sequenceNumber))]
                && items == old(items) + [Item([], false)] && curItem == old(|items|) && curPart == -1
              else wire == old(wire) && items == old(items) && curItem == old(curItem) && curPart == old(curPart)
    {
      if |items| >= MAX_ITEMS { return false; }
      Send(ItemAdded, "");
      items := items + [Item([], false)];
      curItem, curPart := |items| - 1, -1;
      ok := true;
    }

    method StartPart(kind: PartType) returns (ok: bool)
      requires Valid()
      modifies this`wire, this`sequenceNumber, this`items, this`curPart
      ensures Valid() && (ok <==> curItem >= 0 && old(|items[curItem].parts|) < MAX_PARTS)
      ensures if ok
              then wire == old(wire) + [Event(PartAdded, "", old(sequenceNumber))]
                && curPart == old(|items[curItem].parts|)
                && items == old(items[curItem := items[curItem].(
                     parts := items[curItem].parts + [Part(kind, "", sequenceNumber)])])
              else wire == old(wire) && items == old(items) && curPart == old(curPart)
    {
      if curItem < 0 { return false; }
      var item := items[curItem];
      if |item.parts| >= MAX_PARTS { return false; }
      var start := sequenceNumber;
      Send(PartAdded, "");
      items := items[curItem := item.(parts := item.parts + [Part(kind, "", start)])];
      curPart := |item.parts|;
      ok := true;
    }

    method EmitTextDelta(delta: string) returns (ok: bool)
      requires Valid()
      modifies this`wire, this`sequenceNumber, this`items
      ensures Valid()
      ensures ok <==> curItem >= 0 && curPart >= 0 && old(items[curItem].parts[curPart].kind) == OutputText
      ensures !ok ==> wire == old(wire) && items == old(items)
      ensures ok ==> wire == old(wire) + [Event(Delta, delta, old(sequenceNumber))]
      ensures ok ==> items == old(items[curItem := items[curItem].(parts := items[curItem].parts[curPart :=
                       items[curItem].parts[curPart].(text := Grown(items[curItem].parts[curPart].text, delta))])])
      ensures old(Open()) ==> ok && Open() && Text() == Grown(old(Text()), delta)
    {
      if curItem < 0 || curPart < 0 { return false; }
      var item := items[curItem];
      var part := item.parts[curPart];
      if part.kind != OutputText { return false; }
      Send(Delta, delta);
      var text := part.text;
      if |text| + |delta| < TEXT_SIZE { text := text + delta; }
      items := items[curItem := item.(parts := item.parts[curPart := part.(text := text)])];
      ok := true;
    }

    method EmitTextDone() returns (ok: bool)
      requires Valid()
      modifies this`wire, this`sequenceNumber
      ensures Valid()
      ensures ok <==> curItem >= 0 && curPart >= 0 && items[curItem].parts[curPart].kind == OutputText
      ensures wire == old(wire) + if ok then [Event(TextDone, items[curItem].parts[curPart].text, old(sequenceNumber))]
                                  else []
    {
      if curItem < 0 || curPart < 0 { return false; }
      var part := items[curItem].parts[curPart];
      if part.kind != OutputText { return false; }
      Send(TextDone, part.text);
      ok := true;
    }

    method EmitPartDone() returns (ok: bool)
      requires Valid()
      modifies this`wire, this`sequenceNumber
      ensures Valid() && (ok <==> curItem >= 0 && curPart >= 0)
      ensures wire == old(wire) + if ok then [Event(PartDone, items[curItem].parts[curPart].text, old(sequenceNumber))]
                                  else []
    {
      if curItem < 0 || curPart < 0 { return false; }
      Send(PartDone, items[curItem].parts[curPart].text);
      ok := true;
    }

    /** Carries the text of the item's first part, which is blank before one exists. */
    method EmitItemDone() returns (ok: bool)
      requires Valid()
      modifies this`wire, this`sequenceNumber, this`items
      ensures Valid() && (ok <==> curItem >= 0)
      ensures if ok
              then wire == old(wire) + [Event(ItemDone, old(FirstText(items[curItem])), old(sequenceNumber))]
                && items == old(items[curItem := items[curItem].(completed := true)])
              else wire == old(wire) && items == old(items)
    {
      if curItem < 0 { return false; }
      var parts := items[curItem].parts;
      Send(ItemDone, if parts == [] then "" else parts[0].text);
      items := items[curItem := items[curItem].(completed := true)];
      ok := true;
    }

    method EmitCompleted()
      requires Valid()
      modifies this`wire, this`sequenceNumber, this`terminal, this`doneMarkers
      ensures Valid() && terminal == Done && doneMarkers == old(doneMarkers) + 1
      ensures var text := if items == [] then "" else FirstText(items[0]);
              wire == old(wire) + [Event(Completed(incompleteDetails), text, old(sequenceNumber))]
    {
      var finalText := "";
      if items != [] && items[0].parts != [] { finalText := items[0].parts[0].text; }
      Send(Completed(incompleteDetails), finalText);
      doneMarkers := doneMarkers + 1;
      terminal := Done;
    }

    method EmitError(message: string)
      requires Valid()
      modifies this`wire, this`sequenceNumber, this`terminal, this`errorMessage
      ensures Valid() && terminal == Broken
      ensures wire == old(wire) + [Event(Error, message, old(sequenceNumber))]
    {
      Send(Error, message);
      errorMessage := Cut(message, 255);
      terminal := Broken;
    }

    method EmitFailed(reason: string)
      requires Valid()
      modifies this`wire, this`sequenceNumber, this`terminal, this`errorMessage
      ensures Valid() && terminal == Broken
      ensures wire == old(wire) + [Event(Failed, if reason == "" then "failed" else reason, old(sequenceNumber))]
    {
      var r := if reason == "" then "failed" else reason;
      Send(Failed, r);
      errorMessage := Cut(r, 255);
      terminal := Broken;
    }

    /** The first three events, as both callers open a text stream. */
    method OpenText()
      requires Valid() && wire == [] && items == []
      modifies this`wire, this`sequenceNumber, this`items, this`curItem, this`curPart
      ensures Open() && Text() == Fit([]) && wire == Numbered(OPENING, 0)
    {
      EmitCreated();
      var started := StartItem();
      started := StartPart(OutputText);
    }

    /** The four events that end a text stream well. */
    method CloseText()
      requires Open()
      modifies this`wire, this`sequenceNumber, this`items, this`terminal, this`doneMarkers
      ensures Valid() && terminal == Done && doneMarkers == old(doneMarkers) + 1
      ensures wire == old(wire) + Numbered(CompletedTail(old(Text()), incompleteDetails), |old(wire)|)
    {
      ghost var text, before := Text(), wire;
      var ok := EmitTextDone();
      ok := EmitPartDone();
      ok := EmitItemDone();
      EmitCompleted();
      assert wire == before + Numbered(CompletedTail(text, incompleteDetails), |before|);
    }

    /** One more delta on an open stream that has streamed `earlier`. */
    method StreamDelta(delta: string, ghost earlier: seq<string>)
      requires Open() && Text() == Fit(earlier)
      modifies this`wire, this`sequenceNumber, this`items
      ensures Open() && Text() == Fit(earlier + [delta])
      ensures wire == old(wire) + [Event(Delta, delta, |old(wire)|)]
    {
      FitSnoc(earlier, delta);
      hide Fit;
      var ok := EmitTextDelta(delta);
    }

    /** What the loop below has done once `sent` is out. */
    ghost predicate Streamed(before: seq<Event>, earlier: seq<string>, sent: seq<string>)
      reads this
    {
      Open() && wire == before + Numbered(DeltaPayloads(sent), |before|) && Text() == Fit(earlier + sent)
    }

    method EmitChunk(chunk: string, ghost before: seq<Event>, ghost earlier: seq<string>, ghost sent: seq<string>)
      requires Streamed(before, earlier, sent)
      modifies this`wire, this`sequenceNumber, this`items
      ensures Streamed(before, earlier, sent + [chunk])
    {
      hide Open, Fit, Numbered, DeltaPayloads;
      StreamDelta(chunk, earlier + sent);
      NumberedDeltas(sent, chunk, |before|);
      assert earlier + (sent + [chunk]) == (earlier + sent) + [chunk];
    }

    lemma NothingSent(text: string, size: nat, earlier: seq<string>)
      requires Open() && 0 < size && Text() == Fit(earlier)
      ensures Streamed(wire, earlier, []) && ChunksSent([], text, 0, size)
    {
      hide Open, Fit, Chunks;
      assert text[0..] == text && earlier + [] == earlier;
      assert wire + Numbered(DeltaPayloads([]), |wire|) == wire;
    }

    /** A text in deltas of at most `size` bytes. */
    method EmitChunks(text: string, size: nat, ghost earlier: seq<string>)
      requires Open() && 0 < size && Text() == Fit(earlier)
      modifies this`wire, this`sequenceNumber, this`items
      ensures Streamed(old(wire), earlier, Chunks(text, size))
    {
      hide *;
      NothingSent(text, size, earlier);
      ghost var before := wire;
      ghost var sent: seq<string> := [];
      var off := 0;
      while off < |text|
        invariant off <= |text| && Streamed(before, earlier, sent) && ChunksSent(sent, text, off, size)
      {
        var n := if |text| - off > size then size else |text| - off;
        var chunk := text[off..off + n];
        OneMoreChunk(sent, text, off, size);
        EmitChunk(chunk, before, earlier, sent);
        sent, off := sent + [chunk], off + n;
      }
      NoMoreChunks(sent, text, size);
    }

    /** A text in chunks, after the deltas streamed since `before`. */
    method EmitMore(text: string, size: nat, ghost before: seq<Event>, ghost deltas: seq<string>)
      requires 0 < size && Streamed(before, [], deltas)
      modifies this`wire, this`sequenceNumber, this`items
      ensures Streamed(before, [], deltas + Chunks(text, size))
    {
      hide Open, Fit, Numbered, DeltaPayloads, Chunks;
      assert [] + deltas == deltas;
      EmitChunks(text, size, deltas);
      assert [] + (deltas + Chunks(text, size)) == deltas + Chunks(text, size);
      DeltasBoth(deltas, Chunks(text, size), |before|);
    }

    /** responses_stream_run_text: the whole life of a stream whose text is known. */
    method RunText(content: string, size: nat) returns (ok: bool)
      requires Valid() && wire == [] && items == [] && terminal == Active && 0 < size <= 4096
      modifies this
      ensures ok && Valid() && terminal == Done
      ensures wire == Numbered(OPENING + DeltaPayloads(Chunks(content, size))
                               + CompletedTail(Fit(Chunks(content, size)), old(incompleteDetails)), 0)
    {
      hide *;
      ghost var chunks, details := Chunks(content, size), incompleteDetails;
      OpenText();
      NothingStreamed(this);
      ghost var front := wire;
      EmitMore(content, size, front, []);
      assert [] + chunks == chunks;
      StreamedText(this, front, chunks);
      CloseText();
      NumberedThree(OPENING, DeltaPayloads(chunks), CompletedTail(Fit(chunks), details));
      LengthsOf(chunks, 0);
      ok := true;
    }
  }

  lemma LengthsOf(deltas: seq<string>, n: nat)
    ensures |Numbered(DeltaPayloads(deltas), n)| == |deltas| && |Numbered(OPENING, n)| == |OPENING|
  {
  }

  lemma NumberedThree(a: seq<(Kind, string)>, b: seq<(Kind, string)>, c: seq<(Kind, string)>)
    ensures Numbered(a + b + c, 0) == Numbered(a, 0) + Numbered(b, |a|) + Numbered(c, |a| + |b|)
  {
    hide Numbered;
    NumberedBoth(a, b, 0);
    NumberedBoth(a + b, c, 0);
  }

  function FirstText(item: Item): string {
    if item.parts == [] then "" else item.parts[0].text
  }

  function Chunks(text: string, size: nat): (cs: seq<string>)
    requires 0 < size
    ensures forall c | c in cs :: 0 < |c| <= size
  {
    if text == [] then []
    else if |text| <= size then [text]
    else [text[..size]] + Chunks(text[size..], size)
  }

  lemma ChunkStep(text: string, off: nat, size: nat)
    requires off < |text| && 0 < size
    ensures var n := if |text| - off > size then size else |text| - off;
            Chunks(text[off..], size) == [text[off..off + n]] + Chunks(text[off + n..], size)
  {
    var rest := text[off..];
    if |rest| <= size {
      assert text[off..|text|] == rest;
    } else {
      assert rest[..size] == text[off..off + size] && rest[size..] == text[off + size..];
    }
  }

  predicate ChunksSent(sent: seq<string>, text: string, off: nat, size: nat)
    requires off <= |text| && 0 < size
  {
    sent + Chunks(text[off..], size) == Chunks(text, size)
  }

  lemma OneMoreChunk(sent: seq<string>, text: string, off: nat, size: nat)
    requires off < |text| && 0 < size && ChunksSent(sent, text, off, size)
    ensures var n := if |text| - off > size then size else |text| - off;
            ChunksSent(sent + [text[off..off + n]], text, off + n, size)
  {
    hide Chunks;
    var n := if |text| - off > size then size else |text| - off;
    ChunkStep(text, off, size);
    assert (sent + [text[off..off + n]]) + Chunks(text[off + n..], size)
           == sent + ([text[off..off + n]] + Chunks(text[off + n..], size));
  }

  lemma NoMoreChunks(sent: seq<string>, text: string, size: nat)
    requires 0 < size && ChunksSent(sent, text, |text|, size)
    ensures sent == Chunks(text, size)
  {
    assert Chunks(text[|text|..], size) == [];
  }

  lemma {:induction false} ChunksCoverText(text: string, size: nat)
    requires 0 < size
    ensures Concat(Chunks(text, size)) == text
    decreases |text|
  {
    hide Concat;
    ConcatOne(text);
    if |text| > size {
      ChunksCoverText(text[size..], size);
      ConcatOne(text[..size]);
      ConcatBoth([text[..size]], Chunks(text[size..], size));
      assert text == text[..size] + text[size..];
    }
  }

  lemma NumberedDeltas(deltas: seq<string>, delta: string, n: nat)
    ensures Numbered(DeltaPayloads(deltas + [delta]), n)
            == Numbered(DeltaPayloads(deltas), n) + [Event(Delta, delta, n + |deltas|)]
  {
    assert DeltaPayloads(deltas + [delta]) == DeltaPayloads(deltas) + [(Delta, delta)];
    NumberedBoth(DeltaPayloads(deltas), [(Delta, delta)], n);
  }

  lemma DeltasBoth(a: seq<string>, b: seq<string>, n: nat)
    ensures Numbered(DeltaPayloads(a + b), n) == Numbered(DeltaPayloads(a), n) + Numbered(DeltaPayloads(b), n + |a|)
  {
    assert DeltaPayloads(a + b) == DeltaPayloads(a) + DeltaPayloads(b);
    NumberedBoth(DeltaPayloads(a), DeltaPayloads(b), n);
  }

  lemma NothingStreamed(stream: Stream)
    requires stream.Open() && stream.Text() == Fit([])
    ensures stream.Streamed(stream.wire, [], [])
  {
    var none: seq<string> := [];
    assert none + none == none;
    assert stream.wire + Numbered(DeltaPayloads([]), |stream.wire|) == stream.wire;
  }

  lemma StreamedText(stream: Stream, before: seq<Event>, deltas: seq<string>)
    requires stream.Streamed(before, [], deltas)
    ensures stream.Open() && stream.Text() == Fit(deltas)
    ensures stream.wire == before + Numbered(DeltaPayloads(deltas), |before|)
  {
    assert [] + deltas == deltas;
  }

  /** A stream whose text is known says it all in its last event, exactly when the
      text is shorter than the buffer. */
  lemma RunTextIsFaithfulIff(content: string, size: nat)
    requires 0 < size
    ensures Fit(Chunks(content, size)) == content <==> |content| < TEXT_SIZE
  {
    ChunksCoverText(content, size);
    FitIsConcatIff(Chunks(content, size));
  }
}
