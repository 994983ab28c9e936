/** One framed streaming request from its first event to its last: the part of
    handle_response_native in src/server.c around the phases of a turn. */
module ResponseTurn {
  import opened Texts
  import opened TurnTrace
  import opened ResponsesStream
  import opened TurnContext
  import ToolArgs

  const NO_REASON := "native turn failed (see bridge logs)"
  const LIMIT_DETAILS := "max_turn_events"

  /** How far the turn got: it could not begin, the ack was not an acceptance, or
      the loop ran to poll n. */
  datatype Course = NotBegun | Refused | Ran(n: nat, ending: Ending)

  predicate CourseOk(c: Course) { c.Ran? && Succeeds(c.ending) }

  /** Everything streamed as a delta, the chunks of the response included. */
  function Streamed(env: Env, tr: seq<Poll>, c: Course): seq<string> {
    if c.Ran? then Deltas(Heard(tr, c.n), env.requestId) + FinalChunks(c.ending) else []
  }

  predicate WasCancelled(env: Env, tr: seq<Poll>, c: Course) {
    c.Ran? && HasDelete(AllAsked(env, tr, c.n, c.ending))
  }

  function Tail(ok: bool, cancelled: bool, limited: bool, text: string, out: string): seq<(Kind, string)> {
    if ok then CompletedTail(text, if limited then LIMIT_DETAILS else "")
    else if cancelled then [(Failed, "cancelled")]
    else [(Error, if out == "" then NO_REASON else out)]
  }

  /** The payloads of the whole stream. */
  function Script(env: Env, tr: seq<Poll>, c: Course, out: string): seq<(Kind, string)> {
    OPENING + DeltaPayloads(Streamed(env, tr, c))
    + Tail(CourseOk(c), WasCancelled(env, tr, c), c.Ran? && c.ending.EventLimit?, Fit(Streamed(env, tr, c)), out)
  }

  function CancelOf(env: Env, canWrite: bool): seq<Sent> { if canWrite then [CancelFrame(env.requestId)] else [] }

  /** The frames written to the agent. */
  function FramesSent(env: Env, canWrite: bool, acks: seq<Reading>, tr: seq<Poll>, c: Course): seq<Sent> {
    match c
    case NotBegun => []
    case Refused => [TurnRequest(env.requestId)] + AckSent(acks, env.requestId, canWrite)
    case Ran(n, e) => [TurnRequest(env.requestId)] + AllWritten(env, canWrite, tr, n, e, CancelOf(env, canWrite))
  }

  ghost predicate TakesCourse(env: Env, begun: bool, acks: seq<Reading>, tr: seq<Poll>, c: Course) {
    match c
    case NotBegun => !begun
    case Refused => begun && !Accepted(acks, env.requestId)
    case Ran(n, e) => begun && Accepted(acks, env.requestId) && EndsAt(env, tr, n, e)
  }

  /** The tail of the stream, on the state the turn left. */
  method EndStream(stream: Stream, ok: bool, cancelled: bool, limited: bool, out: string)
    requires stream.Open() && stream.incompleteDetails == "" && stream.terminal == Active
    modifies stream
    ensures stream.terminal != Active && stream.sequenceNumber == |stream.wire|
    ensures stream.wire == old(stream.wire)
            + Numbered(Tail(ok, cancelled, limited, old(stream.Text()), out), |old(stream.wire)|)
  {
    if ok {
      if limited { stream.incompleteDetails := LIMIT_DETAILS; }
      stream.CloseText();
    } else if cancelled {
      stream.EmitFailed("cancelled");
    } else {
      stream.EmitError(if out == "" then NO_REASON else out);
    }
  }

  /** The phases of a turn on an open stream. */
  method RunPhases(turn: Turn, begun: bool, acks: seq<Reading>, tr: seq<Poll>) returns (ok: bool, ghost c: Course)
    requires turn.env.outMax > 0 && turn.env.requestId != "" && turn.answers == [] && !turn.eventLimitExceeded
    requires turn.stream.Open() && turn.stream.Text() == Fit([])
    modifies turn, turn.eng, turn.stream`wire, turn.stream`sequenceNumber, turn.stream`items
    ensures var env, eng := turn.env, turn.eng;
            && TakesCourse(env, begun, acks, tr, c) && ok == CourseOk(c)
            && turn.stream.Streamed(old(turn.stream.wire), [], Streamed(env, tr, c))
            && eng.written == old(eng.written) + FramesSent(env, eng.canWrite, acks, tr, c)
            && (c.Ran? ==> turn.outBuf == FinalOutput(env, Heard(tr, c.n), c.ending, old(turn.outBuf)))
            && turn.answers == (if c.Ran? then AnswersTo(AllAsked(env, tr, c.n, c.ending)) else [])
            && eng.cancelled == WasCancelled(env, tr, c)
            && turn.eventLimitExceeded == (c.Ran? && c.ending.EventLimit?)
  {
    hide *;
    ghost var env, eng, written := turn.env, turn.eng, turn.eng.written;
    NothingStreamed(turn.stream);
    turn.eng.cancelled, turn.eng.currentId := false, turn.env.requestId;
    if !begun {
      c, ok := NotBegun, false;
      EarlyCourse(env, eng.canWrite, begun, acks, tr, c, written);
      return;
    }
    turn.eng.WriteFrame(TurnRequest(turn.env.requestId));
    ok := turn.AwaitAck(acks);
    if !ok {
      c := Refused;
      EarlyCourse(env, eng.canWrite, begun, acks, tr, c, written);
      return;
    }
    AcceptanceIsSilent(acks, env.requestId, eng.canWrite);
    ghost var start := Start(turn.outBuf, eng.written, turn.stream.wire, turn.answers);
    ghost var n, e;
    ok, n, e := turn.ProcessEvents(tr);
    c := Ran(n, e);
    turn.OverFacts(start, tr, n, e);
    RanCourse(turn, written, acks, tr, n, e);
  }

  lemma AcceptanceIsSilent(acks: seq<Reading>, id: string, canWrite: bool)
    requires Accepted(acks, id)
    ensures AckSent(acks, id, canWrite) == []
    ensures forall written: seq<Sent> {:trigger written + []} :: written + [] == written
  {
    hide Contains, Decisive;
  }

  lemma EarlyCourse(env: Env, canWrite: bool, begun: bool, acks: seq<Reading>, tr: seq<Poll>, c: Course,
      written: seq<Sent>)
    requires (c.NotBegun? && !begun) || (c.Refused? && begun && !Accepted(acks, env.requestId))
    ensures TakesCourse(env, begun, acks, tr, c) && !CourseOk(c) && Streamed(env, tr, c) == []
            && !WasCancelled(env, tr, c)
    ensures written + FramesSent(env, canWrite, acks, tr, c)
         == if c.NotBegun? then written
            else written + [TurnRequest(env.requestId)] + AckSent(acks, env.requestId, canWrite)
  {
    hide Accepted, AckSent;
    if c.Refused? { Regroup(written, [TurnRequest(env.requestId)], AckSent(acks, env.requestId, canWrite)); }
  }

  lemma RanCourse(turn: Turn, written: seq<Sent>, acks: seq<Reading>, tr: seq<Poll>, n: nat, e: Ending)
    requires var env, eng := turn.env, turn.eng;
             && EndsAt(env, tr, n, e) && Accepted(acks, env.requestId) && eng.currentId == env.requestId != ""
             && eng.written == written + [TurnRequest(env.requestId)]
                               + AllWritten(env, eng.canWrite, tr, n, e, eng.CancelSent())
    ensures var env, c := turn.env, Ran(n, e);
            && TakesCourse(env, true, acks, tr, c) && CourseOk(c) == Succeeds(e)
            && Streamed(env, tr, c) == Deltas(Heard(tr, n), env.requestId) + FinalChunks(e)
            && WasCancelled(env, tr, c) == HasDelete(AllAsked(env, tr, n, e))
            && turn.eng.written == written + FramesSent(env, turn.eng.canWrite, acks, tr, c)
            && [] + AnswersTo(AllAsked(env, tr, n, e)) == AnswersTo(AllAsked(env, tr, n, e))
  {
    hide Accepted, EndsAt, AllAsked, AllWritten, HasDelete, Heard, Deltas, FinalChunks, AnswersTo, Succeeds;
    Regroup(written, [TurnRequest(turn.env.requestId)],
            AllWritten(turn.env, turn.eng.canWrite, tr, n, e, turn.eng.CancelSent()));
  }

  /** The request: open the stream, run the turn, close the stream, reset the
      engine. The events on the wire are the script of the course the turn took. */
  method Serve(env: Env, eng: Engine, begun: bool, acks: seq<Reading>, tr: seq<Poll>, outBuf: string)
    returns (ok: bool, out: string, wire: seq<Event>, answers: seq<Answer>, ghost c: Course)
    requires env.outMax > 0 && env.requestId != ""
    modifies eng
    ensures TakesCourse(env, begun, acks, tr, c) && ok == CourseOk(c)
    ensures wire == Numbered(Script(env, tr, c, out), 0)
    ensures eng.written == old(eng.written) + FramesSent(env, eng.canWrite, acks, tr, c)
    ensures c.Ran? ==> out == FinalOutput(env, Heard(tr, c.n), c.ending, outBuf)
    ensures answers == if c.Ran? then AnswersTo(AllAsked(env, tr, c.n, c.ending)) else []
    ensures !eng.turnActive && !eng.cancelled
  {
    hide *;
    eng.turnActive := true;
    var stream := new Stream();
    stream.OpenText();
    var turn := new Turn(env, eng, stream, outBuf);
    ok, c := RunPhases(turn, begun, acks, tr);
    var cancelled := eng.cancelled;
    eng.turnActive, eng.cancelled := false, false;
    out := turn.outBuf;
    answers := turn.answers;
    StreamedText(stream, Numbered(OPENING, 0), Streamed(env, tr, c));
    EndStream(stream, ok, cancelled, turn.eventLimitExceeded, out);
    wire := stream.wire;
    WholeWire(env, tr, c, out);
  }

  lemma WholeWire(env: Env, tr: seq<Poll>, c: Course, out: string)
    ensures var ds := Streamed(env, tr, c);
            var tail := Tail(CourseOk(c), WasCancelled(env, tr, c), c.Ran? && c.ending.EventLimit?, Fit(ds), out);
            var front := Numbered(OPENING, 0);
            var streamed := front + Numbered(DeltaPayloads(ds), |front|);
            Numbered(Script(env, tr, c, out), 0) == streamed + Numbered(tail, |streamed|)
  {
    var ds := Streamed(env, tr, c);
    var tail := Tail(CourseOk(c), WasCancelled(env, tr, c), c.Ran? && c.ending.EventLimit?, Fit(ds), out);
    hide Numbered, DeltaPayloads, Tail, Streamed, WasCancelled, CourseOk, Fit;
    NumberedThree(OPENING, DeltaPayloads(ds), tail);
  }

  // ---- What the client can rely on

  /** The life of a stream, as a client reads it. */
  datatype Phase = Fresh | Begun | InItem | InPart | TextEnded | PartEnded | ItemEnded | Ended | Illegal

  function After(p: Phase, k: Kind): Phase {
    match (p, k)
    case (Fresh, Created) => Begun
    case (Begun, ItemAdded) => InItem
    case (InItem, PartAdded) => InPart
    case (InPart, Delta) => InPart
    case (InPart, TextDone) => TextEnded
    case (TextEnded, PartDone) => PartEnded
    case (PartEnded, ItemDone) => ItemEnded
    case (ItemEnded, Completed(_)) => Ended
    case (InPart, Failed) => Ended
    case (InPart, Error) => Ended
    case _ => Illegal
  }

  function Read(p: Phase, es: seq<Event>): Phase {
    if es == [] then p else After(Read(p, es[..|es| - 1]), es[|es| - 1].kind)
  }

  lemma {:induction false} ReadBoth(p: Phase, a: seq<Event>, b: seq<Event>)
    ensures Read(p, a + b) == Read(Read(p, a), b)
  {
    if b == [] {
      assert a + b == a;
    } else {
      assert (a + b)[..|a + b| - 1] == a + b[..|b| - 1];
      ReadBoth(p, a, b[..|b| - 1]);
    }
  }

  lemma ReadOne(p: Phase, e: Event)
    ensures Read(p, [e]) == After(p, e.kind)
  {
    assert [e][..0] == [];
  }

  lemma {:induction false} ReadDeltas(deltas: seq<string>, n: nat)
    ensures Read(InPart, Numbered(DeltaPayloads(deltas), n)) == InPart
  {
    if deltas != [] {
      var k := |deltas| - 1;
      assert deltas[..k] + [deltas[k]] == deltas;
      NumberedDeltas(deltas[..k], deltas[k], n);
      ReadDeltas(deltas[..k], n);
      var es := Numbered(DeltaPayloads(deltas), n);
      assert es[..|es| - 1] == Numbered(DeltaPayloads(deltas[..k]), n);
    }
  }

  lemma ReadOpening()
    ensures Read(Fresh, Numbered(OPENING, 0)) == InPart
  {
    var a, b, c := Event(Created, "", 0), Event(ItemAdded, "", 1), Event(PartAdded, "", 2);
    assert Numbered(OPENING, 0) == [a] + [b] + [c];
    ReadBoth(Fresh, [a] + [b], [c]);
    ReadBoth(Fresh, [a], [b]);
    ReadOne(Fresh, a);
    ReadOne(Begun, b);
    ReadOne(InItem, c);
  }

  lemma ReadFour(p: Phase, a: Event, b: Event, c: Event, d: Event)
    ensures Read(p, [a, b, c, d]) == After(After(After(After(p, a.kind), b.kind), c.kind), d.kind)
  {
    hide After;
    assert [a, b, c, d][..3] == [a, b, c];
    assert [a, b, c][..2] == [a, b];
    assert [a, b][..1] == [a];
    ReadOne(p, a);
    assert Read(p, [a, b]) == After(Read(p, [a]), b.kind);
    assert Read(p, [a, b, c]) == After(Read(p, [a, b]), c.kind);
  }

  lemma ReadCompleted(text: string, incomplete: string, n: nat)
    ensures Read(InPart, Numbered(CompletedTail(text, incomplete), n)) == Ended
  {
    hide Read;
    var a, b := Event(TextDone, text, n), Event(PartDone, text, n + 1);
    var c, d := Event(ItemDone, text, n + 2), Event(Completed(incomplete), text, n + 3);
    assert Numbered(CompletedTail(text, incomplete), n) == [a, b, c, d];
    ReadFour(InPart, a, b, c, d);
  }

  lemma ReadTail(ok: bool, cancelled: bool, limited: bool, text: string, out: string, n: nat)
    ensures Read(InPart, Numbered(Tail(ok, cancelled, limited, text, out), n)) == Ended
  {
    if ok {
      ReadCompleted(text, if limited then LIMIT_DETAILS else "", n);
    } else {
      var p := Tail(ok, cancelled, limited, text, out)[0];
      assert Numbered(Tail(ok, cancelled, limited, text, out), n) == [Event(p.0, p.1, n)];
      ReadOne(InPart, Event(p.0, p.1, n));
    }
  }

  /** Whatever the agent, the network and the client do, the stream is a legal life
      that has ended, and the numbers on it are 0, 1, 2 and so on. */
  lemma StreamIsLegal(env: Env, tr: seq<Poll>, c: Course, out: string)
    ensures var wire := Numbered(Script(env, tr, c, out), 0);
            && Read(Fresh, wire) == Ended
            && forall i | 0 <= i < |wire| :: wire[i].number == i
  {
    var ds := Streamed(env, tr, c);
    var limited := c.Ran? && c.ending.EventLimit?;
    WholeWire(env, tr, c, out);
    var front := Numbered(OPENING, 0);
    var mid := Numbered(DeltaPayloads(ds), |front|);
    var tail := Numbered(Tail(CourseOk(c), WasCancelled(env, tr, c), limited, Fit(ds), out), |front + mid|);
    ReadTail(CourseOk(c), WasCancelled(env, tr, c), limited, Fit(ds), out, |front + mid|);
    hide Tail, Streamed, WasCancelled, CourseOk, Fit, DeltaPayloads, Script;
    ReadOpening();
    ReadDeltas(ds, |front|);
    ReadBoth(Fresh, front + mid, tail);
    ReadBoth(Fresh, front, mid);
  }

  /** In a legal life that has ended the one terminal event is the last. */
  lemma {:induction false} OneTerminal(es: seq<Event>)
    requires Read(Fresh, es) != Illegal
    ensures Read(Fresh, es) == Ended <==> es != [] && IsTerminal(es[|es| - 1].kind)
    ensures forall i | 0 <= i < |es| - 1 :: !IsTerminal(es[i].kind)
  {
    if es != [] {
      OneTerminal(es[..|es| - 1]);
      assert forall i | 0 <= i < |es| - 1 :: es[..|es| - 1][i] == es[i];
    }
  }

  /** A stream that opens and then carries deltas, up to its last n events. */
  predicate Opens(es: seq<Event>, n: nat) {
    && |es| >= 3 + n && es[0].kind == Created && es[1].kind == ItemAdded && es[2].kind == PartAdded
    && forall i | 3 <= i < |es| - n :: es[i].kind == Delta
  }

  lemma OpensShorter(es: seq<Event>, n: nat)
    requires es != []
    ensures Opens(es[..|es| - 1], n) <==> Opens(es, n + 1)
  {
    var front := es[..|es| - 1];
    assert forall i | 0 <= i < |front| :: front[i] == es[i];
  }

  lemma {:induction false} OpeningIff(es: seq<Event>)
    ensures Read(Fresh, es) == Fresh <==> es == []
    ensures Read(Fresh, es) == Begun <==> |es| == 1 && es[0].kind == Created
    ensures Read(Fresh, es) == InItem <==> |es| == 2 && es[0].kind == Created && es[1].kind == ItemAdded
    ensures Read(Fresh, es) == InPart <==> Opens(es, 0)
  {
    if es != [] {
      OpeningIff(es[..|es| - 1]);
      OpensShorter(es, 0);
    }
  }

  lemma TextEndedIff(es: seq<Event>)
    ensures Read(Fresh, es) == TextEnded <==> Opens(es, 1) && es[|es| - 1].kind == TextDone
  {
    if es != [] {
      OpeningIff(es[..|es| - 1]);
      OpensShorter(es, 0);
    }
  }

  lemma PartEndedIff(es: seq<Event>)
    ensures var n := |es|;
            Read(Fresh, es) == PartEnded <==>
              Opens(es, 2) && es[n - 2].kind == TextDone && es[n - 1].kind == PartDone
  {
    if es != [] {
      TextEndedIff(es[..|es| - 1]);
      OpensShorter(es, 1);
    }
  }

  predicate Closed(es: seq<Event>) {
    var n := |es|;
    Opens(es, 3) && es[n - 3].kind == TextDone && es[n - 2].kind == PartDone && es[n - 1].kind == ItemDone
  }

  predicate Completes(es: seq<Event>) {
    var n := |es|;
    && Opens(es, 4) && es[n - 4].kind == TextDone && es[n - 3].kind == PartDone && es[n - 2].kind == ItemDone
    && es[n - 1].kind.Completed?
  }

  predicate BreaksOff(es: seq<Event>) {
    Opens(es, 1) && (es[|es| - 1].kind == Failed || es[|es| - 1].kind == Error)
  }

  lemma ItemEndedIff(es: seq<Event>)
    ensures Read(Fresh, es) == ItemEnded <==> Closed(es)
  {
    if es != [] {
      PartEndedIff(es[..|es| - 1]);
      OpensShorter(es, 2);
    }
  }

  lemma LastOfEnded(es: seq<Event>)
    requires es != []
    ensures var last := es[|es| - 1].kind;
            && (Completes(es) <==> Closed(es[..|es| - 1]) && last.Completed?)
            && (BreaksOff(es) <==> Opens(es[..|es| - 1], 0) && (last == Failed || last == Error))
  {
    OpensShorter(es, 0);
    OpensShorter(es, 3);
  }

  /** A life has ended legally exactly if it is the opening, any number of deltas, and
      then the four closing events in order, or a failure or an error alone. */
  lemma EndedIff(es: seq<Event>)
    ensures Read(Fresh, es) == Ended <==> Completes(es) || BreaksOff(es)
  {
    if es != [] {
      hide Opens, Closed, Completes, BreaksOff;
      OpeningIff(es[..|es| - 1]);
      ItemEndedIff(es[..|es| - 1]);
      LastOfEnded(es);
    }
  }

  /** A trace takes one course: the stream is a function of what was read. */
  lemma CourseIsUnique(env: Env, begun: bool, acks: seq<Reading>, tr: seq<Poll>, a: Course, b: Course)
    requires TakesCourse(env, begun, acks, tr, a) && TakesCourse(env, begun, acks, tr, b)
    ensures a == b
  {
    hide Accepted, EndAt;
    if a.Ran? && b.Ran? {
      assert EndAt(env, tr, a.n).Some? && EndAt(env, tr, b.n).Some?;
    }
  }

  // ---- Cancellation

  lemma {:induction false} AskedAll(env: Env, tr: seq<Poll>, n: nat, k: nat)
    requires k < n && env.plane && HasDelete(At(tr, k).requests)
    ensures HasDelete(Asked(env, tr, n))
  {
    hide HasDelete, At;
    AskedMore(env, tr, n - 1);
    if k < n - 1 { AskedAll(env, tr, n - 1, k); }
  }

  lemma RunningAt(env: Env, tr: seq<Poll>, n: nat, k: nat)
    requires Running(env, tr, n) && k < n
    ensures EndAt(env, tr, k) == None
  {
  }

  /** A DELETE ends the turn at the poll that takes it: no frame is read after it,
      and the turn does not succeed unless the event limit had already ended it. */
  lemma DeleteEndsTheTurn(env: Env, tr: seq<Poll>, n: nat, e: Ending, k: nat)
    requires EndsAt(env, tr, n, e) && k <= n && env.plane && HasDelete(At(tr, k).requests)
    ensures k == n && (e.CancelledByClient? || e.EventLimit?)
  {
    hide HasDelete, Counted, Heard, EndedBy, Patience, Silent, At, Asked;
    if k < n {
      RunningAt(env, tr, n, k);
      AskedAll(env, tr, k + 1, k);
      EndIs(env, tr, k);
    } else {
      AskedAll(env, tr, n + 1, k);
    }
  }

  /** A turn whose DELETE was answered never completes: its stream ends in
      response.failed, and only then. */
  lemma FailedMeansCancelled(env: Env, begun: bool, acks: seq<Reading>, tr: seq<Poll>, c: Course, out: string)
    requires TakesCourse(env, begun, acks, tr, c)
    ensures WasCancelled(env, tr, c) ==> !CourseOk(c) && (c.ending.CancelledByClient? || c.ending.TimedOut?)
    ensures var script := Script(env, tr, c, out);
            script[|script| - 1].0.Failed? <==> WasCancelled(env, tr, c)
  {
    if c.Ran? {
      hide HasDelete, Counted, Heard, EndedBy, Patience, Silent, At, Accepted, Asked, Fit, Deltas;
      NotAskedBefore(env, tr, c.n, c.ending);
    }
  }

  lemma NotAskedBefore(env: Env, tr: seq<Poll>, n: nat, e: Ending)
    requires EndsAt(env, tr, n, e)
    ensures HasDelete(AllAsked(env, tr, n, e)) ==> e.CancelledByClient? || e.TimedOut?
  {
    hide HasDelete, Counted, Heard, EndedBy, Patience, Silent, At, Asked;
    assert Asked(env, tr, n + 1) + [] == Asked(env, tr, n + 1);
    if n > 0 && e.EventLimit? {
      EndIs(env, tr, n - 1);
      WasRunning(env, tr, n);
    } else if n == 0 {
      NoneAsked(env, tr);
    }
  }

  lemma NoneAsked(env: Env, tr: seq<Poll>)
    ensures !HasDelete(Asked(env, tr, 0))
  {
  }

  // ---- What the agent hears

  /** The frames of a course that carry its id. */
  function OwnFrames(env: Env, canWrite: bool, tr: seq<Poll>, c: Course): seq<Sent> {
    match c
    case NotBegun => []
    case Refused => [TurnRequest(env.requestId)]
    case Ran(n, _) =>
      [TurnRequest(env.requestId)] + Replies(Calls(Heard(tr, n), env.requestId), env.requestId)
      + (if WasCancelled(env, tr, c) then CancelOf(env, canWrite) else [])
  }

  /** Behind the request stands one answer to each call, naming its tool. */
  predicate AnswersCalls(frames: seq<Sent>, calls: seq<ToolCall>) {
    && |frames| > |calls|
    && forall i | 0 <= i < |calls| ::
         (frames[i + 1].ToolError? || frames[i + 1].ToolResult?) && frames[i + 1].tool == calls[i].name
  }

  /** The frames of a course that carry none. */
  function UnnamedFrames(env: Env, canWrite: bool, acks: seq<Reading>, tr: seq<Poll>, c: Course): seq<Sent> {
    match c
    case NotBegun => []
    case Refused => AckSent(acks, env.requestId, canWrite)
    case Ran(n, e) =>
      Repeated(if canWrite then TooBig(tr, if e.TimedOut? then n + 1 else n) else 0, TOO_LARGE)
      + EndFrames(env, e, canWrite)
  }

  /** What the agent gets: with the turn's id the request, one answer for each of at
      most 64 tool calls in the order they were heard, each naming its tool, and at
      most one cancel; without an id one error frame for each frame that was too big,
      and what the ending adds: an error frame for the timeout or the foreign frame, or
      the request to save the session after a response. */
  lemma FramesAreOwn(env: Env, canWrite: bool, begun: bool, acks: seq<Reading>, tr: seq<Poll>, c: Course)
    requires TakesCourse(env, begun, acks, tr, c)
    ensures var sent := FramesSent(env, canWrite, acks, tr, c);
            && Own(sent) == OwnFrames(env, canWrite, tr, c)
            && Unnamed(sent) == UnnamedFrames(env, canWrite, acks, tr, c)
            && forall i | 0 <= i < |Own(sent)| :: IdOf(Own(sent)[i]) == Some(env.requestId)
    ensures c.Ran? ==>
              var calls := Calls(Heard(tr, c.n), env.requestId);
              |calls| <= MAX_TOOL_CYCLES && AnswersCalls(OwnFrames(env, canWrite, tr, c), calls)
  {
    hide *;
    match c
    case NotBegun => NothingIsOwn(env, canWrite, acks, tr);
    case Refused => RequestIsOwn(env, canWrite, acks, tr);
    case Ran(n, e) =>
      CourseEnds(env, begun, acks, tr, n, e);
      CallsAreBounded(env, tr, n);
      WrittenByTheEnd(env, canWrite, tr, n, e);
      RanIsOwn(env, canWrite, acks, tr, n, e);
  }

  lemma CourseEnds(env: Env, begun: bool, acks: seq<Reading>, tr: seq<Poll>, n: nat, e: Ending)
    requires TakesCourse(env, begun, acks, tr, Ran(n, e))
    ensures EndsAt(env, tr, n, e) && Running(env, tr, n)
  {
    hide EndAt, Accepted;
  }

  lemma NothingIsOwn(env: Env, canWrite: bool, acks: seq<Reading>, tr: seq<Poll>)
    ensures FramesSent(env, canWrite, acks, tr, NotBegun) == [] == OwnFrames(env, canWrite, tr, NotBegun)
    ensures Own([]) == [] && Unnamed([]) == [] == UnnamedFrames(env, canWrite, acks, tr, NotBegun)
  {
  }

  lemma RequestIsOwn(env: Env, canWrite: bool, acks: seq<Reading>, tr: seq<Poll>)
    ensures var sent := FramesSent(env, canWrite, acks, tr, Refused);
            && Own(sent) == OwnFrames(env, canWrite, tr, Refused) == [TurnRequest(env.requestId)]
            && Unnamed(sent) == UnnamedFrames(env, canWrite, acks, tr, Refused)
            && IdOf(TurnRequest(env.requestId)) == Some(env.requestId)
  {
    hide AckSent, Own, Unnamed;
    SortedOne(TurnRequest(env.requestId));
    SortedBoth([TurnRequest(env.requestId)], AckSent(acks, env.requestId, canWrite));
    AckIsErrors(acks, env.requestId, canWrite);
  }

  lemma AckIsErrors(acks: seq<Reading>, id: string, canWrite: bool)
    ensures Own(AckSent(acks, id, canWrite)) == []
    ensures Unnamed(AckSent(acks, id, canWrite)) == AckSent(acks, id, canWrite)
  {
    hide Own, Unnamed, Decisive, Contains;
    OnlyErrors(canWrite, HANDSHAKE_TIMEOUT);
    OnlyErrors(canWrite, NATIVE_BUSY);
    OnlyErrors(canWrite, TOO_LARGE);
    SortedBoth(Errors(canWrite, TOO_LARGE), Errors(canWrite, HANDSHAKE_TIMEOUT));
    assert [] + Errors(canWrite, HANDSHAKE_TIMEOUT) == Errors(canWrite, HANDSHAKE_TIMEOUT);
  }

  lemma OnlyErrors(canWrite: bool, errorType: string)
    ensures Own(Errors(canWrite, errorType)) == [] && Own([]) == [] && Unnamed([]) == []
    ensures Unnamed(Errors(canWrite, errorType)) == Errors(canWrite, errorType)
  {
    hide Own, Unnamed;
    SortedOne(ErrorFrame(errorType));
  }

  /** The frames of the loop, sorted. */
  lemma WrittenByTheEnd(env: Env, canWrite: bool, tr: seq<Poll>, n: nat, e: Ending)
    requires EndsAt(env, tr, n, e)
    ensures var all := AllWritten(env, canWrite, tr, n, e, CancelOf(env, canWrite));
            var m := if e.TimedOut? then n + 1 else n;
            && Own(all) == Replies(Calls(Heard(tr, n), env.requestId), env.requestId)
                           + (if HasDelete(AllAsked(env, tr, n, e)) then CancelOf(env, canWrite) else [])
            && Unnamed(all) == Repeated(if canWrite then TooBig(tr, m) else 0, TOO_LARGE) + EndFrames(env, e, canWrite)
  {
    hide *;
    var m := if e.TimedOut? then n + 1 else n;
    var cancel := if HasDelete(AllAsked(env, tr, n, e)) then CancelOf(env, canWrite) else [];
    if e.TimedOut? { TimedOutHearsNothing(env, tr, n); }
    AllWrittenIn(env, canWrite, tr, n, e);
    WrittenIsSorted(env.requestId, canWrite, tr, m);
    SortedBoth(Written(env.requestId, canWrite, tr, m), cancel);
    SortedBoth(Written(env.requestId, canWrite, tr, m) + cancel, EndFrames(env, e, canWrite));
    EndIsUnnamed(env, e, canWrite);
    CancelIsOwn(env, canWrite);
  }

  lemma AllWrittenIn(env: Env, canWrite: bool, tr: seq<Poll>, n: nat, e: Ending)
    ensures AllWritten(env, canWrite, tr, n, e, CancelOf(env, canWrite))
         == Written(env.requestId, canWrite, tr, if e.TimedOut? then n + 1 else n)
            + (if HasDelete(AllAsked(env, tr, n, e)) then CancelOf(env, canWrite) else []) + EndFrames(env, e, canWrite)
  {
  }

  lemma TimedOutHearsNothing(env: Env, tr: seq<Poll>, n: nat)
    requires EndsAt(env, tr, n, TimedOut)
    ensures Heard(tr, n + 1) == Heard(tr, n)
  {
    var f := if At(tr, n).frame.Got? then At(tr, n).frame.value else Frame(Unknown, "", "");
    EndingsOfFrames(f, Heard(tr, n), env.requestId);
    hide Counted, HasDelete, Asked, EndedBy, Silent, Patience;
    if At(tr, n).frame.Nothing? { HeardNothing(tr, n + 1); }
  }

  lemma EndIsUnnamed(env: Env, e: Ending, canWrite: bool)
    ensures Own(EndFrames(env, e, canWrite)) == []
    ensures Unnamed(EndFrames(env, e, canWrite)) == EndFrames(env, e, canWrite)
    ensures forall sent: seq<Sent> {:trigger sent + []} :: sent + [] == sent
  {
    hide Own, Unnamed;
    OnlyErrors(canWrite, HANDSHAKE_TIMEOUT);
    OnlyErrors(canWrite, ID_MISMATCH);
    OnlyErrors(canWrite, TOO_LARGE);
    if env.save.Some? {
      var s := env.save.value;
      SortedOne(SaveState(s.key, s.stateId));
      SortedBoth([SaveState(s.key, s.stateId)], ReadErrors(canWrite, s.reply));
    }
  }

  lemma CancelIsOwn(env: Env, canWrite: bool)
    ensures Own(CancelOf(env, canWrite)) == CancelOf(env, canWrite) && Unnamed(CancelOf(env, canWrite)) == []
    ensures Own([]) == [] && Unnamed([]) == []
    ensures forall sent: seq<Sent> {:trigger sent + []} :: sent + [] == sent
  {
    hide Own, Unnamed;
    SortedOne(CancelFrame(env.requestId));
  }

  lemma RanIsOwn(env: Env, canWrite: bool, acks: seq<Reading>, tr: seq<Poll>, n: nat, e: Ending)
    requires var all := AllWritten(env, canWrite, tr, n, e, CancelOf(env, canWrite));
             var m := if e.TimedOut? then n + 1 else n;
             && Own(all) == Replies(Calls(Heard(tr, n), env.requestId), env.requestId)
                            + (if HasDelete(AllAsked(env, tr, n, e)) then CancelOf(env, canWrite) else [])
             && Unnamed(all) == Repeated(if canWrite then TooBig(tr, m) else 0, TOO_LARGE) + EndFrames(env, e, canWrite)
    ensures var c, sent := Ran(n, e), FramesSent(env, canWrite, acks, tr, Ran(n, e));
            var calls := Calls(Heard(tr, n), env.requestId);
            && Own(sent) == OwnFrames(env, canWrite, tr, c)
            && Unnamed(sent) == UnnamedFrames(env, canWrite, acks, tr, c)
            && (forall i | 0 <= i < |Own(sent)| :: IdOf(Own(sent)[i]) == Some(env.requestId))
            && AnswersCalls(OwnFrames(env, canWrite, tr, c), calls)
  {
    hide AllWritten, AllAsked, HasDelete, Heard, Calls, Replies, Own, Unnamed, TooBig;
    var id, calls := env.requestId, Calls(Heard(tr, n), env.requestId);
    var all := AllWritten(env, canWrite, tr, n, e, CancelOf(env, canWrite));
    SortedOne(TurnRequest(id));
    SortedBoth([TurnRequest(id)], all);
    RepliesAreOwn(calls, id);
    var cancel := if HasDelete(AllAsked(env, tr, n, e)) then CancelOf(env, canWrite) else [];
    assert [TurnRequest(id)] + (Replies(calls, id) + cancel) == [TurnRequest(id)] + Replies(calls, id) + cancel;
    Surrounded(TurnRequest(id), Replies(calls, id), cancel, id);
  }

  lemma Surrounded(first: Sent, mid: seq<Sent>, last: seq<Sent>, id: string)
    requires IdOf(first) == Some(id)
    requires (forall i | 0 <= i < |mid| :: IdOf(mid[i]) == Some(id))
             && forall i | 0 <= i < |last| :: IdOf(last[i]) == Some(id)
    ensures var all := [first] + mid + last;
            && |all| == 1 + |mid| + |last| && all[0] == first
            && (forall i | 0 <= i < |mid| :: all[1 + i] == mid[i])
            && forall i | 0 <= i < |all| :: IdOf(all[i]) == Some(id)
  {
  }

  lemma RepliesAreOwn(calls: seq<ToolCall>, id: string)
    ensures |Replies(calls, id)| == |calls|
    ensures forall i | 0 <= i < |calls| ::
              var r := Replies(calls, id)[i];
              (r.ToolError? || r.ToolResult?) && r.tool == calls[i].name && IdOf(r) == Some(id)
  {
    hide ToolArgs.Valid;
  }

  // ---- Text

  /** The text the stream ends with is all that was streamed, exactly when that is
      shorter than the buffer; a response counts on top of the deltas before it. */
  lemma TextIsConserved(env: Env, tr: seq<Poll>, c: Course)
    ensures var all := Concat(Streamed(env, tr, c));
            && (Fit(Streamed(env, tr, c)) == all <==> |all| < TEXT_SIZE)
            && (c.Ran? && c.ending.Finished? ==>
                  all == Concat(Deltas(Heard(tr, c.n), env.requestId)) + c.ending.text)
  {
    hide Heard, Concat, Fit;
    FitIsConcatIff(Streamed(env, tr, c));
    if c.Ran? && c.ending.Finished? {
      ConcatBoth(Deltas(Heard(tr, c.n), env.requestId), Chunks(c.ending.text, CHUNK_SIZE));
      ChunksCoverText(c.ending.text, CHUNK_SIZE);
    }
  }

  /** When all of it fits, a response completes with its own text exactly when no
      text was streamed before it. */
  lemma CompletedTextIsResponseIff(env: Env, tr: seq<Poll>, n: nat, text: string)
    requires |Concat(Deltas(Heard(tr, n), env.requestId))| + |text| < TEXT_SIZE
    ensures Fit(Streamed(env, tr, Ran(n, Finished(text)))) == text
       <==> Concat(Deltas(Heard(tr, n), env.requestId)) == ""
  {
    hide Heard, Deltas, Concat, Fit;
    TextIsConserved(env, tr, Ran(n, Finished(text)));
    assert "" + text == text;
  }

  /** An agent that streams its answer and then repeats it in the response is heard
      twice on the stream, and once in the output buffer. */
  lemma RepeatedAnswer(env: Env, tr: seq<Poll>, n: nat, text: string, start: string)
    requires env.outMax > 2 * |text| && 2 * |text| < TEXT_SIZE
    requires Concat(Deltas(Heard(tr, n), env.requestId)) == text && Notices(Heard(tr, n), env.requestId) == ""
    ensures Fit(Streamed(env, tr, Ran(n, Finished(text)))) == text + text
    ensures FinalOutput(env, Heard(tr, n), Finished(text), start) == text
  {
    hide *;
    TextIsConserved(env, tr, Ran(n, Finished(text)));
    OutputWithoutNotices(env, Heard(tr, n), text, start);
  }

  lemma OutputWithoutNotices(env: Env, fs: seq<Frame>, text: string, start: string)
    requires env.outMax > |text| && Notices(fs, env.requestId) == ""
    ensures FinalOutput(env, fs, Finished(text), start) == text
  {
    hide Notices, Output;
    assert [] + text == text;
  }
}
