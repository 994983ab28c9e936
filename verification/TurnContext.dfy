/** One turn over the framed protocol: the methods of src/turn_context.c and the
    life of the event stream around them in src/server.c, proved against TurnTrace. */
module TurnContext {
  import opened Texts
  import opened TurnTrace
  import opened ResponsesStream
  import Printf
  import ToolArgs

  class Engine {
    var cancelled: bool
    var turnActive: bool
    var written: seq<Sent>
    var currentId: string
    const canWrite: bool // framed mode with an open descriptor

    constructor (canWrite: bool)
      ensures !cancelled && !turnActive && written == [] && currentId == "" && this.canWrite == canWrite
    {
      cancelled, turnActive, written, currentId := false, false, [], "";
      this.canWrite := canWrite;
    }

    function CancelSent(): seq<Sent>
      reads this`currentId
    {
      if canWrite then [CancelFrame(if currentId == "" then "cancel-1" else currentId)] else []
    }

    /** engine_cancel: only the first call of a turn writes a frame. */
    method Cancel()
      modifies this`cancelled, this`written
      ensures cancelled && written == if old(cancelled) then old(written) else old(written) + CancelSent()
    {
      if cancelled { return; }
      cancelled := true;
      if canWrite {
        var id := currentId;
        if id == "" { id := "cancel-1"; }
        written := written + [CancelFrame(id)];
      }
    }

    /** engine_send_error */
    method SendError(errorType: string)
      modifies this`written
      ensures written == old(written) + Errors(canWrite, errorType)
    {
      if canWrite {
        written := written + [ErrorFrame(errorType)];
      } else {
        assert written + [] == written;
      }
    }

    /** engine_read_frame_timeout: a frame that is too big is complained about and
        counts as none. */
    method ReadFrame(r: Reading) returns (frame: Option<Frame>)
      modifies this`written
      ensures frame == if r.Got? then Some(r.value) else None
      ensures written == old(written) + ReadErrors(canWrite, r)
    {
      frame := None;
      if r.Got? {
        frame := Some(r.value);
      } else if r.tooBig {
        SendError(TOO_LARGE);
        return;
      }
      assert written + [] == written;
    }

    method WriteFrame(sent: Sent)
      modifies this`written
      ensures written == old(written) + [sent]
    {
      written := written + [sent];
    }
  }

  /** What a turn starts from. */
  datatype Start = Start(out: string, written: seq<Sent>, wire: seq<Event>, answers: seq<Answer>)

  datatype Next = Skip | Count | CountTool | Stop(ok: bool)

  function NextAfter(c: Class): Next { if c.Skipped? then Skip else if c.Tool? then CountTool else Count }

  function FinalChunks(e: Ending): seq<string> {
    if e.Finished? then Chunks(e.text, CHUNK_SIZE) else []
  }

  // ---- The ack

  const ACK_TRIES: nat := 5
  const ACK_TIMEOUT := "native agent ack timeout"
  const ACK_INVALID := "native agent ack invalid or rejected"
  const ACK_REJECTED := "native agent ack rejected (unknown status)"
  const ACK_EXHAUSTED := "native agent ack retry exhausted"

  predicate PassesBeforeAck(f: Frame) { f.event.Lifecycle? || Contains(f.raw, "\"type\":\"event\"") }

  predicate IsAcceptance(f: Frame, id: string) {
    !PassesBeforeAck(f) && f.event.Ack? && Contains(f.raw, id) && f.event.status == "accepted"
  }

  /** The error of a read that is not passed over, or None for an acceptance. */
  function AckError(read: Reading, id: string): Option<string>
    requires !Passes(read)
  {
    match read
    case Nothing(_) => Some(ACK_TIMEOUT)
    case Got(f) =>
      if !f.event.Ack? || !Contains(f.raw, id) then Some(ACK_INVALID)
      else if f.event.status == "busy" then
        Some("native agent busy (retry_after_ms=" + Printf.Decimal(f.event.retryMs) + ")")
      else if f.event.status != "accepted" then Some(ACK_REJECTED)
      else None
  }

  /** The reads of turn_await_ack: those the agent answers, then timeouts. */
  function ReadAt(acks: seq<Reading>, i: nat): Reading { if i < |acks| then acks[i] else Nothing(false) }

  predicate Passes(read: Reading) { read.Got? && PassesBeforeAck(read.value) }

  /** The first read, of the first five, that is not passed over; 5 if there is none. */
  function Decisive(acks: seq<Reading>): (i: nat)
    ensures i <= ACK_TRIES && (i < ACK_TRIES ==> !Passes(ReadAt(acks, i)))
    ensures forall k: nat | k < i :: Passes(ReadAt(acks, k))
  {
    DecisiveFrom(acks, 0)
  }

  function DecisiveFrom(acks: seq<Reading>, from: nat): (i: nat)
    requires from <= ACK_TRIES
    ensures from <= i <= ACK_TRIES && (i < ACK_TRIES ==> !Passes(ReadAt(acks, i)))
    ensures forall k: nat | from <= k < i :: Passes(ReadAt(acks, k))
    decreases ACK_TRIES - from
  {
    if from == ACK_TRIES || !Passes(ReadAt(acks, from)) then from else DecisiveFrom(acks, from + 1)
  }

  ghost predicate Accepted(acks: seq<Reading>, id: string) {
    var read := ReadAt(acks, Decisive(acks));
    Decisive(acks) < ACK_TRIES && read.Got? && IsAcceptance(read.value, id)
  }

  /** What waiting for the ack writes: the complaint about a frame that was too big,
      and an error frame for a timeout, a busy agent or too many other frames. */
  function AckSent(acks: seq<Reading>, id: string, canWrite: bool): seq<Sent> {
    if Decisive(acks) == ACK_TRIES then Errors(canWrite, HANDSHAKE_TIMEOUT)
    else
      var read := ReadAt(acks, Decisive(acks));
      match read
      case Nothing(_) => ReadErrors(canWrite, read) + Errors(canWrite, HANDSHAKE_TIMEOUT)
      case Got(f) =>
        if f.event.Ack? && Contains(f.raw, id) && f.event.status == "busy" then Errors(canWrite, NATIVE_BUSY) else []
  }

  /** What it says. */
  function AckText(acks: seq<Reading>, id: string): Option<string> {
    if Decisive(acks) == ACK_TRIES then Some(ACK_EXHAUSTED) else AckError(ReadAt(acks, Decisive(acks)), id)
  }

  class Turn {
    const env: Env
    const eng: Engine
    const stream: Stream
    var outBuf: string
    var eventPrefix: string
    var answers: seq<Answer>
    var eventLimitExceeded: bool

    constructor (env: Env, eng: Engine, stream: Stream, outBuf: string)
      ensures this.env == env && this.eng == eng && this.stream == stream && this.outBuf == outBuf
      ensures eventPrefix == "" && answers == [] && !eventLimitExceeded
    {
      this.env, this.eng, this.stream, this.outBuf := env, eng, stream, outBuf;
      eventPrefix, answers, eventLimitExceeded := "", [], false;
    }

    /** snprintf into out_buf */
    method SetOutput(text: string)
      requires env.outMax > 0
      modifies this`outBuf
      ensures outBuf == Cut(text, env.outMax - 1)
    {
      outBuf := Cut(text, env.outMax - 1);
    }

    /** turn_await_ack: true exactly when the first read that is neither a lifecycle
        frame nor an event is the acceptance of this turn, within five reads. */
    method AwaitAck(acks: seq<Reading>) returns (ok: bool)
      requires env.outMax > 0
      modifies this`outBuf, eng`written
      ensures ok <==> Accepted(acks, env.requestId)
      ensures ok <==> AckText(acks, env.requestId).None?
      ensures outBuf == if ok then old(outBuf) else Cut(AckText(acks, env.requestId).value, env.outMax - 1)
      ensures eng.written == old(eng.written) + AckSent(acks, env.requestId, eng.canWrite)
    {
      hide Contains;
      var i := 0;
      assert eng.written + [] == eng.written;
      while i < ACK_TRIES
        invariant i <= ACK_TRIES && outBuf == old(outBuf) && eng.written == old(eng.written)
        invariant i <= Decisive(acks)
      {
        var read := eng.ReadFrame(ReadAt(acks, i));
        if read.None? {
          SetOutput(ACK_TIMEOUT);
          eng.SendError(HANDSHAKE_TIMEOUT);
          return false;
        }
        if !PassesBeforeAck(read.value) {
          ok := JudgeAck(read.value);
          return;
        }
        i := i + 1;
      }
      SetOutput(ACK_EXHAUSTED);
      eng.SendError(HANDSHAKE_TIMEOUT);
      ok := false;
    }

    /** The frame that is not passed over. */
    method JudgeAck(f: Frame) returns (ok: bool)
      requires env.outMax > 0 && !PassesBeforeAck(f)
      modifies this`outBuf, eng`written
      ensures ok <==> IsAcceptance(f, env.requestId)
      ensures ok <==> AckError(Got(f), env.requestId).None?
      ensures outBuf == if ok then old(outBuf) else Cut(AckError(Got(f), env.requestId).value, env.outMax - 1)
      ensures eng.written == old(eng.written) + if f.event.Ack? && Contains(f.raw, env.requestId)
                                                   && f.event.status == "busy"
                                                then Errors(eng.canWrite, NATIVE_BUSY) else []
    {
      hide Contains;
      ok := false;
      assert eng.written + [] == eng.written;
      if !f.event.Ack? || !Contains(f.raw, env.requestId) {
        SetOutput(ACK_INVALID);
      } else if f.event.status == "busy" {
        SetOutput("native agent busy (retry_after_ms=" + Printf.Decimal(f.event.retryMs) + ")");
        eng.SendError(NATIVE_BUSY);
      } else if f.event.status != "accepted" {
        SetOutput(ACK_REJECTED);
      } else {
        ok := true;
      }
    }

    /** handle_midturn_control_plane: every waiting connection gets its answer. */
    method HandlePlane(requests: seq<Request>)
      modifies this`answers, eng`cancelled, eng`written, eng`turnActive
      ensures answers == old(answers) + AnswersTo(requests)
      ensures eng.cancelled == (old(eng.cancelled) || HasDelete(requests))
      ensures eng.turnActive == (old(eng.turnActive) && !HasDelete(requests))
      ensures eng.written == if HasDelete(requests) && !old(eng.cancelled) then old(eng.written) + eng.CancelSent()
              else old(eng.written)
    {
      var i := 0;
      while i < |requests|
        invariant i <= |requests| && eng.currentId == old(eng.currentId)
        invariant answers == old(answers) + AnswersTo(requests[..i])
        invariant eng.cancelled == (old(eng.cancelled) || HasDelete(requests[..i]))
        invariant eng.turnActive == (old(eng.turnActive) && !HasDelete(requests[..i]))
        invariant eng.written == if HasDelete(requests[..i]) && !old(eng.cancelled)
                  then old(eng.written) + eng.CancelSent() else old(eng.written)
      {
        OneMoreRequest(requests, i);
        var r, answer := requests[i], NotFound;
        if r.Unreadable? {
          answer := Closed;
        } else if r.verb == "GET" && r.path == "/v1/models" {
          answer := Models;
        } else if r.verb == "DELETE" && "/v1/responses/" <= r.path {
          eng.Cancel();
          eng.turnActive := false;
          answer := Cancelled;
        } else if r.verb == "POST" && r.path == "/v1/responses" {
          answer := Conflict;
        }
        answers := answers + [answer];
        i := i + 1;
      }
      assert requests[..|requests|] == requests;
    }

    /** What the turn has done once the frames fs are handled, none ended it, and the
        frames `sent` are written. */
    ghost predicate Caught(start: Start, fs: seq<Frame>, sent: seq<Sent>)
      requires env.outMax > 0
      reads this, eng, stream
    {
      && outBuf == Output(fs, env.requestId, start.out, env.outMax)
      && eventPrefix == Prefix(fs, env.requestId)
      && eng.written == start.written + sent
      && stream.Streamed(start.wire, [], Deltas(fs, env.requestId))
    }

    /** What it leaves when e ends it after fs. */
    ghost predicate Left(start: Start, fs: seq<Frame>, sent: seq<Sent>, e: Ending)
      requires env.outMax > 0
      reads this, eng, stream
    {
      && outBuf == FinalOutput(env, fs, e, start.out)
      && eng.written == start.written + sent + EndFrames(env, e, eng.canWrite)
      && stream.Streamed(start.wire, [], Deltas(fs, env.requestId) + FinalChunks(e))
    }

    /** A text delta: appended to the output and streamed if it is not blank. */
    method HandleText(text: string, ghost before: seq<Event>, ghost deltas: seq<string>)
      requires env.outMax > 0 && stream.Streamed(before, [], deltas)
      modifies this`outBuf, stream`wire, stream`sequenceNumber, stream`items
      ensures outBuf == Cut(old(outBuf) + text, env.outMax - 1)
      ensures stream.Streamed(before, [], deltas + DeltaIn(Text(text)))
    {
      hide stream.Streamed;
      assert deltas + [] == deltas;
      outBuf := Cut(outBuf + text, env.outMax - 1);
      if text != "" { stream.EmitChunk(text, before, [], deltas); }
    }

    /** A compaction notice: three appends to event_prefix. */
    method HandleNotice(message: string)
      modifies this`eventPrefix
      ensures eventPrefix == Cut(old(eventPrefix) + NoticeIn(Notice(message)), NOTICE_SIZE - 1)
    {
      NoticeInSteps(eventPrefix, message);
      hide Cut;
      eventPrefix := Cut(eventPrefix + "[COMPACT] ", NOTICE_SIZE - 1);
      eventPrefix := Cut(eventPrefix + message, NOTICE_SIZE - 1);
      eventPrefix := Cut(eventPrefix + "\n", NOTICE_SIZE - 1);
    }

    /** A frame of another kind: its bytes replace the output, behind the notices. */
    method HandleVerbatim(raw: string)
      requires env.outMax > 0
      modifies this`outBuf
      ensures outBuf == Cut(eventPrefix + raw, env.outMax - 1)
    {
      outBuf := Cut(eventPrefix, env.outMax - 1);
      outBuf := outBuf + Cut(raw, env.outMax - 1 - |outBuf|);
      CutInTwo(eventPrefix, raw, env.outMax - 1);
    }

    /** A tool intent below the limit: denied, refused or run, and answered. */
    method HandleTool(call: ToolCall)
      modifies eng`written
      ensures eng.written == old(eng.written) + [ReplyTo(call, env.requestId)]
    {
      hide ToolArgs.Valid;
      if call.name == "shell" {
        eng.WriteFrame(ToolError(env.requestId, call.name, DENIED));
        return;
      }
      var valid := ToolArgs.ArgsValid(call.name, call.args);
      if valid {
        eng.WriteFrame(ToolResult(env.requestId, call.name, call.outcome));
      } else {
        eng.WriteFrame(ToolError(env.requestId, call.name, MALFORMED));
      }
    }

    /** The response: the output is written afresh and the text streamed in chunks. */
    method HandleFinal(text: string, ghost before: seq<Event>, ghost deltas: seq<string>)
      requires env.outMax > 0 && stream.Streamed(before, [], deltas)
      modifies this`outBuf, stream`wire, stream`sequenceNumber, stream`items
      ensures outBuf == Cut(eventPrefix + text, env.outMax - 1)
      ensures stream.Streamed(before, [], deltas + Chunks(text, CHUNK_SIZE))
    {
      hide stream.Streamed, Chunks;
      if eventPrefix != "" {
        outBuf := Cut(eventPrefix, env.outMax - 1);
        outBuf := outBuf + Cut(text, env.outMax - 1 - |outBuf|);
      } else {
        outBuf := Cut(text, env.outMax - 1);
        assert eventPrefix + text == text;
      }
      CutInTwo(eventPrefix, text, env.outMax - 1);
      stream.EmitMore(text, CHUNK_SIZE, before, deltas);
    }

    /** What one more frame asks for, on values. */
    lemma Grow(f: Frame, start: string, fs: seq<Frame>)
      requires env.outMax > 0
      ensures var id, c := env.requestId, ClassOf(f, env.requestId);
              && Deltas(fs + [f], id) == Deltas(fs, id) + DeltaIn(c)
              && Prefix(fs + [f], id) == Cut(Prefix(fs, id) + NoticeIn(c), NOTICE_SIZE - 1)
              && Output(fs + [f], id, start, env.outMax)
                 == OutputWith(Output(fs, id, start, env.outMax), Prefix(fs, id), f, id, env.outMax)
    {
      var id, c := env.requestId, ClassOf(f, env.requestId);
      OneMoreFrame(fs, f, id);
      OneMoreOutput(fs, f, id, start, env.outMax);
      CutOfCut(Notices(fs, id), NoticeIn(c), NOTICE_SIZE - 1);
    }

    /** The state moved, from what the first four name, as the frame f asks. */
    ghost predicate Moved(out: string, prefix: string, written: seq<Sent>, deltas: seq<string>, f: Frame,
        wire: seq<Event>)
      requires env.outMax > 0
      reads this, eng, stream
    {
      var c := ClassOf(f, env.requestId);
      && outBuf == OutputWith(out, prefix, f, env.requestId, env.outMax)
      && eventPrefix == Cut(prefix + NoticeIn(c), NOTICE_SIZE - 1)
      && eng.written == written + ReplyIn(c, env.requestId)
      && stream.Streamed(wire, [], deltas + DeltaIn(c))
    }

    lemma CaughtOneMore(f: Frame, start: Start, fs: seq<Frame>, sent: seq<Sent>)
      requires env.outMax > 0
      requires var id := env.requestId;
               Moved(Output(fs, id, start.out, env.outMax), Prefix(fs, id), start.written + sent,
                     Deltas(fs, id), f, start.wire)
      ensures Caught(start, fs + [f], sent + ReplyIn(ClassOf(f, env.requestId), env.requestId))
    {
      Grow(f, start.out, fs);
      hide ClassOf, Output, OutputWith, Prefix, Calls, Deltas, stream.Streamed, DeltaIn, ReplyIn;
      Regroup(start.written, sent, ReplyIn(ClassOf(f, env.requestId), env.requestId));
    }

    /** A frame that does not end the turn. */
    method HandleMore(f: Frame, c: Class, ghost wire: seq<Event>, ghost deltas: seq<string>)
      requires env.outMax > 0 && stream.Streamed(wire, [], deltas) && |eventPrefix| < NOTICE_SIZE
               && c == ClassOf(f, env.requestId)
      modifies this`outBuf, this`eventPrefix, eng`written, stream`wire, stream`sequenceNumber, stream`items
      ensures Moved(old(outBuf), old(eventPrefix), old(eng.written), deltas, f, wire)
    {
      hide stream.Streamed, ReplyTo, ClassOf;
      assert deltas + [] == deltas && eventPrefix + [] == eventPrefix && eng.written + [] == eng.written;
      match c {
        case Text(text) => HandleText(text, wire, deltas);
        case Notice(message) => HandleNotice(message);
        case Tool(call) => HandleTool(call);
        case Verbatim => HandleVerbatim(f.raw);
        case _ =>
      }
    }

    lemma CaughtFacts(start: Start, fs: seq<Frame>, sent: seq<Sent>)
      requires env.outMax > 0 && Caught(start, fs, sent)
      ensures var id := env.requestId;
              && outBuf == Output(fs, id, start.out, env.outMax) && eventPrefix == Prefix(fs, id)
              && eng.written == start.written + sent
              && stream.Streamed(start.wire, [], Deltas(fs, id)) && |eventPrefix| < NOTICE_SIZE
    {
    }

    method KeepGoing(f: Frame, c: Class, ghost start: Start, ghost fs: seq<Frame>, ghost sent: seq<Sent>)
      requires env.outMax > 0 && Caught(start, fs, sent) && c == ClassOf(f, env.requestId)
      modifies this`outBuf, this`eventPrefix, eng`written, stream`wire, stream`sequenceNumber, stream`items
      ensures Caught(start, fs + [f], sent + ReplyIn(c, env.requestId))
    {
      hide *;
      CaughtFacts(start, fs, sent);
      HandleMore(f, c, start.wire, Deltas(fs, env.requestId));
      CaughtOneMore(f, start, fs, sent);
    }

    /** The turn fails: with a text, unless the agent acknowledged a cancellation,
        which leaves the output alone. */
    method Fail(e: Ending, ghost start: Start, ghost fs: seq<Frame>, ghost sent: seq<Sent>)
      requires env.outMax > 0 && Caught(start, fs, sent)
      requires e.ForeignFrame? || e.ToolLimit? || e.Faulted? || e.CancelAcked?
      modifies this`outBuf, eng`written
      ensures Left(start, fs, sent, e)
    {
      NoChunksOf(e, Deltas(fs, env.requestId));
      hide stream.Streamed, Output, Deltas;
      assert eng.written + [] == eng.written;
      match e {
        case ForeignFrame =>
          SetOutput(FOREIGN_TEXT);
          eng.SendError(ID_MISMATCH);
        case ToolLimit => SetOutput(TOOL_LIMIT_TEXT);
        case Faulted(message) => SetOutput(message);
        case CancelAcked =>
      }
    }

    lemma NoChunksOf(e: Ending, deltas: seq<string>)
      requires !e.Finished?
      ensures deltas + FinalChunks(e) == deltas
    {
    }

    method Finish(text: string, ghost start: Start, ghost fs: seq<Frame>, ghost sent: seq<Sent>)
      requires env.outMax > 0 && Caught(start, fs, sent)
      modifies this`outBuf, eng`written, stream`wire, stream`sequenceNumber, stream`items
      ensures Left(start, fs, sent, Finished(text))
    {
      hide *;
      CaughtFacts(start, fs, sent);
      HandleFinal(text, start.wire, Deltas(fs, env.requestId));
      SaveSession();
      HasFinished(start, fs, sent, text);
    }

    lemma HasFinished(start: Start, fs: seq<Frame>, sent: seq<Sent>, text: string)
      requires env.outMax > 0
      requires outBuf == Cut(Prefix(fs, env.requestId) + text, env.outMax - 1)
      requires eng.written == start.written + sent + SaveFrames(env, eng.canWrite)
      requires stream.Streamed(start.wire, [], Deltas(fs, env.requestId) + Chunks(text, CHUNK_SIZE))
      ensures Left(start, fs, sent, Finished(text))
    {
      hide stream.Streamed, Prefix, Deltas, Chunks, SaveFrames;
    }

    /** engine_save_session_state, if the state is to be saved: the frame, and one read
        for its ack, whose outcome is not looked at. */
    method SaveSession()
      modifies eng`written
      ensures eng.written == old(eng.written) + SaveFrames(env, eng.canWrite)
    {
      match env.save {
        case None => assert eng.written + [] == eng.written;
        case Some(s) =>
          ghost var was := eng.written;
          eng.WriteFrame(SaveState(s.key, s.stateId));
          var ack := eng.ReadFrame(s.reply);
          assert was + ([SaveState(s.key, s.stateId)] + ReadErrors(eng.canWrite, s.reply)) == eng.written;
      }
    }

    /** One frame, from the id check to the end of the loop body. */
    method HandleFrame(f: Frame, toolCycles: nat, ghost start: Start, ghost fs: seq<Frame>, ghost sent: seq<Sent>)
      returns (next: Next)
      requires env.outMax > 0 && Caught(start, fs, sent) && toolCycles == |Calls(fs, env.requestId)|
      modifies this`outBuf, this`eventPrefix, eng`written, stream`wire, stream`sequenceNumber, stream`items
      ensures EndedBy(f, fs, env.requestId).None? ==>
                var c := ClassOf(f, env.requestId);
                Caught(start, fs + [f], sent + ReplyIn(c, env.requestId)) && next == NextAfter(c)
      ensures EndedBy(f, fs, env.requestId).Some? ==>
                var e := EndedBy(f, fs, env.requestId).value;
                Left(start, fs, sent, e) && next == Stop(Succeeds(e))
    {
      hide Caught, Left, Moved, ClassOf, Calls;
      var c := ClassOf(f, env.requestId);
      match c {
        case Foreign => Fail(ForeignFrame, start, fs, sent); return Stop(false);
        case CancelAck => Fail(CancelAcked, start, fs, sent); return Stop(false);
        case Fault(message) => Fail(Faulted(message), start, fs, sent); return Stop(false);
        case Final(text) => Finish(text, start, fs, sent); return Stop(true);
        case Tool(_) => if toolCycles + 1 > MAX_TOOL_CYCLES { Fail(ToolLimit, start, fs, sent); return Stop(false); }
        case _ =>
      }
      KeepGoing(f, c, start, fs, sent);
      next := if c.Skipped? then Skip else if c.Tool? then CountTool else Count;
    }

    // ---- The loop

    /** What is written for the first n polls. */
    ghost function SentBy(tr: seq<Poll>, n: nat): seq<Sent> { Written(env.requestId, eng.canWrite, tr, n) }

    /** The loop is at poll n: nothing has ended the turn. */
    ghost predicate Progress(start: Start, tr: seq<Poll>, n: nat)
      requires env.outMax > 0
      reads this, eng, stream
    {
      && Running(env, tr, n) && Caught(start, Heard(tr, n), SentBy(tr, n)) && !HasDelete(Asked(env, tr, n))
      && answers == start.answers + AnswersTo(Asked(env, tr, n))
      && !eng.cancelled && !eventLimitExceeded
    }

    /** It has taken that poll's requests, none cancelled the turn, and the frames
        `sent` are written. */
    ghost predicate Listening(start: Start, tr: seq<Poll>, n: nat, sent: seq<Sent>)
      requires env.outMax > 0
      reads this, eng, stream
    {
      && Running(env, tr, n) && Caught(start, Heard(tr, n), sent) && !HasDelete(Asked(env, tr, n + 1))
      && answers == start.answers + AnswersTo(Asked(env, tr, n + 1))
      && !eng.cancelled && !eventLimitExceeded
      && Counted(Heard(tr, n), env.requestId) < env.maxEvents
    }

    /** All that is left behind by a turn that ends at poll n. */
    ghost predicate Over(start: Start, tr: seq<Poll>, n: nat, e: Ending)
      requires env.outMax > 0
      reads this, eng, stream
    {
      var asked := AllAsked(env, tr, n, e);
      var fs := Heard(tr, n);
      && EndsAt(env, tr, n, e)
      && outBuf == FinalOutput(env, fs, e, start.out)
      && answers == start.answers + AnswersTo(asked)
      && eng.cancelled == HasDelete(asked)
      && eng.written == start.written + AllWritten(env, eng.canWrite, tr, n, e, eng.CancelSent())
      && stream.Streamed(start.wire, [], Deltas(fs, env.requestId) + FinalChunks(e))
      && eventLimitExceeded == e.EventLimit?
    }

    lemma IsOver(start: Start, tr: seq<Poll>, n: nat, e: Ending, asked: seq<Request>)
      requires env.outMax > 0 && Running(env, tr, n) && EndAt(env, tr, n) == Some(e) && asked == AllAsked(env, tr, n, e)
      requires var fs := Heard(tr, n);
               && outBuf == FinalOutput(env, fs, e, start.out)
               && eng.written == start.written + AllWritten(env, eng.canWrite, tr, n, e, eng.CancelSent())
               && stream.Streamed(start.wire, [], Deltas(fs, env.requestId) + FinalChunks(e))
      requires answers == start.answers + AnswersTo(asked)
      requires eng.cancelled == HasDelete(asked) && eventLimitExceeded == e.EventLimit?
      ensures Over(start, tr, n, e)
    {
      hide AllAsked, AllWritten, HasDelete, Running, EndAt, FinalOutput, Heard, Deltas, FinalChunks, AnswersTo;
      hide stream.Streamed, eng.CancelSent;
    }

    /** Progress and Listening, without their definitions. */
    lemma ProgressFacts(start: Start, tr: seq<Poll>, n: nat)
      requires env.outMax > 0 && Progress(start, tr, n)
      ensures Running(env, tr, n) && Caught(start, Heard(tr, n), SentBy(tr, n)) && !HasDelete(Asked(env, tr, n))
      ensures answers == start.answers + AnswersTo(Asked(env, tr, n)) && !eng.cancelled && !eventLimitExceeded
    {
    }

    lemma NowListening(start: Start, tr: seq<Poll>, n: nat, sent: seq<Sent>)
      requires env.outMax > 0 && Running(env, tr, n) && Caught(start, Heard(tr, n), sent)
               && !HasDelete(Asked(env, tr, n + 1))
      requires answers == start.answers + AnswersTo(Asked(env, tr, n + 1)) && !eng.cancelled && !eventLimitExceeded
      requires Counted(Heard(tr, n), env.requestId) < env.maxEvents
      ensures Listening(start, tr, n, sent)
    {
    }

    lemma FailureOutput(fs: seq<Frame>, e: Ending, start: string)
      requires env.outMax > 0 && (e.CancelledByClient? || e.TimedOut?)
      ensures FinalOutput(env, fs, e, start)
              == Cut(if e.TimedOut? then TIMEOUT_TEXT else CANCELLED_TEXT, env.outMax - 1)
    {
    }

    lemma AllAskedIs(tr: seq<Poll>, n: nat)
      ensures AllAsked(env, tr, n, CancelledByClient) == Asked(env, tr, n + 1)
      ensures AllAsked(env, tr, n, TimedOut) == Asked(env, tr, n + 1) + if env.plane then At(tr, n).late else []
    {
    }

    lemma OverFacts(start: Start, tr: seq<Poll>, n: nat, e: Ending)
      requires env.outMax > 0 && Over(start, tr, n, e)
      ensures var asked, fs := AllAsked(env, tr, n, e), Heard(tr, n);
              && EndsAt(env, tr, n, e) && outBuf == FinalOutput(env, fs, e, start.out)
              && answers == start.answers + AnswersTo(asked)
              && eng.cancelled == HasDelete(asked) && eventLimitExceeded == e.EventLimit?
              && eng.written == start.written + AllWritten(env, eng.canWrite, tr, n, e, eng.CancelSent())
              && stream.Streamed(start.wire, [], Deltas(fs, env.requestId) + FinalChunks(e))
    {
    }

    /** The look at the listening socket before a read. */
    method Plane(tr: seq<Poll>, n: nat, ghost start: Start) returns (stopped: bool)
      requires env.outMax > 0 && Progress(start, tr, n) && Counted(Heard(tr, n), env.requestId) < env.maxEvents
      modifies this`answers, this`outBuf, eng`cancelled, eng`written, eng`turnActive
      ensures stopped ==> Over(start, tr, n, CancelledByClient)
      ensures !stopped ==> Listening(start, tr, n, SentBy(tr, n))
      ensures eng.cancelled == stopped && eng.turnActive == (old(eng.turnActive) && !stopped)
    {
      hide *;
      ghost var fs, e := Heard(tr, n), CancelledByClient;
      ProgressFacts(start, tr, n);
      CaughtFacts(start, fs, SentBy(tr, n));
      NothingAsked(start, tr, n);
      stopped := false;
      if env.plane {
        HandlePlane(At(tr, n).requests);
        AnswersSoFar(start, tr, n);
        if eng.cancelled {
          SetOutput(CANCELLED_TEXT);
          PlaneStops(start, tr, n);
          return true;
        }
        StillCaught(start, fs, SentBy(tr, n));
      }
      NowListening(start, tr, n, SentBy(tr, n));
    }

    /** Requests of poll n, taken or not, on top of those before. */
    lemma AnswersSoFar(start: Start, tr: seq<Poll>, n: nat)
      requires !HasDelete(Asked(env, tr, n))
      ensures var more := if env.plane then At(tr, n).requests else [];
              && HasDelete(Asked(env, tr, n + 1)) == HasDelete(more)
              && start.answers + AnswersTo(Asked(env, tr, n + 1))
                 == start.answers + AnswersTo(Asked(env, tr, n)) + AnswersTo(more)
    {
      hide *;
      AskedMore(env, tr, n);
      var more := if env.plane then At(tr, n).requests else [];
      Regroup(start.answers, AnswersTo(Asked(env, tr, n)), AnswersTo(more));
    }

    lemma NothingAsked(start: Start, tr: seq<Poll>, n: nat)
      requires !HasDelete(Asked(env, tr, n))
      ensures !HasDelete([]) && !env.plane ==>
                !HasDelete(Asked(env, tr, n + 1)) && AnswersTo(Asked(env, tr, n + 1)) == AnswersTo(Asked(env, tr, n))
      ensures !HasDelete([]) && AnswersTo([]) == []
    {
      NoRequests();
      hide *;
      AskedMore(env, tr, n);
    }

    lemma PlaneStops(start: Start, tr: seq<Poll>, n: nat)
      requires env.outMax > 0 && Running(env, tr, n) && Counted(Heard(tr, n), env.requestId) < env.maxEvents
      requires var fs, id := Heard(tr, n), env.requestId;
               && outBuf == Cut(CANCELLED_TEXT, env.outMax - 1)
               && eng.written == start.written + SentBy(tr, n) + eng.CancelSent()
               && stream.Streamed(start.wire, [], Deltas(fs, id))
      requires answers == start.answers + AnswersTo(Asked(env, tr, n + 1))
      requires eng.cancelled && HasDelete(Asked(env, tr, n + 1)) && !eventLimitExceeded
      ensures Over(start, tr, n, CancelledByClient)
    {
      hide *;
      var fs, e := Heard(tr, n), CancelledByClient;
      EndIs(env, tr, n);
      NoChunksOf(e, Deltas(fs, env.requestId));
      FailureOutput(fs, e, start.out);
      AllAskedIs(tr, n);
      AllWrittenIs(start, tr, n, e);
      IsOver(start, tr, n, e, Asked(env, tr, n + 1));
    }

    /** AllWritten behind what was there at the start, for an ending. */
    lemma AllWrittenIs(start: Start, tr: seq<Poll>, n: nat, e: Ending)
      ensures start.written + AllWritten(env, eng.canWrite, tr, n, e, eng.CancelSent())
           == start.written + SentBy(tr, if e.TimedOut? then n + 1 else n)
              + (if HasDelete(AllAsked(env, tr, n, e)) then eng.CancelSent() else []) + EndFrames(env, e, eng.canWrite)
      ensures e.CancelledByClient? || e.EventLimit? ==> EndFrames(env, e, eng.canWrite) == []
      ensures e.TimedOut? ==> EndFrames(env, e, eng.canWrite) == Errors(eng.canWrite, HANDSHAKE_TIMEOUT)
    {
      hide AllAsked, HasDelete, Written, Errors;
      Regroup4(start.written, SentBy(tr, if e.TimedOut? then n + 1 else n),
               if HasDelete(AllAsked(env, tr, n, e)) then eng.CancelSent() else [], EndFrames(env, e, eng.canWrite));
    }

    lemma StillCaught(start: Start, fs: seq<Frame>, sent: seq<Sent>)
      requires env.outMax > 0
      requires var id := env.requestId;
               && outBuf == Output(fs, id, start.out, env.outMax) && eventPrefix == Prefix(fs, id)
               && eng.written == start.written + sent
               && stream.Streamed(start.wire, [], Deltas(fs, id))
      ensures Caught(start, fs, sent)
    {
    }

    /** The timeout, with its last look at the listening socket. */
    method GiveUp(tr: seq<Poll>, n: nat, ghost start: Start)
      requires env.outMax > 0 && Listening(start, tr, n, SentBy(tr, n + 1)) && EndAt(env, tr, n) == Some(TimedOut)
      modifies this`answers, this`outBuf, eng`cancelled, eng`written, eng`turnActive
      ensures Over(start, tr, n, TimedOut)
      ensures eng.turnActive == (old(eng.turnActive) && !eng.cancelled)
    {
      hide *;
      ghost var fs, e := Heard(tr, n), TimedOut;
      ghost var late := if env.plane then At(tr, n).late else [];
      ListeningFacts(start, tr, n, SentBy(tr, n + 1));
      CaughtFacts(start, fs, SentBy(tr, n + 1));
      LateAnswers(start, Asked(env, tr, n + 1), late);
      NoRequests();
      NothingMore(answers, eng.written);
      if env.plane { HandlePlane(At(tr, n).late); }
      SetOutput(TIMEOUT_TEXT);
      NothingMore(answers, eng.written);
      eng.SendError(HANDSHAKE_TIMEOUT);
      NoChunksOf(e, Deltas(fs, env.requestId));
      FailureOutput(fs, e, start.out);
      AllAskedIs(tr, n);
      AllWrittenIs(start, tr, n, e);
      IsOver(start, tr, n, e, Asked(env, tr, n + 1) + late);
    }

    lemma LateAnswers(start: Start, asked: seq<Request>, late: seq<Request>)
      requires !HasDelete(asked)
      ensures HasDelete(asked + late) == HasDelete(late)
      ensures start.answers + AnswersTo(asked + late) == start.answers + AnswersTo(asked) + AnswersTo(late)
    {
      hide *;
      MoreAsked(asked, late);
      Regroup(start.answers, AnswersTo(asked), AnswersTo(late));
    }

    lemma NothingMore(answers: seq<Answer>, written: seq<Sent>)
      ensures answers + [] == answers && written + [] == written
    {
    }

    lemma NoRequests()
      ensures !HasDelete([]) && AnswersTo([]) == []
    {
    }

    lemma Begins(start: Start, tr: seq<Poll>)
      requires env.outMax > 0 && !eng.cancelled && !eventLimitExceeded && stream.Open() && stream.Text() == Fit([])
      requires start == Start(outBuf, eng.written, stream.wire, answers) && eventPrefix == ""
      ensures Progress(start, tr, 0)
      ensures Counted(Heard(tr, 0), env.requestId) == 0 == |Calls(Heard(tr, 0), env.requestId)| && Silent(tr, 0) == 0
      ensures Slices(Timeout(env), Slice(env)) == Patience(env)
    {
      NoRequests();
      assert [] + Deltas([], env.requestId) == [];
      assert stream.wire + Numbered(DeltaPayloads([]), |stream.wire|) == stream.wire;
      assert eng.written + [] == eng.written;
      assert answers + [] == answers;
    }

    lemma FrameEnds(start: Start, tr: seq<Poll>, n: nat, e: Ending)
      requires env.outMax > 0 && EndsAt(env, tr, n, e) && Left(start, Heard(tr, n), SentBy(tr, n), e)
      requires e.CancelAcked? || e.ForeignFrame? || e.Faulted? || e.ToolLimit? || e.Finished?
      requires answers == start.answers + AnswersTo(Asked(env, tr, n + 1)) && !HasDelete(Asked(env, tr, n + 1))
      requires !eng.cancelled && !eventLimitExceeded
      ensures Over(start, tr, n, e)
    {
      AllWrittenIs(start, tr, n, e);
      hide Counted, Heard, HasDelete, Asked, EndsAt, Output, Prefix, Deltas, AnswersTo, stream.Streamed, FinalOutput,
           AllWritten;
      hide EndFrames, Written;
      assert Asked(env, tr, n + 1) + [] == Asked(env, tr, n + 1);
      assert start.written + SentBy(tr, n) + [] == start.written + SentBy(tr, n);
    }

    lemma GoesOn(start: Start, tr: seq<Poll>, n: nat)
      requires env.outMax > 0 && Running(env, tr, n) && EndAt(env, tr, n) == None
      requires Caught(start, Heard(tr, n + 1), SentBy(tr, n + 1))
      requires answers == start.answers + AnswersTo(Asked(env, tr, n + 1)) && !HasDelete(Asked(env, tr, n + 1))
      requires !eng.cancelled && !eventLimitExceeded
      ensures Progress(start, tr, n + 1)
    {
      RunsOn(env, tr, n);
      hide Counted, Heard, HasDelete, Asked, EndAt, Running, AnswersTo, Caught;
    }

    lemma Ends(tr: seq<Poll>, n: nat, e: Ending)
      requires Running(env, tr, n) && EndAt(env, tr, n) == Some(e)
      ensures EndsAt(env, tr, n, e)
    {
      hide Running, EndAt;
    }

    lemma AtTheLimit(start: Start, tr: seq<Poll>, n: nat)
      requires env.outMax > 0 && Progress(start, tr, n) && Counted(Heard(tr, n), env.requestId) >= env.maxEvents
      ensures EndsAt(env, tr, n, EventLimit)
      ensures Running(env, tr, n) && EndAt(env, tr, n) == Some(EventLimit)
              && AllAsked(env, tr, n, EventLimit) == Asked(env, tr, n)
      ensures outBuf == FinalOutput(env, Heard(tr, n), EventLimit, start.out)
    {
      EndIs(env, tr, n);
      hide Counted, Heard, HasDelete, Asked, EndAt, Running, Output, Prefix, Deltas, AnswersTo, stream.Streamed;
    }

    method ReachLimit(tr: seq<Poll>, n: nat, ghost start: Start)
      requires env.outMax > 0 && Progress(start, tr, n) && Counted(Heard(tr, n), env.requestId) >= env.maxEvents
      modifies this`eventLimitExceeded
      ensures Over(start, tr, n, EventLimit)
    {
      hide *;
      AtTheLimit(start, tr, n);
      ProgressFacts(start, tr, n);
      CaughtFacts(start, Heard(tr, n), SentBy(tr, n));
      NoChunksOf(EventLimit, Deltas(Heard(tr, n), env.requestId));
      AllWrittenIs(start, tr, n, EventLimit);
      NothingMore(answers, eng.written);
      eventLimitExceeded := true;
      IsOver(start, tr, n, EventLimit, Asked(env, tr, n));
    }

    /** What the loop does with the frame read at poll n. */
    method OnFrame(f: Frame, toolCycles: nat, ghost tr: seq<Poll>, ghost n: nat, ghost start: Start)
        returns (next: Next)
      requires env.outMax > 0 && Listening(start, tr, n, SentBy(tr, n)) && At(tr, n).frame == Got(f)
      requires toolCycles == |Calls(Heard(tr, n), env.requestId)|
      modifies this`outBuf, this`eventPrefix, eng`written, stream`wire, stream`sequenceNumber, stream`items
      ensures eng.cancelled == old(eng.cancelled)
      ensures !next.Stop? ==> Progress(start, tr, n + 1) && next == NextAfter(ClassOf(f, env.requestId))
      ensures next.Stop? ==> EndAt(env, tr, n).Some? && Over(start, tr, n, EndAt(env, tr, n).value)
                             && next.ok == Succeeds(EndAt(env, tr, n).value)
    {
      hide *;
      EndIs(env, tr, n);
      ListeningFacts(start, tr, n, SentBy(tr, n));
      EndingsOfFrames(f, Heard(tr, n), env.requestId);
      HeardFrame(tr, n + 1);
      SentByMore(tr, n);
      next := HandleFrame(f, toolCycles, start, Heard(tr, n), SentBy(tr, n));
      if EndedBy(f, Heard(tr, n), env.requestId).Some? {
        Ends(tr, n, EndedBy(f, Heard(tr, n), env.requestId).value);
        FrameEnds(start, tr, n, EndedBy(f, Heard(tr, n), env.requestId).value);
      } else {
        NotAStop(ClassOf(f, env.requestId));
        GoesOn(start, tr, n);
      }
    }

    lemma SentByMore(tr: seq<Poll>, n: nat)
      ensures SentBy(tr, n + 1) == SentBy(tr, n) + SentOn(At(tr, n).frame, env.requestId, eng.canWrite)
      ensures At(tr, n).frame.Got? ==>
                SentBy(tr, n + 1) == SentBy(tr, n)
                    + ReplyIn(ClassOf(At(tr, n).frame.value, env.requestId), env.requestId)
      ensures At(tr, n).frame.Nothing?
              ==> SentBy(tr, n + 1) == SentBy(tr, n) + ReadErrors(eng.canWrite, At(tr, n).frame)
    {
      hide ClassOf, ReplyIn;
    }

    lemma ListeningFacts(start: Start, tr: seq<Poll>, n: nat, sent: seq<Sent>)
      requires env.outMax > 0 && Listening(start, tr, n, sent)
      ensures Running(env, tr, n) && Caught(start, Heard(tr, n), sent)
              && Counted(Heard(tr, n), env.requestId) < env.maxEvents
      ensures answers == start.answers + AnswersTo(Asked(env, tr, n + 1)) && !HasDelete(Asked(env, tr, n + 1))
      ensures !eng.cancelled && !eventLimitExceeded
    {
    }

    /** The three counters of the loop at poll n. */
    ghost predicate Counters(tr: seq<Poll>, n: nat, eventCount: nat, toolCycles: nat, remaining: int) {
      && eventCount == Counted(Heard(tr, n), env.requestId)
      && toolCycles == |Calls(Heard(tr, n), env.requestId)|
      && remaining > 0 && Silent(tr, n) + Slices(remaining, Slice(env)) == Patience(env)
    }

    lemma CounterFacts(tr: seq<Poll>, n: nat, eventCount: nat, toolCycles: nat, remaining: int)
      requires Counters(tr, n, eventCount, toolCycles, remaining)
      ensures eventCount == Counted(Heard(tr, n), env.requestId)
      ensures toolCycles == |Calls(Heard(tr, n), env.requestId)| && remaining > 0
    {
    }

    lemma CountersBegin(tr: seq<Poll>)
      ensures Counters(tr, 0, 0, 0, Timeout(env))
    {
    }

    lemma CountersAfterFrame(tr: seq<Poll>, n: nat, eventCount: nat, toolCycles: nat, remaining: int, f: Frame)
      requires Counters(tr, n, eventCount, toolCycles, remaining) && At(tr, n).frame == Got(f)
      ensures var next := NextAfter(ClassOf(f, env.requestId));
              Counters(tr, n + 1, if next.Skip? then eventCount else eventCount + 1,
                       if next.CountTool? then toolCycles + 1 else toolCycles, Timeout(env))
    {
      hide ClassOf, Counted, Calls, At, NextAfter;
      HeardFrame(tr, n + 1);
      Counts(Heard(tr, n), f, env.requestId);
    }

    lemma CountersAfterSilence(tr: seq<Poll>, n: nat, eventCount: nat, toolCycles: nat, remaining: int, left: int)
      requires Counters(tr, n, eventCount, toolCycles, remaining) && At(tr, n).frame.Nothing?
      requires left == remaining - if remaining < Slice(env) then remaining else Slice(env)
      ensures left > 0 ==> Counters(tr, n + 1, eventCount, toolCycles, left)
      ensures left > 0 <==> Silent(tr, n + 1) < Patience(env)
    {
      hide Counted, Calls, At, Patience, Slice;
      HeardNothing(tr, n + 1);
      SlicesStep(remaining, Slice(env));
    }

    /** The read of poll n. */
    method ReadNext(tr: seq<Poll>, n: nat, ghost start: Start) returns (frame: Option<Frame>)
      requires env.outMax > 0 && Listening(start, tr, n, SentBy(tr, n))
      modifies eng`written
      ensures frame.None? ==> At(tr, n).frame.Nothing? && Listening(start, tr, n, SentBy(tr, n + 1))
      ensures frame.Some? ==> At(tr, n).frame == Got(frame.value) && Listening(start, tr, n, SentBy(tr, n))
    {
      hide *;
      ListeningFacts(start, tr, n, SentBy(tr, n));
      CaughtFacts(start, Heard(tr, n), SentBy(tr, n));
      SentByMore(tr, n);
      frame := eng.ReadFrame(At(tr, n).frame);
      ReadIsQuiet(At(tr, n).frame, eng.written);
      Regroup(start.written, SentBy(tr, n), ReadErrors(eng.canWrite, At(tr, n).frame));
      StillCaught(start, Heard(tr, n), if frame.None? then SentBy(tr, n + 1) else SentBy(tr, n));
      NowListening(start, tr, n, if frame.None? then SentBy(tr, n + 1) else SentBy(tr, n));
    }

    lemma ReadIsQuiet(r: Reading, written: seq<Sent>)
      ensures r.Got? ==> ReadErrors(eng.canWrite, r) == []
      ensures forall sent: seq<Sent> {:trigger sent + []} :: sent + [] == sent
    {
    }

    /** A read that came back without a frame. */
    method OnSilence(left: int, tr: seq<Poll>, n: nat, ghost start: Start)
      requires env.outMax > 0 && Listening(start, tr, n, SentBy(tr, n + 1)) && At(tr, n).frame.Nothing?
      requires left > 0 <==> Silent(tr, n + 1) < Patience(env)
      modifies this`answers, this`outBuf, eng`cancelled, eng`written, eng`turnActive
      ensures left > 0 ==> Progress(start, tr, n + 1) && !eng.cancelled
      ensures left <= 0 ==> Over(start, tr, n, TimedOut)
      ensures eng.turnActive == (old(eng.turnActive) && !eng.cancelled)
    {
      hide *;
      EndIs(env, tr, n);
      ListeningFacts(start, tr, n, SentBy(tr, n + 1));
      if left <= 0 {
        GiveUp(tr, n, start);
      } else {
        HeardNothing(tr, n + 1);
        GoesOn(start, tr, n);
      }
    }

    /** turn_process_events, from a fresh turn: it ends at the first poll that ends
        it, and leaves exactly what the prefix of the trace up to there asks for. */
    method ProcessEvents(tr: seq<Poll>) returns (ok: bool, ghost n: nat, ghost e: Ending)
      requires env.outMax > 0 && !eng.cancelled && !eventLimitExceeded && stream.Open() && stream.Text() == Fit([])
      modifies this, eng`cancelled, eng`written, eng`turnActive, stream`wire, stream`sequenceNumber, stream`items
      ensures Over(old(Start(outBuf, eng.written, stream.wire, answers)), tr, n, e) && ok == Succeeds(e)
      ensures eng.turnActive == (old(eng.turnActive) && !eng.cancelled)
    {
      hide *;
      ghost var start := Start(outBuf, eng.written, stream.wire, answers);
      eventPrefix := "";
      var eventCount, toolCycles, remaining := 0, 0, Timeout(env);
      n := 0;
      var i: nat := 0;
      Begins(start, tr);
      CountersBegin(tr);
      Verdicts();
      while eventCount < env.maxEvents
        invariant Progress(start, tr, i) && Counters(tr, i, eventCount, toolCycles, remaining) && n == i
        invariant eng.turnActive == old(eng.turnActive) && !eng.cancelled
        decreases if i < |tr| then |tr| - i else 0, remaining
      {
        CounterFacts(tr, i, eventCount, toolCycles, remaining);
        var pollMs := if remaining < Slice(env) then remaining else Slice(env);
        var stopped := Plane(tr, i, start);
        if stopped { ok, e := false, CancelledByClient; return; }
        NothingAfter(tr, i);
        var frame := ReadNext(tr, i, start);
        if frame.None? {
          CountersAfterSilence(tr, i, eventCount, toolCycles, remaining, remaining - pollMs);
          remaining := remaining - pollMs;
          OnSilence(remaining, tr, i, start);
          if remaining <= 0 { ok, e := false, TimedOut; return; }
        } else {
          CountersAfterFrame(tr, i, eventCount, toolCycles, remaining, frame.value);
          remaining := Timeout(env);
          var next := OnFrame(frame.value, toolCycles, tr, i, start);
          if next.Stop? { ok, e := next.ok, EndAt(env, tr, i).value; return; }
          if !next.Skip? { eventCount := eventCount + 1; }
          if next.CountTool? { toolCycles := toolCycles + 1; }
        }
        i := i + 1;
        n := i;
      }
      CounterFacts(tr, i, eventCount, toolCycles, remaining);
      ReachLimit(tr, i, start);
      ok, e := true, EventLimit;
    }
  }

  lemma Regroup<T>(a: seq<T>, b: seq<T>, c: seq<T>)
    ensures a + (b + c) == a + b + c
  {
  }

  lemma Regroup4<T>(a: seq<T>, b: seq<T>, c: seq<T>, d: seq<T>)
    ensures a + (b + c + d) == a + b + c + d
  {
  }

  lemma Verdicts()
    ensures !Succeeds(CancelledByClient) && !Succeeds(TimedOut) && Succeeds(EventLimit)
  {
  }

  lemma NotAStop(c: Class)
    ensures !NextAfter(c).Stop?
  {
  }

  lemma Counts(fs: seq<Frame>, f: Frame, id: string)
    ensures Counted(fs + [f], id) == Counted(fs, id) + if NextAfter(ClassOf(f, id)).Skip? then 0 else 1
    ensures |Calls(fs + [f], id)| == |Calls(fs, id)| + if NextAfter(ClassOf(f, id)).CountTool? then 1 else 0
  {
    hide ClassOf, Counted, Calls;
    OneMoreFrame(fs, f, id);
  }

  lemma OneMoreRequest(requests: seq<Request>, i: nat)
    requires i < |requests|
    ensures AnswersTo(requests[..i + 1]) == AnswersTo(requests[..i]) + [AnswerTo(requests[i])]
    ensures HasDelete(requests[..i + 1]) <==> HasDelete(requests[..i]) || IsDelete(requests[i])
    ensures IsDelete(requests[i]) <==> AnswerTo(requests[i]) == Cancelled
  {
    var a, b := requests[..i], requests[..i + 1];
    assert forall k | 0 <= k < i :: b[k] == a[k];
    assert b[i] == requests[i];
  }

  lemma NoticeInSteps(prefix: string, message: string)
    ensures var n := NOTICE_SIZE - 1;
            Cut(Cut(Cut(prefix + "[COMPACT] ", n) + message, n) + "\n", n)
                == Cut(prefix + ("[COMPACT] " + message + "\n"), n)
  {
    var n := NOTICE_SIZE - 1;
    CutOfCut(prefix + "[COMPACT] ", message, n);
    CutOfCut(prefix + "[COMPACT] " + message, "\n", n);
    assert prefix + "[COMPACT] " + message + "\n" == prefix + ("[COMPACT] " + message + "\n");
  }

  lemma CutInTwo(a: string, b: string, n: nat)
    ensures Cut(a, n) + Cut(b, n - |Cut(a, n)|) == Cut(a + b, n)
  {
  }
}
