/** What one turn hears, and what it must have done by any point of it: the
    specification of the turn loop of src/turn_context.c, on values. Every
    definition reads a prefix of the trace; none follows the loop. */
module TurnTrace {
  import opened Texts
  import Printf
  import ToolArgs

  const MAX_TOOL_CYCLES := 64
  const NOTICE_SIZE := 8192     // sizeof event_prefix
  const CHUNK_SIZE := 4096
  const PLANE_POLL_MS := 100
  const IDLE_POLL_MS := 2000
  const DEFAULT_TIMEOUT_MS := 60000

  // ---- The trace

  /** A parsed native frame. Lifecycle stands for health, ping, pong, ready,
      shutdown and shutdown_ack; `outcome` is what running the tool would print. */
  datatype NativeEvent =
    | TextDelta(text: string) | Unknown | Compaction(message: string) | CancelNotice
    | ErrorEvent(message: string) | ToolIntent(name: string, args: string, outcome: string)
    | Response(text: string) | Lifecycle | Ack(status: string, retryMs: int)

  datatype Frame = Frame(event: NativeEvent, id: string, raw: string)

  /** A connection to the listening socket: its request line, or one that cannot be read. */
  datatype Request = Unreadable | Http(verb: string, path: string)
  datatype Answer = Closed | Models | Cancelled | Conflict | NotFound

  /** What a read in its time slice comes back with: a frame, or nothing, because
      nothing came or because the frame that came was too big. */
  datatype Reading = Got(value: Frame) | Nothing(tooBig: bool)

  /** One turn of the loop: the connections waiting before the read, the read, and
      the connections waiting when the loop gives up. */
  datatype Poll = Poll(requests: seq<Request>, frame: Reading, late: seq<Request>)

  const SILENCE := Poll([], Nothing(false), [])

  /** After the trace nothing more arrives. */
  function At(tr: seq<Poll>, n: nat): Poll { if n < |tr| then tr[n] else SILENCE }

  lemma NothingAfter(tr: seq<Poll>, n: nat)
    ensures n >= |tr| ==> At(tr, n).frame.Nothing?
  {
  }

  // What a turn runs under; `save` is there if the session's state is known and to be
  // saved after a response, with what the agent replies to that.
  datatype Env =
    Env(requestId: string, maxEvents: int, timeoutMs: int, plane: bool, outMax: nat, save: Option<Saving>)
  datatype Saving = Saving(key: string, stateId: string, reply: Reading)

  // ---- Requests in the middle of a turn

  predicate IsDelete(r: Request) { r.Http? && r.verb == "DELETE" && "/v1/responses/" <= r.path }

  function AnswerTo(r: Request): Answer {
    if r.Unreadable? then Closed
    else if r.verb == "GET" && r.path == "/v1/models" then Models
    else if IsDelete(r) then Cancelled
    else if r.verb == "POST" && r.path == "/v1/responses" then Conflict
    else NotFound
  }

  predicate HasDelete(rs: seq<Request>) { exists i | 0 <= i < |rs| :: IsDelete(rs[i]) }

  function AnswersTo(rs: seq<Request>): (answers: seq<Answer>)
    ensures |answers| == |rs| && forall i | 0 <= i < |rs| :: answers[i] == AnswerTo(rs[i])
  {
    seq(|rs|, i requires 0 <= i < |rs| => AnswerTo(rs[i]))
  }

  /** The requests of the first n polls; none are taken without a control plane. */
  function Asked(env: Env, tr: seq<Poll>, n: nat): seq<Request> {
    if n == 0 then [] else Asked(env, tr, n - 1) + if env.plane then At(tr, n - 1).requests else []
  }

  // ---- Frames

  datatype Class = Skipped | Foreign | Text(text: string) | Quiet | Notice(message: string) | CancelAck
                 | Fault(message: string) | Tool(call: ToolCall) | Final(text: string) | Verbatim

  datatype ToolCall = ToolCall(name: string, args: string, outcome: string)

  const COMPACTING := "Native agent is compacting context."
  const AGENT_ERROR := "native agent error"

  /** A frame belongs to the turn if it has no id or its bytes contain the turn's id. */
  function ClassOf(f: Frame, id: string): Class {
    if f.id != "" && !Contains(f.raw, id) then
      if f.event.Lifecycle? then Skipped else Foreign
    else
      match f.event
      case TextDelta(text) => Text(text)
      case Unknown => if Contains(f.raw, "\"type\":\"event\"") || Contains(f.raw, "thinking") then Quiet else Verbatim
      case Compaction(message) => Notice(if message == "" then COMPACTING else message)
      case CancelNotice => CancelAck
      case ErrorEvent(message) => Fault(if message == "" then AGENT_ERROR else message)
      case ToolIntent(name, args, outcome) => Tool(ToolCall(name, args, outcome))
      case Response(text) => Final(text)
      case Lifecycle => Verbatim
      case Ack(_, _) => Verbatim
  }

  function Heard(tr: seq<Poll>, n: nat): (fs: seq<Frame>)
    ensures |fs| <= n
  {
    if n == 0 then []
    else Heard(tr, n - 1) + FrameOf(At(tr, n - 1).frame)
  }

  function FrameOf(r: Reading): seq<Frame> { if r.Got? then [r.value] else [] }

  /** Frames that count against the event limit: all but foreign lifecycle frames. */
  function Counted(fs: seq<Frame>, id: string): (n: nat)
    ensures n <= |fs|
  {
    if fs == [] then 0
    else Counted(fs[..|fs| - 1], id) + if ClassOf(fs[|fs| - 1], id).Skipped? then 0 else 1
  }

  function Calls(fs: seq<Frame>, id: string): (calls: seq<ToolCall>)
    ensures |calls| <= |fs|
  {
    if fs == [] then []
    else Calls(fs[..|fs| - 1], id) + CallIn(ClassOf(fs[|fs| - 1], id))
  }

  function CallIn(c: Class): seq<ToolCall> { if c.Tool? then [c.call] else [] }

  /** The texts streamed as they came. */
  function Deltas(fs: seq<Frame>, id: string): (deltas: seq<string>)
    ensures |deltas| <= |fs|
  {
    if fs == [] then []
    else Deltas(fs[..|fs| - 1], id) + DeltaIn(ClassOf(fs[|fs| - 1], id))
  }

  function DeltaIn(c: Class): seq<string> { if c.Text? && c.text != "" then [c.text] else [] }

  function Notices(fs: seq<Frame>, id: string): string {
    if fs == [] then []
    else Notices(fs[..|fs| - 1], id) + NoticeIn(ClassOf(fs[|fs| - 1], id))
  }

  function NoticeIn(c: Class): string { if c.Notice? then "[COMPACT] " + c.message + "\n" else [] }

  /** The notices as event_prefix holds them. */
  function Prefix(fs: seq<Frame>, id: string): string { Cut(Notices(fs, id), NOTICE_SIZE - 1) }

  /** The output buffer after frames that do not end the turn: the texts since the
      last frame that was copied verbatim, behind that frame. */
  function Output(fs: seq<Frame>, id: string, start: string, outMax: nat): string
    requires outMax > 0
  {
    if fs == [] then start
    else OutputWith(Output(fs[..|fs| - 1], id, start, outMax), Prefix(fs[..|fs| - 1], id), fs[|fs| - 1], id, outMax)
  }

  function OutputWith(before: string, prefix: string, f: Frame, id: string, outMax: nat): string
    requires outMax > 0
  {
    match ClassOf(f, id)
    case Text(text) => Cut(before + text, outMax - 1)
    case Verbatim => Cut(prefix + f.raw, outMax - 1)
    case _ => before
  }

  // ---- Frames to the agent

  /** Frames carry the turn's id, except for error frames and the request to save. */
  datatype Sent =
    | TurnRequest(id: string) | CancelFrame(id: string)
    | ToolError(id: string, tool: string, message: string) | ToolResult(id: string, tool: string, json: string)
    | ErrorFrame(errorType: string) | SaveState(key: string, stateId: string)

  function IdOf(s: Sent): Option<string> { if s.ErrorFrame? || s.SaveState? then None else Some(s.id) }

  const DENIED := "tool denied by bridge policy"
  const MALFORMED := "malformed tool arguments"

  function ReplyTo(call: ToolCall, id: string): Sent {
    if call.name == "shell" then ToolError(id, call.name, DENIED)
    else if !ToolArgs.Valid(call.name, call.args) then ToolError(id, call.name, MALFORMED)
    else ToolResult(id, call.name, call.outcome)
  }

  function Replies(calls: seq<ToolCall>, id: string): (sent: seq<Sent>)
    ensures |sent| == |calls|
  {
    seq(|calls|, i requires 0 <= i < |calls| => ReplyTo(calls[i], id))
  }

  function ReplyIn(c: Class, id: string): seq<Sent> { if c.Tool? then [ReplyTo(c.call, id)] else [] }

  const TOO_LARGE := "payload_too_large"
  const HANDSHAKE_TIMEOUT := "handshake_timeout"
  const ID_MISMATCH := "request_id_mismatch"
  const NATIVE_BUSY := "native_busy"

  /** engine_send_error, which needs a descriptor to write to. */
  function Errors(canWrite: bool, errorType: string): seq<Sent> {
    if canWrite then [ErrorFrame(errorType)] else []
  }

  /** The complaint about a frame that was too big. */
  function ReadErrors(canWrite: bool, r: Reading): seq<Sent> {
    if r == Nothing(true) then Errors(canWrite, TOO_LARGE) else []
  }

  /** What a read makes the turn write: the answer to a tool call, or the complaint
      about a frame that was too big. */
  function SentOn(r: Reading, id: string, canWrite: bool): seq<Sent> {
    match r
    case Got(f) => ReplyIn(ClassOf(f, id), id)
    case Nothing(_) => ReadErrors(canWrite, r)
  }

  /** The frames written for the reads of the first n polls. */
  function Written(id: string, canWrite: bool, tr: seq<Poll>, n: nat): seq<Sent> {
    if n == 0 then [] else Written(id, canWrite, tr, n - 1) + SentOn(At(tr, n - 1).frame, id, canWrite)
  }

  // ---- How a turn ends

  datatype Ending = EventLimit | CancelledByClient | TimedOut | ForeignFrame | CancelAcked
                  | Faulted(message: string) | ToolLimit | Finished(text: string)

  predicate Succeeds(e: Ending) { e.EventLimit? || e.Finished? }

  /** Whether the frame after fs ends the turn. */
  function EndedBy(f: Frame, fs: seq<Frame>, id: string): Option<Ending> {
    match ClassOf(f, id)
    case Foreign => Some(ForeignFrame)
    case CancelAck => Some(CancelAcked)
    case Fault(message) => Some(Faulted(message))
    case Final(text) => Some(Finished(text))
    case Tool(_) => if |Calls(fs, id)| + 1 > MAX_TOOL_CYCLES then Some(ToolLimit) else None
    case _ => None
  }

  lemma EndingsOfFrames(f: Frame, fs: seq<Frame>, id: string)
    ensures var e := EndedBy(f, fs, id);
            e.Some? ==> e.value.CancelAcked? || e.value.ForeignFrame? || e.value.Faulted? || e.value.ToolLimit?
                        || e.value.Finished?
  {
    hide ClassOf;
  }

  function Timeout(env: Env): (t: int)
    ensures t > 0
  {
    if env.timeoutMs > 0 then env.timeoutMs else DEFAULT_TIMEOUT_MS
  }

  function Slice(env: Env): (p: int)
    ensures p > 0
  {
    if env.plane then PLANE_POLL_MS else IDLE_POLL_MS
  }

  /** Silent polls in a row that use up a timeout of t: t / p, rounded up. */
  function Slices(t: int, p: int): (n: nat)
    requires p > 0
    ensures t > 0 ==> n > 0
    ensures t <= 0 ==> n == 0
    decreases if t > 0 then t else 0
  {
    if t <= 0 then 0 else 1 + Slices(t - p, p)
  }

  function Patience(env: Env): (n: nat)
    ensures n > 0
  {
    Slices(Timeout(env), Slice(env))
  }

  /** Silent polls in a row just before poll n. */
  function Silent(tr: seq<Poll>, n: nat): (k: nat)
    ensures k <= n
  {
    if n == 0 || At(tr, n - 1).frame.Got? then 0 else Silent(tr, n - 1) + 1
  }

  function EndAt(env: Env, tr: seq<Poll>, n: nat): Option<Ending> {
    if Counted(Heard(tr, n), env.requestId) >= env.maxEvents then Some(EventLimit)
    else if HasDelete(Asked(env, tr, n + 1)) then Some(CancelledByClient)
    else
      match At(tr, n).frame
      case Nothing(_) => if Silent(tr, n + 1) >= Patience(env) then Some(TimedOut) else None
      case Got(f) => EndedBy(f, Heard(tr, n), env.requestId)
  }

  /** The turn gets as far as poll n and ends there. */
  ghost predicate EndsAt(env: Env, tr: seq<Poll>, n: nat, e: Ending) {
    EndAt(env, tr, n) == Some(e) && Running(env, tr, n)
  }

  /** None of the first n polls ends the turn. */
  ghost predicate Running(env: Env, tr: seq<Poll>, n: nat) {
    forall k: nat | k < n :: EndAt(env, tr, k) == None
  }

  // ---- What the turn leaves behind

  const CANCELLED_TEXT := "cancelled"
  const TIMEOUT_TEXT := "native agent response timeout"
  const FOREIGN_TEXT := "native agent frame id mismatch"
  const TOOL_LIMIT_TEXT := "native agent tool cycle limit exceeded"

  function FinalOutput(env: Env, fs: seq<Frame>, e: Ending, start: string): string
    requires env.outMax > 0
  {
    match e
    case EventLimit => Output(fs, env.requestId, start, env.outMax)
    case CancelAcked => Output(fs, env.requestId, start, env.outMax)
    case CancelledByClient => Cut(CANCELLED_TEXT, env.outMax - 1)
    case TimedOut => Cut(TIMEOUT_TEXT, env.outMax - 1)
    case ForeignFrame => Cut(FOREIGN_TEXT, env.outMax - 1)
    case ToolLimit => Cut(TOOL_LIMIT_TEXT, env.outMax - 1)
    case Faulted(message) => Cut(message, env.outMax - 1)
    case Finished(text) => Cut(Prefix(fs, env.requestId) + text, env.outMax - 1)
  }

  /** The requests answered by the end, those of a timeout's last look included. */
  function AllAsked(env: Env, tr: seq<Poll>, n: nat, e: Ending): seq<Request> {
    if e.EventLimit? then Asked(env, tr, n)
    else Asked(env, tr, n + 1) + if env.plane && e.TimedOut? then At(tr, n).late else []
  }

  /** What an ending itself makes the turn write: an error, or after a response the
      request to save the session's state. */
  function EndFrames(env: Env, e: Ending, canWrite: bool): seq<Sent> {
    if e.TimedOut? then Errors(canWrite, HANDSHAKE_TIMEOUT)
    else if e.ForeignFrame? then Errors(canWrite, ID_MISMATCH)
    else if e.Finished? then SaveFrames(env, canWrite)
    else []
  }

  function SaveFrames(env: Env, canWrite: bool): seq<Sent> {
    match env.save
    case None => []
    case Some(s) => [SaveState(s.key, s.stateId)] + ReadErrors(canWrite, s.reply)
  }

  /** All frames the loop writes: for the reads it handled, then the cancel frame if a
      DELETE came, then what the ending adds. */
  function AllWritten(env: Env, canWrite: bool, tr: seq<Poll>, n: nat, e: Ending, cancel: seq<Sent>): seq<Sent> {
    Written(env.requestId, canWrite, tr, if e.TimedOut? then n + 1 else n)
    + (if HasDelete(AllAsked(env, tr, n, e)) then cancel else [])
    + EndFrames(env, e, canWrite)
  }

  // ---- Growing a prefix by one frame

  lemma OneMoreFrame(fs: seq<Frame>, f: Frame, id: string)
    ensures Counted(fs + [f], id) == Counted(fs, id) + if ClassOf(f, id).Skipped? then 0 else 1
    ensures Calls(fs + [f], id) == Calls(fs, id) + CallIn(ClassOf(f, id))
    ensures Deltas(fs + [f], id) == Deltas(fs, id) + DeltaIn(ClassOf(f, id))
    ensures Notices(fs + [f], id) == Notices(fs, id) + NoticeIn(ClassOf(f, id))
  {
    hide ClassOf, CallIn, DeltaIn, NoticeIn;
    assert (fs + [f])[..|fs|] == fs;
  }

  lemma OneMoreOutput(fs: seq<Frame>, f: Frame, id: string, start: string, outMax: nat)
    requires outMax > 0
    ensures Output(fs + [f], id, start, outMax)
         == OutputWith(Output(fs, id, start, outMax), Prefix(fs, id), f, id, outMax)
  {
    hide ClassOf, Prefix, OutputWith;
    assert (fs + [f])[..|fs|] == fs;
  }

  lemma OneMoreReply(calls: seq<ToolCall>, call: ToolCall, id: string)
    ensures Replies(calls + [call], id) == Replies(calls, id) + [ReplyTo(call, id)]
  {
  }

  // ---- What the agent hears

  /** The frames that carry an id, and those that do not. */
  function Own(sent: seq<Sent>): seq<Sent> {
    if sent == [] then []
    else Own(sent[..|sent| - 1]) + if IdOf(sent[|sent| - 1]).Some? then [sent[|sent| - 1]] else []
  }

  function Unnamed(sent: seq<Sent>): seq<Sent> {
    if sent == [] then []
    else Unnamed(sent[..|sent| - 1]) + if IdOf(sent[|sent| - 1]).None? then [sent[|sent| - 1]] else []
  }

  lemma {:induction false} SortedBoth(a: seq<Sent>, b: seq<Sent>)
    ensures Own(a + b) == Own(a) + Own(b) && Unnamed(a + b) == Unnamed(a) + Unnamed(b)
  {
    if b == [] {
      assert a + b == a;
    } else {
      assert (a + b)[..|a + b| - 1] == a + b[..|b| - 1];
      SortedBoth(a, b[..|b| - 1]);
    }
  }

  lemma SortedOne(s: Sent)
    ensures Own([s]) == (if IdOf(s).Some? then [s] else [])
    ensures Unnamed([s]) == (if IdOf(s).None? then [s] else [])
    ensures Own([]) == [] && Unnamed([]) == []
  {
    assert [s][..0] == [];
  }

  /** The reads that brought a frame that was too big. */
  function TooBig(tr: seq<Poll>, n: nat): (k: nat)
    ensures k <= n
  {
    if n == 0 then 0 else TooBig(tr, n - 1) + if At(tr, n - 1).frame == Nothing(true) then 1 else 0
  }

  function Repeated(k: nat, errorType: string): (sent: seq<Sent>)
    ensures |sent| == k && forall i | 0 <= i < k :: sent[i] == ErrorFrame(errorType)
  {
    seq(k, _ => ErrorFrame(errorType))
  }

  /** The loop answers exactly the tool calls it heard, in order, and complains once
      about each frame that was too big. */
  lemma {:induction false} WrittenIsSorted(id: string, canWrite: bool, tr: seq<Poll>, n: nat)
    ensures Own(Written(id, canWrite, tr, n)) == Replies(Calls(Heard(tr, n), id), id)
    ensures Unnamed(Written(id, canWrite, tr, n)) == Repeated(if canWrite then TooBig(tr, n) else 0, TOO_LARGE)
  {
    hide *;
    if n == 0 {
      NothingWritten(id, canWrite, tr);
    } else {
      var r := At(tr, n - 1).frame;
      WrittenIsSorted(id, canWrite, tr, n - 1);
      OneMoreRead(id, canWrite, tr, n);
      SortedBoth(Written(id, canWrite, tr, n - 1), SentOn(r, id, canWrite));
      AnswersAreOwn(Heard(tr, n - 1), r, id, canWrite);
      ComplaintOfRead(r, id, canWrite);
      OneMoreTime(TooBig(tr, n - 1), TOO_LARGE);
    }
  }

  lemma NothingWritten(id: string, canWrite: bool, tr: seq<Poll>)
    ensures Own(Written(id, canWrite, tr, 0)) == Replies(Calls(Heard(tr, 0), id), id)
    ensures Unnamed(Written(id, canWrite, tr, 0)) == Repeated(if canWrite then TooBig(tr, 0) else 0, TOO_LARGE)
  {
    SortedOne(ErrorFrame(""));
  }

  lemma OneMoreRead(id: string, canWrite: bool, tr: seq<Poll>, n: nat)
    requires n > 0
    ensures var r := At(tr, n - 1).frame;
            && Written(id, canWrite, tr, n) == Written(id, canWrite, tr, n - 1) + SentOn(r, id, canWrite)
            && Heard(tr, n) == Heard(tr, n - 1) + FrameOf(r)
            && TooBig(tr, n) == TooBig(tr, n - 1) + if r == Nothing(true) then 1 else 0
  {
    hide SentOn;
  }

  lemma OneMoreTime(k: nat, errorType: string)
    ensures Repeated(k + 1, errorType) == Repeated(k, errorType) + [ErrorFrame(errorType)]
    ensures Repeated(k, errorType) + [] == Repeated(k, errorType)
            && Repeated(0, errorType) + [] == Repeated(0, errorType)
  {
  }

  lemma ComplaintOfRead(r: Reading, id: string, canWrite: bool)
    ensures Unnamed(SentOn(r, id, canWrite)) == if canWrite && r == Nothing(true) then [ErrorFrame(TOO_LARGE)] else []
  {
    hide ClassOf, Own, Unnamed, ReplyTo;
    SortedOne(ErrorFrame(TOO_LARGE));
    if r.Got? { OwnReply(ClassOf(r.value, id), id); }
  }

  lemma OwnReply(c: Class, id: string)
    ensures Own(ReplyIn(c, id)) == ReplyIn(c, id) && Unnamed(ReplyIn(c, id)) == []
  {
    hide Own, Unnamed, ReplyTo;
    SortedOne(ErrorFrame(""));
    if c.Tool? {
      RepliesAreNoErrors(c.call, id);
      SortedOne(ReplyTo(c.call, id));
    }
  }

  lemma AnswersAreOwn(fs: seq<Frame>, r: Reading, id: string, canWrite: bool)
    ensures Replies(Calls(fs, id), id) + Own(SentOn(r, id, canWrite)) == Replies(Calls(fs + FrameOf(r), id), id)
  {
    hide ClassOf, Own, Unnamed, Replies, Calls, ReplyTo;
    SortedOne(ErrorFrame(TOO_LARGE));
    assert fs + [] == fs && Calls(fs, id) + [] == Calls(fs, id);
    assert Replies(Calls(fs, id), id) + [] == Replies(Calls(fs, id), id);
    if r.Got? {
      var c := ClassOf(r.value, id);
      OneMoreFrame(fs, r.value, id);
      OwnReply(c, id);
      if c.Tool? { OneMoreReply(Calls(fs, id), c.call, id); }
    }
  }

  lemma RepliesAreNoErrors(call: ToolCall, id: string)
    ensures IdOf(ReplyTo(call, id)).Some?
  {
    hide ToolArgs.Valid;
  }

  // ---- What the output buffer holds

  lemma {:induction false} OutputFits(fs: seq<Frame>, id: string, start: string, outMax: nat)
    requires |start| < outMax
    ensures |Output(fs, id, start, outMax)| < outMax
  {
    if fs != [] {
      hide Prefix, ClassOf;
      OutputFits(fs[..|fs| - 1], id, start, outMax);
    }
  }

  /** Over frames none of which is copied verbatim, the output grows by the text
      deltas in order, as far as the buffer goes. */
  lemma {:induction false} OutputAppendsDeltas(fs: seq<Frame>, more: seq<Frame>, id: string, start: string, outMax: nat)
    requires |start| < outMax && forall i | 0 <= i < |more| :: !ClassOf(more[i], id).Verbatim?
    ensures Output(fs + more, id, start, outMax)
         == Cut(Output(fs, id, start, outMax) + Concat(Deltas(more, id)), outMax - 1)
  {
    hide *;
    if more == [] {
      NoMoreOutput(fs, id, start, outMax);
      assert fs + more == fs;
    } else {
      var most, f := more[..|more| - 1], more[|more| - 1];
      OutputAppendsDeltas(fs, most, id, start, outMax);
      assert fs + more == (fs + most) + [f] && most + [f] == more;
      OneMoreOutput(fs + most, f, id, start, outMax);
      OutputFits(fs + most, id, start, outMax);
      Unmoved(Output(fs + most, id, start, outMax), f, id, fs + most, outMax);
      OneMoreDelta(Output(fs, id, start, outMax), most, f, id, outMax - 1);
    }
  }

  lemma NoMoreOutput(fs: seq<Frame>, id: string, start: string, outMax: nat)
    requires |start| < outMax
    ensures Output(fs, id, start, outMax) == Cut(Output(fs, id, start, outMax) + Concat(Deltas([], id)), outMax - 1)
  {
    hide Output;
    OutputFits(fs, id, start, outMax);
    ConcatOne("");
    assert Output(fs, id, start, outMax) + "" == Output(fs, id, start, outMax);
  }

  lemma OneMoreDelta(out: string, most: seq<Frame>, f: Frame, id: string, n: nat)
    ensures Cut(Cut(out + Concat(Deltas(most, id)), n) + (if ClassOf(f, id).Text? then ClassOf(f, id).text else ""), n)
         == Cut(out + Concat(Deltas(most + [f], id)), n)
  {
    hide *;
    var c := ClassOf(f, id);
    OneMoreFrame(most, f, id);
    ConcatBoth(Deltas(most, id), DeltaIn(c));
    ConcatDelta(c);
    var text := if c.Text? then c.text else "";
    CutOfCut(out + Concat(Deltas(most, id)), text, n);
    assert out + (Concat(Deltas(most, id)) + text) == out + Concat(Deltas(most, id)) + text;
  }

  lemma ConcatDelta(c: Class)
    ensures Concat(DeltaIn(c)) == if c.Text? then c.text else ""
  {
    ConcatOne(if c.Text? then c.text else "");
  }

  lemma Unmoved(before: string, f: Frame, id: string, fs: seq<Frame>, outMax: nat)
    requires outMax > 0 && !ClassOf(f, id).Verbatim? && |before| < outMax
    ensures OutputWith(before, Prefix(fs, id), f, id, outMax)
         == Cut(before + (if ClassOf(f, id).Text? then ClassOf(f, id).text else ""), outMax - 1)
  {
    hide ClassOf, Prefix;
    assert before + "" == before;
  }

  // ---- One more poll

  lemma EndIs(env: Env, tr: seq<Poll>, n: nat)
    ensures Counted(Heard(tr, n), env.requestId) >= env.maxEvents ==> EndAt(env, tr, n) == Some(EventLimit)
    ensures Counted(Heard(tr, n), env.requestId) < env.maxEvents ==>
              && (HasDelete(Asked(env, tr, n + 1)) ==> EndAt(env, tr, n) == Some(CancelledByClient))
              && (!HasDelete(Asked(env, tr, n + 1)) ==>
                    && (At(tr, n).frame.Nothing? ==>
                          EndAt(env, tr, n) == if Silent(tr, n + 1) >= Patience(env) then Some(TimedOut) else None)
                    && (At(tr, n).frame.Got? ==>
                          EndAt(env, tr, n) == EndedBy(At(tr, n).frame.value, Heard(tr, n), env.requestId)))
  {
    hide Counted, Heard, HasDelete, Asked, Silent, Patience, EndedBy;
  }

  lemma RunsOn(env: Env, tr: seq<Poll>, n: nat)
    requires Running(env, tr, n) && EndAt(env, tr, n) == None
    ensures Running(env, tr, n + 1)
  {
    hide EndAt;
  }

  lemma MoreAsked(earlier: seq<Request>, more: seq<Request>)
    ensures HasDelete(earlier + more) <==> HasDelete(earlier) || HasDelete(more)
    ensures AnswersTo(earlier + more) == AnswersTo(earlier) + AnswersTo(more)
  {
    hide IsDelete, AnswerTo;
    var both := earlier + more;
    assert forall i | 0 <= i < |earlier| :: both[i] == earlier[i];
    forall i | 0 <= i < |more| && IsDelete(more[i]) ensures HasDelete(both) {
      assert both[|earlier| + i] == more[i];
    }
    if HasDelete(both) {
      var i :| 0 <= i < |both| && IsDelete(both[i]);
      if i >= |earlier| { assert more[i - |earlier|] == both[i]; }
    }
  }

  lemma AskedMore(env: Env, tr: seq<Poll>, n: nat)
    ensures var more := if env.plane then At(tr, n).requests else [];
            && HasDelete(Asked(env, tr, n + 1)) == (HasDelete(Asked(env, tr, n)) || HasDelete(more))
            && AnswersTo(Asked(env, tr, n + 1)) == AnswersTo(Asked(env, tr, n)) + AnswersTo(more)
  {
    hide HasDelete, AnswersTo, At;
    MoreAsked(Asked(env, tr, n), if env.plane then At(tr, n).requests else []);
  }

  lemma SlicesStep(t: int, p: int)
    requires t > 0 && p > 0
    ensures Slices(t, p) == 1 + Slices(t - (if t < p then t else p), p)
  {
  }

  // ---- Bounds over whole turns

  lemma HeardNothing(tr: seq<Poll>, n: nat)
    requires n > 0 && At(tr, n - 1).frame.Nothing?
    ensures Heard(tr, n) == Heard(tr, n - 1) && Silent(tr, n) == Silent(tr, n - 1) + 1
  {
  }

  lemma HeardFrame(tr: seq<Poll>, n: nat)
    requires n > 0 && At(tr, n - 1).frame.Got?
    ensures Heard(tr, n) == Heard(tr, n - 1) + [At(tr, n - 1).frame.value] && Silent(tr, n) == 0
  {
  }

  lemma NotEnded(env: Env, tr: seq<Poll>, n: nat)
    requires EndAt(env, tr, n) == None
    ensures Counted(Heard(tr, n), env.requestId) < env.maxEvents
    ensures At(tr, n).frame.Nothing? ==> Silent(tr, n + 1) < Patience(env)
    ensures At(tr, n).frame.Got? ==> EndedBy(At(tr, n).frame.value, Heard(tr, n), env.requestId) == None
  {
    hide Counted, Heard, HasDelete, Asked, Silent, Patience, EndedBy;
  }

  lemma WasRunning(env: Env, tr: seq<Poll>, n: nat)
    requires Running(env, tr, n) && n > 0
    ensures Running(env, tr, n - 1) && EndAt(env, tr, n - 1) == None
  {
    hide EndAt;
  }

  lemma Times(f: int, p: int)
    ensures (f + 1) * p == f * p + p
  {
  }

  lemma TimesLess(f: int, m: int, p: int)
    requires f <= m && 0 <= p
    ensures f * p <= m * p
  {
  }

  /** A turn that has not ended has heard at least one frame for every `Patience`
      polls, the running silence aside. */
  lemma {:induction false} PollsPerFrame(env: Env, tr: seq<Poll>, n: nat)
    requires Running(env, tr, n)
    ensures Silent(tr, n) < Patience(env)
    ensures n <= |Heard(tr, n)| * Patience(env) + Silent(tr, n)
  {
    hide *;
    if n == 0 {
      NoPolls(env, tr);
    } else {
      WasRunning(env, tr, n);
      PollsPerFrame(env, tr, n - 1);
      NotEnded(env, tr, n - 1);
      if At(tr, n - 1).frame.Got? { HeardFrame(tr, n); } else { HeardNothing(tr, n); }
      Grow(n - 1, |Heard(tr, n - 1)|, Silent(tr, n - 1), Patience(env), |Heard(tr, n)|, Silent(tr, n));
    }
  }

  lemma NoPolls(env: Env, tr: seq<Poll>)
    ensures Silent(tr, 0) == 0 == |Heard(tr, 0)| && 0 < Patience(env)
    ensures 0 <= |Heard(tr, 0)| * Patience(env) + Silent(tr, 0)
  {
  }

  lemma Grow(n: nat, f: nat, s: nat, p: nat, f': nat, s': nat)
    requires n <= f * p + s && s < p
    requires (f' == f && s' == s + 1) || (f' == f + 1 && s' == 0)
    ensures n + 1 <= f' * p + s'
  {
    Times(f, p);
  }

  function Limit(env: Env): nat { if env.maxEvents > 0 then env.maxEvents else 0 }

  /** The iterations of a turn that ends at poll n: with L foreign lifecycle frames
      heard, at most (maxEvents + L) * Patience, and none if the event limit is not
      positive. */
  lemma TurnIsBounded(env: Env, tr: seq<Poll>, n: nat, e: Ending)
    requires EndsAt(env, tr, n, e)
    ensures var skipped := |Heard(tr, n)| - Counted(Heard(tr, n), env.requestId);
            (if e.EventLimit? then n else n + 1) <= (Limit(env) + skipped) * Patience(env)
  {
    hide Counted, Heard, HasDelete, Asked, Silent, Patience, EndedBy;
    var f, c, p := |Heard(tr, n)|, Counted(Heard(tr, n), env.requestId), Patience(env);
    PollsPerFrame(env, tr, n);
    if e.EventLimit? {
      CountedAtLimit(env, tr, n);
    } else {
      BelowLimit(env, tr, n, e);
      Times(f, p);
      TimesLess(f + 1, Limit(env) + (f - c), p);
    }
  }

  lemma BelowLimit(env: Env, tr: seq<Poll>, n: nat, e: Ending)
    requires EndAt(env, tr, n) == Some(e) && !e.EventLimit?
    ensures Counted(Heard(tr, n), env.requestId) < env.maxEvents
  {
  }

  /** When the limit ends the turn, the poll before heard the last frame it allows. */
  lemma CountedAtLimit(env: Env, tr: seq<Poll>, n: nat)
    requires EndsAt(env, tr, n, EventLimit)
    ensures Counted(Heard(tr, n), env.requestId) == Limit(env)
    ensures Silent(tr, n) == 0
  {
    AtLimit(env, tr, n);
    if n > 0 {
      hide *;
      WasRunning(env, tr, n);
      NotEnded(env, tr, n - 1);
      LimitOf(env);
      if At(tr, n - 1).frame.Got? {
        HeardFrame(tr, n);
        OneMoreFrame(Heard(tr, n - 1), At(tr, n - 1).frame.value, env.requestId);
      } else {
        HeardNothing(tr, n);
      }
    }
  }

  lemma LimitOf(env: Env)
    ensures env.maxEvents > 0 ==> Limit(env) == env.maxEvents
  {
  }

  lemma AtLimit(env: Env, tr: seq<Poll>, n: nat)
    requires EndsAt(env, tr, n, EventLimit)
    ensures Counted(Heard(tr, n), env.requestId) >= env.maxEvents
    ensures Running(env, tr, n)
  {
    hide Counted, Heard, HasDelete, Asked, Silent, Patience;
  }

  /** At most 64 tool calls are heard before the end. */
  lemma {:induction false} CallsAreBounded(env: Env, tr: seq<Poll>, n: nat)
    requires Running(env, tr, n)
    ensures |Calls(Heard(tr, n), env.requestId)| <= MAX_TOOL_CYCLES
  {
    hide *;
    if n == 0 {
      NoCalls(env, tr);
    } else {
      WasRunning(env, tr, n);
      CallsAreBounded(env, tr, n - 1);
      OneMorePoll(env, tr, n);
    }
  }

  lemma NoCalls(env: Env, tr: seq<Poll>)
    ensures |Calls(Heard(tr, 0), env.requestId)| <= MAX_TOOL_CYCLES
  {
  }

  lemma OneMorePoll(env: Env, tr: seq<Poll>, n: nat)
    requires n > 0 && EndAt(env, tr, n - 1) == None
    requires |Calls(Heard(tr, n - 1), env.requestId)| <= MAX_TOOL_CYCLES
    ensures |Calls(Heard(tr, n), env.requestId)| <= MAX_TOOL_CYCLES
  {
    hide *;
    if At(tr, n - 1).frame.Got? {
      NotEnded(env, tr, n - 1);
      HeardFrame(tr, n);
      OneMoreCall(Heard(tr, n - 1), At(tr, n - 1).frame.value, env.requestId);
    } else {
      HeardNothing(tr, n);
    }
  }

  lemma OneMoreCall(fs: seq<Frame>, f: Frame, id: string)
    requires EndedBy(f, fs, id) == None && |Calls(fs, id)| <= MAX_TOOL_CYCLES
    ensures |Calls(fs + [f], id)| <= MAX_TOOL_CYCLES
  {
    hide ClassOf, Calls;
    OneMoreFrame(fs, f, id);
  }

  /** A turn that gets to poll n, below its event limit and without a DELETE, times
      out there exactly when that poll and the Patience - 1 before it brought no
      frame. */
  lemma TimesOutOnlyAfterSilence(env: Env, tr: seq<Poll>, n: nat)
    requires Running(env, tr, n) && Counted(Heard(tr, n), env.requestId) < env.maxEvents
    requires !HasDelete(Asked(env, tr, n + 1))
    ensures EndsAt(env, tr, n, TimedOut) <==>
              n + 1 >= Patience(env) && forall k: nat | n + 1 - Patience(env) <= k <= n :: At(tr, k).frame.Nothing?
    ensures EndsAt(env, tr, n, TimedOut) ==> Silent(tr, n + 1) == Patience(env)
  {
    hide *;
    EndIs(env, tr, n);
    PollsPerFrame(env, tr, n);
    EndsIff(env, tr, n);
    if At(tr, n).frame.Got? {
      EndingsOfFrames(At(tr, n).frame.value, Heard(tr, n), env.requestId);
    } else {
      HeardNothing(tr, n + 1);
      SilentPolls(tr, n + 1);
      SilentIsLongest(tr, n + 1, Patience(env));
    }
  }

  lemma EndsIff(env: Env, tr: seq<Poll>, n: nat)
    requires Running(env, tr, n)
    ensures EndsAt(env, tr, n, TimedOut) <==> EndAt(env, tr, n) == Some(TimedOut)
    ensures Patience(env) > 0
  {
    hide EndAt, Patience;
  }

  lemma {:induction false} SilentIsLongest(tr: seq<Poll>, n: nat, k: nat)
    ensures k <= n && (forall i: nat | n - k <= i < n :: At(tr, i).frame.Nothing?) ==> Silent(tr, n) >= k
  {
    if 0 < k <= n { SilentIsLongest(tr, n - 1, k - 1); }
  }

  lemma {:induction false} SilentPolls(tr: seq<Poll>, n: nat)
    ensures forall k: nat | n - Silent(tr, n) <= k < n :: At(tr, k).frame.Nothing?
  {
    if n > 0 && At(tr, n - 1).frame.Nothing? { SilentPolls(tr, n - 1); }
  }

  /** Rounding up, in closed form. */
  lemma {:induction false} SlicesIsCeiling(t: int, p: int)
    requires t > 0 && p > 0
    ensures (Slices(t, p) - 1) * p < t <= Slices(t, p) * p
    decreases t
  {
    var n := Slices(t - p, p);
    assert Slices(t, p) == n + 1;
    assert (n + 1) * p == n * p + p;
    if t > p {
      SlicesIsCeiling(t - p, p);
      assert (n - 1) * p == n * p - p;
    } else {
      assert n == 0;
    }
  }

  /** Whatever comes, every turn ends. */
  lemma TurnEnds(env: Env, tr: seq<Poll>) returns (n: nat, e: Ending)
    ensures EndsAt(env, tr, n, e) && n <= |tr| + Patience(env)
  {
    hide Patience, HasDelete, EndedBy, Asked, Counted, Heard;
    n := 0;
    while EndAt(env, tr, n) == None
      invariant Running(env, tr, n)
      invariant n <= |tr| + Silent(tr, n)
      decreases |tr| + Patience(env) - n
    {
      n := n + 1;
      PollsPerFrame(env, tr, n);
    }
    PollsPerFrame(env, tr, n);
    e := EndAt(env, tr, n).value;
  }

  // ---- Whose frames pass

  /** The id of the n-th request. */
  function RequestId(n: nat): string { ID_PREFIX + Printf.Digits(n) }

  const ID_PREFIX := "req-"

  /** The frame mentions one id only, that of request m. */
  ghost predicate MentionsOnly(f: Frame, m: nat, at: nat) {
    && f.id != "" && OccursAt(f.raw, RequestId(m), at)
    && (forall i :: OccursAt(f.raw, ID_PREFIX, i) ==> i == at)
    && (at + |RequestId(m)| < |f.raw| ==> !Printf.IsDigit(f.raw[at + |RequestId(m)|]))
  }

  /** The id is matched as a substring: a frame that names request m passes for one of
      turn n exactly when the digits of n begin the digits of m. */
  lemma PassesIffPrefix(f: Frame, m: nat, n: nat, at: nat)
    requires MentionsOnly(f, m, at)
    ensures ClassOf(f, RequestId(n)).Skipped? || ClassOf(f, RequestId(n)).Foreign?
       <==> !(Printf.Digits(n) <= Printf.Digits(m))
  {
    hide Printf.Digits;
    Printf.DigitsAreDigits(m);
    Printf.DigitsAreDigits(n);
    ClassIsForeign(f, RequestId(n));
    if Printf.Digits(n) <= Printf.Digits(m) {
      MentionsPrefix(f.raw, Printf.Digits(m), Printf.Digits(n), at);
    } else {
      MentionsIff(f.raw, Printf.Digits(m), Printf.Digits(n), at);
    }
  }

  lemma ClassIsForeign(f: Frame, id: string)
    requires f.id != ""
    ensures ClassOf(f, id).Skipped? || ClassOf(f, id).Foreign? <==> !Contains(f.raw, id)
  {
  }

  lemma MentionsPrefix(raw: string, dm: string, dn: string, at: nat)
    requires OccursAt(raw, ID_PREFIX + dm, at) && dn <= dm
    ensures Contains(raw, ID_PREFIX + dn)
  {
    var k := |ID_PREFIX + dn|;
    assert raw[at..at + k] == (ID_PREFIX + dm)[..k] == ID_PREFIX + dn;
    assert OccursAt(raw, ID_PREFIX + dn, at);
  }

  lemma MentionsIff(raw: string, dm: string, dn: string, at: nat)
    requires OccursAt(raw, ID_PREFIX + dm, at)
    requires forall i :: OccursAt(raw, ID_PREFIX, i) ==> i == at
    requires at + |ID_PREFIX + dm| < |raw| ==> !Printf.IsDigit(raw[at + |ID_PREFIX + dm|])
    requires forall i | 0 <= i < |dn| :: Printf.IsDigit(dn[i])
    ensures Contains(raw, ID_PREFIX + dn) ==> dn <= dm
  {
    if Contains(raw, ID_PREFIX + dn) {
      var i :| 0 <= i <= |raw| && OccursAt(raw, ID_PREFIX + dn, i);
      assert raw[i..i + |ID_PREFIX|] == (ID_PREFIX + dn)[..|ID_PREFIX|] == ID_PREFIX;
      assert OccursAt(raw, ID_PREFIX, i);
      var from := at + |ID_PREFIX|;
      DigitsAt(raw, dm, at);
      DigitsAt(raw, dn, at);
      if |dn| > |dm| { DigitAt(raw, from, dn, |dm|); }
    }
  }

  lemma DigitsAt(raw: string, d: string, at: nat)
    requires OccursAt(raw, ID_PREFIX + d, at)
    ensures at + |ID_PREFIX| + |d| <= |raw| && raw[at + |ID_PREFIX|..at + |ID_PREFIX| + |d|] == d
  {
    assert d == (ID_PREFIX + d)[|ID_PREFIX|..] == raw[at..at + |ID_PREFIX + d|][|ID_PREFIX|..];
  }

  lemma DigitAt(raw: string, from: nat, d: string, k: nat)
    requires from + |d| <= |raw| && raw[from..from + |d|] == d && k < |d|
             && forall i | 0 <= i < |d| :: Printf.IsDigit(d[i])
    ensures Printf.IsDigit(raw[from + k])
  {
    assert raw[from + k] == d[k];
  }

  /** So a delta of request 12 passes for one of request 1. */
  lemma LongerIdPasses(text: string)
    ensures ClassOf(Frame(TextDelta(text), RequestId(12), "{\"type\":\"text_delta\",\"id\":\"req-12\"}"),
            RequestId(1)) == Text(text)
  {
    var raw := "{\"type\":\"text_delta\",\"id\":\"req-12\"}";
    assert Printf.Digits(12) == Printf.Digits(1) + ['2'] == "12";
    assert raw[27..33] == "req-12";
    MentionsPrefix(raw, Printf.Digits(12), Printf.Digits(1), 27);
  }
}
