/** What a turn does, said of the parsed events, the request lines and the acks
    themselves: the definitions of TurnTrace, TurnContext and ResponseTurn have the
    meaning that src/turn_context.c and src/server.c give them. */
module TurnLaws {
  import opened Texts
  import opened TurnTrace
  import opened TurnContext
  import opened ResponsesStream
  import opened ResponseTurn
  import Printf
  import ToolArgs

  // ---- Requests in the middle of a turn

  /** Some request deletes a response. */
  ghost predicate Cancels(rs: seq<Request>) {
    exists i, rest: string | 0 <= i < |rs| :: rs[i] == Http("DELETE", "/v1/responses/" + rest)
  }

  lemma CancelsIsHasDelete(rs: seq<Request>)
    ensures HasDelete(rs) <==> Cancels(rs)
  {
    if HasDelete(rs) {
      var i :| 0 <= i < |rs| && IsDelete(rs[i]);
      assert rs[i] == Http("DELETE", "/v1/responses/" + rs[i].path[14..]);
    }
    if Cancels(rs) {
      var i, rest: string :| 0 <= i < |rs| && rs[i] == Http("DELETE", "/v1/responses/" + rest);
      assert IsDelete(rs[i]);
    }
  }

  /** Each connection is answered by its verb and path. */
  lemma AnswersByRequestLine(rs: seq<Request>, i: nat)
    requires i < |rs|
    ensures var answer := AnswersTo(rs)[i];
            match rs[i]
            case Unreadable => answer == Closed
            case Http(verb, path) =>
              && (answer == Models <==> verb == "GET" && path == "/v1/models")
              && (answer == Conflict <==> verb == "POST" && path == "/v1/responses")
              && (answer == Cancelled <==> verb == "DELETE" && |path| >= 14 && path[..14] == "/v1/responses/")
              && answer != Closed
  {
  }

  lemma NothingCancelledYet(env: Env, tr: seq<Poll>, n: nat)
    requires Running(env, tr, n)
    ensures !HasDelete(Asked(env, tr, n))
  {
    hide Counted, Heard, HasDelete, EndedBy, Patience, Silent, At;
    if n > 0 {
      WasRunning(env, tr, n);
      EndIs(env, tr, n - 1);
    } else {
      NoneAsked(env, tr);
    }
  }

  /** A turn below its event limit is cancelled at a poll exactly if it has a control
      plane and one of the requests waiting there is a DELETE of a response. */
  lemma CancelledIffDelete(env: Env, tr: seq<Poll>, n: nat)
    requires Running(env, tr, n) && Countable(Heard(tr, n), env.requestId) < env.maxEvents
    ensures EndsAt(env, tr, n, CancelledByClient) <==> env.plane && Cancels(At(tr, n).requests)
  {
    hide *;
    CountedIsCountable(Heard(tr, n), env.requestId);
    NothingCancelledYet(env, tr, n);
    AskedMore(env, tr, n);
    CancelsIsHasDelete(At(tr, n).requests);
    NoDeleteInNothing();
    EndIs(env, tr, n);
    EndsHere(env, tr, n, CancelledByClient);
    if At(tr, n).frame.Got? { EndingsOfFrames(At(tr, n).frame.value, Heard(tr, n), env.requestId); }
  }

  lemma NoDeleteInNothing()
    ensures !HasDelete([])
  {
  }

  lemma EndsHere(env: Env, tr: seq<Poll>, n: nat, e: Ending)
    requires Running(env, tr, n)
    ensures EndsAt(env, tr, n, e) <==> EndAt(env, tr, n) == Some(e)
    ensures Running(env, tr, n + 1) <==> EndAt(env, tr, n) == None
  {
    hide EndAt;
    if EndAt(env, tr, n) == None { RunsOn(env, tr, n); } else { assert !(n < n + 1 && EndAt(env, tr, n) == None); }
  }

  // ---- Frames

  /** The frame has no id, or the turn's id occurs in its bytes. */
  predicate Addressed(f: Frame, id: string) { f.id == "" || Contains(f.raw, id) }

  /** The tool intents of the turn, in order. */
  function Intents(fs: seq<Frame>, id: string): seq<ToolCall> {
    if fs == [] then []
    else
      var f := fs[|fs| - 1];
      Intents(fs[..|fs| - 1], id)
      + if Addressed(f, id) && f.event.ToolIntent? then [ToolCall(f.event.name, f.event.args, f.event.outcome)] else []
  }

  /** The frames that use up the event limit: all but lifecycle frames of others. */
  function Countable(fs: seq<Frame>, id: string): nat {
    if fs == [] then 0
    else
      var f := fs[|fs| - 1];
      Countable(fs[..|fs| - 1], id) + if f.event.Lifecycle? && !Addressed(f, id) then 0 else 1
  }

  lemma {:induction false} CallsAreIntents(fs: seq<Frame>, id: string)
    ensures Calls(fs, id) == Intents(fs, id)
  {
    if fs != [] {
      hide Contains;
      CallsAreIntents(fs[..|fs| - 1], id);
    }
  }

  lemma {:induction false} CountedIsCountable(fs: seq<Frame>, id: string)
    ensures Counted(fs, id) == Countable(fs, id)
  {
    if fs != [] {
      hide Contains;
      CountedIsCountable(fs[..|fs| - 1], id);
    }
  }

  function Or(text: string, fallback: string): string { if text == "" then fallback else text }

  /** What a frame of the turn makes of it, by its event: a response finishes it, an
      error event fails it, a cancel notice and the 65th tool intent end it, and
      nothing else does. */
  predicate EndsOn(f: Frame, intents: nat, e: Option<Ending>) {
    match f.event
    case Response(text) => e == Some(Finished(text))
    case ErrorEvent(message) => e == Some(Faulted(Or(message, "native agent error")))
    case CancelNotice => e == Some(CancelAcked)
    case ToolIntent(_, _, _) => e == if intents >= 64 then Some(ToolLimit) else None
    case TextDelta(_) => e == None
    case Compaction(_) => e == None
    case Unknown => e == None
    case Lifecycle => e == None
    case Ack(_, _) => e == None
  }

  lemma EndedByEvent(f: Frame, fs: seq<Frame>, id: string)
    ensures Addressed(f, id) ==> EndsOn(f, |Intents(fs, id)|, EndedBy(f, fs, id))
    ensures !Addressed(f, id) ==> EndedBy(f, fs, id) == if f.event.Lifecycle? then None else Some(ForeignFrame)
  {
    hide Contains, Calls, Intents;
    CallsAreIntents(fs, id);
  }

  /** A running turn, below its event limit and without a DELETE, that hears a frame:
      how it ends there, or that it goes on, by the frame's event alone. */
  lemma EventEndsTurn(env: Env, tr: seq<Poll>, n: nat, f: Frame)
    requires Running(env, tr, n) && Countable(Heard(tr, n), env.requestId) < env.maxEvents
    requires !(env.plane && Cancels(At(tr, n).requests)) && At(tr, n).frame == Got(f)
    ensures Addressed(f, env.requestId) ==>
              && (forall t :: EndsAt(env, tr, n, Finished(t)) <==> f.event == Response(t))
              && (forall m :: EndsAt(env, tr, n, Faulted(m)) <==>
                    f.event.ErrorEvent? && m == Or(f.event.message, "native agent error"))
              && (EndsAt(env, tr, n, CancelAcked) <==> f.event.CancelNotice?)
              && (EndsAt(env, tr, n, ToolLimit) <==>
                    f.event.ToolIntent? && |Intents(Heard(tr, n), env.requestId)| >= 64)
              && (Running(env, tr, n + 1) <==>
                    f.event.TextDelta? || f.event.Compaction? || f.event.Unknown? || f.event.Lifecycle? || f.event.Ack?
                    || (f.event.ToolIntent? && |Intents(Heard(tr, n), env.requestId)| < 64))
    ensures !Addressed(f, env.requestId) ==>
              && (EndsAt(env, tr, n, ForeignFrame) <==> !f.event.Lifecycle?)
              && (Running(env, tr, n + 1) <==> f.event.Lifecycle?)
  {
    HeardDecides(env, tr, n, f);
    EndedByEvent(f, Heard(tr, n), env.requestId);
    EndsHere(env, tr, n, TimedOut);
    hide EndAt, EndedBy, Running, Contains, Intents, Addressed, Countable, Heard, At, Cancels;
    forall e ensures EndsAt(env, tr, n, e) <==> EndAt(env, tr, n) == Some(e) {
      EndsHere(env, tr, n, e);
    }
  }

  lemma HeardDecides(env: Env, tr: seq<Poll>, n: nat, f: Frame)
    requires Running(env, tr, n) && Countable(Heard(tr, n), env.requestId) < env.maxEvents
    requires !(env.plane && Cancels(At(tr, n).requests)) && At(tr, n).frame == Got(f)
    ensures EndAt(env, tr, n) == EndedBy(f, Heard(tr, n), env.requestId)
  {
    hide *;
    CountedIsCountable(Heard(tr, n), env.requestId);
    NothingCancelledYet(env, tr, n);
    AskedMore(env, tr, n);
    CancelsIsHasDelete(At(tr, n).requests);
    NoDeleteInNothing();
    EndIs(env, tr, n);
  }

  /** A frame that is neither text nor copied into the output. */
  predicate IsQuiet(raw: string) { Contains(raw, "\"type\":\"event\"") || Contains(raw, "thinking") }

  /** What a frame of the turn makes of the output, by its event. */
  lemma EventAddsOutput(fs: seq<Frame>, f: Frame, id: string, start: string, outMax: nat)
    requires outMax > 0 && Addressed(f, id)
    ensures var out := Output(fs + [f], id, start, outMax);
            var before := Output(fs, id, start, outMax);
            out == if f.event.TextDelta? then Cut(before + f.event.text, outMax - 1)
                   else if f.event.Lifecycle? || f.event.Ack? || (f.event.Unknown? && !IsQuiet(f.raw))
                   then Cut(Cut(Notices(fs, id), 8191) + f.raw, outMax - 1)
                   else before
  {
    OneMoreOutput(fs, f, id, start, outMax);
    hide *;
    OutputByEvent(Output(fs, id, start, outMax), Prefix(fs, id), f, id, outMax);
    PrefixIs(fs, id);
  }

  lemma OutputByEvent(before: string, prefix: string, f: Frame, id: string, outMax: nat)
    requires outMax > 0 && Addressed(f, id)
    ensures OutputWith(before, prefix, f, id, outMax)
         == if f.event.TextDelta? then Cut(before + f.event.text, outMax - 1)
            else if f.event.Lifecycle? || f.event.Ack? || (f.event.Unknown? && !IsQuiet(f.raw))
            then Cut(prefix + f.raw, outMax - 1)
            else before
  {
    hide Contains, Cut;
  }

  lemma PrefixIs(fs: seq<Frame>, id: string)
    ensures Prefix(fs, id) == Cut(Notices(fs, id), 8191)
  {
  }

  /** What it adds to the deltas, the tool calls and the notices. */
  lemma EventAdds(fs: seq<Frame>, f: Frame, id: string)
    requires Addressed(f, id)
    ensures Deltas(fs + [f], id)
         == Deltas(fs, id) + if f.event.TextDelta? && f.event.text != "" then [f.event.text] else []
    ensures Calls(fs + [f], id)
         == Calls(fs, id) + if f.event.ToolIntent?
                            then [ToolCall(f.event.name, f.event.args, f.event.outcome)] else []
    ensures Notices(fs + [f], id)
         == Notices(fs, id) + if f.event.Compaction?
                              then "[COMPACT] " + Or(f.event.message, "Native agent is compacting context.") + "\n"
                              else ""
  {
    OneMoreFrame(fs, f, id);
    hide Contains, Notices, Deltas, Calls;
  }

  /** A frame of another turn adds nothing. */
  lemma ForeignAddsNothing(fs: seq<Frame>, f: Frame, id: string, start: string, outMax: nat)
    requires outMax > 0 && !Addressed(f, id)
    ensures Output(fs + [f], id, start, outMax) == Output(fs, id, start, outMax)
    ensures Deltas(fs + [f], id) == Deltas(fs, id) && Calls(fs + [f], id) == Calls(fs, id)
    ensures Notices(fs + [f], id) == Notices(fs, id)
  {
    OneMoreFrame(fs, f, id);
    OneMoreOutput(fs, f, id, start, outMax);
    hide Contains, Output, Notices, Deltas, Calls;
  }

  /** A tool intent is answered by its name and arguments: shell is denied, arguments
      of the three checked tools that are not the one expected field are refused, and
      the rest is run. */
  lemma RepliesByCall(call: ToolCall, id: string)
    ensures call.name == "shell" ==> ReplyTo(call, id) == ToolError(id, "shell", "tool denied by bridge policy")
    ensures forall name, field | (name, field) in [("google_search", "query"), ("browse_url", "url"),
                                                   ("shell_command", "command")] && call.name == name ::
              ReplyTo(call, id) == if ToolArgs.ObjectField(call.args, field, 2048).Some?
                                   then ToolResult(id, name, call.outcome)
                                   else ToolError(id, name, "malformed tool arguments")
    ensures call.name !in ["", "shell", "google_search", "browse_url", "shell_command"] && call.args != "" ==>
              ReplyTo(call, id) == ToolResult(id, call.name, call.outcome)
    ensures call.name == "" || (call.name != "shell" && call.args == "") ==>
              ReplyTo(call, id) == ToolError(id, call.name, "malformed tool arguments")
  {
    hide ToolArgs.ObjectField;
    NoFieldOfNothing();
  }

  lemma NoFieldOfNothing()
    ensures forall field, max :: ToolArgs.ObjectField("", field, max) == None
  {
  }

  // ---- Timing

  /** The silent polls that use up the timeout: 60 s unless one is configured, in polls
      of 100 ms with a control plane and of 2 s without, rounded up. */
  lemma PatienceIs(env: Env)
    ensures var timeout := if env.timeoutMs > 0 then env.timeoutMs else 60000;
            var poll := if env.plane then 100 else 2000;
            Patience(env) == (timeout + poll - 1) / poll
  {
    SlicesIsCeiling(Timeout(env), Slice(env));
  }

  // ---- What an ending leaves

  lemma OutputOfEnding(env: Env, fs: seq<Frame>, e: Ending, start: string)
    requires env.outMax > 0
    ensures var out := FinalOutput(env, fs, e, start);
            && (e.Finished? ==> out == Cut(Cut(Notices(fs, env.requestId), 8191) + e.text, env.outMax - 1))
            && (e.Faulted? ==> out == Cut(e.message, env.outMax - 1))
            && (e.CancelledByClient? ==> out == Cut("cancelled", env.outMax - 1))
            && (e.TimedOut? ==> out == Cut("native agent response timeout", env.outMax - 1))
            && (e.ForeignFrame? ==> out == Cut("native agent frame id mismatch", env.outMax - 1))
            && (e.ToolLimit? ==> out == Cut("native agent tool cycle limit exceeded", env.outMax - 1))
            && (e.EventLimit? || e.CancelAcked? ==> out == Output(fs, env.requestId, start, env.outMax))
    ensures Succeeds(e) <==> e.Finished? || e.EventLimit?
  {
    hide Output, Notices, Cut;
  }

  lemma FramesOfEnding(env: Env, e: Ending)
    ensures EndFrames(env, e, true)
         == if e.TimedOut? then [ErrorFrame("handshake_timeout")]
            else if e.ForeignFrame? then [ErrorFrame("request_id_mismatch")]
            else if e.Finished? && env.save.Some? then
              [SaveState(env.save.value.key, env.save.value.stateId)]
              + if env.save.value.reply == Nothing(true) then [ErrorFrame("payload_too_large")] else []
            else []
    ensures e.TimedOut? || e.ForeignFrame? ==> EndFrames(env, e, false) == []
  {
  }

  // ---- The ack

  /** A frame the wait for the ack passes over. */
  predicate PassedOver(f: Frame) { f.event.Lifecycle? || Contains(f.raw, "\"type\":\"event\"") }

  /** The read that decides the wait, if one of the first five does. */
  predicate Decides(acks: seq<Reading>, i: nat) {
    && i < 5 && i < |acks| && !(acks[i].Got? && PassedOver(acks[i].value))
    && forall k | 0 <= k < i :: acks[k].Got? && PassedOver(acks[k].value)
  }

  /** An ack that mentions the turn. */
  predicate Acks(f: Frame, id: string) { f.event.Ack? && Contains(f.raw, id) }

  /** What is wrong with it, if anything. */
  function AckVerdict(f: Frame, id: string): Option<string> {
    if !Acks(f, id) then Some("native agent ack invalid or rejected")
    else if f.event.status == "accepted" then None
    else if f.event.status == "busy" then
      Some("native agent busy (retry_after_ms=" + Printf.Decimal(f.event.retryMs) + ")")
    else Some("native agent ack rejected (unknown status)")
  }

  /** What a read that decides says: the turn begins exactly on an ack with status
      accepted that mentions its id. */
  lemma AckDecides(acks: seq<Reading>, id: string, i: nat)
    requires Decides(acks, i)
    ensures Accepted(acks, id) <==>
              acks[i].Got? && Acks(acks[i].value, id) && acks[i].value.event.status == "accepted"
    ensures AckText(acks, id) == if acks[i].Nothing? then Some("native agent ack timeout")
                                 else AckVerdict(acks[i].value, id)
    ensures AckSent(acks, id, true)
         == if acks[i] == Nothing(true) then [ErrorFrame("payload_too_large"), ErrorFrame("handshake_timeout")]
            else if acks[i] == Nothing(false) then [ErrorFrame("handshake_timeout")]
            else if Acks(acks[i].value, id) && acks[i].value.event.status == "busy" then [ErrorFrame("native_busy")]
            else []
  {
    DecisiveIs(acks, i);
    hide Contains, Decisive;
    assert !Passes(ReadAt(acks, i));
  }

  lemma DecisiveIs(acks: seq<Reading>, i: nat)
    requires Decides(acks, i)
    ensures Decisive(acks) == i
  {
    hide Contains, DecisiveFrom;
    var d := Decisive(acks);
    assert ReadAt(acks, i) == acks[i] && !Passes(acks[i]);
    if d < i { assert ReadAt(acks, d) == acks[d]; }
  }

  /** Five frames that are passed over use up the tries. */
  lemma AckExhausted(acks: seq<Reading>, id: string)
    requires |acks| >= 5 && forall k | 0 <= k < 5 :: acks[k].Got? && PassedOver(acks[k].value)
    ensures !Accepted(acks, id) && AckText(acks, id) == Some("native agent ack retry exhausted")
    ensures AckSent(acks, id, true) == [ErrorFrame("handshake_timeout")]
  {
    hide Contains, DecisiveFrom;
    var d := Decisive(acks);
    assert d < 5 ==> Passes(ReadAt(acks, d));
  }

  // ---- The end of the stream

  /** The last event of a request: completed with the text that fitted, and the reason
      if the event limit cut it short; failed if the client cancelled; an error with
      the output, or a stock text, otherwise. */
  lemma LastEvent(env: Env, begun: bool, acks: seq<Reading>, tr: seq<Poll>, c: Course, out: string)
    requires TakesCourse(env, begun, acks, tr, c)
    ensures var wire := Numbered(Script(env, tr, c, out), 0);
            var n := |wire| - 1;
            && n >= 0
            && wire[n]
               == if c.Ran? && c.ending.Finished? then Event(Completed(""), Fit(Streamed(env, tr, c)), n)
                  else if c.Ran? && c.ending.EventLimit?
                  then Event(Completed("max_turn_events"), Fit(Streamed(env, tr, c)), n)
                  else if c.Ran? && Cancels(AllAsked(env, tr, c.n, c.ending)) then Event(Failed, "cancelled", n)
                  else Event(Error, if out == "" then "native turn failed (see bridge logs)" else out, n)
  {
    if c.Ran? { CancelsIsHasDelete(AllAsked(env, tr, c.n, c.ending)); }
    ScriptIs(env, tr, c, out);
    Outcomes(env, tr, c);
    hide *;
    var limited := c.Ran? && c.ending.EventLimit?;
    var tail := Tail(CourseOk(c), WasCancelled(env, tr, c), limited, Fit(Streamed(env, tr, c)), out);
    TailIs(CourseOk(c), WasCancelled(env, tr, c), limited, Fit(Streamed(env, tr, c)), out);
    LastNumbered(OPENING + DeltaPayloads(Streamed(env, tr, c)), tail);
  }

  lemma ScriptIs(env: Env, tr: seq<Poll>, c: Course, out: string)
    ensures Script(env, tr, c, out)
         == OPENING + DeltaPayloads(Streamed(env, tr, c))
            + Tail(CourseOk(c), WasCancelled(env, tr, c), c.Ran? && c.ending.EventLimit?,
                   Fit(Streamed(env, tr, c)), out)
  {
    hide Streamed, DeltaPayloads, Tail, CourseOk, WasCancelled, Fit;
  }

  lemma Outcomes(env: Env, tr: seq<Poll>, c: Course)
    ensures CourseOk(c) <==> c.Ran? && (c.ending.Finished? || c.ending.EventLimit?)
    ensures WasCancelled(env, tr, c) <==> c.Ran? && HasDelete(AllAsked(env, tr, c.n, c.ending))
  {
    hide HasDelete, AllAsked;
  }

  lemma TailIs(ok: bool, cancelled: bool, limited: bool, text: string, out: string)
    ensures var tail := Tail(ok, cancelled, limited, text, out);
            && tail != []
            && tail[|tail| - 1]
               == if ok then (Completed(if limited then "max_turn_events" else ""), text)
                  else if cancelled then (Failed, "cancelled")
                  else (Error, if out == "" then "native turn failed (see bridge logs)" else out)
  {
  }

  lemma LastNumbered(a: seq<(Kind, string)>, b: seq<(Kind, string)>)
    requires b != []
    ensures var wire := Numbered(a + b, 0);
            |wire| > 0 && wire[|wire| - 1] == Event(b[|b| - 1].0, b[|b| - 1].1, |wire| - 1)
  {
  }

  /** The stream completes exactly if the turn ran into its event limit, or the last
      frame it heard, with no DELETE answered, is a response of the turn. */
  lemma CompletesIffResponse(env: Env, begun: bool, acks: seq<Reading>, tr: seq<Poll>, c: Course, out: string)
    requires TakesCourse(env, begun, acks, tr, c)
    ensures var wire := Numbered(Script(env, tr, c, out), 0);
            |wire| > 0 &&
            (wire[|wire| - 1].kind.Completed? <==>
               c.Ran? && (Countable(Heard(tr, c.n), env.requestId) >= env.maxEvents ||
                          (!(env.plane && Cancels(At(tr, c.n).requests)) && At(tr, c.n).frame.Got?
                           && Addressed(At(tr, c.n).frame.value, env.requestId)
                           && At(tr, c.n).frame.value.event.Response?)))
  {
    hide *;
    LastEvent(env, begun, acks, tr, c, out);
    if c.Ran? {
      CourseEnds(env, begun, acks, tr, c.n, c.ending);
      CountedIsCountable(Heard(tr, c.n), env.requestId);
      EndIs(env, tr, c.n);
      EndsHere(env, tr, c.n, c.ending);
      if Countable(Heard(tr, c.n), env.requestId) < env.maxEvents {
        CancelledIffDelete(env, tr, c.n);
        EndsHere(env, tr, c.n, CancelledByClient);
        if !(env.plane && Cancels(At(tr, c.n).requests)) {
          if At(tr, c.n).frame.Got? {
            HeardDecides(env, tr, c.n, At(tr, c.n).frame.value);
            ResponseFinishes(At(tr, c.n).frame.value, Heard(tr, c.n), env.requestId);
            EndingsOfFrames(At(tr, c.n).frame.value, Heard(tr, c.n), env.requestId);
          } else {
            HeardSilence(env, tr, c.n);
          }
        }
      }
    }
  }

  lemma ResponseFinishes(f: Frame, fs: seq<Frame>, id: string)
    ensures var e := EndedBy(f, fs, id);
            e.Some? && e.value.Finished? <==> Addressed(f, id) && f.event.Response?
  {
    EndedByEvent(f, fs, id);
    hide EndedBy, Contains, Intents, Addressed;
  }

  lemma HeardSilence(env: Env, tr: seq<Poll>, n: nat)
    requires Running(env, tr, n) && Countable(Heard(tr, n), env.requestId) < env.maxEvents
    requires !(env.plane && Cancels(At(tr, n).requests)) && At(tr, n).frame.Nothing?
    ensures EndAt(env, tr, n) == None || EndAt(env, tr, n) == Some(TimedOut)
  {
    hide *;
    CountedIsCountable(Heard(tr, n), env.requestId);
    NothingCancelledYet(env, tr, n);
    AskedMore(env, tr, n);
    CancelsIsHasDelete(At(tr, n).requests);
    NoDeleteInNothing();
    EndIs(env, tr, n);
  }
}
