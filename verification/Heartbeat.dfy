/** The server thread and the heartbeat thread on one frame stream: a transition
    system for src/bridge_core.c, with the turn of src/turn_context.c reduced to
    its reads and its handling of DELETE. A read under the connection mutex is one
    step, and so is each access to a shared flag. */
module Heartbeat {

  /** Where the server thread is in a turn. In Opening (turn_begin up to the request),
      in Awaiting (the ack), in Receiving and in Saving it reads frames; a DELETE is
      handled in three steps, in the usual place before a read or in the last look
      after a timeout. */
  datatype ServerPc = Idle | Marked | Opening | Awaiting | Draining | Receiving | Saving | LateDraining
                    | CancelTest(late: bool) | CancelWrite(late: bool) | CancelClear(late: bool)
                    | Closing | Resetting | Closed

  /** Sleep is the loop of naps, Check the test of turn_active. */
  datatype HeartPc = Sleep | Check | Ping | Wait

  /** A frame as it arrives; it can belong to the turn once its request is written. */
  datatype Frame = Frame(bytes: int, afterRequest: bool)

  datatype Act = TurnRead(frame: Frame) | HeartRead(frame: Frame) | PingSent | RequestSent | CancelSent | Deleted

  datatype State = State(arrived: seq<Frame>, inbox: seq<Frame>, log: seq<Act>, turnActive: bool, cancelled: bool,
                         asked: bool, server: ServerPc, heart: HeartPc)

  datatype Step =
    | Arrive(bytes: int)
    | Mark | Begin | ReadOpening | Ask | FailOpening | ReadAck | EndAck(ok: bool)
    | TakeDelete | TestCancel | WriteCancel | ClearActive | EndDraining
    | ReadTurn | GoOn | Finish | Fail | GiveUp | ReadSaving | EndSaving | EndLate
    | Close | Reset
    | Wake | TestActive | SendPing | ReadHeart(again: bool) | QuitWaiting

  predicate Reads(p: ServerPc) { p.Opening? || p.Awaiting? || p.Receiving? || p.Saving? }

  predicate Enabled(s: State, t: Step) {
    match t
    case Arrive(_) => true
    case Mark => s.server.Idle?
    case Begin => s.server.Marked?
    case ReadOpening => s.server.Opening? && s.inbox != []
    case Ask => s.server.Opening?
    case FailOpening => s.server.Opening?
    case ReadAck => s.server.Awaiting? && s.inbox != []
    case EndAck(_) => s.server.Awaiting?
    case TakeDelete => s.server.Draining? || s.server.LateDraining?
    case TestCancel => s.server.CancelTest?
    case WriteCancel => s.server.CancelWrite?
    case ClearActive => s.server.CancelClear?
    case EndDraining => s.server.Draining?
    case ReadTurn => s.server.Receiving? && s.inbox != []
    case GoOn => s.server.Receiving?
    case Finish => s.server.Receiving?
    case Fail => s.server.Receiving?
    case GiveUp => s.server.Receiving?
    case ReadSaving => s.server.Saving? && s.inbox != []
    case EndSaving => s.server.Saving?
    case EndLate => s.server.LateDraining?
    case Close => s.server.Closing?
    case Reset => s.server.Resetting?
    case Wake => s.heart.Sleep?
    case TestActive => s.heart.Check?
    case SendPing => s.heart.Ping?
    case ReadHeart(_) => s.heart.Wait? && s.inbox != []
    case QuitWaiting => s.heart.Wait?
  }

  function TurnTakes(s: State, next: ServerPc): State
    requires s.inbox != []
  {
    s.(inbox := s.inbox[1..], log := s.log + [TurnRead(s.inbox[0])], server := next)
  }

  /** One step of either thread, or of the agent. */
  function Do(s: State, t: Step): State
    requires Enabled(s, t)
  {
    match t
    case Arrive(bytes) => s.(arrived := s.arrived + [Frame(bytes, s.asked)], inbox := s.inbox + [Frame(bytes, s.asked)])
    case Mark => s.(turnActive := true, server := Marked)
    case Begin => s.(cancelled := false, server := Opening)
    case ReadOpening => TurnTakes(s, Opening)
    case Ask => s.(log := s.log + [RequestSent], asked := true, server := Awaiting)
    case FailOpening => s.(server := Closing)
    case ReadAck => TurnTakes(s, Awaiting)
    case EndAck(ok) => s.(server := if ok then Draining else Closing)
    case TakeDelete => s.(log := s.log + [Deleted], server := CancelTest(s.server.LateDraining?))
    case TestCancel =>
      if s.cancelled then s.(server := CancelClear(s.server.late))
      else s.(cancelled := true, server := CancelWrite(s.server.late))
    case WriteCancel => s.(log := s.log + [CancelSent], server := CancelClear(s.server.late))
    case ClearActive => s.(turnActive := false, server := if s.server.late then LateDraining else Draining)
    case EndDraining => s.(server := if s.cancelled then Closing else Receiving)
    case ReadTurn => TurnTakes(s, Receiving)
    case GoOn => s.(server := Draining)
    case Finish => s.(server := Saving)
    case Fail => s.(server := Closing)
    case GiveUp => s.(server := LateDraining)
    case ReadSaving => TurnTakes(s, Saving)
    case EndSaving => s.(server := Closing)
    case EndLate => s.(server := Closing)
    case Close => s.(turnActive := false, server := Resetting)
    case Reset => s.(cancelled := false, server := Closed)
    case Wake => s.(heart := Check)
    case TestActive => s.(heart := if s.turnActive then Sleep else Ping)
    case SendPing => s.(log := s.log + [PingSent], heart := Wait)
    case ReadHeart(again) =>
      s.(inbox := s.inbox[1..], log := s.log + [HeartRead(s.inbox[0])], heart := if again then Wait else Sleep)
    case QuitWaiting => s.(heart := Sleep)
  }

  predicate CanRun(s: State, ts: seq<Step>)
    decreases |ts|
  {
    ts == [] || (Enabled(s, ts[0]) && CanRun(Do(s, ts[0]), ts[1..]))
  }

  function Run(s: State, ts: seq<Step>): State
    requires CanRun(s, ts)
    decreases |ts|
  {
    if ts == [] then s else Run(Do(s, ts[0]), ts[1..])
  }

  // ---- Frames go to the turn

  predicate ByHeart(a: Act) { a.HeartRead? || a.PingSent? }

  /** Until the turn's last read the heartbeat neither pings nor takes a frame. */
  predicate Undisturbed(log: seq<Act>) {
    forall i, j | 0 <= i < j < |log| :: ByHeart(log[i]) ==> !log[j].TurnRead?
  }

  predicate Asleep(h: HeartPc) { h.Sleep? || h.Check? }

  /** The turn may still read a frame. */
  predicate WillRead(s: State) { s.server.Marked? || Reads(s.server) || (s.server.Draining? && !s.cancelled) }

  predicate InTurn(p: ServerPc) { !p.Idle? }

  ghost predicate Guarded(s: State) {
    && InTurn(s.server) && Undisturbed(s.log)
    && (s.server.CancelWrite? || s.server.CancelClear? ==> s.cancelled)
    && (WillRead(s) ==> s.turnActive && Asleep(s.heart) && forall i | 0 <= i < |s.log| :: !ByHeart(s.log[i]))
  }

  lemma GuardedStep(s: State, t: Step)
    requires Guarded(s) && Enabled(s, t)
    ensures Guarded(Do(s, t))
  {
    UndisturbedStep(s, t);
    hide Undisturbed;
  }

  lemma UndisturbedStep(s: State, t: Step)
    requires Guarded(s) && Enabled(s, t)
    ensures Undisturbed(Do(s, t).log)
  {
  }

  lemma {:induction false} GuardedRun(s: State, ts: seq<Step>)
    requires Guarded(s) && CanRun(s, ts)
    ensures Guarded(Run(s, ts))
    decreases |ts|
  {
    if ts != [] {
      hide Guarded, Enabled, Do;
      GuardedStep(s, ts[0]);
      GuardedRun(Do(s, ts[0]), ts[1..]);
    }
  }

  /** A turn about to be marked active, with the history starting here. */
  predicate AtStart(s: State) {
    s.server.Idle? && s.log == [] && s.inbox == s.arrived && !s.asked
  }

  ghost predicate AlwaysUndisturbed(s: State) {
    forall ts: seq<Step> | CanRun(s, ts) :: Undisturbed(Run(s, ts).log)
  }

  /** Until the turn's last read the heartbeat takes no frame that came after the
      turn's request. */
  predicate Unrobbed(log: seq<Act>) {
    forall i, j | 0 <= i < j < |log| :: log[i].HeartRead? && log[i].frame.afterRequest ==> !log[j].TurnRead?
  }

  ghost predicate AlwaysUnrobbed(s: State) {
    forall ts: seq<Step> | CanRun(s, ts) :: Unrobbed(Run(s, ts).log)
  }

  /** The frames of a turn are safe over every interleaving, DELETE in the middle
      included, exactly when the heartbeat is asleep (or about to test the flag) at
      the moment the turn sets it; and in no other case does it at least leave alone
      what came after the request. */
  lemma SafeIffAsleep(s: State)
    requires AtStart(s)
    ensures AlwaysUndisturbed(Do(s, Mark)) <==> Asleep(s.heart)
    ensures AlwaysUnrobbed(Do(s, Mark)) <==> Asleep(s.heart)
  {
    var marked := Do(s, Mark);
    if Asleep(s.heart) {
      forall ts: seq<Step> | CanRun(marked, ts)
        ensures Undisturbed(Run(marked, ts).log) && Unrobbed(Run(marked, ts).log)
      {
        GuardedRun(marked, ts);
      }
    } else {
      var ts := Theft(s);
      var log := Run(marked, ts).log;
      assert log[|log| - 2].HeartRead? && log[|log| - 1].TurnRead?;
    }
  }

  /** The heartbeat took a frame that came after the request, and the turn the next. */
  ghost predicate EndsInTheft(log: seq<Act>) {
    && |log| >= 2 && log[|log| - 2] == HeartRead(Frame(0, true)) && log[|log| - 1] == TurnRead(Frame(1, true))
  }

  /** A heartbeat that tested the flag just before it was set can take a frame that
      came after the turn's request, and the turn the frame behind it. */
  lemma Theft(s: State) returns (ts: seq<Step>)
    requires AtStart(s) && !Asleep(s.heart)
    ensures CanRun(Do(s, Mark), ts) && EndsInTheft(Run(Do(s, Mark), ts).log)
  {
    var marked := Do(s, Mark);
    if s.heart.Ping? {
      var rest := Steal(Do(marked, SendPing));
      ts := [SendPing] + rest;
      assert ts[1..] == rest;
    } else {
      ts := Steal(marked);
    }
  }

  /** First the heartbeat takes what is there already. */
  lemma {:induction false} Steal(s: State) returns (ts: seq<Step>)
    requires s.heart.Wait? && s.server.Marked?
    ensures CanRun(s, ts) && EndsInTheft(Run(s, ts).log)
    decreases |s.inbox|
  {
    if s.inbox != [] {
      var rest := Steal(Do(s, ReadHeart(true)));
      ts := [ReadHeart(true)] + rest;
      assert ts[1..] == rest;
    } else {
      ts := [Begin, Ask, Arrive(0), Arrive(1), ReadHeart(true), ReadAck];
      StealNext(s, ts);
    }
  }

  lemma StealNext(s: State, ts: seq<Step>)
    requires s.heart.Wait? && s.server.Marked? && s.inbox == []
    requires ts == [Begin, Ask, Arrive(0), Arrive(1), ReadHeart(true), ReadAck]
    ensures CanRun(s, ts) && EndsInTheft(Run(s, ts).log)
  {
    var s1 := Do(s, ts[0]);
    var s2 := Do(s1, ts[1]);
    assert s2.heart.Wait? && s2.server.Awaiting? && s2.inbox == [] && s2.asked;
    assert ts[1..][1..] == ts[2..];
    TakeBoth(s2, ts[2..]);
    hide Do, EndsInTheft;
    var end := Run(s2, ts[2..]);
    OneStep(s1, ts[1..], end);
    OneStep(s, ts, end);
  }

  lemma TakeBoth(s: State, ts: seq<Step>)
    requires s.heart.Wait? && s.server.Awaiting? && s.inbox == [] && s.asked
    requires ts == [Arrive(0), Arrive(1), ReadHeart(true), ReadAck]
    ensures CanRun(s, ts) && EndsInTheft(Run(s, ts).log)
  {
    var s1 := Do(s, ts[0]);
    var s2 := Do(s1, ts[1]);
    var s3 := Do(s2, ts[2]);
    var s4 := Do(s3, ts[3]);
    assert s4.log == s.log + [HeartRead(Frame(0, true)), TurnRead(Frame(1, true))];
    hide Do, Enabled;
    OneStep(s3, ts[3..], s4);
    OneStep(s2, ts[2..], s4);
    OneStep(s1, ts[1..], s4);
    OneStep(s, ts, s4);
  }

  lemma OneStep(s: State, ts: seq<Step>, end: State)
    requires ts != [] && Enabled(s, ts[0])
    requires |ts| > 1 ==> CanRun(Do(s, ts[0]), ts[1..]) && Run(Do(s, ts[0]), ts[1..]) == end
    requires |ts| == 1 ==> Do(s, ts[0]) == end
    ensures CanRun(s, ts) && Run(s, ts) == end
  {
    hide Do, Enabled;
    if |ts| == 1 { assert ts[1..] == []; }
  }

  // ---- Each frame once, in order

  function FrameOf(a: Act): seq<Frame> { if a.TurnRead? || a.HeartRead? then [a.frame] else [] }

  function FramesRead(log: seq<Act>): seq<Frame> {
    if log == [] then [] else FramesRead(log[..|log| - 1]) + FrameOf(log[|log| - 1])
  }

  lemma ReadMore(log: seq<Act>, a: Act)
    ensures FramesRead(log + [a]) == FramesRead(log) + FrameOf(a)
  {
    assert (log + [a])[..|log|] == log;
  }

  ghost predicate InOrder(s: State) { FramesRead(s.log) + s.inbox == s.arrived }

  predicate TakesFrame(t: Step) { t.ReadOpening? || t.ReadAck? || t.ReadTurn? || t.ReadSaving? || t.ReadHeart? }

  function Taken(s: State, t: Step): seq<Frame>
    requires Enabled(s, t)
  {
    if TakesFrame(t) then [s.inbox[0]] else []
  }

  function Arrived(s: State, t: Step): seq<Frame> { if t.Arrive? then [Frame(t.bytes, s.asked)] else [] }

  /** A step logs the frame it takes. */
  lemma LogsWhatItTakes(s: State, t: Step)
    requires Enabled(s, t)
    ensures FramesRead(Do(s, t).log) == FramesRead(s.log) + Taken(s, t)
  {
    hide FramesRead;
    var log := Do(s, t).log;
    if |log| > |s.log| { ReadMore(s.log, log[|s.log|]); }
  }

  /** It takes a frame from the front of the inbox and adds one at the back. */
  lemma MovesFrames(s: State, t: Step)
    requires Enabled(s, t)
    ensures Taken(s, t) + Do(s, t).inbox == s.inbox + Arrived(s, t)
    ensures Do(s, t).arrived == s.arrived + Arrived(s, t)
  {
    FramesAfter(s, t);
    hide Do;
    if TakesFrame(t) { assert [s.inbox[0]] + s.inbox[1..] == s.inbox; }
  }

  lemma FramesAfter(s: State, t: Step)
    requires Enabled(s, t)
    ensures Do(s, t).inbox == if TakesFrame(t) then s.inbox[1..] else if t.Arrive? then s.inbox + Arrived(s, t)
            else s.inbox
    ensures Do(s, t).arrived == if t.Arrive? then s.arrived + Arrived(s, t) else s.arrived
    ensures TakesFrame(t) ==> s.inbox != [] && !t.Arrive?
  {
  }

  lemma InOrderStep(s: State, t: Step)
    requires InOrder(s) && Enabled(s, t)
    ensures InOrder(Do(s, t))
  {
    hide Do, FramesRead, Taken, Arrived;
    LogsWhatItTakes(s, t);
    MovesFrames(s, t);
    var read := FramesRead(s.log);
    assert read + (Taken(s, t) + Do(s, t).inbox) == read + Taken(s, t) + Do(s, t).inbox;
    assert read + (s.inbox + Arrived(s, t)) == read + s.inbox + Arrived(s, t);
  }

  /** Both threads together read each frame once, in the order of arrival. */
  lemma {:induction false} FramesInOrder(s: State, ts: seq<Step>)
    requires InOrder(s) && CanRun(s, ts)
    ensures InOrder(Run(s, ts))
    decreases |ts|
  {
    if ts != [] {
      hide InOrder, Enabled, Do;
      InOrderStep(s, ts[0]);
      FramesInOrder(Do(s, ts[0]), ts[1..]);
    }
  }

  // ---- Cancellation

  function Count(log: seq<Act>, a: Act): nat {
    if log == [] then 0 else Count(log[..|log| - 1], a) + if log[|log| - 1] == a then 1 else 0
  }

  lemma CountMore(log: seq<Act>, b: Act, a: Act)
    ensures Count(log + [b], a) == Count(log, a) + if b == a then 1 else 0
  {
    assert (log + [b])[..|log|] == log;
  }

  /** While the turn runs: one cancel frame once the flag is up and its writer is
      past the write, none before; and the flag is up only after a DELETE. */
  ghost predicate Cancels(s: State) {
    match s.server
    case Idle => Count(s.log, CancelSent) == 0 && Count(s.log, Deleted) == 0
    case Marked => Count(s.log, CancelSent) == 0 && Count(s.log, Deleted) == 0
    case CancelWrite(_) => s.cancelled && Count(s.log, CancelSent) == 0 && Count(s.log, Deleted) > 0
    case Closed => Count(s.log, CancelSent) <= 1 && (Count(s.log, CancelSent) == 1 <==> Count(s.log, Deleted) > 0)
    case CancelTest(_) => Count(s.log, CancelSent) == (if s.cancelled then 1 else 0) && Count(s.log, Deleted) > 0
    case CancelClear(_) => s.cancelled && Count(s.log, CancelSent) == 1 && Count(s.log, Deleted) > 0
    case _ => Count(s.log, CancelSent) == (if s.cancelled then 1 else 0) && (s.cancelled <==> Count(s.log, Deleted) > 0)
  }

  lemma CancelsStep(s: State, t: Step)
    requires Cancels(s) && Enabled(s, t)
    ensures Cancels(Do(s, t))
  {
    var s' := Do(s, t);
    if s'.log != s.log {
      CountMore(s.log, s'.log[|s.log|], CancelSent);
      CountMore(s.log, s'.log[|s.log|], Deleted);
    }
  }

  /** Over a whole turn the cancel frame is written at most once, however many
      DELETEs arrive, and by the end exactly if one did. */
  lemma {:induction false} OneCancelFrame(s: State, ts: seq<Step>)
    requires Cancels(s) && CanRun(s, ts)
    ensures Cancels(Run(s, ts)) && Count(Run(s, ts).log, CancelSent) <= 1
    decreases |ts|
  {
    if ts != [] {
      hide Cancels, Enabled, Do;
      CancelsStep(s, ts[0]);
      OneCancelFrame(Do(s, ts[0]), ts[1..]);
    }
  }

  /** The turn reads nothing once a DELETE is taken. */
  predicate NoReadAfterDelete(log: seq<Act>) {
    forall i, j | 0 <= i < j < |log| :: log[i].Deleted? ==> !log[j].TurnRead?
  }

  ghost predicate Silenced(s: State) {
    && NoReadAfterDelete(s.log)
    && (s.server.CancelWrite? || s.server.CancelClear? ==> s.cancelled)
    && (WillRead(s) || s.server.Idle? ==> forall i | 0 <= i < |s.log| :: !s.log[i].Deleted?)
  }

  lemma SilencedStep(s: State, t: Step)
    requires Silenced(s) && Enabled(s, t)
    ensures Silenced(Do(s, t))
  {
    NoReadAfterDeleteStep(s, t);
    hide NoReadAfterDelete;
  }

  lemma NoReadAfterDeleteStep(s: State, t: Step)
    requires Silenced(s) && Enabled(s, t)
    ensures NoReadAfterDelete(Do(s, t).log)
  {
  }

  lemma {:induction false} DeleteIsLast(s: State, ts: seq<Step>)
    requires Silenced(s) && CanRun(s, ts)
    ensures Silenced(Run(s, ts))
    decreases |ts|
  {
    if ts != [] {
      hide Silenced, Enabled, Do;
      SilencedStep(s, ts[0]);
      DeleteIsLast(Do(s, ts[0]), ts[1..]);
    }
  }

  /** A turn's start meets all three invariants, so they hold over every run of it. */
  lemma EveryRun(s: State, ts: seq<Step>)
    requires AtStart(s) && CanRun(s, ts)
    ensures var log := Run(s, ts).log;
            && FramesRead(log) + Run(s, ts).inbox == Run(s, ts).arrived
            && Count(log, CancelSent) <= 1
            && (Run(s, ts).server.Closed? ==> (Count(log, CancelSent) == 1 <==> Count(log, Deleted) > 0))
            && NoReadAfterDelete(log)
  {
    FramesInOrder(s, ts);
    OneCancelFrame(s, ts);
    DeleteIsLast(s, ts);
  }

  // ---- What a turn can do

  function Reading(fs: seq<Frame>): (acts: seq<Act>)
    ensures |acts| == |fs|
  {
    seq(|fs|, i requires 0 <= i < |fs| => TurnRead(fs[i]))
  }

  /** k DELETEs, of which the first makes the cancel frame go out. */
  function Deletions(k: nat): seq<Act> {
    if k == 0 then [] else if k == 1 then [Deleted, CancelSent] else Deletions(k - 1) + [Deleted]
  }

  lemma {:induction false} RunBoth(s: State, ts: seq<Step>, us: seq<Step>)
    requires CanRun(s, ts) && CanRun(Run(s, ts), us)
    ensures CanRun(s, ts + us) && Run(s, ts + us) == Run(Run(s, ts), us)
    decreases |ts|
  {
    hide Do, Enabled;
    if ts == [] {
      assert ts + us == us;
    } else {
      assert (ts + us)[1..] == ts[1..] + us;
      RunBoth(Do(s, ts[0]), ts[1..], us);
    }
  }

  lemma RunOne(s: State, t: Step)
    requires Enabled(s, t)
    ensures CanRun(s, [t]) && Run(s, [t]) == Do(s, t)
  {
    hide Do, Enabled;
    assert [t][1..] == [];
  }

  lemma Then(s: State, ts: seq<Step>, t: Step)
    requires CanRun(s, ts) && Enabled(Run(s, ts), t)
    ensures CanRun(s, ts + [t]) && Run(s, ts + [t]) == Do(Run(s, ts), t)
  {
    hide Do, Enabled;
    RunOne(Run(s, ts), t);
    RunBoth(s, ts, [t]);
  }

  function AfterReading(s: State, fs: seq<Frame>): State
    requires fs <= s.inbox
  {
    s.(inbox := s.inbox[|fs|..], log := s.log + Reading(fs))
  }

  lemma ReadOnMore(s: State, fs: seq<Frame>)
    requires fs != [] && fs <= s.inbox
    ensures var rest := fs[..|fs| - 1];
            && rest <= s.inbox && AfterReading(s, rest).inbox != []
            && AfterReading(s, fs) == TurnTakes(AfterReading(s, rest), s.server)
  {
    var n := |fs| - 1;
    assert fs[..n] <= s.inbox && s.inbox[n..][0] == fs[n];
    assert s.inbox[n..][1..] == s.inbox[n + 1..];
    assert Reading(fs) == Reading(fs[..n]) + [TurnRead(fs[n])];
    assert s.log + (Reading(fs[..n]) + [TurnRead(fs[n])]) == s.log + Reading(fs[..n]) + [TurnRead(fs[n])];
  }

  /** While it opens the turn, waits for the ack or saves, the server can read any
      number of frames. */
  lemma {:induction false} CanRead(s: State, t: Step, fs: seq<Frame>) returns (ts: seq<Step>)
    requires fs <= s.inbox
    requires (s.server.Opening? && t.ReadOpening?) || (s.server.Awaiting? && t.ReadAck?)
             || (s.server.Saving? && t.ReadSaving?)
    ensures CanRun(s, ts) && Run(s, ts) == AfterReading(s, fs)
  {
    hide CanRun, Run;
    if fs == [] {
      ts := [];
      RunNothing(s);
      assert AfterReading(s, fs) == s;
    } else {
      ReadOnMore(s, fs);
      ts := CanRead(s, t, fs[..|fs| - 1]);
      hide AfterReading;
      Then(s, ts, t);
      ts := ts + [t];
    }
  }

  lemma RunNothing(s: State)
    ensures CanRun(s, []) && Run(s, []) == s
  {
  }

  /** In the loop of the turn, too, as long as no DELETE comes. */
  lemma {:induction false} CanListen(s: State, fs: seq<Frame>) returns (ts: seq<Step>)
    requires fs <= s.inbox && s.server.Draining? && !s.cancelled
    ensures CanRun(s, ts) && Run(s, ts) == AfterReading(s, fs)
  {
    hide CanRun, Run;
    if fs == [] {
      ts := [];
      RunNothing(s);
      assert AfterReading(s, fs) == s;
    } else {
      ReadOnMore(s, fs);
      ts := CanListen(s, fs[..|fs| - 1]);
      Then(s, ts, EndDraining);
      Then(s, ts + [EndDraining], ReadTurn);
      Then(s, ts + [EndDraining] + [ReadTurn], GoOn);
      ts := ts + [EndDraining] + [ReadTurn] + [GoOn];
    }
  }

  function AfterDeletes(s: State, k: nat): State {
    if k == 0 then s else s.(log := s.log + Deletions(k), cancelled := true, turnActive := false)
  }

  /** Any number of DELETEs can come at once, in the loop or in the last look. */
  lemma {:induction false} CanDelete(s: State, k: nat) returns (ts: seq<Step>)
    requires (s.server.Draining? || s.server.LateDraining?) && !s.cancelled
    ensures CanRun(s, ts) && Run(s, ts) == AfterDeletes(s, k)
  {
    hide CanRun, Run;
    if k == 0 {
      ts := [];
      RunNothing(s);
    } else {
      ts := CanDelete(s, k - 1);
      Then(s, ts, TakeDelete);
      ts := ts + [TakeDelete];
      Then(s, ts, TestCancel);
      ts := ts + [TestCancel];
      if k == 1 {
        Then(s, ts, WriteCancel);
        ts := ts + [WriteCancel];
      }
      Then(s, ts, ClearActive);
      ts := ts + [ClearActive];
      DeletionsMore(s.log, k);
    }
  }

  lemma DeletionsMore(log: seq<Act>, k: nat)
    requires k > 0
    ensures k == 1 ==> log + [Deleted] + [CancelSent] == log + Deletions(k)
    ensures k > 1 ==> log + Deletions(k - 1) + [Deleted] == log + Deletions(k)
  {
  }

  /** A turn can take any course: a frames before the request, b before the ack is
      accepted, c in the loop, and then k DELETEs, in the loop or in the last look
      after a timeout, or none and a response, and d frames while the session is saved. */
  lemma EveryTurnRuns(s: State, a: seq<Frame>, b: seq<Frame>, c: seq<Frame>, d: seq<Frame>, k: nat, late: bool)
      returns (ts: seq<Step>)
    requires s.server.Idle? && s.log == [] && s.inbox == a + b + c + d && (k > 0 || late ==> d == [])
    ensures CanRun(s, ts)
    ensures var end := Run(s, ts);
            && end.server.Closed? && !end.turnActive && !end.cancelled && end.inbox == []
            && end.log == Reading(a) + [RequestSent] + Reading(b) + Reading(c) + Deletions(k) + Reading(d)
  {
    hide CanRun, Run;
    ts := CanStart(s, a, b, c, d);
    var m := Run(s, ts);
    var us := CanEnd(m, d, k, late);
    RunBoth(s, ts, us);
    ts := ts + us;
  }

  lemma CanAsk(s: State, a: seq<Frame>) returns (ts: seq<Step>)
    requires s.server.Idle? && s.log == [] && a <= s.inbox
    ensures CanRun(s, ts)
    ensures Run(s, ts) == s.(inbox := s.inbox[|a|..], log := Reading(a) + [RequestSent], asked := true,
                             turnActive := true, cancelled := false, server := Awaiting)
  {
    hide CanRun, Run;
    RunNothing(s);
    Then(s, [], Mark);
    Then(s, [] + [Mark], Begin);
    ts := [] + [Mark] + [Begin];
    var us := CanRead(Run(s, ts), ReadOpening, a);
    RunBoth(s, ts, us);
    ts := ts + us;
    Then(s, ts, Ask);
    ts := ts + [Ask];
  }

  lemma CanBeAccepted(s: State, b: seq<Frame>) returns (ts: seq<Step>)
    requires s.server.Awaiting? && b <= s.inbox
    ensures CanRun(s, ts) && Run(s, ts) == AfterReading(s, b).(server := Draining)
  {
    hide CanRun, Run;
    ts := CanRead(s, ReadAck, b);
    Then(s, ts, EndAck(true));
    ts := ts + [EndAck(true)];
  }

  lemma CanStart(s: State, a: seq<Frame>, b: seq<Frame>, c: seq<Frame>, d: seq<Frame>) returns (ts: seq<Step>)
    requires s.server.Idle? && s.log == [] && s.inbox == a + b + c + d
    ensures CanRun(s, ts)
    ensures Run(s, ts) == s.(inbox := d, log := Reading(a) + [RequestSent] + Reading(b) + Reading(c), asked := true,
                             turnActive := true, cancelled := false, server := Draining)
  {
    hide CanRun, Run, Do, Enabled;
    assert s.inbox[|a|..] == b + c + d && (b + c + d)[|b|..] == c + d && (c + d)[|c|..] == d;
    ts := CanAsk(s, a);
    var us := CanBeAccepted(Run(s, ts), b);
    RunBoth(s, ts, us);
    ts := ts + us;
    us := CanListen(Run(s, ts), c);
    RunBoth(s, ts, us);
    ts := ts + us;
  }

  lemma CanEnd(s: State, d: seq<Frame>, k: nat, late: bool) returns (ts: seq<Step>)
    requires s.server.Draining? && !s.cancelled && s.inbox == d && (k > 0 || late ==> d == [])
    ensures CanRun(s, ts)
    ensures Run(s, ts) == s.(inbox := [], log := s.log + Deletions(k) + Reading(d), turnActive := false,
                             cancelled := false, server := Closed)
  {
    hide CanRun, Run;
    ts := CanClose(s, d, k, late);
    Then(s, ts, Close);
    ts := ts + [Close];
    Then(s, ts, Reset);
    ts := ts + [Reset];
  }

  lemma CanGiveUp(s: State, k: nat) returns (ts: seq<Step>)
    requires s.server.Draining? && !s.cancelled
    ensures CanRun(s, ts) && Run(s, ts) == AfterDeletes(s, k).(server := Closing)
  {
    hide CanRun, Run;
    RunNothing(s);
    Then(s, [], EndDraining);
    Then(s, [] + [EndDraining], GiveUp);
    ts := [] + [EndDraining] + [GiveUp];
    var us := CanDelete(Run(s, ts), k);
    RunBoth(s, ts, us);
    ts := ts + us;
    Then(s, ts, EndLate);
    ts := ts + [EndLate];
  }

  lemma CanClose(s: State, d: seq<Frame>, k: nat, late: bool) returns (ts: seq<Step>)
    requires s.server.Draining? && !s.cancelled && s.inbox == d && (k > 0 || late ==> d == [])
    ensures CanRun(s, ts)
    ensures Run(s, ts) == AfterDeletes(s, k).(inbox := [], log := s.log + Deletions(k) + Reading(d), server := Closing)
  {
    hide CanRun, Run;
    RunNothing(s);
    if late {
      ts := CanGiveUp(s, k);
      assert s.log + Deletions(k) + Reading(d) == s.log + Deletions(k);
    } else if k > 0 {
      ts := CanDelete(s, k);
      Then(s, ts, EndDraining);
      ts := ts + [EndDraining];
      assert s.log + Deletions(k) + Reading(d) == s.log + Deletions(k);
    } else {
      Then(s, [], EndDraining);
      Then(s, [] + [EndDraining], Finish);
      ts := [] + [EndDraining] + [Finish];
      var us := CanRead(Run(s, ts), ReadSaving, d);
      RunBoth(s, ts, us);
      ts := ts + us;
      Then(s, ts, EndSaving);
      ts := ts + [EndSaving];
      assert s.log + Deletions(0) + Reading(d) == s.log + Reading(d);
    }
  }
}
