/** What the bridge answers: which line a frame gets, when a request is accepted,
    and that a cancellation is reported exactly when there was one. */
module BridgeReplies {
  import opened Prelude
  import opened Bridge

  // ---------------------------------------------------------------------
  // Cancellations are reported truthfully
  // ---------------------------------------------------------------------

  /** The last output line is the response of a canceled request. */
  ghost predicate LastLineCancels(log: seq<Obs>) {
    log != [] &&
    var last := log[|log| - 1];
    if last.Line? then CancelLine(last) else LastLineCancels(log[..|log| - 1])
  }

  ghost predicate Truthful(log: seq<Obs>, k: nat)
    requires k < |log|
  {
    log[k].Line? && log[k].code.CancelResult? ==> (log[k].code.canceled <==> LastLineCancels(log[..k]))
  }

  ghost predicate AllTruthful(log: seq<Obs>) { forall k | 0 <= k < |log| :: Truthful(log, k) }

  predicate Terminal(e: Event) { !e.FrameRead? && !e.Completed? }

  // After a terminal event no frame is read.
  ghost predicate ReaderOrder(events: seq<Event>, readerDone: bool, inputClosed: bool) {
    && (forall j, k | 0 <= j < k < |events| :: Terminal(events[j]) ==> !events[k].FrameRead?)
    && (forall k | 0 <= k < |events| :: Terminal(events[k]) ==> readerDone)
    && (inputClosed ==> readerDone && forall k | 0 <= k < |events| :: !events[k].FrameRead?)
  }

  // Where the coordinator is after a cancellation was written.
  ghost predicate AfterCancel(s: State) {
    match s.coordinator
    case Receiving => LastLineCancels(s.log) ==> s.shutdownQueued || s.inputClosed
    case Acknowledging(_) => LastLineCancels(s.log)
    case Scanning(_, _, after) => after.CloseInput? ==> s.inputClosed
    case _ => true
  }

  ghost predicate Reporting(s: State) {
    AllTruthful(s.log) && ReaderOrder(s.events, s.readerDone, s.inputClosed) && AfterCancel(s)
  }

  lemma {:induction false} TruthfulNext(log: seq<Obs>, o: Obs)
    requires AllTruthful(log)
    requires o.Line? && o.code.CancelResult? ==> (o.code.canceled <==> LastLineCancels(log))
    ensures AllTruthful(log + [o])
    ensures LastLineCancels(log + [o]) <==> if o.Line? then CancelLine(o) else LastLineCancels(log)
  {
    var log' := log + [o];
    assert log'[..|log|] == log;
    forall k | 0 <= k < |log'| ensures Truthful(log', k) {
      if k < |log| {
        assert Truthful(log, k);
        assert log'[..k] == log[..k];
      }
    }
  }

  lemma {:induction false} OrderPop(s: State)
    requires ReaderOrder(s.events, s.readerDone, s.inputClosed) && s.events != []
    ensures ReaderOrder(s.events[1..], s.readerDone, s.inputClosed)
    ensures s.events[0].InputClosed? ==> ReaderOrder(s.events[1..], s.readerDone, true)
    ensures s.events[0].FrameRead? ==> !s.inputClosed
  {
  }

  lemma {:induction false} OrderSend(s: State, e: Event)
    requires ReaderOrder(s.events, s.readerDone, s.inputClosed)
    ensures var t := ReaderSend(s, e); ReaderOrder(t.events, t.readerDone, t.inputClosed)
  {
  }

  lemma {:induction false} OrderReport(s: State, e: Event)
    requires ReaderOrder(s.events, s.readerDone, s.inputClosed) && e.Completed?
    ensures ReaderOrder(s.events + [e], s.readerDone, s.inputClosed)
  {
  }

  // One more line, which is no report of a cancellation, and nothing else.
  lemma {:induction false} WriteReports(s: State, to: Option<RequestId>, code: Code)
    requires Reporting(s) && s.coordinator.Receiving? && code != CanceledByClient
    requires code.CancelResult? ==> (code.canceled <==> LastLineCancels(s.log))
    ensures Reporting(Write(s, to, code, None))
  {
    hide AllTruthful, ReaderOrder, LastLineCancels;
    TruthfulNext(s.log, Line(to, code, None));
  }

  lemma {:induction false} AcceptReports(s: State, id: RequestId, op: Operation)
    requires Reporting(s) && s.coordinator.Receiving?
    ensures Reporting(Accept(s, id, op))
  {
    hide AllTruthful, ReaderOrder, LastLineCancels;
    TruthfulNext(s.log, Accepted(|s.insts|, id));
  }

  lemma {:induction false} CancelReports(s: State, id: RequestId, target: Option<RequestId>)
    requires Shape(s) && Reporting(s) && s.coordinator.Receiving? && !s.inputClosed && !s.shutdownQueued
    ensures Reporting(HandleCancel(s, id, target))
  {
    hide Shape, AllTruthful, ReaderOrder, LastLineCancels;
    if id in s.pending { WriteReports(s, None, DuplicateRequestId); }
    else if target.None? || target.value == id { WriteReports(s, Some(id), InvalidRequest); }
    else if Cancelable(s, target.value) {
      TruthfulNext(s.log, Line(target, CanceledByClient, Some(s.pending[target.value])));
    } else { WriteReports(s, Some(id), CancelResult(false)); }
  }

  lemma {:induction false} FrameReports(s: State, f: Frame)
    requires Shape(s) && Reporting(s) && s.coordinator.Receiving? && !s.inputClosed
    ensures Reporting(HandleFrame(s, f))
  {
    if s.shutdownQueued {
      hide Shape, Reporting, Write;
      WriteReports(s, None, DuplicateRequestId);
      WriteReports(s, ParsedId(f), InvalidState);
    } else {
      match f
      case Malformed(parsed) =>
        hide Shape, Reporting, Write;
        WriteReports(s, Unclaimed(s, parsed), InvalidRequest);
      case Cancel(id, target) =>
        hide Shape, Reporting, HandleCancel;
        CancelReports(s, id, target);
      case Request(id, op) => RequestReports(s, id, op);
    }
  }

  lemma {:induction false} RequestReports(s: State, id: RequestId, op: Operation)
    requires Shape(s) && Reporting(s) && s.coordinator.Receiving? && !s.shutdownQueued
    ensures Reporting(HandleFrame(s, Request(id, op)))
  {
    hide Shape, AllTruthful, ReaderOrder, LastLineCancels, Write, Accept;
    WriteReports(s, None, DuplicateRequestId);
    WriteReports(s, Some(id), TooManyPending);
    WriteReports(s, Some(id), InvalidRequest);
    AcceptReports(s, id, op);
  }

  lemma {:induction false} CompletedReports(s: State, i: nat, shutdown: bool)
    requires Shape(s) && i < |s.insts| && Reporting(s) && s.coordinator.Receiving?
    ensures Reporting(HandleCompleted(s, i, shutdown))
  {
    hide Shape, AllTruthful, ReaderOrder, LastLineCancels;
    TruthfulNext(s.log, Line(Some(s.insts[i].id), Answer, Some(i)));
  }

  lemma {:induction false} ReceiveReports(s: State)
    requires Shape(s) && Reporting(s)
    ensures Reporting(Receive(s))
  {
    hide AllTruthful, ReaderOrder, LastLineCancels, HandleFrame, HandleCompleted;
    if s.coordinator.Receiving? && s.events != [] {
      OrderPop(s);
      ShapePop(s);
      hide EventsOk, JobsOk, WorkerOk, WaitersOk, PendingOk;
      var t := s.(events := s.events[1..]);
      match s.events[0]
      case FrameRead(f) => FrameReports(t, f);
      case Completed(i, shutdown) => CompletedReports(t, i, shutdown);
      case FrameTooLarge => TruthfulNext(s.log, Line(None, TooLarge, None));
      case InputClosed =>
      case ReadError =>
    }
  }

  lemma {:induction false} ScanReports(s: State)
    requires Shape(s) && Reporting(s) && s.coordinator.Scanning?
    ensures Reporting(Continue(s))
  {
    hide Shape, AllTruthful, ReaderOrder, LastLineCancels;
    var c := s.coordinator;
    if c.todo == {} && c.won != [] {
      if c.won[0] in s.pending {
        TruthfulNext(s.log, Line(Some(c.won[0]), CanceledByClient, Some(s.pending[c.won[0]])));
      }
    } else if c.todo == {} && c.after.QueueShutdown? {
      TruthfulNext(s.log, Accepted(|s.insts|, c.after.id));
    }
  }

  lemma {:induction false} ContinueReports(s: State)
    requires Shape(s) && Reporting(s)
    ensures Reporting(Continue(s))
  {
    if s.coordinator.Scanning? {
      hide Continue;
      ScanReports(s);
    } else {
      hide Shape, AllTruthful, ReaderOrder, LastLineCancels;
      match s.coordinator
      case Acknowledging(id) => TruthfulNext(s.log, Line(Some(id), CancelResult(true), None));
      case _ =>
    }
  }

  lemma {:induction false} WorkReports(s: State, choice: bool)
    requires Shape(s) && Reporting(s)
    ensures Reporting(Work(s, choice))
  {
    hide AllTruthful, ReaderOrder, LastLineCancels, EventsOk, JobsOk, WaitersOk, PendingOk;
    match s.worker
    case Running(i) => TruthfulNext(s.log, Ran(i));
    case Replying(i, shutdown) => OrderReport(s, Completed(i, shutdown));
    case _ =>
  }

  lemma {:induction false} NextReports(s: State, a: Action)
    requires Shape(s) && Reporting(s)
    ensures Reporting(Next(s, a))
  {
    hide Shape, AllTruthful, ReaderOrder, LastLineCancels, Receive, Continue, Work;
    match a
    case ReaderSends(e) => OrderSend(s, e);
    case CoordinatorReceives => ReceiveReports(s);
    case CoordinatorContinues => ContinueReports(s);
    case CoordinatorDrains(id) =>
      var t := Drain(s, id);
      if |t.log| > |s.log| { TruthfulNext(s.log, t.log[|s.log|]); }
    case WorkerMoves(b) => WorkReports(s, b);
    case _ =>
  }

  lemma StartReports()
    ensures Reporting(Init())
  {
  }

  lemma {:induction false} RunReports(schedule: seq<Action>)
    ensures Reporting(Run(schedule))
  {
    hide Run, Next, Reporting, Inv, Shape;
    if schedule == [] {
      RunShape([]);
      StartReports();
    } else {
      var before, last := schedule[..|schedule| - 1], schedule[|schedule| - 1];
      RunReports(before);
      RunStep(before, last);
      assert before + [last] == schedule;
      NextReports(Run(before), last);
    }
  }

  /** In every interleaving, a canceler is told that its target was canceled exactly
      when the line written just before is the response of a canceled request. */
  lemma {:induction false} CancelReportedIff(schedule: seq<Action>, k: nat)
    ensures var log := Run(schedule).log;
      k < |log| && log[k].Line? && log[k].code.CancelResult? ==>
        (log[k].code.canceled <==> LastLineCancels(log[..k]))
  {
    RunReports(schedule);
    hide Run, LastLineCancels;
    if k < |Run(schedule).log| { assert Truthful(Run(schedule).log, k); }
  }

  // ---------------------------------------------------------------------
  // The answer to a frame
  // ---------------------------------------------------------------------

  /** The ids under which a request waits for its response. */
  ghost function OpenIds(log: seq<Obs>): set<RequestId> {
    set k | 0 <= k < |log| && log[k].Accepted? && Open(log, log[k].id).Some? :: log[k].id
  }

  ghost predicate Claimed(log: seq<Obs>, id: Option<RequestId>) { id.Some? && Open(log, id.value).Some? }

  /** The one line that a refused frame gets, from what has been observed so far. */
  ghost function Refusal(log: seq<Obs>, shuttingDown: bool, f: Frame): Option<Obs> {
    var id := ParsedId(f);
    if Claimed(log, id) then
      Some(Line(None, if f.Malformed? && !shuttingDown then InvalidRequest else DuplicateRequestId, None))
    else if shuttingDown then Some(Line(id, InvalidState, None))
    else
      match f
      case Malformed(_) => Some(Line(id, InvalidRequest, None))
      case Cancel(x, target) =>
        if target.None? || target.value == x then Some(Line(id, InvalidRequest, None)) else None
      case Request(x, op) =>
        if |OpenIds(log)| >= 64 then Some(Line(id, TooManyPending, None))
        else if op == WaitSync(false) then Some(Line(id, InvalidRequest, None))
        else None
  }

  lemma {:induction false} PendingIsOpen(s: State)
    requires |s.cells| == |s.insts| && Observed(s.insts, s.cells, s.pending, s.log)
    ensures OpenIds(s.log) == s.pending.Keys
    ensures forall id :: Open(s.log, id) == if id in s.pending then Some(s.pending[id]) else None
  {
    hide Open, Orderly;
    forall id | id in s.pending ensures id in OpenIds(s.log) {
      OpenWasAccepted(s.log, id);
    }
  }

  ghost predicate AtFrame(s: State, f: Frame) {
    s.coordinator.Receiving? && s.events != [] && s.events[0] == FrameRead(f)
  }

  // The target of a cancellation is a wait that nobody has claimed yet.
  ghost predicate StillWaiting(s: State, target: RequestId) {
    && Open(s.log, target).Some?
    && var i := Open(s.log, target).value;
    i < |s.insts| && i < |s.cells| && s.insts[i].op.WaitSync? && s.cells[i] == PENDING
  }

  /** `t` is `s` after the frame `f` at the front: a refused frame gets its one line
      and changes nothing else; a call or a wait is accepted; a shutdown starts with
      all open requests; a cancellation cancels a wait that nobody has claimed and is
      otherwise told that it did not. */
  ghost predicate Answered(s: State, t: State, f: Frame)
    requires s.events != []
  {
    var refusal := Refusal(s.log, s.shutdownQueued, f);
    && (refusal.Some? ==> t == s.(events := s.events[1..], log := s.log + [refusal.value]))
    && (refusal.None? && f.Request? && !f.op.Shutdown? && !s.worker.Stopped? ==>
          t.log == s.log + [Accepted(|s.insts|, f.id)] && t.insts == s.insts + [Instance(f.id, f.op)])
    && (refusal.None? && f.Request? && f.op.Shutdown? ==>
          t == s.(events := s.events[1..], coordinator := Scanning(OpenIds(s.log), [], QueueShutdown(f.id))))
    && (refusal.None? && f.Cancel? ==>
          if StillWaiting(s, f.target.value)
          then t.log == s.log + [Line(f.target, CanceledByClient, Open(s.log, f.target.value))]
               && t.coordinator == Acknowledging(f.id)
          else t.log == s.log + [Line(Some(f.id), CancelResult(false), None)] && t.coordinator == Receiving)
  }

  ghost predicate Mirrored(s: State) {
    && OpenIds(s.log) == s.pending.Keys
    && forall id :: Open(s.log, id) == if id in s.pending then Some(s.pending[id]) else None
  }

  lemma {:induction false} RequestStep(s: State, f: Frame)
    requires Shape(s) && AtFrame(s, f) && Mirrored(s) && !f.Cancel?
    ensures Answered(s, Receive(s), f)
  {
    hide Open, OpenIds, EventsOk, JobsOk, WorkerOk, WaitersOk, HandleCancel;
    assert |s.pending| == |s.pending.Keys|;
  }

  lemma {:induction false} CancelStep(s: State, f: Frame)
    requires Shape(s) && AtFrame(s, f) && Mirrored(s) && f.Cancel?
    ensures Answered(s, Receive(s), f)
  {
    hide Open, OpenIds, EventsOk, JobsOk, WorkerOk, WaitersOk, Accept;
  }

  /** In every interleaving, that is what the next frame gets. */
  lemma {:induction false} FrameAnswered(schedule: seq<Action>, f: Frame)
    ensures var s := Run(schedule); AtFrame(s, f) ==> Answered(s, Run(schedule + [CoordinatorReceives]), f)
  {
    RunStep(schedule, CoordinatorReceives);
    var s := Run(schedule);
    hide Run, Receive, Answered, Observed, Rights, ShutdownLast, CoordinatorOk, Open, OpenIds;
    PendingIsOpen(s);
    if AtFrame(s, f) {
      if f.Cancel? { CancelStep(s, f); } else { RequestStep(s, f); }
    }
  }

  /** A cancellation that wins tells its canceler so, as soon as the coordinator goes
      on, whatever the worker did in between. */
  lemma {:induction false} CancelAcknowledged(schedule: seq<Action>)
    ensures var s, t := Run(schedule), Run(schedule + [CoordinatorContinues]);
      s.coordinator.Acknowledging? ==>
        t == s.(coordinator := Receiving, log := s.log + [Line(Some(s.coordinator.id), CancelResult(true), None)])
  {
    RunStep(schedule, CoordinatorContinues);
    hide Run, Inv, Shape;
  }

  /** `t` is `s` after the front event, if that is no frame: an oversized frame and a
      read error end the bridge, the end of input starts with all open requests, and
      a completion answers its own open request, the shutdown's being the last. */
  ghost predicate Handled(s: State, t: State)
    requires s.events != []
  {
    var e, rest := s.events[0], s.(events := s.events[1..]);
    && (e.FrameTooLarge? ==>
          t == rest.(log := s.log + [Line(None, TooLarge, None)], coordinator := Exited(OversizedFrame, [])))
    && (e.ReadError? ==> t == rest.(coordinator := Exited(Failed, [])))
    && (e.InputClosed? ==>
          t == rest.(inputClosed := true, coordinator := Scanning(OpenIds(s.log), [], CloseInput)))
    && (e.Completed? ==>
          && e.inst < |s.insts| && Open(s.log, s.insts[e.inst].id) == Some(e.inst)
          && t.log == s.log + [Line(Some(s.insts[e.inst].id), Answer, Some(e.inst))]
          && (t.coordinator.Draining? <==> e.shutdown))
  }

  lemma {:induction false} EventStep(s: State)
    requires Shape(s) && Mirrored(s) && s.coordinator.Receiving? && s.events != []
    requires s.events[0].Completed? ==>
      && s.events[0].inst < |s.insts| && s.insts[s.events[0].inst].id in s.pending
      && s.pending[s.insts[s.events[0].inst].id] == s.events[0].inst
    ensures Handled(s, Receive(s))
  {
    hide Open, OpenIds, EventsOk, JobsOk, WorkerOk, WaitersOk, HandleFrame;
  }

  /** In every interleaving, that is what any other event comes to. */
  lemma {:induction false} EventAnswered(schedule: seq<Action>)
    ensures var s := Run(schedule);
      s.coordinator.Receiving? && s.events != [] ==> Handled(s, Run(schedule + [CoordinatorReceives]))
  {
    RunStep(schedule, CoordinatorReceives);
    var s := Run(schedule);
    hide Run, Receive, Handled, Observed, Rights, ShutdownLast, CoordinatorOk, Open, OpenIds;
    PendingIsOpen(s);
    if s.coordinator.Receiving? && s.events != [] {
      if s.events[0].Completed? { FrontIsOpen(s); }
      EventStep(s);
    }
  }

  lemma {:induction false} FrontIsOpen(s: State)
    requires Inv(s) && s.events != [] && s.events[0].Completed?
    ensures s.events[0].inst < |s.insts| && s.insts[s.events[0].inst].id in s.pending
    ensures s.pending[s.insts[s.events[0].inst].id] == s.events[0].inst
  {
    hide Observed, ShutdownLast, CoordinatorOk, JobTokens, JobsOk, WorkerOk, WaitersOk;
    assert Pipe(s)[0] == s.events[0].inst;
  }

  // ---------------------------------------------------------------------
  // The bridge does not wait for nothing
  // ---------------------------------------------------------------------

  ghost predicate Waiting(s: State) {
    && (s.coordinator.Receiving? && s.inputClosed ==> s.pending != map[])
    && (s.coordinator.Acknowledging? ==> !s.inputClosed)
  }

  lemma {:induction false} ReceiveWaits(s: State)
    requires Shape(s) && Reporting(s) && Waiting(s)
    ensures Waiting(Receive(s))
  {
    hide AllTruthful, LastLineCancels, JobsOk, WorkerOk, WaitersOk, PendingOk;
    if s.coordinator.Receiving? && s.events != [] { OrderPop(s); }
  }

  lemma {:induction false} NextWaits(s: State, a: Action)
    requires Shape(s) && Reporting(s) && Waiting(s)
    ensures Waiting(Next(s, a))
  {
    hide Shape, AllTruthful, LastLineCancels, ReaderOrder, Receive;
    if a.CoordinatorReceives? { ReceiveWaits(s); }
    if a.CoordinatorContinues? && s.coordinator.Scanning? && s.coordinator.after.QueueShutdown? {
      var id := s.coordinator.after.id;
      assert id in s.pending[id := |s.insts|];
    }
  }

  lemma StartWaits()
    ensures Waiting(Init())
  {
  }

  lemma {:induction false} RunWaits(schedule: seq<Action>)
    ensures Waiting(Run(schedule))
  {
    hide Run, Next, Reporting, Waiting, Inv, Shape;
    if schedule == [] {
      RunShape([]);
      StartWaits();
    } else {
      var before, last := schedule[..|schedule| - 1], schedule[|schedule| - 1];
      RunWaits(before);
      RunReports(before);
      RunStep(before, last);
      assert before + [last] == schedule;
      NextWaits(Run(before), last);
    }
  }

  /** In every interleaving, once its input has ended the coordinator only goes on
      receiving while some request is open. */
  lemma {:induction false} NeverWaitsForNothing(schedule: seq<Action>)
    ensures var s := Run(schedule); s.coordinator.Receiving? && s.inputClosed ==> OpenIds(s.log) != {}
  {
    RunWaits(schedule);
    var s := Run(schedule);
    hide Run, Observed, Rights, ShutdownLast, CoordinatorOk, OpenIds;
    PendingIsOpen(s);
    assert s.pending != map[] ==> s.pending.Keys != {};
  }

  // ---------------------------------------------------------------------
  // An answer means the request was carried out
  // ---------------------------------------------------------------------

  // A request other than a wait is DONE only once it was executed.
  ghost predicate DoneRan(insts: seq<Instance>, cells: seq<Flag>, log: seq<Obs>)
    requires |cells| == |insts|
  {
    forall i | 0 <= i < |insts| && cells[i] == DONE && !insts[i].op.WaitSync? :: Ran(i) in log
  }

  // A final response is an answer or a cancellation; an answer to anything but a
  // wait comes after the execution.
  ghost predicate FinalOk(insts: seq<Instance>, log: seq<Obs>, k: nat)
    requires k < |log|
  {
    log[k].Line? && log[k].origin.Some? ==>
      && log[k].origin.value < |insts| && log[k].code in {Answer, CanceledByClient}
      && (log[k].code == Answer && !insts[log[k].origin.value].op.WaitSync? ==> Ran(log[k].origin.value) in log[..k])
  }

  ghost predicate FinalsOk(insts: seq<Instance>, log: seq<Obs>) {
    forall k | 0 <= k < |log| :: FinalOk(insts, log, k)
  }

  ghost predicate Executed(s: State) {
    |s.cells| == |s.insts| && DoneRan(s.insts, s.cells, s.log) && FinalsOk(s.insts, s.log)
  }

  lemma {:induction false} FinalNext(insts: seq<Instance>, log: seq<Obs>, o: Obs)
    requires FinalsOk(insts, log)
    requires o.Line? && o.origin.Some? ==>
      && o.origin.value < |insts| && o.code in {Answer, CanceledByClient}
      && (o.code == Answer && !insts[o.origin.value].op.WaitSync? ==> Ran(o.origin.value) in log)
    ensures FinalsOk(insts, log + [o])
  {
    var log' := log + [o];
    assert log'[..|log|] == log;
    forall k | 0 <= k < |log'| ensures FinalOk(insts, log', k) {
      if k < |log| {
        assert FinalOk(insts, log, k);
        assert log'[..k] == log[..k];
      }
    }
  }

  lemma {:induction false} FinalAccept(insts: seq<Instance>, log: seq<Obs>, inst: Instance)
    requires FinalsOk(insts, log)
    ensures FinalsOk(insts + [inst], log)
  {
    forall k | 0 <= k < |log| ensures FinalOk(insts + [inst], log, k) {
      assert FinalOk(insts, log, k);
    }
  }

  lemma DoneLonger(insts: seq<Instance>, cells: seq<Flag>, log: seq<Obs>, o: Obs)
    requires |cells| == |insts| && DoneRan(insts, cells, log)
    ensures DoneRan(insts, cells, log + [o])
  {
  }

  lemma {:induction false} WriteExecuted(s: State, to: Option<RequestId>, code: Code, origin: Option<nat>)
    requires Executed(s)
    requires origin.Some? ==>
      && origin.value < |s.insts| && code in {Answer, CanceledByClient}
      && (code == Answer && !s.insts[origin.value].op.WaitSync? ==> Ran(origin.value) in s.log)
    ensures Executed(Write(s, to, code, origin))
  {
    hide FinalsOk, DoneRan;
    FinalNext(s.insts, s.log, Line(to, code, origin));
    DoneLonger(s.insts, s.cells, s.log, Line(to, code, origin));
  }

  lemma {:induction false} AcceptExecuted(s: State, id: RequestId, op: Operation)
    requires Executed(s)
    ensures Executed(Accept(s, id, op))
  {
    hide FinalsOk;
    FinalAccept(s.insts, s.log, Instance(id, op));
    FinalNext(s.insts + [Instance(id, op)], s.log, Accepted(|s.insts|, id));
  }

  lemma CanceledExecuted(s: State, i: nat)
    requires Executed(s) && i < |s.cells|
    ensures Executed(s.(cells := s.cells[i := CANCELED]))
  {
    hide FinalsOk;
  }

  lemma {:induction false} CancelExecuted(s: State, id: RequestId, target: Option<RequestId>)
    requires Shape(s) && Executed(s)
    ensures Executed(HandleCancel(s, id, target))
  {
    hide FinalsOk, DoneRan, EventsOk, JobsOk, WorkerOk, WaitersOk, Write;
    if id in s.pending { WriteExecuted(s, None, DuplicateRequestId, None); }
    else if target.None? || target.value == id { WriteExecuted(s, Some(id), InvalidRequest, None); }
    else if Cancelable(s, target.value) {
      var i := s.pending[target.value];
      CanceledExecuted(s, i);
      WriteExecuted(s.(cells := s.cells[i := CANCELED], pending := s.pending - {target.value},
                       coordinator := Acknowledging(id)), target, CanceledByClient, Some(i));
    } else { WriteExecuted(s, Some(id), CancelResult(false), None); }
  }

  lemma {:induction false} FrameExecuted(s: State, f: Frame)
    requires Shape(s) && Executed(s)
    ensures Executed(HandleFrame(s, f))
  {
    hide FinalsOk, DoneRan, Shape, Write, Accept, HandleCancel;
    if s.shutdownQueued {
      WriteExecuted(s, None, DuplicateRequestId, None);
      WriteExecuted(s, ParsedId(f), InvalidState, None);
    } else {
      match f
      case Malformed(parsed) => WriteExecuted(s, Unclaimed(s, parsed), InvalidRequest, None);
      case Cancel(id, target) => CancelExecuted(s, id, target);
      case Request(id, op) =>
        WriteExecuted(s, None, DuplicateRequestId, None);
        WriteExecuted(s, Some(id), TooManyPending, None);
        WriteExecuted(s, Some(id), InvalidRequest, None);
        AcceptExecuted(s, id, op);
    }
  }

  lemma {:induction false} CompletedExecuted(s: State, i: nat, shutdown: bool)
    requires Shape(s) && Executed(s) && i < |s.insts| && s.cells[i] == DONE
    ensures Executed(HandleCompleted(s, i, shutdown))
  {
    hide FinalsOk, EventsOk, JobsOk, WorkerOk, WaitersOk, PendingOk;
    var id := s.insts[i].id;
    var left := if id in s.pending && s.pending[id] == i then s.pending - {id} else s.pending;
    WriteExecuted(s.(pending := left), Some(id), Answer, Some(i));
  }

  lemma {:induction false} ReceiveExecuted(s: State)
    requires Shape(s) && Executed(s)
    ensures Executed(Receive(s))
  {
    hide FinalsOk, DoneRan, HandleFrame, HandleCompleted;
    if s.coordinator.Receiving? && s.events != [] {
      ShapePop(s);
      var t := s.(events := s.events[1..]);
      match s.events[0]
      case FrameRead(f) => FrameExecuted(t, f);
      case Completed(i, shutdown) => CompletedExecuted(t, i, shutdown);
      case FrameTooLarge => WriteExecuted(t, None, TooLarge, None);
      case _ =>
    }
  }

  lemma {:induction false} ContinueExecuted(s: State)
    requires Shape(s) && Executed(s)
    ensures Executed(Continue(s))
  {
    hide FinalsOk, DoneRan, EventsOk, JobsOk, WorkerOk, WaitersOk, Write, Accept;
    match s.coordinator
    case Acknowledging(id) => WriteExecuted(s.(coordinator := Receiving), Some(id), CancelResult(true), None);
    case Scanning(todo, won, after) =>
      if todo == {} {
        if won != [] {
          if won[0] in s.pending {
            WriteExecuted(s.(pending := s.pending - {won[0]}, coordinator := Scanning(todo, won[1..], after)),
                          Some(won[0]), CanceledByClient, Some(s.pending[won[0]]));
          }
        } else if after.QueueShutdown? { AcceptExecuted(s.(shutdownQueued := true), after.id, Shutdown); }
      }
    case _ =>
  }

  lemma {:induction false} ExecuteExecuted(s: State, i: nat, shutdown: bool)
    requires Executed(s) && i < |s.cells|
    ensures Executed(Execute(s, i, shutdown))
  {
    hide FinalsOk;
    FinalNext(s.insts, s.log, Ran(i));
    assert Ran(i) in s.log + [Ran(i)];
  }

  lemma {:induction false} ClaimExecuted(s: State, i: nat, flag: Flag, worker: Worker)
    requires Executed(s) && i < |s.cells| && (flag == DONE ==> s.insts[i].op.WaitSync?)
    ensures Executed(Claim(s, i, flag, worker))
  {
    hide FinalsOk;
  }

  lemma {:induction false} WorkExecuted(s: State, choice: bool)
    requires Shape(s) && Executed(s)
    ensures Executed(Work(s, choice))
  {
    hide FinalsOk, DoneRan, EventsOk, JobsOk, WaitersOk, PendingOk, Execute, Claim;
    match s.worker
    case Holding(Dispatch(i, onTrigger)) => ClaimExecuted(s, i, COMPLETING, Running(i));
    case Subscribing(i) => ClaimExecuted(s, i, DONE, Replying(i, false));
    case Running(i) => ExecuteExecuted(s, i, choice && s.insts[i].op.Shutdown?);
    case _ =>
  }

  lemma {:induction false} DrainExecuted(s: State, id: RequestId)
    requires Shape(s) && Executed(s)
    ensures Executed(Drain(s, id)) && Executed(Scan(s, id))
  {
    hide FinalsOk, DoneRan, EventsOk, JobsOk, WaitersOk, WorkerOk;
    if id in s.pending {
      var i := s.pending[id];
      CanceledExecuted(s, i);
      WriteExecuted(s.(cells := s.cells[i := CANCELED], pending := s.pending - {id}),
                    Some(id), CanceledByClient, Some(i));
    }
  }

  lemma {:induction false} NextExecuted(s: State, a: Action)
    requires Shape(s) && Executed(s)
    ensures Executed(Next(s, a))
  {
    hide FinalsOk, DoneRan, Shape, Receive, Continue, Work, Drain, Scan;
    match a
    case CoordinatorReceives => ReceiveExecuted(s);
    case CoordinatorContinues => ContinueExecuted(s);
    case CoordinatorScans(id) => DrainExecuted(s, id);
    case CoordinatorDrains(id) => DrainExecuted(s, id);
    case WorkerMoves(b) => WorkExecuted(s, b);
    case _ =>
  }

  lemma StartExecuted()
    ensures Executed(Init())
  {
  }

  lemma {:induction false} RunExecuted(schedule: seq<Action>)
    ensures Executed(Run(schedule))
  {
    hide Run, Next, Executed, Inv, Shape;
    if schedule == [] {
      RunShape([]);
      StartExecuted();
    } else {
      var before, last := schedule[..|schedule| - 1], schedule[|schedule| - 1];
      RunExecuted(before);
      RunStep(before, last);
      assert before + [last] == schedule;
      NextExecuted(Run(before), last);
    }
  }

  /** In every interleaving, a final response is an answer or a cancellation, and a
      call or shutdown that is answered had been executed before. */
  lemma {:induction false} AnsweredWasRun(schedule: seq<Action>, k: nat, i: nat)
    ensures var s := Run(schedule);
      k < |s.log| && IsFinal(s.log[k], i) ==>
        && i < |s.insts| && s.log[k].code in {Answer, CanceledByClient}
        && (s.log[k].code == Answer && !s.insts[i].op.WaitSync? ==> exists j | 0 <= j < k :: s.log[j] == Ran(i))
  {
    RunExecuted(schedule);
    var s := Run(schedule);
    hide Run;
    if k < |s.log| && IsFinal(s.log[k], i) { assert FinalOk(s.insts, s.log, k); }
  }
}
