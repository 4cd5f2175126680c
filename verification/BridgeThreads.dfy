/** The bridge process in the form it runs in: one object whose fields are the
    coordinator's table and flags, the state cells, the two channels and the
    threads' places, changed in place by one method per thread.  Each method
    carries out exactly the action of the same name of module `Bridge`, so the
    theorems about `Run` hold of every schedule of these methods.
 */
module BridgeThreads {
  import opened Prelude
  import opened Bridge

  class Process {
    var insts: seq<Instance>
    var cells: seq<Flag>
    var pending: map<RequestId, nat>
    var inputClosed: bool
    var shutdownQueued: bool
    var coordinator: Coordinator
    var readerDone: bool
    var events: seq<Event>
    var jobs: seq<Job>
    var worker: Worker
    var polling: set<nat>
    var firing: set<nat>
    var log: seq<Obs>

    ghost function View(): State
      reads this
    {
      State(insts, cells, pending, inputClosed, shutdownQueued, coordinator, readerDone,
            events, jobs, worker, polling, firing, log)
    }

    constructor ()
      ensures View() == Init()
    {
      insts, cells, pending := [], [], map[];
      inputClosed, shutdownQueued, coordinator := false, false, Receiving;
      readerDone, events, jobs, worker := false, [], [], Idle;
      polling, firing, log := {}, {}, [];
    }

    method WriteResponse(to: Option<RequestId>, code: Code, origin: Option<nat>)
      modifies this`log
      ensures View() == Write(old(View()), to, code, origin)
    {
      log := log + [Line(to, code, origin)];
    }

    // The atomic compare-and-exchange on one state cell.
    method CompareExchange(i: nat, expected: Flag, desired: Flag) returns (ok: bool)
      requires i < |cells|
      modifies this`cells
      ensures ok <==> old(cells)[i] == expected
      ensures cells == if ok then old(cells)[i := desired] else old(cells)
    {
      ok := cells[i] == expected;
      if ok { cells := cells[i := desired]; }
    }

    method AcceptRequest(id: RequestId, op: Operation)
      modifies this`insts, this`cells, this`pending, this`jobs, this`log, this`coordinator
      ensures View() == Accept(old(View()), id, op)
    {
      if worker.Stopped? {
        coordinator := Exited(Failed, []);
        return;
      }
      var i := |insts|;
      insts := insts + [Instance(id, op)];
      pending := pending[id := i];
      log := log + [Accepted(i, id)];
      coordinator := Receiving;
      if op.WaitSync? {
        cells := cells + [PENDING];
        jobs := jobs + [RegisterWait(i)];
      } else {
        cells := cells + [COMPLETING];
        jobs := jobs + [Dispatch(i, false)];
      }
    }

    method CancelPending(id: RequestId, target: Option<RequestId>)
      requires Shape(View())
      modifies this`cells, this`pending, this`log, this`coordinator
      ensures View() == HandleCancel(old(View()), id, target)
    {
      if id in pending {
        WriteResponse(None, DuplicateRequestId, None);
        return;
      }
      if target.None? || target.value == id {
        WriteResponse(Some(id), InvalidRequest, None);
        return;
      }
      var canceled := false;
      if target.value in pending && insts[pending[target.value]].op.WaitSync? {
        canceled := CompareExchange(pending[target.value], PENDING, CANCELED);
      }
      if canceled {
        var i := pending[target.value];
        pending := pending - {target.value};
        coordinator := Acknowledging(id);
        WriteResponse(target, CanceledByClient, Some(i));
      } else {
        WriteResponse(Some(id), CancelResult(false), None);
      }
    }

    method OnFrame(f: Frame)
      requires Shape(View())
      modifies this
      ensures View() == HandleFrame(old(View()), f)
    {
      if shutdownQueued {
        var id := ParsedId(f);
        if id.Some? && id.value in pending {
          WriteResponse(None, DuplicateRequestId, None);
        } else {
          WriteResponse(id, InvalidState, None);
        }
        return;
      }
      match f
      case Malformed(parsed) =>
        var to := parsed;
        if to.Some? && to.value in pending { to := None; }
        WriteResponse(to, InvalidRequest, None);
      case Cancel(id, target) =>
        CancelPending(id, target);
      case Request(id, op) =>
        if id in pending {
          WriteResponse(None, DuplicateRequestId, None);
        } else if |pending| >= MAX_PENDING_REQUESTS {
          WriteResponse(Some(id), TooManyPending, None);
        } else if op.Shutdown? {
          coordinator := Scanning(pending.Keys, [], QueueShutdown(id));
        } else if op.WaitSync? && !op.validPayload {
          WriteResponse(Some(id), InvalidRequest, None);
        } else {
          AcceptRequest(id, op);
        }
    }

    method OnCompleted(i: nat, shutdown: bool)
      requires Shape(View()) && i < |insts|
      modifies this`pending, this`log, this`coordinator
      ensures View() == HandleCompleted(old(View()), i, shutdown)
    {
      var id := insts[i].id;
      if id in pending && pending[id] == i { pending := pending - {id}; }
      WriteResponse(Some(id), Answer, Some(i));
      if shutdown {
        coordinator := Draining;
      } else if inputClosed && pending == map[] {
        coordinator := Exited(InputExhausted, []);
      }
    }

    method ReceiveEvent()
      requires Shape(View())
      modifies this
      ensures View() == Receive(old(View()))
    {
      if !coordinator.Receiving? || events == [] { return; }
      var e := events[0];
      events := events[1..];
      match e
      case FrameRead(f) => OnFrame(f);
      case Completed(i, shutdown) => OnCompleted(i, shutdown);
      case FrameTooLarge =>
        WriteResponse(None, TooLarge, None);
        coordinator := Exited(OversizedFrame, []);
      case InputClosed =>
        inputClosed := true;
        coordinator := Scanning(pending.Keys, [], CloseInput);
      case ReadError =>
        coordinator := Exited(Failed, []);
    }

    // One candidate of the pass of `cancel_all_waits`.
    method ScanOne(id: RequestId)
      requires Shape(View())
      modifies this`cells, this`coordinator
      ensures View() == Scan(old(View()), id)
    {
      if !coordinator.Scanning? || id !in coordinator.todo { return; }
      var won := coordinator.won;
      if id in pending && insts[pending[id]].op.WaitSync? {
        var ok := CompareExchange(pending[id], PENDING, CANCELED);
        if ok { won := won + [id]; }
      }
      coordinator := Scanning(coordinator.todo - {id}, won, coordinator.after);
    }

    method MoveOn()
      requires Shape(View())
      modifies this
      ensures View() == Continue(old(View()))
    {
      match coordinator
      case Acknowledging(id) =>
        coordinator := Receiving;
        WriteResponse(Some(id), CancelResult(true), None);
      case Scanning(todo, won, after) =>
        if todo != {} { return; }
        if won != [] {
          if won[0] in pending {
            var i := pending[won[0]];
            pending := pending - {won[0]};
            coordinator := Scanning(todo, won[1..], after);
            WriteResponse(Some(won[0]), CanceledByClient, Some(i));
          }
        } else if after.QueueShutdown? {
          shutdownQueued := true;
          AcceptRequest(after.id, Shutdown);
        } else if pending == map[] {
          coordinator := Exited(InputExhausted, []);
        } else {
          coordinator := Receiving;
        }
      case Draining =>
        if pending == map[] { coordinator := Exited(ShutdownComplete, []); }
      case _ =>
    }

    method DrainOne(id: RequestId)
      requires Shape(View())
      modifies this`cells, this`pending, this`log
      ensures View() == Drain(old(View()), id)
    {
      if !coordinator.Draining? || id !in pending { return; }
      var i := pending[id];
      cells := cells[i := CANCELED];
      pending := pending - {id};
      WriteResponse(Some(id), CanceledByClient, Some(i));
    }

    method WorkerStep(choice: bool)
      requires Shape(View())
      modifies this`cells, this`jobs, this`worker, this`polling, this`events, this`log
      ensures View() == Work(old(View()), choice)
    {
      match worker
      case Idle =>
        if jobs != [] { worker, jobs := Holding(jobs[0]), jobs[1..]; }
      case Holding(Dispatch(i, onTrigger)) =>
        var claimed := true;
        if onTrigger { claimed := CompareExchange(i, PENDING, COMPLETING); }
        worker := if claimed then Running(i) else Idle;
      case Holding(RegisterWait(i)) =>
        worker := if cells[i] == PENDING then Subscribing(i) else Idle;
      case Subscribing(i) =>
        if choice {
          polling, worker := polling + {i}, Idle;
        } else {
          var claimed := CompareExchange(i, PENDING, DONE);
          worker := if claimed then Replying(i, false) else Idle;
        }
      case Running(i) =>
        log := log + [Ran(i)];
        cells := cells[i := DONE];
        worker := Replying(i, choice && insts[i].op.Shutdown?);
      case Replying(i, shutdown) =>
        events := events + [Completed(i, shutdown)];
        worker := if shutdown then Stopped else Idle;
      case Stopped =>
    }

    method Perform(a: Action)
      requires Shape(View())
      modifies this
      ensures View() == Next(old(View()), a)
    {
      hide Receive, Scan, Continue, Drain, Work;
      match a
      case ReaderSends(e) =>
        if !readerDone && !e.Completed? { events, readerDone := events + [e], !e.FrameRead?; }
      case CoordinatorReceives => ReceiveEvent();
      case CoordinatorScans(id) => ScanOne(id);
      case CoordinatorContinues => MoveOn();
      case CoordinatorDrains(id) => DrainOne(id);
      case WriteFails =>
        if !coordinator.Exited? { coordinator := Exited(Failed, Won(coordinator)); }
      case WorkerMoves(b) => WorkerStep(b);
      case WaiterPolls(i) =>
        if i in polling && i < |cells| {
          polling := polling - {i};
          if cells[i] == PENDING { firing := firing + {i}; }
        }
      case WaiterFires(i) =>
        if i in firing { firing, jobs := firing - {i}, jobs + [Dispatch(i, true)]; }
    }

    /** Any schedule, carried out on this object, ends in the state that `Run` describes. */
    method Execute(schedule: seq<Action>)
      requires View() == Init()
      modifies this
      ensures View() == Run(schedule)
    {
      hide Run, Next, Shape, Inv;
      RunShape([]);
      for k := 0 to |schedule|
        invariant View() == Run(schedule[..k])
      {
        assert schedule[..k + 1] == schedule[..k] + [schedule[k]];
        RunStep(schedule[..k], schedule[k]);
        Perform(schedule[k]);
      }
      assert schedule[..|schedule|] == schedule;
    }
  }
}
