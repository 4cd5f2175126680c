/** The request coordinator of the JSONL bridge: a reader, one coordinator, one
    runtime worker and any number of waiter threads that share one atomic state
    cell per accepted request and talk through two FIFO channels.

    `Next` is one atomic action of one thread.  A schedule is any sequence of
    actions, so `Run` ranges over every interleaving.  An action that is not
    enabled leaves the state alone.
 */
module Bridge {
  import opened Prelude

  type RequestId = string

  const MAX_PENDING_REQUESTS := 64

  // The values of the per-request atomic cell.
  datatype Flag = PENDING | CANCELED | COMPLETING | DONE

  // A well-formed request, as far as the coordinator tells requests apart.
  datatype Operation = Call | Shutdown | WaitSync(validPayload: bool)

  // What decoding a frame yields; `Malformed` keeps the id that could be parsed.
  datatype Frame =
    | Malformed(parsed: Option<RequestId>)
    | Cancel(id: RequestId, target: Option<RequestId>)
    | Request(id: RequestId, op: Operation)

  // An accepted request. Its position in `State.insts` names its state cell.
  datatype Instance = Instance(id: RequestId, op: Operation)

  datatype Job = Dispatch(inst: nat, onTrigger: bool) | RegisterWait(inst: nat)

  datatype Event =
    | FrameRead(frame: Frame)
    | FrameTooLarge
    | InputClosed
    | ReadError
    | Completed(inst: nat, shutdown: bool)

  datatype Code =
    | DuplicateRequestId | InvalidState | InvalidRequest | TooManyPending | TooLarge
    | CanceledByClient | CancelResult(canceled: bool) | Answer

  /** What an observer of the bridge sees, in order: acceptance of a request,
      its execution by the runtime, and every output line.  `origin` is the
      accepted request a line is the final response of, if it is one. */
  datatype Obs =
    | Accepted(inst: nat, id: RequestId)
    | Ran(inst: nat)
    | Line(to: Option<RequestId>, code: Code, origin: Option<nat>)

  datatype Continuation = QueueShutdown(id: RequestId) | CloseInput

  datatype Exit = ShutdownComplete | InputExhausted | OversizedFrame | Failed

  // Where the coordinator is inside its event loop.
  datatype Coordinator =
    | Receiving
    | Scanning(todo: set<RequestId>, won: seq<RequestId>, after: Continuation)
    | Acknowledging(id: RequestId)
    | Draining
    | Exited(how: Exit, unwritten: seq<RequestId>)

  datatype Worker =
    | Idle
    | Holding(job: Job)
    | Subscribing(inst: nat)
    | Running(inst: nat)
    | Replying(inst: nat, shutdown: bool)
    | Stopped

  datatype State = State(
    insts: seq<Instance>,
    cells: seq<Flag>,
    pending: map<RequestId, nat>,
    inputClosed: bool,
    shutdownQueued: bool,
    coordinator: Coordinator,
    readerDone: bool,
    events: seq<Event>,
    jobs: seq<Job>,
    worker: Worker,
    polling: set<nat>,
    firing: set<nat>,
    log: seq<Obs>)

  function Init(): (s: State) {
    State([], [], map[], false, false, Receiving, false, [], [], Idle, {}, {}, [])
  }

  // ---------------------------------------------------------------------
  // Actions
  // ---------------------------------------------------------------------

  datatype Action =
    | ReaderSends(event: Event)
    | CoordinatorReceives
    | CoordinatorScans(id: RequestId)
    | CoordinatorContinues
    | CoordinatorDrains(id: RequestId)
    | WriteFails
    | WorkerMoves(choice: bool)
    | WaiterPolls(inst: nat)
    | WaiterFires(inst: nat)

  function Next(s: State, a: Action): State
    requires Shape(s)
  {
    match a
    case ReaderSends(e) => ReaderSend(s, e)
    case CoordinatorReceives => Receive(s)
    case CoordinatorScans(id) => Scan(s, id)
    case CoordinatorContinues => Continue(s)
    case CoordinatorDrains(id) => Drain(s, id)
    case WriteFails => if s.coordinator.Exited? then s else s.(coordinator := Exited(Failed, Won(s.coordinator)))
    case WorkerMoves(b) => Work(s, b)
    case WaiterPolls(i) => Poll(s, i)
    case WaiterFires(i) => Fire(s, i)
  }

  function Write(s: State, to: Option<RequestId>, code: Code, origin: Option<nat>): State {
    s.(log := s.log + [Line(to, code, origin)])
  }

  // The requests whose cancellation won and whose line is not written yet.
  function Won(c: Coordinator): seq<RequestId> {
    match c
    case Scanning(_, won, _) => won
    case Exited(_, unwritten) => unwritten
    case _ => []
  }

  // The reader sends frames and then exactly one terminal event.
  function ReaderSend(s: State, e: Event): State {
    if s.readerDone || e.Completed? then s
    else s.(events := s.events + [e], readerDone := !e.FrameRead?)
  }

  function Receive(s: State): State
    requires Shape(s)
  {
    if !s.coordinator.Receiving? || s.events == [] then s
    else
      var t := s.(events := s.events[1..]);
      match s.events[0]
      case FrameRead(f) => HandleFrame(t, f)
      case Completed(i, shutdown) => HandleCompleted(t, i, shutdown)
      case FrameTooLarge => Write(t, None, TooLarge, None).(coordinator := Exited(OversizedFrame, []))
      case InputClosed =>
        t.(inputClosed := true, coordinator := Scanning(t.pending.Keys, [], CloseInput))
      case ReadError => t.(coordinator := Exited(Failed, []))
  }

  function ParsedId(f: Frame): Option<RequestId> {
    match f
    case Malformed(parsed) => parsed
    case Cancel(id, _) => Some(id)
    case Request(id, _) => Some(id)
  }

  // An id that is pending must not appear on a line that is not its response.
  function Unclaimed(s: State, id: Option<RequestId>): Option<RequestId> {
    if id.Some? && id.value in s.pending then None else id
  }

  function HandleFrame(s: State, f: Frame): State
    requires Shape(s)
  {
    if s.shutdownQueued then
      var id := ParsedId(f);
      if id.Some? && id.value in s.pending then Write(s, None, DuplicateRequestId, None)
      else Write(s, id, InvalidState, None)
    else
      match f
      case Malformed(parsed) => Write(s, Unclaimed(s, parsed), InvalidRequest, None)
      case Cancel(id, target) => HandleCancel(s, id, target)
      case Request(id, op) =>
        if id in s.pending then Write(s, None, DuplicateRequestId, None)
        else if |s.pending| >= MAX_PENDING_REQUESTS then Write(s, Some(id), TooManyPending, None)
        else match op
          case Shutdown =>
            s.(coordinator := Scanning(s.pending.Keys, [], QueueShutdown(id)))
          case WaitSync(valid) =>
            if valid then Accept(s, id, op) else Write(s, Some(id), InvalidRequest, None)
          case Call => Accept(s, id, op)
  }

  function Accept(s: State, id: RequestId, op: Operation): State {
    if s.worker.Stopped? then s.(coordinator := Exited(Failed, []))
    else
      var i := |s.insts|;
      s.(insts := s.insts + [Instance(id, op)],
         cells := s.cells + [if op.WaitSync? then PENDING else COMPLETING],
         pending := s.pending[id := i],
         jobs := s.jobs + [if op.WaitSync? then RegisterWait(i) else Dispatch(i, false)],
         log := s.log + [Accepted(i, id)],
         coordinator := Receiving)
  }

  // The compare-and-exchange PENDING -> CANCELED on a cancelable request.
  predicate Cancelable(s: State, id: RequestId)
    requires Shape(s)
  {
    && id in s.pending
    && s.insts[s.pending[id]].op.WaitSync?
    && s.cells[s.pending[id]] == PENDING
  }

  function HandleCancel(s: State, id: RequestId, target: Option<RequestId>): State
    requires Shape(s)
  {
    if id in s.pending then Write(s, None, DuplicateRequestId, None)
    else if target.None? || target.value == id then Write(s, Some(id), InvalidRequest, None)
    else if Cancelable(s, target.value) then
      var i := s.pending[target.value];
      Write(s.(cells := s.cells[i := CANCELED],
               pending := s.pending - {target.value},
               coordinator := Acknowledging(id)),
            target, CanceledByClient, Some(i))
    else Write(s, Some(id), CancelResult(false), None)
  }

  function HandleCompleted(s: State, i: nat, shutdown: bool): State
    requires Shape(s) && i < |s.insts|
  {
    var id := s.insts[i].id;
    var left := if id in s.pending && s.pending[id] == i then s.pending - {id} else s.pending;
    var t := Write(s.(pending := left), Some(id), Answer, Some(i));
    if shutdown then t.(coordinator := Draining)
    else if t.inputClosed && t.pending == map[] then t.(coordinator := Exited(InputExhausted, []))
    else t
  }

  // One compare-and-exchange of the pass over all pending requests.
  function Scan(s: State, id: RequestId): State
    requires Shape(s)
  {
    if !s.coordinator.Scanning? || id !in s.coordinator.todo then s
    else
      var c := s.coordinator.(todo := s.coordinator.todo - {id});
      if Cancelable(s, id) then
        s.(cells := s.cells[s.pending[id] := CANCELED],
           coordinator := c.(won := c.won + [id]))
      else s.(coordinator := c)
  }

  // Local work of the coordinator between two accesses to shared cells.
  function Continue(s: State): State
    requires Shape(s)
  {
    match s.coordinator
    case Acknowledging(id) =>
      Write(s.(coordinator := Receiving), Some(id), CancelResult(true), None)
    case Scanning(todo, won, after) =>
      if todo != {} then s
      else if won != [] then
        if won[0] !in s.pending then s
        else
          Write(s.(pending := s.pending - {won[0]},
                   coordinator := Scanning(todo, won[1..], after)),
                Some(won[0]), CanceledByClient, Some(s.pending[won[0]]))
      else (match after
        case QueueShutdown(id) => Accept(s.(shutdownQueued := true), id, Shutdown)
        case CloseInput =>
          s.(coordinator := if s.pending == map[] then Exited(InputExhausted, []) else Receiving))
    case Draining =>
      if s.pending == map[] then s.(coordinator := Exited(ShutdownComplete, [])) else s
    case _ => s
  }

  function Drain(s: State, id: RequestId): State
    requires Shape(s)
  {
    if !s.coordinator.Draining? || id !in s.pending then s
    else
      var i := s.pending[id];
      Write(s.(cells := s.cells[i := CANCELED], pending := s.pending - {id}),
            Some(id), CanceledByClient, Some(i))
  }

  // `choice` is what the runtime decides: whether a subscription exists, and
  // whether a shutdown request was carried out.
  function Work(s: State, choice: bool): State
    requires Shape(s)
  {
    match s.worker
    case Idle => if s.jobs == [] then s else TakeJob(s)
    case Holding(Dispatch(i, onTrigger)) =>
      if !onTrigger then s.(worker := Running(i))
      else if s.cells[i] == PENDING then Claim(s, i, COMPLETING, Running(i))
      else s.(worker := Idle)
    case Holding(RegisterWait(i)) =>
      s.(worker := if s.cells[i] == PENDING then Subscribing(i) else Idle)
    case Subscribing(i) =>
      if choice then s.(polling := s.polling + {i}, worker := Idle)
      else if s.cells[i] == PENDING then Claim(s, i, DONE, Replying(i, false))
      else s.(worker := Idle)
    case Running(i) => Execute(s, i, choice && s.insts[i].op.Shutdown?)
    case Replying(i, shutdown) => Report(s, i, shutdown)
    case Stopped => s
  }

  function TakeJob(s: State): State
    requires s.jobs != []
  {
    s.(worker := Holding(s.jobs[0]), jobs := s.jobs[1..])
  }

  // The compare-and-exchange by which the worker leaves PENDING.
  function Claim(s: State, i: nat, flag: Flag, worker: Worker): State
    requires i < |s.cells|
  {
    s.(cells := s.cells[i := flag], worker := worker)
  }

  function Execute(s: State, i: nat, shutdown: bool): State
    requires i < |s.cells|
  {
    s.(cells := s.cells[i := DONE], worker := Replying(i, shutdown), log := s.log + [Ran(i)])
  }

  function Report(s: State, i: nat, shutdown: bool): State {
    s.(events := s.events + [Completed(i, shutdown)], worker := if shutdown then Stopped else Idle)
  }

  // A waiter whose cell left PENDING ends; otherwise a trigger may be due.
  function Poll(s: State, i: nat): State
    requires Shape(s)
  {
    if i !in s.polling || i >= |s.cells| then s
    else if s.cells[i] != PENDING then s.(polling := s.polling - {i})
    else s.(polling := s.polling - {i}, firing := s.firing + {i})
  }

  function Fire(s: State, i: nat): State {
    if i !in s.firing then s
    else s.(firing := s.firing - {i}, jobs := s.jobs + [Dispatch(i, true)])
  }

  // ---------------------------------------------------------------------
  // What an observer is promised
  // ---------------------------------------------------------------------

  /** The accepted request that is waiting for its response under `id`. */
  function Open(log: seq<Obs>, id: RequestId): Option<nat> {
    if log == [] then None
    else
      var rest := log[..|log| - 1];
      match log[|log| - 1]
      case Accepted(i, x) => if x == id then Some(i) else Open(rest, id)
      case Ran(_) => Open(rest, id)
      case Line(to, _, _) => if to == Some(id) then None else Open(rest, id)
  }

  ghost predicate IsFinal(o: Obs, i: nat) { o.Line? && o.origin == Some(i) }

  ghost predicate CancelLine(o: Obs) { o.Line? && o.origin.Some? && o.code == CanceledByClient }

  /** The observation `o` is allowed after `log`. */
  ghost predicate Allowed(log: seq<Obs>, o: Obs) {
    match o
    case Accepted(i, id) =>
      && Open(log, id) == None
      && forall k | 0 <= k < |log| :: !(log[k].Accepted? && log[k].inst == i)
    case Ran(i) =>
      forall k | 0 <= k < |log| :: log[k] != Ran(i) && !(CancelLine(log[k]) && log[k].origin == Some(i))
    case Line(to, code, origin) =>
      && (to.None? ==> origin.None?)
      && (to.Some? ==> Open(log, to.value) == origin)
      && (origin.Some? && code == CanceledByClient ==>
            forall k | 0 <= k < |log| :: log[k] != Ran(origin.value))
  }

  ghost predicate Orderly(log: seq<Obs>) {
    log == [] || (Orderly(log[..|log| - 1]) && Allowed(log[..|log| - 1], log[|log| - 1]))
  }

  // ---------------------------------------------------------------------
  // The inductive invariant
  // ---------------------------------------------------------------------

  /** The coordinator's table names accepted requests by their own id. */
  ghost predicate PendingOk(insts: seq<Instance>, pending: map<RequestId, nat>) {
    forall id | id in pending :: pending[id] < |insts| && insts[pending[id]].id == id
  }

  /** A completion is only ever reported for a request whose cell is DONE. */
  ghost predicate EventsOk(insts: seq<Instance>, cells: seq<Flag>, events: seq<Event>)
    requires |cells| == |insts|
  {
    forall k | 0 <= k < |events| :: events[k].Completed? ==>
      && events[k].inst < |insts|
      && cells[events[k].inst] == DONE
      && (events[k].shutdown ==> insts[events[k].inst].op.Shutdown?)
  }

  ghost predicate JobOk(insts: seq<Instance>, cells: seq<Flag>, job: Job)
    requires |cells| == |insts|
  {
    && job.inst < |insts|
    && (insts[job.inst].op.WaitSync? <==> job.RegisterWait? || job.onTrigger)
    && (job.Dispatch? && !job.onTrigger ==> cells[job.inst] == COMPLETING)
  }

  ghost predicate JobsOk(insts: seq<Instance>, cells: seq<Flag>, jobs: seq<Job>)
    requires |cells| == |insts|
  {
    forall k | 0 <= k < |jobs| :: JobOk(insts, cells, jobs[k])
  }

  ghost predicate WorkerOk(insts: seq<Instance>, cells: seq<Flag>, worker: Worker, shutdownQueued: bool)
    requires |cells| == |insts|
  {
    match worker
    case Idle => true
    case Holding(job) => JobOk(insts, cells, job)
    case Subscribing(i) => i < |insts| && insts[i].op.WaitSync?
    case Running(i) => i < |insts| && cells[i] == COMPLETING
    case Replying(i, shutdown) =>
      i < |insts| && cells[i] == DONE && (shutdown ==> insts[i].op.Shutdown?)
    case Stopped => shutdownQueued
  }

  ghost predicate WaitersOk(insts: seq<Instance>, waiters: set<nat>) {
    forall i | i in waiters :: i < |insts| && insts[i].op.WaitSync?
  }

  /** Every reference to a request is to an accepted one in a fitting phase. */
  ghost predicate Shape(s: State) {
    && |s.cells| == |s.insts|
    && PendingOk(s.insts, s.pending)
    && EventsOk(s.insts, s.cells, s.events)
    && JobsOk(s.insts, s.cells, s.jobs)
    && WorkerOk(s.insts, s.cells, s.worker, s.shutdownQueued)
    && WaitersOk(s.insts, s.polling)
    && WaitersOk(s.insts, s.firing)
  }

  // ---------------------------------------------------------------------
  // The right to answer a request
  // ---------------------------------------------------------------------

  function EventTokens(events: seq<Event>): seq<nat> {
    if events == [] then []
    else (if events[0].Completed? then [events[0].inst] else []) + EventTokens(events[1..])
  }

  function WorkerTokens(w: Worker): seq<nat> {
    match w
    case Holding(Dispatch(i, onTrigger)) => if onTrigger then [] else [i]
    case Running(i) => [i]
    case Replying(i, _) => [i]
    case _ => []
  }

  function JobTokens(jobs: seq<Job>): seq<nat> {
    if jobs == [] then []
    else (if jobs[0].Dispatch? && !jobs[0].onTrigger then [jobs[0].inst] else []) + JobTokens(jobs[1..])
  }

  /** The requests on their way to an answer, the one that will be answered first in front. */
  function Pipe(s: State): seq<nat> {
    EventTokens(s.events) + WorkerTokens(s.worker) + JobTokens(s.jobs)
  }

  ghost predicate Distinct<T>(xs: seq<T>) {
    forall j, k | 0 <= j < k < |xs| :: xs[j] != xs[k]
  }

  ghost predicate Unanswered(insts: seq<Instance>, pending: map<RequestId, nat>, i: nat) {
    i < |insts| && insts[i].id in pending && pending[insts[i].id] == i
  }

  /** The right to answer a pending request is in exactly one place: its cell
      while PENDING, the pipe once the worker claimed it, or the coordinator
      once a cancellation won the cell. */
  ghost predicate Rights(insts: seq<Instance>, cells: seq<Flag>, pending: map<RequestId, nat>,
                         pipe: seq<nat>, won: seq<RequestId>)
    requires |cells| == |insts|
  {
    && (forall i | 0 <= i < |insts| && cells[i] == PENDING ::
          insts[i].op.WaitSync? && Unanswered(insts, pending, i))
    && (forall i | i in pipe ::
          Unanswered(insts, pending, i) && cells[i] in {COMPLETING, DONE})
    && (forall id | id in won ::
          id in pending && pending[id] < |insts| && cells[pending[id]] == CANCELED)
    && (forall i: nat | Unanswered(insts, pending, i) ::
          cells[i] == PENDING || i in pipe || insts[i].id in won)
    && Distinct(pipe)
    && Distinct(won)
  }

  /** The observations agree with the state. */
  ghost predicate Observed(insts: seq<Instance>, cells: seq<Flag>, pending: map<RequestId, nat>, log: seq<Obs>)
    requires |cells| == |insts|
  {
    && Orderly(log)
    && (forall id :: Open(log, id) == if id in pending then Some(pending[id]) else None)
    && (forall k | 0 <= k < |log| :: log[k].Accepted? ==> log[k].inst < |insts|)
    && (forall k | 0 <= k < |log| :: log[k].Ran? ==>
          log[k].inst < |insts| && cells[log[k].inst] == DONE)
    && (forall k | 0 <= k < |log| :: CancelLine(log[k]) ==>
          log[k].origin.value < |insts| && cells[log[k].origin.value] == CANCELED)
  }

  /** Shutdown is accepted last and is answered last. */
  ghost predicate ShutdownLast(insts: seq<Instance>, cells: seq<Flag>, shutdownQueued: bool, pipe: seq<nat>)
    requires |cells| == |insts|
  {
    && (forall i | 0 <= i < |insts| :: insts[i].op.Shutdown? ==> shutdownQueued && i == |insts| - 1)
    && (shutdownQueued ==>
          && (forall i | 0 <= i < |insts| :: cells[i] != PENDING)
          && (pipe != [] ==> pipe[|pipe| - 1] == |insts| - 1))
  }

  ghost predicate CoordinatorOk(cells: seq<Flag>, pending: map<RequestId, nat>, shutdownQueued: bool,
                                coordinator: Coordinator)
    requires forall id | id in pending :: pending[id] < |cells|
  {
    && |pending| <= MAX_PENDING_REQUESTS
    && match coordinator
       case Receiving => true
       case Scanning(todo, _, after) =>
         && (forall id | id in pending && id !in todo :: cells[pending[id]] != PENDING)
         && (after.QueueShutdown? ==>
               !shutdownQueued && after.id !in pending && |pending| < MAX_PENDING_REQUESTS)
       case Acknowledging(id) => id !in pending
       case Draining => pending == map[]
       case Exited(how, _) => how.ShutdownComplete? || how.InputExhausted? ==> pending == map[]
  }

  ghost predicate Inv(s: State) {
    && Shape(s)
    && Rights(s.insts, s.cells, s.pending, Pipe(s), Won(s.coordinator))
    && Observed(s.insts, s.cells, s.pending, s.log)
    && ShutdownLast(s.insts, s.cells, s.shutdownQueued, Pipe(s))
    && CoordinatorOk(s.cells, s.pending, s.shutdownQueued, s.coordinator)
  }

  lemma EventTokensPush(events: seq<Event>, e: Event)
    ensures EventTokens(events + [e]) == EventTokens(events) + EventTokens([e])
  {
    if events != [] {
      EventTokensPush(events[1..], e);
      assert (events + [e])[1..] == events[1..] + [e];
    }
  }

  lemma JobTokensPush(jobs: seq<Job>, job: Job)
    ensures JobTokens(jobs + [job]) == JobTokens(jobs) + JobTokens([job])
  {
    if jobs != [] {
      JobTokensPush(jobs[1..], job);
      assert (jobs + [job])[1..] == jobs[1..] + [job];
    }
  }

  /** One more observation that the state allows keeps the record in order. */
  lemma Observe(insts: seq<Instance>, cells: seq<Flag>, log: seq<Obs>, o: Obs,
                pending: map<RequestId, nat>, pending': map<RequestId, nat>)
    requires |cells| == |insts|
    requires Observed(insts, cells, pending, log) && Allowed(log, o)
    requires o.Accepted? ==> o.inst < |insts| && pending' == pending[o.id := o.inst]
    requires o.Ran? ==> o.inst < |insts| && cells[o.inst] == DONE && pending' == pending
    requires o.Line? ==> pending' == if o.to.Some? then pending - {o.to.value} else pending
    requires CancelLine(o) ==> o.origin.value < |insts| && cells[o.origin.value] == CANCELED
    ensures Observed(insts, cells, pending', log + [o])
  {
    assert (log + [o])[..|log|] == log;
    forall id ensures Open(log + [o], id) == if id in pending' then Some(pending'[id]) else None {
      assert Open(log, id) == if id in pending then Some(pending[id]) else None;
    }
  }

  // ---------------------------------------------------------------------
  // How the right moves
  // ---------------------------------------------------------------------

  lemma DistinctInsert(before: seq<nat>, behind: seq<nat>, i: nat)
    requires Distinct(before + behind) && i !in before + behind
    ensures Distinct(before + [i] + behind)
  {
    var xs, ys, n := before + behind, before + [i] + behind, |before|;
    forall j, k | 0 <= j < k < |ys| ensures ys[j] != ys[k] {
      assert ys[j] == if j < n then xs[j] else if j == n then i else xs[j - 1];
      assert ys[k] == if k < n then xs[k] else if k == n then i else xs[k - 1];
    }
  }

  /** The worker's compare-and-exchange takes the right out of a PENDING cell. */
  lemma RightsClaim(insts: seq<Instance>, cells: seq<Flag>, pending: map<RequestId, nat>,
                    before: seq<nat>, behind: seq<nat>, won: seq<RequestId>, i: nat, flag: Flag)
    requires |cells| == |insts| && i < |insts| && cells[i] == PENDING && flag in {COMPLETING, DONE}
    requires Rights(insts, cells, pending, before + behind, won)
    ensures Rights(insts, cells[i := flag], pending, before + [i] + behind, won)
  {
    var pipe, pipe' := before + behind, before + [i] + behind;
    assert forall j :: j in pipe' <==> j == i || j in pipe;
    assert i !in pipe;
    DistinctInsert(before, behind, i);
  }

  /** The worker stores DONE over COMPLETING. */
  lemma RightsDone(insts: seq<Instance>, cells: seq<Flag>, pending: map<RequestId, nat>,
                   pipe: seq<nat>, won: seq<RequestId>, i: nat)
    requires |cells| == |insts| && i < |insts| && cells[i] == COMPLETING
    requires Rights(insts, cells, pending, pipe, won)
    ensures Rights(insts, cells[i := DONE], pending, pipe, won)
  {
  }

  /** The front of the pipe is answered. */
  lemma RightsAnswer(insts: seq<Instance>, cells: seq<Flag>, pending: map<RequestId, nat>,
                     pipe: seq<nat>, won: seq<RequestId>)
    requires |cells| == |insts| && pipe != [] && pipe[0] < |insts|
    requires PendingOk(insts, pending) && Rights(insts, cells, pending, pipe, won)
    ensures Rights(insts, cells, pending - {insts[pipe[0]].id}, pipe[1..], won)
  {
    var i, pending' := pipe[0], pending - {insts[pipe[0]].id};
    assert i in pipe;
    assert forall j :: j in pipe <==> j == i || j in pipe[1..];
    assert forall j | 0 <= j < |insts| :: Unanswered(insts, pending', j) <==> Unanswered(insts, pending, j) && j != i;
  }

  /** A cancellation wins a PENDING cell; the answer is still to be written. */
  lemma RightsWin(insts: seq<Instance>, cells: seq<Flag>, pending: map<RequestId, nat>,
                  pipe: seq<nat>, won: seq<RequestId>, id: RequestId)
    requires |cells| == |insts| && PendingOk(insts, pending)
    requires id in pending && cells[pending[id]] == PENDING
    requires Rights(insts, cells, pending, pipe, won)
    ensures Rights(insts, cells[pending[id] := CANCELED], pending, pipe, won + [id])
  {
    assert id !in won;
    assert pending[id] !in pipe;
    assert forall x :: x in won + [id] <==> x == id || x in won;
    forall x | x in won ensures pending[x] != pending[id] {}
  }

  /** The answer to a canceled request is written. */
  lemma RightsCanceled(insts: seq<Instance>, cells: seq<Flag>, pending: map<RequestId, nat>,
                       pipe: seq<nat>, won: seq<RequestId>)
    requires |cells| == |insts| && won != [] && PendingOk(insts, pending)
    requires Rights(insts, cells, pending, pipe, won)
    ensures won[0] in pending
    ensures Rights(insts, cells, pending - {won[0]}, pipe, won[1..])
  {
    var id := won[0];
    assert id in won;
    var i, pending' := pending[id], pending - {id};
    assert forall x :: x in won <==> x == id || x in won[1..];
    assert forall j | 0 <= j < |insts| :: Unanswered(insts, pending', j) <==> Unanswered(insts, pending, j) && j != i;
  }

  /** A new request starts with the right in its cell or at the end of the pipe. */
  lemma RightsAccept(insts: seq<Instance>, cells: seq<Flag>, pending: map<RequestId, nat>,
                     pipe: seq<nat>, won: seq<RequestId>, inst: Instance)
    requires |cells| == |insts| && PendingOk(insts, pending) && inst.id !in pending
    requires Rights(insts, cells, pending, pipe, won)
    ensures Rights(insts + [inst], cells + [if inst.op.WaitSync? then PENDING else COMPLETING],
                   pending[inst.id := |insts|],
                   if inst.op.WaitSync? then pipe else pipe + [|insts|], won)
  {
    var insts', pending' := insts + [inst], pending[inst.id := |insts|];
    assert forall j :: j in pipe + [|insts|] <==> j == |insts| || j in pipe;
    assert forall j | 0 <= j < |insts| :: Unanswered(insts', pending', j) <==> Unanswered(insts, pending, j);
    assert Unanswered(insts', pending', |insts|);
    assert |insts| !in pipe;
    assert pipe + [] == pipe && pipe + [|insts|] + [] == pipe + [|insts|];
    DistinctInsert(pipe, [], |insts|);
  }

  /** A cell that nobody has answered from may change. */
  lemma ObservedCell(insts: seq<Instance>, cells: seq<Flag>, pending: map<RequestId, nat>, log: seq<Obs>,
                     i: nat, flag: Flag)
    requires |cells| == |insts| && i < |insts| && cells[i] in {PENDING, COMPLETING}
    requires Observed(insts, cells, pending, log)
    ensures Observed(insts, cells[i := flag], pending, log)
  {
  }

  /** A line that is nobody's final response, under no pending id. */
  lemma ObserveReply(insts: seq<Instance>, cells: seq<Flag>, pending: map<RequestId, nat>, log: seq<Obs>,
                     to: Option<RequestId>, code: Code)
    requires |cells| == |insts| && Observed(insts, cells, pending, log)
    requires to.Some? ==> to.value !in pending
    ensures Observed(insts, cells, pending, log + [Line(to, code, None)])
  {
    assert to.Some? ==> pending - {to.value} == pending;
    Observe(insts, cells, log, Line(to, code, None), pending, pending);
  }

  /** The final response of a pending request. */
  lemma ObserveFinal(insts: seq<Instance>, cells: seq<Flag>, pending: map<RequestId, nat>, log: seq<Obs>,
                     id: RequestId, code: Code)
    requires |cells| == |insts| && Observed(insts, cells, pending, log)
    requires id in pending && pending[id] < |insts|
    requires code == CanceledByClient ==> cells[pending[id]] == CANCELED
    ensures Observed(insts, cells, pending - {id}, log + [Line(Some(id), code, Some(pending[id]))])
  {
    Observe(insts, cells, log, Line(Some(id), code, Some(pending[id])), pending, pending - {id});
  }

  lemma ObserveAccept(insts: seq<Instance>, cells: seq<Flag>, pending: map<RequestId, nat>, log: seq<Obs>,
                      inst: Instance, flag: Flag)
    requires |cells| == |insts| && Observed(insts, cells, pending, log) && inst.id !in pending
    ensures Observed(insts + [inst], cells + [flag], pending[inst.id := |insts|], log + [Accepted(|insts|, inst.id)])
  {
    assert Observed(insts + [inst], cells + [flag], pending, log);
    Observe(insts + [inst], cells + [flag], log, Accepted(|insts|, inst.id), pending, pending[inst.id := |insts|]);
  }

  lemma ObserveRun(insts: seq<Instance>, cells: seq<Flag>, pending: map<RequestId, nat>, log: seq<Obs>, i: nat)
    requires |cells| == |insts| && i < |insts| && cells[i] == COMPLETING
    requires Observed(insts, cells, pending, log)
    ensures Observed(insts, cells[i := DONE], pending, log + [Ran(i)])
  {
    ObservedCell(insts, cells, pending, log, i, DONE);
    Observe(insts, cells[i := DONE], log, Ran(i), pending, pending);
  }

  // ---------------------------------------------------------------------
  // Every action keeps the invariant
  // ---------------------------------------------------------------------

  /** No queued work depends on a cell being PENDING. */
  lemma ShapeCell(s: State, i: nat, flag: Flag)
    requires Shape(s) && i < |s.cells| && s.cells[i] == PENDING
    ensures EventsOk(s.insts, s.cells[i := flag], s.events)
    ensures JobsOk(s.insts, s.cells[i := flag], s.jobs)
    ensures WorkerOk(s.insts, s.cells[i := flag], s.worker, s.shutdownQueued)
  {
  }

  lemma ShapePop(s: State)
    requires Shape(s) && s.events != []
    ensures EventsOk(s.insts, s.cells, s.events[1..])
  {
  }

  lemma ReaderSendKeeps(s: State, e: Event)
    requires Inv(s)
    ensures Inv(ReaderSend(s, e))
  {
    hide Observed, Rights, ShutdownLast;
    EventTokensPush(s.events, e);
    assert !e.Completed? ==> Pipe(ReaderSend(s, e)) == Pipe(s);
  }

  lemma PollKeeps(s: State, i: nat)
    requires Inv(s)
    ensures Inv(Poll(s, i))
  {
    hide Observed, Rights, ShutdownLast, CoordinatorOk, EventTokens, JobTokens;
    assert Pipe(Poll(s, i)) == Pipe(s);
  }

  lemma FireKeeps(s: State, i: nat)
    requires Inv(s)
    ensures Inv(Fire(s, i))
  {
    hide Observed, Rights, ShutdownLast;
    JobTokensPush(s.jobs, Dispatch(i, true));
    assert Pipe(Fire(s, i)) == Pipe(s);
  }

  /** The worker moves on without touching a cell or a queue. */
  lemma WorkerTurnKeeps(s: State, worker: Worker)
    requires Inv(s) && WorkerTokens(worker) == WorkerTokens(s.worker)
    requires WorkerOk(s.insts, s.cells, worker, s.shutdownQueued)
    ensures Inv(s.(worker := worker))
  {
    hide Observed, Rights, ShutdownLast, CoordinatorOk, EventTokens, JobTokens;
    assert Pipe(s.(worker := worker)) == Pipe(s);
  }

  lemma TakeJobKeeps(s: State)
    requires Inv(s) && s.worker.Idle? && s.jobs != []
    ensures Inv(TakeJob(s))
  {
    hide Observed, Rights, ShutdownLast, CoordinatorOk, EventTokens;
    assert Pipe(TakeJob(s)) == Pipe(s);
  }

  /** A PENDING cell that the worker claims, with the right in the worker's hands. */
  lemma ClaimKeeps(s: State, i: nat, flag: Flag, worker: Worker)
    requires Inv(s) && i < |s.insts| && s.cells[i] == PENDING && WorkerTokens(s.worker) == []
    requires (flag == COMPLETING && worker == Running(i)) || (flag == DONE && worker == Replying(i, false))
    ensures Inv(Claim(s, i, flag, worker))
  {
    hide Observed, Rights, EventTokens, JobTokens;
    assert Pipe(s) == EventTokens(s.events) + JobTokens(s.jobs);
    assert Pipe(Claim(s, i, flag, worker)) == EventTokens(s.events) + [i] + JobTokens(s.jobs);
    RightsClaim(s.insts, s.cells, s.pending, EventTokens(s.events), JobTokens(s.jobs), Won(s.coordinator), i, flag);
    ObservedCell(s.insts, s.cells, s.pending, s.log, i, flag);
  }

  /** A request in the worker's hands is not queued a second time. */
  lemma NotQueued(s: State, k: nat)
    requires Distinct(Pipe(s)) && k < |s.jobs| && s.jobs[k].Dispatch? && !s.jobs[k].onTrigger
    ensures s.jobs[k].inst !in WorkerTokens(s.worker)
  {
    JobTokenOf(s.jobs, k);
    var e, w := |EventTokens(s.events)|, |WorkerTokens(s.worker)|;
    var j :| 0 <= j < |JobTokens(s.jobs)| && JobTokens(s.jobs)[j] == s.jobs[k].inst;
    assert Pipe(s)[e + w + j] == s.jobs[k].inst;
    assert forall x | x in WorkerTokens(s.worker) :: x == Pipe(s)[e] && w == 1;
  }

  lemma JobTokenOf(jobs: seq<Job>, k: nat)
    requires k < |jobs| && jobs[k].Dispatch? && !jobs[k].onTrigger
    ensures jobs[k].inst in JobTokens(jobs)
  {
    if k > 0 { JobTokenOf(jobs[1..], k - 1); }
  }

  lemma QueuedUntouched(s: State, i: nat)
    requires Shape(s) && Distinct(Pipe(s)) && s.worker == Running(i)
    ensures JobsOk(s.insts, s.cells[i := DONE], s.jobs)
  {
    forall k | 0 <= k < |s.jobs| ensures JobOk(s.insts, s.cells[i := DONE], s.jobs[k]) {
      if s.jobs[k].Dispatch? && !s.jobs[k].onTrigger { NotQueued(s, k); }
    }
  }

  lemma PipeDistinct(s: State)
    requires Inv(s)
    ensures Distinct(Pipe(s))
  {
  }

  lemma CoordinatorDone(cells: seq<Flag>, pending: map<RequestId, nat>, shutdownQueued: bool,
                        coordinator: Coordinator, i: nat)
    requires (forall id | id in pending :: pending[id] < |cells|) && i < |cells|
    requires CoordinatorOk(cells, pending, shutdownQueued, coordinator)
    ensures CoordinatorOk(cells[i := DONE], pending, shutdownQueued, coordinator)
  {
  }

  lemma ExecuteKeeps(s: State, i: nat, shutdown: bool)
    requires Inv(s) && s.worker == Running(i) && (shutdown ==> s.insts[i].op.Shutdown?)
    ensures Inv(Execute(s, i, shutdown))
  {
    hide EventTokens, JobTokens, Observed, JobsOk, Rights, CoordinatorOk;
    PipeDistinct(s);
    CoordinatorDone(s.cells, s.pending, s.shutdownQueued, s.coordinator, i);
    var t := Execute(s, i, shutdown);
    assert Pipe(t) == Pipe(s);
    QueuedUntouched(s, i);
    RightsDone(s.insts, s.cells, s.pending, Pipe(s), Won(s.coordinator), i);
    ObserveRun(s.insts, s.cells, s.pending, s.log, i);
  }

  lemma ReportKeeps(s: State, i: nat, shutdown: bool)
    requires Inv(s) && s.worker == Replying(i, shutdown)
    ensures Inv(Report(s, i, shutdown))
  {
    hide Observed, Rights, CoordinatorOk, JobTokens;
    EventTokensPush(s.events, Completed(i, shutdown));
    assert Pipe(Report(s, i, shutdown)) == Pipe(s);
  }

  lemma WorkKeeps(s: State, choice: bool)
    requires Inv(s)
    ensures Inv(Work(s, choice))
  {
    hide Observed, Rights, ShutdownLast, CoordinatorOk, EventTokens, JobTokens;
    match s.worker
    case Idle => if s.jobs != [] { TakeJobKeeps(s); }
    case Holding(Dispatch(i, onTrigger)) =>
      if onTrigger && s.cells[i] == PENDING { ClaimKeeps(s, i, COMPLETING, Running(i)); }
      else { WorkerTurnKeeps(s, if onTrigger then Idle else Running(i)); }
    case Holding(RegisterWait(i)) => WorkerTurnKeeps(s, if s.cells[i] == PENDING then Subscribing(i) else Idle);
    case Subscribing(i) =>
      if choice { WorkerTurnKeeps(s.(polling := s.polling + {i}), Idle); }
      else if s.cells[i] == PENDING { ClaimKeeps(s, i, DONE, Replying(i, false)); }
      else { WorkerTurnKeeps(s, Idle); }
    case Running(i) => ExecuteKeeps(s, i, choice && s.insts[i].op.Shutdown?);
    case Replying(i, shutdown) => ReportKeeps(s, i, shutdown);
    case Stopped =>
  }

  /** The coordinator changes its place in the loop and nothing else. */
  lemma CoordinatorTurnKeeps(s: State, c: Coordinator)
    requires Inv(s) && Won(c) == Won(s.coordinator)
    requires CoordinatorOk(s.cells, s.pending, s.shutdownQueued, c)
    ensures Inv(s.(coordinator := c))
  {
    hide Observed, Rights, ShutdownLast, EventTokens, JobTokens, CoordinatorOk;
    assert Pipe(s.(coordinator := c)) == Pipe(s);
  }

  lemma ReplyKeeps(s: State, to: Option<RequestId>, code: Code)
    requires Inv(s) && (to.Some? ==> to.value !in s.pending)
    ensures Inv(Write(s, to, code, None))
  {
    hide Observed, Rights, ShutdownLast, EventTokens, JobTokens, CoordinatorOk;
    assert Pipe(Write(s, to, code, None)) == Pipe(s);
    ObserveReply(s.insts, s.cells, s.pending, s.log, to, code);
  }

  lemma PopKeeps(s: State)
    requires Inv(s) && s.events != [] && !s.events[0].Completed?
    ensures Inv(s.(events := s.events[1..]))
  {
    hide Observed, Rights, ShutdownLast, JobTokens, CoordinatorOk;
    assert Pipe(s.(events := s.events[1..])) == Pipe(s);
  }

  lemma AcceptShape(s: State, id: RequestId, op: Operation)
    requires Shape(s) && !s.shutdownQueued
    ensures !s.worker.Stopped? && Shape(Accept(s.(shutdownQueued := op.Shutdown?), id, op))
  {
  }

  lemma AcceptShutdownLast(insts: seq<Instance>, cells: seq<Flag>, pipe: seq<nat>, inst: Instance)
    requires |cells| == |insts| && ShutdownLast(insts, cells, false, pipe)
    requires inst.op.Shutdown? ==> forall i | 0 <= i < |insts| :: cells[i] != PENDING
    ensures ShutdownLast(insts + [inst], cells + [if inst.op.WaitSync? then PENDING else COMPLETING], inst.op.Shutdown?,
                         if inst.op.WaitSync? then pipe else pipe + [|insts|])
  {
  }

  lemma AcceptKeeps(s: State, id: RequestId, op: Operation)
    requires Inv(s) && !s.shutdownQueued && Won(s.coordinator) == []
    requires id !in s.pending && |s.pending| < MAX_PENDING_REQUESTS
    requires op.Shutdown? ==> forall i | 0 <= i < |s.insts| :: s.cells[i] != PENDING
    ensures Inv(Accept(s.(shutdownQueued := op.Shutdown?), id, op))
  {
    hide Observed, Rights, EventTokens, JobTokens, ShutdownLast, JobsOk, EventsOk, WorkerOk, WaitersOk;
    var job := if op.WaitSync? then RegisterWait(|s.insts|) else Dispatch(|s.insts|, false);
    var t := Accept(s.(shutdownQueued := op.Shutdown?), id, op);
    AcceptShape(s, id, op);
    JobTokensPush(s.jobs, job);
    JobTokensOne(job);
    assert Pipe(t) == if op.WaitSync? then Pipe(s) else Pipe(s) + [|s.insts|];
    AcceptShutdownLast(s.insts, s.cells, Pipe(s), Instance(id, op));
    RightsAccept(s.insts, s.cells, s.pending, Pipe(s), [], Instance(id, op));
    ObserveAccept(s.insts, s.cells, s.pending, s.log, Instance(id, op), if op.WaitSync? then PENDING else COMPLETING);
  }

  lemma JobTokensOne(job: Job)
    ensures JobTokens([job]) == if job.Dispatch? && !job.onTrigger then [job.inst] else []
  {
  }

  /** When the completed shutdown is at the front of the pipe it is all there is. */
  lemma ShutdownIsAlone(insts: seq<Instance>, cells: seq<Flag>, pending: map<RequestId, nat>, queued: bool,
                        pipe: seq<nat>)
    requires |cells| == |insts| && PendingOk(insts, pending)
    requires Rights(insts, cells, pending, pipe, []) && ShutdownLast(insts, cells, queued, pipe)
    requires pipe != [] && pipe[0] < |insts| && insts[pipe[0]].op.Shutdown?
    ensures pending - {insts[pipe[0]].id} == map[]
  {
    assert |pipe| == 1;
    forall id | id in pending ensures id == insts[pipe[0]].id {
      assert Unanswered(insts, pending, pending[id]);
    }
  }

  lemma FrontIsPending(insts: seq<Instance>, cells: seq<Flag>, pending: map<RequestId, nat>, pipe: seq<nat>,
                       won: seq<RequestId>)
    requires |cells| == |insts| && Rights(insts, cells, pending, pipe, won) && pipe != []
    ensures Unanswered(insts, pending, pipe[0])
  {
    assert pipe[0] in pipe;
  }

  lemma AnswerKeeps(s: State, i: nat, id: RequestId)
    requires Inv(s) && s.coordinator.Receiving? && s.events != [] && s.events[0].Completed?
    requires i == s.events[0].inst && id == s.insts[i].id
    ensures Unanswered(s.insts, s.pending, i)
    ensures Pipe(s) != [] && Pipe(s)[0] == i
    ensures Inv(Write(s.(events := s.events[1..], pending := s.pending - {id}), Some(id), Answer, Some(i)))
  {
    hide Observed, Rights, EventTokens, JobTokens, JobsOk, WorkerOk, WaitersOk, PendingOk, ShutdownLast;
    var t := Write(s.(events := s.events[1..], pending := s.pending - {id}), Some(id), Answer, Some(i));
    EventTokensPop(s.events);
    assert Pipe(s) == [i] + Pipe(t);
    FrontIsPending(s.insts, s.cells, s.pending, Pipe(s), []);
    ShapePop(s);
    RightsAnswer(s.insts, s.cells, s.pending, Pipe(s), []);
    ShutdownLastPop(s.insts, s.cells, s.shutdownQueued, Pipe(s));
    ObserveFinal(s.insts, s.cells, s.pending, s.log, id, Answer);
    PendingWithout(s.insts, s.pending, id);
  }

  lemma CompletedKeeps(s: State)
    requires Inv(s) && s.coordinator.Receiving? && s.events != [] && s.events[0].Completed?
    ensures Inv(Receive(s))
  {
    hide Observed, Rights, Pipe, JobsOk, WorkerOk, WaitersOk, ShutdownLast;
    var i, shutdown := s.events[0].inst, s.events[0].shutdown;
    var id := s.insts[i].id;
    AnswerKeeps(s, i, id);
    var t := Write(s.(events := s.events[1..], pending := s.pending - {id}), Some(id), Answer, Some(i));
    if shutdown {
      ShutdownIsAlone(s.insts, s.cells, s.pending, s.shutdownQueued, Pipe(s));
      CoordinatorTurnKeeps(t, Draining);
    } else if t.inputClosed && t.pending == map[] {
      CoordinatorTurnKeeps(t, Exited(InputExhausted, []));
    }
  }

  lemma ShutdownLastPop(insts: seq<Instance>, cells: seq<Flag>, queued: bool, pipe: seq<nat>)
    requires |cells| == |insts| && pipe != [] && ShutdownLast(insts, cells, queued, pipe)
    ensures ShutdownLast(insts, cells, queued, pipe[1..])
  {
  }

  lemma EventTokensPop(events: seq<Event>)
    requires events != [] && events[0].Completed?
    ensures EventTokens(events) == [events[0].inst] + EventTokens(events[1..])
  {
  }

  lemma PendingWithout(insts: seq<Instance>, pending: map<RequestId, nat>, id: RequestId)
    requires PendingOk(insts, pending)
    ensures PendingOk(insts, pending - {id}) && |pending - {id}| <= |pending|
  {
    assert (pending - {id}).Keys == pending.Keys - {id};
    assert |pending.Keys - {id}| <= |pending.Keys|;
  }

  /** The compare-and-exchange of a cancellation succeeds. */
  lemma CancelKeeps(s: State, id: RequestId, target: RequestId)
    requires Inv(s) && s.coordinator.Receiving? && id !in s.pending && target != id && Cancelable(s, target)
    ensures Inv(HandleCancel(s, id, Some(target)))
  {
    hide Observed, Rights, EventTokens, JobTokens, EventsOk, JobsOk, WorkerOk, WaitersOk;
    var i, t := s.pending[target], HandleCancel(s, id, Some(target));
    assert Pipe(t) == Pipe(s);
    RightsWin(s.insts, s.cells, s.pending, Pipe(s), [], target);
    assert [] + [target] == [target];
    RightsCanceled(s.insts, t.cells, s.pending, Pipe(s), [target]);
    assert [target][1..] == [];
    ObservedCell(s.insts, s.cells, s.pending, s.log, i, CANCELED);
    ObserveFinal(s.insts, t.cells, s.pending, s.log, target, CanceledByClient);
    PendingWithout(s.insts, s.pending, target);
    ShapeCell(s, i, CANCELED);
  }

  lemma OnlyWaitsPend(insts: seq<Instance>, cells: seq<Flag>, pending: map<RequestId, nat>, pipe: seq<nat>,
                      won: seq<RequestId>)
    requires |cells| == |insts| && Rights(insts, cells, pending, pipe, won)
    ensures forall i | 0 <= i < |insts| && cells[i] == PENDING :: insts[i].op.WaitSync?
  {
  }

  lemma ScanKeeps(s: State, id: RequestId)
    requires Inv(s)
    ensures Inv(Scan(s, id))
  {
    hide Observed, Rights, EventTokens, JobTokens, EventsOk, JobsOk, WorkerOk, WaitersOk;
    assert Pipe(Scan(s, id)) == Pipe(s);
    OnlyWaitsPend(s.insts, s.cells, s.pending, Pipe(s), Won(s.coordinator));
    if s.coordinator.Scanning? && id in s.coordinator.todo && Cancelable(s, id) {
      RightsWin(s.insts, s.cells, s.pending, Pipe(s), s.coordinator.won, id);
      ObservedCell(s.insts, s.cells, s.pending, s.log, s.pending[id], CANCELED);
      ShapeCell(s, s.pending[id], CANCELED);
    }
  }

  /** The next canceled request is answered. */
  lemma CanceledKeeps(s: State)
    requires Inv(s) && s.coordinator.Scanning? && s.coordinator.todo == {} && s.coordinator.won != []
    ensures Inv(Continue(s))
  {
    hide Observed, Rights, EventTokens, JobTokens, EventsOk, JobsOk, WorkerOk, WaitersOk, ShutdownLast;
    var won := s.coordinator.won;
    RightsCanceled(s.insts, s.cells, s.pending, Pipe(s), won);
    assert Pipe(Continue(s)) == Pipe(s);
    WonIsCanceled(s.insts, s.cells, s.pending, Pipe(s), won);
    ObserveFinal(s.insts, s.cells, s.pending, s.log, won[0], CanceledByClient);
    PendingWithout(s.insts, s.pending, won[0]);
  }

  lemma WonIsCanceled(insts: seq<Instance>, cells: seq<Flag>, pending: map<RequestId, nat>, pipe: seq<nat>,
                      won: seq<RequestId>)
    requires |cells| == |insts| && Rights(insts, cells, pending, pipe, won) && won != []
    ensures won[0] in pending && pending[won[0]] < |insts| && cells[pending[won[0]]] == CANCELED
  {
    assert won[0] in won;
  }

  lemma AllScanned(insts: seq<Instance>, cells: seq<Flag>, pending: map<RequestId, nat>, pipe: seq<nat>)
    requires |cells| == |insts| && Rights(insts, cells, pending, pipe, []) && PendingOk(insts, pending)
    requires forall id | id in pending :: cells[pending[id]] != PENDING
    ensures forall i | 0 <= i < |insts| :: cells[i] != PENDING
  {
    assert forall i: nat | Unanswered(insts, pending, i) :: cells[pending[insts[i].id]] != PENDING;
  }

  lemma ShutdownKeeps(s: State)
    requires Inv(s) && s.coordinator.Scanning? && s.coordinator.todo == {} && s.coordinator.won == []
    requires s.coordinator.after.QueueShutdown?
    ensures Inv(Continue(s))
  {
    hide Observed, Rights, ShutdownLast, EventTokens, JobTokens, EventsOk, JobsOk, WorkerOk, WaitersOk;
    AllScanned(s.insts, s.cells, s.pending, Pipe(s));
    AcceptKeeps(s, s.coordinator.after.id, Shutdown);
  }

  lemma ContinueKeeps(s: State)
    requires Inv(s)
    ensures Inv(Continue(s))
  {
    hide Observed, Rights, ShutdownLast, EventTokens, JobTokens, EventsOk, JobsOk, WorkerOk, WaitersOk;
    match s.coordinator
    case Acknowledging(id) =>
      CoordinatorTurnKeeps(s, Receiving);
      ReplyKeeps(s.(coordinator := Receiving), Some(id), CancelResult(true));
    case Scanning(todo, won, after) =>
      if todo == {} {
        if won != [] { CanceledKeeps(s); }
        else if after.QueueShutdown? { ShutdownKeeps(s); }
        else { CoordinatorTurnKeeps(s, if s.pending == map[] then Exited(InputExhausted, []) else Receiving); }
      }
    case Draining =>
      CoordinatorTurnKeeps(s, if s.pending == map[] then Exited(ShutdownComplete, []) else s.coordinator);
    case _ =>
  }

  lemma HandleCancelKeeps(s: State, id: RequestId, target: Option<RequestId>)
    requires Inv(s) && s.coordinator.Receiving?
    ensures Inv(HandleCancel(s, id, target))
  {
    hide Observed, Rights, ShutdownLast, EventTokens, JobTokens, EventsOk, JobsOk, WorkerOk, WaitersOk;
    if id in s.pending { ReplyKeeps(s, None, DuplicateRequestId); }
    else if target.None? || target.value == id { ReplyKeeps(s, Some(id), InvalidRequest); }
    else if Cancelable(s, target.value) { CancelKeeps(s, id, target.value); }
    else { ReplyKeeps(s, Some(id), CancelResult(false)); }
  }

  lemma RequestKeeps(s: State, id: RequestId, op: Operation)
    requires Inv(s) && s.coordinator.Receiving? && !s.shutdownQueued
    ensures Inv(HandleFrame(s, Request(id, op)))
  {
    hide Observed, Rights, ShutdownLast, EventTokens, JobTokens, EventsOk, JobsOk, WorkerOk, WaitersOk;
    if id in s.pending { ReplyKeeps(s, None, DuplicateRequestId); }
    else if |s.pending| >= MAX_PENDING_REQUESTS { ReplyKeeps(s, Some(id), TooManyPending); }
    else if op.Shutdown? { CoordinatorTurnKeeps(s, Scanning(s.pending.Keys, [], QueueShutdown(id))); }
    else if op == WaitSync(false) { ReplyKeeps(s, Some(id), InvalidRequest); }
    else {
      AcceptKeeps(s, id, op);
      assert s.(shutdownQueued := false) == s;
    }
  }

  lemma HandleFrameKeeps(s: State, f: Frame)
    requires Inv(s) && s.coordinator.Receiving?
    ensures Inv(HandleFrame(s, f))
  {
    hide Observed, Rights, ShutdownLast, EventTokens, JobTokens, EventsOk, JobsOk, WorkerOk, WaitersOk;
    if s.shutdownQueued {
      var id := ParsedId(f);
      if id.Some? && id.value in s.pending { ReplyKeeps(s, None, DuplicateRequestId); }
      else { ReplyKeeps(s, id, InvalidState); }
    } else {
      match f
      case Malformed(parsed) => ReplyKeeps(s, Unclaimed(s, parsed), InvalidRequest);
      case Cancel(id, target) => HandleCancelKeeps(s, id, target);
      case Request(id, op) => RequestKeeps(s, id, op);
    }
  }

  lemma ReceiveKeeps(s: State)
    requires Inv(s)
    ensures Inv(Receive(s))
  {
    hide Observed, Rights, ShutdownLast, EventTokens, JobTokens, EventsOk, JobsOk, WorkerOk, WaitersOk;
    if s.coordinator.Receiving? && s.events != [] {
      if s.events[0].Completed? { CompletedKeeps(s); }
      else {
        PopKeeps(s);
        var t := s.(events := s.events[1..]);
        match s.events[0]
        case FrameRead(f) => HandleFrameKeeps(t, f);
        case FrameTooLarge =>
          ReplyKeeps(t, None, TooLarge);
          CoordinatorTurnKeeps(Write(t, None, TooLarge, None), Exited(OversizedFrame, []));
        case InputClosed =>
          InputClosedKeeps(t);
        case ReadError => CoordinatorTurnKeeps(t, Exited(Failed, []));
      }
    }
  }

  lemma InputClosedKeeps(s: State)
    requires Inv(s) && s.coordinator.Receiving?
    ensures Inv(s.(inputClosed := true, coordinator := Scanning(s.pending.Keys, [], CloseInput)))
  {
    hide Observed, Rights, ShutdownLast, EventTokens, JobTokens, EventsOk, JobsOk, WorkerOk, WaitersOk;
    CoordinatorTurnKeeps(s, Scanning(s.pending.Keys, [], CloseInput));
    var t := s.(inputClosed := true, coordinator := Scanning(s.pending.Keys, [], CloseInput));
    assert Pipe(t) == Pipe(s);
  }

  /** Whatever thread moves, the invariant holds afterwards. */
  lemma NextKeeps(s: State, a: Action)
    requires Inv(s)
    ensures Inv(Next(s, a))
  {
    hide Observed, Rights, ShutdownLast, EventTokens, JobTokens, EventsOk, JobsOk, WorkerOk, WaitersOk;
    match a
    case ReaderSends(e) => ReaderSendKeeps(s, e);
    case CoordinatorReceives => ReceiveKeeps(s);
    case CoordinatorScans(id) => ScanKeeps(s, id);
    case CoordinatorContinues => ContinueKeeps(s);
    case CoordinatorDrains(id) =>
    case WriteFails =>
      if !s.coordinator.Exited? { CoordinatorTurnKeeps(s, Exited(Failed, Won(s.coordinator))); }
    case WorkerMoves(b) => WorkKeeps(s, b);
    case WaiterPolls(i) => PollKeeps(s, i);
    case WaiterFires(i) => FireKeeps(s, i);
  }

  // ---------------------------------------------------------------------
  // Whole runs
  // ---------------------------------------------------------------------

  /** The state after any interleaving of the threads. */
  ghost function Run(schedule: seq<Action>): (s: State)
    ensures Inv(s)
  {
    if schedule == [] then InitInv(); Init()
    else
      var s := Run(schedule[..|schedule| - 1]);
      NextKeeps(s, schedule[|schedule| - 1]);
      Next(s, schedule[|schedule| - 1])
  }

  lemma InitInv()
    ensures Inv(Init())
  {
  }

  lemma OrderlyPrefix(log: seq<Obs>, k: nat)
    requires Orderly(log) && k < |log|
    ensures Orderly(log[..k]) && Allowed(log[..k], log[k])
    decreases |log|
  {
    if k < |log| - 1 {
      OrderlyPrefix(log[..|log| - 1], k);
      assert log[..|log| - 1][..k] == log[..k];
    }
  }

  lemma OpenStep(log: seq<Obs>, k: nat, id: RequestId)
    requires k < |log|
    ensures Open(log[..k + 1], id) ==
      match log[k]
      case Accepted(i, x) => if x == id then Some(i) else Open(log[..k], id)
      case Ran(_) => Open(log[..k], id)
      case Line(to, _, _) => if to == Some(id) then None else Open(log[..k], id)
  {
    assert log[..k + 1][..k] == log[..k];
  }

  lemma OpenWasAccepted(log: seq<Obs>, id: RequestId)
    ensures Open(log, id).Some? ==> Accepted(Open(log, id).value, id) in log
  {
    if log != [] { OpenWasAccepted(log[..|log| - 1], id); }
  }

  /** Until its final response is written, a request stays the open one under its id. */
  lemma {:induction false} OpenUntilFinal(log: seq<Obs>, p: nat, n: nat)
    requires Orderly(log) && p < n <= |log| && log[p].Accepted?
    requires forall k | p < k < n :: !IsFinal(log[k], log[p].inst)
    ensures Open(log[..n], log[p].id) == Some(log[p].inst)
  {
    OpenStep(log, n - 1, log[p].id);
    if n - 1 > p {
      OpenUntilFinal(log, p, n - 1);
      OrderlyPrefix(log, n - 1);
    }
  }

  /** After its final response a request is never open again. */
  lemma {:induction false} ClosedForGood(log: seq<Obs>, j: nat, n: nat, i: nat, id: RequestId)
    requires Orderly(log) && j < n <= |log| && IsFinal(log[j], i)
    ensures Open(log[..n], id) != Some(i)
  {
    hide Open, Orderly;
    OrderlyPrefix(log, j);
    OpenWasAccepted(log[..j], log[j].to.value);
    var p :| 0 <= p < j && log[p] == Accepted(i, log[j].to.value);
    OpenStep(log, n - 1, id);
    if n - 1 > j {
      ClosedForGood(log, j, n - 1, i, id);
      OrderlyPrefix(log, n - 1);
      assert log[..n - 1][p].Accepted?;
    } else if Open(log[..j], id) == Some(i) {
      OpenWasAccepted(log[..j], id);
      AcceptedOnce(log[..j], i, id, log[j].to.value);
    }
  }

  lemma AcceptedOnce(log: seq<Obs>, i: nat, x: RequestId, y: RequestId)
    requires Orderly(log) && Accepted(i, x) in log && Accepted(i, y) in log
    ensures x == y
  {
    var j :| 0 <= j < |log| && log[j] == Accepted(i, x);
    var k :| 0 <= k < |log| && log[k] == Accepted(i, y);
    assert j < k ==> log[..k][j] == log[j];
    assert k < j ==> log[..j][k] == log[k];
    OrderlyPrefix(log, if j < k then k else j);
  }

  /** In every interleaving, a request gets at most one final response. */
  lemma AtMostOneFinalResponse(schedule: seq<Action>, j: nat, k: nat, i: nat)
    ensures var log := Run(schedule).log;
      j < k < |log| && IsFinal(log[j], i) ==> !IsFinal(log[k], i)
  {
    var log := Run(schedule).log;
    hide Run;
    if j < k < |log| && IsFinal(log[j], i) {
      OrderlyPrefix(log, k);
      if log[k].Line? && log[k].to.Some? { ClosedForGood(log, j, k, i, log[k].to.value); }
    }
  }

  /** While a request waits for its response, its id appears on no other line
      and is not accepted a second time, even if it was used before. */
  lemma NoForeignLineWhilePending(schedule: seq<Action>, p: nat, q: nat)
    ensures var log := Run(schedule).log;
      && p < q < |log| && log[p].Accepted? && (forall k | p < k < q :: !IsFinal(log[k], log[p].inst)) ==>
        && (log[q].Accepted? ==> log[q].id != log[p].id)
        && (log[q].Line? && log[q].to == Some(log[p].id) ==> IsFinal(log[q], log[p].inst))
  {
    var log := Run(schedule).log;
    hide Run;
    if p < q < |log| && log[p].Accepted? && forall k | p < k < q :: !IsFinal(log[k], log[p].inst) {
      OpenUntilFinal(log, p, q);
      OrderlyPrefix(log, q);
    }
  }

  lemma {:induction false} AnsweredOrOpen(log: seq<Obs>, p: nat, n: nat)
    requires Orderly(log) && p < n <= |log| && log[p].Accepted?
    ensures Open(log[..n], log[p].id) == Some(log[p].inst)
      || exists q | p < q < n :: IsFinal(log[q], log[p].inst) && log[q].to == Some(log[p].id)
  {
    hide Open, Orderly;
    OpenStep(log, n - 1, log[p].id);
    if n - 1 > p {
      AnsweredOrOpen(log, p, n - 1);
      OrderlyPrefix(log, n - 1);
    }
  }

  predicate CleanExit(c: Coordinator) { c.Exited? && c.how in {ShutdownComplete, InputExhausted} }

  /** When the coordinator leaves because input ended or shutdown completed,
      every accepted request has its final response, under its own id. */
  lemma AnsweredOnCleanExit(schedule: seq<Action>, p: nat)
    ensures var s := Run(schedule);
      CleanExit(s.coordinator) && p < |s.log| && s.log[p].Accepted? ==>
        exists q | p < q < |s.log| :: IsFinal(s.log[q], s.log[p].inst) && s.log[q].to == Some(s.log[p].id)
  {
    var s := Run(schedule);
    hide Run, Rights, ShutdownLast, EventTokens, JobTokens, EventsOk, JobsOk, WorkerOk, WaitersOk;
    if CleanExit(s.coordinator) && p < |s.log| && s.log[p].Accepted? {
      AnsweredOrOpen(s.log, p, |s.log|);
      assert s.log[..|s.log|] == s.log;
    }
  }

  /** A request that was canceled is never executed, and one that was executed
      is never canceled; nothing is executed twice. */
  lemma CanceledNeverRuns(schedule: seq<Action>, j: nat, k: nat, i: nat)
    ensures var log := Run(schedule).log;
      j < |log| && k < |log| && j != k && log[j] == Ran(i) ==>
        log[k] != Ran(i) && !(IsFinal(log[k], i) && log[k].code == CanceledByClient)
  {
    var log := Run(schedule).log;
    hide Run;
    if j < |log| && k < |log| && j != k && log[j] == Ran(i) {
      assert j < k ==> log[..k][j] == log[j];
      assert k < j ==> log[..j][k] == log[k];
      OrderlyPrefix(log, if j < k then k else j);
    }
  }

  /** A cell only moves forward: out of PENDING once, and then at most from COMPLETING to DONE. */
  ghost predicate Forward(f: Flag, g: Flag) {
    f == g || f == PENDING || (f == COMPLETING && g == DONE)
  }

  lemma RunStep(schedule: seq<Action>, a: Action)
    ensures Shape(Run(schedule)) && Run(schedule + [a]) == Next(Run(schedule), a)
  {
    RunShape(schedule);
    hide Inv, Next;
    assert (schedule + [a])[..|schedule|] == schedule;
  }

  lemma RunShape(schedule: seq<Action>)
    ensures Run([]) == Init() && Shape(Run(schedule))
  {
    hide Shape, Rights, Observed, ShutdownLast, CoordinatorOk, Next;
  }

  lemma WorkForward(s: State, choice: bool, i: nat)
    requires Shape(s) && i < |s.cells|
    ensures i < |Work(s, choice).cells| && Forward(s.cells[i], Work(s, choice).cells[i])
  {
    hide EventsOk, JobsOk, WaitersOk, PendingOk;
    match s.worker
    case Holding(Dispatch(j, onTrigger)) =>
    case Subscribing(j) =>
    case Running(j) => assert Work(s, choice).cells == s.cells[j := DONE];
    case _ => assert Work(s, choice).cells == s.cells;
  }

  lemma FrameForward(s: State, f: Frame, i: nat)
    requires Shape(s) && i < |s.cells|
    ensures i < |HandleFrame(s, f).cells| && Forward(s.cells[i], HandleFrame(s, f).cells[i])
  {
    hide EventsOk, JobsOk, WaitersOk, WorkerOk;
    if !s.shutdownQueued && f.Cancel? { assert Forward(s.cells[i], HandleCancel(s, f.id, f.target).cells[i]); }
  }

  lemma ReceiveForward(s: State, i: nat)
    requires Shape(s) && i < |s.cells|
    ensures i < |Receive(s).cells| && Forward(s.cells[i], Receive(s).cells[i])
  {
    if s.coordinator.Receiving? && s.events != [] && s.events[0].FrameRead? {
      FrameForward(s.(events := s.events[1..]), s.events[0].frame, i);
      hide HandleFrame;
    } else {
      hide EventsOk, JobsOk, WaitersOk, WorkerOk, HandleFrame;
    }
  }

  lemma NextForward(s: State, a: Action, i: nat)
    requires Shape(s) && i < |s.cells| && (a.CoordinatorDrains? ==> Drain(s, a.id) == s)
    ensures i < |Next(s, a).cells| && Forward(s.cells[i], Next(s, a).cells[i])
  {
    hide EventsOk, JobsOk, WaitersOk, WorkerOk, Receive, Work;
    match a
    case CoordinatorReceives => ReceiveForward(s, i);
    case WorkerMoves(b) => WorkForward(s, b, i);
    case _ =>
  }

  lemma CellsMoveForward(schedule: seq<Action>, a: Action, i: nat)
    ensures var s, t := Run(schedule), Run(schedule + [a]);
      i < |s.cells| ==> i < |t.cells| && Forward(s.cells[i], t.cells[i])
  {
    RunStep(schedule, a);
    var s := Run(schedule);
    hide Run, Next, Observed, Rights, ShutdownLast, EventTokens, JobTokens, EventsOk, JobsOk, WorkerOk, WaitersOk;
    if i < |s.cells| { NextForward(s, a, i); }
  }

  /** When the completed shutdown has been handled, nobody else is waiting: the
      final drain finds nothing to cancel. */
  lemma ShutdownDrainsNothing(schedule: seq<Action>, id: RequestId)
    ensures var s := Run(schedule);
      s.coordinator.Draining? ==>
        && s.pending == map[]
        && Run(schedule + [CoordinatorDrains(id)]) == s
        && Run(schedule + [CoordinatorContinues]) == s.(coordinator := Exited(ShutdownComplete, []))
  {
    RunStep(schedule, CoordinatorDrains(id));
    RunStep(schedule, CoordinatorContinues);
    hide Run, Observed, Rights, ShutdownLast, EventTokens, JobTokens, EventsOk, JobsOk, WorkerOk, WaitersOk;
  }

  // ---------------------------------------------------------------------
  // Such runs exist
  // ---------------------------------------------------------------------

  function WaitThenCancel(): seq<Action> {
    [ReaderSends(FrameRead(Request("a", WaitSync(true)))), CoordinatorReceives,
     ReaderSends(FrameRead(Cancel("b", Some("a")))), CoordinatorReceives, CoordinatorContinues,
     ReaderSends(InputClosed), CoordinatorReceives, CoordinatorContinues]
  }

  lemma {:induction false} After(n: nat)
    requires n < |WaitThenCancel()|
    ensures Shape(Run(WaitThenCancel()[..n])) &&
      Run(WaitThenCancel()[..n + 1]) == Next(Run(WaitThenCancel()[..n]), WaitThenCancel()[n])
  {
    hide Run, Next, Shape, Inv;
    RunStep(WaitThenCancel()[..n], WaitThenCancel()[n]);
    assert WaitThenCancel()[..n + 1] == WaitThenCancel()[..n] + [WaitThenCancel()[n]];
  }

  function Waiting(): State {
    Init().(insts := [Instance("a", WaitSync(true))], cells := [PENDING], pending := map["a" := 0],
            jobs := [RegisterWait(0)], log := [Accepted(0, "a")])
  }

  function Canceled(): State {
    Waiting().(cells := [CANCELED], pending := map[], coordinator := Acknowledging("b"),
               log := [Accepted(0, "a"), Line(Some("a"), CanceledByClient, Some(0))])
  }

  function Answered(): State {
    Canceled().(coordinator := Receiving, log := Canceled().log + [Line(Some("b"), CancelResult(true), None)])
  }

  lemma {:induction false} WaitAccepted()
    ensures Run(WaitThenCancel()[..2]) == Waiting()
  {
    hide Run, Inv, Shape;
    var run := WaitThenCancel();
    RunShape([]);
    assert run[..0] == [];
    After(0);
    After(1);
  }

  lemma {:induction false} CancelSent()
    ensures Run(WaitThenCancel()[..3]) == Waiting().(events := [FrameRead(Cancel("b", Some("a")))])
  {
    hide Run, Inv, Shape;
    WaitAccepted();
    After(2);
  }

  lemma {:induction false} CancelWon()
    ensures Run(WaitThenCancel()[..4]) == Canceled()
  {
    hide Run, Inv, Shape;
    CancelSent();
    After(3);
    assert Waiting().pending - {"a"} == map[];
    assert Waiting().cells[0 := CANCELED] == [CANCELED];
  }

  lemma {:induction false} WaitAnswered()
    ensures Run(WaitThenCancel()[..5]) == Answered()
  {
    hide Run, Inv, Shape;
    CancelWon();
    After(4);
  }

  /** A wait is accepted, canceled and answered, its job left in the queue, and
      the bridge ends with its input. */
  lemma {:induction false} WaitIsCanceled()
    ensures Run(WaitThenCancel()) ==
      Answered().(readerDone := true, inputClosed := true, coordinator := Exited(InputExhausted, []))
  {
    hide Run, Inv, Shape;
    WaitAnswered();
    assert WaitThenCancel()[..8] == WaitThenCancel();
    After(5);
    After(6);
    After(7);
  }
}
