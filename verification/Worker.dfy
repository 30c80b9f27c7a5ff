/** The worker protocol as a step system: one step per critical section or unlocked action.

    One controlling client calls start and shutdown; any number of clients submit and cancel. */
module Worker {
  import opened Text
  import opened WorkerLifecycle

  // ----------------------------------------------------------------- messages

  datatype Request = Request(id: U64, operation: Operation, deviceId: string, generation: U64, hasScan: bool)

  /** `payload` stands for the discovery, capability and transfer results. */
  datatype Reply = Reply(requestId: U64, operation: Operation, success: bool, issueCode: string, payload: int)

  /** An accepted submission: its number in order of acceptance, and its request. */
  datatype Ticket = Ticket(number: nat, request: Request)

  /** A promise that was set. */
  datatype Answer = Answer(ticket: Ticket, reply: Reply)

  predicate ValidRequest(r: Request) {
    r.id != 0 && r.operation != NoOperation && |r.deviceId| <= 64
    && if r.operation == Refresh then r.deviceId == "" && r.generation == 0 && !r.hasScan
       else
         r.deviceId != "" && r.generation != 0
         && (r.operation == Connect ==> !r.hasScan) && (r.operation == Scan ==> r.hasScan)
  }

  predicate SafeIssueCode(code: string) {
    0 < |code| <= 64 && forall i :: 0 <= i < |code| ==> 'a' <= code[i] <= 'z' || code[i] == '_'
  }

  function FailureReply(r: Request, issueCode: string): Reply {
    Reply(r.id, r.operation, false, issueCode, 0)
  }

  function CancelledReply(r: Request): Reply {
    FailureReply(r, "cancelled")
  }

  /** What run makes of the backend's reply; None where execute throws. */
  function Sanitized(r: Request, reply: Option<Reply>): Reply {
    match reply
    case None => FailureReply(r, "driver_failure")
    case Some(raw) =>
      var named := raw.(requestId := r.id, operation := r.operation);
      if named.success then named.(issueCode := "")
      else if !SafeIssueCode(named.issueCode) then named.(issueCode := "driver_failure")
      else named
  }

  /** A reply that belongs to its request and carries a code exactly when it failed. */
  predicate ProperReply(r: Request, reply: Reply) {
    reply.requestId == r.id && reply.operation == r.operation
    && (if reply.success then reply.issueCode == "" else SafeIssueCode(reply.issueCode))
  }

  lemma SanitizedIsProper(r: Request, reply: Option<Reply>)
    ensures ProperReply(r, Sanitized(r, reply))
  {
  }

  lemma CancelledIsProper(r: Request)
    ensures ProperReply(r, CancelledReply(r))
  {
  }

  // -------------------------------------------------------------------- state

  /** Where the worker thread is in run(). */
  datatype Pc =
    | NoThread | Initialize | OpenBackend | StartLifecycle | PublishIdle | SignalStartup | CheckReady
    | WaitForWork | Begin | PublishBegin | Execute | CheckCancel | Complete | Finish | SetPromise
    | TakeQueue | CancelNext | CloseBackend | ShutdownLifecycle | PublishStopped | Uninitialize
    | Returned | Terminated

  /** Where the controlling client is in start() or shutdown(). */
  datatype Control = Outside | StartWaiting | StartJoining | ShutdownJoining | ShutdownFinishing

  /** The fields the mutex guards, and the atomic cancel flag. */
  datatype Shared = Shared(
    queue: seq<Ticket>, cancelRequested: bool, published: Snapshot, started: bool, accepting: bool,
    stopping: bool, active: bool, startupDone: bool, startupSucceeded: bool)

  /** The locals of run() and the resources of its thread. */
  datatype Local = Local(
    pc: Pc, pending: Option<Ticket>, reply: Reply, cancelled: seq<Ticket>, lifecycle: Snapshot,
    apartmentOpen: bool, backendOpen: bool)

  /** What happened so far: submissions accepted, promises set, what the backend returned for each ticket,
      and the tickets a cancel reached before the worker looked at the flag. */
  datatype Past = Past(
    accepted: seq<Ticket>, answers: seq<Answer>, promisesSet: set<nat>, executed: map<nat, Option<Reply>>,
    cancelledInTime: set<nat>)

  datatype World = World(shared: Shared, local: Local, control: Control, past: Past)

  const MAX_QUEUE: nat := 64
  const NO_REPLY := Reply(0, NoOperation, false, "", 0)

  function Initial(): World {
    World(Shared([], false, STOPPED, false, false, false, false, false, false),
          Local(NoThread, None, NO_REPLY, [], STOPPED, false, false),
          Outside, Past([], [], {}, map[], {}))
  }

  /** The environment's answers: do initialize and open succeed, what does execute return. */
  datatype Outcome = Outcome(ok: bool, reply: Option<Reply>)

  datatype Action =
    | Submit(request: Request)
    | RequestCancel
    | StartBegin | StartWake | StartJoin
    | ShutdownBegin | ShutdownJoin | ShutdownFinish
    | Work(outcome: Outcome)

  // ------------------------------------------------------------ client actions

  predicate MayAccept(s: Shared) {
    s.started && s.accepting && !s.stopping && |s.queue| < MAX_QUEUE
  }

  function SubmitStep(w: World, r: Request): World {
    if !ValidRequest(r) || !MayAccept(w.shared) then w
    else
      var ticket := Ticket(|w.past.accepted|, r);
      w.(shared := w.shared.(queue := w.shared.queue + [ticket]),
         past := w.past.(accepted := w.past.accepted + [ticket]))
  }

  /** From taking a request to looking at the cancel flag. */
  predicate BeforeCheck(pc: Pc) {
    pc == Begin || pc == PublishBegin || pc == Execute || pc == CheckCancel
  }

  function ReachedInTime(l: Local): set<nat> {
    if l.pending.Some? && BeforeCheck(l.pc) then {l.pending.value.number} else {}
  }

  /** Flags the active request as cancelled. */
  function Flagged(w: World): World {
    w.(shared := w.shared.(cancelRequested := true,
                           published := w.shared.published.(cancelRequested := true, state := Cancelling)),
       past := w.past.(cancelledInTime := w.past.cancelledInTime + ReachedInTime(w.local)))
  }

  function RequestCancelStep(w: World): World {
    if !w.shared.active then w else Flagged(w)
  }

  predicate Joinable(w: World) {
    w.local.pc != NoThread
  }

  function StartBeginStep(w: World): Option<World> {
    if w.control != Outside then None
    else if Joinable(w) || w.shared.started then Some(w)
    else
      Some(w.(shared := w.shared.(stopping := false, accepting := false, startupDone := false,
                                  startupSucceeded := false, cancelRequested := false),
              local := Local(Initialize, None, NO_REPLY, [], STOPPED, false, false),
              control := StartWaiting))
  }

  function StartWakeStep(w: World): Option<World> {
    if w.control != StartWaiting || !w.shared.startupDone then None
    else if !w.shared.startupSucceeded then Some(w.(control := StartJoining))
    else Some(w.(shared := w.shared.(started := true, accepting := true), control := Outside))
  }

  function Joined(w: World): World {
    w.(local := w.local.(pc := NoThread))
  }

  function StartJoinStep(w: World): Option<World> {
    if w.control != StartJoining || w.local.pc != Returned then None else Some(Joined(w).(control := Outside))
  }

  function ShutdownBeginStep(w: World): Option<World> {
    if w.control != Outside then None
    else if !Joinable(w) then
      Some(w.(shared := w.shared.(started := false, accepting := false, published := STOPPED)))
    else
      var stopped := w.(shared := w.shared.(accepting := false, stopping := true), control := ShutdownJoining);
      Some(if w.shared.active then Flagged(stopped) else stopped)
  }

  function ShutdownJoinStep(w: World): Option<World> {
    if w.control != ShutdownJoining || w.local.pc != Returned then None
    else Some(Joined(w).(control := ShutdownFinishing))
  }

  function ShutdownFinishStep(w: World): Option<World> {
    if w.control != ShutdownFinishing then None
    else Some(w.(shared := w.shared.(started := false, active := false, published := STOPPED), control := Outside))
  }

  // ------------------------------------------------------------ worker actions

  function At(w: World, pc: Pc): World {
    w.(local := w.local.(pc := pc))
  }

  /** A call on the lifecycle; a throw inside the noexcept run() terminates the process. */
  function Lifecycle(w: World, next: Option<Snapshot>, pc: Pc): World {
    if next.None? then At(w, Terminated) else w.(local := w.local.(lifecycle := next.value, pc := pc))
  }

  function Publish(w: World, pc: Pc): World {
    w.(shared := w.shared.(published := w.local.lifecycle), local := w.local.(pc := pc))
  }

  /** promise.set_value; setting a promise twice would throw. */
  function Answered(w: World, ticket: Ticket, reply: Reply): World {
    if ticket.number in w.past.promisesSet then At(w, Terminated)
    else
      w.(past := w.past.(answers := w.past.answers + [Answer(ticket, reply)],
                         promisesSet := w.past.promisesSet + {ticket.number}))
  }

  function StartupStep(w: World, o: Outcome): World {
    match w.local.pc
    case Initialize =>
      w.(local := w.local.(apartmentOpen := o.ok, pc := if o.ok then OpenBackend else SignalStartup))
    case OpenBackend =>
      // a failed open is followed by close, which leaves the backend closed
      w.(local := w.local.(backendOpen := o.ok, pc := if o.ok then StartLifecycle else SignalStartup))
    case StartLifecycle => Lifecycle(w, Started(w.local.lifecycle), PublishIdle)
    case PublishIdle => Publish(w, SignalStartup)
    case SignalStartup =>
      w.(shared := w.shared.(startupSucceeded := w.local.backendOpen, startupDone := true),
         local := w.local.(pc := CheckReady))
    case CheckReady =>
      if w.local.backendOpen then At(w, WaitForWork)
      else if w.local.apartmentOpen then At(w, Uninitialize)
      else At(w, Returned)
    case _ => w
  }

  function TakeWork(w: World): Option<World> {
    if w.shared.stopping then Some(At(w, TakeQueue))
    else if w.shared.queue == [] then None
    else
      Some(w.(shared := w.shared.(queue := w.shared.queue[1..], active := true, cancelRequested := false),
              local := w.local.(pending := Some(w.shared.queue[0]), pc := Begin)))
  }

  function RequestStep(w: World, o: Outcome): World
    requires w.local.pending.Some?
  {
    var ticket := w.local.pending.value;
    match w.local.pc
    case Begin => Lifecycle(w, Begun(w.local.lifecycle, ticket.request.operation), PublishBegin)
    case PublishBegin => Publish(w, Execute)
    case Execute =>
      w.(local := w.local.(reply := Sanitized(ticket.request, o.reply), pc := CheckCancel),
         past := w.past.(executed := w.past.executed[ticket.number := o.reply]))
    case CheckCancel =>
      if w.shared.cancelRequested then
        var called := Lifecycle(w, CancelRequested(w.local.lifecycle), Complete);
        called.(local := called.local.(reply := CancelledReply(ticket.request)))
      else At(w, Complete)
    case Complete => Lifecycle(w, Completed(w.local.lifecycle), Finish)
    case Finish =>
      w.(shared := w.shared.(active := false, cancelRequested := false, published := w.local.lifecycle),
         local := w.local.(pc := SetPromise))
    case SetPromise =>
      Answered(w.(local := w.local.(pending := None, pc := WaitForWork)), ticket, w.local.reply)
    case _ => w
  }

  function ClosingStep(w: World): World {
    match w.local.pc
    case TakeQueue =>
      w.(shared := w.shared.(queue := []), local := w.local.(cancelled := w.shared.queue, pc := CancelNext))
    case CancelNext =>
      if w.local.cancelled == [] then At(w, CloseBackend)
      else
        var ticket := w.local.cancelled[0];
        Answered(w.(local := w.local.(cancelled := w.local.cancelled[1..])), ticket,
                 CancelledReply(ticket.request))
    case CloseBackend => w.(local := w.local.(backendOpen := false, pc := ShutdownLifecycle))
    case ShutdownLifecycle => Lifecycle(w, ShutDown(w.local.lifecycle), PublishStopped)
    case PublishStopped => Publish(w, Uninitialize)
    case Uninitialize => w.(local := w.local.(apartmentOpen := false, pc := Returned))
    case _ => w
  }

  predicate InStartup(pc: Pc) {
    pc == Initialize || pc == OpenBackend || pc == StartLifecycle || pc == PublishIdle || pc == SignalStartup
    || pc == CheckReady
  }

  predicate InRequest(pc: Pc) {
    pc == Begin || pc == PublishBegin || pc == Execute || pc == CheckCancel || pc == Complete || pc == Finish
    || pc == SetPromise
  }

  predicate InClosing(pc: Pc) {
    pc == TakeQueue || pc == CancelNext || pc == CloseBackend || pc == ShutdownLifecycle || pc == PublishStopped
    || pc == Uninitialize
  }

  function WorkStep(w: World, o: Outcome): Option<World> {
    var pc := w.local.pc;
    if InStartup(pc) then Some(StartupStep(w, o))
    else if pc == WaitForWork then TakeWork(w)
    else if InRequest(pc) && w.local.pending.Some? then Some(RequestStep(w, o))
    else if InClosing(pc) then Some(ClosingStep(w))
    else None
  }

  /** The world after an action; None where the action has to wait. */
  function Next(w: World, a: Action): Option<World> {
    match a
    case Submit(r) => Some(SubmitStep(w, r))
    case RequestCancel => Some(RequestCancelStep(w))
    case StartBegin => StartBeginStep(w)
    case StartWake => StartWakeStep(w)
    case StartJoin => StartJoinStep(w)
    case ShutdownBegin => ShutdownBeginStep(w)
    case ShutdownJoin => ShutdownJoinStep(w)
    case ShutdownFinish => ShutdownFinishStep(w)
    case Work(o) => WorkStep(w, o)
  }

  /** Any interleaving: actions that have to wait are skipped. */
  function Exec(w: World, actions: seq<Action>): World
    decreases |actions|
  {
    if actions == [] then w
    else
      var next := Next(w, actions[0]);
      Exec(if next.Some? then next.value else w, actions[1..])
  }

  // ---------------------------------------------------------------- invariant

  function AnsweredTickets(answers: seq<Answer>): (tickets: seq<Ticket>)
    ensures |tickets| == |answers| && forall i :: 0 <= i < |answers| ==> tickets[i] == answers[i].ticket
  {
    seq(|answers|, i requires 0 <= i < |answers| => answers[i].ticket)
  }

  function InFlight(w: World): seq<Ticket> {
    if w.local.pending.Some? then [w.local.pending.value] else []
  }

  /** Every accepted request is answered, in flight, taken for cancellation or queued: in this order, none lost. */
  predicate Conserved(w: World) {
    w.past.accepted == AnsweredTickets(w.past.answers) + InFlight(w) + w.local.cancelled + w.shared.queue
    && |w.shared.queue| <= MAX_QUEUE && |w.local.cancelled| <= MAX_QUEUE
    && (forall i :: 0 <= i < |w.past.accepted| ==>
          w.past.accepted[i].number == i && ValidRequest(w.past.accepted[i].request))
  }

  /** Promises are set in order of acceptance, each once. */
  ghost predicate PromisesInOrder(w: World) {
    forall n: nat :: n in w.past.promisesSet <==> n < |w.past.answers|
  }

  predicate RepliesProper(w: World) {
    forall i :: 0 <= i < |w.past.answers| ==> ProperReply(w.past.answers[i].ticket.request, w.past.answers[i].reply)
  }

  predicate HoldsReply(pc: Pc) {
    pc == CheckCancel || pc == Complete || pc == Finish || pc == SetPromise
  }

  predicate IsActive(pc: Pc) {
    pc == Begin || pc == PublishBegin || pc == Execute || pc == CheckCancel || pc == Complete || pc == Finish
  }

  /** The locals of run() at each point. */
  predicate LocalsFit(w: World) {
    var l := w.local;
    l.pc != Terminated
    && (l.pending.Some? <==> InRequest(l.pc))
    && (l.cancelled != [] ==> l.pc == CancelNext)
    && (HoldsReply(l.pc) ==> ProperReply(l.pending.value.request, l.reply))
    && LifecycleFits(l)
    && (l.backendOpen <==> InRequest(l.pc) || l.pc == StartLifecycle || l.pc == PublishIdle || l.pc == WaitForWork
                           || l.pc == TakeQueue || l.pc == CancelNext || l.pc == CloseBackend
                           || ((l.pc == SignalStartup || l.pc == CheckReady) && l.lifecycle == IDLE))
    && (l.apartmentOpen <==> l.pc != NoThread && l.pc != Initialize && l.pc != Returned
                             && ((l.pc == SignalStartup || l.pc == CheckReady) ==> l.apartmentOpen))
    && (l.backendOpen ==> l.apartmentOpen)
  }

  predicate LifecycleFits(l: Local) {
    match l.pc
    case NoThread => true
    case Initialize => l.lifecycle == STOPPED
    case OpenBackend => l.lifecycle == STOPPED
    case StartLifecycle => l.lifecycle == STOPPED
    case SignalStartup => l.lifecycle == if l.backendOpen then IDLE else STOPPED
    case CheckReady => l.lifecycle == if l.backendOpen then IDLE else STOPPED
    case PublishBegin => l.pending.Some? && Running(l)
    case Execute => l.pending.Some? && Running(l)
    case CheckCancel => l.pending.Some? && Running(l)
    case Complete => l.pending.Some? && (Running(l) || l.lifecycle.state == Cancelling)
    case PublishStopped => l.lifecycle == STOPPED
    case Uninitialize => l.lifecycle == STOPPED
    case Returned => l.lifecycle == STOPPED
    case Terminated => false
    case _ => l.lifecycle == IDLE
  }

  predicate Running(l: Local)
    requires l.pending.Some?
  {
    var op := l.pending.value.request.operation;
    op != NoOperation && l.lifecycle == Snapshot(RunningState(op), op, false)
  }

  /** Where the worker can be while the controlling client is at some point. */
  predicate ControlFits(w: World) {
    var s, pc := w.shared, w.local.pc;
    match w.control
    case Outside =>
      if pc == NoThread then !s.started
      else
        s.started && !s.stopping
        && ((pc == CheckReady && w.local.backendOpen) || pc == WaitForWork || InRequest(pc))
    case StartWaiting =>
      !s.started && !s.stopping
      && (if pc == CheckReady then s.startupDone && s.startupSucceeded == w.local.backendOpen
          else if InStartup(pc) then !s.startupDone
          else s.startupDone && (if s.startupSucceeded then pc == WaitForWork else pc == Uninitialize || pc == Returned))
    case StartJoining =>
      !s.started && !s.stopping && ((pc == CheckReady && !w.local.backendOpen) || pc == Uninitialize || pc == Returned)
    case ShutdownJoining =>
      s.started && s.stopping
      && ((pc == CheckReady && w.local.backendOpen) || pc == WaitForWork || InRequest(pc) || InClosing(pc) || pc == Returned)
      && ((InClosing(pc) && pc != TakeQueue) || pc == Returned ==> s.queue == [])
    case ShutdownFinishing => s.started && s.stopping && pc == NoThread && s.queue == []
  }

  /** The shared flags against the points of run(). */
  predicate FlagsFit(w: World) {
    var s, pc := w.shared, w.local.pc;
    (s.active <==> IsActive(pc))
    && (s.cancelRequested ==> s.active)
    && (pc == SetPromise ==> s.published == IDLE)
    && (s.accepting ==> s.started && !s.stopping)
    && (!s.started ==> s.queue == [])
    && ControlFits(w)
  }

  ghost predicate Inv(w: World) {
    Conserved(w) && PromisesInOrder(w) && RepliesProper(w) && LocalsFit(w) && FlagsFit(w)
  }

  lemma InitialHasInv()
    ensures Inv(Initial())
  {
  }

  // ------------------------------------------------------------- preservation

  lemma SubmitKeepsInv(w: World, r: Request)
    requires Inv(w)
    ensures Inv(SubmitStep(w, r))
  {
    hide LifecycleFits, ProperReply, ValidRequest, SafeIssueCode;
    if ValidRequest(r) && MayAccept(w.shared) {
      var ticket := Ticket(|w.past.accepted|, r);
      var front := AnsweredTickets(w.past.answers) + InFlight(w) + w.local.cancelled;
      assert front + (w.shared.queue + [ticket]) == front + w.shared.queue + [ticket];
    }
  }

  lemma FlaggedKeepsInv(w: World)
    requires Inv(w) && w.shared.active
    ensures Inv(Flagged(w))
  {
    hide LifecycleFits, ProperReply, ValidRequest, SafeIssueCode;
    assert InFlight(Flagged(w)) == InFlight(w);
  }

  lemma StartKeepsInv(w: World, a: Action)
    requires Inv(w) && (a.StartBegin? || a.StartWake?)
    requires Next(w, a).Some?
    ensures Inv(Next(w, a).value)
  {
    hide ProperReply, ValidRequest, SafeIssueCode, AnsweredTickets;
  }

  lemma StartBeginKeepsInv(w: World)
    requires Inv(w) && w.control == Outside
    ensures Inv(StartBeginStep(w).value)
  {
    hide Inv;
    StartKeepsInv(w, StartBegin);
  }

  lemma JoiningKeepsInv(w: World, a: Action)
    requires Inv(w) && (a.StartJoin? || a.ShutdownJoin? || a.ShutdownFinish?)
    requires Next(w, a).Some?
    ensures Inv(Next(w, a).value)
  {
    hide ProperReply, ValidRequest, SafeIssueCode, AnsweredTickets;
  }

  lemma ShutdownBeginKeepsInv(w: World)
    requires Inv(w) && ShutdownBeginStep(w).Some?
    ensures Inv(ShutdownBeginStep(w).value)
  {
    hide LifecycleFits, ProperReply, ValidRequest, SafeIssueCode, AnsweredTickets;
  }

  /** A step that touches neither tickets nor answers keeps their part of the invariant. */
  lemma QuietStep(w: World, after: World)
    requires Conserved(w) && PromisesInOrder(w) && RepliesProper(w)
    requires after.past.accepted == w.past.accepted && after.past.answers == w.past.answers
    requires after.past.promisesSet == w.past.promisesSet && after.shared.queue == w.shared.queue
    requires after.local.pending == w.local.pending && after.local.cancelled == w.local.cancelled
    ensures Conserved(after) && PromisesInOrder(after) && RepliesProper(after)
  {
    hide ProperReply, ValidRequest;
  }

  lemma OpeningKeepsInv(w: World, o: Outcome)
    requires Inv(w) && (w.local.pc == Initialize || w.local.pc == OpenBackend || w.local.pc == StartLifecycle)
    ensures Inv(StartupStep(w, o))
  {
    hide Conserved, PromisesInOrder, RepliesProper, ProperReply, ValidRequest, SafeIssueCode, AnsweredTickets;
    QuietStep(w, StartupStep(w, o));
  }

  lemma SignallingKeepsInv(w: World, o: Outcome)
    requires Inv(w) && (w.local.pc == PublishIdle || w.local.pc == SignalStartup)
    ensures Inv(StartupStep(w, o))
  {
    hide Conserved, PromisesInOrder, RepliesProper, ProperReply, ValidRequest, SafeIssueCode, AnsweredTickets;
    QuietStep(w, StartupStep(w, o));
  }

  lemma CheckingReadyKeepsInv(w: World, o: Outcome)
    requires Inv(w) && w.local.pc == CheckReady
    ensures Inv(StartupStep(w, o))
  {
    hide Conserved, PromisesInOrder, RepliesProper, ProperReply, ValidRequest, SafeIssueCode, AnsweredTickets;
    QuietStep(w, StartupStep(w, o));
  }

  lemma TakeWorkKeepsInv(w: World)
    requires Inv(w) && w.local.pc == WaitForWork && TakeWork(w).Some?
    ensures Inv(TakeWork(w).value)
  {
    hide ProperReply, ValidRequest, SafeIssueCode, AnsweredTickets;
    if !w.shared.stopping {
      var q := w.shared.queue;
      assert q == [q[0]] + q[1..];
      var t := AnsweredTickets(w.past.answers);
      assert t + [] + [] + q == t + [q[0]] + [] + q[1..];
    }
  }

  lemma BeginningKeepsInv(w: World, o: Outcome)
    requires Inv(w) && (w.local.pc == Begin || w.local.pc == PublishBegin)
    ensures Inv(RequestStep(w, o))
  {
    hide Conserved, PromisesInOrder, RepliesProper, ProperReply, SafeIssueCode, AnsweredTickets;
    QuietStep(w, RequestStep(w, o));
    PendingIsValid(w);
  }

  lemma PendingIsValid(w: World)
    requires Inv(w) && w.local.pending.Some?
    ensures ValidRequest(w.local.pending.value.request) && w.local.pending.value.number == |w.past.answers|
  {
    var n := |w.past.answers|;
    assert w.past.accepted[n] == w.local.pending.value;
  }

  lemma ExecutingKeepsInv(w: World, o: Outcome)
    requires Inv(w) && (w.local.pc == Execute || w.local.pc == CheckCancel)
    ensures Inv(RequestStep(w, o))
  {
    hide Conserved, PromisesInOrder, RepliesProper, ProperReply, SafeIssueCode, AnsweredTickets, Sanitized, CancelledReply, ValidRequest;
    QuietStep(w, RequestStep(w, o));
    SanitizedIsProper(w.local.pending.value.request, o.reply);
    CancelledIsProper(w.local.pending.value.request);
  }

  lemma FinishingKeepsInv(w: World, o: Outcome)
    requires Inv(w) && (w.local.pc == Complete || w.local.pc == Finish)
    ensures Inv(RequestStep(w, o))
  {
    hide Conserved, PromisesInOrder, RepliesProper, ProperReply, SafeIssueCode, AnsweredTickets, ValidRequest;
    QuietStep(w, RequestStep(w, o));
  }

  lemma AnswersAppend(answers: seq<Answer>, answer: Answer)
    ensures AnsweredTickets(answers + [answer]) == AnsweredTickets(answers) + [answer.ticket]
  {
  }

  lemma SettingKeepsAccounts(w: World, o: Outcome)
    requires Conserved(w) && PromisesInOrder(w) && RepliesProper(w)
    requires w.local.pc == SetPromise && w.local.pending.Some? && w.local.cancelled == []
    requires ProperReply(w.local.pending.value.request, w.local.reply)
    ensures w.local.pending.value.number == |w.past.answers|
    ensures Conserved(RequestStep(w, o)) && PromisesInOrder(RequestStep(w, o)) && RepliesProper(RequestStep(w, o))
  {
    hide ProperReply, SafeIssueCode, AnsweredTickets, ValidRequest;
    var ticket := w.local.pending.value;
    assert w.past.accepted[|w.past.answers|] == ticket;
    AnswersAppend(w.past.answers, Answer(ticket, w.local.reply));
    var t, q := AnsweredTickets(w.past.answers), w.shared.queue;
    assert t + [ticket] + [] + q == t + [ticket] + [] + [] + q;
  }

  lemma SettingKeepsInv(w: World, o: Outcome)
    requires Inv(w) && w.local.pc == SetPromise
    ensures Inv(RequestStep(w, o))
  {
    hide Conserved, RepliesProper, ProperReply, SafeIssueCode, AnsweredTickets, ValidRequest;
    SettingKeepsAccounts(w, o);
  }

  lemma TakingQueueKeepsInv(w: World)
    requires Inv(w) && w.local.pc == TakeQueue
    ensures Inv(ClosingStep(w))
  {
    hide ProperReply, SafeIssueCode, AnsweredTickets, ValidRequest, CancelledReply;
    var t, q := AnsweredTickets(w.past.answers), w.shared.queue;
    assert t + [] + [] + q == t + [] + q + [];
  }

  lemma CancellingKeepsAccounts(w: World)
    requires Conserved(w) && PromisesInOrder(w) && RepliesProper(w)
    requires w.local.pc == CancelNext && w.local.cancelled != [] && w.local.pending.None?
    ensures w.local.cancelled[0].number == |w.past.answers|
    ensures Conserved(ClosingStep(w)) && PromisesInOrder(ClosingStep(w)) && RepliesProper(ClosingStep(w))
  {
    hide ProperReply, SafeIssueCode, AnsweredTickets, ValidRequest, CancelledReply;
    var t, c, q := AnsweredTickets(w.past.answers), w.local.cancelled, w.shared.queue;
    var n := |w.past.answers|;
    assert w.past.accepted[n] == c[0];
    CancelledIsProper(c[0].request);
    AnswersAppend(w.past.answers, Answer(c[0], CancelledReply(c[0].request)));
    assert c == [c[0]] + c[1..];
    assert t + [] + c + q == t + [c[0]] + [] + c[1..] + q;
  }

  lemma CancellingKeepsInv(w: World)
    requires Inv(w) && w.local.pc == CancelNext
    ensures Inv(ClosingStep(w))
  {
    hide Conserved, RepliesProper, ProperReply, SafeIssueCode, AnsweredTickets, ValidRequest, CancelledReply;
    if w.local.cancelled == [] {
      QuietStep(w, ClosingStep(w));
    } else {
      CancellingKeepsAccounts(w);
    }
  }

  lemma ClosingKeepsInv(w: World)
    requires Inv(w) && (w.local.pc == CloseBackend || w.local.pc == ShutdownLifecycle)
    ensures Inv(ClosingStep(w))
  {
    hide Conserved, PromisesInOrder, RepliesProper, ProperReply, SafeIssueCode, AnsweredTickets, ValidRequest, CancelledReply;
    QuietStep(w, ClosingStep(w));
  }

  lemma ReturningKeepsInv(w: World)
    requires Inv(w) && (w.local.pc == PublishStopped || w.local.pc == Uninitialize)
    ensures Inv(ClosingStep(w))
  {
    hide Conserved, PromisesInOrder, RepliesProper, ProperReply, SafeIssueCode, AnsweredTickets, ValidRequest, CancelledReply;
    QuietStep(w, ClosingStep(w));
  }

  lemma WorkKeepsInv(w: World, o: Outcome)
    requires Inv(w) && WorkStep(w, o).Some?
    ensures Inv(WorkStep(w, o).value)
  {
    hide Inv, StartupStep, TakeWork, RequestStep, ClosingStep;
    match w.local.pc
    case Initialize => OpeningKeepsInv(w, o);
    case OpenBackend => OpeningKeepsInv(w, o);
    case StartLifecycle => OpeningKeepsInv(w, o);
    case PublishIdle => SignallingKeepsInv(w, o);
    case SignalStartup => SignallingKeepsInv(w, o);
    case CheckReady => CheckingReadyKeepsInv(w, o);
    case WaitForWork => TakeWorkKeepsInv(w);
    case Begin => BeginningKeepsInv(w, o);
    case PublishBegin => BeginningKeepsInv(w, o);
    case Execute => ExecutingKeepsInv(w, o);
    case CheckCancel => ExecutingKeepsInv(w, o);
    case Complete => FinishingKeepsInv(w, o);
    case Finish => FinishingKeepsInv(w, o);
    case SetPromise => SettingKeepsInv(w, o);
    case TakeQueue => TakingQueueKeepsInv(w);
    case CancelNext => CancellingKeepsInv(w);
    case CloseBackend => ClosingKeepsInv(w);
    case ShutdownLifecycle => ClosingKeepsInv(w);
    case _ => ReturningKeepsInv(w);
  }

  lemma NextKeepsInv(w: World, a: Action)
    requires Inv(w) && Next(w, a).Some?
    ensures Inv(Next(w, a).value)
  {
    hide Inv, SubmitStep, Flagged, WorkStep, StartBeginStep, StartWakeStep, StartJoinStep, ShutdownBeginStep,
         ShutdownJoinStep, ShutdownFinishStep;
    match a
    case Submit(r) => SubmitKeepsInv(w, r);
    case RequestCancel =>
      if w.shared.active {
        FlaggedKeepsInv(w);
      }
    case ShutdownBegin => ShutdownBeginKeepsInv(w);
    case Work(o) => WorkKeepsInv(w, o);
    case StartBegin => StartKeepsInv(w, a);
    case StartWake => StartKeepsInv(w, a);
    case _ => JoiningKeepsInv(w, a);
  }

  /** The invariant holds in every state that any interleaving reaches. */
  lemma {:induction false} ExecKeepsInv(w: World, actions: seq<Action>)
    requires Inv(w)
    ensures Inv(Exec(w, actions))
    decreases |actions|
  {
    hide Inv, Next;
    if actions != [] {
      if Next(w, actions[0]).Some? {
        NextKeepsInv(w, actions[0]);
      }
      ExecKeepsInv(if Next(w, actions[0]).Some? then Next(w, actions[0]).value else w, actions[1..]);
    }
  }
}
